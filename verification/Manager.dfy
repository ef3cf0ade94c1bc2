/**
  The facade that reconciles config files with the stored documents
  (manager.go): Plan finds what drifted, Apply carries out a decision, Effective
  says what content a document has.
 */
module Manager {
  import opened Util
  import C = ConfigDb

  datatype Backend = Both | Files | DbOnly

  datatype Action = ImportFile | UseFile | UseDb

  // content is empty when there is no file.
  datatype Item = Item(name: string, content: string, format: string) {
    predicate HasFile() {
      content != ""
    }
  }

  const ZERO := C.Snapshot("", "", "", "")

  datatype Reconciliation = Reconciliation(name: string, content: string, format: string, db: C.Snapshot) {
    predicate HasFile() {
      content != ""
    }

    predicate HasDb() {
      db.hash != ""
    }
  }

  type Stored = map<string, C.Snapshot>

  // ---------- what Plan reports ----------

  predicate Drifted(digest: string -> string, stored: Stored, it: Item) {
    if it.HasFile() then it.name !in stored || stored[it.name].hash != C.Hash(digest, it.format, it.content)
    else it.name in stored
  }

  function Reconcile(stored: Stored, it: Item): Reconciliation {
    Reconciliation(it.name, it.content, it.format, if it.name in stored then stored[it.name] else ZERO)
  }

  function PlanOf(digest: string -> string, stored: Stored, items: seq<Item>): seq<Reconciliation> {
    if items == [] then []
    else
      var last := items[|items| - 1];
      PlanOf(digest, stored, items[..|items| - 1]) +
        if Drifted(digest, stored, last) then [Reconcile(stored, last)] else []
  }

  function DbContentOr(cur: C.Snapshot, hasCur: bool, fallback: string): (string, string) {
    if hasCur then (cur.content, cur.format) else ("", fallback)
  }

  // Content and format of a document under a backend.
  function EffectiveOf(backend: Backend, stored: Stored, it: Item): (string, string) {
    if backend.Files? || (backend.Both? && it.HasFile()) then (it.content, it.format)
    else DbContentOr(if it.name in stored then stored[it.name] else ZERO, it.name in stored, it.format)
  }

  ghost predicate PlainFormats(stored: Stored, it: Item) {
    C.NUL !in it.format && forall name :: name in stored ==> C.NUL !in stored[name].format
  }

  lemma SameHash(digest: string -> string, stored: Stored, it: Item)
    requires C.Collisionless(digest) && C.CurrentOk(digest, stored) && PlainFormats(stored, it) && it.name in stored
    ensures var cur := stored[it.name];
            cur.hash == C.Hash(digest, it.format, it.content) <==> cur.format == it.format && cur.content == it.content
  {
    var cur := stored[it.name];
    assert cur == C.Snap(digest, it.name, cur.format, cur.content);
    if cur.hash == C.Hash(digest, it.format, it.content) {
      C.FramingInjective(cur.format, cur.content, it.format, it.content);
    }
  }

  /** Plan leaves an item out exactly when file and database agree on content and
      format, or neither has it. */
  lemma InSyncMeansEqual(digest: string -> string, stored: Stored, it: Item)
    requires C.Collisionless(digest) && C.CurrentOk(digest, stored) && PlainFormats(stored, it)
    ensures !Drifted(digest, stored, it) <==>
              if it.name in stored
              then it.HasFile() && stored[it.name].content == it.content && stored[it.name].format == it.format
              else !it.HasFile()
  {
    if it.name in stored {
      SameHash(digest, stored, it);
    }
  }

  /** Seen from outside: it reports exactly the items for which reading the file
      and reading the database would differ, and besides those only an empty
      document stored in the format asked for, without a file. */
  lemma PlanFindsDisagreement(digest: string -> string, stored: Stored, it: Item)
    requires C.Collisionless(digest) && C.CurrentOk(digest, stored) && PlainFormats(stored, it)
    ensures Drifted(digest, stored, it) <==>
              || EffectiveOf(Files, stored, it) != EffectiveOf(DbOnly, stored, it)
              || (it.name in stored && !it.HasFile() && stored[it.name].content == "" &&
                 stored[it.name].format == it.format)
  {
    if it.name in stored {
      SameHash(digest, stored, it);
    }
  }

  /** A planned item says truly which sides it has. */
  lemma PlannedSides(digest: string -> string, stored: Stored, it: Item)
    requires C.Collisionless(digest) && C.CurrentOk(digest, stored)
    ensures var rec := Reconcile(stored, it);
            && (rec.name, rec.content, rec.format) == (it.name, it.content, it.format)
            && (rec.HasDb() <==> it.name in stored) && (rec.HasFile() <==> it.content != "")
            && (it.name in stored ==> rec.db == stored[it.name])
            && DbContentOr(rec.db, rec.HasDb(), rec.format) == EffectiveOf(DbOnly, stored, it)
  {
    if it.name in stored {
      assert stored[it.name] == C.Snap(digest, it.name, stored[it.name].format, stored[it.name].content);
    }
  }

  /** Plans of lists one after the other make the plan of all, in this order; a
      single item is planned exactly when its two sides differ. */
  lemma {:induction false} PlansConcatenate(digest: string -> string, stored: Stored, a: seq<Item>, b: seq<Item>)
    ensures PlanOf(digest, stored, a + b) == PlanOf(digest, stored, a) + PlanOf(digest, stored, b)
    decreases |b|
  {
    if b == [] {
      assert a + b == a;
    } else {
      var front := b[..|b| - 1];
      PlansConcatenate(digest, stored, a, front);
      assert (a + b)[..|a + b| - 1] == a + front;
    }
  }

  lemma PlanOfOne(digest: string -> string, stored: Stored, it: Item)
    ensures |PlanOf(digest, stored, [it])| <= 1
    ensures PlanOf(digest, stored, [it]) == [] <==>
              if it.name in stored
              then it.content != "" && stored[it.name].hash == digest(it.format + "\0" + it.content)
              else it.content == ""
    ensures forall rec :: rec in PlanOf(digest, stored, [it]) ==>
              && (rec.name, rec.content, rec.format) == (it.name, it.content, it.format)
              && if it.name in stored then rec.db == stored[it.name] else rec.db == C.Snapshot("", "", "", "")
  {
    assert [it][..0] == [];
    assert it.format + [C.NUL] + it.content == it.format + "\0" + it.content;
    assert PlanOf(digest, stored, [it]) == [] + if Drifted(digest, stored, it) then [Reconcile(stored, it)] else [];
  }

  // ---------- importing a plan ----------

  // Apply(ImportFile) for every item of the plan that has a file, in order.
  function ImportAll(digest: string -> string, db: C.Db, plan: seq<Reconciliation>): C.Db {
    if plan == [] then db
    else
      var before := ImportAll(digest, db, plan[..|plan| - 1]);
      var rec := plan[|plan| - 1];
      if rec.HasFile() then C.Imported(digest, before, rec.name, rec.format, rec.content) else before
  }

  ghost predicate DistinctNames(items: seq<Item>) {
    forall i, j :: 0 <= i < j < |items| ==> items[i].name != items[j].name
  }

  lemma PlanOfOneMore(digest: string -> string, stored: Stored, items: seq<Item>, n: nat)
    requires n < |items|
    ensures PlanOf(digest, stored, items[..n + 1]) ==
            if Drifted(digest, stored, items[n]) then PlanOf(digest, stored, items[..n]) + [Reconcile(stored, items[n])]
            else PlanOf(digest, stored, items[..n])
  {
    assert items[..n + 1][..n] == items[..n];
  }

  lemma ImportAllOneMore(digest: string -> string, db: C.Db, plan: seq<Reconciliation>, rec: Reconciliation)
    ensures var before := ImportAll(digest, db, plan);
            ImportAll(digest, db, plan + [rec]) ==
            if rec.HasFile() then C.Imported(digest, before, rec.name, rec.format, rec.content) else before
  {
    assert (plan + [rec])[..|plan|] == plan;
  }

  // Whether importing the plan of items[..n] stores items[i], and what it leaves
  // stored under its name.
  ghost predicate StoredRight(digest: string -> string, db: C.Db, stored: Stored, it: Item, imported: bool) {
    if imported then it.name in stored && stored[it.name] == C.Snap(digest, it.name, it.format, it.content)
    else (it.name in stored <==> it.name in db.current) &&
         (it.name in stored ==> stored[it.name] == db.current[it.name])
  }

  lemma {:induction false} StoredAfterImports(digest: string -> string, db: C.Db, items: seq<Item>, n: nat, i: nat)
    requires DistinctNames(items) && n <= |items| && i < |items|
    ensures StoredRight(digest, db, ImportAll(digest, db, PlanOf(digest, db.current, items[..n])).current, items[i],
                        i < n && Drifted(digest, db.current, items[i]) && items[i].HasFile())
  {
    if n > 0 {
      StoredAfterImports(digest, db, items, n - 1, i);
      PlanOfOneMore(digest, db.current, items, n - 1);
      assert i != n - 1 ==> items[i].name != items[n - 1].name;
      ImportAllOneMore(digest, db, PlanOf(digest, db.current, items[..n - 1]), Reconcile(db.current, items[n - 1]));
    }
  }

  function WithoutFile(plan: seq<Reconciliation>): seq<Reconciliation> {
    if plan == [] then []
    else WithoutFile(plan[..|plan| - 1]) + if plan[|plan| - 1].HasFile() then [] else [plan[|plan| - 1]]
  }

  lemma WithoutFileOneMore(plan: seq<Reconciliation>, rec: Reconciliation)
    ensures WithoutFile(plan + [rec]) == if rec.HasFile() then WithoutFile(plan) else WithoutFile(plan) + [rec]
  {
    assert (plan + [rec])[..|plan|] == plan;
  }

  lemma SettledItem(digest: string -> string, db: C.Db, stored: Stored, it: Item)
    requires StoredRight(digest, db, stored, it, Drifted(digest, db.current, it) && it.HasFile())
    ensures Drifted(digest, stored, it) <==> Drifted(digest, db.current, it) && !it.HasFile()
    ensures Drifted(digest, stored, it) ==> Reconcile(stored, it) == Reconcile(db.current, it)
  {}

  lemma {:induction false} NextPlan(digest: string -> string, db: C.Db, stored: Stored, items: seq<Item>, n: nat)
    requires n <= |items|
    requires forall it :: it in items ==>
               StoredRight(digest, db, stored, it, Drifted(digest, db.current, it) && it.HasFile())
    ensures PlanOf(digest, stored, items[..n]) == WithoutFile(PlanOf(digest, db.current, items[..n]))
  {
    if n > 0 {
      var it := items[n - 1];
      NextPlan(digest, db, stored, items, n - 1);
      PlanOfOneMore(digest, db.current, items, n - 1);
      PlanOfOneMore(digest, stored, items, n - 1);
      SettledItem(digest, db, stored, it);
      WithoutFileOneMore(PlanOf(digest, db.current, items[..n - 1]), Reconcile(db.current, it));
    }
  }

  /** Importing every planned item that has a file settles them: with distinct
      names the next plan is the old one without those, unchanged otherwise. */
  lemma ImportingSettles(digest: string -> string, db: C.Db, items: seq<Item>)
    requires DistinctNames(items)
    ensures PlanOf(digest, ImportAll(digest, db, PlanOf(digest, db.current, items)).current, items)
            == WithoutFile(PlanOf(digest, db.current, items))
  {
    var stored := ImportAll(digest, db, PlanOf(digest, db.current, items)).current;
    assert items[..|items|] == items;
    forall it | it in items
      ensures StoredRight(digest, db, stored, it, Drifted(digest, db.current, it) && it.HasFile())
    {
      var i :| 0 <= i < |items| && items[i] == it;
      StoredAfterImports(digest, db, items, |items|, i);
    }
    NextPlan(digest, db, stored, items, |items|);
  }

  // No file is left to import.
  predicate Settled(digest: string -> string, stored: Stored, items: seq<Item>) {
    forall i :: 0 <= i < |items| && items[i].HasFile() ==> !Drifted(digest, stored, items[i])
  }

  // Files of one name are the same file.
  predicate FilesAgree(items: seq<Item>) {
    forall i, j :: 0 <= i < |items| && 0 <= j < |items| && items[i].HasFile() && items[j].HasFile()
                   && items[i].name == items[j].name ==>
                     items[i].content == items[j].content && items[i].format == items[j].format
  }

  // A name holds what it held, or the file given for it.
  predicate HoldsOldOr(digest: string -> string, db: C.Db, stored: Stored, it: Item) {
    || HoldsFile(digest, stored, it)
    || ((it.name in stored <==> it.name in db.current) &&
       (it.name in stored ==> stored[it.name] == db.current[it.name]))
  }

  predicate HoldsFile(digest: string -> string, stored: Stored, it: Item) {
    it.name in stored && stored[it.name].hash == C.Hash(digest, it.format, it.content)
  }

  // done: the item's own turn in the plan is over.
  predicate AgreedAt(digest: string -> string, db: C.Db, stored: Stored, it: Item, done: bool) {
    if done then HoldsFile(digest, stored, it) else HoldsOldOr(digest, db, stored, it)
  }

  lemma AgreeingImport(digest: string -> string, db: C.Db, before: C.Db, it: Item, done: bool, last: Item)
    requires it.HasFile() && AgreedAt(digest, db, before.current, it, done)
    requires last.HasFile() && last.name == it.name ==> last.content == it.content && last.format == it.format
    ensures var after := if Drifted(digest, db.current, last) && last.HasFile()
                         then C.Imported(digest, before, last.name, last.format, last.content) else before;
            AgreedAt(digest, db, after.current, it, done || it == last)
  {}

  function AfterPlanOf(digest: string -> string, db: C.Db, items: seq<Item>, n: nat): C.Db
    requires n <= |items|
  {
    ImportAll(digest, db, PlanOf(digest, db.current, items[..n]))
  }

  lemma AfterOneMore(digest: string -> string, db: C.Db, items: seq<Item>, n: nat)
    requires n < |items|
    ensures var before, last := AfterPlanOf(digest, db, items, n), items[n];
            AfterPlanOf(digest, db, items, n + 1) ==
            if Drifted(digest, db.current, last) && last.HasFile()
            then C.Imported(digest, before, last.name, last.format, last.content) else before
  {
    PlanOfOneMore(digest, db.current, items, n);
    ImportAllOneMore(digest, db, PlanOf(digest, db.current, items[..n]), Reconcile(db.current, items[n]));
  }

  lemma {:induction false} AgreeingImports(digest: string -> string, db: C.Db, items: seq<Item>, n: nat, i: nat)
    requires FilesAgree(items) && n <= |items| && i < |items| && items[i].HasFile()
    ensures AgreedAt(digest, db, AfterPlanOf(digest, db, items, n).current, items[i], i < n)
  {
    if n > 0 {
      AgreeingImports(digest, db, items, n - 1, i);
      AfterOneMore(digest, db, items, n - 1);
      AgreeingImport(digest, db, AfterPlanOf(digest, db, items, n - 1), items[i], i < n - 1, items[n - 1]);
    } else {
      assert items[..0] == [];
    }
  }

  lemma SettledFilesAgree(digest: string -> string, stored: Stored, items: seq<Item>)
    requires C.Collisionless(digest) && Settled(digest, stored, items)
    requires forall i :: 0 <= i < |items| ==> C.NUL !in items[i].format
    ensures FilesAgree(items)
  {
    forall i, j | 0 <= i < |items| && 0 <= j < |items| && items[i].HasFile() && items[j].HasFile()
                  && items[i].name == items[j].name
      ensures items[i].content == items[j].content && items[i].format == items[j].format
    {
      assert !Drifted(digest, stored, items[i]) && !Drifted(digest, stored, items[j]);
      C.FramingInjective(items[i].format, items[i].content, items[j].format, items[j].content);
    }
  }

  /** With names shared between items, importing the plan settles every file if
      and only if the files of one name are the same, content and format. */
  lemma FilesSettleExactly(digest: string -> string, db: C.Db, items: seq<Item>)
    requires C.Collisionless(digest) && forall i :: 0 <= i < |items| ==> C.NUL !in items[i].format
    ensures Settled(digest, ImportAll(digest, db, PlanOf(digest, db.current, items)).current, items) <==>
              FilesAgree(items)
  {
    var stored := ImportAll(digest, db, PlanOf(digest, db.current, items)).current;
    if Settled(digest, stored, items) {
      SettledFilesAgree(digest, stored, items);
    }
    if FilesAgree(items) {
      assert items[..|items|] == items;
      forall i | 0 <= i < |items| && items[i].HasFile() ensures !Drifted(digest, stored, items[i]) {
        AgreeingImports(digest, db, items, |items|, i);
      }
    }
  }

  /** Two different files of one name drift on: one of them is always left. */
  lemma DifferentFilesDriftOn(digest: string -> string)
    requires C.Collisionless(digest)
    ensures var items := [Item("a", "1", "yaml"), Item("a", "2", "yaml")];
            var db := C.Db(map[], []);
            !Settled(digest, ImportAll(digest, db, PlanOf(digest, db.current, items)).current, items)
  {
    var items := [Item("a", "1", "yaml"), Item("a", "2", "yaml")];
    assert items[0].content != items[1].content && items[0].name == items[1].name;
    FilesSettleExactly(digest, C.Db(map[], []), items);
  }

  /** What Apply(ImportFile) returns is what every backend then holds. */
  lemma ImportIsEffective(digest: string -> string, db: C.Db, it: Item, backend: Backend)
    requires it.HasFile()
    ensures EffectiveOf(backend, C.Imported(digest, db, it.name, it.format, it.content).current, it) ==
              (it.content, it.format)
  {}

  // ---------- the facade ----------

  class ConfigStore {
    const backend: Backend
    const cfgdb: C.Store?

    constructor (backend: Backend, cfgdb: C.Store?)
      ensures this.backend == backend && this.cfgdb == cfgdb
    {
      this.backend, this.cfgdb := backend, cfgdb;
    }

    // Opened without a database exactly when files are all there is.
    ghost predicate Valid() {
      cfgdb == null <==> backend.Files?
    }

    // fails(i) says whether the i-th read of the database errors.
    method Plan(items: seq<Item>, fails: nat -> bool) returns (plan: seq<Reconciliation>, ok: bool)
      requires Valid()
      ensures !backend.Both? ==> ok && plan == []
      ensures backend.Both? ==> (ok <==> forall i: nat :: i < |items| ==> !fails(i))
      ensures plan == if ok && backend.Both? then PlanOf(cfgdb.digest, cfgdb.current, items) else []
    {
      plan := [];
      if !backend.Both? { return [], true; }
      for i := 0 to |items|
        invariant plan == PlanOf(cfgdb.digest, cfgdb.current, items[..i])
        invariant forall k: nat :: k < i ==> !fails(k)
      {
        var it := items[i];
        assert items[..i + 1][..i] == items[..i];
        var failing := fails(i);
        var cur, read := cfgdb.Current(it.name, _ => failing);
        if !read { return [], false; }
        if !it.HasFile() && cur.None? { continue; }
        if it.HasFile() && cur.Some? && cur.value.hash == C.Hash(cfgdb.digest, it.format, it.content) { continue; }
        var rec := Reconciliation(it.name, it.content, it.format, ZERO);
        if cur.Some? { rec := rec.(db := cur.value); }
        plan := plan + [rec];
      }
      assert items[..|items|] == items;
      ok := true;
    }

    method Apply(rec: Reconciliation, act: Action, fails: C.Stage -> bool)
      returns (content: string, format: string, ok: bool)
      requires Valid()
      modifies if act.ImportFile? && cfgdb != null then {cfgdb} else {}
      ensures act.UseDb? ==> ok && (content, format) == DbContentOr(rec.db, rec.HasDb(), rec.format)
      ensures act.UseDb? ==>
                (content, format) == if rec.db.hash != "" then (rec.db.content, rec.db.format) else ("", rec.format)
      ensures act.UseFile? ==> ok && (content, format) == (rec.content, rec.format)
      ensures act.ImportFile? ==> (content, format) == if ok then (rec.content, rec.format) else ("", "")
      ensures act.ImportFile? && cfgdb == null ==> !ok
      ensures act.ImportFile? && cfgdb != null ==>
                cfgdb.Contents() == if C.ImportFails(rec.name in old(cfgdb.current), fails) then old(cfgdb.Contents())
                                    else C.Imported(cfgdb.digest, old(cfgdb.Contents()),
                                                    rec.name, rec.format, rec.content)
      ensures act.ImportFile? && cfgdb != null ==>
                (ok <==> !C.ImportFails(rec.name in old(cfgdb.current), fails) && !fails(C.Marker))
      ensures cfgdb != null && (forall stage :: !fails(stage)) ==> ok
      ensures act.ImportFile? && ok ==>
                cfgdb.current == old(cfgdb.current)[rec.name := C.Snapshot(
                  rec.name, cfgdb.digest(rec.format + "\0" + rec.content), rec.format, rec.content)]
    {
      match act
      case ImportFile =>
        if cfgdb == null { return "", "", false; }
        var outcome := cfgdb.Import(rec.name, rec.content, rec.format, fails);
        if !outcome.Done? { return "", "", false; }
        return rec.content, rec.format, true;
      case UseDb =>
        var r := DbContentOr(rec.db, rec.HasDb(), rec.format);
        return r.0, r.1, true;
      case UseFile =>
        return rec.content, rec.format, true;
    }

    method Effective(it: Item, failing: bool) returns (content: string, format: string, ok: bool)
      requires Valid()
      ensures ok <==> backend.Files? || !failing
      ensures ok ==> (content, format) == EffectiveOf(backend, if cfgdb == null then map[] else cfgdb.current, it)
      ensures backend == Files || (ok && backend == Both && it.content != "") ==>
                (content, format) == (it.content, it.format)
      ensures ok && cfgdb != null && (backend == DbOnly || (backend == Both && it.content == "")) ==>
                (content, format) == if it.name in cfgdb.current
                                     then (cfgdb.current[it.name].content, cfgdb.current[it.name].format)
                                     else ("", it.format)
    {
      if backend.Files? { return it.content, it.format, true; }
      var cur, read := cfgdb.Current(it.name, _ => failing);
      if !read { return "", "", false; }
      if backend.DbOnly? || !it.HasFile() {
        var r := DbContentOr(if cur.Some? then cur.value else ZERO, cur.Some?, it.format);
        return r.0, r.1, true;
      }
      return it.content, it.format, true;
    }
  }
}
