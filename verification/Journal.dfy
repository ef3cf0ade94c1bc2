/**
  The run journal (journal/journal.go): two tables, runs and their records, and
  the multi-statement transactions that add to them and evict from them.

  A table is a map from primary key to row and a SQL statement a function of the
  tables as they are when it runs, so a condition repeated in three statements
  is evaluated three times.  fails says which call to the database errors.
 */
module Journal {
  import opened Util

  type Id = nat   // what the key sequences hand out
  type Ref = int  // what a caller may name as a run, or as a parent

  const RECORD_CHUNK := 200

  // body stands for the columns no statement here looks at; parent is None for
  // a NULL parent_id.
  datatype Run = Run(parent: Option<Ref>, started: int, body: string)
  datatype Record = Record(run: Id, body: string)
  datatype Tables = Tables(runs: map<Id, Run>, records: map<Id, Record>)

  // The two conditions a run can be doomed by.
  datatype Rule = OlderThan(before: int) | BeyondNewest(keep: nat)

  datatype Stage =
    | Count
    | Begin
    | InsertRun
    | InsertChunk(start: nat)
    | Statement(index: nat)
    | Compaction(index: nat)
    | Commit
    | Checkpoint

  // ---------- ORDER BY started_at DESC, id DESC LIMIT n ----------

  function Tops(runs: map<Id, Run>): set<Id> {
    set id | id in runs && runs[id].parent.None?
  }

  predicate Newer(runs: map<Id, Run>, a: Id, b: Id)
    requires a in runs && b in runs
  {
    runs[a].started > runs[b].started || (runs[a].started == runs[b].started && a > b)
  }

  predicate IsNewest(runs: map<Id, Run>, ids: set<Id>, m: Id)
    requires ids <= runs.Keys
  {
    m in ids && forall x :: x in ids && x != m ==> Newer(runs, m, x)
  }

  lemma {:induction false} NewestExists(runs: map<Id, Run>, ids: set<Id>)
    requires ids <= runs.Keys && |ids| > 0
    ensures exists m :: IsNewest(runs, ids, m)
    decreases |ids|
  {
    var x :| x in ids;
    if ids == {x} {
      assert IsNewest(runs, ids, x);
    } else {
      var rest := ids - {x};
      assert ids == rest + {x};
      assert |rest| == 0 ==> rest == {};
      NewestExists(runs, rest);
      var m :| IsNewest(runs, rest, m);
      assert IsNewest(runs, ids, if Newer(runs, m, x) then m else x);
    }
  }

  function NewestFirst(runs: map<Id, Run>, ids: set<Id>): (order: seq<Id>)
    requires ids <= runs.Keys
    ensures |order| == |ids| && Elems(order) == ids
    decreases |ids|
  {
    if ids == {} then []
    else
      NewestExists(runs, ids);
      var m :| m in ids && IsNewest(runs, ids, m);
      assert ids == {m} + (ids - {m});
      [m] + NewestFirst(runs, ids - {m})
  }

  lemma FirstIsNewest(runs: map<Id, Run>, ids: set<Id>)
    requires ids <= runs.Keys && ids != {}
    ensures var order := NewestFirst(runs, ids);
            IsNewest(runs, ids, order[0]) && order[1..] == NewestFirst(runs, ids - {order[0]})
  {}

  lemma {:induction false} NewestFirstOrdered(runs: map<Id, Run>, ids: set<Id>, i: nat, j: nat)
    requires ids <= runs.Keys && i < j < |ids|
    ensures var order := NewestFirst(runs, ids);
            order[i] in ids && order[j] in ids && Newer(runs, order[i], order[j])
    decreases |ids|
  {
    FirstIsNewest(runs, ids);
    var order := NewestFirst(runs, ids);
    var rest := ids - {order[0]};
    assert order[i] in Elems(order);
    if i > 0 {
      NewestFirstOrdered(runs, rest, i - 1, j - 1);
    } else {
      assert order[j] == order[1..][j - 1] && order[j] in Elems(order[1..]);
    }
  }

  function Limited(order: seq<Id>, n: nat): seq<Id> {
    order[..Min(n, |order|)]
  }

  // The ids the condition selects, on the runs table it is evaluated on.
  function Doomed(runs: map<Id, Run>, rule: Rule): set<Id> {
    match rule
    case OlderThan(before) => set id | id in runs && runs[id].parent.None? && runs[id].started < before
    case BeyondNewest(keep) =>
      set id | id in runs && runs[id].parent.None? && id !in Limited(NewestFirst(runs, Tops(runs)), keep)
  }

  // The n newest, without an order: n of them (all, if fewer), each newer than
  // every one left out.
  ghost predicate AreNewest(runs: map<Id, Run>, kept: set<Id>, n: nat) {
    && kept <= Tops(runs) && |kept| == Min(n, |Tops(runs)|)
    && forall a, b :: a in kept && b in Tops(runs) && b !in kept ==> Newer(runs, a, b)
  }

  // The first n of the order are newer than those after them.
  lemma LimitIsNewer(runs: map<Id, Run>, n: nat, a: Id, b: Id)
    requires a in Limited(NewestFirst(runs, Tops(runs)), n)
    requires b in Tops(runs) && b !in Limited(NewestFirst(runs, Tops(runs)), n)
    ensures a in Tops(runs) && Newer(runs, a, b)
  {
    var order := NewestFirst(runs, Tops(runs));
    var top := Limited(order, n);
    var i :| 0 <= i < |top| && top[i] == a;
    assert b in Elems(order);
    var j :| 0 <= j < |order| && order[j] == b;
    assert forall k :: 0 <= k < |top| ==> top[k] == order[k] && top[k] != b;
    NewestFirstOrdered(runs, Tops(runs), i, j);
  }

  lemma LimitIsDistinct(runs: map<Id, Run>, n: nat)
    ensures |Elems(Limited(NewestFirst(runs, Tops(runs)), n))| == Min(n, |Tops(runs)|)
  {
    var order := NewestFirst(runs, Tops(runs));
    forall i, j | 0 <= i < j < |order| ensures order[i] != order[j] {
      NewestFirstOrdered(runs, Tops(runs), i, j);
    }
    DistinctCount(Limited(order, n));
  }

  /** What the BeyondNewest condition spares is exactly the n newest top-level
      runs, by start time and then id; there is only one such set. */
  lemma SparesTheNewest(runs: map<Id, Run>, n: nat)
    ensures AreNewest(runs, Tops(runs) - Doomed(runs, BeyondNewest(n)), n)
  {
    var kept := Tops(runs) - Doomed(runs, BeyondNewest(n));
    var top := Limited(NewestFirst(runs, Tops(runs)), n);
    forall a | a in top ensures a in Tops(runs) {
      assert a in Elems(NewestFirst(runs, Tops(runs)));
    }
    assert kept == Elems(top);
    LimitIsDistinct(runs, n);
    forall a, b | a in kept && b in Tops(runs) && b !in kept ensures Newer(runs, a, b) {
      LimitIsNewer(runs, n, a, b);
    }
  }

  lemma NewestAreUnique(runs: map<Id, Run>, a: set<Id>, b: set<Id>, n: nat)
    requires AreNewest(runs, a, n) && AreNewest(runs, b, n)
    ensures a == b
  {
    if a != b {
      SameSizeSplits(a, b);
      assert false;
    }
  }

  lemma SameSizeSplits(a: set<Id>, b: set<Id>)
    requires |a| == |b| && a != b
    ensures exists x :: x in a && x !in b
    ensures exists y :: y in b && y !in a
  {
    CommonPart(a, b);
    CommonPart(b, a);
    assert a * b == b * a;
    var x :| x in a - b;
    var y :| y in b - a;
  }

  lemma CommonPart(a: set<Id>, b: set<Id>)
    ensures |a| == |a * b| + |a - b|
    ensures |a - b| == 0 ==> a == a * b
  {
    assert a == a * b + (a - b);
  }

  lemma OldDependOnTops(runs: map<Id, Run>, runs': map<Id, Run>, before: int)
    requires Tops(runs) == Tops(runs')
    requires forall id :: id in Tops(runs) ==> runs[id] == runs'[id]
    ensures Doomed(runs', OlderThan(before)) == Doomed(runs, OlderThan(before))
  {
    var a, b := Doomed(runs, OlderThan(before)), Doomed(runs', OlderThan(before));
    assert forall id :: id in a <==> id in Tops(runs) && runs[id].started < before;
    assert forall id :: id in b <==> id in Tops(runs') && runs'[id].started < before;
    assert a == b;
  }

  lemma NewestDependOnTops(runs: map<Id, Run>, runs': map<Id, Run>, kept: set<Id>, n: nat)
    requires Tops(runs) == Tops(runs') && AreNewest(runs', kept, n)
    requires forall id :: id in Tops(runs) ==> runs[id] == runs'[id]
    ensures AreNewest(runs, kept, n)
  {
    forall a, b | a in kept && b in Tops(runs) && b !in kept ensures Newer(runs, a, b) {
      assert Newer(runs', a, b);
    }
  }

  /** Rows that are not top-level cannot change what is doomed. */
  lemma DoomedDependsOnTops(runs: map<Id, Run>, runs': map<Id, Run>, rule: Rule)
    requires Tops(runs) == Tops(runs')
    requires forall id :: id in Tops(runs) ==> runs[id] == runs'[id]
    ensures Doomed(runs', rule) == Doomed(runs, rule)
  {
    match rule
    case OlderThan(before) =>
      OldDependOnTops(runs, runs', before);
    case BeyondNewest(n) =>
      var kept, kept' := Tops(runs) - Doomed(runs, rule), Tops(runs') - Doomed(runs', rule);
      SparesTheNewest(runs, n);
      SparesTheNewest(runs', n);
      NewestDependOnTops(runs, runs', kept', n);
      NewestAreUnique(runs, kept, kept', n);
      assert Doomed(runs, rule) == Tops(runs) - kept;
      assert Doomed(runs', rule) == Tops(runs') - kept';
  }

  // ---------- statements ----------

  function Children(runs: map<Id, Run>, of: set<Ref>): set<Id> {
    set id | id in runs && runs[id].parent.Some? && runs[id].parent.value in of
  }

  function WithChildren(runs: map<Id, Run>, of: set<Ref>): set<Ref> {
    of + Children(runs, of)
  }

  function RecordsWithout(records: map<Id, Record>, gone: set<Ref>): map<Id, Record> {
    map r | r in records && records[r].run !in gone :: records[r]
  }

  // The index-th of evictStatements.
  function EvictStatement(t: Tables, rule: Rule, index: nat): Tables {
    var doomed := Doomed(t.runs, rule);
    if index == 0 then t.(records := RecordsWithout(t.records, WithChildren(t.runs, doomed)))
    else if index == 1 then t.(runs := t.runs - Children(t.runs, doomed))
    else t.(runs := t.runs - doomed)
  }

  // The index-th of the statements of Delete.
  function DeleteStatement(t: Tables, id: Ref, index: nat): Tables {
    if index == 0 then t.(records := RecordsWithout(t.records, WithChildren(t.runs, {id})))
    else if index == 1 then t.(runs := t.runs - Children(t.runs, {id}))
    else t.(runs := t.runs - {id})
  }

  // One simultaneous deletion of runs, their children and the records of both.
  function Without(t: Tables, of: set<Ref>): Tables {
    var gone := WithChildren(t.runs, of);
    Tables(t.runs - gone, RecordsWithout(t.records, gone))
  }

  /** The condition selects the same runs each time it is evaluated, and the
      three statements together are one simultaneous deletion. */
  lemma EvictionIsOneDeletion(t: Tables, rule: Rule)
    ensures var t1 := EvictStatement(t, rule, 0);
            var t2 := EvictStatement(t1, rule, 1);
            var t3 := EvictStatement(t2, rule, 2);
            && Doomed(t1.runs, rule) == Doomed(t.runs, rule) == Doomed(t2.runs, rule)
            && t3 == Without(t, Doomed(t.runs, rule))
  {
    var doomed := Doomed(t.runs, rule);
    var t2 := EvictStatement(EvictStatement(t, rule, 0), rule, 1);
    assert Tops(t2.runs) == Tops(t.runs);
    DoomedDependsOnTops(t.runs, t2.runs, rule);
    assert t.runs - WithChildren(t.runs, doomed) == t2.runs - doomed;
  }

  /** Delete's three statements are one too, even when the run is its own child. */
  lemma DeleteIsOneDeletion(t: Tables, id: Ref)
    ensures DeleteStatement(DeleteStatement(DeleteStatement(t, id, 0), id, 1), id, 2) == Without(t, {id})
  {
    assert t.runs - WithChildren(t.runs, {id}) == (t.runs - Children(t.runs, {id})) - {id};
  }

  // ---------- what a deletion keeps ----------

  ghost predicate RecordsHaveRuns(t: Tables) {
    forall r :: r in t.records ==> t.records[r].run in t.runs
  }

  // Runs nest one level: a parent is a top-level run of the table.
  ghost predicate NestsOnce(t: Tables) {
    forall id :: id in t.runs && t.runs[id].parent.Some? ==> t.runs[id].parent.value in Tops(t.runs)
  }

  /** However runs are nested, a deletion leaves no record without its run, and
      with the documented one-level nesting no child without its parent. */
  lemma DeletionLeavesNoOrphans(t: Tables, of: set<Ref>)
    ensures RecordsHaveRuns(t) ==> RecordsHaveRuns(Without(t, of))
    ensures NestsOnce(t) ==> NestsOnce(Without(t, of))
  {
    var t' := Without(t, of);
    if NestsOnce(t) {
      forall id | id in t'.runs && t'.runs[id].parent.Some?
        ensures t'.runs[id].parent.value in Tops(t'.runs)
      {
        var p := t.runs[id].parent.value;
        assert p in of ==> id in Children(t.runs, of);
        assert p in Tops(t.runs);
      }
    }
  }

  // Every run that names a parent names one that is there.
  ghost predicate ParentsExist(t: Tables) {
    forall id :: id in t.runs && t.runs[id].parent.Some? ==> t.runs[id].parent.value in t.runs
  }

  // The deletion takes a child of a deleted run without the child's own children.
  ghost predicate CutsThrough(t: Tables, of: set<Ref>) {
    exists id :: id in t.runs && id !in of && t.runs[id].parent.Some? && t.runs[id].parent.value !in of
                 && t.runs[id].parent.value in Children(t.runs, of)
  }

  /** At any depth of nesting, every remaining child keeps its parent exactly when
      no child that goes has children of its own that stay. */
  lemma ParentsKeptExactly(t: Tables, of: set<Ref>)
    requires ParentsExist(t)
    ensures ParentsExist(Without(t, of)) <==> !CutsThrough(t, of)
  {
    var t' := Without(t, of);
    if CutsThrough(t, of) {
      var id :| id in t.runs && id !in of && t.runs[id].parent.Some? && t.runs[id].parent.value !in of
                && t.runs[id].parent.value in Children(t.runs, of);
      assert id in t'.runs && t'.runs[id].parent.value !in t'.runs;
    } else {
      forall id | id in t'.runs && t'.runs[id].parent.Some? ensures t'.runs[id].parent.value in t'.runs {
        assert id !in Children(t.runs, of) && t.runs[id].parent.value !in of;
      }
    }
  }

  /** An instance: deleting a grandparent leaves its grandchild naming a parent
      that is gone. */
  lemma GrandchildIsOrphaned()
    ensures var t := Tables(map[1 := Run(None, 0, ""), 2 := Run(Some(1), 0, ""), 3 := Run(Some(2), 0, "")], map[]);
            var t' := Without(t, {1});
            3 in t'.runs && t'.runs[3].parent == Some(2) && 2 !in t'.runs
  {
    var runs := map[1 := Run(None, 0, ""), 2 := Run(Some(1), 0, ""), 3 := Run(Some(2), 0, "")];
    assert 2 in Children(runs, {1}) && 3 !in Children(runs, {1});
  }

  // What is left of the top-level runs.
  lemma TopsLeft(t: Tables, of: set<Ref>)
    ensures Tops(Without(t, of).runs) == Tops(t.runs) - of
  {}

  /** After Retain(m) the m newest are left, so Retain(n) for any n >= m, in
      particular the same Retain again, dooms nothing. */
  lemma RetainIsIdempotent(t: Tables, m: nat, n: nat)
    requires n >= m
    ensures var t1 := Without(t, Doomed(t.runs, BeyondNewest(m)));
            AreNewest(t.runs, Tops(t1.runs), m) && Doomed(t1.runs, BeyondNewest(n)) == {}
  {
    var dm := Doomed(t.runs, BeyondNewest(m));
    var t1 := Without(t, dm);
    TopsLeft(t, dm);
    SparesTheNewest(t.runs, m);
    SparesTheNewest(t1.runs, n);
    var kept := Tops(t1.runs) - Doomed(t1.runs, BeyondNewest(n));
    SameSize(kept, Tops(t1.runs));
    assert Doomed(t1.runs, BeyondNewest(n)) <= Tops(t1.runs);
  }

  /** Retain(m) and then a stricter Retain(n) leave the tables Retain(n) alone
      would have left, rows, children and records alike. */
  lemma RetainInTwoSteps(t: Tables, m: nat, n: nat)
    requires n <= m
    ensures var t1 := Without(t, Doomed(t.runs, BeyondNewest(m)));
            Without(t1, Doomed(t1.runs, BeyondNewest(n))) == Without(t, Doomed(t.runs, BeyondNewest(n)))
  {
    var dm, dn := Doomed(t.runs, BeyondNewest(m)), Doomed(t.runs, BeyondNewest(n));
    var t1 := Without(t, dm);
    StricterDoom(t, m, n);
    DeletionsCompose(t, dm, dn);
  }

  lemma StricterDoom(t: Tables, m: nat, n: nat)
    requires n <= m
    ensures var dm, dn := Doomed(t.runs, BeyondNewest(m)), Doomed(t.runs, BeyondNewest(n));
            dm <= dn <= Tops(t.runs) && Doomed(Without(t, dm).runs, BeyondNewest(n)) == dn - dm
  {
    var dm, dn := Doomed(t.runs, BeyondNewest(m)), Doomed(t.runs, BeyondNewest(n));
    var runs1 := Without(t, dm).runs;
    TopsLeft(t, dm);
    SparesTheNewest(t.runs, m);
    KeepingTwice(t.runs, runs1, m, n);
    DoomedAreTops(t.runs, BeyondNewest(m));
    DoomedAreTops(t.runs, BeyondNewest(n));
    DoomedAreTops(runs1, BeyondNewest(n));
    KeptSplits(Tops(t.runs), dm, dn, Doomed(runs1, BeyondNewest(n)));
  }

  lemma DoomedAreTops(runs: map<Id, Run>, rule: Rule)
    ensures Doomed(runs, rule) <= Tops(runs)
  {}

  lemma KeptSplits(tops: set<Id>, dm: set<Id>, dn: set<Id>, d1: set<Id>)
    requires dm <= tops && dn <= tops && d1 <= tops - dm && (tops - dm) - d1 == tops - dn
    ensures dm <= dn && d1 == dn - dm
  {
    forall id | id in tops ensures (id in dm ==> id in dn) && (id in d1 <==> id in dn && id !in dm) {
      assert id in tops - dn <==> id in (tops - dm) - d1;
    }
  }

  lemma KeepingTwice(runs: map<Id, Run>, runs1: map<Id, Run>, m: nat, n: nat)
    requires n <= m && AreNewest(runs, Tops(runs1), m)
    requires forall id :: id in Tops(runs1) ==> id in runs && runs1[id] == runs[id]
    ensures Tops(runs1) - Doomed(runs1, BeyondNewest(n)) == Tops(runs) - Doomed(runs, BeyondNewest(n))
  {
    SparesTheNewest(runs, n);
    SparesTheNewest(runs1, n);
    var kept := Tops(runs1) - Doomed(runs1, BeyondNewest(n));
    StillNewest(runs, runs1, kept, m, n);
    NewestAreUnique(runs, kept, Tops(runs) - Doomed(runs, BeyondNewest(n)), n);
  }

  lemma SameSize(a: set<Id>, b: set<Id>)
    requires a <= b && |a| == |b|
    ensures a == b
  {
    if a != b {
      SameSizeSplits(a, b);
    }
  }

  // The n newest of the m newest are the n newest.
  lemma StillNewest(runs: map<Id, Run>, runs1: map<Id, Run>, kept: set<Id>, m: nat, n: nat)
    requires n <= m && AreNewest(runs, Tops(runs1), m) && AreNewest(runs1, kept, n)
    requires forall id :: id in Tops(runs1) ==> id in runs && runs1[id] == runs[id]
    ensures AreNewest(runs, kept, n)
  {
    forall a, b | a in kept && b in Tops(runs) && b !in kept ensures Newer(runs, a, b) {
      if b in Tops(runs1) {
        assert Newer(runs1, a, b);
      }
    }
  }

  // Deleting a set of top-level runs and then the rest of a larger one.
  lemma DeletionsCompose(t: Tables, a: set<Id>, b: set<Id>)
    requires a <= b <= Tops(t.runs)
    ensures Without(Without(t, a), b - a) == Without(t, b)
  {
    var t1 := Without(t, a);
    var gone := WithChildren(t.runs, a) + WithChildren(t1.runs, b - a);
    assert forall id :: id in t.runs ==> (id in gone <==> id in WithChildren(t.runs, b)) by {
      forall id | id in t.runs ensures id in gone <==> id in WithChildren(t.runs, b) {
        if id in Children(t.runs, b) && id !in WithChildren(t.runs, a) {
          assert id in t1.runs;
        }
      }
    }
    assert Without(t1, b - a).runs == Without(t, b).runs;
    forall r | r in t.records
      ensures r in Without(t1, b - a).records <==> r in Without(t, b).records
    {
      var run := t.records[r].run;
      if run !in t.runs {
        assert run in gone <==> run in WithChildren(t.runs, b);
      }
    }
    assert Without(t1, b - a).records == Without(t, b).records;
  }

  /** Prune leaves exactly the top-level runs not started before the time, and
      doing it again removes nothing. */
  lemma PruneAfterPrune(t: Tables, before: int)
    ensures var t1 := Without(t, Doomed(t.runs, OlderThan(before)));
            && (forall id :: id in Tops(t1.runs) <==> id in Tops(t.runs) && t.runs[id].started >= before)
            && Doomed(t1.runs, OlderThan(before)) == {}
  {
    TopsLeft(t, Doomed(t.runs, OlderThan(before)));
  }

  // ---------- adding ----------

  // The records of one Add, each with the next key of the sequence.
  function WithRecords(records: map<Id, Record>, next: Id, run: Id, bodies: seq<string>): map<Id, Record>
    decreases |bodies|
  {
    if bodies == [] then records
    else WithRecords(records[next := Record(run, bodies[0])], next + 1, run, bodies[1..])
  }

  /** A batch adds exactly its own rows: old ones stay, the j-th body is under the
      j-th new key, nothing else appears. */
  lemma {:induction false} WithRecordsRows(records: map<Id, Record>, next: Id, run: Id, bodies: seq<string>, k: Id)
    ensures k in WithRecords(records, next, run, bodies) <==> k in records || next <= k < next + |bodies|
    ensures next <= k < next + |bodies| ==>
              WithRecords(records, next, run, bodies)[k] == Record(run, bodies[k - next])
    ensures k in records && !(next <= k < next + |bodies|) ==>
              WithRecords(records, next, run, bodies)[k] == records[k]
    decreases |bodies|
  {
    if bodies != [] {
      WithRecordsRows(records[next := Record(run, bodies[0])], next + 1, run, bodies[1..], k);
    }
  }

  lemma {:induction false} WithRecordsSplits(records: map<Id, Record>, next: Id, run: Id, a: seq<string>,
      b: seq<string>)
    ensures WithRecords(WithRecords(records, next, run, a), next + |a|, run, b) ==
              WithRecords(records, next, run, a + b)
    decreases |a|
  {
    if a == [] {
      assert a + b == b;
    } else {
      assert (a + b)[1..] == a[1..] + b;
      WithRecordsSplits(records[next := Record(run, a[0])], next + 1, run, a[1..], b);
    }
  }

  /** Deleting a run just added undoes the Add exactly when no other run already
      named the new id as its parent. */
  lemma DeleteUndoesAdd(t: Tables, id: Id, run: Run, next: Id, bodies: seq<string>)
    requires id !in t.runs && RecordsHaveRuns(t) && forall r :: r in t.records ==> r < next
    ensures var t1 := Tables(t.runs[id := run], WithRecords(t.records, next, id, bodies));
            Without(t1, {id}) == t <==> Children(t.runs, {id}) == {}
  {
    var t1 := Tables(t.runs[id := run], WithRecords(t.records, next, id, bodies));
    var gone := WithChildren(t1.runs, {id});
    assert Children(t.runs, {id}) <= gone;
    forall k: Id ensures k in t1.records <==> k in t.records || next <= k < next + |bodies| {
      WithRecordsRows(t.records, next, id, bodies, k);
    }
    forall k | k in t1.records
      ensures next <= k ==> t1.records[k].run == id
      ensures k < next ==> t1.records[k] == t.records[k]
    {
      WithRecordsRows(t.records, next, id, bodies, k);
    }
    if Children(t.runs, {id}) == {} {
      forall c | c in t.runs ensures c !in gone {
        assert c in Children(t1.runs, {id}) ==> c in Children(t.runs, {id});
      }
      assert Without(t1, {id}).runs == t.runs;
      assert forall r :: r in t.records ==> t.records[r].run !in gone;
      assert Without(t1, {id}).records == t.records;
    } else {
      var c :| c in Children(t.runs, {id});
      assert c in t.runs && c !in Without(t1, {id}).runs;
    }
  }

  // DROP IF EXISTS copy; CREATE copy; INSERT INTO copy SELECT; DROP the
  // table; RENAME copy.  Each slot is a table that may not exist.
  method RewriteTable<T>(rows: map<Id, T>, leftover: Option<map<Id, T>>, first: nat, fails: Stage -> bool)
    returns (rewritten: Option<map<Id, T>>, copy: Option<map<Id, T>>, ok: bool)
    ensures ok ==> rewritten == Some(rows) && copy == None
    ensures ok <==> forall i: nat :: first <= i < first + 5 ==> !fails(Compaction(i))
  {
    rewritten, copy, ok := Some(rows), leftover, false;
    if fails(Compaction(first)) { return; }
    copy := None;
    if fails(Compaction(first + 1)) { return; }
    copy := Some(map[]);
    if fails(Compaction(first + 2)) { return; }
    assert map[] + rows == rows;
    copy := Some(copy.value + rewritten.value);
    if fails(Compaction(first + 3)) { return; }
    rewritten := None;
    if fails(Compaction(first + 4)) { return; }
    rewritten, copy, ok := copy, None, true;
  }

  // Every record has its run, and the sequences are ahead of the keys in use.
  ghost predicate Sound(t: Tables, nextRun: Id, nextRecord: Id) {
    && RecordsHaveRuns(t)
    && 1 <= nextRun && 1 <= nextRecord
    && (forall id :: id in t.runs ==> 1 <= id < nextRun)
    && (forall r :: r in t.records ==> 1 <= r < nextRecord)
  }

  lemma DeletionKeepsSound(t: Tables, of: set<Ref>, nextRun: Id, nextRecord: Id)
    requires Sound(t, nextRun, nextRecord)
    ensures Sound(Without(t, of), nextRun, nextRecord)
  {
    DeletionLeavesNoOrphans(t, of);
  }

  lemma AddKeepsSound(t: Tables, nextRun: Id, nextRecord: Id, run: Run, bodies: seq<string>)
    requires Sound(t, nextRun, nextRecord)
    ensures Sound(Tables(t.runs[nextRun := run], WithRecords(t.records, nextRecord, nextRun, bodies)),
                  nextRun + 1, nextRecord + |bodies|)
  {
    forall k | k in WithRecords(t.records, nextRecord, nextRun, bodies)
      ensures k < nextRecord + |bodies| && 1 <= k
      ensures WithRecords(t.records, nextRecord, nextRun, bodies)[k].run in t.runs[nextRun := run]
    {
      WithRecordsRows(t.records, nextRecord, nextRun, bodies, k);
    }
  }

  // ---------- rows, one by one ----------

  // All rows are left as they were but the runs in gone, the runs that name one of
  // these as their parent, and the records of both.
  ghost predicate LeftBut(was: Tables, left: Tables, gone: set<Ref>) {
    && (forall id :: id in left.runs <==>
         id in was.runs && id !in gone && !(was.runs[id].parent != None && was.runs[id].parent.value in gone))
    && (forall id :: id in left.runs ==> left.runs[id] == was.runs[id])
    && (forall r :: r in left.records <==>
         r in was.records && var run := was.records[r].run;
         run !in gone && !(run in was.runs && was.runs[run].parent != None && was.runs[run].parent.value in gone))
    && (forall r :: r in left.records ==> left.records[r] == was.records[r])
  }

  /** A deletion takes the runs it names, their children and the records of both,
      and touches no other row. */
  lemma DeletionPlainly(t: Tables, gone: set<Ref>)
    ensures LeftBut(t, Without(t, gone), gone)
  {
    var all := WithChildren(t.runs, gone);
    assert forall run :: run in all <==>
             run in gone || (run in t.runs && t.runs[run].parent != None && t.runs[run].parent.value in gone);
  }

  lemma TopsPlainly(runs: map<Id, Run>)
    ensures Tops(runs) == set id | id in runs && runs[id].parent == None
  {}

  lemma OldPlainly(runs: map<Id, Run>, before: int)
    ensures Doomed(runs, OlderThan(before)) ==
              set id | id in runs && runs[id].parent == None && runs[id].started < before
  {}

  /** The newest are the runs started last, of those started together the ones with
      the greater id. */
  lemma NewestPlainly(runs: map<Id, Run>, kept: set<Id>, n: nat)
    requires AreNewest(runs, kept, n)
    ensures forall a, b :: a in kept && b in runs && runs[b].parent == None && b !in kept ==>
              runs[a].started > runs[b].started || (runs[a].started == runs[b].started && a > b)
  {
    forall a, b | a in kept && b in runs && runs[b].parent == None && b !in kept
      ensures runs[a].started > runs[b].started || (runs[a].started == runs[b].started && a > b)
    {
      assert b in Tops(runs) && Newer(runs, a, b);
    }
  }

  lemma AddedPlainly(records: map<Id, Record>, next: Id, run: Id, bodies: seq<string>)
    requires forall r :: r in records ==> r < next
    ensures var more := WithRecords(records, next, run, bodies);
            && (forall r :: r in more <==> r in records || next <= r < next + |bodies|)
            && (forall r :: r in records ==> more[r] == records[r])
            && (forall r :: next <= r < next + |bodies| ==> more[r] == Record(run, bodies[r - next]))
  {
    var more := WithRecords(records, next, run, bodies);
    forall r: Id
      ensures r in more <==> r in records || next <= r < next + |bodies|
      ensures r in records ==> more[r] == records[r]
      ensures next <= r < next + |bodies| ==> more[r] == Record(run, bodies[r - next])
    {
      WithRecordsRows(records, next, run, bodies, r);
    }
  }

  class Store {
    var runs: map<Id, Run>
    var records: map<Id, Record>
    var nextRun: Id
    var nextRecord: Id

    constructor ()
      ensures Valid() && Contents() == Tables(map[], map[])
    {
      runs, records, nextRun, nextRecord := map[], map[], 1, 1;
    }

    function Contents(): Tables
      reads this
    {
      Tables(runs, records)
    }

    ghost predicate Valid()
      reads this
    {
      Sound(Contents(), nextRun, nextRecord)
    }

    method Add(parent: Ref, started: int, body: string, bodies: seq<string>, fails: Stage -> bool)
      returns (id: Id, ok: bool)
      requires Valid()
      modifies this
      ensures Valid()
      ensures ok ==> id == old(nextRun) != 0 && id !in old(runs)
      ensures ok ==> runs == old(runs)[id := Run(if parent == 0 then None else Some(parent), started, body)]
      ensures ok ==> records == WithRecords(old(records), old(nextRecord), id, bodies)
      ensures ok ==> forall r :: r in records <==>
                r in old(records) || old(nextRecord) <= r < old(nextRecord) + |bodies|
      ensures ok ==> forall r :: r in old(records) ==> records[r] == old(records)[r]
      ensures ok ==> forall r :: old(nextRecord) <= r < old(nextRecord) + |bodies| ==>
                records[r] == Record(id, bodies[r - old(nextRecord)])
      ensures !ok ==> id == 0 && Contents() == old(Contents())
      ensures (forall stage :: !fails(stage)) ==> ok
    {
      id, ok := 0, false;
      if fails(Begin) || fails(InsertRun) { return; }
      var runs0, records0 := runs, records;
      var key := nextRun;
      runs := runs[key := Run(if parent == 0 then None else Some(parent), started, body)];
      nextRun := nextRun + 1;
      ok := InsertRecords(key, bodies, fails);
      if !ok || fails(Commit) {
        // the deferred Rollback
        runs, records, ok := runs0, records0, false;
        return;
      }
      AddedPlainly(records0, old(nextRecord), key, bodies);
      AddKeepsSound(old(Contents()), old(nextRun), old(nextRecord), runs[key], bodies);
      id := key;
    }

    method InsertRecords(run: Id, bodies: seq<string>, fails: Stage -> bool) returns (ok: bool)
      requires 1 <= nextRecord
      modifies `records, `nextRecord
      ensures old(nextRecord) <= nextRecord
      ensures ok ==> nextRecord == old(nextRecord) + |bodies|
      ensures ok ==> records == WithRecords(old(records), old(nextRecord), run, bodies)
      ensures ok <==> forall start: nat :: start < |bodies| && start % RECORD_CHUNK == 0 ==> !fails(InsertChunk(start))
    {
      var start := 0;
      while start < |bodies|
        invariant 0 <= start && start % RECORD_CHUNK == 0
        invariant nextRecord == old(nextRecord) + Min(start, |bodies|)
        invariant records == WithRecords(old(records), old(nextRecord), run, bodies[..Min(start, |bodies|)])
        invariant forall s: nat :: s < start && s < |bodies| && s % RECORD_CHUNK == 0 ==> !fails(InsertChunk(s))
      {
        var chunk := bodies[start..Min(start + RECORD_CHUNK, |bodies|)];
        if fails(InsertChunk(start)) {
          return false;
        }
        WithRecordsSplits(old(records), old(nextRecord), run, bodies[..start], chunk);
        assert bodies[..start] + chunk == bodies[..Min(start + RECORD_CHUNK, |bodies|)];
        records := WithRecords(records, nextRecord, run, chunk);
        nextRecord := nextRecord + |chunk|;
        start := start + RECORD_CHUNK;
      }
      assert bodies[..Min(start, |bodies|)] == bodies;
      return true;
    }

    method Delete(id: Ref, fails: Stage -> bool) returns (ok: bool)
      requires Valid()
      modifies `runs, `records
      ensures Valid()
      ensures id == 0 ==> ok
      ensures Contents() == if ok && id != 0 then Without(old(Contents()), {id}) else old(Contents())
      ensures ok && id != 0 ==> LeftBut(old(Contents()), Contents(), {id})
      ensures ok && id != 0 ==> forall r :: r in runs <==>
                r in old(runs) && r != id && old(runs)[r].parent != Some(id)
      ensures (forall stage :: !fails(stage)) ==> ok
    {
      if id == 0 { return true; }
      if fails(Begin) { return false; }
      var runs0, records0 := runs, records;
      ok := true;
      for i := 0 to 3
        invariant ok
        invariant i == 0 ==> Contents() == old(Contents())
        invariant i == 1 ==> Contents() == DeleteStatement(old(Contents()), id, 0)
        invariant i == 2 ==> Contents() == DeleteStatement(DeleteStatement(old(Contents()), id, 0), id, 1)
        invariant i == 3 ==> Contents() == Without(old(Contents()), {id})
      {
        DeleteIsOneDeletion(old(Contents()), id);
        if fails(Statement(i)) {
          runs, records := runs0, records0;
          return false;
        }
        var t := DeleteStatement(Contents(), id, i);
        runs, records := t.runs, t.records;
      }
      if fails(Commit) {
        runs, records := runs0, records0;
        return false;
      }
      DeletionKeepsSound(old(Contents()), {id}, nextRun, nextRecord);
      DeletionPlainly(old(Contents()), {id});
    }

    // Inside the transaction: the three statements, then the rewriting of both
    // tables; the caller rolls back when it fails.
    method EvictInTx(rule: Rule, fails: Stage -> bool) returns (ok: bool)
      modifies `runs, `records
      ensures ok ==> Contents() == Without(old(Contents()), Doomed(old(runs), rule))
      ensures (forall stage :: !fails(stage)) ==> ok
    {
      ghost var t0 := Contents();
      for i := 0 to 3
        invariant i == 0 ==> Contents() == t0
        invariant i == 1 ==> Contents() == EvictStatement(t0, rule, 0)
        invariant i == 2 ==> Contents() == EvictStatement(EvictStatement(t0, rule, 0), rule, 1)
        invariant i == 3 ==> Contents() == Without(t0, Doomed(t0.runs, rule))
      {
        EvictionIsOneDeletion(t0, rule);
        if fails(Statement(i)) { return false; }
        var t := EvictStatement(Contents(), rule, i);
        runs, records := t.runs, t.records;
      }
      var rewrittenRecords, leftRecords, okRecords := RewriteTable(records, None, 0, fails);
      if !okRecords { return false; }
      var rewrittenRuns, leftRuns, okRuns := RewriteTable(runs, None, 5, fails);
      if !okRuns { return false; }
      records, runs := rewrittenRecords.value, rewrittenRuns.value;
      return !fails(Commit);
    }

    /** Either the whole eviction or none of it; the count is that of the
        top-level runs gone, and only a failed CHECKPOINT reports an error for
        an eviction that did happen. */
    method Evict(rule: Rule, fails: Stage -> bool) returns (removed: nat, ok: bool)
      requires Valid()
      modifies `runs, `records
      ensures Valid()
      ensures Contents() == if ok || removed > 0 then Without(old(Contents()), Doomed(old(runs), rule))
                            else old(Contents())
      ensures ok || removed > 0 ==> removed == |Doomed(old(runs), rule)|
      ensures removed == |Tops(old(runs))| - |Tops(runs)|
      ensures !ok && removed > 0 ==> fails(Checkpoint)
      ensures (forall stage :: !fails(stage)) ==> ok
    {
      removed, ok := 0, false;
      if fails(Count) { return; }
      var doomed := Doomed(runs, rule);
      if |doomed| == 0 {
        NothingDoomed(Contents(), doomed);
        return 0, true;
      }
      if fails(Begin) { return; }
      var runs0, records0 := runs, records;
      ok := EvictInTx(rule, fails);
      if !ok {
        runs, records := runs0, records0;
        return;
      }
      TopsLeft(old(Contents()), doomed);
      assert Tops(runs) == Tops(runs0) - doomed;
      CountsDiffer(Tops(runs0), doomed);
      DeletionKeepsSound(old(Contents()), doomed, nextRun, nextRecord);
      removed, ok := |doomed|, !fails(Checkpoint);
    }

    /** before is None for the zero time. */
    method Prune(before: Option<int>, fails: Stage -> bool) returns (removed: nat, ok: bool)
      requires Valid()
      modifies `runs, `records
      ensures Valid()
      ensures before.None? ==> ok && removed == 0 && Contents() == old(Contents())
      ensures ok && before.Some? ==>
                && Contents() == Without(old(Contents()), Doomed(old(runs), OlderThan(before.value)))
                && removed == |Tops(old(runs))| - |Tops(runs)|
      ensures ok && before.Some? ==>
                var doomed := set id | id in old(runs) && old(runs)[id].parent == None
                                       && old(runs)[id].started < before.value;
                removed == |doomed| && LeftBut(old(Contents()), Contents(), doomed)
      ensures (forall stage :: !fails(stage)) ==> ok
    {
      if before.None? { return 0, true; }
      removed, ok := Evict(OlderThan(before.value), fails);
      ghost var doomed := Doomed(old(runs), OlderThan(before.value));
      TopsLeft(old(Contents()), doomed);
      DeletionPlainly(old(Contents()), doomed);
      OldPlainly(old(runs), before.value);
    }

    method Retain(maxRuns: int, fails: Stage -> bool) returns (removed: nat, ok: bool)
      requires Valid()
      modifies `runs, `records
      ensures Valid()
      ensures maxRuns <= 0 ==> ok && removed == 0 && Contents() == old(Contents())
      ensures ok && maxRuns > 0 ==>
                && AreNewest(old(runs), Tops(runs), maxRuns)
                && Contents() == Without(old(Contents()), Tops(old(runs)) - Tops(runs))
                && removed == |Tops(old(runs))| - |Tops(runs)|
      ensures ok && maxRuns > 0 ==>
                var kept := set id | id in runs && runs[id].parent == None;
                var all := set id | id in old(runs) && old(runs)[id].parent == None;
                && kept <= all && |kept| == Min(maxRuns, |all|) && LeftBut(old(Contents()), Contents(), all - kept)
                && forall a, b :: a in kept && b in all && b !in kept ==>
                     || old(runs)[a].started > old(runs)[b].started
                     || (old(runs)[a].started == old(runs)[b].started && a > b)
      ensures (forall stage :: !fails(stage)) ==> ok
    {
      if maxRuns <= 0 { return 0, true; }
      removed, ok := Evict(BeyondNewest(maxRuns), fails);
      if ok {
        RetainedNewest(old(Contents()), Contents(), maxRuns);
        RetainedPlainly(old(Contents()), Contents(), maxRuns);
      }
    }
  }

  lemma RetainedNewest(t: Tables, left: Tables, n: nat)
    requires left == Without(t, Doomed(t.runs, BeyondNewest(n)))
    ensures Tops(left.runs) <= Tops(t.runs) && AreNewest(t.runs, Tops(left.runs), n)
    ensures left == Without(t, Tops(t.runs) - Tops(left.runs))
  {
    var doomed := Doomed(t.runs, BeyondNewest(n));
    SparesTheNewest(t.runs, n);
    TopsLeft(t, doomed);
    assert Tops(t.runs) - Tops(left.runs) == doomed;
  }

  lemma RetainedPlainly(t: Tables, left: Tables, n: nat)
    requires AreNewest(t.runs, Tops(left.runs), n) && left == Without(t, Tops(t.runs) - Tops(left.runs))
    ensures var kept := set id | id in left.runs && left.runs[id].parent == None;
            var all := set id | id in t.runs && t.runs[id].parent == None;
            && kept <= all && |kept| == Min(n, |all|) && LeftBut(t, left, all - kept)
            && forall a, b :: a in kept && b in all && b !in kept ==>
                 || t.runs[a].started > t.runs[b].started
                 || (t.runs[a].started == t.runs[b].started && a > b)
  {
    TopsPlainly(t.runs);
    TopsPlainly(left.runs);
    NewestPlainly(t.runs, Tops(left.runs), n);
    DeletionPlainly(t, Tops(t.runs) - Tops(left.runs));
  }

  lemma NothingDoomed(t: Tables, doomed: set<Id>)
    requires |doomed| == 0
    ensures Without(t, doomed) == t
  {
    assert doomed == {};
    assert WithChildren(t.runs, doomed) == {};
  }

  lemma CountsDiffer(a: set<Id>, b: set<Id>)
    ensures b <= a ==> |a - b| == |a| - |b|
  {
    if b <= a {
      assert a == b + (a - b);
    }
  }
}
