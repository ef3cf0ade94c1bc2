/**
  The versioned config-document store (configdb/configdb.go): one current
  snapshot per name, and the archived ones before it in the order they were
  archived.  digest stands for hexadecimal SHA-256.
 */
module ConfigDb {
  import opened Util

  datatype Snapshot = Snapshot(name: string, hash: string, format: string, content: string)

  datatype Db = Db(current: map<string, Snapshot>, history: seq<Snapshot>)

  const NUL: char := '\0'

  // ---------- the hash ----------

  function Framed(format: string, content: string): string {
    format + [NUL] + content
  }

  function Hash(digest: string -> string, format: string, content: string): string {
    digest(Framed(format, content))
  }

  // No collisions, and never the empty string.
  ghost predicate Collisionless(digest: string -> string) {
    && (forall a, b :: digest(a) == digest(b) ==> a == b)
    && (forall a :: digest(a) != "")
  }

  lemma FramedApart(f: string, c: string, g: string, d: string)
    requires Framed(f, c) == Framed(g, d)
    ensures (f == g && c == d) || f + [NUL] <= g || g + [NUL] <= f
  {
    var s := Framed(f, c);
    assert f == s[..|f|] && g == s[..|g|] && s[|f|] == s[|g|] == NUL;
    assert c == s[|f| + 1..] && d == s[|g| + 1..];
    if |f| < |g| {
      assert f + [NUL] == s[..|f| + 1] == g[..|f| + 1];
    } else if |g| < |f| {
      assert g + [NUL] == s[..|g| + 1] == f[..|g| + 1];
    }
  }

  // Of any two framings with formats among these, equal ones have equal parts.
  ghost predicate KeepsApart(formats: iset<string>) {
    forall f, c, g, d :: f in formats && g in formats && Framed(f, c) == Framed(g, d) ==> f == g && c == d
  }

  // Some format goes on where another and the byte after it end.
  ghost predicate Extends(formats: iset<string>) {
    exists f, g :: f in formats && g in formats && f + [NUL] <= g
  }

  /** The byte between format and content keeps them apart, over any set of
      formats, if and only if no format begins with another and that byte. */
  lemma FramingKeepsApartExactly(formats: iset<string>)
    ensures KeepsApart(formats) <==> !Extends(formats)
  {
    if Extends(formats) {
      var f, g :| f in formats && g in formats && f + [NUL] <= g;
      var rest := g[|f| + 1..];
      assert g == f + [NUL] + rest;
      assert Framed(g, "") == Framed(f, rest + [NUL]);
    } else {
      forall f, c, g, d | f in formats && g in formats && Framed(f, c) == Framed(g, d)
        ensures f == g && c == d
      {
        FramedApart(f, c, g, d);
      }
    }
  }

  /** So equal hashes mean equal formats and equal contents when no format contains
      the byte. */
  lemma FramingInjective(f: string, c: string, g: string, d: string)
    requires Framed(f, c) == Framed(g, d)
    ensures (f == g && c == d) || NUL in f || NUL in g
  {
    FramedApart(f, c, g, d);
    if f + [NUL] <= g {
      assert g[|f|] == NUL;
    } else if g + [NUL] <= f {
      assert f[|g|] == NUL;
    }
  }

  // ---------- transactions ----------

  function Snap(digest: string -> string, name: string, format: string, content: string): Snapshot {
    Snapshot(name, Hash(digest, format, content), format, content)
  }

  function Imported(digest: string -> string, db: Db, name: string, format: string, content: string): Db {
    Db(db.current[name := Snap(digest, name, format, content)],
       if name in db.current then db.history + [db.current[name]] else db.history)
  }

  function Others(history: seq<Snapshot>, name: string): seq<Snapshot> {
    if history == [] then []
    else
      var last := history[|history| - 1];
      Others(history[..|history| - 1], name) + if last.name == name then [] else [last]
  }

  function Forgotten(db: Db, name: string): Db {
    Db(db.current - {name}, Others(db.history, name))
  }

  // ---------- what a name's rows are ----------

  function Archived(history: seq<Snapshot>, name: string): seq<Snapshot> {
    if history == [] then []
    else
      var last := history[|history| - 1];
      Archived(history[..|history| - 1], name) + if last.name == name then [last] else []
  }

  // Oldest first, the current one last.
  function Versions(db: Db, name: string): seq<Snapshot> {
    Archived(db.history, name) + if name in db.current then [db.current[name]] else []
  }

  lemma ArchivedAfterOne(history: seq<Snapshot>, last: Snapshot, name: string)
    ensures Archived(history + [last], name) == Archived(history, name) + if last.name == name then [last] else []
  {
    assert (history + [last])[..|history|] == history;
  }

  lemma {:induction false} ArchivedAfterOthers(history: seq<Snapshot>, gone: string, name: string)
    ensures Archived(Others(history, gone), name) == if name == gone then [] else Archived(history, name)
  {
    if history != [] {
      var front, last := history[..|history| - 1], history[|history| - 1];
      ArchivedAfterOthers(front, gone, name);
      if last.name == gone {
        assert Others(history, gone) == Others(front, gone);
      } else {
        ArchivedAfterOne(Others(front, gone), last, name);
      }
    }
  }

  // A current snapshot carries its own name and the hash of what it holds.
  ghost predicate CurrentOk(digest: string -> string, current: map<string, Snapshot>) {
    forall name :: name in current ==>
      current[name] == Snap(digest, name, current[name].format, current[name].content)
  }

  // ---------- every run ----------

  // A committed change; a call whose transaction failed changes nothing.
  datatype Event =
    | Import(name: string, format: string, content: string)
    | Forget(name: string)

  function Apply(digest: string -> string, db: Db, e: Event): Db {
    match e
    case Import(name, format, content) => Imported(digest, db, name, format, content)
    case Forget(name) => Forgotten(db, name)
  }

  function After(digest: string -> string, events: seq<Event>): Db {
    if events == [] then Db(map[], [])
    else Apply(digest, After(digest, events[..|events| - 1]), events[|events| - 1])
  }

  // The imports of a name since it was last forgotten.
  function ImportsOf(digest: string -> string, events: seq<Event>, name: string): seq<Snapshot> {
    if events == [] then []
    else
      var before := ImportsOf(digest, events[..|events| - 1], name);
      match events[|events| - 1]
      case Import(n, format, content) => if n == name then before + [Snap(digest, name, format, content)] else before
      case Forget(n) => if n == name then [] else before
  }

  lemma OneEvent(digest: string -> string, db: Db, e: Event, name: string)
    requires CurrentOk(digest, db.current)
    ensures CurrentOk(digest, Apply(digest, db, e).current)
    ensures Versions(Apply(digest, db, e), name) ==
            if e.name != name then Versions(db, name)
            else if e.Forget? then []
            else Versions(db, name) + [Snap(digest, name, e.format, e.content)]
  {
    match e
    case Import(n, format, content) =>
      if n in db.current {
        ArchivedAfterOne(db.history, db.current[n], name);
      }
    case Forget(n) =>
      ArchivedAfterOthers(db.history, n, name);
  }

  /** Nothing is lost: after any run of imports and forgets, a name's archived
      snapshots in archive order followed by its current one are exactly its
      imports since it was last forgotten. */
  lemma {:induction false} VersionChain(digest: string -> string, events: seq<Event>, name: string)
    ensures CurrentOk(digest, After(digest, events).current)
    ensures Versions(After(digest, events), name) == ImportsOf(digest, events, name)
  {
    if events != [] {
      VersionChain(digest, events[..|events| - 1], name);
      OneEvent(digest, After(digest, events[..|events| - 1]), events[|events| - 1], name);
    }
  }

  /** So the current snapshot is the latest import, present unless the name was
      never imported or last forgotten. */
  lemma CurrentIsLatest(digest: string -> string, events: seq<Event>, name: string)
    ensures var db, imports := After(digest, events), ImportsOf(digest, events, name);
            && (name in db.current <==> imports != [])
            && (imports != [] ==> db.current[name] == imports[|imports| - 1])
  {
    VersionChain(digest, events, name);
    HistoryHasCurrent(digest, events, name);
  }

  // An archived snapshot's name has a current one.
  lemma OneEventKeepsCurrent(digest: string -> string, db: Db, e: Event, name: string)
    requires CurrentOk(digest, db.current)
    requires name !in db.current ==> Archived(db.history, name) == []
    ensures name !in Apply(digest, db, e).current ==> Archived(Apply(digest, db, e).history, name) == []
  {
    match e
    case Import(n, format, content) =>
      if n in db.current {
        ArchivedAfterOne(db.history, db.current[n], name);
      }
    case Forget(n) =>
      ArchivedAfterOthers(db.history, n, name);
  }

  lemma {:induction false} HistoryHasCurrent(digest: string -> string, events: seq<Event>, name: string)
    ensures var db := After(digest, events);
            name !in db.current ==> Archived(db.history, name) == []
  {
    if events != [] {
      var before := events[..|events| - 1];
      HistoryHasCurrent(digest, before, name);
      VersionChain(digest, before, name);
      OneEventKeepsCurrent(digest, After(digest, before), events[|events| - 1], name);
    }
  }

  // ---------- the store ----------

  datatype Stage = Read | Begin | Archive | DeleteCurrent | InsertCurrent | DeleteHistory | Commit | Marker

  // NotMarked: the change is in, only the generation marker was not written.
  datatype Outcome = Done | NotMarked | Failed

  // Whether the transaction of an import fails, and that of a forget.
  predicate ImportFails(hasCur: bool, fails: Stage -> bool) {
    fails(Read) || fails(Begin) || (hasCur && fails(Archive)) || fails(DeleteCurrent) || fails(InsertCurrent)
    || fails(Commit)
  }

  predicate ForgetFails(fails: Stage -> bool) {
    fails(Begin) || fails(DeleteCurrent) || fails(DeleteHistory) || fails(Commit)
  }

  lemma {:induction false} OthersCount(history: seq<Snapshot>, name: string, s: Snapshot)
    ensures multiset(Others(history, name))[s] == if s.name == name then 0 else multiset(history)[s]
  {
    if history != [] {
      var front, last := history[..|history| - 1], history[|history| - 1];
      OthersCount(front, name, s);
      assert history == front + [last];
    }
  }

  class Store {
    var current: map<string, Snapshot>
    var history: seq<Snapshot>
    const digest: string -> string

    constructor (digest: string -> string)
      ensures Contents() == Db(map[], []) && this.digest == digest
    {
      current, history, this.digest := map[], [], digest;
    }

    function Contents(): Db
      reads this
    {
      Db(current, history)
    }

    method Current(name: string, fails: Stage -> bool) returns (snapshot: Option<Snapshot>, ok: bool)
      ensures ok <==> !fails(Read)
      ensures ok ==> snapshot == if name in current then Some(current[name]) else None
    {
      if fails(Read) { return None, false; }
      return if name in current then Some(current[name]) else None, true;
    }

    method Import(name: string, content: string, format: string, fails: Stage -> bool) returns (outcome: Outcome)
      modifies this
      ensures Contents() == if outcome.Failed? then old(Contents())
                            else Imported(digest, old(Contents()), name, format, content)
      ensures outcome.Failed? <==> ImportFails(name in old(current), fails)
      ensures outcome.Failed? <==>
                || fails(Read) || fails(Begin) || (name in old(current) && fails(Archive))
                || fails(DeleteCurrent) || fails(InsertCurrent) || fails(Commit)
      ensures (forall stage :: !fails(stage)) ==> outcome.Done?
      ensures !outcome.Failed? ==>
                && current == old(current)[name := Snapshot(name, digest(format + "\0" + content), format, content)]
                && history == old(history) + if name in old(current) then [old(current)[name]] else []
      ensures outcome.NotMarked? <==> !outcome.Failed? && fails(Marker)
    {
      var hash := Hash(digest, format, content);
      var cur, ok := Current(name, fails);
      if !ok || fails(Begin) { return Failed; }
      var current0, history0 := current, history;
      if cur.Some? {
        if fails(Archive) { return Failed; }
        history := history + [cur.value];
      }
      if fails(DeleteCurrent) {
        history := history0;
        return Failed;
      }
      current := current - {name};
      if fails(InsertCurrent) || fails(Commit) {
        current, history := current0, history0;
        return Failed;
      }
      current := current[name := Snapshot(name, hash, format, content)];
      assert current == current0[name := Snap(digest, name, format, content)];
      assert format + [NUL] + content == format + "\0" + content;
      return if fails(Marker) then NotMarked else Done;
    }

    method Forget(name: string, fails: Stage -> bool) returns (outcome: Outcome)
      modifies this
      ensures Contents() == if outcome.Failed? then old(Contents()) else Forgotten(old(Contents()), name)
      ensures outcome.Failed? <==> ForgetFails(fails)
      ensures outcome.Failed? <==> fails(Begin) || fails(DeleteCurrent) || fails(DeleteHistory) || fails(Commit)
      ensures (forall stage :: !fails(stage)) ==> outcome.Done?
      ensures !outcome.Failed? ==> name !in current && forall n :: n != name ==>
                && (n in current <==> n in old(current)) && (n in current ==> current[n] == old(current)[n])
      ensures !outcome.Failed? ==> forall s ::
                multiset(history)[s] == if s.name == name then 0 else multiset(old(history))[s]
      ensures outcome.NotMarked? <==> !outcome.Failed? && fails(Marker)
    {
      if fails(Begin) || fails(DeleteCurrent) { return Failed; }
      var current0 := current;
      current := current - {name};
      if fails(DeleteHistory) || fails(Commit) {
        current := current0;
        return Failed;
      }
      forall s ensures multiset(Others(history, name))[s] == if s.name == name then 0 else multiset(history)[s] {
        OthersCount(history, name, s);
      }
      history := Others(history, name);
      return if fails(Marker) then NotMarked else Done;
    }
  }
}
