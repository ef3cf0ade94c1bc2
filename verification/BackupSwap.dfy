/**
  The restore swap and its rollback (backup/backup.go).

  A directory is a map from names to files.  Every Lstat, rename and remove
  draws its fate from fails, an arbitrary function of how many of them came
  before, so a statement about all fails is one about every pattern of
  failures - including failures of the rollback itself.
 */
module BackupSwap {
  import opened Util
  import opened Sorting

  const WAL_SUFFIX := ".wal"
  const TEMP_SUFFIX := ".tmp"

  // base and the sidecars that go with it.
  function Trio(base: string): seq<string> {
    [base, base + WAL_SUFFIX, base + TEMP_SUFFIX]
  }

  // The entries and all their sidecars.
  ghost function Affected(names: seq<string>): set<string> {
    set b, n | b in names && n in Trio(b) :: n
  }

  lemma InTrio(names: seq<string>, b: string, n: string)
    requires b in names && n in Trio(b)
    ensures n in Affected(names)
  {}

  type Dir<F> = map<string, F>

  // The fields of a swap.
  datatype State<F> = State(dest: Dir<F>, stage: Dir<F>, aside: Dir<F>, moved: seq<string>, placed: seq<string>)

  datatype Snapshot<F> = Snapshot(dest: Dir<F>, aside: Dir<F>)

  datatype Outcome = Swapped | Aborted(stuck: seq<string>)

  // n is in d exactly as it was in orig.
  predicate SameAt<F(==)>(d: Dir<F>, orig: Dir<F>, n: string) {
    (n in d <==> n in orig) && (n in orig ==> d[n] == orig[n])
  }

  // ---------- what is promised ----------

  // At every moment: an original file is either in aside under its own name or
  // in dest, never in neither and never in both - while it is aside, dest can
  // have only an entry's new file in its place.  Names that are no entry and
  // no sidecar of one are not touched.
  ghost predicate ConservedAt<F>(s: Snapshot<F>, orig: Dir<F>, names: seq<string>, n: string) {
    && (n in s.aside ==> n in orig && s.aside[n] == orig[n])
    && (n in orig && n !in s.aside ==> n in s.dest && s.dest[n] == orig[n])
    && (n in s.dest && (n !in orig || n in s.aside) ==> n in names)
    && (n !in Affected(names) ==> SameAt(s.dest, orig, n) && n !in s.aside)
  }

  ghost predicate Conserved<F>(s: Snapshot<F>, orig: Dir<F>, names: seq<string>) {
    forall n :: ConservedAt(s, orig, names, n)
  }

  // dest after a swap that succeeds.
  ghost predicate ReplacedAt<F>(dest: Dir<F>, orig: Dir<F>, staged: Dir<F>, names: seq<string>, n: string) {
    if n in names then n in dest && n in staged && dest[n] == staged[n]
    else if n in Affected(names) then n !in dest
    else SameAt(dest, orig, n)
  }

  ghost predicate Replaced<F>(dest: Dir<F>, orig: Dir<F>, staged: Dir<F>, names: seq<string>) {
    forall n :: ReplacedAt(dest, orig, staged, names, n)
  }

  // dest and aside after a rollback that could not put stuck right.
  ghost predicate RolledBackAt<F>(s: Snapshot<F>, orig: Dir<F>, stuck: seq<string>, n: string) {
    && (n !in stuck ==> SameAt(s.dest, orig, n) && n !in s.aside)
    && (n in stuck && n in orig ==> n in s.aside && s.aside[n] == orig[n])
    && (n in stuck && n !in orig ==> n in s.dest && n !in s.aside)
  }

  ghost predicate RolledBack<F>(s: Snapshot<F>, orig: Dir<F>, stuck: seq<string>) {
    forall n :: RolledBackAt(s, orig, stuck, n)
  }

  lemma NothingStuck<F>(s: Snapshot<F>, orig: Dir<F>)
    requires RolledBack(s, orig, [])
    ensures s.dest == orig && s.aside == map[]
  {
    forall n ensures n in s.dest <==> n in orig {
      assert RolledBackAt(s, orig, [], n);
    }
    forall n | n in orig ensures s.dest[n] == orig[n] {
      assert RolledBackAt(s, orig, [], n);
    }
    forall n ensures n !in s.aside {
      assert RolledBackAt(s, orig, [], n);
    }
  }

  // ---------- the phases, name by name ----------

  // Originals are being set aside; nothing is placed yet.
  ghost predicate SettingAsideAt<F>(s: State<F>, orig: Dir<F>, names: seq<string>, n: string) {
    && (n in s.moved <==> n in s.aside)
    && (if n in s.aside then n in orig && s.aside[n] == orig[n] && n in Affected(names) && n !in s.dest
        else SameAt(s.dest, orig, n))
  }

  ghost predicate SettingAside<F>(s: State<F>, orig: Dir<F>, staged: Dir<F>, names: seq<string>) {
    && s.stage == staged && s.placed == [] && NoDup(s.moved)
    && forall n :: SettingAsideAt(s, orig, names, n)
  }

  // Entries are being placed.
  ghost predicate PlacingAt<F>(s: State<F>, orig: Dir<F>, staged: Dir<F>, names: seq<string>, n: string) {
    && (n in s.moved <==> n in s.aside)
    && (n in s.aside ==> n in orig && s.aside[n] == orig[n] && n in Affected(names))
    && (if n in s.placed then
          n in names && n in staged && n in s.dest && s.dest[n] == staged[n] && n !in s.stage &&
            (n in orig ==> n in s.aside)
        else
          && SameAt(s.stage, staged, n)
          && if n in s.aside then n !in s.dest else SameAt(s.dest, orig, n))
  }

  ghost predicate Placing<F>(s: State<F>, orig: Dir<F>, staged: Dir<F>, names: seq<string>) {
    && NoDup(s.moved) && NoDup(s.placed)
    && forall n :: PlacingAt(s, orig, staged, names, n)
  }

  // abort has removed or reported the new files in gone, and put back or
  // reported the originals in back.
  ghost predicate UndoingAt<F>(s: State<F>, orig: Dir<F>, names: seq<string>, gone: set<string>, back: set<string>,
                               stuck: seq<string>, n: string) {
    && (n in s.aside ==> n in s.moved && n in orig && s.aside[n] == orig[n])
    && (n in s.moved ==> n in orig && n in Affected(names))
    && (n in s.placed ==> n in names)
    && (n in gone ==> n in s.placed && n !in s.moved)
    && (n in back ==> n in s.moved)
    && (if n in s.moved then
          && (n in s.aside && n in s.dest ==> n in s.placed)
          && (n !in back ==> n in s.aside && n !in stuck)
          && (n in back ==> (n in stuck <==> n in s.aside))
          && (n !in s.aside ==> n in s.dest && s.dest[n] == orig[n])
        else if n in s.placed then
          n !in orig && (n in s.dest <==> n !in gone || n in stuck) && (n in stuck ==> n in gone)
        else
          SameAt(s.dest, orig, n) && n !in stuck)
  }

  ghost predicate Undoing<F>(s: State<F>, orig: Dir<F>, names: seq<string>, gone: set<string>, back: set<string>,
                             stuck: seq<string>) {
    forall n :: UndoingAt(s, orig, names, gone, back, stuck, n)
  }

  function Snap<F>(s: State<F>): Snapshot<F> {
    Snapshot(s.dest, s.aside)
  }

  lemma SettingAsideConserves<F>(s: State<F>, orig: Dir<F>, staged: Dir<F>, names: seq<string>)
    requires SettingAside(s, orig, staged, names)
    ensures Conserved(Snap(s), orig, names)
  {
    forall n ensures ConservedAt(Snap(s), orig, names, n) {
      assert SettingAsideAt(s, orig, names, n);
    }
  }

  lemma PlacingConserves<F>(s: State<F>, orig: Dir<F>, staged: Dir<F>, names: seq<string>)
    requires Placing(s, orig, staged, names)
    ensures Conserved(Snap(s), orig, names)
  {
    forall n ensures ConservedAt(Snap(s), orig, names, n) {
      assert PlacingAt(s, orig, staged, names, n);
      assert n in s.placed ==> n in Trio(n);
    }
  }

  lemma UndoingConserves<F>(s: State<F>, orig: Dir<F>, names: seq<string>, gone: set<string>, back: set<string>,
      stuck: seq<string>)
    requires Undoing(s, orig, names, gone, back, stuck)
    ensures Conserved(Snap(s), orig, names)
  {
    forall n ensures ConservedAt(Snap(s), orig, names, n) {
      assert UndoingAt(s, orig, names, gone, back, stuck, n);
      assert n in s.placed ==> n in Trio(n);
    }
  }

  // ---------- the renames and removes, on values ----------

  function MovedAside<F>(s: State<F>, n: string): State<F>
    requires n in s.dest
  {
    s.(dest := s.dest - {n}, aside := s.aside[n := s.dest[n]], moved := s.moved + [n])
  }

  function Placed<F>(s: State<F>, n: string): State<F>
    requires n in s.stage
  {
    s.(dest := s.dest[n := s.stage[n]], stage := s.stage - {n}, placed := s.placed + [n])
  }

  function PutBack<F>(s: State<F>, n: string): State<F>
    requires n in s.aside
  {
    s.(dest := s.dest[n := s.aside[n]], aside := s.aside - {n})
  }

  lemma SetAsideKeeps<F>(s: State<F>, orig: Dir<F>, staged: Dir<F>, names: seq<string>, n: string)
    requires SettingAside(s, orig, staged, names) && n in s.dest && n in Affected(names)
    ensures SettingAside(MovedAside(s, n), orig, staged, names)
  {
    assert SettingAsideAt(s, orig, names, n);
    forall k ensures SettingAsideAt(MovedAside(s, n), orig, names, k) {
      assert SettingAsideAt(s, orig, names, k);
    }
  }

  lemma PlacingStarts<F>(s: State<F>, orig: Dir<F>, staged: Dir<F>, names: seq<string>)
    requires SettingAside(s, orig, staged, names)
    ensures Placing(s, orig, staged, names)
  {
    forall k ensures PlacingAt(s, orig, staged, names, k) {
      assert SettingAsideAt(s, orig, names, k);
    }
  }

  lemma PlaceKeeps<F>(s: State<F>, orig: Dir<F>, staged: Dir<F>, names: seq<string>, n: string)
    requires Placing(s, orig, staged, names) && n in s.stage && n in names && (n in orig ==> n in s.aside)
    ensures Placing(Placed(s, n), orig, staged, names)
  {
    assert PlacingAt(s, orig, staged, names, n);
    forall k ensures PlacingAt(Placed(s, n), orig, staged, names, k) {
      assert PlacingAt(s, orig, staged, names, k);
    }
  }

  lemma UndoingStarts<F>(s: State<F>, orig: Dir<F>, staged: Dir<F>, names: seq<string>)
    requires Placing(s, orig, staged, names)
    ensures Undoing(s, orig, names, {}, {}, [])
  {
    forall k ensures UndoingAt(s, orig, names, {}, {}, [], k) {
      assert PlacingAt(s, orig, staged, names, k);
    }
  }

  lemma RemoveKeeps<F>(s: State<F>, orig: Dir<F>, names: seq<string>, gone: set<string>, stuck: seq<string>,
      n: string, ok: bool)
    requires Undoing(s, orig, names, gone, {}, stuck)
    requires n in s.placed && n !in s.moved && n !in gone
    ensures n in s.dest
    ensures Undoing(if ok then s.(dest := s.dest - {n}) else s, orig, names, gone + {n}, {},
                    if ok then stuck else stuck + [n])
  {
    assert UndoingAt(s, orig, names, gone, {}, stuck, n);
    var s' := if ok then s.(dest := s.dest - {n}) else s;
    var stuck' := if ok then stuck else stuck + [n];
    forall k ensures UndoingAt(s', orig, names, gone + {n}, {}, stuck', k) {
      assert UndoingAt(s, orig, names, gone, {}, stuck, k);
    }
  }

  lemma PutBackKeeps<F>(s: State<F>, orig: Dir<F>, names: seq<string>, gone: set<string>, back: set<string>,
      stuck: seq<string>,
                        n: string, ok: bool)
    requires Undoing(s, orig, names, gone, back, stuck)
    requires n in s.moved && n !in back
    ensures n in s.aside
    ensures Undoing(if ok then PutBack(s, n) else s, orig, names, gone, back + {n},
                    if ok then stuck else stuck + [n])
  {
    assert UndoingAt(s, orig, names, gone, back, stuck, n);
    var s' := if ok then PutBack(s, n) else s;
    var stuck' := if ok then stuck else stuck + [n];
    forall k ensures UndoingAt(s', orig, names, gone, back + {n}, stuck', k) {
      assert UndoingAt(s, orig, names, gone, back, stuck, k);
    }
  }

  lemma UndoingEnds<F>(s: State<F>, orig: Dir<F>, names: seq<string>, gone: set<string>, back: set<string>,
      stuck: seq<string>)
    requires Undoing(s, orig, names, gone, back, stuck)
    requires forall n :: n in s.placed && n !in s.moved ==> n in gone
    requires forall n :: n in s.moved ==> n in back
    ensures RolledBack(Snap(s), orig, stuck)
  {
    forall n ensures RolledBackAt(Snap(s), orig, stuck, n) {
      assert UndoingAt(s, orig, names, gone, back, stuck, n);
    }
  }

  lemma PlacingEnds<F>(s: State<F>, orig: Dir<F>, staged: Dir<F>, names: seq<string>)
    requires Placing(s, orig, staged, names) && s.placed == names
    requires forall n :: n in Affected(names) && n in orig ==> n in s.aside
    ensures Replaced(s.dest, orig, staged, names)
  {
    forall n ensures ReplacedAt(s.dest, orig, staged, names, n) {
      assert PlacingAt(s, orig, staged, names, n);
    }
  }

  // dest after a success, with the sidecars' names written out.
  ghost predicate PlainlyReplaced<F>(dest: Dir<F>, orig: Dir<F>, staged: Dir<F>, names: seq<string>) {
    && (forall b :: b in names ==> b in dest && b in staged && dest[b] == staged[b])
    && (forall b :: b in names && b + ".wal" !in names ==> b + ".wal" !in dest)
    && (forall b :: b in names && b + ".tmp" !in names ==> b + ".tmp" !in dest)
    && (forall n :: (forall b :: b in names ==> n != b && n != b + ".wal" && n != b + ".tmp") ==>
          (n in dest <==> n in orig) && (n in orig ==> dest[n] == orig[n]))
  }

  lemma SidecarsAre(names: seq<string>, n: string)
    ensures n in Affected(names) <==> exists b :: b in names && (n == b || n == b + ".wal" || n == b + ".tmp")
  {
    if n in Affected(names) {
      var b :| b in names && n in Trio(b);
      TrioIs(b, n);
      assert b in names && (n == b || n == b + ".wal" || n == b + ".tmp");
    }
    if b :| b in names && (n == b || n == b + ".wal" || n == b + ".tmp") {
      TrioIs(b, n);
      assert n in Trio(b);
    }
  }

  lemma TrioIs(b: string, n: string)
    ensures n in Trio(b) <==> n == b || n == b + ".wal" || n == b + ".tmp"
  {
    assert Trio(b) == [b, b + ".wal", b + ".tmp"];
    assert Trio(b)[0] == b && Trio(b)[1] == b + ".wal" && Trio(b)[2] == b + ".tmp";
  }

  lemma ReplacedPlainly<F>(dest: Dir<F>, orig: Dir<F>, staged: Dir<F>, names: seq<string>)
    requires Replaced(dest, orig, staged, names)
    ensures PlainlyReplaced(dest, orig, staged, names)
  {
    forall b | b in names
      ensures b in dest && b in staged && dest[b] == staged[b]
      ensures b + ".wal" !in names ==> b + ".wal" !in dest
      ensures b + ".tmp" !in names ==> b + ".tmp" !in dest
    {
      SidecarsAre(names, b + ".wal");
      SidecarsAre(names, b + ".tmp");
      assert ReplacedAt(dest, orig, staged, names, b);
      assert ReplacedAt(dest, orig, staged, names, b + ".wal") && ReplacedAt(dest, orig, staged, names, b + ".tmp");
    }
    forall n | forall b :: b in names ==> n != b && n != b + ".wal" && n != b + ".tmp"
      ensures (n in dest <==> n in orig) && (n in orig ==> dest[n] == orig[n])
    {
      SidecarsAre(names, n);
      assert ReplacedAt(dest, orig, staged, names, n);
    }
  }

  lemma StuckPlainly<F>(s: Snapshot<F>, orig: Dir<F>, stuck: seq<string>)
    requires RolledBack(s, orig, stuck)
    ensures forall n :: n !in stuck ==> (n in s.dest <==> n in orig) && (n in orig ==> s.dest[n] == orig[n])
    ensures forall n :: n in stuck && n in orig ==> n in s.aside && s.aside[n] == orig[n]
  {
    forall n
      ensures n !in stuck ==> (n in s.dest <==> n in orig) && (n in orig ==> s.dest[n] == orig[n])
      ensures n in stuck && n in orig ==> n in s.aside && s.aside[n] == orig[n]
    {
      assert RolledBackAt(s, orig, stuck, n);
    }
  }

  // ---------- the swap ----------

  class Swap<F(==)> {
    var dest: Dir<F>
    var stage: Dir<F>
    var aside: Dir<F>
    var moved: seq<string>
    var placed: seq<string>
    const fails: nat -> bool
    var ops: nat
    ghost var crashPoints: seq<Snapshot<F>>  // one after every rename and remove

    ghost function St(): State<F>
      reads this
    {
      State(dest, stage, aside, moved, placed)
    }

    // At every crash point so far, every original file was in its place or aside.
    ghost predicate AlwaysConserved(orig: Dir<F>, names: seq<string>)
      reads this
    {
      forall i :: 0 <= i < |crashPoints| ==> Conserved(crashPoints[i], orig, names)
    }

    constructor (destDir: Dir<F>, stageDir: Dir<F>, oracle: nat -> bool)
      ensures St() == State(destDir, stageDir, map[], [], [])
      ensures crashPoints == [] && fails == oracle
    {
      dest, stage, aside := destDir, stageDir, map[];
      moved, placed, crashPoints := [], [], [];
      fails, ops := oracle, 0;
    }

    method Try() returns (ok: bool)
      modifies this`ops
      ensures ops == old(ops) + 1 && ok == !fails(old(ops))
    {
      ok := !fails(ops);
      ops := ops + 1;
    }

    method SetAside(name: string, ghost orig: Dir<F>, ghost staged: Dir<F>, ghost names: seq<string>) returns (ok: bool)
      requires SettingAside(St(), orig, staged, names) && AlwaysConserved(orig, names)
      requires name in Affected(names)
      modifies this
      ensures SettingAside(St(), orig, staged, names) && AlwaysConserved(orig, names)
      ensures ok ==> name !in dest
      ensures (forall i :: !fails(i)) ==> ok
      ensures dest.Keys <= old(dest).Keys
    {
      ok := Try();  // Lstat
      if !ok || name !in dest {
        return;
      }
      ok := Try();  // rename
      if !ok {
        return;
      }
      SetAsideKeeps(St(), orig, staged, names, name);
      aside := aside[name := dest[name]];
      dest := dest - {name};
      moved := moved + [name];
      SettingAsideConserves(St(), orig, staged, names);
      crashPoints := crashPoints + [Snapshot(dest, aside)];
    }

    method Place(base: string, ghost orig: Dir<F>, ghost staged: Dir<F>, ghost names: seq<string>) returns (ok: bool)
      requires Placing(St(), orig, staged, names) && AlwaysConserved(orig, names)
      requires base in names && (base in orig ==> base in aside)
      modifies this
      ensures Placing(St(), orig, staged, names) && AlwaysConserved(orig, names)
      ensures aside == old(aside)
      ensures placed == if ok then old(placed) + [base] else old(placed)
      ensures (forall i :: !fails(i)) && base in staged && base !in old(placed) ==> ok
    {
      assert PlacingAt(St(), orig, staged, names, base);
      ok := Try();
      if !ok || base !in stage {
        return false;
      }
      PlaceKeeps(St(), orig, staged, names, base);
      dest := dest[base := stage[base]];
      stage := stage - {base};
      placed := placed + [base];
      PlacingConserves(St(), orig, staged, names);
      crashPoints := crashPoints + [Snapshot(dest, aside)];
    }

    /** Swap the staged entries in.  Either every entry is replaced, its
        sidecars gone and nothing else changed; or the rollback ran, and
        whatever it did not report as stuck is as it was, while the original of
        every stuck name is intact in aside. */
    method Run(names: seq<string>) returns (r: Outcome)
      requires aside == map[] && moved == [] && placed == [] && crashPoints == []
      modifies this
      ensures r.Swapped? ==> Replaced(dest, old(dest), old(stage), names)
      ensures r.Swapped? ==>
                && (forall b :: b in names ==> b in dest && b in old(stage) && dest[b] == old(stage)[b])
                && (forall b :: b in names && b + ".wal" !in names ==> b + ".wal" !in dest)
                && (forall b :: b in names && b + ".tmp" !in names ==> b + ".tmp" !in dest)
                && (forall n :: (forall b :: b in names ==> n != b && n != b + ".wal" && n != b + ".tmp") ==>
                      (n in dest <==> n in old(dest)) && (n in old(dest) ==> dest[n] == old(dest)[n]))
      ensures (forall i :: !fails(i)) && NoDup(names) && (forall b :: b in names ==> b in old(stage)) ==> r.Swapped?
      ensures r.Swapped? ==> forall n :: n in Affected(names) && n in old(dest) ==>
                n in aside && aside[n] == old(dest)[n]
      ensures r.Aborted? ==> RolledBack(Snapshot(dest, aside), old(dest), r.stuck)
      ensures r.Aborted? && r.stuck == [] ==> dest == old(dest) && aside == map[]
      ensures r.Aborted? ==>
                && (forall n :: n !in r.stuck ==>
                      (n in dest <==> n in old(dest)) && (n in old(dest) ==> dest[n] == old(dest)[n]))
                && (forall n :: n in r.stuck && n in old(dest) ==> n in aside && aside[n] == old(dest)[n])
      ensures r.Aborted? ==> Sorted(r.stuck)
      ensures AlwaysConserved(old(dest), names)
    {
      ghost var orig, staged := dest, stage;
      for i := 0 to |names|
        invariant SettingAside(St(), orig, staged, names) && AlwaysConserved(orig, names)
        invariant forall k, n :: 0 <= k < i && n in Trio(names[k]) ==> n !in dest
      {
        var trio := Trio(names[i]);
        for j := 0 to |trio|
          invariant SettingAside(St(), orig, staged, names) && AlwaysConserved(orig, names)
          invariant forall k, n :: 0 <= k < i && n in Trio(names[k]) ==> n !in dest
          invariant forall k :: 0 <= k < j ==> trio[k] !in dest
        {
          InTrio(names, names[i], trio[j]);
          var ok := SetAside(trio[j], orig, staged, names);
          if !ok {
            PlacingStarts(St(), orig, staged, names);
            r := Abort(orig, staged, names);
            StuckPlainly(Snapshot(dest, aside), orig, r.stuck);
            return;
          }
        }
      }
      AllSetAside(St(), orig, staged, names);
      PlacingStarts(St(), orig, staged, names);
      for i := 0 to |names|
        invariant Placing(St(), orig, staged, names) && AlwaysConserved(orig, names)
        invariant placed == names[..i]
        invariant forall n :: n in Affected(names) && n in orig ==> n in aside && aside[n] == orig[n]
      {
        InTrio(names, names[i], names[i]);
        assert NoDup(names) ==> names[i] !in names[..i];
        var ok := Place(names[i], orig, staged, names);
        if !ok {
          r := Abort(orig, staged, names);
          StuckPlainly(Snapshot(dest, aside), orig, r.stuck);
          return;
        }
      }
      PlacingEnds(St(), orig, staged, names);
      ReplacedPlainly(dest, orig, staged, names);
      r := Swapped;
    }

    /** Undo a swap that stopped half-way: remove the new files that replaced
        nothing, then put every original back, last one first. */
    method Abort(ghost orig: Dir<F>, ghost staged: Dir<F>, ghost names: seq<string>) returns (r: Outcome)
      requires Placing(St(), orig, staged, names) && AlwaysConserved(orig, names)
      modifies this
      ensures r.Aborted? && Sorted(r.stuck)
      ensures RolledBack(Snapshot(dest, aside), orig, r.stuck)
      ensures r.stuck == [] ==> dest == orig && aside == map[]
      ensures AlwaysConserved(orig, names)
    {
      var stuck: seq<string> := [];
      UndoingStarts(St(), orig, staged, names);
      ghost var gone: set<string> := {};
      for i := 0 to |placed|
        invariant placed == old(placed) && moved == old(moved)
        invariant Undoing(St(), orig, names, gone, {}, stuck) && AlwaysConserved(orig, names)
        invariant forall n :: n in gone <==> n in placed[..i] && n !in moved
      {
        var name := placed[i];
        if name !in moved {
          var ok := Try();
          RemoveKeeps(St(), orig, names, gone, stuck, name, ok);
          if ok {
            dest := dest - {name};
          } else {
            stuck := stuck + [name];
          }
          gone := gone + {name};
          UndoingConserves(St(), orig, names, gone, {}, stuck);
          crashPoints := crashPoints + [Snapshot(dest, aside)];
        }
      }
      ghost var back: set<string> := {};
      for i := |moved| downto 0
        invariant placed == old(placed) && moved == old(moved)
        invariant Undoing(St(), orig, names, gone, back, stuck) && AlwaysConserved(orig, names)
        invariant forall n :: n in back <==> n in moved[i..]
      {
        var name := moved[i];
        var ok := Try();
        PutBackKeeps(St(), orig, names, gone, back, stuck, name, ok);
        if ok {
          dest := dest[name := aside[name]];
          aside := aside - {name};
        } else {
          stuck := stuck + [name];
        }
        back := back + {name};
        UndoingConserves(St(), orig, names, gone, back, stuck);
        crashPoints := crashPoints + [Snapshot(dest, aside)];
      }
      UndoingEnds(St(), orig, names, gone, back, stuck);
      var sorted := SortStrings(stuck);
      SameStuck(Snapshot(dest, aside), orig, stuck, sorted);
      if sorted == [] {
        NothingStuck(Snapshot(dest, aside), orig);
        aside := map[];  // RemoveAll
      }
      r := Aborted(sorted);
    }
  }

  lemma AllSetAside<F>(s: State<F>, orig: Dir<F>, staged: Dir<F>, names: seq<string>)
    requires SettingAside(s, orig, staged, names)
    requires forall k, n :: 0 <= k < |names| && n in Trio(names[k]) ==> n !in s.dest
    ensures forall n :: n in Affected(names) && n in orig ==> n in s.aside && s.aside[n] == orig[n]
  {
    forall n | n in Affected(names) && n in orig ensures n in s.aside && s.aside[n] == orig[n] {
      assert SettingAsideAt(s, orig, names, n);
    }
  }

  lemma SameStuck<F>(s: Snapshot<F>, orig: Dir<F>, stuck: seq<string>, sorted: seq<string>)
    requires RolledBack(s, orig, stuck) && multiset(sorted) == multiset(stuck)
    ensures RolledBack(s, orig, sorted)
  {
    forall n ensures RolledBackAt(s, orig, sorted, n) {
      assert RolledBackAt(s, orig, stuck, n);
      SameElements(sorted, stuck, n);
    }
  }

  // ---------- the part of Restore around the swap ----------

  datatype Restored = Wrote(names: seq<string>) | Refused | Stuck(names: seq<string>)

  class Home<F(==)> {
    var dest: Dir<F>
    var leftover: Dir<F>  // a rollback area that was kept
    var ops: nat
    const fails: nat -> bool

    constructor (files: Dir<F>, oracle: nat -> bool)
      ensures dest == files && leftover == map[] && fails == oracle
    {
      dest, leftover, fails, ops := files, map[], oracle, 0;
    }

    method Try() returns (ok: bool)
      modifies this`ops
      ensures ops == old(ops) + 1 && ok == !fails(old(ops))
    {
      ok := !fails(ops);
      ops := ops + 1;
    }

    // The sorted names of the archive's entries.
    method SortedNames(entries: Dir<F>) returns (names: seq<string>)
      ensures Sorted(names) && NoDup(names) && forall n :: n in names <==> n in entries
    {
      var todo := entries.Keys;
      var found: seq<string> := [];
      while todo != {}
        invariant todo <= entries.Keys && NoDup(found)
        invariant forall n :: n in found <==> n in entries && n !in todo
        decreases todo
      {
        var n :| n in todo;
        found := found + [n];
        todo := todo - {n};
      }
      names := SortStrings(found);
      MultisetNoDup(found);
      MultisetNoDup(names);
      forall n ensures n in names <==> n in entries {
        SameElements(names, found, n);
      }
    }

    /** Stage every entry, swap, clean up.  A restore that fails leaves every
        file as it was, unless it names the ones it could not put back; then
        their originals are in the area left behind. */
    method Restore(entries: Dir<F>, swapFails: nat -> bool) returns (r: Restored)
      requires leftover == map[]
      modifies this
      ensures r.Wrote? ==> Sorted(r.names) && (forall n :: n in r.names <==> n in entries)
      ensures r.Wrote? ==> Replaced(dest, old(dest), entries, r.names) && leftover == map[]
      ensures r.Wrote? ==>
                && (forall b :: b in entries ==> b in dest && dest[b] == entries[b])
                && (forall b :: b in entries && b + ".wal" !in entries ==> b + ".wal" !in dest)
                && (forall b :: b in entries && b + ".tmp" !in entries ==> b + ".tmp" !in dest)
                && (forall n :: (forall b :: b in entries ==> n != b && n != b + ".wal" && n != b + ".tmp") ==>
                      (n in dest <==> n in old(dest)) && (n in old(dest) ==> dest[n] == old(dest)[n]))
      ensures (forall i :: !fails(i) && !swapFails(i)) ==> r.Wrote?
      ensures r.Refused? ==> dest == old(dest) && leftover == map[]
      ensures r.Stuck? ==> forall n :: n !in r.names ==>
                                         (n in dest <==> n in old(dest)) && (n in old(dest) ==> dest[n] == old(dest)[n])
      ensures r.Stuck? ==> forall n :: n in r.names && n in old(dest) ==> n in leftover && leftover[n] == old(dest)[n]
      ensures r.Stuck? ==> r.names != [] && Sorted(r.names) && RolledBack(Snapshot(dest, leftover), old(dest), r.names)
    {
      var ok := Try();  // checkReplaceable, acquireDestLocks and MkdirTemp
      if !ok {
        return Refused;
      }
      var names := SortedNames(entries);
      var stage: Dir<F> := map[];
      for i := 0 to |names|
        invariant dest == old(dest) && leftover == map[]
        invariant forall n :: n in stage <==> n in names[..i]
        invariant forall n :: n in stage ==> n in entries && stage[n] == entries[n]
      {
        ok := Try();  // the context, or writing and syncing
        if !ok {
          return Refused;
        }
        stage := stage[names[i] := entries[names[i]]];
      }
      ok := Try();  // MkdirTemp
      if !ok {
        return Refused;
      }
      assert stage == entries;
      var swap := new Swap(dest, stage, swapFails);
      var outcome := swap.Run(names);
      dest := swap.dest;
      match outcome {
        case Swapped =>
          r := Wrote(names);
        case Aborted(stuck) =>
          leftover := swap.aside;
          StuckPlainly(Snapshot(dest, leftover), old(dest), stuck);
          r := if stuck == [] then Refused else Stuck(stuck);
      }
    }
  }
}
