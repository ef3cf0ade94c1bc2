/**
  The deduper: a bounded first-in-first-out set of seen keys, mirrored in a
  store so that it survives a restart (stream/stream.go, stream/persist.go).
 */
module Deduper {
  import opened Util

  const SEEN_INIT := "_deduper:init"
  const LEGACY_INIT := "sisyphus:deduper:init"
  const MARKERS := {SEEN_INIT, LEGACY_INIT}

  // ---------- what a run of keys does, on values ----------

  // The newest max keys; max <= 0 means no bound.
  function Trim(order: seq<string>, max: int): seq<string> {
    if max <= 0 || |order| <= max then order else order[|order| - max..]
  }

  function After(order: seq<string>, k: string, max: int): seq<string> {
    if k in order then order else Trim(order + [k], max)
  }

  function Feed(order: seq<string>, ks: seq<string>, max: int): seq<string>
    decreases |ks|
  {
    if ks == [] then order
    else Feed(After(order, ks[0], max), ks[1..], max)
  }

  // The positions that are recorded: those whose key is not remembered just then.
  function IsNew(order: seq<string>, ks: seq<string>, max: int): (r: seq<bool>)
    ensures |r| == |ks|
    decreases |ks|
  {
    if ks == [] then []
    else [ks[0] !in order] + IsNew(After(order, ks[0], max), ks[1..], max)
  }

  function Select<T>(items: seq<T>, chosen: seq<bool>): seq<T>
    requires |items| == |chosen|
  {
    if items == [] then []
    else (if chosen[0] then [items[0]] else []) + Select(items[1..], chosen[1..])
  }

  lemma TrimKeepsSome(order: seq<string>, max: int)
    ensures Trim(order, max) == [] <==> order == []
    ensures max <= 0 || |order| <= max ==> Trim(order, max) == order
    ensures max > 0 ==> |Trim(order, max)| == Min(max, |order|)
  {}

  lemma TrimKeepsLast(order: seq<string>, max: int)
    requires order != []
    ensures order[|order| - 1] in Trim(order, max)
  {
    var t := Trim(order, max);
    assert t[|t| - 1] == order[|order| - 1];
  }

  function KeysOf<T>(key: T -> string, items: seq<T>): (r: seq<string>)
    ensures |r| == |items| && forall i :: 0 <= i < |items| ==> r[i] == key(items[i])
  {
    seq(|items|, i requires 0 <= i < |items| => key(items[i]))
  }

  // ---------- spacing ----------

  // Equal entries of a log are more than max apart (or there are none).
  ghost predicate Spaced(log: seq<string>, max: int) {
    forall i, j :: 0 <= i < j < |log| && log[i] == log[j] ==> 0 < max < j - i
  }

  ghost predicate IsTail(order: seq<string>, log: seq<string>) {
    |order| <= |log| && order == log[|log| - |order|..]
  }

  // A log and the memory it leaves: all of it, or the newest max entries.
  ghost predicate Remembers(order: seq<string>, log: seq<string>, max: int) {
    && IsTail(order, log) && Spaced(log, max) && NoDup(order)
    && (if max <= 0 then order == log else |order| == Min(|log|, max))
  }

  lemma SpacedSnoc(order: seq<string>, log: seq<string>, k: string, max: int)
    requires Remembers(order, log, max) && k !in order
    ensures Spaced(log + [k], max)
  {
    assert forall i :: |log| - |order| <= i < |log| ==> log[i] == order[i - (|log| - |order|)];
  }

  lemma RememberOne(order: seq<string>, log: seq<string>, k: string, max: int)
    requires Remembers(order, log, max) && k !in order
    ensures Remembers(Trim(order + [k], max), log + [k], max)
  {
    SpacedSnoc(order, log, k, max);
    assert NoDup(order + [k]);
    var o := Trim(order + [k], max);
    assert order + [k] == (log + [k])[|log| - |order|..];
    assert o == (log + [k])[|log| + 1 - |o|..];
  }

  /** Between two recordings of a key, at least max other keys are recorded. */
  lemma ManyBetween(log: seq<string>, max: int, i: nat, j: nat)
    requires Spaced(log, max) && i < j < |log| && log[i] == log[j]
    ensures max > 0 && |Elems(log[i + 1..j]) - {log[i]}| >= max
  {
    var window := log[i + 1..i + 1 + max];
    assert NoDup(window);
    DistinctCount(window);
    assert forall x :: x in window ==> x in log[i + 1..j];
    assert log[i] !in window;
    SubsetSize(Elems(window), Elems(log[i + 1..j]) - {log[i]});
  }

  // The recordings of a run of keys, appended to earlier ones.
  function LogAfter(order: seq<string>, log: seq<string>, ks: seq<string>, max: int): seq<string>
    decreases |ks|
  {
    if ks == [] then log
    else LogAfter(After(order, ks[0], max), if ks[0] in order then log else log + [ks[0]], ks[1..], max)
  }

  lemma {:induction false} LogIsSelected(order: seq<string>, log: seq<string>, ks: seq<string>, max: int)
    ensures LogAfter(order, log, ks, max) == log + Select(ks, IsNew(order, ks, max))
    decreases |ks|
  {
    if ks != [] {
      LogIsSelected(After(order, ks[0], max), if ks[0] in order then log else log + [ks[0]], ks[1..], max);
    }
  }

  /** Over any run of keys, however it is cut into calls: the memory is
      duplicate-free, within bounds, and holds the newest recordings; and
      recordings of one key are more than max apart. */
  lemma {:induction false} FeedRemembers(order: seq<string>, log: seq<string>, ks: seq<string>, max: int)
    requires Remembers(order, log, max)
    ensures Remembers(Feed(order, ks, max), LogAfter(order, log, ks, max), max)
    decreases |ks|
  {
    if ks != [] {
      if ks[0] !in order {
        RememberOne(order, log, ks[0], max);
      }
      FeedRemembers(After(order, ks[0], max), if ks[0] in order then log else log + [ks[0]], ks[1..], max);
    }
  }

  // Two calls in a row are one call with both batches.
  lemma {:induction false} CallsCompose(order: seq<string>, log: seq<string>, a: seq<string>, b: seq<string>, max: int)
    ensures Feed(order, a + b, max) == Feed(Feed(order, a, max), b, max)
    ensures LogAfter(order, log, a + b, max) == LogAfter(Feed(order, a, max), LogAfter(order, log, a, max), b, max)
    decreases |a|
  {
    if a == [] {
      assert a + b == b;
    } else {
      assert (a + b)[1..] == a[1..] + b;
      CallsCompose(After(order, a[0], max), if a[0] in order then log else log + [a[0]], a[1..], b, max);
    }
  }

  // One more key.
  lemma {:induction false} FeedSnoc(order: seq<string>, ks: seq<string>, k: string, max: int)
    ensures Feed(order, ks + [k], max) == After(Feed(order, ks, max), k, max)
    ensures IsNew(order, ks + [k], max) == IsNew(order, ks, max) + [k !in Feed(order, ks, max)]
    decreases |ks|
  {
    if ks == [] {
      assert (ks + [k])[1..] == [];
    } else {
      assert (ks + [k])[1..] == ks[1..] + [k];
      FeedSnoc(After(order, ks[0], max), ks[1..], k, max);
    }
  }

  lemma FeedNext(order: seq<string>, ks: seq<string>, i: nat, max: int)
    requires i < |ks|
    ensures Feed(order, ks[..i + 1], max) == After(Feed(order, ks[..i], max), ks[i], max)
    ensures IsNew(order, ks[..i + 1], max) == IsNew(order, ks[..i], max) + [ks[i] !in Feed(order, ks[..i], max)]
  {
    assert ks[..i + 1] == ks[..i] + [ks[i]];
    FeedSnoc(order, ks[..i], ks[i], max);
  }

  lemma {:induction false} SelectSnoc<T>(items: seq<T>, chosen: seq<bool>, x: T, c: bool)
    requires |items| == |chosen|
    ensures Select(items + [x], chosen + [c]) == Select(items, chosen) + (if c then [x] else [])
  {
    if items == [] {
      assert (items + [x])[1..] == [] && (chosen + [c])[1..] == [];
    } else {
      assert (items + [x])[1..] == items[1..] + [x] && (chosen + [c])[1..] == chosen[1..] + [c];
      SelectSnoc(items[1..], chosen[1..], x, c);
    }
  }

  // ---------- the store and the deduper ----------

  ghost predicate MirrorOk(entries: set<string>, keys: set<string>, first: bool) {
    && (forall k :: k in keys <==> k in entries && k !in MARKERS)
    && (!first ==> exists k :: k in entries)
  }

  lemma MirrorRecord(entries: set<string>, keys: set<string>, first: bool, k: string, entries': set<string>,
      keys': set<string>)
    requires MirrorOk(entries, keys, first) && k !in MARKERS && k in keys' && keys' <= keys + {k}
    requires entries' == (entries + {k}) - ((keys + {k}) - keys')
    ensures MirrorOk(entries', keys', first)
  {
    assert k in entries';
  }

  // The markers tell a namespace in use from a fresh one; they are not keys.
  method StripMarkers(entries: set<string>) returns (existing: set<string>, fresh_: bool)
    ensures existing == entries - MARKERS == entries - {"_deduper:init", "sisyphus:deduper:init"}
    ensures fresh_ <==> entries == {}
  {
    existing, fresh_ := entries, true;
    if SEEN_INIT in existing {
      fresh_ := false;
      existing := existing - {SEEN_INIT};
    }
    if LEGACY_INIT in existing {
      fresh_ := false;
      existing := existing - {LEGACY_INIT};
    }
    if |existing| > 0 {
      fresh_ := false;
    }
  }

  // The keys a rebuilt deduper starts with.
  ghost predicate IsRestored(keys: set<string>, stored: set<string>, max: int) {
    keys <= stored && |keys| == if max <= 0 then |stored| else Min(max, |stored|)
  }

  lemma RestoreMeans(stored: set<string>, all: seq<string>, order: seq<string>, max: int)
    requires NoDup(all) && Elems(all) == stored && order == Trim(all, max) && NoDup(order)
    ensures IsRestored(Elems(order), stored, max)
    ensures max <= 0 || |stored| <= max ==> order == all
    ensures max > 0 ==> |order| <= max
  {
    DistinctCount(all);
    DistinctCount(order);
    TrimKeepsSome(all, max);
    assert forall x :: x in order ==> x in all;
    assert Elems(order) <= stored;
  }

  lemma MirrorRestored(entries: set<string>, stored: set<string>, keys: set<string>, entries': set<string>, max: int)
    requires stored == entries - MARKERS && IsRestored(keys, stored, max)
    requires entries' == entries - (stored - keys)
    ensures MirrorOk(entries', keys, entries == {})
  {
    if entries != {} {
      if stored == {} {
        var k :| k in entries;
        assert k in entries';
      } else {
        assert |stored| > 0;
        assert |keys| > 0;
        var k :| k in keys;
        assert k in entries';
      }
    }
  }

  // What is restored when everything fits.
  lemma RestoredAll(keys: set<string>, stored: set<string>, max: int)
    requires IsRestored(keys, stored, max) && (max <= 0 || |stored| <= max)
    ensures keys == stored
  {
    assert stored == keys + (stored - keys);
  }

  // One namespace of the key/value store.  Puts and deletes may fail, and the
  // deduper never looks at whether they did.
  class Namespace {
    var entries: set<string>
    const fails: nat -> bool
    var ops: nat

    constructor (contents: set<string>, oracle: nat -> bool)
      ensures entries == contents && fails == oracle
    {
      entries, fails, ops := contents, oracle, 0;
    }

    ghost predicate Reliable() {
      forall i :: !fails(i)
    }

    method Put(k: string)
      modifies this
      ensures entries == old(entries) + {k} || (!Reliable() && entries == old(entries))
    {
      if !fails(ops) {
        entries := entries + {k};
      }
      ops := ops + 1;
    }

    method Delete(k: string)
      modifies this
      ensures entries == old(entries) - {k} || (!Reliable() && entries == old(entries))
    {
      if !fails(ops) {
        entries := entries - {k};
      }
      ops := ops + 1;
    }
  }

  class Deduper<T> {
    const key: T -> string
    const max: int
    const kv: Namespace?
    var keys: set<string>
    var order: seq<string>
    var first: bool

    ghost predicate Valid()
      reads this
    {
      keys == Elems(order) && NoDup(order) && (max > 0 ==> |order| <= max)
    }

    // The store holds exactly the remembered keys, and is empty only before
    // the first pass.
    ghost predicate Mirrored()
      reads this, kv
    {
      kv != null ==> MirrorOk(kv.entries, keys, first)
    }

    // NewDeduper, with any bound.
    constructor Fresh(keyOf: T -> string, bound: int)
      ensures Valid() && Mirrored()
      ensures keys == {} && first && kv == null && key == keyOf && max == bound
    {
      key, max, kv := keyOf, bound, null;
      keys, order, first := {}, [], true;
    }

    // NewPersistentDeduper, with any bound; listed is whether List succeeded.
    constructor Persistent(keyOf: T -> string, bound: int, store: Namespace, listed: bool)
      modifies store
      ensures Valid() && key == keyOf && max == bound && kv == store
      ensures listed ==> first == (old(store.entries) == {})
      ensures listed ==> IsRestored(keys, old(store.entries) - MARKERS, bound)
      ensures listed && (bound <= 0 || |old(store.entries) - MARKERS| <= bound) ==> store.entries == old(store.entries)
      ensures listed && store.Reliable() ==> Mirrored()
      ensures !listed ==> keys == {} && first && store.entries == old(store.entries)
    {
      key, max, kv := keyOf, bound, store;
      keys, order, first := {}, [], true;
      new;
      if listed {
        Restore(store);
      }
    }

    method Restore(store: Namespace)
      requires kv == store && keys == {} && order == [] && first
      modifies this`keys, this`order, this`first, store
      ensures Valid()
      ensures first == (old(store.entries) == {})
      ensures IsRestored(keys, old(store.entries) - MARKERS, max)
      ensures max <= 0 || |old(store.entries) - MARKERS| <= max ==> store.entries == old(store.entries)
      ensures store.Reliable() ==> Mirrored()
    {
      var existing;
      existing, first := StripMarkers(store.entries);
      Load(existing);
      ghost var all := order;
      Evict();
      RestoreMeans(existing, all, order, max);
      if store.Reliable() {
        MirrorRestored(old(store.entries), existing, keys, store.entries, max);
      }
    }

    // The order in which a map's keys come is arbitrary.
    method Load(existing: set<string>)
      requires keys == {} && order == []
      modifies this`keys, this`order
      ensures keys == Elems(order) == existing && NoDup(order)
    {
      var rest := existing;
      while rest != {}
        invariant rest <= existing && keys == Elems(order) == existing - rest && NoDup(order)
        decreases rest
      {
        var k :| k in rest;
        assert Elems(order + [k]) == Elems(order) + {k};
        keys := keys + {k};
        order := order + [k];
        rest := rest - {k};
      }
    }

    // Forget the oldest keys beyond max.
    method Evict()
      requires keys == Elems(order) && NoDup(order)
      modifies this`keys, this`order, kv
      ensures order == Trim(old(order), max) && keys == Elems(order) && NoDup(order) && keys <= old(keys)
      ensures kv != null && old(order) == order ==> kv.entries == old(kv.entries)
      ensures kv != null && kv.Reliable() ==> kv.entries == old(kv.entries) - (old(keys) - keys)
    {
      if max <= 0 {
        return;
      }
      while |order| > max
        invariant 0 <= |order| <= |old(order)| && order == old(order)[|old(order)| - |order|..]
        invariant |order| >= Min(max, |old(order)|)
        invariant keys == Elems(order) && NoDup(order) && keys <= old(keys)
        invariant kv != null && old(order) == order ==> kv.entries == old(kv.entries)
        invariant kv != null && kv.Reliable() ==> kv.entries == old(kv.entries) - (old(keys) - keys)
      {
        var oldest := order[0];
        assert order == [oldest] + order[1..];
        order := order[1..];
        keys := keys - {oldest};
        if kv != null {
          kv.Delete(oldest);
        }
      }
    }

    // One item's turn in Unseen.
    method Record(k: string) returns (isNew: bool)
      requires Valid()
      modifies this`keys, this`order, kv
      ensures Valid() && isNew == (k !in old(order))
      ensures order == if isNew then Trim(old(order) + [k], max) else old(order)
      ensures kv != null && kv.Reliable() && k !in MARKERS && old(Mirrored()) ==> Mirrored()
    {
      if k in keys {
        return false;
      }
      ghost var keysWas := keys;
      ghost var entriesWas := if kv == null then {} else kv.entries;
      keys := keys + {k};
      order := order + [k];
      if kv != null {
        kv.Put(k);
      }
      TrimKeepsLast(order, max);
      Evict();
      if kv != null && kv.Reliable() && k !in MARKERS && MirrorOk(entriesWas, keysWas, first) {
        MirrorRecord(entriesWas, keysWas, first, k, kv.entries, keys);
      }
      return true;
    }

    // The loop of Unseen.
    method Pass(items: seq<T>) returns (out: seq<T>)
      requires Valid()
      modifies this`keys, this`order, kv
      ensures Valid() && order == Feed(old(order), KeysOf(key, items), max)
      ensures out == if first then [] else Select(items, IsNew(old(order), KeysOf(key, items), max))
      ensures kv != null && kv.Reliable() && old(Mirrored()) && NoMarkers(KeysOf(key, items)) ==> Mirrored()
    {
      out := [];
      ghost var ks, order0 := KeysOf(key, items), order;
      ghost var mirrored := kv != null && kv.Reliable() && Mirrored() && NoMarkers(ks);
      for i := 0 to |items|
        invariant Valid() && PassedTo(items, order0, ks, i, order, out, max, first)
        invariant mirrored ==> Mirrored()
      {
        ghost var was := order;
        var isNew := Record(key(items[i]));
        PassNext(items, order0, ks, i, was, out, max, first);
        if isNew && !first {
          out := out + [items[i]];
        }
      }
      assert items[..|items|] == items && ks[..|items|] == ks;
    }

    /** Record the items whose keys are not remembered, forget the oldest
        beyond max, and return the new ones - none on the first pass. */
    method Unseen(items: seq<T>) returns (out: seq<T>)
      requires Valid()
      modifies this, kv
      ensures Valid() && !first
      ensures order == Feed(old(order), KeysOf(key, items), max)
      ensures out == if old(first) then [] else Select(items, IsNew(old(order), KeysOf(key, items), max))
      ensures kv != null && kv.Reliable() && old(Mirrored()) && NoMarkers(KeysOf(key, items)) ==> Mirrored()
      ensures kv != null && kv.Reliable() && old(first) ==> "_deduper:init" in kv.entries
      ensures old(first) ==> out == []
      ensures !old(first) ==>
                forall i | 0 <= i < |items| && key(items[i]) !in old(order)
                           && forall j :: 0 <= j < i ==> key(items[j]) != key(items[i]) :: items[i] in out
      ensures forall x :: x in out ==>
                exists i :: 0 <= i < |items| && items[i] == x && (max <= 0 ==> key(items[i]) !in old(order))
    {
      NewOnesPass(items, order, KeysOf(key, items), max);
      OnlyNewPass(items, order, KeysOf(key, items), max);
      out := Pass(items);
      forall x | x in out
        ensures exists i :: 0 <= i < |items| && items[i] == x && (max <= 0 ==> key(items[i]) !in old(order))
      {
        var ks := KeysOf(key, items);
        assert x in Passed(items, old(order), ks, max);
        var i :| 0 <= i < |items| && items[i] == x && (max <= 0 ==> ks[i] !in old(order));
        assert ks[i] == key(items[i]);
      }
      if first {
        first := false;
        if kv != null {
          kv.Put(SEEN_INIT);
        }
      }
    }
  }

  ghost predicate NoMarkers(ks: seq<string>) {
    forall i :: 0 <= i < |ks| ==> ks[i] !in MARKERS
  }

  // What a pass that is not the first lets through.
  function Passed<T>(items: seq<T>, order: seq<string>, ks: seq<string>, max: int): seq<T>
    requires |items| == |ks|
  {
    Select(items, IsNew(order, ks, max))
  }

  lemma {:induction false} FirstIsNew(order: seq<string>, ks: seq<string>, max: int, i: nat)
    requires i < |ks| && ks[i] !in order && forall j :: 0 <= j < i ==> ks[j] != ks[i]
    ensures IsNew(order, ks, max)[i]
    decreases |ks|
  {
    if i > 0 {
      assert ks[0] != ks[i] && ks[i] !in After(order, ks[0], max);
      assert forall j :: 0 <= j < i - 1 ==> ks[1..][j] == ks[j + 1];
      FirstIsNew(After(order, ks[0], max), ks[1..], max, i - 1);
    }
  }

  lemma {:induction false} SelectHas<T>(items: seq<T>, chosen: seq<bool>, i: nat)
    requires i < |items| == |chosen| && chosen[i]
    ensures items[i] in Select(items, chosen)
  {
    if i > 0 {
      SelectHas(items[1..], chosen[1..], i - 1);
    }
  }

  /** A pass lets through every item whose key is not remembered at its start and
      comes for the first time. */
  lemma NewOnesPass<T>(items: seq<T>, order: seq<string>, ks: seq<string>, max: int)
    requires |items| == |ks|
    ensures forall i :: 0 <= i < |ks| && ks[i] !in order && (forall j :: 0 <= j < i ==> ks[j] != ks[i]) ==>
              items[i] in Passed(items, order, ks, max)
  {
    forall i | 0 <= i < |ks| && ks[i] !in order && (forall j :: 0 <= j < i ==> ks[j] != ks[i])
      ensures items[i] in Passed(items, order, ks, max)
    {
      FirstIsNew(order, ks, max, i);
      SelectHas(items, IsNew(order, ks, max), i);
    }
  }

  /** Only items of the batch pass and, without a bound, only with keys that were
      not remembered. */
  lemma {:induction false} OnlyNewPass<T>(items: seq<T>, order: seq<string>, ks: seq<string>, max: int)
    requires |items| == |ks|
    ensures forall x :: x in Passed(items, order, ks, max) ==>
              exists i :: 0 <= i < |items| && items[i] == x && (max <= 0 ==> ks[i] !in order)
    decreases |items|
  {
    if items != [] {
      var order' := After(order, ks[0], max);
      OnlyNewPass(items[1..], order', ks[1..], max);
      forall x | x in Passed(items, order, ks, max)
        ensures exists i :: 0 <= i < |items| && items[i] == x && (max <= 0 ==> ks[i] !in order)
      {
        if !(x == items[0] && ks[0] !in order) {
          assert x in Passed(items[1..], order', ks[1..], max);
          var i :| 0 <= i < |items| - 1 && items[1..][i] == x && (max <= 0 ==> ks[1..][i] !in order');
          assert items[i + 1] == x && (max <= 0 ==> ks[i + 1] !in order);
        }
      }
    }
  }

  // The loop of a pass after n items.
  ghost predicate PassedTo<T>(
    items: seq<T>, order0: seq<string>, ks: seq<string>, n: nat, order: seq<string>, out: seq<T>, max: int, first: bool)
    requires n <= |items| == |ks|
  {
    && order == Feed(order0, ks[..n], max)
    && out == if first then [] else Passed(items[..n], order0, ks[..n], max)
  }

  lemma PassNext<T>(
    items: seq<T>, order0: seq<string>, ks: seq<string>, n: nat, order: seq<string>, out: seq<T>, max: int, first: bool)
    requires n < |items| == |ks| && PassedTo(items, order0, ks, n, order, out, max, first)
    ensures var out' := if ks[n] !in order && !first then out + [items[n]] else out;
            PassedTo(items, order0, ks, n + 1, After(order, ks[n], max), out', max, first)
  {
    FeedNext(order0, ks, n, max);
    assert items[..n + 1] == items[..n] + [items[n]];
    SelectSnoc(items[..n], IsNew(order0, ks[..n], max), items[n], ks[n] !in order);
  }
}
