/**
  What a restart does to a deduper: the keys come back from the store, the order
  in which they were first seen does not (stream/persist.go).
 */
module Restarts {
  import opened Util
  import opened Deduper

  // A call that evicts nothing.
  predicate Fits(order: seq<string>, ks: seq<string>, max: int) {
    max <= 0 || |Elems(order) + Elems(ks)| <= max
  }

  // Two memories of the same keys, one more key, room enough for it.
  lemma SameAfterOne(a: seq<string>, b: seq<string>, k: string, all: set<string>, max: int)
    requires NoDup(a) && NoDup(b) && Elems(a) == Elems(b) <= all && k in all && k !in a
    requires max <= 0 || |all| <= max
    ensures k !in b && NoDup(a + [k]) && NoDup(b + [k])
    ensures Trim(a + [k], max) == a + [k] && Trim(b + [k], max) == b + [k]
    ensures Elems(a + [k]) == Elems(b + [k]) <= all
  {
    assert k in Elems(a) <==> k in Elems(b);
    assert Elems(a + [k]) == Elems(a) + {k} == Elems(b + [k]);
    DistinctCount(a + [k]);
    DistinctCount(b + [k]);
    SubsetSize(Elems(a + [k]), all);
  }

  lemma {:induction false} SameWithin(a: seq<string>, b: seq<string>, ks: seq<string>, all: set<string>, max: int)
    requires NoDup(a) && NoDup(b) && Elems(a) == Elems(b) <= all && Elems(ks) <= all
    requires max <= 0 || |all| <= max
    ensures IsNew(a, ks, max) == IsNew(b, ks, max)
    ensures Elems(Feed(a, ks, max)) == Elems(Feed(b, ks, max))
    decreases |ks|
  {
    if ks != [] {
      assert forall x :: x in ks[1..] ==> x in Elems(ks);
      assert ks[0] in Elems(ks);
      assert ks[0] in Elems(a) <==> ks[0] in Elems(b);
      if ks[0] in a {
        SameWithin(a, b, ks[1..], all, max);
      } else {
        SameAfterOne(a, b, ks[0], all, max);
        SameWithin(a + [ks[0]], b + [ks[0]], ks[1..], all, max);
      }
    }
  }

  /** The order of the remembered keys does not show in a call that evicts
      nothing: the same items come out and the same keys are remembered. */
  lemma OrderIsInvisible(a: seq<string>, b: seq<string>, ks: seq<string>, max: int)
    requires NoDup(a) && NoDup(b) && Elems(a) == Elems(b) && Fits(a, ks, max)
    ensures IsNew(a, ks, max) == IsNew(b, ks, max)
    ensures Elems(Feed(a, ks, max)) == Elems(Feed(b, ks, max))
  {
    SameWithin(a, b, ks, Elems(a) + Elems(ks), max);
  }

  // ---------- exactly when the order shows ----------

  ghost predicate Reorders(b: seq<string>, a: seq<string>) {
    NoDup(b) && Elems(b) == Elems(a)
  }

  // With d keys recorded since, some of the n old keys are forgotten, not all.
  predicate HalfForgotten(n: nat, d: nat, max: int) {
    0 < max < n + d && d < max
  }

  // The i-th item asks for an old key while some of the old keys are forgotten
  // and some are not; fresh are the new keys recorded before ks.
  predicate AskAt(old_: set<string>, fresh_: set<string>, ks: seq<string>, i: nat, max: int)
    requires i < |ks|
  {
    ks[i] in old_ && HalfForgotten(|old_|, |fresh_ + (Elems(ks[..i]) - old_)|, max)
  }

  ghost predicate AsksFrom(old_: set<string>, fresh_: set<string>, ks: seq<string>, max: int) {
    exists i: nat :: i < |ks| && AskAt(old_, fresh_, ks, i, max)
  }

  // A call on the memory a asks for one of its keys at such a moment.
  ghost predicate AsksHalfForgotten(a: seq<string>, ks: seq<string>, max: int) {
    exists i: nat :: i < |ks| && ks[i] in a && HalfForgotten(|a|, |Elems(ks[..i]) - Elems(a)|, max)
  }

  function Grown(old_: set<string>, fresh_: set<string>, k: string): set<string> {
    if k in old_ then fresh_ else fresh_ + {k}
  }

  lemma AskLater(old_: set<string>, fresh_: set<string>, ks: seq<string>, i: nat, max: int)
    requires i + 1 < |ks|
    ensures AskAt(old_, fresh_, ks, i + 1, max) <==> AskAt(old_, Grown(old_, fresh_, ks[0]), ks[1..], i, max)
  {
    var rest := ks[1..];
    assert ks[..i + 1] == [ks[0]] + rest[..i];
    assert Elems(ks[..i + 1]) == {ks[0]} + Elems(rest[..i]);
    assert fresh_ + (Elems(ks[..i + 1]) - old_) == Grown(old_, fresh_, ks[0]) + (Elems(rest[..i]) - old_);
  }

  lemma AsksNowOrLater(old_: set<string>, fresh_: set<string>, ks: seq<string>, max: int)
    requires ks != []
    ensures AsksFrom(old_, fresh_, ks, max) <==>
              || (ks[0] in old_ && HalfForgotten(|old_|, |fresh_|, max))
              || AsksFrom(old_, Grown(old_, fresh_, ks[0]), ks[1..], max)
  {
    var next := Grown(old_, fresh_, ks[0]);
    assert fresh_ + (Elems(ks[..0]) - old_) == fresh_;
    assert AskAt(old_, fresh_, ks, 0, max) <==> ks[0] in old_ && HalfForgotten(|old_|, |fresh_|, max);
    forall i: nat | i + 1 < |ks|
      ensures AskAt(old_, fresh_, ks, i + 1, max) <==> AskAt(old_, next, ks[1..], i, max)
    {
      AskLater(old_, fresh_, ks, i, max);
    }
    if AsksFrom(old_, fresh_, ks, max) {
      var i: nat :| i < |ks| && AskAt(old_, fresh_, ks, i, max);
      if i > 0 {
        assert AskAt(old_, next, ks[1..], i - 1, max);
      }
    }
    if AsksFrom(old_, next, ks[1..], max) {
      var i: nat :| i < |ks[1..]| && AskAt(old_, next, ks[1..], i, max);
      assert AskAt(old_, fresh_, ks, i + 1, max);
    }
  }

  // ---------- in step ----------

  // The memory of a after the new keys f: its newest entries.
  function Recalled(a: seq<string>, f: seq<string>, max: int): seq<string> {
    Trim(a + f, max)
  }

  // a as at the start of the call, f the keys recorded since.
  ghost predicate OldAndNew(a: seq<string>, f: seq<string>, max: int) {
    NoDup(a) && NoDup(f) && Elems(a) !! Elems(f) && (max > 0 ==> |a| <= max)
  }

  function WithNew(a: seq<string>, f: seq<string>, k: string): seq<string> {
    if k in a || k in f then f else f + [k]
  }

  lemma TrimOnce(s: seq<string>, k: string, max: int)
    ensures Trim(Trim(s, max) + [k], max) == Trim(s + [k], max)
  {}

  lemma NewKey(a: seq<string>, f: seq<string>, k: string, max: int)
    requires OldAndNew(a, f, max)
    ensures OldAndNew(a, WithNew(a, f, k), max)
    ensures Elems(WithNew(a, f, k)) == Grown(Elems(a), Elems(f), k)
  {
    if k !in a && k !in f {
      assert Elems(f + [k]) == Elems(f) + {k};
    }
  }

  // While not all old keys are forgotten, and this one is asked for only if none
  // is, what is remembered does not depend on their order.
  lemma RecallsAlike(a: seq<string>, f: seq<string>, k: string, max: int)
    requires OldAndNew(a, f, max) && (max > 0 ==> |f| < max)
    requires !(k in a && HalfForgotten(|a|, |f|, max))
    ensures k in Recalled(a, f, max) <==> k in a || k in f
    ensures After(Recalled(a, f, max), k, max) == Recalled(a, WithNew(a, f, k), max)
  {
    if max > 0 && |a| + |f| > max {
      var j := |a| + |f| - max;
      assert Recalled(a, f, max) == a[j..] + f;
    }
    if k !in a && k !in f {
      TrimOnce(a + f, k, max);
      assert (a + f) + [k] == a + (f + [k]);
    }
  }

  // Once all old keys are forgotten the memories are the same.
  lemma AllForgotten(a: seq<string>, b: seq<string>, f: seq<string>, max: int)
    requires 0 < max <= |f|
    ensures Recalled(a, f, max) == Recalled(b, f, max)
  {
    assert Recalled(a, f, max) == f[|f| - max..] == Recalled(b, f, max);
  }

  lemma {:induction false} SameUnlessAsked(a: seq<string>, b: seq<string>, f: seq<string>, ks: seq<string>, max: int)
    requires OldAndNew(a, f, max) && Reorders(b, a) && !AsksFrom(Elems(a), Elems(f), ks, max)
    ensures IsNew(Recalled(a, f, max), ks, max) == IsNew(Recalled(b, f, max), ks, max)
    decreases |ks|
  {
    if ks == [] {
      return;
    }
    if 0 < max <= |f| {
      AllForgotten(a, b, f, max);
      return;
    }
    SameLengths(a, b, f);
    AsksNowOrLater(Elems(a), Elems(f), ks, max);
    RecallsAlike(a, f, ks[0], max);
    RecallsAlike(b, f, ks[0], max);
    NewKey(a, f, ks[0], max);
    SameUnlessAsked(a, b, WithNew(a, f, ks[0]), ks[1..], max);
  }

  lemma SameLengths(a: seq<string>, b: seq<string>, f: seq<string>)
    requires NoDup(a) && NoDup(f) && Reorders(b, a)
    ensures |a| == |b| == |Elems(a)| && |f| == |Elems(f)|
    ensures forall k :: k in a <==> k in b
  {
    DistinctCount(a);
    DistinctCount(b);
    DistinctCount(f);
    forall k ensures k in a <==> k in b {
      assert k in Elems(a) <==> k in Elems(b);
    }
  }

  // ---------- out of step ----------

  lemma ToFront(a: seq<string>, p: nat) returns (b: seq<string>)
    requires NoDup(a) && p < |a|
    ensures Reorders(b, a) && |b| == |a| && b[0] == a[p]
  {
    b := [a[p]] + a[..p] + a[p + 1..];
    assert a == a[..p] + [a[p]] + a[p + 1..];
    assert forall x :: x in b <==> x in a;
  }

  lemma ToEnd(a: seq<string>, p: nat) returns (b: seq<string>)
    requires NoDup(a) && p < |a|
    ensures Reorders(b, a) && |b| == |a| && b[|a| - 1] == a[p]
  {
    b := a[..p] + a[p + 1..] + [a[p]];
    assert a == a[..p] + [a[p]] + a[p + 1..];
    assert forall x :: x in b <==> x in a;
  }

  // What is left of the old keys, and all the new ones.
  lemma RecalledHalf(a: seq<string>, f: seq<string>, k: string, max: int)
    requires HalfForgotten(|a|, |f|, max) && k !in f
    ensures var j := |a| + |f| - max;
            0 < j < |a| && (k in Recalled(a, f, max) <==> k in a[j..])
  {
    assert Recalled(a, f, max) == a[|a| + |f| - max..] + f;
  }

  lemma FirstIsCut(b: seq<string>, j: nat)
    requires NoDup(b) && 0 < j <= |b|
    ensures b[0] !in b[j..]
  {}

  lemma LastIsKept(b: seq<string>, j: nat)
    requires j < |b|
    ensures b[|b| - 1] in b[j..]
  {
    assert b[j..][|b| - 1 - j] == b[|b| - 1];
  }

  lemma InTail(a: seq<string>, p: nat, j: nat)
    requires NoDup(a) && p < |a| && j < |a|
    ensures a[p] in a[j..] <==> p >= j
  {
    if p >= j {
      assert a[j..][p - j] == a[p];
    }
  }

  // Asked for now, the key is remembered in one order and forgotten in another.
  lemma ShowsNow(a: seq<string>, f: seq<string>, k: string, max: int) returns (b: seq<string>)
    requires OldAndNew(a, f, max) && k in a && HalfForgotten(|a|, |f|, max)
    ensures Reorders(b, a) && (k in Recalled(b, f, max) <==> k !in Recalled(a, f, max))
  {
    assert k in Elems(a) && k !in Elems(f);
    RecalledHalf(a, f, k, max);
    var p :| 0 <= p < |a| && a[p] == k;
    var j := |a| + |f| - max;
    InTail(a, p, j);
    if p >= j {
      b := ToFront(a, p);
      FirstIsCut(b, j);
    } else {
      b := ToEnd(a, p);
      LastIsKept(b, j);
    }
    RecalledHalf(b, f, k, max);
  }

  lemma {:induction false} AskedWhileFew(old_: set<string>, fresh_: set<string>, ks: seq<string>, max: int)
    requires AsksFrom(old_, fresh_, ks, max)
    ensures 0 < max && |fresh_| < max
  {
    var i: nat :| i < |ks| && AskAt(old_, fresh_, ks, i, max);
    SubsetSize(fresh_, fresh_ + (Elems(ks[..i]) - old_));
  }

  lemma {:induction false} ShowsIfAsked(a: seq<string>, f: seq<string>, ks: seq<string>, max: int)
    returns (b: seq<string>)
    requires OldAndNew(a, f, max) && AsksFrom(Elems(a), Elems(f), ks, max)
    ensures Reorders(b, a) && IsNew(Recalled(a, f, max), ks, max) != IsNew(Recalled(b, f, max), ks, max)
    decreases |ks|
  {
    var k := ks[0];
    SameLengths(a, a, f);
    AskedWhileFew(Elems(a), Elems(f), ks, max);
    AsksNowOrLater(Elems(a), Elems(f), ks, max);
    if k in a && HalfForgotten(|a|, |f|, max) {
      b := ShowsNow(a, f, k, max);
      assert IsNew(Recalled(a, f, max), ks, max)[0] != IsNew(Recalled(b, f, max), ks, max)[0];
    } else {
      NewKey(a, f, k, max);
      b := ShowsIfAsked(a, WithNew(a, f, k), ks[1..], max);
      SameLengths(a, b, f);
      RecallsAlike(a, f, k, max);
      RecallsAlike(b, f, k, max);
      TailsDiffer(Recalled(a, f, max), Recalled(b, f, max), ks, max);
    }
  }

  lemma TailsDiffer(x: seq<string>, y: seq<string>, ks: seq<string>, max: int)
    requires ks != []
    requires IsNew(After(x, ks[0], max), ks[1..], max) != IsNew(After(y, ks[0], max), ks[1..], max)
    ensures IsNew(x, ks, max) != IsNew(y, ks, max)
  {
    assert IsNew(x, ks, max)[1..] == IsNew(After(x, ks[0], max), ks[1..], max);
    assert IsNew(y, ks, max)[1..] == IsNew(After(y, ks[0], max), ks[1..], max);
  }

  /** A restart shows in what a call lets through exactly when the call asks for an
      old key while some, not all, of the old keys are forgotten: otherwise every
      order of the keys answers alike, and then some order answers differently. */
  lemma OrderShowsExactly(a: seq<string>, ks: seq<string>, max: int)
    requires NoDup(a) && (max > 0 ==> |a| <= max)
    ensures (forall b :: Reorders(b, a) ==> IsNew(b, ks, max) == IsNew(a, ks, max)) <==> !AsksHalfForgotten(a, ks, max)
  {
    AsksFromNothing(a, ks, max);
    assert Recalled(a, [], max) == a by { assert a + [] == a; }
    assert OldAndNew(a, [], max);
    if AsksHalfForgotten(a, ks, max) {
      var b := ShowsIfAsked(a, [], ks, max);
      SameLengths(a, b, []);
      assert b + [] == b;
      assert Reorders(b, a) && IsNew(b, ks, max) != IsNew(a, ks, max);
    } else {
      forall b | Reorders(b, a) ensures IsNew(b, ks, max) == IsNew(a, ks, max) {
        SameUnlessAsked(a, b, [], ks, max);
        SameLengths(a, b, []);
        assert b + [] == b;
      }
    }
  }

  lemma AsksFromNothing(a: seq<string>, ks: seq<string>, max: int)
    requires NoDup(a)
    ensures AsksFrom(Elems(a), Elems([]), ks, max) <==> AsksHalfForgotten(a, ks, max)
  {
    DistinctCount(a);
    forall i: nat | i < |ks|
      ensures AskAt(Elems(a), Elems([]), ks, i, max) <==>
              ks[i] in a && HalfForgotten(|a|, |Elems(ks[..i]) - Elems(a)|, max)
    {
      assert Elems([]) + (Elems(ks[..i]) - Elems(a)) == Elems(ks[..i]) - Elems(a);
    }
  }

  /** So with any bound of two or more, the program's 8192 among them, a full
      memory shows a restart: one new item and then any old one. */
  lemma FullMemoryShows(a: seq<string>, max: int, new_: string, k: string)
    requires NoDup(a) && |a| == max >= 2 && new_ !in a && k in a
    ensures exists b :: Reorders(b, a) && IsNew(b, [new_, k], max) != IsNew(a, [new_, k], max)
  {
    var ks := [new_, k];
    assert ks[..1] == [new_];
    assert Elems(ks[..1]) - Elems(a) == {new_};
    assert ks[1] in a && HalfForgotten(|a|, |Elems(ks[..1]) - Elems(a)|, max);
    OrderShowsExactly(a, ks, max);
  }

  lemma FittingAsksNothing(a: seq<string>, ks: seq<string>, max: int)
    requires NoDup(a) && Fits(a, ks, max)
    ensures !AsksHalfForgotten(a, ks, max)
  {
    DistinctCount(a);
    forall i: nat | i < |ks| ensures !HalfForgotten(|a|, |Elems(ks[..i]) - Elems(a)|, max) {
      if max > 0 {
        var new_ := Elems(ks[..i]) - Elems(a);
        assert |Elems(a) + new_| == |Elems(a)| + |new_|;
        SubsetSize(Elems(a) + new_, Elems(a) + Elems(ks));
      }
    }
  }

  /** A deduper rebuilt from the store after any completed call has the same keys
      and no baseline pass.  On a next call that asks for no old key while some are
      forgotten it returns what the old one would have, and if the call evicts
      nothing it also remembers the same keys afterwards. */
  method Restart<T>(d: Deduper<T>, items: seq<T>) returns (again: Deduper<T>, out: seq<T>)
    requires d.kv != null && d.kv.Reliable() && d.Valid() && d.Mirrored() && !d.first
    requires !AsksHalfForgotten(d.order, KeysOf(d.key, items), d.max)
    modifies d.kv
    ensures out == Select(items, IsNew(old(d.order), KeysOf(d.key, items), d.max))
    ensures Fits(old(d.order), KeysOf(d.key, items), d.max) ==>
              again.keys == Elems(Feed(old(d.order), KeysOf(d.key, items), d.max))
  {
    DistinctCount(d.order);
    assert d.kv.entries - MARKERS == d.keys;
    again := new Deduper<T>.Persistent(d.key, d.max, d.kv, true);
    RestoredAll(again.keys, d.keys, d.max);
    ghost var ks := KeysOf(d.key, items);
    assert KeysOf(again.key, items) == ks;
    OrderShowsExactly(d.order, ks, d.max);
    assert Reorders(again.order, d.order);
    if Fits(d.order, ks, d.max) {
      OrderIsInvisible(d.order, again.order, ks, d.max);
    }
    out := again.Unseen(items);
  }
}
