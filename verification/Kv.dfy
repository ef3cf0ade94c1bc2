/**
  The key/value store with expiring entries (kv/kv.go).  Expired rows are
  deleted lazily: a Get drops the one it hits, List and Namespaces sweep first,
  and either deletion can fail.

  The store is compared with a plain map that never deletes a row for having
  expired and filters by the clock when it is read.  now is the clock of a call.
 */
module Kv {
  import opened Util
  import opened Sorting

  type Time = nat

  datatype Slot = Slot(ns: string, key: string)

  // expiry is None for the zero time: never expires.
  datatype Row = Row(value: string, expiry: Option<Time>, updated: Time)

  type Rows = map<Slot, Row>

  // Which of the statements of a call fail.
  datatype Fault = Fault(read: bool, write: bool)

  datatype Op =
    | Get(slot: Slot)
    | Put(slot: Slot, value: string, expiry: Option<Time>)
    | Delete(slot: Slot)
    | List(ns: string)
    | Namespaces
    | Stats(window: int)
    | Clear(ns: string)
    | Sweep

  datatype Stat = Stat(entries: nat, expired: nat, recent: nat, oldest: Option<Time>, newest: Option<Time>)

  datatype Reply =
    | Failed
    | Done
    | Entry(row: Option<Row>)
    | Entries(rows: map<string, Row>)
    | Names(names: set<string>)
    | Summary(stats: map<string, Stat>)
    | Removed(count: nat)

  predicate Expired(expiry: Option<Time>, now: Time) {
    expiry.Some? && expiry.value <= now
  }

  function Live(rows: Rows, now: Time): Rows {
    map s | s in rows && !Expired(rows[s].expiry, now) :: rows[s]
  }

  function Within(rows: Rows, ns: string): Rows {
    map s | s in rows && s.ns == ns :: rows[s]
  }

  function NamesOf(rows: Rows): set<string> {
    set s | s in rows :: s.ns
  }

  function ByKey(rows: Rows, ns: string): map<string, Row> {
    map key | key in (set s | s in rows && s.ns == ns :: s.key) :: rows[Slot(ns, key)]
  }

  // DELETE FROM kv [WHERE namespace = ?]
  function Cleared(rows: Rows, ns: string): Rows {
    if ns == "" then map[] else map s | s in rows && s.ns != ns :: rows[s]
  }

  // RowsAffected of a DELETE.
  function Lost(before: Rows, after: Rows): nat {
    |before.Keys - after.Keys|
  }

  // ---------- aggregates ----------

  function Updates(rows: Rows): set<Time> {
    set s | s in rows :: rows[s].updated
  }

  function UpdatedSince(rows: Rows, cutoff: int): Rows {
    map s | s in rows && rows[s].updated >= cutoff :: rows[s]
  }

  predicate IsLeast(times: set<Time>, t: Time) {
    t in times && forall x :: x in times ==> t <= x
  }

  predicate IsGreatest(times: set<Time>, t: Time) {
    t in times && forall x :: x in times ==> x <= t
  }

  lemma {:induction false} ExtremesExist(times: set<Time>)
    requires |times| > 0
    ensures exists t :: IsLeast(times, t)
    ensures exists t :: IsGreatest(times, t)
    decreases |times|
  {
    var x :| x in times;
    var rest := times - {x};
    if |rest| == 0 {
      assert times == {x};
      assert IsLeast(times, x) && IsGreatest(times, x);
    } else {
      ExtremesExist(rest);
      var low: Time :| IsLeast(rest, low);
      var high: Time :| IsGreatest(rest, high);
      assert times == rest + {x};
      assert IsLeast(times, if low < x then low else x) && IsGreatest(times, if x < high then high else x);
    }
  }

  function Least(times: set<Time>): (r: Option<Time>)
    ensures r.None? <==> times == {}
    ensures r.Some? ==> r.value in times && forall x :: x in times ==> r.value <= x
  {
    if |times| == 0 then None
    else
      ExtremesExist(times);
      var t :| t in times && IsLeast(times, t);
      Some(t)
  }

  function Greatest(times: set<Time>): (r: Option<Time>)
    ensures r.None? <==> times == {}
    ensures r.Some? ==> r.value in times && forall x :: x in times ==> x <= r.value
  {
    if |times| == 0 then None
    else
      ExtremesExist(times);
      var t :| t in times && IsGreatest(times, t);
      Some(t)
  }

  // What the aggregate query computes over one group.
  function RawAggregate(group: Rows, now: Time, cutoff: int): Stat {
    var live := Live(group, now);
    Stat(|live|, Lost(group, live), |UpdatedSince(live, cutoff)|, Least(Updates(live)), Greatest(Updates(live)))
  }

  // window is the fresh argument: nothing is counted as recent unless positive.
  function Shown(stat: Stat, window: int): Stat {
    if window <= 0 then stat.(recent := 0) else stat
  }

  function Aggregate(group: Rows, now: Time, window: int): Stat {
    Shown(RawAggregate(group, now, now - window), window)
  }

  function RawOf(now: Time, cutoff: int): Rows -> Stat {
    (group: Rows) => RawAggregate(group, now, cutoff)
  }

  // One shown aggregate a namespace.
  function ByGroup(rows: Rows, f: Rows -> Stat, window: int): map<string, Stat> {
    map ns | ns in NamesOf(rows) :: Shown(f(Within(rows, ns)), window)
  }

  function StatsOf(rows: Rows, now: Time, window: int): map<string, Stat> {
    ByGroup(rows, RawOf(now, now - window), window)
  }

  // ---------- one call on the store, and on the reference ----------

  function After(rows: Rows, op: Op, now: Time, fault: Fault): (Rows, Reply) {
    match op
    case Get(slot) =>
      if fault.read then (rows, Failed)
      else if slot !in rows then (rows, Entry(None))
      else if Expired(rows[slot].expiry, now) then (if fault.write then rows else rows - {slot}, Entry(None))
      else (rows, Entry(Some(rows[slot])))
    case Put(slot, value, expiry) =>
      if fault.write then (rows, Failed) else (rows[slot := Row(value, expiry, now)], Done)
    case Delete(slot) =>
      if fault.write then (rows, Failed) else (rows - {slot}, Done)
    case List(ns) =>
      if fault.write then (rows, Failed)
      else if fault.read then (Live(rows, now), Failed)
      else (Live(rows, now), Entries(ByKey(Live(rows, now), ns)))
    case Namespaces =>
      if fault.write then (rows, Failed)
      else if fault.read then (Live(rows, now), Failed)
      else (Live(rows, now), Names(NamesOf(Live(rows, now))))
    case Stats(window) =>
      if fault.read then (rows, Failed) else (rows, Summary(StatsOf(rows, now, window)))
    case Clear(ns) =>
      if fault.write then (rows, Failed) else (Cleared(rows, ns), Removed(Lost(rows, Cleared(rows, ns))))
    case Sweep =>
      if fault.write then (rows, Failed) else (Live(rows, now), Removed(Lost(rows, Live(rows, now))))
  }

  // The map that never deletes an expired row: expiry matters only to a read.
  function Reference(all: Rows, op: Op, now: Time, fault: Fault): (Rows, Reply) {
    match op
    case Get(slot) =>
      (all, if fault.read then Failed else Entry(if slot in Live(all, now) then Some(all[slot]) else None))
    case Put(slot, value, expiry) =>
      if fault.write then (all, Failed) else (all[slot := Row(value, expiry, now)], Done)
    case Delete(slot) =>
      if fault.write then (all, Failed) else (all - {slot}, Done)
    case List(ns) =>
      (all, if fault.write || fault.read then Failed else Entries(ByKey(Live(all, now), ns)))
    case Namespaces =>
      (all, if fault.write || fault.read then Failed else Names(NamesOf(Live(all, now))))
    case Stats(window) =>
      (all, if fault.read then Failed else Summary(StatsOf(all, now, window)))
    case Clear(ns) =>
      if fault.write then (all, Failed) else (Cleared(all, ns), Removed(Lost(all, Cleared(all, ns))))
    case Sweep =>
      (all, if fault.write then Failed else Removed(Lost(all, Live(all, now))))
  }

  // ---------- the simulation ----------

  // rows lost only rows that have expired by now.
  ghost predicate Sim(rows: Rows, all: Rows, now: Time) {
    && (forall s :: s in rows ==> s in all && all[s] == rows[s])
    && (forall s :: s in all && !Expired(all[s].expiry, now) ==> s in rows)
  }

  lemma SameLive(rows: Rows, all: Rows, now: Time)
    requires Sim(rows, all, now)
    ensures Live(rows, now) == Live(all, now)
  {}

  /** Time passing and any deletion of expired rows keep the two apart by no more
      than expired rows. */
  lemma SimSurvives(rows: Rows, rows': Rows, all: Rows, now: Time, later: Time)
    requires Sim(rows, all, now) && now <= later
    requires rows' == rows || exists gone: set<Slot> :: DropsExpired(rows, rows', gone, later)
    ensures Sim(rows', all, later)
  {}

  ghost predicate DropsExpired(rows: Rows, rows': Rows, gone: set<Slot>, now: Time) {
    rows' == rows - gone && forall s :: s in gone && s in rows ==> Expired(rows[s].expiry, now)
  }

  lemma SweepKeepsSim(rows: Rows, all: Rows, now: Time)
    requires Sim(rows, all, now)
    ensures Sim(Live(rows, now), all, now)
  {}

  lemma DropKeepsSim(rows: Rows, all: Rows, slot: Slot, now: Time)
    requires Sim(rows, all, now)
    ensures Sim(rows - {slot}, all - {slot}, now)
    ensures slot in rows && Expired(rows[slot].expiry, now) ==> Sim(rows - {slot}, all, now)
  {}

  lemma PutKeepsSim(rows: Rows, all: Rows, slot: Slot, row: Row, now: Time)
    requires Sim(rows, all, now)
    ensures Sim(rows[slot := row], all[slot := row], now)
  {}

  lemma ClearKeepsSim(rows: Rows, all: Rows, ns: string, now: Time)
    requires Sim(rows, all, now)
    ensures Sim(Cleared(rows, ns), Cleared(all, ns), now)
  {}

  lemma CallKeepsSim(rows: Rows, all: Rows, op: Op, now: Time, fault: Fault)
    requires Sim(rows, all, now)
    ensures Sim(After(rows, op, now, fault).0, Reference(all, op, now, fault).0, now)
  {
    match op
    case Get(slot) => DropKeepsSim(rows, all, slot, now);
    case Put(slot, value, expiry) => PutKeepsSim(rows, all, slot, Row(value, expiry, now), now);
    case Delete(slot) => DropKeepsSim(rows, all, slot, now);
    case Clear(ns) => ClearKeepsSim(rows, all, ns, now);
    case _ => SweepKeepsSim(rows, all, now);
  }

  // The same live entries: equal but for how many expired rows are still there,
  // and a namespace with none but expired rows may be gone from the summary.
  ghost predicate SameLiveStats(a: map<string, Stat>, b: map<string, Stat>) {
    && a.Keys <= b.Keys
    && (forall ns :: ns in a ==> a[ns] == b[ns].(expired := a[ns].expired) && a[ns].expired <= b[ns].expired)
    && (forall ns :: ns in b && ns !in a ==> b[ns] == Stat(0, b[ns].expired, 0, None, None))
  }

  // What a caller can tell apart: the counts Sweep and Clear return, and how many
  // expired rows Stats saw, do show which rows were still there.
  ghost predicate Agree(store: Reply, reference: Reply) {
    match store
    case Removed(n) => reference.Removed? && n <= reference.count
    case Summary(stats) => reference.Summary? && SameLiveStats(stats, reference.stats)
    case _ => store == reference
  }

  lemma SweptCounts(rows: Rows, all: Rows, now: Time)
    requires Sim(rows, all, now)
    ensures Lost(rows, Live(rows, now)) <= Lost(all, Live(all, now))
  {
    SameLive(rows, all, now);
    var live := Live(rows, now).Keys;
    SubsetSize(rows.Keys - live, all.Keys - live);
  }

  lemma AggregatesAgree(a: Rows, b: Rows, now: Time, window: int)
    requires Sim(a, b, now)
    ensures Aggregate(a, now, window) == Aggregate(b, now, window).(expired := Aggregate(a, now, window).expired)
    ensures Aggregate(a, now, window).expired <= Aggregate(b, now, window).expired
  {
    SameLive(a, b, now);
    SweptCounts(a, b, now);
  }

  lemma NoRowsNoStat(rows: Rows, ns: string, now: Time, window: int)
    requires ns !in NamesOf(rows)
    ensures Aggregate(Within(rows, ns), now, window) == Stat(0, 0, 0, None, None)
  {
    var none: Rows := map[];
    assert Within(rows, ns) == none && Live(none, now) == none && Updates(none) == {};
    assert UpdatedSince(none, now - window) == none;
  }

  lemma WithinKeepsSim(rows: Rows, all: Rows, ns: string, now: Time)
    requires Sim(rows, all, now)
    ensures Sim(Within(rows, ns), Within(all, ns), now)
  {}

  lemma StatsAgree(rows: Rows, all: Rows, now: Time, window: int)
    requires Sim(rows, all, now)
    ensures SameLiveStats(StatsOf(rows, now, window), StatsOf(all, now, window))
  {
    forall ns | ns in NamesOf(all)
      ensures var a, b := Aggregate(Within(rows, ns), now, window), Aggregate(Within(all, ns), now, window);
              && a == b.(expired := a.expired) && a.expired <= b.expired
              && (ns !in NamesOf(rows) ==> a == Stat(0, 0, 0, None, None))
    {
      WithinKeepsSim(rows, all, ns, now);
      AggregatesAgree(Within(rows, ns), Within(all, ns), now, window);
      if ns !in NamesOf(rows) {
        NoRowsNoStat(rows, ns, now, window);
      }
    }
    assert NamesOf(rows) <= NamesOf(all);
  }

  lemma LookupAgrees(rows: Rows, all: Rows, slot: Slot, now: Time, fault: Fault)
    requires Sim(rows, all, now)
    ensures After(rows, Get(slot), now, fault).1 == Reference(all, Get(slot), now, fault).1
  {}

  lemma RepliesAgree(rows: Rows, all: Rows, op: Op, now: Time, fault: Fault)
    requires Sim(rows, all, now)
    ensures Agree(After(rows, op, now, fault).1, Reference(all, op, now, fault).1)
  {
    if op.Get? {
      LookupAgrees(rows, all, op.slot, now, fault);
    } else if op.Stats? {
      StatsAgree(rows, all, now, op.window);
    } else if op.Clear? {
      ClearedCounts(rows, all, op.ns);
    } else if op.Sweep? {
      SweptCounts(rows, all, now);
    } else if op.List? || op.Namespaces? {
      SameLive(rows, all, now);
    }
  }

  lemma ClearedCounts(rows: Rows, all: Rows, ns: string)
    requires forall s :: s in rows ==> s in all && all[s] == rows[s]
    ensures Lost(rows, Cleared(rows, ns)) <= Lost(all, Cleared(all, ns))
  {
    SubsetSize(rows.Keys - Cleared(rows, ns).Keys, all.Keys - Cleared(all, ns).Keys);
  }

  // ---------- whole runs ----------

  datatype Call = Call(op: Op, now: Time, fault: Fault)

  // The tables before the n-th call, and what the n-th call answers.
  function StoreAt(rows: Rows, calls: seq<Call>, n: nat): Rows
    requires n <= |calls|
  {
    if n == 0 then rows
    else After(StoreAt(rows, calls, n - 1), calls[n - 1].op, calls[n - 1].now, calls[n - 1].fault).0
  }

  function StoreReply(rows: Rows, calls: seq<Call>, n: nat): Reply
    requires n < |calls|
  {
    After(StoreAt(rows, calls, n), calls[n].op, calls[n].now, calls[n].fault).1
  }

  function ReferenceAt(all: Rows, calls: seq<Call>, n: nat): Rows
    requires n <= |calls|
  {
    if n == 0 then all
    else Reference(ReferenceAt(all, calls, n - 1), calls[n - 1].op, calls[n - 1].now, calls[n - 1].fault).0
  }

  function ReferenceReply(all: Rows, calls: seq<Call>, n: nat): Reply
    requires n < |calls|
  {
    Reference(ReferenceAt(all, calls, n), calls[n].op, calls[n].now, calls[n].fault).1
  }

  ghost predicate TimeGoesOn(calls: seq<Call>) {
    forall i, j :: 0 <= i <= j < |calls| ==> calls[i].now <= calls[j].now
  }

  lemma {:induction false} SimThroughout(rows: Rows, calls: seq<Call>, n: nat)
    requires TimeGoesOn(calls) && n < |calls|
    ensures Sim(StoreAt(rows, calls, n), ReferenceAt(rows, calls, n), calls[n].now)
  {
    if n > 0 {
      var c := calls[n - 1];
      var rows1, all1 := StoreAt(rows, calls, n - 1), ReferenceAt(rows, calls, n - 1);
      SimThroughout(rows, calls, n - 1);
      CallKeepsSim(rows1, all1, c.op, c.now, c.fault);
      var rows2 := After(rows1, c.op, c.now, c.fault).0;
      SimSurvives(rows2, rows2, Reference(all1, c.op, c.now, c.fault).0, c.now, calls[n].now);
    }
  }

  /** Lazy expiry is invisible: started alike, the store and the map that never
      deletes give the same answers to every sequence of calls made while the
      clock does not go back, whichever deletions fail. */
  lemma LazyExpiryIsInvisible(rows: Rows, calls: seq<Call>, n: nat)
    requires TimeGoesOn(calls) && n < |calls|
    ensures Agree(StoreReply(rows, calls, n), ReferenceReply(rows, calls, n))
  {
    SimThroughout(rows, calls, n);
    RepliesAgree(StoreAt(rows, calls, n), ReferenceAt(rows, calls, n), calls[n].op, calls[n].now, calls[n].fault);
  }

  // ---------- exactly when it shows ----------

  ghost predicate ReadAt(calls: seq<Call>, ts: seq<Time>) {
    |calls| == |ts| && forall i :: 0 <= i < |ts| ==> calls[i].now == ts[i]
  }

  ghost predicate GoesOn(ts: seq<Time>) {
    forall i, j :: 0 <= i <= j < |ts| ==> ts[i] <= ts[j]
  }

  // Every answer of these calls is the reference's.
  ghost predicate AllAgree(rows: Rows, calls: seq<Call>) {
    forall n: nat :: n < |calls| ==> Agree(StoreReply(rows, calls, n), ReferenceReply(rows, calls, n))
  }

  lemma {:induction false} GoesBackSomewhere(ts: seq<Time>) returns (i: nat)
    requires !GoesOn(ts)
    ensures i + 1 < |ts| && ts[i + 1] < ts[i]
  {
    var n := |ts| - 1;
    if GoesOn(ts[..n]) {
      var k, j :| 0 <= k <= j < |ts| && ts[j] < ts[k];
      assert ts[..n][k] <= ts[..n][n - 1];
      i := n - 1;
    } else {
      i := GoesBackSomewhere(ts[..n]);
    }
  }

  const HERE := Slot("a", "k")
  const ELSEWHERE := Slot("a", "l")
  const FINE := Fault(false, false)

  function Expiring(t: Time): Rows {
    map[HERE := Row("v", Some(t), 0)]
  }

  // A sweep at the i-th reading, a lookup at the next, and lookups of nothing.
  function SweepThenGet(ts: seq<Time>, i: nat): (calls: seq<Call>)
    ensures ReadAt(calls, ts)
    ensures forall j :: 0 <= j < |ts| ==>
              calls[j].op == (if j == i then Sweep else if j == i + 1 then Get(HERE) else Get(ELSEWHERE)) &&
              calls[j].fault == FINE
  {
    seq(|ts|, j requires 0 <= j < |ts| =>
      Call(if j == i then Sweep else if j == i + 1 then Get(HERE) else Get(ELSEWHERE), ts[j], FINE))
  }

  lemma {:induction false} NothingBefore(ts: seq<Time>, i: nat, n: nat)
    requires i < |ts| && n <= i
    ensures StoreAt(Expiring(ts[i]), SweepThenGet(ts, i), n) == Expiring(ts[i])
    ensures ReferenceAt(Expiring(ts[i]), SweepThenGet(ts, i), n) == Expiring(ts[i])
  {
    if n > 0 {
      NothingBefore(ts, i, n - 1);
    }
  }

  /** Wherever the clock goes back from one call to the next, a sweep and a lookup
      show it: the sweep takes an entry that the reference still finds. */
  lemma ClockGoingBackShows(ts: seq<Time>, i: nat)
    requires i + 1 < |ts| && ts[i + 1] < ts[i]
    ensures StoreReply(Expiring(ts[i]), SweepThenGet(ts, i), i + 1) == Entry(None)
    ensures ReferenceReply(Expiring(ts[i]), SweepThenGet(ts, i), i + 1) == Entry(Some(Expiring(ts[i])[HERE]))
  {
    var rows, calls := Expiring(ts[i]), SweepThenGet(ts, i);
    NothingBefore(ts, i, i);
    assert Live(rows, ts[i]) == map[] && HERE in Live(rows, ts[i + 1]);
    assert StoreAt(rows, calls, i + 1) == map[] && ReferenceAt(rows, calls, i + 1) == rows;
  }

  /** For given readings of the clock, lazy expiry is invisible to every sequence of
      calls made at them, from every start and whichever statements fail, if and
      only if the clock never goes back. */
  lemma InvisibleExactly(ts: seq<Time>)
    ensures (forall rows, calls :: ReadAt(calls, ts) ==> AllAgree(rows, calls)) <==> GoesOn(ts)
  {
    if GoesOn(ts) {
      forall rows, calls | ReadAt(calls, ts) ensures AllAgree(rows, calls) {
        forall n: nat | n < |calls| ensures Agree(StoreReply(rows, calls, n), ReferenceReply(rows, calls, n)) {
          LazyExpiryIsInvisible(rows, calls, n);
        }
      }
    } else {
      var i := GoesBackSomewhere(ts);
      ClockGoingBackShows(ts, i);
      assert ReadAt(SweepThenGet(ts, i), ts) && !AllAgree(Expiring(ts[i]), SweepThenGet(ts, i));
    }
  }

  lemma EqualSizes<T>(a: set<T>, b: set<T>)
    requires a <= b && |a| == |b|
    ensures a == b
  {
    assert b == a + (b - a);
    assert |b - a| == 0;
  }

  lemma EqualOutside<T>(a: set<T>, b: set<T>, common: set<T>)
    requires common <= a <= b && |a - common| == |b - common|
    ensures a == b
  {
    EqualSizes(a - common, b - common);
    assert a == (a - common) + common && b == (b - common) + common;
  }

  lemma SameKeysSameRows(rows: Rows, all: Rows, now: Time)
    requires Sim(rows, all, now) && rows.Keys == all.Keys
    ensures rows == all
  {}

  /** The count of a sweep is the reference's exactly when no expired row was gone
      before it. */
  lemma SweepCountExactly(rows: Rows, all: Rows, now: Time)
    requires Sim(rows, all, now)
    ensures Lost(rows, Live(rows, now)) == Lost(all, Live(all, now)) <==> rows == all
  {
    SameLive(rows, all, now);
    var live := Live(rows, now).Keys;
    if |rows.Keys - live| == |all.Keys - live| {
      EqualOutside(rows.Keys, all.Keys, live);
      SameKeysSameRows(rows, all, now);
    }
  }

  // What Clear(ns) removes.
  function Targeted(rows: Rows, ns: string): Rows {
    if ns == "" then rows else Within(rows, ns)
  }

  lemma ClearedAreTargeted(rows: Rows, ns: string)
    ensures Lost(rows, Cleared(rows, ns)) == |Targeted(rows, ns)|
  {
    assert rows.Keys - Cleared(rows, ns).Keys == Targeted(rows, ns).Keys;
  }

  /** That of Clear, exactly when none of the rows it removes was. */
  lemma ClearCountExactly(rows: Rows, all: Rows, ns: string, now: Time)
    requires Sim(rows, all, now)
    ensures Lost(rows, Cleared(rows, ns)) == Lost(all, Cleared(all, ns)) <==> Targeted(rows, ns) == Targeted(all, ns)
  {
    ClearedAreTargeted(rows, ns);
    ClearedAreTargeted(all, ns);
    var a, b := Targeted(rows, ns), Targeted(all, ns);
    if |a| == |b| {
      EqualSizes(a.Keys, b.Keys);
    }
  }

  /** And the expired rows Stats counts for a namespace are the reference's exactly
      when none of its rows was. */
  lemma ExpiredCountExactly(rows: Rows, all: Rows, ns: string, now: Time, window: int)
    requires Sim(rows, all, now)
    ensures Aggregate(Within(rows, ns), now, window).expired == Aggregate(Within(all, ns), now, window).expired
            <==> Within(rows, ns) == Within(all, ns)
  {
    WithinKeepsSim(rows, all, ns, now);
    SweepCountExactly(Within(rows, ns), Within(all, ns), now);
  }

  // ---------- the store ----------

  // The loop over the rows of a namespace, which the cursor hands out in an
  // order of its own.
  method Collect(rows: Rows, ns: string) returns (entries: map<string, Row>)
    ensures entries == ByKey(rows, ns)
  {
    entries := map[];
    var cursor := set s | s in rows && s.ns == ns;
    while cursor != {}
      invariant forall s :: s in cursor ==> s in rows && s.ns == ns
      invariant forall key :: key in entries <==> Slot(ns, key) in rows && Slot(ns, key) !in cursor
      invariant forall key :: key in entries ==> entries[key] == rows[Slot(ns, key)]
      decreases |cursor|
    {
      var s :| s in cursor;
      assert s == Slot(ns, s.key);
      entries := entries[s.key := rows[s]];
      cursor := cursor - {s};
    }
  }

  // ---------- the pass of the aggregate query ----------

  const NO_ROWS := Stat(0, 0, 0, None, None)

  function Earliest(a: Option<Time>, t: Time): Option<Time> {
    if a.None? || t < a.value then Some(t) else a
  }

  function Latest(a: Option<Time>, t: Time): Option<Time> {
    if a.None? || t > a.value then Some(t) else a
  }

  // One more row of a group.
  function Tallied(stat: Stat, row: Row, now: Time, cutoff: int): Stat {
    if Expired(row.expiry, now) then stat.(expired := stat.expired + 1)
    else Stat(stat.entries + 1, stat.expired, if row.updated >= cutoff then stat.recent + 1 else stat.recent,
              Earliest(stat.oldest, row.updated), Latest(stat.newest, row.updated))
  }

  lemma LeastOfMore(times: set<Time>, t: Time)
    ensures Least(times + {t}) == Earliest(Least(times), t)
    ensures Greatest(times + {t}) == Latest(Greatest(times), t)
  {}

  lemma CountOfMore(rows: Rows, s: Slot, row: Row)
    requires s !in rows
    ensures |rows[s := row]| == |rows| + 1
  {
    assert rows[s := row].Keys == rows.Keys + {s};
  }

  lemma OneMoreOutside(all: set<Slot>, live: set<Slot>, s: Slot)
    requires s !in all && live <= all
    ensures |(all + {s}) - live| == |all - live| + 1
    ensures (all + {s}) - (live + {s}) == all - live
  {
    assert (all + {s}) - live == (all - live) + {s};
  }

  lemma LiveOfMore(group: Rows, s: Slot, row: Row, now: Time)
    requires s !in group
    ensures Live(group[s := row], now) ==
              if Expired(row.expiry, now) then Live(group, now) else Live(group, now)[s := row]
  {}

  lemma LostOfMore(group: Rows, s: Slot, row: Row, now: Time)
    requires s !in group
    ensures var live := Live(group, now);
            && (Expired(row.expiry, now) ==> Lost(group[s := row], live) == Lost(group, live) + 1)
            && (!Expired(row.expiry, now) ==> Lost(group[s := row], live[s := row]) == Lost(group, live))
  {
    var live := Live(group, now);
    LostKeys(group, live, s, row);
  }

  lemma LostKeys(group: Rows, live: Rows, s: Slot, row: Row)
    requires s !in group && live.Keys <= group.Keys
    ensures Lost(group[s := row], live) == Lost(group, live) + 1
    ensures Lost(group[s := row], live[s := row]) == Lost(group, live)
  {
    assert group[s := row].Keys == group.Keys + {s};
    assert live[s := row].Keys == live.Keys + {s};
    OneMoreOutside(group.Keys, live.Keys, s);
  }

  lemma LiveRowTallied(live: Rows, s: Slot, row: Row, cutoff: int)
    requires s !in live
    ensures |UpdatedSince(live[s := row], cutoff)| ==
              |UpdatedSince(live, cutoff)| + if row.updated >= cutoff then 1 else 0
    ensures Updates(live[s := row]) == Updates(live) + {row.updated}
  {
    var more := live[s := row];
    if row.updated >= cutoff {
      assert UpdatedSince(more, cutoff) == UpdatedSince(live, cutoff)[s := row];
      CountOfMore(UpdatedSince(live, cutoff), s, row);
    } else {
      assert UpdatedSince(more, cutoff) == UpdatedSince(live, cutoff);
    }
    assert more[s] == row;
    forall k | k in live ensures live[k].updated in Updates(more) {
      assert more[k] == live[k];
    }
  }

  lemma ExpiredRowTallied(group: Rows, s: Slot, row: Row, now: Time, cutoff: int)
    requires s !in group && Expired(row.expiry, now)
    ensures RawAggregate(group[s := row], now, cutoff) == Tallied(RawAggregate(group, now, cutoff), row, now, cutoff)
  {
    LiveOfMore(group, s, row, now);
    LostOfMore(group, s, row, now);
  }

  lemma FreshRowTallied(group: Rows, s: Slot, row: Row, now: Time, cutoff: int)
    requires s !in group && !Expired(row.expiry, now)
    ensures RawAggregate(group[s := row], now, cutoff) == Tallied(RawAggregate(group, now, cutoff), row, now, cutoff)
  {
    var live := Live(group, now);
    LiveOfMore(group, s, row, now);
    LostOfMore(group, s, row, now);
    CountOfMore(live, s, row);
    LiveRowTallied(live, s, row, cutoff);
    LeastOfMore(Updates(live), row.updated);
  }

  /** Adding a row to a group adds it to the group's aggregates. */
  lemma OneRowTallied(group: Rows, s: Slot, row: Row, now: Time, cutoff: int)
    requires s !in group
    ensures RawAggregate(group[s := row], now, cutoff) == Tallied(RawAggregate(group, now, cutoff), row, now, cutoff)
  {
    if Expired(row.expiry, now) {
      ExpiredRowTallied(group, s, row, now, cutoff);
    } else {
      FreshRowTallied(group, s, row, now, cutoff);
    }
  }

  // What a pass over the rows can keep up to date.
  ghost predicate IsTally(f: Rows -> Stat, now: Time, cutoff: int) {
    && f(map[]) == NO_ROWS
    && forall group: Rows, s, row {:trigger group[s := row]} ::
         s !in group ==> f(group[s := row]) == Tallied(f(group), row, now, cutoff)
  }

  // The aggregate can be kept up to date.
  lemma RawIsTally(now: Time, cutoff: int) returns (f: Rows -> Stat)
    ensures IsTally(f, now, cutoff) && f == RawOf(now, cutoff)
  {
    f := RawOf(now, cutoff);
    var none: Rows := map[];
    assert Live(none, now) == none && UpdatedSince(none, cutoff) == none && Updates(none) == {};
    forall group: Rows, s, row | s !in group
      ensures f(group[s := row]) == Tallied(f(group), row, now, cutoff)
    {
      OneRowTallied(group, s, row, now, cutoff);
    }
  }

  // groups holds the aggregate of every namespace among the rows passed.
  ghost predicate Grouped(groups: map<string, Stat>, passed: Rows, f: Rows -> Stat) {
    && groups.Keys == NamesOf(passed)
    && forall ns :: ns in groups ==> groups[ns] == f(Within(passed, ns))
  }

  lemma OneMoreName(passed: Rows, s: Slot, row: Row)
    requires s !in passed
    ensures NamesOf(passed[s := row]) == NamesOf(passed) + {s.ns}
  {
    assert s in passed[s := row];
    forall k | k in passed ensures k.ns in NamesOf(passed[s := row]) {
      assert k in passed[s := row];
    }
  }

  lemma GroupedOn(groups: map<string, Stat>, passed: Rows, f: Rows -> Stat, s: Slot, row: Row, now: Time, cutoff: int)
    requires Grouped(groups, passed, f) && IsTally(f, now, cutoff) && s !in passed
    ensures var stat := if s.ns in groups then groups[s.ns] else NO_ROWS;
            Grouped(groups[s.ns := Tallied(stat, row, now, cutoff)], passed[s := row], f)
  {
    var more := passed[s := row];
    var own := Within(passed, s.ns);
    if s.ns !in groups {
      var none: Rows := map[];
      assert s.ns !in NamesOf(passed);
      assert own == none;
    }
    assert Within(more, s.ns) == own[s := row];
    assert f(own[s := row]) == Tallied(f(own), row, now, cutoff);
    OneMoreName(passed, s, row);
    forall ns | ns in groups && ns != s.ns ensures groups[ns] == f(Within(more, ns)) {
      assert Within(more, ns) == Within(passed, ns);
    }
  }

  // GROUP BY namespace, in whatever order the rows come.
  method GroupRows(rows: Rows, now: Time, cutoff: int, ghost f: Rows -> Stat) returns (groups: map<string, Stat>)
    requires IsTally(f, now, cutoff)
    ensures Grouped(groups, rows, f)
  {
    groups := map[];
    var cursor := rows.Keys;
    ghost var passed: Rows := map[];
    while cursor != {}
      invariant cursor <= rows.Keys && passed == rows - cursor && Grouped(groups, passed, f)
      decreases |cursor|
    {
      var s :| s in cursor;
      GroupedOn(groups, passed, f, s, rows[s], now, cutoff);
      var stat := if s.ns in groups then groups[s.ns] else NO_ROWS;
      groups := groups[s.ns := Tallied(stat, rows[s], now, cutoff)];
      cursor := cursor - {s};
      passed := passed[s := rows[s]];
    }
    assert passed == rows;
  }

  datatype Line = Line(ns: string, stat: Stat)

  // The groups as lines, one a namespace, ordered by name.
  ghost predicate Lists(lines: seq<Line>, stats: map<string, Stat>) {
    && (forall i, j :: 0 <= i < j < |lines| ==> lines[i].ns != lines[j].ns && AtMost(lines[i].ns, lines[j].ns))
    && (forall i :: 0 <= i < |lines| ==> lines[i].ns in stats && lines[i].stat == stats[lines[i].ns])
    && (forall ns :: ns in stats ==> exists i :: 0 <= i < |lines| && lines[i].ns == ns)
  }

  // SELECT DISTINCT namespace ... ORDER BY namespace
  method SortedNames(rows: Rows) returns (names: seq<string>)
    ensures Elems(names) == NamesOf(rows) && Sorted(names) && NoDup(names)
  {
    var distinct := [];
    var todo := NamesOf(rows);
    while todo != {}
      invariant todo <= NamesOf(rows) && NoDup(distinct)
      invariant forall x :: x in distinct <==> x in NamesOf(rows) && x !in todo
      decreases |todo|
    {
      var ns :| ns in todo;
      distinct := distinct + [ns];
      todo := todo - {ns};
    }
    names := SortStrings(distinct);
    forall x ensures x in names <==> x in NamesOf(rows) {
      SameElements(names, distinct, x);
    }
    MultisetNoDup(distinct);
    MultisetNoDup(names);
  }

  // The aggregate query, and the loop over its groups ordered by name.
  method GroupLines(rows: Rows, now: Time, window: int, ghost f: Rows -> Stat) returns (lines: seq<Line>)
    requires IsTally(f, now, now - window)
    ensures Lists(lines, ByGroup(rows, f, window))
  {
    var groups := GroupRows(rows, now, now - window, f);
    var names := SortedNames(rows);
    lines := [];
    for i := 0 to |names|
      invariant |lines| == i
      invariant forall k :: 0 <= k < i ==> lines[k] == Line(names[k], Shown(f(Within(rows, names[k])), window))
    {
      assert names[i] in Elems(names);
      var stat := groups[names[i]];
      if window <= 0 {
        stat := stat.(recent := 0);
      }
      lines := lines + [Line(names[i], stat)];
    }
    LinesListGroups(rows, f, names, lines, window);
  }

  lemma LinesListGroups(rows: Rows, f: Rows -> Stat, names: seq<string>, lines: seq<Line>, window: int)
    requires |lines| == |names| && Elems(names) == NamesOf(rows) && Sorted(names) && NoDup(names)
    requires forall k :: 0 <= k < |names| ==> lines[k] == Line(names[k], Shown(f(Within(rows, names[k])), window))
    ensures Lists(lines, ByGroup(rows, f, window))
  {
    forall i | 0 <= i < |lines|
      ensures lines[i].ns in ByGroup(rows, f, window) && lines[i].stat == ByGroup(rows, f, window)[lines[i].ns]
    {
      assert names[i] in Elems(names);
    }
    forall ns | ns in ByGroup(rows, f, window) ensures exists i :: 0 <= i < |lines| && lines[i].ns == ns {
      assert ns in Elems(names);
      var i :| 0 <= i < |names| && names[i] == ns;
      assert lines[i].ns == ns;
    }
  }

  method RawLines(rows: Rows, now: Time, window: int) returns (lines: seq<Line>, ghost f: Rows -> Stat)
    ensures Lists(lines, ByGroup(rows, f, window)) && f == RawOf(now, now - window)
  {
    f := RawIsTally(now, now - window);
    lines := GroupLines(rows, now, window, f);
  }

  lemma SameLists(lines: seq<Line>, a: map<string, Stat>, b: map<string, Stat>)
    requires Lists(lines, a) && a == b
    ensures Lists(lines, b)
  {}

  lemma ByGroupIsStats(rows: Rows, now: Time, window: int, f: Rows -> Stat)
    requires f == RawOf(now, now - window)
    ensures ByGroup(rows, f, window) == StatsOf(rows, now, window)
  {}

  method StatLines(rows: Rows, now: Time, window: int) returns (lines: seq<Line>)
    ensures Lists(lines, StatsOf(rows, now, window))
  {
    ghost var f;
    lines, f := RawLines(rows, now, window);
    ByGroupIsStats(rows, now, window, f);
    SameLists(lines, ByGroup(rows, f, window), StatsOf(rows, now, window));
  }

  // ---------- what is live, row by row ----------

  lemma SweptPlainly(rows: Rows, now: Time)
    ensures forall s :: s in Live(rows, now) <==> s in rows && (rows[s].expiry == None || now < rows[s].expiry.value)
    ensures forall s :: s in Live(rows, now) ==> Live(rows, now)[s] == rows[s]
    ensures Lost(rows, Live(rows, now)) == |set s | s in rows && rows[s].expiry != None && rows[s].expiry.value <= now|
  {
    assert rows.Keys - Live(rows, now).Keys ==
           set s | s in rows && rows[s].expiry != None && rows[s].expiry.value <= now;
  }

  lemma ListedPlainly(rows: Rows, ns: string)
    ensures forall key :: key in ByKey(rows, ns) <==> Slot(ns, key) in rows
    ensures forall key :: key in ByKey(rows, ns) ==> ByKey(rows, ns)[key] == rows[Slot(ns, key)]
  {
    forall key | Slot(ns, key) in rows ensures key in ByKey(rows, ns) {
      var s := Slot(ns, key);
      assert s in rows && s.ns == ns && s.key == key;
    }
    forall key | key in ByKey(rows, ns) ensures Slot(ns, key) in rows {
      var s :| s in rows && s.ns == ns && s.key == key;
      assert s == Slot(ns, key);
    }
  }

  // The live rows of a namespace, from the rows themselves.
  function LiveIn(rows: Rows, now: Time, ns: string): set<Slot> {
    set s | s in rows && s.ns == ns && (rows[s].expiry == None || now < rows[s].expiry.value)
  }

  // What a namespace's line says.
  ghost predicate Counts(rows: Rows, now: Time, window: int, ns: string, stat: Stat) {
    && stat.entries == |LiveIn(rows, now, ns)|
    && stat.expired == |set s | s in rows && s.ns == ns && rows[s].expiry != None && rows[s].expiry.value <= now|
    && stat.recent ==
         (if window <= 0 then 0 else |set s | s in LiveIn(rows, now, ns) && rows[s].updated >= now - window|)
  }

  ghost predicate Brackets(rows: Rows, now: Time, ns: string, stat: Stat) {
    && (LiveIn(rows, now, ns) == {} <==> stat.oldest == None)
    && (LiveIn(rows, now, ns) == {} <==> stat.newest == None)
    && (stat.oldest != None ==> exists s :: s in LiveIn(rows, now, ns) && rows[s].updated == stat.oldest.value)
    && (stat.newest != None ==> exists s :: s in LiveIn(rows, now, ns) && rows[s].updated == stat.newest.value)
    && forall s :: s in LiveIn(rows, now, ns) && stat.oldest != None && stat.newest != None ==>
         stat.oldest.value <= rows[s].updated <= stat.newest.value
  }

  lemma LiveWithin(rows: Rows, now: Time, ns: string)
    ensures Live(Within(rows, ns), now).Keys == LiveIn(rows, now, ns)
    ensures forall s :: s in LiveIn(rows, now, ns) ==> Live(Within(rows, ns), now)[s] == rows[s]
    ensures Within(rows, ns).Keys - LiveIn(rows, now, ns) ==
              set s | s in rows && s.ns == ns && rows[s].expiry != None && rows[s].expiry.value <= now
  {}

  /** The aggregates of a namespace count its live and its expired rows, and bracket
      the live ones. */
  lemma CountedPlainly(rows: Rows, now: Time, window: int, ns: string)
    ensures Counts(rows, now, window, ns, Aggregate(Within(rows, ns), now, window))
  {
    LiveWithin(rows, now, ns);
    var live := Live(Within(rows, ns), now);
    assert UpdatedSince(live, now - window).Keys ==
           set s | s in LiveIn(rows, now, ns) && rows[s].updated >= now - window;
  }

  lemma BracketedPlainly(rows: Rows, now: Time, window: int, ns: string)
    ensures Brackets(rows, now, ns, Aggregate(Within(rows, ns), now, window))
  {
    LiveWithin(rows, now, ns);
    ExtremesAre(Live(Within(rows, ns), now));
  }

  lemma ExtremesAre(rows: Rows)
    ensures var low, high := Least(Updates(rows)), Greatest(Updates(rows));
            && (rows.Keys == {} <==> low == None) && (rows.Keys == {} <==> high == None)
            && (low != None ==> exists s :: s in rows && rows[s].updated == low.value)
            && (high != None ==> exists s :: s in rows && rows[s].updated == high.value)
            && forall s :: s in rows && low != None && high != None ==> low.value <= rows[s].updated <= high.value
  {
    UpdatesAre(rows);
  }

  lemma UpdatesAre(rows: Rows)
    ensures forall s :: s in rows ==> rows[s].updated in Updates(rows)
    ensures forall t :: t in Updates(rows) ==> exists s :: s in rows && rows[s].updated == t
    ensures Updates(rows) == {} <==> rows.Keys == {}
  {
    forall s | s in rows ensures rows[s].updated in Updates(rows) {}
    if rows.Keys != {} {
      var s :| s in rows.Keys;
      assert rows[s].updated in Updates(rows);
    }
  }

  lemma LinesCount(rows: Rows, now: Time, window: int, lines: seq<Line>)
    requires Lists(lines, StatsOf(rows, now, window))
    ensures forall i :: 0 <= i < |lines| ==> Counts(rows, now, window, lines[i].ns, lines[i].stat)
    ensures forall i :: 0 <= i < |lines| ==> Brackets(rows, now, lines[i].ns, lines[i].stat)
    ensures (set i | 0 <= i < |lines| :: lines[i].ns) == (set s | s in rows :: s.ns)
  {
    forall i | 0 <= i < |lines|
      ensures Counts(rows, now, window, lines[i].ns, lines[i].stat)
      ensures Brackets(rows, now, lines[i].ns, lines[i].stat)
    {
      CountedPlainly(rows, now, window, lines[i].ns);
      BracketedPlainly(rows, now, window, lines[i].ns);
    }
    assert forall ns :: ns in NamesOf(rows) <==> ns in StatsOf(rows, now, window);
  }

  class Store {
    var rows: Rows

    method Get(slot: Slot, now: Time, fault: Fault) returns (entry: Option<Row>, ok: bool)
      modifies this
      ensures (rows, if ok then Entry(entry) else Failed) == After(old(rows), Op.Get(slot), now, fault)
      ensures ok <==> !fault.read
      ensures ok && slot in old(rows) && (old(rows)[slot].expiry == None || now < old(rows)[slot].expiry.value) ==>
                entry == Some(old(rows)[slot]) && rows == old(rows)
      ensures ok && slot in old(rows) && old(rows)[slot].expiry != None && old(rows)[slot].expiry.value <= now ==>
                entry == None && rows == if fault.write then old(rows) else old(rows) - {slot}
      ensures !ok || slot !in old(rows) ==> entry == None && rows == old(rows)
    {
      entry := None;
      if fault.read { return None, false; }
      ok := true;
      if slot !in rows { return; }
      var got := rows[slot];
      if Expired(got.expiry, now) {
        if !fault.write { rows := rows - {slot}; }
        return;
      }
      entry := Some(got);
    }

    method Put(slot: Slot, value: string, expiry: Option<Time>, now: Time, fault: Fault) returns (ok: bool)
      modifies this
      ensures (rows, if ok then Done else Failed) == After(old(rows), Op.Put(slot, value, expiry), now, fault)
      ensures ok <==> !fault.write
      ensures rows == if ok then old(rows)[slot := Row(value, expiry, now)] else old(rows)
    {
      var rows0 := rows;
      rows := rows - {slot};
      if fault.write {
        // the deferred Rollback
        rows := rows0;
        return false;
      }
      rows := rows[slot := Row(value, expiry, now)];
      assert rows == rows0[slot := Row(value, expiry, now)];
      return true;
    }

    method Delete(slot: Slot, now: Time, fault: Fault) returns (ok: bool)
      modifies this
      ensures (rows, if ok then Done else Failed) == After(old(rows), Op.Delete(slot), now, fault)
      ensures ok <==> !fault.write
      ensures rows == if ok then old(rows) - {slot} else old(rows)
    {
      if fault.write { return false; }
      rows := rows - {slot};
      return true;
    }

    method Sweep(now: Time, fault: Fault) returns (count: nat, ok: bool)
      modifies this
      ensures (rows, if ok then Removed(count) else Failed) == After(old(rows), Op.Sweep, now, fault)
      ensures ok <==> !fault.write
      ensures forall s :: s in rows <==>
                s in old(rows) && (fault.write || old(rows)[s].expiry == None || now < old(rows)[s].expiry.value)
      ensures forall s :: s in rows ==> rows[s] == old(rows)[s]
      ensures ok ==>
                count == |set s | s in old(rows) && old(rows)[s].expiry != None && old(rows)[s].expiry.value <= now|
    {
      if fault.write { return 0, false; }
      var live := Live(rows, now);
      SweptPlainly(rows, now);
      count, ok := Lost(rows, live), true;
      rows := live;
    }

    method List(ns: string, now: Time, fault: Fault) returns (entries: map<string, Row>, ok: bool)
      modifies this
      ensures (rows, if ok then Entries(entries) else Failed) == After(old(rows), Op.List(ns), now, fault)
      ensures ok <==> !fault.write && !fault.read
      ensures forall s :: s in rows <==>
                s in old(rows) && (fault.write || old(rows)[s].expiry == None || now < old(rows)[s].expiry.value)
      ensures forall s :: s in rows ==> rows[s] == old(rows)[s]
      ensures ok ==> forall key :: key in entries <==>
                var s := Slot(ns, key);
                s in old(rows) && (old(rows)[s].expiry == None || now < old(rows)[s].expiry.value)
      ensures ok ==> forall key :: key in entries ==> entries[key] == old(rows)[Slot(ns, key)]
    {
      var _, swept := Sweep(now, fault);
      if !swept || fault.read { return map[], false; }
      entries := Collect(rows, ns);
      ListedPlainly(rows, ns);
      ok := true;
    }

    method Namespaces(now: Time, fault: Fault) returns (names: seq<string>, ok: bool)
      modifies this
      ensures (rows, if ok then Names(Elems(names)) else Failed) == After(old(rows), Op.Namespaces, now, fault)
      ensures Sorted(names) && NoDup(names)
      ensures ok <==> !fault.write && !fault.read
      ensures forall s :: s in rows <==>
                s in old(rows) && (fault.write || old(rows)[s].expiry == None || now < old(rows)[s].expiry.value)
      ensures forall s :: s in rows ==> rows[s] == old(rows)[s]
      ensures ok ==> forall ns :: ns in names <==>
                exists s :: s in old(rows) && s.ns == ns
                            && (old(rows)[s].expiry == None || now < old(rows)[s].expiry.value)
    {
      var _, swept := Sweep(now, fault);
      if !swept || fault.read { return [], false; }
      names := SortedNames(rows);
      assert forall ns :: ns in names <==> ns in Elems(names);
      ok := true;
    }

    method Stats(window: int, now: Time, fault: Fault) returns (lines: seq<Line>, ok: bool)
      ensures var reply := After(rows, Op.Stats(window), now, fault).1;
              if ok then reply.Summary? && Lists(lines, reply.stats) else reply.Failed?
      ensures ok <==> !fault.read
      ensures forall i :: 0 <= i < |lines| ==> Counts(rows, now, window, lines[i].ns, lines[i].stat)
      ensures forall i :: 0 <= i < |lines| ==> Brackets(rows, now, lines[i].ns, lines[i].stat)
      ensures ok ==> (set i | 0 <= i < |lines| :: lines[i].ns) == (set s | s in rows :: s.ns)
      ensures forall i, j :: 0 <= i < j < |lines| ==> lines[i].ns != lines[j].ns && AtMost(lines[i].ns, lines[j].ns)
    {
      if fault.read { return [], false; }
      lines := StatLines(rows, now, window);
      LinesCount(rows, now, window, lines);
      ok := true;
    }

    method Clear(ns: string, now: Time, fault: Fault) returns (count: nat, ok: bool)
      modifies this
      ensures (rows, if ok then Removed(count) else Failed) == After(old(rows), Op.Clear(ns), now, fault)
      ensures ok <==> !fault.write
      ensures forall s :: s in rows <==> s in old(rows) && (ok ==> ns != "" && s.ns != ns)
      ensures forall s :: s in rows ==> rows[s] == old(rows)[s]
      ensures ok ==> count == |old(rows).Keys - rows.Keys|
    {
      if fault.write { return 0, false; }
      var kept := Cleared(rows, ns);
      count, ok := Lost(rows, kept), true;
      rows := kept;
    }
  }
}
