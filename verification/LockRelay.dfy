/**
  Two handles of one process on one file (internal/duckdb/handle.go): when one
  hands the database over, the other still holds the lock, so the operation that
  noticed the waiter resumes, finds the lock at hand and opens again.  A waiter at
  the head of the queue can be passed any number of times.
 */
module LockRelay {
  import opened Util
  import opened HandleCore
  import opened LockProtocol
  import opened LockInvariant
  import opened LockTheorems
  import opened LockYield

  // ---------- one operation moving, on its view ----------

  predicate IsViewOf(s: Sys, u: OpId, v: View) {
    Known(s, u) && v.who == s.ops[u].who && v.who.Do? && v.idle == Get(s, u).idle && v.now == Get(s, u).now
  }

  lemma PutGet(s: Sys, u: OpId, v: View, w: View)
    requires IsViewOf(s, u, v) && IsViewOf(s, u, w)
    ensures Known(Put(s, u, v), u) && Get(Put(s, u, v), u) == v
    ensures Put(Put(s, u, v), u, w) == Put(s, u, w)
  {
    var s1 := Put(s, u, v);
    var h := v.who.h;
    assert s1.ops[u := s1.ops[u].(pc := w.pc)] == s.ops[u := s.ops[u].(pc := w.pc)];
    assert Put(s1, u, w).handles == Put(s, u, w).handles;
    assert Put(s1, u, w).table == Put(s, u, w).table;
  }

  lemma MovedIsViewOf(s: Sys, u: OpId, v: View, act: Act)
    requires IsViewOf(s, u, v) && CanMove(v, act)
    ensures IsViewOf(s, u, Moved(v, u, act))
  {}

  lemma MoveView(s: Sys, u: OpId, v: View, act: Act)
    requires IsViewOf(s, u, v) && CanMove(v, act)
    ensures IsViewOf(s, u, Moved(v, u, act))
    ensures Enabled(Put(s, u, v), Move(u, act)) && Apply(Put(s, u, v), Move(u, act)) == Put(s, u, Moved(v, u, act))
  {
    MovedIsViewOf(s, u, v, act);
    PutGet(s, u, v, Moved(v, u, act));
  }

  // ---------- nobody waits ----------

  // A new operation on h, before it has done anything.
  function Begun(s: Sys, u: OpId, h: HandleId): Sys {
    s.(ops := s.ops[u := Op(Do(h), Begin)])
  }

  lemma BegunIsPut(s: Sys, u: OpId, h: HandleId)
    requires u !in s.ops && h in s.handles
    ensures Enabled(s, StartDo(u, h)) && Apply(s, StartDo(u, h)) == Begun(s, u, h)
    ensures var s1 := Begun(s, u, h);
            && Known(s1, u) && IsViewOf(s1, u, Get(s1, u)) && Put(s1, u, Get(s1, u)) == s1
            && Get(s1, u).pc.Begin? && Get(s1, u).lock == s.lockOwner && Get(s1, u).wait == s.waitOwner
            && Get(s1, u).core == s.handles[h].core && Get(s1, u).mutex == s.handles[h].holder
  {
    var s1 := Begun(s, u, h);
    assert s1.ops[u := s1.ops[u]] == s1.ops && s1.handles[h := s1.handles[h]] == s1.handles;
    assert SetEntry(s1.table, s1.handles[h].proc, EntryOf(s1, s1.handles[h].proc)) == s1.table;
  }

  const UNDISTURBED := [Enter, ProbeTry, ProbeUnlock, KeepOpen, Check]

  // The operation's view after n of these.
  function ViewAfter(v: View, u: OpId, n: nat): View
    requires n <= 5 && v.who.Do? && v.pc.Begin? && v.mutex.None? && v.core.db && !v.core.closed && v.wait.None?
  {
    var entered := v.(mutex := Some(u), core := Disarmed(v.core));
    [v, entered.(pc := Probe), entered.(pc := ProbeHeld, wait := Some(ProbeFd(u))), entered.(pc := Decide(false)),
     entered.(pc := Ready), entered.(pc := Running)][n]
  }

  lemma ViewAfterOne(v: View, u: OpId, n: nat)
    requires n < 5 && v.who.Do? && v.pc.Begin? && v.mutex.None? && v.core.db && !v.core.closed && v.wait.None?
    ensures CanMove(ViewAfter(v, u, n), UNDISTURBED[n])
    ensures Moved(ViewAfter(v, u, n), u, UNDISTURBED[n]) == ViewAfter(v, u, n + 1)
  {}

  /** An operation on an idle open handle that finds nobody waiting runs on the
      database as it is: the handle is never shut meanwhile, and neither the lock
      nor its references change. */
  lemma KeepsOpenUndisturbed(s: Sys, u: OpId, h: HandleId) returns (trace: seq<Sys>, steps: seq<Step>)
    requires u !in s.ops && MutexFree(s, h) && s.handles[h].core.db && !s.handles[h].core.closed
    requires s.waitOwner.None?
    ensures IsRun(trace, steps) && trace[0] == s
    ensures steps == [StartDo(u, h)] + seq(5, i requires 0 <= i < 5 => Move(u, UNDISTURBED[i]))
    ensures forall k :: 0 <= k < |trace| ==>
              Open(trace[k], h) && trace[k].table == s.table && trace[k].lockOwner == s.lockOwner
    ensures At(trace[|steps|], u, Running) && trace[|steps|].waitOwner.None?
  {
    var s1 := Begun(s, u, h);
    BegunIsPut(s, u, h);
    var v := Get(s1, u);
    steps := [StartDo(u, h)] + seq(5, i requires 0 <= i < 5 => Move(u, UNDISTURBED[i]));
    trace := [s] + seq(6, i requires 0 <= i < 6 => Put(s1, u, ViewAfter(v, u, i)));
    forall i: nat | i < |steps| ensures StepAt(trace, steps, i) {
      if i > 0 {
        ViewAfterOne(v, u, i - 1);
        MoveView(s1, u, ViewAfter(v, u, i - 1), UNDISTURBED[i - 1]);
      }
    }
    forall i | 0 <= i < 6
      ensures Open(Put(s1, u, ViewAfter(v, u, i)), h) && Put(s1, u, ViewAfter(v, u, i)).table == s.table
      ensures Put(s1, u, ViewAfter(v, u, i)).lockOwner == s.lockOwner
    {
      assert ViewAfter(v, u, i).entry == v.entry;
    }
  }

  // ---------- runs the waiter sits through ----------

  // t stays at the head and .lock with its owner.
  ghost predicate Starving(trace: seq<Sys>, steps: seq<Step>, t: OpId) {
    && IsRun(trace, steps)
    && forall k: nat :: k <= |steps| ==> At(trace[k], t, Head) && trace[k].lockOwner == trace[0].lockOwner
  }

  lemma StarvingOn(trace: seq<Sys>, steps: seq<Step>, t: OpId, st: Step)
    returns (trace': seq<Sys>, steps': seq<Step>)
    requires Starving(trace, steps, t) && Enabled(trace[|steps|], st)
    requires At(Apply(trace[|steps|], st), t, Head)
    requires Apply(trace[|steps|], st).lockOwner == trace[|steps|].lockOwner
    ensures Starving(trace', steps', t)
    ensures trace' == trace + [Apply(trace[|steps|], st)] && steps' == steps + [st]
  {
    trace', steps' := trace + [Apply(trace[|steps|], st)], steps + [st];
    forall i: nat | i < |steps'| ensures StepAt(trace', steps', i) {
      assert i < |steps| ==> StepAt(trace, steps, i);
    }
  }

  // The run goes on with a step of u, seen from where u started.
  ghost predicate Onward(trace: seq<Sys>, steps: seq<Step>, trace': seq<Sys>, steps': seq<Step>, t: OpId) {
    Starving(trace', steps', t) && trace <= trace' && steps <= steps'
  }

  lemma ViewOn(trace: seq<Sys>, steps: seq<Step>, t: OpId, s: Sys, u: OpId, v: View, act: Act)
    returns (trace': seq<Sys>, steps': seq<Step>, v': View)
    requires Starving(trace, steps, t) && At(s, t, Head) && u != t
    requires IsViewOf(s, u, v) && trace[|steps|] == Put(s, u, v) && CanMove(v, act) && Moved(v, u, act).lock == v.lock
    ensures v' == Moved(v, u, act) && IsViewOf(s, u, v')
    ensures Onward(trace, steps, trace', steps', t) && trace'[|steps'|] == Put(s, u, v')
    ensures steps' == steps + [Move(u, act)]
    ensures v'.pc.Running? ==> RunsIn(trace', steps', v.who.h, u)
  {
    v' := Moved(v, u, act);
    MoveView(s, u, v, act);
    trace', steps' := StarvingOn(trace, steps, t, Move(u, act));
    if v'.pc.Running? {
      assert StartsAt(trace', steps', v.who.h, u, |steps|);
    }
  }

  lemma StillIn(steps: seq<Step>, steps': seq<Step>, st: Step)
    requires steps <= steps' && st in steps
    ensures st in steps'
  {
    var i :| 0 <= i < |steps| && steps[i] == st;
    assert steps'[i] == st;
  }

  lemma BeginOn(trace: seq<Sys>, steps: seq<Step>, t: OpId, u: OpId, h: HandleId)
    returns (trace': seq<Sys>, steps': seq<Step>, v: View)
    requires Starving(trace, steps, t) && u !in trace[|steps|].ops && h in trace[|steps|].handles
    ensures Onward(trace, steps, trace', steps', t)
    ensures var s := Begun(trace[|steps|], u, h);
            && v == Get(s, u) && IsViewOf(s, u, v) && At(s, t, Head) && u != t
            && trace'[|steps'|] == s == Put(s, u, v)
  {
    var s := Begun(trace[|steps|], u, h);
    assert At(trace[|steps|], t, Head);
    v := Get(s, u);
    trace', steps' := StarvingOn(trace, steps, t, StartDo(u, h));
    BegunIsPut(trace[|steps|], u, h);
  }

  // ---------- a lap ----------

  // h is idle and open, t waits, and another handle of the process holds the lock too.
  predicate Relaying(s: Sys, t: OpId, h: HandleId) {
    && s.waitOwner == Some(WantFd(t)) && At(s, t, Head)
    && MutexFree(s, h) && s.handles[h].core.db && !s.handles[h].core.closed
    && s.handles[h].proc in s.table && s.table[s.handles[h].proc].refs >= 2
  }

  // The operation notices the waiter, hands over, takes the lock back and runs.
  lemma Lap(trace: seq<Sys>, steps: seq<Step>, t: OpId, h: HandleId, u: OpId)
    returns (trace': seq<Sys>, steps': seq<Step>)
    requires Starving(trace, steps, t) && Relaying(trace[|steps|], t, h) && u !in trace[|steps|].ops
    ensures Onward(trace, steps, trace', steps', t) && Relaying(trace'[|steps'|], t, h)
    ensures trace'[|steps'|].ops.Keys == trace[|steps|].ops.Keys + {u}
    ensures RunsIn(trace', steps', h, u) && Move(u, HandOff) in steps'
  {
    var s := Begun(trace[|steps|], u, h);
    var v;
    trace', steps', v := BeginOn(trace, steps, t, u, h);
    trace', steps', v := HandsOver(trace', steps', t, s, h, u, v);
    var steps1 := steps';
    trace', steps', v := TakesBack(trace', steps', t, s, h, u, v);
    StillIn(steps1, steps', Move(u, HandOff));
  }

  lemma HandsOver(trace: seq<Sys>, steps: seq<Step>, t: OpId, s: Sys, h: HandleId, u: OpId, v: View)
    returns (trace': seq<Sys>, steps': seq<Step>, v': View)
    requires Starving(trace, steps, t) && At(s, t, Head) && u != t && IsViewOf(s, u, v) && v.who == Do(h)
    requires trace[|steps|] == Put(s, u, v) && v.pc.Begin? && v.mutex.None? && v.core.db && !v.core.closed
    requires v.wait == Some(WantFd(t)) && v.entry.Some? && v.entry.value.refs >= 2
    ensures Onward(trace, steps, trace', steps', t) && IsViewOf(s, u, v') && trace'[|steps'|] == Put(s, u, v')
    ensures v'.who == Do(h) && v'.pc.Yielding? && v'.mutex.None? && !v'.core.db && !v'.core.closed
    ensures v'.wait == v.wait && v'.lock == v.lock && v'.entry == Dropped(v.entry)
    ensures Move(u, HandOff) in steps'
  {
    trace', steps', v' := ViewOn(trace, steps, t, s, u, v, Enter);
    trace', steps', v' := ViewOn(trace', steps', t, s, u, v', ProbeTry);
    trace', steps', v' := ViewOn(trace', steps', t, s, u, v', HandOff);
    var steps1 := steps';
    assert steps1[|steps1| - 1] == Move(u, HandOff);
    trace', steps', v' := ViewOn(trace', steps', t, s, u, v', DropMutex);
    StillIn(steps1, steps', Move(u, HandOff));
  }

  lemma TakesBack(trace: seq<Sys>, steps: seq<Step>, t: OpId, s: Sys, h: HandleId, u: OpId, v: View)
    returns (trace': seq<Sys>, steps': seq<Step>, v': View)
    requires Starving(trace, steps, t) && At(s, t, Head) && u != t && IsViewOf(s, u, v) && v.who == Do(h)
    requires trace[|steps|] == Put(s, u, v) && v.pc.Yielding? && v.mutex.None? && !v.core.db && !v.core.closed
    requires v.entry.Some?
    ensures Onward(trace, steps, trace', steps', t) && IsViewOf(s, u, v') && trace'[|steps'|] == Put(s, u, v')
    ensures v'.who == Do(h) && v'.mutex.None? && v'.core.db && !v'.core.closed
    ensures v'.wait == v.wait && v'.lock == v.lock && v'.entry == Some(Joined(v.entry.value))
    ensures RunsIn(trace', steps', h, u)
  {
    trace', steps', v' := ViewOn(trace, steps, t, s, u, v, Resume);
    trace', steps', v' := Opens(trace', steps', t, s, h, u, v');
  }

  // From the look at the shut database to the end of the callback.
  lemma Opens(trace: seq<Sys>, steps: seq<Step>, t: OpId, s: Sys, h: HandleId, u: OpId, v: View)
    returns (trace': seq<Sys>, steps': seq<Step>, v': View)
    requires Starving(trace, steps, t) && At(s, t, Head) && u != t && IsViewOf(s, u, v) && v.who == Do(h)
    requires trace[|steps|] == Put(s, u, v) && v.pc.Ready? && !v.core.db && !v.core.closed && v.entry.Some?
    ensures Onward(trace, steps, trace', steps', t) && IsViewOf(s, u, v') && trace'[|steps'|] == Put(s, u, v')
    ensures v'.who == Do(h) && v'.mutex.None? && v'.core.db && !v'.core.closed
    ensures v'.wait == v.wait && v'.lock == v.lock && v'.entry == Some(Joined(v.entry.value))
    ensures RunsIn(trace', steps', h, u)
  {
    trace', steps', v' := ViewOn(trace, steps, t, s, u, v, Check);
    trace', steps', v' := ViewOn(trace', steps', t, s, u, v', OpenOk);
    var trace1, steps1 := trace', steps';
    trace', steps', v' := ViewOn(trace1, steps1, t, s, u, v', Finish);
    StillRunsIn(trace1, steps1, trace', steps', h, u);
  }

  // ---------- any number of laps ----------

  lemma {:induction false} FreshId(ids: set<OpId>) returns (u: OpId)
    ensures forall i :: i in ids ==> i < u
    decreases |ids|
  {
    if |ids| == 0 {
      u := 0;
    } else {
      var i :| i in ids;
      var rest := ids - {i};
      var v := FreshId(rest);
      u := if i < v then v else i + 1;
      assert ids == rest + {i};
    }
  }

  // u starts a callback although it handed over to the waiter first.
  ghost predicate PassesIn(trace: seq<Sys>, steps: seq<Step>, h: HandleId, u: OpId) {
    RunsIn(trace, steps, h, u) && Move(u, HandOff) in steps
  }

  lemma {:induction false} Laps(trace: seq<Sys>, steps: seq<Step>, t: OpId, h: HandleId, n: nat)
    returns (trace': seq<Sys>, steps': seq<Step>, late: set<OpId>)
    requires Starving(trace, steps, t) && Relaying(trace[|steps|], t, h)
    ensures Onward(trace, steps, trace', steps', t)
    ensures |late| == n && late !! trace[|steps|].ops.Keys && (forall u :: u in late ==> PassesIn(trace', steps', h, u))
    decreases n
  {
    if n == 0 {
      return trace, steps, {};
    }
    var u := FreshId(trace[|steps|].ops.Keys);
    var trace1, steps1 := Lap(trace, steps, t, h, u);
    trace', steps', late := Laps(trace1, steps1, t, h, n - 1);
    late := late + {u};
    StillRunsIn(trace1, steps1, trace', steps', h, u);
    StillIn(steps1, steps', Move(u, HandOff));
  }

  // The second handle opens, if it is not open yet, by joining the entry.
  lemma SecondOpens(s: Sys, t: OpId, h: HandleId, k: HandleId) returns (trace: seq<Sys>, steps: seq<Step>)
    requires Inv(s) && At(s, t, Head) && Open(s, h) && MutexFree(s, h)
    requires h != k && MutexFree(s, k) && !s.handles[k].core.closed && s.handles[k].proc == s.handles[h].proc
    ensures Starving(trace, steps, t) && trace[0] == s && Relaying(trace[|steps|], t, h)
    ensures s.ops.Keys <= trace[|steps|].ops.Keys
  {
    trace, steps := [s], [];
    var p := s.handles[h].proc;
    assert HandleOk(s, h) && HoldsRef(s, h);
    assert h in RefHolders(s, p);
    if Open(s, k) {
      assert HoldsRef(s, k);
      assert {h, k} <= RefHolders(s, p);
      SubsetSize({h, k}, RefHolders(s, p));
    } else {
      var u := FreshId(s.ops.Keys);
      var v;
      trace, steps, v := BeginOn(trace, steps, t, u, k);
      trace, steps, v := ViewOn(trace, steps, t, Begun(s, u, k), u, v, Enter);
      trace, steps, v := Opens(trace, steps, t, Begun(s, u, k), k, u, v);
    }
  }

  /** With a second handle of the process idle, open or not, the demand is never
      honoured for sure: for every n there is a run in which n operations that came
      after the waiter start callbacks while it stays at the head and .lock stays
      where it is, each of them having noticed the waiter and handed over. */
  lemma WaiterStarves(s: Sys, t: OpId, h: HandleId, k: HandleId, n: nat)
    returns (trace: seq<Sys>, steps: seq<Step>, late: set<OpId>)
    requires Inv(s) && At(s, t, Head) && Open(s, h) && MutexFree(s, h)
    requires h != k && MutexFree(s, k) && !s.handles[k].core.closed && s.handles[k].proc == s.handles[h].proc
    ensures Starving(trace, steps, t) && trace[0] == s
    ensures |late| == n && late !! s.ops.Keys && (forall u :: u in late ==> PassesIn(trace, steps, h, u))
  {
    var trace1, steps1 := SecondOpens(s, t, h, k);
    trace, steps, late := Laps(trace1, steps1, t, h, n);
  }
}
