/**
  How far a handle honours the demand of a waiter (internal/duckdb/handle.go).

  While a waiter is at the head of the queue, exactly the operations past the
  demand check may still run: all of them, unless the operation holding h.mu is
  about to notice the waiter - then none.  Operations parked in a yield are past
  the check, since they do not ask again when they resume.
 */
module LockYield {
  import opened Util
  import opened HandleCore
  import opened LockProtocol
  import opened LockInvariant
  import opened LockTheorems

  // ---------- runs that keep the waiter waiting ----------

  // h keeps the lock throughout, and no probe of .wait fails.
  ghost predicate Patient(trace: seq<Sys>, steps: seq<Step>, t: OpId, h: HandleId) {
    && IsRun(trace, steps)
    && (forall k: nat :: k <= |steps| ==> Waiting(trace[k], t, h))
    && (forall k: nat :: k < |steps| ==> Erring(steps[k]) == {})
  }

  ghost predicate StartsAt(trace: seq<Sys>, steps: seq<Step>, h: HandleId, u: OpId, k: nat)
    requires k < |steps| < |trace|
  {
    StepAt(trace, steps, k) && Starts(trace[k], steps[k], h) && steps[k].t == u
  }

  // u starts a callback on h somewhere in the run.
  ghost predicate RunsIn(trace: seq<Sys>, steps: seq<Step>, h: HandleId, u: OpId) {
    |steps| < |trace| && exists k: nat :: k < |steps| && StartsAt(trace, steps, h, u, k)
  }

  // The operation that holds h.mu is at the demand check and will find the waiter.
  predicate AtCheck(s: Sys, h: HandleId)
    requires h in s.handles
  {
    var holder := s.handles[h].holder;
    holder.Some? && holder.value in s.ops && (s.ops[holder.value].pc.Probe? || s.ops[holder.value].pc == Decide(true))
  }

  // ---------- nobody else runs ----------

  lemma OnlyPastRun(trace: seq<Sys>, steps: seq<Step>, t: OpId, h: HandleId, u: OpId)
    requires Patient(trace, steps, t, h) && Inv(trace[0]) && RunsIn(trace, steps, h, u)
    ensures u in Past(trace[0], h)
  {
    var k: nat :| k < |steps| && StartsAt(trace, steps, h, u, k);
    NobodyErred(steps, k, u);
    DemandIsHonoured(trace, steps, t, h, k);
  }

  lemma NobodyErred(steps: seq<Step>, n: nat, u: OpId)
    requires forall k: nat :: k < |steps| ==> Erring(steps[k]) == {}
    ensures !Erred(steps, n, u)
  {
    forall k: nat | k < |steps| ensures steps[k] != Move(u, ProbeError) {
      assert u !in Erring(steps[k]);
    }
  }

  // The mutex stays with an operation at the check, which can only get to the
  // hand-over - and that ends the waiting.
  lemma CheckBlocks(s: Sys, st: Step, t: OpId, h: HandleId)
    requires Inv(s) && Enabled(s, st) && Waiting(s, t, h) && Waiting(Apply(s, st), t, h)
    requires Erring(st) == {} && AtCheck(s, h)
    ensures AtCheck(Apply(s, st), h) && !Starts(s, st, h)
  {
    var w := s.handles[h].holder.value;
    assert HandleOk(s, h);
    if st.Move? && s.ops[st.t].who == Do(h) {
      assert OpOk(s, st.t);
      if st.t == w {
        SoleHolder(s, t, h);
        CheckMoves(Get(s, w), w, st.act, t);
      } else {
        OthersLackMutex(Get(s, st.t), st.t, st.act, w);
        assert false;
      }
    }
  }

  lemma CheckMoves(v: View, w: OpId, act: Act, t: OpId)
    requires v.who.Do? && CanMove(v, act) && !act.ProbeError? && (v.pc.Probe? || v.pc == Decide(true))
    requires v.wait == Some(WantFd(t)) && v.core.db && v.entry.Some? && v.entry.value.refs == 1 && v.mutex == Some(w)
    ensures var v' := Moved(v, w, act);
            (v'.pc == Decide(true) && v'.mutex == Some(w)) || v'.entry.None?
  {}

  lemma OthersLackMutex(v: View, u: OpId, act: Act, w: OpId)
    requires v.who.Do? && PcFits(v, u) && v.mutex == Some(w) && u != w
    ensures !CanMove(v, act)
  {}

  lemma CheckBlocksAt(trace: seq<Sys>, steps: seq<Step>, t: OpId, h: HandleId, n: nat)
    requires Patient(trace, steps, t, h) && Inv(trace[0]) && n < |steps| && AtCheck(trace[n], h)
    ensures AtCheck(trace[n + 1], h)
    ensures StepAt(trace, steps, n) && !Starts(trace[n], steps[n], h)
  {
    RunKeepsInv(trace, steps, n);
    assert StepAt(trace, steps, n);
    CheckBlocks(trace[n], steps[n], t, h);
  }

  lemma {:induction false} StaysAtCheck(trace: seq<Sys>, steps: seq<Step>, t: OpId, h: HandleId, n: nat)
    requires Patient(trace, steps, t, h) && Inv(trace[0]) && AtCheck(trace[0], h) && n <= |steps|
    ensures AtCheck(trace[n], h)
  {
    if n > 0 {
      StaysAtCheck(trace, steps, t, h, n - 1);
      assert AtCheck(trace[n - 1], h);
      CheckBlocksAt(trace, steps, t, h, n - 1);
    }
  }

  lemma NobodyRuns(trace: seq<Sys>, steps: seq<Step>, t: OpId, h: HandleId, u: OpId)
    requires Patient(trace, steps, t, h) && Inv(trace[0]) && AtCheck(trace[0], h)
    ensures !RunsIn(trace, steps, h, u)
  {
    forall k: nat | k < |steps| ensures !StartsAt(trace, steps, h, u, k) {
      StaysAtCheck(trace, steps, t, h, k);
      CheckBlocksAt(trace, steps, t, h, k);
    }
  }

  // So whoever runs was past the check, and nobody was at it.
  lemma RunnersWerePast(trace: seq<Sys>, steps: seq<Step>, t: OpId, h: HandleId, u: OpId)
    requires Patient(trace, steps, t, h) && Inv(trace[0]) && RunsIn(trace, steps, h, u)
    ensures u in Past(trace[0], h) && !AtCheck(trace[0], h)
  {
    OnlyPastRun(trace, steps, t, h, u);
    if AtCheck(trace[0], h) {
      NobodyRuns(trace, steps, t, h, u);
    }
  }

  // ---------- all of those do run ----------

  lemma PatientOn(trace: seq<Sys>, steps: seq<Step>, t: OpId, h: HandleId, st: Step)
    returns (trace': seq<Sys>, steps': seq<Step>)
    requires Patient(trace, steps, t, h) && Erring(st) == {}
    requires Enabled(trace[|steps|], st) && Waiting(Apply(trace[|steps|], st), t, h)
    ensures Patient(trace', steps', t, h)
    ensures trace' == trace + [Apply(trace[|steps|], st)] && steps' == steps + [st]
  {
    trace', steps' := trace + [Apply(trace[|steps|], st)], steps + [st];
    forall i: nat | i < |steps'| ensures StepAt(trace', steps', i) {
      assert i < |steps| ==> StepAt(trace, steps, i);
    }
  }

  lemma StillRunsIn(trace: seq<Sys>, steps: seq<Step>, trace': seq<Sys>, steps': seq<Step>, h: HandleId, u: OpId)
    requires trace <= trace' && steps <= steps' && |steps'| < |trace'| && RunsIn(trace, steps, h, u)
    ensures RunsIn(trace', steps', h, u)
  {
    var k: nat :| k < |steps| && StartsAt(trace, steps, h, u, k);
    assert StartsAt(trace', steps', h, u, k);
  }

  // An operation of h, and what one of its steps leaves alone.
  predicate OpOf(s: Sys, u: OpId, h: HandleId) {
    u in s.ops && s.ops[u].who == Do(h) && h in s.handles
  }

  predicate Harmless(v: View, v': View) {
    v'.entry == v.entry && v'.wait == v.wait && v'.lock == v.lock
  }

  lemma HarmlessMove(s: Sys, u: OpId, act: Act, t: OpId, h: HandleId)
    requires Waiting(s, t, h) && OpOf(s, u, h) && !s.ops[u].pc.Head? && Enabled(s, Move(u, act))
    requires Harmless(Get(s, u), Moved(Get(s, u), u, act))
    ensures var s' := Apply(s, Move(u, act));
            var v' := Moved(Get(s, u), u, act);
            && Waiting(s', t, h) && OpOf(s', u, h) && Get(s', u) == v'
            && s'.handles[h].holder == v'.mutex && s'.ops[u].pc == v'.pc
            && (forall w :: w in s.ops && w != u ==> w in s'.ops && s'.ops[w] == s.ops[w])
            && s'.ops.Keys == s.ops.Keys
  {
    var v := Get(s, u);
    var p := s.handles[h].proc;
    assert v.entry == Some(s.table[p]);
  }

  // The run goes on with harmless steps of u alone.
  ghost predicate Continues(
    trace: seq<Sys>, steps: seq<Step>, trace': seq<Sys>, steps': seq<Step>, t: OpId, h: HandleId, u: OpId)
    requires |trace| == |steps| + 1
  {
    && Patient(trace', steps', t, h) && trace <= trace' && steps <= steps'
    && var s, s' := trace[|steps|], trace'[|steps'|];
       s'.ops.Keys == s.ops.Keys && forall w :: w in s.ops && w != u ==> s'.ops[w] == s.ops[w]
  }

  lemma MoveOn(trace: seq<Sys>, steps: seq<Step>, t: OpId, h: HandleId, u: OpId, act: Act)
    returns (trace': seq<Sys>, steps': seq<Step>)
    requires Patient(trace, steps, t, h) && OpOf(trace[|steps|], u, h) && !trace[|steps|].ops[u].pc.Head?
    requires Enabled(trace[|steps|], Move(u, act)) && !act.ProbeError?
    requires Harmless(Get(trace[|steps|], u), Moved(Get(trace[|steps|], u), u, act))
    ensures Continues(trace, steps, trace', steps', t, h, u) && OpOf(trace'[|steps'|], u, h)
    ensures var v' := Moved(Get(trace[|steps|], u), u, act);
            Get(trace'[|steps'|], u) == v' && trace'[|steps'|].handles[h].holder == v'.mutex
    ensures Moved(Get(trace[|steps|], u), u, act).pc.Running? ==> RunsIn(trace', steps', h, u)
  {
    HarmlessMove(trace[|steps|], u, act, t, h);
    trace', steps' := PatientOn(trace, steps, t, h, Move(u, act));
    assert Moved(Get(trace[|steps|], u), u, act).pc.Running? ==> StartsAt(trace', steps', h, u, |steps|);
  }

  lemma ContinuesFurther(
    trace0: seq<Sys>, steps0: seq<Step>, trace1: seq<Sys>, steps1: seq<Step>, trace2: seq<Sys>, steps2: seq<Step>,
    t: OpId, h: HandleId, u: OpId)
    requires |trace0| == |steps0| + 1 && Continues(trace0, steps0, trace1, steps1, t, h, u)
    requires Continues(trace1, steps1, trace2, steps2, t, h, u)
    ensures Continues(trace0, steps0, trace2, steps2, t, h, u)
  {}

  // From a started callback to the free mutex.
  lemma Finishes(trace: seq<Sys>, steps: seq<Step>, t: OpId, h: HandleId, u: OpId)
    returns (trace': seq<Sys>, steps': seq<Step>)
    requires Patient(trace, steps, t, h) && OpOf(trace[|steps|], u, h) && trace[|steps|].ops[u].pc.Running?
    ensures Continues(trace, steps, trace', steps', t, h, u)
    ensures MutexFree(trace'[|steps'|], h) && u in trace'[|steps'|].ops && trace'[|steps'|].ops[u].pc.Done?
  {
    trace', steps' := MoveOn(trace, steps, t, h, u, Finish);
  }

  // From past the check, with the database open or opening, to the end.
  lemma RunsFromReady(trace: seq<Sys>, steps: seq<Step>, t: OpId, h: HandleId, u: OpId)
    returns (trace': seq<Sys>, steps': seq<Step>)
    requires Patient(trace, steps, t, h) && OpOf(trace[|steps|], u, h)
    requires var pc := trace[|steps|].ops[u].pc;
             (pc.Ready? && trace[|steps|].handles[h].core.db) || pc.Opening?
    ensures Continues(trace, steps, trace', steps', t, h, u) && RunsIn(trace', steps', h, u)
    ensures MutexFree(trace'[|steps'|], h) && u in trace'[|steps'|].ops && trace'[|steps'|].ops[u].pc.Done?
  {
    var act := if trace[|steps|].ops[u].pc.Opening? then OpenOk else Check;
    var trace1, steps1 := MoveOn(trace, steps, t, h, u, act);
    trace', steps' := Finishes(trace1, steps1, t, h, u);
    ContinuesFurther(trace, steps, trace1, steps1, trace', steps', t, h, u);
    StillRunsIn(trace1, steps1, trace', steps', h, u);
  }

  // One operation past the check gets its turn: it holds the mutex, or is parked
  // and the mutex is free.
  lemma PastRuns(trace: seq<Sys>, steps: seq<Step>, t: OpId, h: HandleId, u: OpId)
    returns (trace': seq<Sys>, steps': seq<Step>)
    requires Patient(trace, steps, t, h) && Inv(trace[0]) && u in Past(trace[|steps|], h)
    requires trace[|steps|].handles[h].holder == Some(u) || MutexFree(trace[|steps|], h)
    ensures Continues(trace, steps, trace', steps', t, h, u) && RunsIn(trace', steps', h, u)
    ensures MutexFree(trace'[|steps'|], h) && u in trace'[|steps'|].ops && trace'[|steps'|].ops[u].pc.Done?
  {
    var s := trace[|steps|];
    RunKeepsInv(trace, steps, |steps|);
    PastWhileWaiting(s, t, h, u);
    if s.ops[u].pc.Ready? || s.ops[u].pc.Opening? {
      trace', steps' := RunsFromReady(trace, steps, t, h, u);
    } else {
      var act := if s.ops[u].pc.Yielding? then Resume else KeepOpen;
      var trace1, steps1 := MoveOn(trace, steps, t, h, u, act);
      trace', steps' := RunsFromReady(trace1, steps1, t, h, u);
      ContinuesFurther(trace, steps, trace1, steps1, trace', steps', t, h, u);
    }
  }

  // Where such an operation can be while its handle keeps the lock.
  lemma PastWhileWaiting(s: Sys, t: OpId, h: HandleId, u: OpId)
    requires Inv(s) && Waiting(s, t, h) && u in Past(s, h)
    requires s.handles[h].holder == Some(u) || MutexFree(s, h)
    ensures OpOf(s, u, h) && !s.handles[h].core.closed
    ensures var pc := s.ops[u].pc;
            || pc.Opening?
            || (s.handles[h].core.db && (pc.Ready? || pc == Decide(false) || (pc.Yielding? && MutexFree(s, h))))
  {
    SoleHolder(s, t, h);
    assert HandleOk(s, h) && OpOk(s, u);
  }

  // What is left once one of them has run.
  lemma PastAfter(s: Sys, s': Sys, h: HandleId, u: OpId)
    requires u in s.ops && s'.ops.Keys == s.ops.Keys && (forall w :: w in s.ops && w != u ==> s'.ops[w] == s.ops[w])
    requires s'.ops[u].pc.Done? && u in Past(s, h)
    ensures Past(s', h) == Past(s, h) - {u}
  {}

  // The mutex being free, they run one after the other.
  lemma {:induction false} ParkedAllRun(trace: seq<Sys>, steps: seq<Step>, t: OpId, h: HandleId)
    returns (trace': seq<Sys>, steps': seq<Step>)
    requires Patient(trace, steps, t, h) && Inv(trace[0]) && MutexFree(trace[|steps|], h)
    ensures Patient(trace', steps', t, h) && trace <= trace' && steps <= steps'
    ensures forall u :: u in Past(trace[|steps|], h) ==> RunsIn(trace', steps', h, u)
    decreases |Past(trace[|steps|], h)|
  {
    var past := Past(trace[|steps|], h);
    if past == {} {
      return trace, steps;
    }
    var u :| u in past;
    var trace1, steps1 := PastRuns(trace, steps, t, h, u);
    PastAfter(trace[|steps|], trace1[|steps1|], h, u);
    trace', steps' := ParkedAllRun(trace1, steps1, t, h);
    forall w | w in past ensures RunsIn(trace', steps', h, w) {
      if w == u {
        StillRunsIn(trace1, steps1, trace', steps', h, u);
      }
    }
  }

  // Whoever holds the mutex beyond the check gives it back first.
  lemma PastAllRun(s: Sys, t: OpId, h: HandleId) returns (trace: seq<Sys>, steps: seq<Step>)
    requires Inv(s) && Waiting(s, t, h) && !AtCheck(s, h)
    ensures Patient(trace, steps, t, h) && trace[0] == s
    ensures forall u :: u in Past(s, h) ==> RunsIn(trace, steps, h, u)
  {
    if MutexFree(s, h) {
      trace, steps := ParkedAllRun([s], [], t, h);
    } else {
      var w := s.handles[h].holder.value;
      HolderIsPast(s, t, h);
      var trace1, steps1;
      if s.ops[w].pc.Running? {
        trace1, steps1 := Finishes([s], [], t, h, w);
      } else {
        trace1, steps1 := PastRuns([s], [], t, h, w);
        PastAfter(s, trace1[|steps1|], h, w);
      }
      trace, steps := ParkedAllRun(trace1, steps1, t, h);
      forall u | u in Past(s, h) ensures RunsIn(trace, steps, h, u) {
        if u == w {
          StillRunsIn(trace1, steps1, trace, steps, h, u);
        } else {
          assert u in Past(trace1[|steps1|], h);
        }
      }
    }
  }

  lemma HolderIsPast(s: Sys, t: OpId, h: HandleId)
    requires Inv(s) && Waiting(s, t, h) && !AtCheck(s, h) && !MutexFree(s, h)
    ensures var w := s.handles[h].holder.value;
            OpOf(s, w, h) && (s.ops[w].pc.Running? || w in Past(s, h))
  {
    SoleHolder(s, t, h);
    assert HandleOk(s, h);
    assert OpOk(s, s.handles[h].holder.value);
  }

  // ---------- exactly who runs ----------

  /** While a waiter is at the head and h keeps the lock, exactly the operations
      past the demand check can still start a callback, all of them in one run,
      unless the holder of the mutex is at the check: then none can. */
  lemma WhoStillRuns(s: Sys, t: OpId, h: HandleId) returns (trace: seq<Sys>, steps: seq<Step>)
    requires Inv(s) && Waiting(s, t, h)
    ensures Patient(trace, steps, t, h) && trace[0] == s
    ensures forall u :: RunsIn(trace, steps, h, u) <==> u in Past(s, h) && !AtCheck(s, h)
    ensures forall other, more, u :: Patient(other, more, t, h) && other[0] == s && RunsIn(other, more, h, u) ==>
                                       u in Past(s, h) && !AtCheck(s, h)
  {
    if AtCheck(s, h) {
      trace, steps := [s], [];
    } else {
      trace, steps := PastAllRun(s, t, h);
    }
    forall other, more, u | Patient(other, more, t, h) && other[0] == s && RunsIn(other, more, h, u)
      ensures u in Past(s, h) && !AtCheck(s, h)
    {
      RunnersWerePast(other, more, t, h, u);
    }
  }

  // Two operations start callbacks before the lock is released.
  ghost predicate TwoMayRun(s: Sys, t: OpId, h: HandleId) {
    exists trace: seq<Sys>, steps: seq<Step>, u: OpId, w: OpId :: BothRun(s, t, h, trace, steps, u, w)
  }

  ghost predicate BothRun(s: Sys, t: OpId, h: HandleId, trace: seq<Sys>, steps: seq<Step>, u: OpId, w: OpId) {
    u != w && Patient(trace, steps, t, h) && trace[0] == s && RunsIn(trace, steps, h, u) && RunsIn(trace, steps, h, w)
  }

  lemma TwoPastMayRun(s: Sys, t: OpId, h: HandleId)
    requires Inv(s) && Waiting(s, t, h) && |Past(s, h)| >= 2 && !AtCheck(s, h)
    ensures TwoMayRun(s, t, h)
  {
    var trace, steps := PastAllRun(s, t, h);
    var u :| u in Past(s, h);
    assert |Past(s, h) - {u}| >= 1;
    var w :| w in Past(s, h) - {u};
    assert BothRun(s, t, h, trace, steps, u, w);
  }

  lemma BothWerePast(s: Sys, t: OpId, h: HandleId, trace: seq<Sys>, steps: seq<Step>, u: OpId, w: OpId)
    requires Inv(s) && BothRun(s, t, h, trace, steps, u, w)
    ensures {u, w} <= Past(s, h) && !AtCheck(s, h)
  {
    RunnersWerePast(trace, steps, t, h, u);
    RunnersWerePast(trace, steps, t, h, w);
  }

  lemma TwoRunnersWerePast(s: Sys, t: OpId, h: HandleId)
    requires Inv(s) && Waiting(s, t, h) && TwoMayRun(s, t, h)
    ensures |Past(s, h)| >= 2 && !AtCheck(s, h)
  {
    var trace: seq<Sys>, steps: seq<Step>, u: OpId, w: OpId :| BothRun(s, t, h, trace, steps, u, w);
    BothWerePast(s, t, h, trace, steps, u, w);
    SubsetSize({u, w}, Past(s, h));
  }

  /** One more callback is the limit unless two operations are past the check and
      none is at it: then, and only then, two can run before the release. */
  lemma OneMoreExactly(s: Sys, t: OpId, h: HandleId)
    requires Inv(s) && Waiting(s, t, h)
    ensures TwoMayRun(s, t, h) <==> |Past(s, h)| >= 2 && !AtCheck(s, h)
  {
    if TwoMayRun(s, t, h) {
      TwoRunnersWerePast(s, t, h);
    }
    if |Past(s, h)| >= 2 && !AtCheck(s, h) {
      TwoPastMayRun(s, t, h);
    }
  }

  ghost predicate NobodyYields(s: Sys, h: HandleId) {
    forall u :: u in s.ops && s.ops[u].who == Do(h) ==> !s.ops[u].pc.Yielding?
  }

  /** In particular with nobody parked in a yield. */
  lemma OneMoreUnlessYielding(s: Sys, t: OpId, h: HandleId)
    requires Inv(s) && Waiting(s, t, h) && NobodyYields(s, h)
    ensures !TwoMayRun(s, t, h)
  {
    OneMoreExactly(s, t, h);
    if |Past(s, h)| >= 2 {
      var u :| u in Past(s, h);
      assert |Past(s, h) - {u}| >= 1;
      var w :| w in Past(s, h) - {u};
      AtMostOnePastCheck(s, h, u, w);
    }
  }

  // ---------- a reachable state in which two may ----------

  // One handle of one process, with an idle window of 1.
  function One(core: Core, holder: Option<OpId>, entry: Option<Entry<Fd>>, wait: Option<Fd>, lock: Option<Fd>,
               ops: map<OpId, Op>): Sys
  {
    Sys(0, wait, lock, if entry.Some? then map[0 := entry.value] else map[],
        map[0 := HandleRec(0, 1, core, holder, 0, 0)], ops)
  }

  lemma ReachStep(s: Sys, st: Step, s': Sys)
    requires Reachable(s) && Enabled(s, st) && s' == Apply(s, st)
    ensures Reachable(s')
  {
    var trace, steps :| IsRun(trace, steps) && trace[0] == INITIAL && trace[|steps|] == s;
    var trace', steps' := trace + [s'], steps + [st];
    forall i: nat | i < |steps'| ensures StepAt(trace', steps', i) {
      assert i < |steps| ==> StepAt(trace, steps, i);
    }
    assert IsRun(trace', steps') && trace'[0] == INITIAL && trace'[|steps'|] == s';
  }

  // What operation t sees of such a system.
  function Eye(pc: Pc, core: Core, holder: Option<OpId>, entry: Option<Entry<Fd>>, wait: Option<Fd>,
      lock: Option<Fd>): View {
    View(Do(0), pc, holder, core, 1, 0, entry, wait, lock, 0)
  }

  function Seen(v: View, ops: map<OpId, Op>, t: OpId): Sys {
    One(v.core, v.mutex, v.entry, v.wait, v.lock, ops[t := Op(Do(0), v.pc)])
  }

  predicate IsEye(v: View) {
    v.who == Do(0) && v.idle == 1 && v.lastArm == 0 && v.now == 0
  }

  lemma PutOne(v: View, v': View, ops: map<OpId, Op>, t: OpId)
    requires IsEye(v) && IsEye(v')
    ensures Known(Seen(v, ops, t), t) && Get(Seen(v, ops, t), t) == v
    ensures Put(Seen(v, ops, t), t, v') == Seen(v', ops, t)
  {
    var s := Seen(v, ops, t);
    assert s.ops[t := s.ops[t].(pc := v'.pc)] == ops[t := Op(Do(0), v'.pc)];
  }

  lemma MovedIsEye(v: View, t: OpId, act: Act)
    requires IsEye(v) && CanMove(v, act)
    ensures IsEye(Moved(v, t, act))
  {}

  lemma MoveOne(v: View, ops: map<OpId, Op>, t: OpId, act: Act)
    requires IsEye(v) && CanMove(v, act)
    ensures IsEye(Moved(v, t, act))
    ensures Enabled(Seen(v, ops, t), Move(t, act)) &&
            Apply(Seen(v, ops, t), Move(t, act)) == Seen(Moved(v, t, act), ops, t)
  {
    MovedIsEye(v, t, act);
    PutOne(v, Moved(v, t, act), ops, t);
  }

  lemma ReachMove(v: View, ops: map<OpId, Op>, t: OpId, act: Act) returns (v': View)
    requires IsEye(v) && CanMove(v, act) && Reachable(Seen(v, ops, t))
    ensures v' == Moved(v, t, act) && IsEye(v') && Reachable(Seen(v', ops, t))
  {
    v' := Moved(v, t, act);
    MoveOne(v, ops, t, act);
    ReachStep(Seen(v, ops, t), Move(t, act), Seen(v', ops, t));
  }

  // Operation t starts and gets the mutex.
  lemma ReachEnter(core: Core, entry: Option<Entry<Fd>>, lock: Option<Fd>, ops: map<OpId, Op>, t: OpId)
    returns (v: View)
    requires !core.closed && t !in ops && Reachable(One(core, None, entry, None, lock, ops))
    ensures v == Eye(if core.db then Probe else Ready, Disarmed(core), Some(t), entry, None, lock) &&
            Reachable(Seen(v, ops, t))
  {
    v := Eye(Begin, core, None, entry, None, lock);
    ReachStep(One(core, None, entry, None, lock, ops), StartDo(t, 0), Seen(v, ops, t));
    v := ReachMove(v, ops, t, Enter);
  }

  // It finds the database shut, queues, and is about to open it.
  lemma ReachOpening(core: Core, ops: map<OpId, Op>, t: OpId) returns (v: View)
    requires !core.db && !core.closed && t !in ops && Reachable(One(core, None, None, None, None, ops))
    ensures v == Eye(Opening, Disarmed(core), Some(t), Some(Entry(LockFd(t), 1)), None, Some(LockFd(t)))
    ensures Reachable(Seen(v, ops, t))
  {
    v := ReachEnter(core, None, None, ops, t);
    v := ReachMove(v, ops, t, Check);
    v := ReachMove(v, ops, t, QueueTry);
    v := ReachMove(v, ops, t, LockTry);
    v := ReachMove(v, ops, t, Leave);
    v := ReachMove(v, ops, t, Enlist);
  }

  // It finds the database open and wanted, shuts it and parks in the yield.
  lemma ReachYielding(core: Core, ops: map<OpId, Op>, t: OpId, f: Fd) returns (v: View)
    requires core.db && !core.closed && t !in ops && Reachable(One(core, None, Some(Entry(f, 1)), None, Some(f), ops))
    ensures v == Eye(Yielding, ShutDown(Disarmed(core)), None, None, None, None) && Reachable(Seen(v, ops, t))
  {
    v := ReachEnter(core, Some(Entry(f, 1)), Some(f), ops, t);
    v := ReachMove(v, ops, t, ProbeBusy);
    v := ReachMove(v, ops, t, HandOff);
    v := ReachMove(v, ops, t, DropMutex);
  }

  // Operation 0 has come and gone and 1 is parked in its yield.
  lemma ReachParked() returns (core: Core, ops: map<OpId, Op>)
    ensures !core.db && !core.closed && !core.timer.Counting?
    ensures ops == map[0 := Op(Do(0), Done), 1 := Op(Do(0), Yielding)]
    ensures Reachable(One(core, None, None, None, None, ops))
  {
    assert IsRun([INITIAL], []) && [INITIAL][0] == INITIAL;
    ReachStep(INITIAL, NewHandle(0, 0, 1), One(NEW_CORE, None, None, None, None, map[]));
    var v := ReachOpening(NEW_CORE, map[], 0);
    v := ReachMove(v, map[], 0, OpenOk);
    v := ReachMove(v, map[], 0, Finish);
    ops := map[][0 := Op(Do(0), Done)];
    v := ReachYielding(v.core, ops, 1, LockFd(0));
    core := v.core;
    ops := ops[1 := Op(Do(0), Yielding)];
  }

  function FourOps(one: Pc, two: Pc): map<OpId, Op> {
    map[0 := Op(Do(0), Done), 1 := Op(Do(0), one), 2 := Op(Do(0), two), 3 := Op(Fence, Head)]
  }

  // Then 2 has the lock again and is opening when the fence 3 gets to the head.
  lemma ReachWaiting() returns (core: Core)
    ensures !core.db && !core.closed && !core.timer.Counting?
    ensures Reachable(One(core, Some(2), Some(Entry(LockFd(2), 1)), Some(WantFd(3)), Some(LockFd(2)),
            FourOps(Yielding, Opening)))
  {
    var ops;
    core, ops := ReachParked();
    var v := ReachOpening(core, ops, 2);
    core := v.core;
    var s0 := Seen(v, ops, 2);
    var s1 := s0.(ops := s0.ops[3 := Op(Fence, Queue)]);
    ReachStep(s0, StartFence(3), s1);
    var s2 := One(core, Some(2), v.entry, Some(WantFd(3)), v.lock, FourOps(Yielding, Opening));
    assert s2.ops == s1.ops[3 := s1.ops[3].(pc := Head)];
    ReachStep(s1, Move(3, QueueTry), s2);
  }

  /** It happens: operation 1 is parked in its yield and 2 is opening the database
      when the fence 3 gets to the head of the queue; both will run. */
  lemma YieldedOperationRunsToo() returns (s: Sys)
    ensures Reachable(s) && Waiting(s, 3, 0) && s.handles[0].idle > 0
    ensures TwoMayRun(s, 3, 0)
  {
    var core := ReachWaiting();
    s := One(core, Some(2), Some(Entry(LockFd(2), 1)), Some(WantFd(3)), Some(LockFd(2)), FourOps(Yielding, Opening));
    assert Past(s, 0) == {1, 2};
    ReachableOk(s);
    OneMoreExactly(s, 3, 0);
  }
}
