/**
  .lock is never lost (internal/duckdb/handle.go): from every reachable state the
  operations already there, the timers and the wakeups can get it released, with
  nobody starting anything new, closing a handle or meeting a failure.
 */
module LockDrain {
  import opened Util
  import opened HandleCore
  import opened LockProtocol
  import opened LockInvariant
  import opened LockTheorems
  import opened LockRelay
  import opened LockYield

  // Only time, timers, wakeups, and the moves of operations that do not fail.
  predicate Winds(st: Step) {
    match st
    case Tick(_) => true
    case Fire(_) => true
    case Wake(_) => true
    case Move(_, act) =>
      !(act.ProbeBusy? || act.ProbeError? || act.Cancel? || act.QueueGiveUp? || act.LockGiveUp? || act.OpenError?)
    case _ => false
  }

  ghost predicate Drains(trace: seq<Sys>, steps: seq<Step>) {
    && IsRun(trace, steps) && Inv(trace[0])
    && forall k: nat :: k < |steps| ==> Winds(steps[k])
  }

  lemma DrainOn(trace: seq<Sys>, steps: seq<Step>, st: Step) returns (trace': seq<Sys>, steps': seq<Step>)
    requires Drains(trace, steps) && Enabled(trace[|steps|], st) && Winds(st)
    ensures Drains(trace', steps') && trace'[0] == trace[0] && trace'[|steps'|] == Apply(trace[|steps|], st)
    ensures Inv(trace'[|steps'|])
  {
    trace', steps' := trace + [Apply(trace[|steps|], st)], steps + [st];
    forall i: nat | i < |steps'| ensures StepAt(trace', steps', i) {
      assert i < |steps| ==> StepAt(trace, steps, i);
    }
    RunKeepsInv(trace', steps', |steps'|);
  }

  // A move of an operation of h, and what it sees afterwards.
  lemma OpOn(trace: seq<Sys>, steps: seq<Step>, h: HandleId, u: OpId, act: Act)
    returns (trace': seq<Sys>, steps': seq<Step>)
    requires Drains(trace, steps) && OpOf(trace[|steps|], u, h)
    requires Enabled(trace[|steps|], Move(u, act)) && Winds(Move(u, act))
    ensures Drains(trace', steps') && trace'[0] == trace[0] && Inv(trace'[|steps'|])
    ensures OpOf(trace'[|steps'|], u, h) && trace'[|steps'|].handles[h].proc == trace[|steps|].handles[h].proc
    ensures Get(trace'[|steps'|], u) == Moved(Get(trace[|steps|], u), u, act)
  {
    var s := trace[|steps|];
    var v := Get(s, u);
    MovedIsViewOf(s, u, v, act);
    PutGet(s, u, Moved(v, u, act), v);
    trace', steps' := DrainOn(trace, steps, Move(u, act));
  }

  // One reference of h's process is gone; with the last one, the lock.
  ghost predicate OneLess(s: Sys, s': Sys, p: Proc) {
    p in s.table &&
    if p in s'.table then s'.table[p].refs == s.table[p].refs - 1 && s'.table[p].refs > 0 else s'.lockOwner.None?
  }

  // ---------- an idle handle ----------

  lemma {:induction false} IdleReleases(trace: seq<Sys>, steps: seq<Step>, h: HandleId)
    returns (trace': seq<Sys>, steps': seq<Step>)
    requires Drains(trace, steps) && Inv(trace[|steps|]) && Open(trace[|steps|], h) && MutexFree(trace[|steps|], h)
    ensures Drains(trace', steps') && trace'[0] == trace[0] && Inv(trace'[|steps'|])
    ensures OneLess(trace[|steps|], trace'[|steps'|], trace[|steps|].handles[h].proc)
    decreases trace[|steps|].handles[h].core.pending
  {
    var s := trace[|steps|];
    var trace1, steps1 := Awakes(trace, steps, h);
    var s1 := trace1[|steps1|];
    WakeEffect(s1, h);
    var trace2, steps2 := DrainOn(trace1, steps1, Wake(h));
    if Open(trace2[|steps2|], h) {
      trace', steps' := IdleReleases(trace2, steps2, h);
    } else {
      trace', steps' := trace2, steps2;
    }
  }

  // A wakeup is on its way, after waiting for the timer if need be.
  lemma Awakes(trace: seq<Sys>, steps: seq<Step>, h: HandleId) returns (trace': seq<Sys>, steps': seq<Step>)
    requires Drains(trace, steps) && Inv(trace[|steps|]) && Open(trace[|steps|], h) && MutexFree(trace[|steps|], h)
    ensures Drains(trace', steps') && trace'[0] == trace[0] && Inv(trace'[|steps'|])
    ensures var s, s' := trace[|steps|], trace'[|steps'|];
            && Enabled(s', Wake(h)) && Open(s', h) && s'.table == s.table && s'.lockOwner == s.lockOwner
            && s'.handles[h].proc == s.handles[h].proc
            && s'.handles[h].core.pending == s.handles[h].core.pending
  {
    var s := trace[|steps|];
    assert HandleOk(s, h);
    var r := s.handles[h];
    if r.fired > 0 {
      return trace, steps;
    }
    var dt: nat := Max(0, r.core.timer.deadline - s.now);
    trace', steps' := DrainOn(trace, steps, Tick(dt));
    trace', steps' := DrainOn(trace', steps', Fire(h));
  }

  // Not the last one owed: nothing but the count changes.  The last one: shut.
  lemma WakeEffect(s: Sys, h: HandleId)
    requires Inv(s) && Enabled(s, Wake(h)) && Open(s, h)
    ensures var s' := Apply(s, Wake(h));
            var p := s.handles[h].proc;
            && MutexFree(s', h) && s'.handles[h].proc == p && s.handles[h].core.pending > 0
            && s'.handles[h].core.pending < s.handles[h].core.pending
            && (Open(s', h) ==> s'.table == s.table && s'.lockOwner == s.lockOwner)
            && (!Open(s', h) ==> OneLess(s, s', p))
  {
    assert HandleOk(s, h) && HoldsRef(s, h);
    assert EntryOk(s, s.handles[h].proc);
  }

  // ---------- a busy handle ----------

  lemma DropIsOneLess(s: Sys, s': Sys, p: Proc)
    requires Inv(s) && p in s.table && EntryOf(s', p) == Dropped(EntryOf(s, p))
    requires s'.lockOwner == if EntryOf(s', p).None? then AfterUnlock(s.lockOwner, s.table[p].f) else s.lockOwner
    ensures OneLess(s, s', p)
  {
    assert EntryOk(s, p);
  }

  // An operation at the demand check gets to the hand-over.
  lemma CheckingReleases(trace: seq<Sys>, steps: seq<Step>, h: HandleId, u: OpId)
    returns (trace': seq<Sys>, steps': seq<Step>)
    requires Drains(trace, steps) && Inv(trace[|steps|]) && OpOf(trace[|steps|], u, h)
    requires trace[|steps|].ops[u].pc.Probe? || trace[|steps|].ops[u].pc.ProbeHeld? || trace[|steps|].ops[u].pc.Decide?
    ensures Drains(trace', steps') && trace'[0] == trace[0] && Inv(trace'[|steps'|])
    ensures OneLess(trace[|steps|], trace'[|steps'|], trace[|steps|].handles[h].proc)
  {
    var s := trace[|steps|];
    var p := s.handles[h].proc;
    assert OpOk(s, u) && HoldsRef(s, h);
    trace', steps' := trace, steps;
    if trace'[|steps'|].ops[u].pc.Probe? {
      trace', steps' := OpOn(trace', steps', h, u, ProbeTry);
    }
    if trace'[|steps'|].ops[u].pc.ProbeHeld? {
      trace', steps' := OpOn(trace', steps', h, u, ProbeUnlock);
    }
    var v := Get(trace'[|steps'|], u);
    assert v.pc.Decide? && v.core.db && v.entry == EntryOf(s, p) && v.lock == s.lockOwner;
    trace', steps' := OpOn(trace', steps', h, u, HandOff);
    var v' := Get(trace'[|steps'|], u);
    assert v'.entry == EntryOf(trace'[|steps'|], p) && v'.lock == trace'[|steps'|].lockOwner;
    DropIsOneLess(s, trace'[|steps'|], p);
  }

  // One beyond it runs and finishes; the handle is then idle.
  lemma RunningReleases(trace: seq<Sys>, steps: seq<Step>, h: HandleId, u: OpId)
    returns (trace': seq<Sys>, steps': seq<Step>)
    requires Drains(trace, steps) && Inv(trace[|steps|]) && OpOf(trace[|steps|], u, h)
    requires var pc := trace[|steps|].ops[u].pc;
             pc.Opening? || pc.Running? || (pc.Ready? && trace[|steps|].handles[h].core.db)
    ensures Drains(trace', steps') && trace'[0] == trace[0] && Inv(trace'[|steps'|])
    ensures OneLess(trace[|steps|], trace'[|steps'|], trace[|steps|].handles[h].proc)
  {
    var s := trace[|steps|];
    var p := s.handles[h].proc;
    assert OpOk(s, u);
    trace', steps' := trace, steps;
    if trace'[|steps'|].ops[u].pc.Opening? {
      trace', steps' := OpOn(trace', steps', h, u, OpenOk);
    } else if trace'[|steps'|].ops[u].pc.Ready? {
      trace', steps' := OpOn(trace', steps', h, u, Check);
    }
    assert OpOk(trace'[|steps'|], u);
    trace', steps' := OpOn(trace', steps', h, u, Finish);
    var s1 := trace'[|steps'|];
    var v := Get(s1, u);
    assert v.entry == EntryOf(s1, p) == EntryOf(s, p) && v.mutex.None? && v.core.db && v.lock == s.lockOwner;
    trace', steps' := IdleReleases(trace', steps', h);
  }

  lemma HolderReleases(trace: seq<Sys>, steps: seq<Step>, h: HandleId) returns (trace': seq<Sys>, steps': seq<Step>)
    requires Drains(trace, steps) && Inv(trace[|steps|]) && h in trace[|steps|].handles && HoldsRef(trace[|steps|], h)
    ensures Drains(trace', steps') && trace'[0] == trace[0] && Inv(trace'[|steps'|])
    ensures OneLess(trace[|steps|], trace'[|steps'|], trace[|steps|].handles[h].proc)
  {
    var s := trace[|steps|];
    if MutexFree(s, h) {
      trace', steps' := IdleReleases(trace, steps, h);
    } else {
      assert HandleOk(s, h);
      var u := s.handles[h].holder.value;
      assert OpOk(s, u);
      if s.ops[u].pc.Probe? || s.ops[u].pc.ProbeHeld? || s.ops[u].pc.Decide? {
        trace', steps' := CheckingReleases(trace, steps, h, u);
      } else {
        trace', steps' := RunningReleases(trace, steps, h, u);
      }
    }
  }

  // ---------- the lock ----------

  lemma {:induction false} TableDrains(trace: seq<Sys>, steps: seq<Step>, p: Proc)
    returns (trace': seq<Sys>, steps': seq<Step>)
    requires Drains(trace, steps) && Inv(trace[|steps|]) && p in trace[|steps|].table
    ensures Drains(trace', steps') && trace'[0] == trace[0] && trace'[|steps'|].lockOwner.None?
    decreases trace[|steps|].table[p].refs
  {
    var s := trace[|steps|];
    assert |RefHolders(s, p)| > 0;
    var h :| h in RefHolders(s, p);
    trace', steps' := HolderReleases(trace, steps, h);
    if p in trace'[|steps'|].table {
      trace', steps' := TableDrains(trace', steps', p);
    }
  }

  // A lock in the hands of an operation: a fence lowers it, a Do enters it.
  lemma OwnerDrains(trace: seq<Sys>, steps: seq<Step>, t: OpId) returns (trace': seq<Sys>, steps': seq<Step>)
    requires Drains(trace, steps) && Inv(trace[|steps|])
    requires t in trace[|steps|].ops && OwnsLock(trace[|steps|].ops[t].pc)
    ensures Drains(trace', steps') && trace'[0] == trace[0] && trace'[|steps'|].lockOwner.None?
  {
    trace', steps' := trace, steps;
    assert OpOk(trace[|steps|], t);
    if trace'[|steps'|].ops[t].pc.Leaving? {
      trace', steps' := DrainOn(trace', steps', Move(t, Leave));
    }
    var s := trace'[|steps'|];
    assert OpOk(s, t);
    assert s.ops[t].pc.Register? || s.ops[t].pc.Held?;
    if s.ops[t].pc.Held? {
      trace', steps' := DrainOn(trace', steps', Move(t, Lower));
    } else {
      OwnerMeansNoEntry(s, t);
      var p := s.handles[s.ops[t].who.h].proc;
      trace', steps' := DrainOn(trace', steps', Move(t, Enlist));
      trace', steps' := TableDrains(trace', steps', p);
    }
  }

  /** From every reachable state there is a run, of what is already under way and
      without any failure, after which nobody holds .lock. */
  lemma LockCanBeReleased(s: Sys) returns (trace: seq<Sys>, steps: seq<Step>)
    requires Reachable(s)
    ensures IsRun(trace, steps) && trace[0] == s && (forall k: nat :: k < |steps| ==> Winds(steps[k]))
    ensures trace[|steps|].lockOwner.None?
  {
    ReachableOk(s);
    trace, steps := [s], [];
    if s.lockOwner.Some? {
      var t := s.lockOwner.value.op;
      if OwnsLock(s.ops[t].pc) {
        trace, steps := OwnerDrains(trace, steps, t);
      } else {
        var p :| p in s.table;
        trace, steps := TableDrains(trace, steps, p);
      }
    }
  }
}
