/**
  What the invariant of LockProtocol means: exclusion, callbacks, closing,
  the idle timer and the queue (internal/duckdb/handle.go).
 */
module LockTheorems {
  import opened Util
  import opened HandleCore
  import opened LockProtocol
  import opened LockInvariant

  predicate At(s: Sys, t: OpId, pc: Pc) {
    t in s.ops && s.ops[t].pc == pc
  }

  // ---------- exclusion ----------

  predicate Open(s: Sys, h: HandleId) {
    h in s.handles && s.handles[h].core.db
  }

  /** At most one process has the database open, its table entry's descriptor
      holds .lock and counts exactly the handles that hold a reference, and
      neither happens beside a raised fence; two fences are never up at once. */
  lemma Exclusion(s: Sys)
    requires Reachable(s)
    ensures forall h, k :: Open(s, h) && Open(s, k) ==> s.handles[h].proc == s.handles[k].proc
    ensures forall h :: Open(s, h) ==>
                          var p := s.handles[h].proc;
                          p in s.table && s.lockOwner == Some(s.table[p].f) && h in RefHolders(s, p)
    ensures forall p :: p in s.table ==> s.lockOwner == Some(s.table[p].f)
    ensures forall p, q :: p in s.table && q in s.table ==> p == q
    ensures forall p :: p in s.table ==> s.table[p].refs == |RefHolders(s, p)| > 0
    ensures forall t :: At(s, t, Held) ==> s.table == map[] && s.lockOwner == Some(LockFd(t))
    ensures forall t, u :: At(s, t, Held) && At(s, u, Held) ==> t == u
    ensures forall t, h :: At(s, t, Held) ==> !Open(s, h)
  {
    ReachableOk(s);
    forall t | At(s, t, Held) ensures s.table == map[] {
      OwnerMeansNoEntry(s, t);
    }
    forall p | p in s.table ensures s.lockOwner == Some(s.table[p].f) {
      assert EntryOk(s, p);
    }
    forall h | Open(s, h) ensures s.handles[h].proc in s.table && s.lockOwner == Some(s.table[s.handles[h].proc].f) {
      assert HoldsRef(s, h);
      assert EntryOk(s, s.handles[h].proc);
    }
  }

  lemma OwnerIsNotEntry(s: Sys, t: OpId, p: Proc)
    requires t in s.ops && OwnsLock(s.ops[t].pc) && s.lockOwner == Some(LockFd(t))
    requires p in s.table
    ensures !EntryOk(s, p)
  {}

  lemma OwnerMeansNoEntry(s: Sys, t: OpId)
    requires LockOk(s) && t in s.ops && OwnsLock(s.ops[t].pc)
    ensures s.table == map[]
  {
    forall p | p in s.table ensures false {
      OwnerIsNotEntry(s, t, p);
    }
  }

  /** The second table check of acquire never finds an entry, so the branch
      that throws the fresh descriptor away is dead. */
  lemma SecondCheckFindsNothing(s: Sys, t: OpId)
    requires Reachable(s) && At(s, t, Register)
    ensures s.table == map[]
  {
    ReachableOk(s);
    OwnerMeansNoEntry(s, t);
  }

  /** A held .lock always has somebody to give it up: an operation about to use or
      release it, or an entry that some handle holds a reference to. */
  lemma LockIsAnsweredFor(s: Sys)
    requires Reachable(s) && s.lockOwner.Some?
    ensures s.lockOwner.value.op in s.ops
    ensures || OwnsLock(s.ops[s.lockOwner.value.op].pc)
            || exists p, h :: p in s.table && s.table[p].f == s.lockOwner.value && h in RefHolders(s, p)
  {
    ReachableOk(s);
    var t := s.lockOwner.value.op;
    assert t in s.ops;
    if !OwnsLock(s.ops[t].pc) {
      var p :| p in s.table;
      assert EntryOk(s, p);
      assert |RefHolders(s, p)| > 0;
      var h :| h in RefHolders(s, p);
    }
  }

  // ---------- callbacks ----------

  /** fn runs with the database open, the lock reference held and h.mu held,
      one at a time per handle. */
  lemma CallbackIsGuarded(s: Sys, t: OpId)
    requires Reachable(s) && At(s, t, Running)
    ensures s.ops[t].who.Do?
    ensures var h := s.ops[t].who.h;
            && Open(s, h)
            && !s.handles[h].core.closed
            && s.handles[h].holder == Some(t)
            && s.handles[h].proc in s.table
            && h in RefHolders(s, s.handles[h].proc)
            && (forall u :: At(s, u, Running) && s.ops[u].who == Do(h) ==> u == t)
  {
    ReachableOk(s);
    assert OpOk(s, t);
    var h := s.ops[t].who.h;
    assert HandleOk(s, h);
    assert HoldsRef(s, h);
    forall u | At(s, u, Running) && s.ops[u].who == Do(h) ensures u == t {
      assert OpOk(s, u);
    }
  }

  // ---------- Close ----------

  lemma ClosedStays(s: Sys, st: Step, h: HandleId)
    requires Inv(s) && Enabled(s, st) && h in s.handles && s.handles[h].core.closed
    ensures h in Apply(s, st).handles && Apply(s, st).handles[h].core.closed
  {
    if st.Move? {
      assert OpOk(s, st.t);
      MoveKeepsClosed(Get(s, st.t), st.t, st.act);
    }
  }

  lemma MoveKeepsClosed(v: View, t: OpId, act: Act)
    requires CanMove(v, act)
    ensures Moved(v, t, act).core.closed == v.core.closed
  {}

  lemma {:induction false} ClosedForever(trace: seq<Sys>, steps: seq<Step>, h: HandleId, i: nat, j: nat)
    requires IsRun(trace, steps) && Inv(trace[0]) && i <= j <= |steps|
    requires h in trace[i].handles && trace[i].handles[h].core.closed
    ensures h in trace[j].handles && trace[j].handles[h].core.closed
    decreases j - i
  {
    if i < j {
      ClosedForever(trace, steps, h, i, j - 1);
      RunKeepsInv(trace, steps, j - 1);
      assert StepAt(trace, steps, j - 1);
      ClosedStays(trace[j - 1], steps[j - 1], h);
    }
  }

  lemma ClosedMeans(s: Sys, h: HandleId)
    requires Inv(s) && h in s.handles && s.handles[h].core.closed
    ensures !s.handles[h].core.db && s.handles[h].holder.None?
    ensures h !in RefHolders(s, s.handles[h].proc)
    ensures forall t :: t in s.ops && s.ops[t].who == Do(h) ==> ReturnsAtOnce(s, t)
  {
    assert HandleOk(s, h);
    forall t | t in s.ops && s.ops[t].who == Do(h) ensures ReturnsAtOnce(s, t) {
      assert OpOk(s, t);
    }
  }

  // t is outside the mutex-protected part, and leaves Do as soon as it gets there.
  predicate ReturnsAtOnce(s: Sys, t: OpId)
    requires t in s.ops
  {
    && Known(s, t)
    && !HasMutex(s.ops[t].pc)
    && (CanMove(Get(s, t), Enter) ==> Moved(Get(s, t), t, Enter).pc.Done?)
    && (CanMove(Get(s, t), Resume) ==> Moved(Get(s, t), t, Resume).pc.Done?)
  }

  /** Close is terminal: ever after, the database is shut, h.mu protects no
      operation, no callback is running or starts, and every operation that
      gets the mutex - fresh or resuming from a yield - returns at once. */
  lemma CloseIsTerminal(trace: seq<Sys>, steps: seq<Step>, h: HandleId, i: nat, j: nat)
    requires IsRun(trace, steps) && Inv(trace[0]) && i < j <= |steps|
    requires steps[i] == Close(h)
    ensures h in trace[j].handles && trace[j].handles[h].core.closed
    ensures !trace[j].handles[h].core.db && trace[j].handles[h].holder.None?
    ensures h !in RefHolders(trace[j], trace[j].handles[h].proc)
    ensures forall t :: t in trace[j].ops && trace[j].ops[t].who == Do(h) ==> ReturnsAtOnce(trace[j], t)
  {
    assert StepAt(trace, steps, i);
    ClosedForever(trace, steps, h, i + 1, j);
    RunKeepsInv(trace, steps, j);
    ClosedMeans(trace[j], h);
  }

  // ---------- the idle timer ----------

  /** pending is one for an active timer plus the wakeups still on their way,
      and is never negative; an open database whose mutex is free is armed,
      not closed, and owed a wakeup. */
  lemma TimerAccounting(s: Sys, h: HandleId)
    requires Reachable(s) && h in s.handles
    ensures var r := s.handles[h];
            && r.core.pending == r.fired + (if r.core.timer.Counting? then 1 else 0)
            && r.core.pending >= 0
            && (r.core.db && r.holder.None? ==> !r.core.closed && r.core.gen == r.core.armed && r.core.pending >= 1)
            && (r.core.db && r.holder.None? && r.core.timer.Counting? ==> r.core.timer.deadline == r.lastArm + r.idle)
  {
    ReachableOk(s);
    assert HandleOk(s, h);
  }

  lemma MoveArms(v: View, t: OpId, act: Act)
    requires CanMove(v, act)
    ensures Moved(v, t, act).lastArm == if act.Finish? then v.now else v.lastArm
  {}

  lemma StepArms(s: Sys, st: Step, h: HandleId)
    requires Enabled(s, st) && h in s.handles && s.handles[h].lastArm <= s.now
    ensures h in Apply(s, st).handles
    ensures s.now <= Apply(s, st).now
    ensures s.handles[h].lastArm <= Apply(s, st).handles[h].lastArm <= s.now
    ensures Apply(s, st).handles[h].idle == s.handles[h].idle
  {
    if st.Move? {
      MoveArms(Get(s, st.t), st.t, st.act);
    }
  }

  lemma {:induction false} ArmTimesGrow(trace: seq<Sys>, steps: seq<Step>, h: HandleId, i: nat, j: nat)
    requires IsRun(trace, steps) && i <= j <= |steps|
    requires h in trace[i].handles && trace[i].handles[h].lastArm <= trace[i].now
    ensures h in trace[j].handles
    ensures trace[i].now <= trace[j].now
    ensures trace[i].handles[h].lastArm <= trace[j].handles[h].lastArm <= trace[j].now
    ensures trace[j].handles[h].idle == trace[i].handles[h].idle
    decreases j - i
  {
    if i < j {
      ArmTimesGrow(trace, steps, h, i, j - 1);
      assert StepAt(trace, steps, j - 1);
      StepArms(trace[j - 1], steps[j - 1], h);
    }
  }

  lemma FinishArms(s: Sys, t: OpId, h: HandleId)
    requires Enabled(s, Move(t, Finish)) && s.ops[t].who == Do(h)
    ensures h in s.handles && s.handles[h].idle == Apply(s, Move(t, Finish)).handles[h].idle
    ensures Apply(s, Move(t, Finish)).handles[h].lastArm == s.now == Apply(s, Move(t, Finish)).now
  {}

  lemma WakeShutsAfterWindow(s: Sys, h: HandleId)
    requires Inv(s) && Enabled(s, Wake(h)) && Open(s, h) && !Open(Apply(s, Wake(h)), h)
    ensures !s.handles[h].core.timer.Counting? && s.now >= s.handles[h].lastArm + s.handles[h].idle
  {
    assert HandleOk(s, h);
  }

  lemma FinishRecorded(trace: seq<Sys>, steps: seq<Step>, i: nat, t: OpId, h: HandleId)
    requires IsRun(trace, steps) && Inv(trace[0]) && i < |steps|
    requires steps[i] == Move(t, Finish) && t in trace[i].ops && trace[i].ops[t].who == Do(h)
    ensures h in trace[i].handles && h in trace[i + 1].handles
    ensures trace[i + 1].handles[h].idle == trace[i].handles[h].idle
    ensures trace[i + 1].handles[h].lastArm == trace[i].now == trace[i + 1].now
  {
    RunKeepsInv(trace, steps, i);
    assert StepAt(trace, steps, i);
    FinishArms(trace[i], t, h);
  }

  lemma WakeRecorded(trace: seq<Sys>, steps: seq<Step>, h: HandleId, j: nat)
    requires IsRun(trace, steps) && Inv(trace[0]) && j < |steps|
    requires steps[j] == Wake(h) && Open(trace[j], h) && !Open(trace[j + 1], h)
    ensures !trace[j].handles[h].core.timer.Counting?
    ensures trace[j].now >= trace[j].handles[h].lastArm + trace[j].handles[h].idle
  {
    RunKeepsInv(trace, steps, j);
    assert StepAt(trace, steps, j);
    WakeShutsAfterWindow(trace[j], h);
  }

  /** onIdle shuts the database only after the timer of the most recent arm
      has itself run out, so a full idle window after any earlier operation. */
  lemma IdleWindowIsFull(trace: seq<Sys>, steps: seq<Step>, i: nat, t: OpId, h: HandleId, j: nat)
    requires IsRun(trace, steps) && trace[0] == INITIAL && i < j < |steps|
    requires steps[i] == Move(t, Finish) && t in trace[i].ops && trace[i].ops[t].who == Do(h)
    requires steps[j] == Wake(h) && Open(trace[j], h) && !Open(trace[j + 1], h)
    ensures !trace[j].handles[h].core.timer.Counting?
    ensures trace[j].now >= trace[j].handles[h].lastArm + trace[j].handles[h].idle
    ensures trace[j].now >= trace[i].now + trace[j].handles[h].idle
  {
    FinishRecorded(trace, steps, i, t, h);
    ArmTimesGrow(trace, steps, h, i + 1, j);
    WakeRecorded(trace, steps, h, j);
  }

  // Nothing happens on h but its timer, its wakeups and cancelled yields.
  predicate Quiet(s: Sys, st: Step, h: HandleId) {
    && st != Close(h)
    && (st.Move? && st.t in s.ops && s.ops[st.t].who == Do(h) ==> st.act.Cancel?)
  }

  function Wakes(steps: seq<Step>, h: HandleId): nat {
    if steps == [] then 0
    else Wakes(steps[..|steps| - 1], h) + if steps[|steps| - 1] == Wake(h) then 1 else 0
  }

  lemma QuietMove(s: Sys, t: OpId, act: Act, h: HandleId)
    requires Inv(s) && Enabled(s, Move(t, act)) && MutexFree(s, h) && Quiet(s, Move(t, act), h)
    ensures var s' := Apply(s, Move(t, act));
            MutexFree(s', h) && s'.handles[h].core.pending == s.handles[h].core.pending
  {}

  lemma QuietStep(s: Sys, st: Step, h: HandleId)
    requires Inv(s) && Enabled(s, st) && MutexFree(s, h) && Quiet(s, st, h)
    ensures MutexFree(Apply(s, st), h)
    ensures Apply(s, st).handles[h].core.pending == s.handles[h].core.pending - if st == Wake(h) then 1 else 0
  {
    assert HandleOk(s, h);
    if st.Move? {
      QuietMove(s, st.t, st.act, h);
    }
  }

  lemma {:induction false} QuietRun(trace: seq<Sys>, steps: seq<Step>, h: HandleId, n: nat)
    requires IsRun(trace, steps) && Inv(trace[0]) && n <= |steps|
    requires MutexFree(trace[0], h)
    requires forall i: nat :: i < |steps| ==> Quiet(trace[i], steps[i], h)
    ensures MutexFree(trace[n], h)
    ensures trace[n].handles[h].core.pending == trace[0].handles[h].core.pending - Wakes(steps[..n], h)
  {
    if n > 0 {
      QuietRun(trace, steps, h, n - 1);
      RunKeepsInv(trace, steps, n - 1);
      assert StepAt(trace, steps, n - 1);
      QuietStep(trace[n - 1], steps[n - 1], h);
      assert steps[..n][..n - 1] == steps[..n - 1];
    } else {
      assert steps[..0] == [];
    }
  }

  /** No database is stuck open: without further operations on h, the
      pending-th wakeup at the latest finds it shut and its reference dropped,
      whatever all other handles, processes and fences do meanwhile... */
  lemma ShutByPendingWakeups(trace: seq<Sys>, steps: seq<Step>, h: HandleId)
    requires IsRun(trace, steps) && Inv(trace[0]) && MutexFree(trace[0], h)
    requires forall i: nat :: i < |steps| ==> Quiet(trace[i], steps[i], h)
    ensures Wakes(steps, h) <= trace[0].handles[h].core.pending
    ensures Wakes(steps, h) == trace[0].handles[h].core.pending ==>
              var s := trace[|steps|];
              h in s.handles && !s.handles[h].core.db && h !in RefHolders(s, s.handles[h].proc)
  {
    QuietRun(trace, steps, h, |steps|);
    RunKeepsInv(trace, steps, |steps|);
    assert steps[..|steps|] == steps;
    assert HandleOk(trace[|steps|], h);
  }

  /** ... and while it is open, a wakeup can arrive, or will once a window has
      passed since the last operation. */
  lemma WakeupIsComing(s: Sys, h: HandleId)
    requires Inv(s) && MutexFree(s, h) && Open(s, h)
    ensures || Enabled(s, Wake(h))
            || exists dt: nat ::
                 && Enabled(Apply(s, Tick(dt)), Fire(h))
                 && dt == Max(0, s.handles[h].lastArm + s.handles[h].idle - s.now)
  {
    assert HandleOk(s, h);
    var r := s.handles[h];
    if r.fired == 0 {
      var dt: nat := Max(0, r.core.timer.deadline - s.now);
      assert Enabled(Apply(s, Tick(dt)), Fire(h));
    }
  }

  // ---------- the queue ----------

  lemma HeadKeepsLock(s: Sys, st: Step, t: OpId)
    requires Inv(s) && Enabled(s, st) && At(s, t, Head) && At(Apply(s, st), t, Head)
    ensures Apply(s, st).lockOwner == s.lockOwner || Apply(s, st).lockOwner.None?
  {
    if st.Move? {
      var v := Get(s, st.t);
      assert OpOk(s, st.t);
      ViewIsOk(s, st.t);
      MoveLockLocal(v, st.t, st.act, FiredOf(s, st.t));
      if OwnsLock(Moved(v, st.t, st.act).pc) && v.lock.None? {
        OnlyHeadTries(v, st.t, st.act);
      }
    }
  }

  lemma OnlyHeadTries(v: View, t: OpId, act: Act)
    requires CanMove(v, act) && v.lock.None? && Moved(v, t, act).lock.Some?
    ensures act.LockTry? && v.pc.Head?
  {}

  /** No overtaking: only the owner of .wait tries .lock, so from the moment an
      operation is at the head of the queue until it succeeds or gives up,
      .lock stays with its present owner or becomes free and stays free. */
  lemma {:induction false} HeadIsNotOvertaken(trace: seq<Sys>, steps: seq<Step>, t: OpId, i: nat, j: nat)
    requires IsRun(trace, steps) && Inv(trace[0]) && i <= j <= |steps|
    requires forall k :: i <= k <= j ==> At(trace[k], t, Head)
    ensures trace[j].lockOwner == trace[i].lockOwner || trace[j].lockOwner.None?
    ensures forall u :: At(trace[j], u, Head) ==> u == t
    decreases j - i
  {
    if i < j {
      HeadIsNotOvertaken(trace, steps, t, i, j - 1);
      RunKeepsInv(trace, steps, j - 1);
      assert StepAt(trace, steps, j - 1);
      HeadKeepsLock(trace[j - 1], steps[j - 1], t);
    }
    RunKeepsInv(trace, steps, j);
  }

  // Operations of h that will not ask (again) whether somebody is waiting.
  predicate PastCheck(pc: Pc) {
    pc == Decide(false) || pc.Handed? || pc.Yielding? || pc.Ready? || pc.Register? || pc.Opening?
  }

  function Past(s: Sys, h: HandleId): set<OpId> {
    set u | u in s.ops && s.ops[u].who == Do(h) && PastCheck(s.ops[u].pc)
  }

  // A waiter t stays at the head while the only handle of its process, h, keeps the lock.
  ghost predicate Waiting(s: Sys, t: OpId, h: HandleId) {
    && At(s, t, Head)
    && h in s.handles && s.handles[h].proc in s.table
    && (forall k :: k in s.handles && s.handles[k].proc == s.handles[h].proc ==> k == h)
  }

  lemma SoleHolder(s: Sys, t: OpId, h: HandleId)
    requires Inv(s) && Waiting(s, t, h)
    ensures HoldsRef(s, h) && s.table[s.handles[h].proc].refs == 1
  {
    var p := s.handles[h].proc;
    assert |RefHolders(s, p)| > 0;
    var k :| k in RefHolders(s, p);
    assert RefHolders(s, p) == {h};
  }

  // The step starts a callback on h, by operation st.t.
  predicate Starts(s: Sys, st: Step, h: HandleId)
    requires Enabled(s, st)
  {
    st.Move? && s.ops[st.t].who == Do(h) && Apply(s, st).ops[st.t].pc.Running?
  }

  lemma OthersKeepPast(s: Sys, st: Step, h: HandleId)
    requires Enabled(s, st) && !(st.Move? && s.ops[st.t].who == Do(h))
    ensures Past(Apply(s, st), h) <= Past(s, h)
  {}

  lemma OwnPast(s: Sys, u: OpId, v': View, h: HandleId)
    requires Known(s, u) && s.ops[u].who == Do(h)
    requires PastCheck(v'.pc) ==> PastCheck(s.ops[u].pc)
    ensures Past(Put(s, u, v'), h) <= Past(s, h)
  {}

  // The operation whose probe of .wait fails in the step: it takes that for
  // nobody waiting, and is past the check by mistake.
  function Erring(st: Step): set<OpId> {
    if st.Move? && st.act.ProbeError? then {st.t} else {}
  }

  lemma PastShrinks(s: Sys, st: Step, t: OpId, h: HandleId)
    requires Inv(s) && Enabled(s, st) && Waiting(s, t, h) && Waiting(Apply(s, st), t, h)
    ensures Past(Apply(s, st), h) <= Past(s, h) + Erring(st)
    ensures Starts(s, st, h) ==> st.t in Past(s, h)
  {
    SoleHolder(s, t, h);
    if st.Move? && s.ops[st.t].who == Do(h) {
      var u := st.t;
      assert HandleOk(s, h);
      ViewIsOk(s, u);
      var v := Get(s, u);
      assert u != t;
      if st.act.ProbeError? {
        ProbeErrorPast(s, u, h);
      } else {
        MovePastCheck(v, u, st.act, FiredOf(s, u), t);
        OwnPast(s, u, Moved(v, u, st.act), h);
      }
    } else {
      OthersKeepPast(s, st, h);
    }
  }

  lemma ProbeErrorPast(s: Sys, u: OpId, h: HandleId)
    requires Enabled(s, Move(u, ProbeError)) && s.ops[u].who == Do(h)
    ensures Past(Apply(s, Move(u, ProbeError)), h) <= Past(s, h) + {u}
    ensures !Starts(s, Move(u, ProbeError), h)
  {}

  lemma MovePastCheck(v: View, u: OpId, act: Act, fired: nat, t: OpId)
    requires CanMove(v, act) && v.who.Do? && u != t && !act.ProbeError?
    requires ViewOk(v, u, fired)
    requires v.entry.Some? && v.entry.value.refs == 1 && v.wait == Some(WantFd(t))
    requires v.mutex.None? ==> v.core.db
    requires Moved(v, u, act).entry.Some?
    ensures PastCheck(Moved(v, u, act).pc) || Moved(v, u, act).pc.Running? ==> PastCheck(v.pc)
  {}

  lemma PastShrinksAt(trace: seq<Sys>, steps: seq<Step>, t: OpId, h: HandleId, n: nat)
    requires IsRun(trace, steps) && Inv(trace[0]) && n < |steps|
    requires Waiting(trace[n], t, h) && Waiting(trace[n + 1], t, h)
    ensures StepAt(trace, steps, n)
    ensures Past(trace[n + 1], h) <= Past(trace[n], h) + Erring(steps[n])
    ensures Starts(trace[n], steps[n], h) ==> steps[n].t in Past(trace[n], h)
  {
    RunKeepsInv(trace, steps, n);
    assert StepAt(trace, steps, n);
    PastShrinks(trace[n], steps[n], t, h);
  }

  ghost predicate Shrinks(trace: seq<Sys>, steps: seq<Step>, h: HandleId, n: nat)
    requires n < |steps| < |trace|
  {
    Past(trace[n + 1], h) <= Past(trace[n], h) + Erring(steps[n])
  }

  // One of the first n steps is a failed probe of u.
  ghost predicate Erred(steps: seq<Step>, n: nat, u: OpId) {
    exists k: nat :: k < n && k < |steps| && steps[k] == Move(u, ProbeError)
  }

  lemma {:induction false} ShrinksSinceStart(trace: seq<Sys>, steps: seq<Step>, h: HandleId, n: nat, u: OpId)
    requires n <= |steps| < |trace| && forall k: nat :: k < n ==> Shrinks(trace, steps, h, k)
    requires u in Past(trace[n], h)
    ensures u in Past(trace[0], h) || Erred(steps, n, u)
  {
    if n > 0 {
      assert Shrinks(trace, steps, h, n - 1);
      if u in Past(trace[n - 1], h) {
        ShrinksSinceStart(trace, steps, h, n - 1, u);
      } else {
        assert steps[n - 1] == Move(u, ProbeError);
      }
    }
  }

  /** While a waiter is at the head, the only callbacks the holder starts before
      it releases are those of operations that were already past the demand
      check when the waiter got there, or whose own probe failed since. */
  lemma DemandIsHonoured(trace: seq<Sys>, steps: seq<Step>, t: OpId, h: HandleId, n: nat)
    requires IsRun(trace, steps) && Inv(trace[0]) && n < |steps|
    requires forall k: nat :: k <= |steps| ==> Waiting(trace[k], t, h)
    requires StepAt(trace, steps, n) && Starts(trace[n], steps[n], h)
    ensures steps[n].t in Past(trace[0], h) || Erred(steps, n, steps[n].t)
  {
    forall k: nat | k < n ensures Shrinks(trace, steps, h, k) {
      PastShrinksAt(trace, steps, t, h, k);
    }
    PastShrinksAt(trace, steps, t, h, n);
    ShrinksSinceStart(trace, steps, h, n, steps[n].t);
  }

  // Apart from operations parked in a yield, there is at most one of those.
  lemma AtMostOnePastCheck(s: Sys, h: HandleId, t: OpId, u: OpId)
    requires Inv(s) && t in Past(s, h) && u in Past(s, h)
    requires !s.ops[t].pc.Yielding? && !s.ops[u].pc.Yielding?
    ensures t == u
  {
    assert OpOk(s, t) && OpOk(s, u);
  }
}
