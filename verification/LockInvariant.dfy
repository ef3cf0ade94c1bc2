/**
  The invariant of LockProtocol, and the proof that every step keeps it.

  What a step owes is first stated on the View of the operation that takes it
  (LocalOk), where no quantifier is needed; the lemmas named ...Put carry that
  to the whole system once for all steps.
 */
module LockInvariant {
  import opened Util
  import opened HandleCore
  import opened LockProtocol

  // ---------- positions ----------

  predicate HasMutex(pc: Pc) {
    !(pc.Begin? || pc.Yielding? || pc.Held? || pc.Done?)
  }

  // Between tryLock(.lock) and the point where a table entry or nobody answers for it.
  predicate OwnsLock(pc: Pc) {
    pc == Leaving(true) || pc.Register? || pc.Held?
  }

  predicate OwnsWait(pc: Pc) {
    pc.Head? || pc.Leaving?
  }

  predicate PastRegister(pc: Pc) {
    pc.Opening? || pc.Running? || pc.Failing? || pc.Done?
  }

  predicate NeedsOpen(pc: Pc) {
    pc.Probe? || pc.ProbeHeld? || pc.Decide? || pc.Running?
  }

  predicate NeedsShut(pc: Pc) {
    HasMutex(pc) && !NeedsOpen(pc) && !pc.Ready?
  }

  predicate FencePc(pc: Pc) {
    pc.Queue? || OwnsWait(pc) || pc.Held? || pc.Failing? || pc.Done?
  }

  // ---------- one handle ----------

  // pending counts the active timer and the wakeups on their way.
  predicate TimerCounted(c: Core, fired: nat) {
    c.pending == fired + if c.timer.Counting? then 1 else 0
  }

  // The last arm is still in force: its timer runs, or has run out and woken somebody.
  predicate ArmInForce(c: Core, fired: nat, lastArm: int, idle: nat, now: int) {
    && c.gen == c.armed
    && (c.timer.Counting? ==> c.timer.deadline == lastArm + idle)
    && (!c.timer.Counting? ==> fired >= 1 && now >= lastArm + idle)
  }

  predicate CoreOk(c: Core, fired: nat, free: bool, lastArm: int, idle: nat, now: int) {
    && TimerCounted(c, fired)
    && (c.closed ==> !c.db && free)
    && (c.db && free ==> ArmInForce(c, fired, lastArm, idle, now))
  }

  predicate PcFits(v: View, t: OpId) {
    match v.who
    case Fence => FencePc(v.pc)
    case Do(_) =>
      && !v.pc.Held?
      && (HasMutex(v.pc) ==> v.mutex == Some(t))
      && (NeedsOpen(v.pc) ==> v.core.db)
      && (NeedsShut(v.pc) ==> !v.core.db)
  }

  ghost predicate HandleOk(s: Sys, h: HandleId)
    requires h in s.handles
  {
    var r := s.handles[h];
    && CoreOk(r.core, r.fired, r.holder.None?, r.lastArm, r.idle, s.now)
    && (r.holder.Some? ==>
          var t := r.holder.value;
          t in s.ops && s.ops[t].who == Do(h) && HasMutex(s.ops[t].pc))
  }

  ghost predicate OpOk(s: Sys, t: OpId)
    requires t in s.ops
  {
    Known(s, t) && PcFits(Get(s, t), t)
  }

  ghost predicate RecordsOk(s: Sys) {
    && (forall h :: h in s.handles ==> HandleOk(s, h))
    && (forall t :: t in s.ops ==> OpOk(s, t))
  }

  // ---------- the lock files ----------

  ghost predicate WaitOk(s: Sys) {
    && (forall t :: t in s.ops && OwnsWait(s.ops[t].pc) ==> s.waitOwner == Some(WantFd(t)))
    && (forall t :: t in s.ops && s.ops[t].pc.ProbeHeld? ==> s.waitOwner == Some(ProbeFd(t)))
    && (s.waitOwner.Some? ==>
         s.waitOwner.value.op in s.ops && WaitFits(s.ops[s.waitOwner.value.op].pc, s.waitOwner.value))
  }

  predicate WaitFits(pc: Pc, f: Fd) {
    match f
    case WantFd(_) => OwnsWait(pc)
    case ProbeFd(_) => pc.ProbeHeld?
    case LockFd(_) => false
  }

  ghost predicate EntryOk(s: Sys, p: Proc)
    requires p in s.table
  {
    var f := s.table[p].f;
    && s.lockOwner == Some(f)
    && f.LockFd?
    && f.op in s.ops
    && PastRegister(s.ops[f.op].pc)
  }

  ghost predicate LockOk(s: Sys) {
    && (forall t :: t in s.ops && OwnsLock(s.ops[t].pc) ==> s.lockOwner == Some(LockFd(t)))
    && (forall p :: p in s.table ==> EntryOk(s, p))
    && (forall p, q :: p in s.table && q in s.table ==> p == q)
    && (s.lockOwner.Some? ==>
          && s.lockOwner.value.LockFd?
          && s.lockOwner.value.op in s.ops
          && (OwnsLock(s.ops[s.lockOwner.value.op].pc) || exists p :: p in s.table))
  }

  // ---------- references ----------

  // A handle has acquired and not released: its database is open, or about to be.
  predicate HoldsRef(s: Sys, h: HandleId)
    requires h in s.handles
  {
    var r := s.handles[h];
    r.core.db || (r.holder.Some? && r.holder.value in s.ops && s.ops[r.holder.value].pc.Opening?)
  }

  function RefHolders(s: Sys, p: Proc): set<HandleId> {
    set h | h in s.handles && s.handles[h].proc == p && HoldsRef(s, h)
  }

  ghost predicate RefsOk(s: Sys) {
    && (forall h :: h in s.handles && HoldsRef(s, h) ==> s.handles[h].proc in s.table)
    && (forall p :: p in s.table ==> s.table[p].refs == |RefHolders(s, p)| && s.table[p].refs > 0)
  }

  ghost predicate Inv(s: Sys) {
    RecordsOk(s) && WaitOk(s) && LockOk(s) && RefsOk(s)
  }

  // ---------- what a move owes, on its view ----------

  predicate Refs(v: View) {
    v.core.db || (v.mutex.Some? && v.pc.Opening?)
  }

  predicate RecordsLocal(v: View, v': View, t: OpId, fired: nat) {
    && v'.who == v.who
    && PcFits(v', t)
    && (v.who.Do? ==>
          && (v.mutex == None || v.mutex == Some(t))
          && v'.mutex == (if HasMutex(v'.pc) then Some(t) else None)
          && CoreOk(v'.core, fired, v'.mutex.None?, v'.lastArm, v.idle, v.now))
  }

  predicate WaitLocal(v: View, v': View, t: OpId) {
    && (OwnsWait(v'.pc) ==> v'.wait == Some(WantFd(t)))
    && (v'.pc.ProbeHeld? ==> v'.wait == Some(ProbeFd(t)))
    && (v'.wait.Some? && v'.wait.value.op == t ==> WaitFits(v'.pc, v'.wait.value))
    && (v'.wait != v.wait ==>
          && (v.wait.None? || v.wait.value.op == t)
          && (v'.wait.None? || v'.wait.value.op == t))
  }

  predicate LockLocal(v: View, v': View, t: OpId) {
    && (OwnsLock(v'.pc) ==> v'.lock == Some(LockFd(t)))
    && (PastRegister(v.pc) ==> PastRegister(v'.pc))
    && (v'.entry.Some? ==>
          if v.entry.Some? then v'.entry.value.f == v.entry.value.f && v'.lock == v.lock
          else v.pc.Register? && v'.entry.value.f == LockFd(t) && PastRegister(v'.pc) && v'.lock == v.lock)
    && (v'.lock != v.lock ==>
          || (v.lock.None? && v'.lock == Some(LockFd(t)) && OwnsLock(v'.pc))
          || (v'.lock.None? && v.lock == Some(LockFd(t)) && OwnsLock(v.pc) && !OwnsLock(v'.pc) && v'.entry == v.entry)
          || (v'.lock.None? && v.entry.Some? && v'.entry.None?))
    && (v.entry.Some? && v'.entry.None? ==> v'.lock.None?)
    && (v'.lock == v.lock && OwnsLock(v.pc) && !OwnsLock(v'.pc) ==> v'.entry.Some?)
  }

  predicate RefsLocal(v: View, v': View) {
    v.who.Do? ==>
      if Refs(v') == Refs(v) then v'.entry == v.entry
      else if Refs(v') then v'.entry.Some? && v'.entry.value.refs == if v.entry.Some? then v.entry.value.refs + 1 else 1
      else v'.entry == Dropped(v.entry)
  }

  // What the invariant says about the view of t.
  predicate ViewOk(v: View, t: OpId, fired: nat) {
    && PcFits(v, t)
    && (v.mutex.Some? && v.mutex.value == t ==> HasMutex(v.pc))
    && (v.who.Do? ==> CoreOk(v.core, fired, v.mutex.None?, v.lastArm, v.idle, v.now))
    && (v.who.Fence? ==> v.entry.None?)
    && (OwnsWait(v.pc) ==> v.wait == Some(WantFd(t)))
    && (v.pc.ProbeHeld? ==> v.wait == Some(ProbeFd(t)))
    && (v.wait.Some? && v.wait.value.op == t ==> WaitFits(v.pc, v.wait.value))
    && (OwnsLock(v.pc) ==> v.lock == Some(LockFd(t)) && v.entry.None?)
    && (v.entry.Some? ==> v.lock == Some(v.entry.value.f) && v.entry.value.refs > 0)
    && (Refs(v) && v.who.Do? && v.mutex == Some(t) ==> v.entry.Some?)
  }

  lemma MoveRecordsLocal(v: View, t: OpId, act: Act, fired: nat)
    requires ViewOk(v, t, fired) && CanMove(v, act)
    ensures RecordsLocal(v, Moved(v, t, act), t, fired)
  {}

  lemma MoveWaitLocal(v: View, t: OpId, act: Act, fired: nat)
    requires ViewOk(v, t, fired) && CanMove(v, act)
    ensures WaitLocal(v, Moved(v, t, act), t)
  {}

  lemma MoveLockLocal(v: View, t: OpId, act: Act, fired: nat)
    requires ViewOk(v, t, fired) && CanMove(v, act)
    ensures LockLocal(v, Moved(v, t, act), t)
  {}

  lemma MoveRefsLocal(v: View, t: OpId, act: Act, fired: nat)
    requires ViewOk(v, t, fired) && CanMove(v, act)
    ensures RefsLocal(v, Moved(v, t, act))
  {}

  // ---------- from the view to the system ----------

  function FiredOf(s: Sys, t: OpId): nat
    requires Known(s, t)
  {
    if s.ops[t].who.Do? then s.handles[s.ops[t].who.h].fired else 0
  }

  lemma ViewIsOk(s: Sys, t: OpId)
    requires Inv(s) && t in s.ops
    ensures Known(s, t) && ViewOk(Get(s, t), t, FiredOf(s, t))
  {
    assert OpOk(s, t);
    if s.ops[t].who.Do? {
      var h := s.ops[t].who.h;
      assert HandleOk(s, h);
      var p := s.handles[h].proc;
      if p in s.table {
        assert EntryOk(s, p);
      }
    }
  }

  lemma RecordsPut(s: Sys, t: OpId, v': View)
    requires RecordsOk(s) && t in s.ops && Known(s, t)
    requires RecordsLocal(Get(s, t), v', t, FiredOf(s, t))
    ensures RecordsOk(Put(s, t, v'))
  {
    var s' := Put(s, t, v');
    forall u | u in s'.ops ensures OpOk(s', u) {
      assert OpOk(s, u);
    }
    forall k | k in s'.handles ensures HandleOk(s', k) {
      assert HandleOk(s, k);
    }
  }

  lemma WaitPut(s: Sys, t: OpId, v': View)
    requires WaitOk(s) && t in s.ops && Known(s, t)
    requires WaitLocal(Get(s, t), v', t)
    ensures WaitOk(Put(s, t, v'))
  {}

  lemma LockPut(s: Sys, t: OpId, v': View)
    requires LockOk(s) && t in s.ops && Known(s, t)
    requires s.ops[t].who.Fence? ==> v'.entry.None?
    requires LockLocal(Get(s, t), v', t)
    ensures LockOk(Put(s, t, v'))
  {
    var s' := Put(s, t, v');
    var v := Get(s, t);
    forall p | p in s'.table ensures EntryOk(s', p) {
      if p in s.table {
        assert EntryOk(s, p);
      }
    }
    forall p, q | p in s'.table && q in s'.table ensures p == q {
      if p in s.table {
        assert EntryOk(s, p);
      }
      if q in s.table {
        assert EntryOk(s, q);
      }
    }
    if s.lockOwner.Some? && s'.lockOwner == s.lockOwner {
      if v'.entry.Some? {
        assert s.handles[s.ops[t].who.h].proc in s'.table;
      } else if p :| p in s.table {
        assert p in s'.table;
      }
    }
  }

  // Handles other than the one that moves keep or lack their reference as before.
  lemma RefHoldersPut(s: Sys, t: OpId, v': View)
    requires RecordsOk(s) && t in s.ops && Known(s, t)
    requires RecordsLocal(Get(s, t), v', t, FiredOf(s, t))
    ensures var s' := Put(s, t, v');
            && (s.ops[t].who.Fence? ==> forall p :: RefHolders(s', p) == RefHolders(s, p))
            && (s.ops[t].who.Do? ==>
                  var h := s.ops[t].who.h;
                  && HoldsRef(s, h) == Refs(Get(s, t))
                  && HoldsRef(s', h) == Refs(v')
                  && forall p :: RefHolders(s', p) - {h} == RefHolders(s, p) - {h})
  {
    var s' := Put(s, t, v');
    forall k | k in s.handles && s.ops[t].who != Do(k) ensures HoldsRef(s', k) == HoldsRef(s, k) {
      assert HandleOk(s, k);
    }
    assert s.ops[t].who.Do? ==> HandleOk(s, s.ops[t].who.h);
  }

  lemma RefsPut(s: Sys, t: OpId, v': View)
    requires RecordsOk(s) && RefsOk(s) && t in s.ops && Known(s, t)
    requires s.ops[t].who.Fence? ==> v'.entry.None?
    requires RecordsLocal(Get(s, t), v', t, FiredOf(s, t))
    requires RefsLocal(Get(s, t), v')
    ensures RefsOk(Put(s, t, v'))
  {
    var s' := Put(s, t, v');
    RefHoldersPut(s, t, v');
    if s.ops[t].who.Do? {
      RefsCounted(s, s', s.ops[t].who.h);
    } else {
      forall h | h in s'.handles && HoldsRef(s', h) ensures s'.handles[h].proc in s'.table {
        assert h in RefHolders(s', s.handles[h].proc);
      }
    }
  }

  // Only the holders of h's own process can change, by h.
  lemma OtherHolders(s: Sys, s': Sys, h: HandleId, q: Proc)
    requires h in s.handles && s'.handles.Keys == s.handles.Keys
    requires s'.handles[h].proc == s.handles[h].proc
    requires RefHolders(s', q) - {h} == RefHolders(s, q) - {h}
    ensures q != s.handles[h].proc ==> RefHolders(s', q) == RefHolders(s, q)
    ensures q == s.handles[h].proc ==>
              |RefHolders(s', q)| == |RefHolders(s, q)| +
                (if HoldsRef(s', h) then 1 else 0) - (if HoldsRef(s, h) then 1 else 0)
  {
    var before, after := RefHolders(s, q), RefHolders(s', q);
    if q == s.handles[h].proc {
      assert after == if HoldsRef(s', h) then (after - {h}) + {h} else after - {h};
      assert before == if HoldsRef(s, h) then (before - {h}) + {h} else before - {h};
    } else {
      assert after == after - {h};
      assert before == before - {h};
    }
  }

  // One handle takes or gives up a reference, or does neither.
  lemma RefsCounted(s: Sys, s': Sys, h: HandleId)
    requires RefsOk(s) && h in s.handles && s'.handles.Keys == s.handles.Keys
    requires forall k :: k in s.handles ==> s'.handles[k].proc == s.handles[k].proc
    requires forall p :: RefHolders(s', p) - {h} == RefHolders(s, p) - {h}
    requires var p := s.handles[h].proc;
             var e' := if HoldsRef(s', h) == HoldsRef(s, h) then EntryOf(s, p)
                       else if HoldsRef(s', h) then EntryOf(s', p)
                       else Dropped(EntryOf(s, p));
             && s'.table == SetEntry(s.table, p, e')
             && (HoldsRef(s', h) && !HoldsRef(s, h) ==>
                   e'.Some? && e'.value.refs == if p in s.table then s.table[p].refs + 1 else 1)
    ensures RefsOk(s')
  {
    var p := s.handles[h].proc;
    if p !in s.table {
      assert RefHolders(s, p) == {};
    }
    forall q | q in s'.table ensures s'.table[q].refs == |RefHolders(s', q)| && s'.table[q].refs > 0 {
      OtherHolders(s, s', h, q);
    }
    forall k | k in s'.handles && HoldsRef(s', k) ensures s'.handles[k].proc in s'.table {
      var q := s.handles[k].proc;
      OtherHolders(s, s', h, q);
      assert k in RefHolders(s', q);
      if q != p {
        assert k in RefHolders(s, q);
      }
    }
  }

  lemma MoveKeepsInv(s: Sys, t: OpId, act: Act)
    requires Inv(s) && Known(s, t) && CanMove(Get(s, t), act)
    ensures Inv(Put(s, t, Moved(Get(s, t), t, act)))
  {
    var v := Get(s, t);
    var fired := FiredOf(s, t);
    ViewIsOk(s, t);
    MoveRecordsLocal(v, t, act, fired);
    MoveWaitLocal(v, t, act, fired);
    MoveLockLocal(v, t, act, fired);
    MoveRefsLocal(v, t, act, fired);
    RecordsPut(s, t, Moved(v, t, act));
    WaitPut(s, t, Moved(v, t, act));
    LockPut(s, t, Moved(v, t, act));
    RefsPut(s, t, Moved(v, t, act));
  }

  // ---------- the other steps ----------

  // A region of h that no operation takes part in.
  lemma HandleStepRecords(s: Sys, h: HandleId, core: Core, fired: nat, dropped: bool)
    requires RecordsOk(s) && h in s.handles
    requires dropped ==> s.handles[h].holder.None?
    requires var r := s.handles[h];
             && CoreOk(core, fired, r.holder.None?, r.lastArm, r.idle, s.now)
             && core.db == (r.core.db && !dropped)
    ensures RecordsOk(PutHandle(s, h, core, fired, dropped))
  {
    var s' := PutHandle(s, h, core, fired, dropped);
    assert HandleOk(s, h);
    forall u | u in s'.ops ensures OpOk(s', u) {
      assert OpOk(s, u);
    }
    forall k | k in s'.handles ensures HandleOk(s', k) {
      assert HandleOk(s, k);
    }
  }

  lemma HandleStepKeepsInv(s: Sys, h: HandleId, core: Core, fired: nat, dropped: bool)
    requires Inv(s) && h in s.handles
    requires dropped ==> s.handles[h].holder.None? && s.handles[h].core.db
    requires var r := s.handles[h];
             && CoreOk(core, fired, r.holder.None?, r.lastArm, r.idle, s.now)
             && core.db == (r.core.db && !dropped)
    ensures Inv(PutHandle(s, h, core, fired, dropped))
  {
    HandleStepRecords(s, h, core, fired, dropped);
    HandleStepLock(s, h, core, fired, dropped);
    HandleStepRefs(s, h, core, fired, dropped);
  }

  lemma HandleStepLock(s: Sys, h: HandleId, core: Core, fired: nat, dropped: bool)
    requires LockOk(s) && h in s.handles
    ensures LockOk(PutHandle(s, h, core, fired, dropped))
  {
    var s' := PutHandle(s, h, core, fired, dropped);
    var p := s.handles[h].proc;
    forall q | q in s'.table ensures EntryOk(s', q) {
      assert EntryOk(s, q);
    }
    if p in s.table {
      assert EntryOk(s, p);
    }
    if s'.lockOwner.Some? && !OwnsLock(s.ops[s.lockOwner.value.op].pc) {
      var q :| q in s.table;
      assert EntryOk(s, q);
      assert q in s'.table;
    }
  }

  lemma HandleStepRefs(s: Sys, h: HandleId, core: Core, fired: nat, dropped: bool)
    requires RefsOk(s) && h in s.handles
    requires dropped ==> s.handles[h].holder.None? && s.handles[h].core.db
    requires core.db == (s.handles[h].core.db && !dropped)
    ensures RefsOk(PutHandle(s, h, core, fired, dropped))
  {
    var s' := PutHandle(s, h, core, fired, dropped);
    forall k | k in s.handles && k != h ensures HoldsRef(s', k) == HoldsRef(s, k) {}
    assert HoldsRef(s', h) == (HoldsRef(s, h) && !dropped);
    assert forall p :: RefHolders(s', p) - {h} == RefHolders(s, p) - {h};
    RefsCounted(s, s', h);
  }

  lemma NewRecords(s: Sys, st: Step)
    requires RecordsOk(s) && Enabled(s, st) && (st.Tick? || st.NewHandle? || st.StartDo? || st.StartFence?)
    ensures RecordsOk(Apply(s, st))
  {
    var s' := Apply(s, st);
    forall u | u in s'.ops ensures OpOk(s', u) {
      assert u in s.ops ==> OpOk(s, u);
    }
    forall k | k in s'.handles ensures HandleOk(s', k) {
      assert k in s.handles ==> HandleOk(s, k);
    }
  }

  lemma NewLock(s: Sys, st: Step)
    requires WaitOk(s) && LockOk(s) && Enabled(s, st) && (st.Tick? || st.NewHandle? || st.StartDo? || st.StartFence?)
    ensures WaitOk(Apply(s, st)) && LockOk(Apply(s, st))
  {
    var s' := Apply(s, st);
    forall p | p in s'.table ensures EntryOk(s', p) {
      assert EntryOk(s, p);
    }
  }

  lemma NewRefs(s: Sys, st: Step)
    requires RecordsOk(s) && RefsOk(s) && Enabled(s, st) && (st.Tick? || st.NewHandle? || st.StartDo? || st.StartFence?)
    ensures RefsOk(Apply(s, st))
  {
    var s' := Apply(s, st);
    forall k | k in s.handles ensures HoldsRef(s', k) == HoldsRef(s, k) {
      assert HandleOk(s, k);
    }
    forall p ensures RefHolders(s', p) == RefHolders(s, p) {}
  }

  lemma CloseKeepsInv(s: Sys, h: HandleId)
    requires Inv(s) && Enabled(s, Close(h))
    ensures Inv(Apply(s, Close(h)))
  {
    assert HandleOk(s, h);
    var r := s.handles[h];
    HandleStepKeepsInv(s, h, ShutDown(r.core.(closed := true)), r.fired, r.core.db);
  }

  lemma FireKeepsInv(s: Sys, h: HandleId)
    requires Inv(s) && Enabled(s, Fire(h))
    ensures Inv(Apply(s, Fire(h)))
  {
    assert HandleOk(s, h);
    var r := s.handles[h];
    HandleStepKeepsInv(s, h, r.core.(timer := Idle), r.fired + 1, false);
  }

  lemma WakeKeepsInv(s: Sys, h: HandleId)
    requires Inv(s) && Enabled(s, Wake(h))
    ensures Inv(Apply(s, Wake(h)))
  {
    assert HandleOk(s, h);
    var r := s.handles[h];
    HandleStepKeepsInv(s, h, AfterWake(r.core), r.fired - 1, r.core.db && !IdleStops(r.core));
  }

  lemma StepKeepsInv(s: Sys, st: Step)
    requires Inv(s) && Enabled(s, st)
    ensures Inv(Apply(s, st))
  {
    match st
    case Move(t, act) => MoveKeepsInv(s, t, act);
    case Close(h) => CloseKeepsInv(s, h);
    case Fire(h) => FireKeepsInv(s, h);
    case Wake(h) => WakeKeepsInv(s, h);
    case _ =>
      NewRecords(s, st);
      NewLock(s, st);
      NewRefs(s, st);
  }

  lemma {:induction false} RunKeepsInv(trace: seq<Sys>, steps: seq<Step>, n: nat)
    requires IsRun(trace, steps) && Inv(trace[0]) && n <= |steps|
    ensures Inv(trace[n])
  {
    if n > 0 {
      RunKeepsInv(trace, steps, n - 1);
      assert StepAt(trace, steps, n - 1);
      StepKeepsInv(trace[n - 1], steps[n - 1]);
    }
  }

  lemma ReachableOk(s: Sys)
    requires Reachable(s)
    ensures Inv(s)
  {
    var trace, steps :| IsRun(trace, steps) && trace[0] == INITIAL && trace[|steps|] == s;
    RunKeepsInv(trace, steps, |steps|);
  }
}
