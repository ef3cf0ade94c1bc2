/**
  Any number of processes, handles, operations and fences around one database
  file, as a transition system (internal/duckdb/handle.go).

  Every mutex-protected region, every attempt at an advisory lock, every
  unlock, timer expiry and wakeup is a step of its own, and any enabled step
  may come next.  A descriptor is named by the operation that opened it and
  what it opened it for: an operation opens each side file at most once for
  each purpose.
 */
module LockProtocol {
  import opened Util
  import opened HandleCore

  type OpId = nat
  type HandleId = nat
  type Proc = nat

  datatype Fd = ProbeFd(op: OpId) | WantFd(op: OpId) | LockFd(op: OpId)

  // A Handle.Do call on h, or an AcquireLock ... Release pair.
  datatype Caller = Do(h: HandleId) | Fence

  datatype Pc =
    | Begin                 // Do: about to lock h.mu
    | Probe                 // wanted: .wait is open, not tried yet
    | ProbeHeld             // wanted: tryLock succeeded, not unlocked yet
    | Decide(wanted: bool)  // wanted returned
    | Handed                // shutLocked is done, h.mu still held
    | Yielding              // yieldLocked: h.mu released
    | Ready                 // about to test h.db == nil
    | Queue                 // flockSidecar: waiting for .wait
    | Head                  // flockSidecar: owns .wait, waiting for .lock
    | Leaving(got: bool)    // flockSidecar: about to unlock .wait
    | Register              // acquire: owns .lock, before the second table check
    | Opening               // acquire returned nil, Open is running
    | Running               // fn is running
    | Failing               // about to return an error
    | Held                  // the fence is up
    | Done

  datatype Op = Op(who: Caller, pc: Pc)

  // holder is the operation that has h.mu; fired counts wakeups on their way.
  // lastArm is when the last operation armed the timer.
  datatype HandleRec = HandleRec(
    proc: Proc, idle: nat, core: Core, holder: Option<OpId>, fired: nat, lastArm: int)

  datatype Sys = Sys(
    now: int,
    waitOwner: Option<Fd>,
    lockOwner: Option<Fd>,
    table: map<Proc, Entry<Fd>>,
    handles: map<HandleId, HandleRec>,
    ops: map<OpId, Op>
  )

  const DEFAULT_IDLE: nat := 250_000_000  // nanoseconds

  // NewHandle never leaves a window that is not positive.
  function IdleWindow(idle: int): (r: nat)
    ensures r == if idle > 0 then idle else 250_000_000
  {
    if idle <= 0 then DEFAULT_IDLE else idle
  }

  const INITIAL := Sys(0, None, None, map[], map[], map[])

  // ---------- what one operation sees and changes ----------

  // The operation's own position, its handle's mutex and fields, its process's
  // table entry, and the two lock files.  A fence has no handle.
  datatype View = View(
    who: Caller,
    pc: Pc,
    mutex: Option<OpId>,
    core: Core,
    idle: nat,
    lastArm: int,
    entry: Option<Entry<Fd>>,
    wait: Option<Fd>,
    lock: Option<Fd>,
    now: int
  )

  predicate Known(s: Sys, t: OpId) {
    t in s.ops && (s.ops[t].who.Do? ==> s.ops[t].who.h in s.handles)
  }

  function EntryOf(s: Sys, p: Proc): Option<Entry<Fd>> {
    if p in s.table then Some(s.table[p]) else None
  }

  function SetEntry(m: map<Proc, Entry<Fd>>, p: Proc, e: Option<Entry<Fd>>): map<Proc, Entry<Fd>> {
    if e.Some? then m[p := e.value] else m - {p}
  }

  function Get(s: Sys, t: OpId): View
    requires Known(s, t)
  {
    var op := s.ops[t];
    match op.who
    case Do(h) =>
      var r := s.handles[h];
      View(op.who, op.pc, r.holder, r.core, r.idle, r.lastArm, EntryOf(s, r.proc), s.waitOwner, s.lockOwner, s.now)
    case Fence => View(op.who, op.pc, None, NEW_CORE, 0, 0, None, s.waitOwner, s.lockOwner, s.now)
  }

  function Put(s: Sys, t: OpId, v: View): Sys
    requires Known(s, t)
  {
    var op := s.ops[t];
    var s1 := s.(ops := s.ops[t := op.(pc := v.pc)], waitOwner := v.wait, lockOwner := v.lock);
    match op.who
    case Fence => s1
    case Do(h) =>
      var r := s.handles[h];
      s1.(handles := s.handles[h := r.(core := v.core, holder := v.mutex, lastArm := v.lastArm)],
          table := SetEntry(s.table, r.proc, v.entry))
  }

  // What an operation can do next.
  datatype Act =
    | Enter        // lock h.mu, up to the demand check
    | ProbeTry     // wanted: try .wait
    | ProbeBusy    // wanted: the try was interrupted, which reads as busy
    | ProbeError   // wanted: opening or trying .wait failed
    | ProbeUnlock
    | HandOff      // wanted, or open for longer than maxHold: shutLocked
    | KeepOpen
    | DropMutex    // yieldLocked releases h.mu
    | Resume       // yieldLocked takes it again
    | Cancel       // yieldLocked takes it again with the context cancelled
    | Check        // h.db == nil, and the first table check of acquire
    | QueueTry     // flockSidecar gets .wait
    | QueueGiveUp
    | LockTry      // flockSidecar gets .lock
    | LockGiveUp
    | Leave        // flockSidecar unlocks .wait
    | Enlist       // the second table check of acquire
    | OpenOk
    | OpenError
    | Fail         // return the error
    | Finish       // fn returned: arm, unlock h.mu
    | Lower        // Lock.Release

  datatype Step =
    | Tick(dt: nat)
    | NewHandle(h: HandleId, p: Proc, idle: int)
    | StartDo(t: OpId, h: HandleId)
    | StartFence(t: OpId)
    | Move(t: OpId, act: Act)
    | Close(h: HandleId)
    | Fire(h: HandleId)
    | Wake(h: HandleId)

  predicate CanMove(v: View, act: Act) {
    match act
    case Enter => v.who.Do? && v.pc.Begin? && v.mutex.None?
    case ProbeTry => v.pc.Probe?
    case ProbeBusy => v.pc.Probe?
    case ProbeError => v.pc.Probe?
    case ProbeUnlock => v.pc.ProbeHeld?
    case HandOff => v.pc.Decide?
    case KeepOpen => v.pc == Decide(false)
    case DropMutex => v.pc.Handed?
    case Resume => v.pc.Yielding? && v.mutex.None?
    case Cancel => v.pc.Yielding? && v.mutex.None?
    case Check => v.pc.Ready?
    case QueueTry => v.pc.Queue? && v.wait.None?
    case QueueGiveUp => v.pc.Queue?
    case LockTry => v.pc.Head? && v.lock.None?
    case LockGiveUp => v.pc.Head?
    case Leave => v.pc.Leaving?
    case Enlist => v.pc.Register?
    case OpenOk => v.pc.Opening?
    case OpenError => v.pc.Opening?
    case Fail => v.pc.Failing?
    case Finish => v.pc.Running?
    case Lower => v.pc.Held?
  }

  // release
  function Released(v: View): View {
    if v.entry.None? then v
    else
      var e := Dropped(v.entry);
      v.(entry := e, lock := if e.None? then AfterUnlock(v.lock, v.entry.value.f) else v.lock)
  }

  // shutLocked
  function ShutView(v: View): View {
    var shut := v.(core := ShutDown(v.core));
    if v.core.db then Released(shut) else shut
  }

  function Moved(v: View, t: OpId, act: Act): View
    requires CanMove(v, act)
  {
    match act
    case Enter =>
      if v.core.closed then v.(pc := Done)
      else v.(pc := if v.core.db then Probe else Ready, core := Disarmed(v.core), mutex := Some(t))
    case ProbeTry =>
      if v.wait.None? then v.(pc := ProbeHeld, wait := AfterTry(v.wait, ProbeFd(t)))
      else v.(pc := Decide(true))
    case ProbeBusy => v.(pc := Decide(true))
    case ProbeError => v.(pc := Decide(false))
    case ProbeUnlock => v.(pc := Decide(false), wait := AfterUnlock(v.wait, ProbeFd(t)))
    case HandOff => ShutView(v).(pc := Handed)
    case KeepOpen => v.(pc := Ready)
    case DropMutex => v.(pc := Yielding, mutex := None)
    case Resume =>
      if v.core.closed then v.(pc := Done)
      else v.(pc := Ready, core := Disarmed(v.core), mutex := Some(t))
    case Cancel => v.(pc := Done)
    case Check =>
      if v.core.db then v.(pc := Running)
      else if v.entry.Some? then v.(pc := Opening, entry := Some(Joined(v.entry.value)))
      else v.(pc := Queue)
    case QueueTry => v.(pc := Head, wait := AfterTry(v.wait, WantFd(t)))
    case QueueGiveUp => v.(pc := Failing)
    case LockTry => v.(pc := Leaving(true), lock := AfterTry(v.lock, LockFd(t)))
    case LockGiveUp => v.(pc := Leaving(false))
    case Leave =>
      v.(pc := if !v.pc.got then Failing else if v.who.Do? then Register else Held,
         wait := AfterUnlock(v.wait, WantFd(t)))
    case Enlist =>
      if v.entry.Some? then
        v.(pc := Opening, entry := Some(Joined(v.entry.value)), lock := AfterUnlock(v.lock, LockFd(t)))
      else v.(pc := Opening, entry := Some(Entry(LockFd(t), 1)))
    case OpenOk => v.(pc := Running, core := v.core.(db := true))
    case OpenError => Released(v).(pc := Failing)
    case Fail => v.(pc := Done, mutex := None)
    case Finish => v.(pc := Done, core := ArmedUntil(v.core, v.now + v.idle), mutex := None, lastArm := v.now)
    case Lower => v.(pc := Done, lock := AfterUnlock(v.lock, LockFd(t)))
  }

  // ---------- the whole system ----------

  predicate MutexFree(s: Sys, h: HandleId) {
    h in s.handles && s.handles[h].holder.None?
  }

  predicate Enabled(s: Sys, st: Step) {
    match st
    case Tick(_) => true
    case NewHandle(h, _, _) => h !in s.handles
    case StartDo(t, h) => t !in s.ops && h in s.handles
    case StartFence(t) => t !in s.ops
    case Move(t, act) => Known(s, t) && CanMove(Get(s, t), act)
    case Close(h) => MutexFree(s, h)
    case Fire(h) => h in s.handles && s.handles[h].core.timer.Counting? && s.handles[h].core.timer.deadline <= s.now
    case Wake(h) => MutexFree(s, h) && s.handles[h].fired > 0
  }

  // A region of h that no operation takes part in, which may drop a reference.
  function PutHandle(s: Sys, h: HandleId, core: Core, fired: nat, dropped: bool): Sys
    requires h in s.handles
  {
    var r := s.handles[h];
    var e := EntryOf(s, r.proc);
    var s1 := s.(handles := s.handles[h := r.(core := core, fired := fired)]);
    if !dropped || e.None? then s1
    else s1.(table := SetEntry(s.table, r.proc, Dropped(e)),
             lockOwner := if Dropped(e).None? then AfterUnlock(s.lockOwner, e.value.f) else s.lockOwner)
  }

  function Apply(s: Sys, st: Step): Sys
    requires Enabled(s, st)
  {
    match st
    case Tick(dt) => s.(now := s.now + dt)
    case NewHandle(h, p, idle) => s.(handles := s.handles[h := HandleRec(p, IdleWindow(idle), NEW_CORE, None, 0, 0)])
    case StartDo(t, h) => s.(ops := s.ops[t := Op(Do(h), Begin)])
    case StartFence(t) => s.(ops := s.ops[t := Op(Fence, Queue)])
    case Move(t, act) => Put(s, t, Moved(Get(s, t), t, act))
    case Close(h) =>
      var r := s.handles[h];
      PutHandle(s, h, ShutDown(r.core.(closed := true)), r.fired, r.core.db)
    case Fire(h) =>
      var r := s.handles[h];
      PutHandle(s, h, r.core.(timer := Idle), r.fired + 1, false)
    case Wake(h) =>
      var r := s.handles[h];
      PutHandle(s, h, AfterWake(r.core), r.fired - 1, r.core.db && !IdleStops(r.core))
  }

  ghost predicate StepAt(trace: seq<Sys>, steps: seq<Step>, i: nat)
    requires i < |steps| < |trace|
  {
    Enabled(trace[i], steps[i]) && trace[i + 1] == Apply(trace[i], steps[i])
  }

  // A run: the states it passes through and the steps between them.
  ghost predicate IsRun(trace: seq<Sys>, steps: seq<Step>) {
    |trace| == |steps| + 1 && forall i: nat :: i < |steps| ==> StepAt(trace, steps, i)
  }

  ghost predicate Reachable(s: Sys) {
    exists trace, steps :: IsRun(trace, steps) && trace[0] == INITIAL && trace[|steps|] == s
  }
}
