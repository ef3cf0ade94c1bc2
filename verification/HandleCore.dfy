/**
  The fields a duckdb.Handle guards with its mutex, and what each
  mutex-protected region does to them (internal/duckdb/handle.go).

  The functions describe the regions on values; the class Handle performs them
  on fields in place, as the program does, and is proved equal to them.  The
  transition system in LockProtocol is built from the same functions.
 */
module HandleCore {
  import opened Util

  // gen and armed are uint64.
  const GEN_LIMIT: int := 0x1_0000_0000_0000_0000

  // *time.Timer: nil, not counting (stopped or already fired), or counting.
  datatype Timer = Unset | Idle | Counting(deadline: int)

  datatype Core = Core(
    db: bool,
    timer: Timer,
    gen: int,
    armed: int,
    pending: int,
    closed: bool
  )

  const NEW_CORE := Core(false, Unset, 0, 0, 0, false)

  // Timer.Stop and Timer.Reset report whether the timer was still counting.
  function Disarmed(c: Core): Core {
    var stopped := c.(gen := (c.gen + 1) % GEN_LIMIT);
    if c.timer.Counting? then stopped.(timer := Idle, pending := c.pending - 1) else stopped
  }

  function ArmedUntil(c: Core, deadline: int): Core {
    var counting := c.(armed := c.gen, timer := Counting(deadline));
    if c.timer.Counting? then counting else counting.(pending := c.pending + 1)
  }

  // shutLocked also drops one lock reference, exactly when c.db held.
  function ShutDown(c: Core): Core {
    Disarmed(c).(db := false)
  }

  predicate IdleStops(c: Core) {
    c.pending - 1 > 0 || c.closed || c.gen != c.armed
  }

  function AfterWake(c: Core): Core {
    var arrived := c.(pending := c.pending - 1);
    if IdleStops(c) then arrived else ShutDown(arrived)
  }

  // What one process knows of its own hold on a lock file.
  datatype Entry<!F> = Entry(f: F, refs: int)

  // The first table check of acquire, the second one, and release, for one key.
  function Joined<F>(e: Entry<F>): Entry<F> {
    e.(refs := e.refs + 1)
  }

  function Dropped<F>(e: Option<Entry<F>>): Option<Entry<F>> {
    if e.None? || e.value.refs - 1 <= 0 then None else Some(e.value.(refs := e.value.refs - 1))
  }

  // An advisory lock on one file: at most one descriptor owns it.  Only a
  // try that finds it free succeeds, and unlocking a descriptor that does not
  // own it changes nothing.
  function AfterTry<F(==)>(owner: Option<F>, f: F): Option<F> {
    if owner.None? then Some(f) else owner
  }

  function AfterUnlock<F(==)>(owner: Option<F>, f: F): Option<F> {
    if owner == Some(f) then None else owner
  }

  // What one look at a lock says, and how the system call behind it ends.
  datatype Try = Free | Busy | Broken

  datatype Answer = Answered | Interrupted | Refused

  class LockFile<F(==)> {
    var owner: Option<F>

    constructor ()
      ensures owner == None
    {
      owner := None;
    }

    // An interrupted try reads as busy; any other error is one.
    method TryLock(f: F, answer: Answer) returns (try: Try)
      modifies this
      ensures owner == if answer.Answered? then AfterTry(old(owner), f) else old(owner)
      ensures try.Free? <==> answer.Answered? && (old(owner).None? || old(owner) == Some(f))
      ensures try.Broken? <==> answer.Refused?
      ensures owner == if try.Free? then Some(f) else old(owner)
    {
      match answer
      case Interrupted =>
        return Busy;
      case Refused =>
        return Broken;
      case Answered =>
        if owner.None? || owner == Some(f) {
          owner := Some(f);
          return Free;
        }
        return Busy;
    }

    method Unlock(f: F)
      modifies this
      ensures owner == AfterUnlock(old(owner), f)
      ensures old(owner) == Some(f) ==> owner == None
      ensures old(owner) != Some(f) ==> owner == old(owner)
    {
      if owner == Some(f) {
        owner := None;
      }
    }
  }

  // ---------- waiting for an advisory lock ----------

  // One turn of the polling loop: what the try said, the clock after it, and
  // whether the context was cancelled during the pause.
  datatype Poll = Poll(try: Try, now: int, cancelled: bool)

  datatype Waited = Got | TimedOut | Cancelled | TryFailed | StillWaiting

  predicate KeepsWaiting(p: Poll, deadline: int) {
    p.try.Busy? && p.now < deadline && !p.cancelled
  }

  /** waitLock always tries at least once, even when the time is up already, and
      gives the lock up only for an error, a cancelled context or a try that was
      busy at or after the deadline; every try before the last one was busy. */
  method WaitLock(deadline: int, polls: seq<Poll>) returns (result: Waited, tries: nat)
    ensures tries <= |polls|
    ensures forall k :: 0 <= k < tries - 1 ==> KeepsWaiting(polls[k], deadline)
    ensures result.StillWaiting? ==> tries == |polls| && forall k :: 0 <= k < tries ==> KeepsWaiting(polls[k], deadline)
    ensures !result.StillWaiting? ==> tries > 0 && !KeepsWaiting(polls[tries - 1], deadline)
    ensures tries > 0 ==> var last := polls[tries - 1];
              && (result.Got? <==> last.try.Free?)
              && (result.TryFailed? <==> last.try.Broken?)
              && (result.TimedOut? <==> last.try.Busy? && deadline <= last.now)
  {
    tries := 0;
    while tries < |polls|
      invariant tries <= |polls|
      invariant forall k :: 0 <= k < tries ==> KeepsWaiting(polls[k], deadline)
    {
      var poll := polls[tries];
      tries := tries + 1;
      if poll.try.Broken? { return TryFailed, tries; }
      if poll.try.Free? { return Got, tries; }
      if poll.now >= deadline { return TimedOut, tries; }
      if poll.cancelled { return Cancelled, tries; }
    }
    return StillWaiting, tries;
  }

  // The entry of locks.m for one database, with the lock file it refers to.
  class LockTable<F(==)> {
    var entry: Option<Entry<F>>
    const lockFile: LockFile<F>

    constructor (file: LockFile<F>)
      ensures entry == None && lockFile == file
    {
      entry := None;
      lockFile := file;
    }

    method Join() returns (found: bool)
      modifies this
      ensures found == old(entry).Some?
      ensures entry == if found then Some(Joined(old(entry).value)) else None
      ensures found ==> entry == Some(Entry(old(entry).value.f, old(entry).value.refs + 1))
    {
      found := entry.Some?;
      if found {
        entry := Some(Entry(entry.value.f, entry.value.refs + 1));
      }
    }

    // acquire after flockSidecar returned f.
    method Register(f: F)
      modifies this, lockFile
      ensures old(entry).Some? ==>
                entry == Some(Joined(old(entry).value)) && lockFile.owner == AfterUnlock(old(lockFile.owner), f)
      ensures old(entry).None? ==> entry == Some(Entry(f, 1)) && lockFile.owner == old(lockFile.owner)
    {
      var found := Join();
      if found {
        lockFile.Unlock(f);
      } else {
        entry := Some(Entry(f, 1));
      }
    }

    method Release()
      modifies this, lockFile
      ensures entry == Dropped(old(entry))
      ensures lockFile.owner ==
              if old(entry).Some? && entry.None?
              then AfterUnlock(old(lockFile.owner), old(entry).value.f) else old(lockFile.owner)
      ensures old(entry).Some? && old(entry).value.refs > 1 ==>
                && entry == Some(Entry(old(entry).value.f, old(entry).value.refs - 1))
                && lockFile.owner == old(lockFile.owner)
      ensures old(entry).Some? && old(entry).value.refs == 1 ==>
                entry == None && lockFile.owner != Some(old(entry).value.f)
    {
      if entry.None? {
        return;
      }
      var e := entry.value;
      e := Entry(e.f, e.refs - 1);
      entry := Some(e);
      if e.refs > 0 {
        return;
      }
      entry := None;
      lockFile.Unlock(e.f);
    }
  }

  class Handle<F(==)> {
    const locks: LockTable<F>
    const idle: int
    var db: bool
    var timer: Timer
    var gen: int
    var armed: int
    var pending: int
    var closed: bool

    ghost function Fields(): Core
      reads this
    {
      Core(db, timer, gen, armed, pending, closed)
    }

    // The footprint of a region that may drop a lock reference.
    ghost function Footprint(): set<object> {
      {this, locks, locks.lockFile}
    }

    // The lock reference goes exactly when an open database is shut.
    twostate predicate ReleasedIf(dropped: bool)
      reads locks, locks.lockFile
    {
      if dropped then
        && locks.entry == Dropped(old(locks.entry))
        && locks.lockFile.owner ==
           (if old(locks.entry).Some? && locks.entry.None?
            then AfterUnlock(old(locks.lockFile.owner), old(locks.entry).value.f) else old(locks.lockFile.owner))
      else
        locks.entry == old(locks.entry) && locks.lockFile.owner == old(locks.lockFile.owner)
    }

    constructor (table: LockTable<F>, window: int)
      ensures Fields() == NEW_CORE && locks == table && idle == window
    {
      locks, idle := table, window;
      db, timer, gen, armed, pending, closed := false, Unset, 0, 0, 0, false;
    }

    method Disarm()
      modifies this
      ensures Fields() == Disarmed(old(Fields()))
      ensures gen == (old(gen) + 1) % 0x1_0000_0000_0000_0000 && !timer.Counting?
      ensures pending == if old(timer).Counting? then old(pending) - 1 else old(pending)
      ensures db == old(db) && closed == old(closed) && armed == old(armed)
    {
      gen := (gen + 1) % GEN_LIMIT;
      if timer.Counting? {
        timer := Idle;
        pending := pending - 1;
      }
    }

    method Arm(now: int)
      modifies this
      ensures Fields() == ArmedUntil(old(Fields()), now + idle)
      ensures armed == gen == old(gen) && timer == Counting(now + idle)
      ensures pending == if old(timer).Counting? then old(pending) else old(pending) + 1
      ensures db == old(db) && closed == old(closed)
    {
      armed := gen;
      var active := timer.Counting?;
      timer := Counting(now + idle);
      if !active {
        pending := pending + 1;
      }
    }

    method ShutLocked()
      modifies Footprint()
      ensures Fields() == ShutDown(old(Fields()))
      ensures ReleasedIf(old(db))
      ensures !db && !timer.Counting? && closed == old(closed)
      ensures gen == (old(gen) + 1) % 0x1_0000_0000_0000_0000 && armed == old(armed)
    {
      Disarm();
      if !db {
        return;
      }
      db := false;
      locks.Release();
    }

    // Do up to the demand check.
    method Enter() returns (refused: bool)
      modifies this
      ensures refused == old(closed)
      ensures db == old(db) && closed == old(closed) && (!refused ==> !timer.Counting?)
      ensures Fields() == if refused then old(Fields()) else Disarmed(old(Fields()))
    {
      if closed {
        return true;
      }
      Disarm();
      return false;
    }

    // yieldLocked once it has the mutex back; whatever happened meanwhile, a
    // closed handle is refused before the context is looked at.
    method Resume(cancelled: bool) returns (refused: bool)
      modifies this
      ensures refused <==> old(closed) || cancelled
      ensures db == old(db) && closed == old(closed) && (!refused ==> !timer.Counting?)
      ensures Fields() == if refused then old(Fields()) else Disarmed(old(Fields()))
    {
      if closed {
        return true;
      }
      if cancelled {
        return true;
      }
      Disarm();
      return false;
    }

    // acquire: f is the descriptor flockSidecar would lock, here on its last try.
    method Acquire(f: F) returns (ok: bool)
      requires locks.lockFile.owner != Some(f)
      modifies locks, locks.lockFile
      ensures ok <==> old(locks.entry).Some? || old(locks.lockFile.owner).None?
      ensures !ok ==> locks.entry == old(locks.entry) && locks.lockFile.owner == old(locks.lockFile.owner)
      ensures ok && old(locks.entry).Some? ==>
                locks.entry == Some(Joined(old(locks.entry).value)) && locks.lockFile.owner == old(locks.lockFile.owner)
      ensures ok && old(locks.entry).None? ==> locks.entry == Some(Entry(f, 1)) && locks.lockFile.owner == Some(f)
    {
      var found := locks.Join();
      if found {
        return true;
      }
      var got := locks.lockFile.TryLock(f, Answered);
      if !got.Free? {
        return false;
      }
      locks.Register(f);
      return true;
    }

    /** A failed open leaves no reference and no lock behind, whether it was the
        lock or the database that could not be had. */
    method OpenLocked(f: F, openOk: bool) returns (ok: bool)
      requires !db && locks.lockFile.owner != Some(f)
      requires locks.entry.Some? ==> locks.entry.value.refs >= 1
      modifies Footprint()
      ensures ok <==> openOk && (old(locks.entry).Some? || old(locks.lockFile.owner).None?)
      ensures Fields() == old(Fields()).(db := ok)
      ensures !ok ==> locks.entry == old(locks.entry) && locks.lockFile.owner == old(locks.lockFile.owner)
      ensures ok ==> locks.entry == Some(if old(locks.entry).Some? then Joined(old(locks.entry).value) else Entry(f, 1))
      ensures ok ==> locks.lockFile.owner == if old(locks.entry).Some? then old(locks.lockFile.owner) else Some(f)
    {
      ok := Acquire(f);
      if !ok {
        return;
      }
      if !openOk {
        locks.Release();
        return false;
      }
      db := true;
    }

    method Close()
      modifies Footprint()
      ensures Fields() == ShutDown(old(Fields()).(closed := true))
      ensures ReleasedIf(old(db))
      ensures closed && !db && !timer.Counting?
    {
      closed := true;
      ShutLocked();
    }

    method OnIdle()
      modifies Footprint()
      ensures Fields() == AfterWake(old(Fields()))
      ensures ReleasedIf(old(db) && !IdleStops(old(Fields())))
      ensures old(pending) > 1 || old(closed) || old(gen) != old(armed) ==>
                db == old(db) && pending == old(pending) - 1 && timer == old(timer) && gen == old(gen)
      ensures old(pending) <= 1 && !old(closed) && old(gen) == old(armed) ==> !db && !timer.Counting?
    {
      pending := pending - 1;
      if pending > 0 || closed || gen != armed {
        return;
      }
      ShutLocked();
    }
  }
}
