/**
  The job scheduler (schedule/schedule.go): one goroutine visits the jobs in
  turn, sleeps until the next stored time and starts over.  Times and durations
  are nanoseconds; what Next and Run answer, the clock and the cancelling of the
  context are inputs.
 */
module Scheduler {
  import opened Util

  const SECOND := 1_000_000_000
  const MAX_SCHEDULE_BACKOFF := 300 * SECOND
  const MAX_SCHEDULE_FAILS := 64
  const INT64_MAX := 0x7fff_ffff_ffff_ffff

  type Time = int

  // at is None for the zero time.
  datatype JobState = JobState(fails: nat, at: Option<Time>)

  // Whether the two functions are set.
  datatype Job = Job(next: bool, run: bool) {
    predicate Active() {
      next && run
    }
  }

  datatype Next = NextFails | Due(at: Option<Time>)

  // cancelled: what ctx.Err() says if it is looked at after an error.
  datatype Answer = Answer(next: Next, runOk: bool, cancelled: bool)

  // ---------- backoff ----------

  function Interval(interval: int): (r: int)
    ensures r == if interval > 0 then interval else 1_000_000_000
  {
    if interval <= 0 then SECOND else interval
  }

  function Pow2(n: nat): (r: int)
    ensures r > 0
  {
    if n == 0 then 1 else 2 * Pow2(n - 1)
  }

  lemma {:induction false} Pow2Monotone(a: nat, b: nat)
    requires a <= b
    ensures Pow2(a) <= Pow2(b)
  {
    if a < b {
      Pow2Monotone(a, b - 1);
    }
  }

  lemma Pow2Scales(x: int, a: nat, b: nat)
    requires x > 0 && a <= b
    ensures x * Pow2(a) <= x * Pow2(b)
  {
    Pow2Monotone(a, b);
  }

  // The delay after the k-th failure in a row.
  function Delay(interval: int, k: nat): int
    requires interval > 0 && k > 0
  {
    if interval >= MAX_SCHEDULE_BACKOFF then interval else Min(interval * Pow2(k - 1), MAX_SCHEDULE_BACKOFF)
  }

  /** Doubling until five minutes are reached is doubling for every failure and
      cutting at five minutes, and the doubling never leaves 64 bits. */
  method ScheduleBackoff(interval: int, fails: int) returns (d: int)
    requires interval <= INT64_MAX
    ensures d == Delay(Interval(interval), if fails < 1 then 1 else fails)
    ensures var base := if interval > 0 then interval else 1_000_000_000;
            d == if base >= 300_000_000_000 then base
                 else Min(base * Pow2(if fails < 1 then 0 else fails - 1), 300_000_000_000)
    ensures 0 < d <= Max(Interval(interval), MAX_SCHEDULE_BACKOFF) <= INT64_MAX
  {
    var base := Interval(interval);
    d := base;
    var i := 1;
    while i < fails && d < MAX_SCHEDULE_BACKOFF
      invariant 1 <= i && (i <= fails || i == 1)
      invariant d == base * Pow2(i - 1)
      invariant base <= d && (d == base || d < 2 * MAX_SCHEDULE_BACKOFF)
    {
      assert d * 2 <= INT64_MAX;
      d := d * 2;
      i := i + 1;
      assert d == base * Pow2(i - 1);
    }
    if i < fails {
      Pow2Scales(base, i - 1, fails - 1);
    }
    if d > MAX_SCHEDULE_BACKOFF && base < MAX_SCHEDULE_BACKOFF {
      d := MAX_SCHEDULE_BACKOFF;
    }
  }

  lemma BigPow2(n: nat)
    requires n >= 40
    ensures Pow2(n) > MAX_SCHEDULE_BACKOFF
  {
    Pow2Of40();
    Pow2Monotone(40, n);
  }

  lemma ProductAtLeast(x: int, p: int)
    requires x > 0 && p > 0
    ensures x * p >= p
  {
    assert (x - 1) * p >= 0;
  }

  lemma ManyDoublings(interval: int, n: nat)
    requires interval > 0 && n >= 40
    ensures interval * Pow2(n) > MAX_SCHEDULE_BACKOFF
  {
    BigPow2(n);
    ProductAtLeast(interval, Pow2(n));
  }

  /** The cap on the counter cannot be seen in the delay: 64 doublings of one
      nanosecond are far past five minutes. */
  lemma CapIsUnobservable(interval: int, k: nat)
    requires interval > 0 && k > 0
    ensures Delay(interval, Min(k, MAX_SCHEDULE_FAILS)) == Delay(interval, k)
  {
    if k > MAX_SCHEDULE_FAILS {
      var capped := Min(k, MAX_SCHEDULE_FAILS);
      ManyDoublings(interval, capped - 1);
      ManyDoublings(interval, k - 1);
    }
  }

  lemma Pow2Of40()
    ensures Pow2(40) > MAX_SCHEDULE_BACKOFF
  {
    assert Pow2(10) == 1024;
    Pow2Adds(10, 10);
    Pow2Adds(20, 20);
  }

  lemma {:induction false} Pow2Adds(a: nat, b: nat)
    ensures Pow2(a + b) == Pow2(a) * Pow2(b)
  {
    if b > 0 {
      Pow2Adds(a, b - 1);
    }
  }

  // ---------- one visit to a job ----------

  datatype Visit = Visit(st: JobState, asked: bool, ran: bool, failed: bool, stopped: bool)

  function AfterFailure(st: JobState, interval: int, now: Time): JobState
    requires interval > 0
  {
    var fails := if st.fails < MAX_SCHEDULE_FAILS then st.fails + 1 else st.fails;
    JobState(fails, Some(now + Delay(interval, fails)))
  }

  function VisitJob(job: Job, st: JobState, interval: int, now: Time, a: Answer): Visit
    requires interval > 0
  {
    if !job.Active() || (st.at.Some? && st.at.value > now) then Visit(st, false, false, false, false)
    else match a.next
      case NextFails =>
        if a.cancelled then Visit(st, true, false, true, true)
        else Visit(AfterFailure(st, interval, now), true, false, true, false)
      case Due(at) =>
        if at.Some? && at.value <= now then
          if a.runOk then Visit(JobState(0, Some(now)), true, true, false, false)
          else if a.cancelled then Visit(st, true, true, true, true)
          else Visit(AfterFailure(st, interval, now), true, true, true, false)
        else Visit(JobState(0, if at.None? then Some(now + interval) else at), true, false, false, false)
  }

  // ---------- what a job's whole life amounts to ----------

  // One visit, as the job sees it.
  datatype Seen = Seen(now: Time, answer: Answer)

  const FRESH := JobState(0, None)

  function JobAfter(job: Job, interval: int, seen: seq<Seen>): JobState
    requires interval > 0
  {
    if seen == [] then FRESH
    else
      var n := |seen| - 1;
      VisitJob(job, JobAfter(job, interval, seen[..n]), interval, seen[n].now, seen[n].answer).st
  }

  function VisitAt(job: Job, interval: int, seen: seq<Seen>, n: nat): Visit
    requires interval > 0 && n < |seen|
  {
    VisitJob(job, JobAfter(job, interval, seen[..n]), interval, seen[n].now, seen[n].answer)
  }

  // How many failures the job has had in a row, no longer counting at any cap.
  function FailuresInARow(job: Job, interval: int, seen: seq<Seen>): nat
    requires interval > 0
  {
    if seen == [] then 0
    else
      var n := |seen| - 1;
      var v := VisitAt(job, interval, seen, n);
      var before := FailuresInARow(job, interval, seen[..n]);
      if !v.asked || v.stopped then before else if v.failed then before + 1 else 0
  }

  lemma {:induction false} CounterIsCapped(job: Job, interval: int, seen: seq<Seen>)
    requires interval > 0
    ensures JobAfter(job, interval, seen).fails == Min(FailuresInARow(job, interval, seen), MAX_SCHEDULE_FAILS)
  {
    if seen != [] {
      CounterIsCapped(job, interval, seen[..|seen| - 1]);
    }
  }

  lemma SeenSplits(seen: seq<Seen>, n: nat)
    requires n < |seen|
    ensures seen[..n + 1][..n] == seen[..n]
  {}

  /** After the k-th failure in a row the job is stored for its delay from now,
      min(interval * 2^(k-1), five minutes), whatever came before the row. */
  lemma DelayAfterFailures(job: Job, interval: int, seen: seq<Seen>, n: nat)
    requires interval > 0 && n < |seen|
    ensures var v := VisitAt(job, interval, seen, n);
            var k := FailuresInARow(job, interval, seen[..n + 1]);
            v.failed && !v.stopped ==>
              && k == FailuresInARow(job, interval, seen[..n]) + 1
              && v.st == JobState(Min(k, MAX_SCHEDULE_FAILS), Some(seen[n].now + Delay(interval, k)))
  {
    SeenSplits(seen, n);
    CounterIsCapped(job, interval, seen[..n]);
    CapIsUnobservable(interval, FailuresInARow(job, interval, seen[..n]) + 1);
  }

  // The job's stored time is absent or has come.
  ghost predicate TimeHasCome(st: JobState, now: Time) {
    st.at == None || exists t :: st.at == Some(t) && t <= now
  }

  /** A job is asked exactly when its stored time is absent or has come, and runs
      exactly when it is asked and answers a time that has come. */
  lemma RunsExactlyWhenDue(job: Job, interval: int, seen: seq<Seen>, n: nat)
    requires interval > 0 && n < |seen|
    ensures var v := VisitAt(job, interval, seen, n);
            && (v.asked <==> job.next && job.run && TimeHasCome(JobAfter(job, interval, seen[..n]), seen[n].now))
            && (v.ran <==> v.asked && exists t :: seen[n].answer.next == Due(Some(t)) && t <= seen[n].now)
  {}

  /** What a visit stores: nothing new unless it asked; now after a run that went
      well; a later answer as it is; one interval from now after an answer of no
      time; and otherwise a longer row of failures. */
  lemma StoredExactly(job: Job, interval: int, seen: seq<Seen>, n: nat)
    requires interval > 0 && n < |seen|
    ensures var v, st, x := VisitAt(job, interval, seen, n), JobAfter(job, interval, seen[..n]), seen[n];
            && (!v.asked || v.stopped ==> JobAfter(job, interval, seen[..n + 1]) == st)
            && (v.ran && x.answer.runOk ==> JobAfter(job, interval, seen[..n + 1]) == JobState(0, Some(x.now)))
            && (v.asked && x.answer.next == Due(None) ==>
                  JobAfter(job, interval, seen[..n + 1]) == JobState(0, Some(x.now + interval)))
            && (forall t :: v.asked && x.answer.next == Due(Some(t)) && t > x.now ==>
                  JobAfter(job, interval, seen[..n + 1]) == JobState(0, Some(t)))
            && (v.failed <==> v.asked && (x.answer.next == NextFails || (v.ran && !x.answer.runOk)))
            && (v.stopped <==> v.failed && x.answer.cancelled)
            && (v.failed && !v.stopped ==> JobAfter(job, interval, seen[..n + 1]).fails > 0)
  {
    SeenSplits(seen, n);
  }

  /** Between two visits that asked, the stored time stands: if the one at m
      stored a time and nothing in between asked, the one at n is not before it. */
  lemma {:induction false} NotAskedAgainEarly(job: Job, interval: int, seen: seq<Seen>, m: nat, n: nat)
    requires interval > 0 && m < n < |seen|
    requires forall k: nat :: m < k < n ==> !VisitAt(job, interval, seen, k).asked
    ensures JobAfter(job, interval, seen[..n]) == VisitAt(job, interval, seen, m).st
    ensures var v := VisitAt(job, interval, seen, m);
            VisitAt(job, interval, seen, n).asked && v.st.at.Some? ==> seen[n].now >= v.st.at.value
  {
    if n == m + 1 {
      SeenSplits(seen, m);
    } else {
      NotAskedAgainEarly(job, interval, seen, m, n - 1);
      SeenSplits(seen, n - 1);
      assert !VisitAt(job, interval, seen, n - 1).asked;
    }
  }

  /** A success forgets the failures: the next one counts as the first. */
  lemma SuccessResets(job: Job, interval: int, seen: seq<Seen>, n: nat)
    requires interval > 0 && n < |seen|
    ensures var v := VisitAt(job, interval, seen, n);
            v.asked && !v.failed ==>
              && FailuresInARow(job, interval, seen[..n + 1]) == 0 && v.st.fails == 0 && v.st.at.Some?
              && (v.ran ==> v.st.at == Some(seen[n].now))
              && (!v.ran ==> v.st.at.value > seen[n].now)
  {
    SeenSplits(seen, n);
  }

  // ---------- one cycle ----------

  // b replaces a when earlier; None is the zero time.
  function Earlier(a: Option<Time>, b: Option<Time>): Option<Time> {
    if b.None? then a else if a.None? || b.value < a.value then b else a
  }

  // soonest is the least stored time after now among the first n jobs.
  ghost predicate IsSoonest(jobs: seq<Job>, sts: seq<JobState>, now: Time, n: nat, soonest: Option<Time>)
    requires n <= |jobs| == |sts|
  {
    && (forall i :: 0 <= i < n && jobs[i].Active() && sts[i].at.Some? && sts[i].at.value > now ==>
          soonest.Some? && soonest.value <= sts[i].at.value)
    && (soonest.Some? ==> soonest.value > now && exists i :: 0 <= i < n && jobs[i].Active() && sts[i].at == soonest)
  }

  ghost predicate IsPollSoon(jobs: seq<Job>, sts: seq<JobState>, now: Time, n: nat, pollSoon: bool)
    requires n <= |jobs| == |sts|
  {
    pollSoon <==> exists i :: 0 <= i < n && jobs[i].Active() && sts[i].at.Some? && sts[i].at.value <= now
  }

  // The first n jobs have been visited, each by itself; the others are as before.
  ghost predicate Visited(
    jobs: seq<Job>, was: seq<JobState>, sts: seq<JobState>, interval: int, now: Time, answers: seq<Answer>, n: nat)
    requires interval > 0 && n <= |jobs| == |was| == |sts| == |answers|
  {
    && (forall i :: 0 <= i < n ==> sts[i] == VisitJob(jobs[i], was[i], interval, now, answers[i]).st)
    && (forall i :: n <= i < |jobs| ==> sts[i] == was[i])
  }

  // note(at) for the job just visited.
  lemma NoteOne(jobs: seq<Job>, was: seq<JobState>, sts: seq<JobState>, now: Time, n: nat,
                soonest: Option<Time>, pollSoon: bool)
    requires n < |jobs| == |was| == |sts| && (forall i :: 0 <= i < |jobs| && i != n ==> sts[i] == was[i])
    requires IsSoonest(jobs, was, now, n, soonest) && IsPollSoon(jobs, was, now, n, pollSoon)
    requires jobs[n].Active() ==> sts[n].at.Some?
    ensures var ahead := jobs[n].Active() && sts[n].at.value > now;
            IsSoonest(jobs, sts, now, n + 1, if ahead then Earlier(soonest, sts[n].at) else soonest)
    ensures IsPollSoon(jobs, sts, now, n + 1, pollSoon || (jobs[n].Active() && sts[n].at.value <= now))
  {
    if soonest.Some? {
      var i :| 0 <= i < n && jobs[i].Active() && was[i].at == soonest;
      assert sts[i].at == soonest;
    }
    if pollSoon {
      var i :| 0 <= i < n && jobs[i].Active() && was[i].at.Some? && was[i].at.value <= now;
      assert sts[i] == was[i];
    }
  }

  // ---------- the sleep ----------

  function SleepFor(soonest: Option<Time>, pollSoon: bool, interval: int, now: Time): int {
    if soonest.Some? && soonest.value - now > 0 && (!pollSoon || soonest.value - now < interval)
    then soonest.value - now
    else interval
  }

  // Sleeping wait from now would pass a stored time that is still ahead.
  ghost predicate SleepsPast(jobs: seq<Job>, sts: seq<JobState>, now: Time, wait: int)
    requires |jobs| == |sts|
  {
    exists i :: 0 <= i < |jobs| && jobs[i].Active() && sts[i].at.Some? && now < sts[i].at.value < now + wait
  }

  // A stored time ahead of the cycle has gone by while the cycle ran.
  ghost predicate ElapsedMeanwhile(jobs: seq<Job>, sts: seq<JobState>, now: Time, later: Time)
    requires |jobs| == |sts|
  {
    exists i :: 0 <= i < |jobs| && jobs[i].Active() && sts[i].at.Some? && now < sts[i].at.value <= later
  }

  // Sleeping wait from now ends at a stored time.
  ghost predicate EndsAtStored(jobs: seq<Job>, sts: seq<JobState>, now: Time, wait: int)
    requires |jobs| == |sts|
  {
    exists i :: 0 <= i < |jobs| && jobs[i].Active() && sts[i].at == Some(now + wait)
  }

  // Some stored time has come, or is ahead.
  ghost predicate SomePast(jobs: seq<Job>, sts: seq<JobState>, now: Time)
    requires |jobs| == |sts|
  {
    exists i :: 0 <= i < |jobs| && jobs[i].Active() && sts[i].at.Some? && sts[i].at.value <= now
  }

  ghost predicate SomeAhead(jobs: seq<Job>, sts: seq<JobState>, now: Time)
    requires |jobs| == |sts|
  {
    exists i :: 0 <= i < |jobs| && jobs[i].Active() && sts[i].at.Some? && sts[i].at.value > now
  }

  // later is the clock when the cycle is over and the sleep is chosen.
  ghost predicate SleepOk(jobs: seq<Job>, sts: seq<JobState>, now: Time, later: Time, interval: int, wait: int)
    requires |jobs| == |sts|
  {
    && wait > 0
    && (SleepsPast(jobs, sts, later, wait) <==>
          ElapsedMeanwhile(jobs, sts, now, later) && SleepsPast(jobs, sts, later, interval))
    && (ElapsedMeanwhile(jobs, sts, now, later) ==> wait == interval)
    && (wait == interval || EndsAtStored(jobs, sts, later, wait))
    && (SomePast(jobs, sts, now) ==> wait <= interval)
    && (!SomePast(jobs, sts, later) && SomeAhead(jobs, sts, later) ==> EndsAtStored(jobs, sts, later, wait))
  }

  /** The sleep is positive, and passes a stored time still ahead exactly when the
      soonest one went by during the cycle and another lies within the interval;
      then it is one interval long.  A sleep of any other length ends at a stored
      time; none is longer than the interval when some job's time has come; and
      with every time still ahead it ends at one. */
  lemma SleepIsRight(jobs: seq<Job>, sts: seq<JobState>, now: Time, later: Time, interval: int,
                     soonest: Option<Time>, pollSoon: bool)
    requires |jobs| == |sts| && now <= later && interval > 0
    requires IsSoonest(jobs, sts, now, |jobs|, soonest) && IsPollSoon(jobs, sts, now, |jobs|, pollSoon)
    ensures SleepOk(jobs, sts, now, later, interval, SleepFor(soonest, pollSoon, interval, later))
  {
    if soonest.Some? {
      var i :| 0 <= i < |jobs| && jobs[i].Active() && sts[i].at == soonest;
      if soonest.value <= later {
        assert now < sts[i].at.value <= later;
      }
    }
  }

  // ---------- whole runs ----------

  // What one turn of the endless loop meets: the context at its top, the clock,
  // the jobs' answers, the clock again before the sleep, the context during it.
  datatype Turn = Turn(cancelled: bool, now: Time, answers: seq<Answer>, later: Time, cancelledAsleep: bool)

  predicate Scripted(turns: seq<Turn>, jobs: nat) {
    forall c :: 0 <= c < |turns| ==> |turns[c].answers| == jobs && turns[c].now <= turns[c].later
  }

  // What job i has seen in the first n turns.
  function SeenBy(turns: seq<Turn>, i: nat, n: nat): seq<Seen>
    requires n <= |turns| && forall c :: 0 <= c < |turns| ==> i < |turns[c].answers|
  {
    if n == 0 then [] else SeenBy(turns, i, n - 1) + [Seen(turns[n - 1].now, turns[n - 1].answers[i])]
  }

  // The first last jobs have been visited cycles + 1 times, the others cycles
  // times, and each is what its own visits made of it.
  ghost predicate EachByItself(
    jobs: seq<Job>, sts: seq<JobState>, interval: int, turns: seq<Turn>, cycles: nat, last: nat)
    requires interval > 0 && Scripted(turns, |jobs|) && |sts| == |jobs|
    requires cycles <= |turns| && (last > 0 ==> cycles < |turns|)
  {
    forall i :: 0 <= i < |jobs| ==>
      sts[i] == JobAfter(jobs[i], interval, SeenBy(turns, i, if i < last then cycles + 1 else cycles))
  }

  // The states n complete turns leave behind.
  function StatesAfter(jobs: seq<Job>, interval: int, turns: seq<Turn>, n: nat): (sts: seq<JobState>)
    requires interval > 0 && Scripted(turns, |jobs|) && n <= |turns|
    ensures |sts| == |jobs|
  {
    seq(|jobs|, i requires 0 <= i < |jobs| => JobAfter(jobs[i], interval, SeenBy(turns, i, n)))
  }

  // The sleep after turn c was right for the states that turn left behind.
  ghost predicate SleptOk(jobs: seq<Job>, interval: int, turns: seq<Turn>, c: nat, wait: int)
    requires interval > 0 && Scripted(turns, |jobs|) && c < |turns|
  {
    SleepOk(jobs, StatesAfter(jobs, interval, turns, c + 1), turns[c].now, turns[c].later, interval, wait)
  }

  ghost predicate AllSleptOk(jobs: seq<Job>, interval: int, turns: seq<Turn>, waits: seq<int>)
    requires interval > 0 && Scripted(turns, |jobs|) && |waits| <= |turns|
  {
    forall c :: 0 <= c < |waits| ==> SleptOk(jobs, interval, turns, c, waits[c])
  }

  // ran: which of the jobs visited in turn c ran.
  ghost predicate RanAsDue(jobs: seq<Job>, interval: int, turns: seq<Turn>, c: nat, ran: seq<bool>)
    requires interval > 0 && Scripted(turns, |jobs|) && c < |turns|
  {
    && |ran| <= |jobs|
    && forall i {:trigger StatesAfter(jobs, interval, turns, c)[i]} :: 0 <= i < |ran| ==>
         (ran[i] <==>
           && jobs[i].next && jobs[i].run && TimeHasCome(StatesAfter(jobs, interval, turns, c)[i], turns[c].now)
           && exists t :: turns[c].answers[i].next == Due(Some(t)) && t <= turns[c].now)
  }

  ghost predicate AllRanAsDue(jobs: seq<Job>, interval: int, turns: seq<Turn>, runs: seq<seq<bool>>)
    requires interval > 0 && Scripted(turns, |jobs|) && |runs| <= |turns|
  {
    forall c :: 0 <= c < |runs| ==> RanAsDue(jobs, interval, turns, c, runs[c])
  }

  // The same of one turn, by the states before it.
  ghost predicate RanFrom(jobs: seq<Job>, was: seq<JobState>, now: Time, answers: seq<Answer>, ran: seq<bool>)
    requires |ran| <= |jobs| == |was| == |answers|
  {
    forall i :: 0 <= i < |ran| ==>
      (ran[i] <==>
        && jobs[i].next && jobs[i].run && (was[i].at == None || was[i].at.value <= now)
        && answers[i].next != NextFails && answers[i].next.at != None && answers[i].next.at.value <= now)
  }

  lemma RanThisTurn(jobs: seq<Job>, was: seq<JobState>, interval: int, turns: seq<Turn>, c: nat, ran: seq<bool>)
    requires interval > 0 && Scripted(turns, |jobs|) && c < |turns| && |ran| <= |was| == |jobs|
    requires EachByItself(jobs, was, interval, turns, c, 0) && RanFrom(jobs, was, turns[c].now, turns[c].answers, ran)
    ensures RanAsDue(jobs, interval, turns, c, ran)
  {}

  lemma SleptThisTurn(jobs: seq<Job>, sts: seq<JobState>, interval: int, turns: seq<Turn>, c: nat,
                      soonest: Option<Time>, pollSoon: bool)
    requires interval > 0 && Scripted(turns, |jobs|) && c < |turns| && |sts| == |jobs|
    requires EachByItself(jobs, sts, interval, turns, c + 1, 0)
    requires IsSoonest(jobs, sts, turns[c].now, |jobs|, soonest)
    requires IsPollSoon(jobs, sts, turns[c].now, |jobs|, pollSoon)
    ensures SleptOk(jobs, interval, turns, c, SleepFor(soonest, pollSoon, interval, turns[c].later))
  {
    assert sts == StatesAfter(jobs, interval, turns, c + 1);
    SleepIsRight(jobs, sts, turns[c].now, turns[c].later, interval, soonest, pollSoon);
  }

  // The last visit of the turn ended the loop: it failed, and the context was cancelled.
  ghost predicate CutShort(turn: Turn, ran: seq<bool>) {
    && 0 < |ran| <= |turn.answers| && turn.answers[|ran| - 1].cancelled
    && if ran[|ran| - 1] then !turn.answers[|ran| - 1].runOk else turn.answers[|ran| - 1].next == NextFails
  }

  // All n jobs were visited.
  ghost predicate Whole(runs: seq<seq<bool>>, n: nat) {
    forall c :: 0 <= c < |runs| ==> |runs[c]| == n
  }

  lemma OneMoreRan(jobs: seq<Job>, interval: int, turns: seq<Turn>, runs: seq<seq<bool>>, ran: seq<bool>)
    requires interval > 0 && Scripted(turns, |jobs|) && |runs| < |turns|
    requires AllRanAsDue(jobs, interval, turns, runs) && RanAsDue(jobs, interval, turns, |runs|, ran)
    ensures AllRanAsDue(jobs, interval, turns, runs + [ran])
    ensures Whole(runs, |jobs|) && |ran| == |jobs| ==> Whole(runs + [ran], |jobs|)
  {}

  lemma RanPlainly(jobs: seq<Job>, interval: int, turns: seq<Turn>, runs: seq<seq<bool>>)
    requires interval > 0 && Scripted(turns, |jobs|) && |runs| <= |turns|
    requires AllRanAsDue(jobs, interval, turns, runs)
    ensures forall c, i :: 0 <= c < |runs| && 0 <= i < |runs[c]| ==>
              var at, now, next := StatesAfter(jobs, interval, turns, c)[i].at, turns[c].now, turns[c].answers[i].next;
              (runs[c][i] <==> jobs[i].next && jobs[i].run && (at == None || at.value <= now)
                               && next != NextFails && next.at != None && next.at.value <= now)
  {
    forall c, i | 0 <= c < |runs| && 0 <= i < |runs[c]|
      ensures var at, now, next := StatesAfter(jobs, interval, turns, c)[i].at, turns[c].now, turns[c].answers[i].next;
              (runs[c][i] <==> jobs[i].next && jobs[i].run && (at == None || at.value <= now)
                               && next != NextFails && next.at != None && next.at.value <= now)
    {
      assert RanAsDue(jobs, interval, turns, c, runs[c]);
    }
  }

  lemma OneMoreSleep(jobs: seq<Job>, interval: int, turns: seq<Turn>, waits: seq<int>, wait: int)
    requires interval > 0 && Scripted(turns, |jobs|) && |waits| < |turns|
    requires AllSleptOk(jobs, interval, turns, waits) && SleptOk(jobs, interval, turns, |waits|, wait)
    ensures AllSleptOk(jobs, interval, turns, waits + [wait])
  {}

  lemma FreshStart(jobs: seq<Job>, sts: seq<JobState>, interval: int, turns: seq<Turn>)
    requires interval > 0 && Scripted(turns, |jobs|) && |sts| == |jobs|
    requires forall i :: 0 <= i < |jobs| ==> sts[i] == FRESH
    ensures EachByItself(jobs, sts, interval, turns, 0, 0)
  {}

  lemma OneVisit(job: Job, interval: int, x: Seen)
    requires interval > 0
    ensures JobAfter(job, interval, [x]) == VisitJob(job, FRESH, interval, x.now, x.answer).st
  {
    assert [x][..0] == [];
  }

  /** So it can oversleep: a first turn in which two jobs say 10 and 20 and that
      lasts from 0 to 15 outlasts the 10; the scheduler then sleeps 100 although
      20 is still ahead. */
  lemma OversleepsAfterSlowTurn(wait: int)
    ensures var jobs := [Job(true, true), Job(true, true)];
            var answers := [Answer(Due(Some(10)), true, false), Answer(Due(Some(20)), true, false)];
            var turn := Turn(false, 0, answers, 15, false);
            && StatesAfter(jobs, 100, [turn], 1) == [JobState(0, Some(10)), JobState(0, Some(20))]
            && (SleptOk(jobs, 100, [turn], 0, wait) ==>
                 wait == 100 && SleepsPast(jobs, StatesAfter(jobs, 100, [turn], 1), 15, wait))
  {
    var jobs := [Job(true, true), Job(true, true)];
    var turn := Turn(false, 0, [Answer(Due(Some(10)), true, false), Answer(Due(Some(20)), true, false)], 15, false);
    assert SeenBy([turn], 0, 0) == [] == SeenBy([turn], 1, 0);
    assert SeenBy([turn], 0, 1) == [Seen(0, turn.answers[0])] && SeenBy([turn], 1, 1) == [Seen(0, turn.answers[1])];
    OneVisit(jobs[0], 100, Seen(0, turn.answers[0]));
    OneVisit(jobs[1], 100, Seen(0, turn.answers[1]));
    var sts := StatesAfter(jobs, 100, [turn], 1);
    assert sts[0] == JobState(0, Some(10)) && sts[1] == JobState(0, Some(20));
    assert jobs[0].Active() && jobs[1].Active();
  }

  lemma OneMoreTurn(jobs: seq<Job>, was: seq<JobState>, sts: seq<JobState>, interval: int, turns: seq<Turn>, c: nat,
      visited: nat)
    requires interval > 0 && Scripted(turns, |jobs|) && |sts| == |was| == |jobs| && c < |turns| && visited <= |jobs|
    requires EachByItself(jobs, was, interval, turns, c, 0)
    requires Visited(jobs, was, sts, interval, turns[c].now, turns[c].answers, visited)
    ensures EachByItself(jobs, sts, interval, turns, c, visited)
    ensures visited == |jobs| ==> EachByItself(jobs, sts, interval, turns, c + 1, 0)
  {
    forall i | 0 <= i < visited
      ensures sts[i] == JobAfter(jobs[i], interval, SeenBy(turns, i, c + 1))
    {
      var seen := SeenBy(turns, i, c);
      assert SeenBy(turns, i, c + 1)[..|seen|] == seen;
    }
  }

  class Schedule {
    const jobs: seq<Job>
    const interval: int
    const states: array<JobState>

    constructor (interval: int, jobs: seq<Job>)
      requires interval <= INT64_MAX
      ensures Valid() && this.jobs == jobs && this.interval == Interval(interval) && fresh(states)
      ensures forall i :: 0 <= i < |jobs| ==> states[i] == FRESH
    {
      this.jobs := jobs;
      this.interval := Interval(interval);
      this.states := new JobState[|jobs|](_ => FRESH);
    }

    ghost predicate Valid()
      reads this
    {
      states.Length == |jobs| && 0 < interval <= INT64_MAX
    }

    method Fail(i: nat, now: Time) returns (at: Time, delay: int)
      requires Valid() && i < |jobs|
      modifies states
      ensures states[i] == AfterFailure(old(states[i]), interval, now) && states[i].at == Some(at) &&
              at == now + delay > now
      ensures forall k :: 0 <= k < |jobs| && k != i ==> states[k] == old(states[k])
    {
      var fails := states[i].fails;
      if fails < MAX_SCHEDULE_FAILS { fails := fails + 1; }
      delay := ScheduleBackoff(interval, fails);
      at := now + delay;
      states[i] := JobState(fails, Some(at));
    }

    method Succeed(i: nat, at: Time)
      requires Valid() && i < |jobs|
      modifies states
      ensures states[i] == JobState(0, Some(at))
      ensures forall k :: 0 <= k < |jobs| && k != i ==> states[k] == old(states[k])
    {
      states[i] := JobState(0, Some(at));
    }

    /** The body of the loop for one job, not to proceed when the context turns out
        cancelled.  The job is asked when its stored time is absent or has come, and
        runs when it then answers a time that has come. */
    method VisitOne(i: nat, now: Time, a: Answer) returns (proceed: bool, asked: bool, ran: bool)
      requires Valid() && i < |jobs|
      modifies states
      ensures VisitJob(jobs[i], old(states[i]), interval, now, a) ==
                Visit(states[i], asked, ran, asked && (a.next.NextFails? || (ran && !a.runOk)), !proceed)
      ensures asked <==> jobs[i].next && jobs[i].run && (old(states[i]).at == None || old(states[i]).at.value <= now)
      ensures ran <==> asked && a.next != NextFails && a.next.at != None && a.next.at.value <= now
      ensures !proceed <==> asked && a.cancelled && (a.next == NextFails || (ran && !a.runOk))
      ensures !asked || !proceed ==> states[i] == old(states[i])
      ensures ran && a.runOk ==> states[i] == JobState(0, Some(now))
      ensures asked && !ran && a.next != NextFails ==>
                states[i] == JobState(0, if a.next.at == None then Some(now + interval) else a.next.at)
      ensures asked && proceed && (a.next == NextFails || (ran && !a.runOk)) ==>
                && states[i].fails == (if old(states[i]).fails < 64 then old(states[i]).fails + 1
                                       else old(states[i]).fails)
                && states[i].at == Some(now + Delay(interval, states[i].fails))
      ensures forall k :: 0 <= k < |jobs| && k != i ==> states[k] == old(states[k])
      ensures proceed && jobs[i].Active() ==> states[i].at.Some?
    {
      proceed, asked, ran := true, false, false;
      if !jobs[i].Active() { return; }
      if states[i].at.Some? && states[i].at.value > now { return; }
      asked := true;
      if a.next.NextFails? {
        if a.cancelled { return false, true, false; }
        var _, _ := Fail(i, now);
        return;
      }
      if a.next.at.Some? && a.next.at.value <= now {
        ran := true;
        if !a.runOk {
          if a.cancelled { return false, true, true; }
          var _, _ := Fail(i, now);
          return;
        }
        Succeed(i, now);
        return;
      }
      Succeed(i, if a.next.at.None? then now + interval else a.next.at.value);
    }

    /** One pass over the jobs: each changes by its own answer alone, and the two
        facts the sleep is chosen by describe the states left behind. */
    method Cycle(now: Time, answers: seq<Answer>)
      returns (visited: nat, ran: seq<bool>, proceed: bool, soonest: Option<Time>, pollSoon: bool)
      requires Valid() && |answers| == |jobs|
      modifies states
      ensures visited <= |jobs| && Visited(jobs, old(states[..]), states[..], interval, now, answers, visited)
      ensures proceed ==> visited == |jobs|
      ensures forall i :: 0 <= i < visited ==>
                (VisitJob(jobs[i], old(states[i]), interval, now, answers[i]).stopped <==> !proceed && i == visited - 1)
      ensures |ran| == visited
      ensures forall i :: 0 <= i < visited ==>
                (ran[i] <==>
                  && jobs[i].next && jobs[i].run && (old(states[i]).at == None || old(states[i]).at.value <= now)
                  && answers[i].next != NextFails && answers[i].next.at != None && answers[i].next.at.value <= now)
      ensures !proceed ==> visited > 0 && answers[visited - 1].cancelled &&
                           if ran[visited - 1] then !answers[visited - 1].runOk
                           else answers[visited - 1].next == NextFails
      ensures proceed ==> IsSoonest(jobs, states[..], now, |jobs|, soonest)
      ensures proceed ==> IsPollSoon(jobs, states[..], now, |jobs|, pollSoon)
    {
      soonest, pollSoon, proceed := None, false, true;
      visited, ran := 0, [];
      while visited < |jobs|
        invariant visited <= |jobs| && Visited(jobs, old(states[..]), states[..], interval, now, answers, visited)
        invariant |ran| == visited
        invariant forall i :: 0 <= i < visited ==>
                    (ran[i] <==>
                      && jobs[i].next && jobs[i].run && (old(states[i]).at == None || old(states[i]).at.value <= now)
                      && answers[i].next != NextFails && answers[i].next.at != None && answers[i].next.at.value <= now)
        invariant forall i :: 0 <= i < visited ==> !VisitJob(jobs[i], old(states[i]), interval, now, answers[i]).stopped
        invariant IsSoonest(jobs, states[..], now, visited, soonest)
        invariant IsPollSoon(jobs, states[..], now, visited, pollSoon)
      {
        var i := visited;
        ghost var before := states[..];
        var goesOn, _, runs := VisitOne(i, now, answers[i]);
        proceed, visited, ran := goesOn, visited + 1, ran + [runs];
        if !proceed { return; }
        NoteOne(jobs, before, states[..], now, i, soonest, pollSoon);
        if jobs[i].Active() {
          var at := states[i].at.value;
          if at > now {
            soonest := Earlier(soonest, Some(at));
          } else {
            pollSoon := true;
          }
        }
      }
    }

    // The pass over the jobs in turn c and the choice of the sleep after it.
    method TakeTurn(turns: seq<Turn>, c: nat) returns (ran: seq<bool>, proceed: bool, wait: int)
      requires Valid() && Scripted(turns, |jobs|) && c < |turns|
      requires EachByItself(jobs, states[..], interval, turns, c, 0)
      modifies states
      ensures RanAsDue(jobs, interval, turns, c, ran)
      ensures !proceed ==>
                0 < |ran| && EachByItself(jobs, states[..], interval, turns, c, |ran|) && CutShort(turns[c], ran)
      ensures proceed ==> |ran| == |jobs| && EachByItself(jobs, states[..], interval, turns, c + 1, 0)
      ensures proceed ==> SleptOk(jobs, interval, turns, c, wait)
    {
      var visited, soonest, pollSoon;
      ghost var before := states[..];
      visited, ran, proceed, soonest, pollSoon := Cycle(turns[c].now, turns[c].answers);
      RanThisTurn(jobs, before, interval, turns, c, ran);
      OneMoreTurn(jobs, before, states[..], interval, turns, c, visited);
      wait := SleepFor(soonest, pollSoon, interval, turns[c].later);
      if proceed {
        SleptThisTurn(jobs, states[..], interval, turns, c, soonest, pollSoon);
      }
    }

    // The endless loop.
    method Turns(turns: seq<Turn>) returns (cycles: nat, last: nat, waits: seq<int>, runs: seq<seq<bool>>)
      requires Valid() && Scripted(turns, |jobs|)
      requires forall i :: 0 <= i < |jobs| ==> states[i] == FRESH
      modifies states
      ensures cycles <= |turns| && last <= |jobs| && (last > 0 ==> cycles < |turns|) && |waits| == cycles
      ensures EachByItself(jobs, states[..], interval, turns, cycles, last)
      ensures cycles < |turns| && last == 0 ==>
                turns[cycles].cancelled || (cycles > 0 && turns[cycles - 1].cancelledAsleep)
      ensures AllSleptOk(jobs, interval, turns, waits)
      ensures |runs| == (if last > 0 then cycles + 1 else cycles) && Whole(runs[..cycles], |jobs|)
      ensures last > 0 ==> |runs[cycles]| == last && CutShort(turns[cycles], runs[cycles])
      ensures AllRanAsDue(jobs, interval, turns, runs)
    {
      cycles, last, waits, runs := 0, 0, [], [];
      FreshStart(jobs, states[..], interval, turns);
      while cycles < |turns|
        invariant cycles <= |turns| && |waits| == cycles
        invariant EachByItself(jobs, states[..], interval, turns, cycles, 0)
        invariant AllSleptOk(jobs, interval, turns, waits)
        invariant |runs| == cycles && Whole(runs, |jobs|) && AllRanAsDue(jobs, interval, turns, runs)
      {
        var turn := turns[cycles];
        assert runs[..cycles] == runs;
        if turn.cancelled { return; }
        var ran, proceed, wait := TakeTurn(turns, cycles);
        OneMoreRan(jobs, interval, turns, runs, ran);
        if !proceed {
          assert (runs + [ran])[..cycles] == runs;
          runs := runs + [ran];
          last := |ran|;
          return;
        }
        OneMoreSleep(jobs, interval, turns, waits, wait);
        runs, waits := runs + [ran], waits + [wait];
        cycles := cycles + 1;
        assert runs[..cycles] == runs;
        if turn.cancelledAsleep { return; }
      }
    }

    /** Every turn of the loop until the context is cancelled.  cycles counts the
        complete ones, last the jobs visited in one that was cut short; runs says
        for every turn which of its jobs ran. */
    method Run(turns: seq<Turn>) returns (cycles: nat, last: nat, waits: seq<int>, runs: seq<seq<bool>>)
      requires Valid() && Scripted(turns, |jobs|)
      requires forall i :: 0 <= i < |jobs| ==> states[i] == FRESH
      modifies states
      ensures cycles <= |turns| && last <= |jobs| && (last > 0 ==> cycles < |turns|) && |waits| == cycles
      ensures EachByItself(jobs, states[..], interval, turns, cycles, last)
      ensures cycles < |turns| && last == 0 ==>
                turns[cycles].cancelled || (cycles > 0 && turns[cycles - 1].cancelledAsleep)
      ensures AllSleptOk(jobs, interval, turns, waits)
      ensures |runs| == (if last > 0 then cycles + 1 else cycles) && Whole(runs[..cycles], |jobs|)
      ensures last > 0 ==> |runs[cycles]| == last && CutShort(turns[cycles], runs[cycles])
      ensures AllRanAsDue(jobs, interval, turns, runs)
      ensures forall c, i :: 0 <= c < |runs| && 0 <= i < |runs[c]| ==>
                var at := StatesAfter(jobs, interval, turns, c)[i].at;
                var now, next := turns[c].now, turns[c].answers[i].next;
                (runs[c][i] <==> jobs[i].next && jobs[i].run && (at == None || at.value <= now)
                                 && next != NextFails && next.at != None && next.at.value <= now)
    {
      cycles, last, waits, runs := Turns(turns);
      RanPlainly(jobs, interval, turns, runs);
    }
  }
}
