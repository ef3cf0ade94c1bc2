/**
  The subject: one goroutine owns the set of subscriber channels and serves
  subscriptions, publications and the stop signal (stream/subject.go).

  Every rendezvous with the goroutine, every single send and close it performs,
  and every receive by a subscriber is a step, in any order.  Closing a closed
  channel or sending on one is what Go panics at; here it sets fault.
 */
module Subject {
  import opened Util

  type Chan = nat

  // from and to bound the publications a channel was registered for; got is
  // what its subscriber has received, lost whether a value met a full buffer,
  // source which publication each value received or buffered was.
  datatype ChanState<V> = ChanState(
    cap: nat, buf: seq<V>, got: seq<V>, closed: bool, from: Option<nat>, to: Option<nat>, lost: bool,
    source: seq<nat>)

  datatype Loop<V> =
    | Selecting
    | Sending(v: V, todo: set<Chan>)
    | Closing(todo: set<Chan>)
    | Exited

  datatype St<V> = St(
    chans: map<Chan, ChanState<V>>,
    joining: set<Chan>,  // made by Subscribe, not handed to the goroutine yet
    subs: set<Chan>,
    loop: Loop<V>,
    stop: bool,
    published: seq<V>,
    fault: bool
  )

  function Initial<V>(): St<V> {
    St(map[], {}, {}, Selecting, false, [], false)
  }

  datatype Step<V> =
    | Make(c: Chan, buffer: int)
    | Register(c: Chan)
    | RefuseLate(c: Chan)
    | Unsubscribe(c: Chan)
    | Publish(v: V)
    | Send(c: Chan, waiting: bool)
    | Sent
    | Stop
    | BeginClose
    | CloseOne(c: Chan)
    | Exit
    | Receive(c: Chan)

  predicate Enabled<V>(s: St<V>, st: Step<V>) {
    match st
    case Make(c, _) => c !in s.chans
    case Register(c) => s.loop.Selecting? && c in s.joining && c in s.chans
    case RefuseLate(c) => s.loop.Exited? && c in s.joining && c in s.chans
    case Unsubscribe(_) => s.loop.Selecting?
    case Publish(_) => s.loop.Selecting?
    case Send(c, waiting) =>
      // a receiver waits only on an empty buffer
      s.loop.Sending? && c in s.loop.todo && c in s.chans && (waiting ==> s.chans[c].buf == [])
    case Sent => s.loop.Sending? && s.loop.todo == {}
    case Stop => true
    case BeginClose => s.loop.Selecting? && s.stop
    case CloseOne(c) => s.loop.Closing? && c in s.loop.todo && c in s.chans
    case Exit => s.loop.Closing? && s.loop.todo == {}
    case Receive(c) => c in s.chans && s.chans[c].buf != []
  }

  function SetChan<V>(s: St<V>, c: Chan, x: ChanState<V>): St<V> {
    s.(chans := s.chans[c := x])
  }

  // A channel closed when now values have been published.
  function Shut<V>(x: ChanState<V>, now: nat): ChanState<V> {
    x.(closed := true, to := if x.from.Some? then Some(now) else None)
  }

  // A channel offered the value published at place at: taken by a waiting
  // receiver, buffered, or lost.
  function Offered<V>(x: ChanState<V>, v: V, at: nat, waiting: bool): ChanState<V> {
    if waiting then x.(got := x.got + [v], source := x.source + [at])
    else if |x.buf| < x.cap then x.(buf := x.buf + [v], source := x.source + [at])
    else x.(lost := true)
  }

  // close(c), by the goroutine or by a late Subscribe
  function CloseChan<V>(s: St<V>, c: Chan): St<V>
    requires c in s.chans
  {
    var x := s.chans[c];
    if x.closed then s.(fault := true)
    else SetChan(s, c, Shut(x, |s.published|))
  }

  function Latest<V>(s: St<V>): nat {
    if s.published == [] then 0 else |s.published| - 1
  }

  // select { case c <- v: default: }
  function TrySend<V>(s: St<V>, c: Chan, v: V, waiting: bool): St<V>
    requires c in s.chans
  {
    var x := s.chans[c];
    if x.closed then s.(fault := true)
    else SetChan(s, c, Offered(x, v, Latest(s), waiting))
  }

  function Apply<V>(s: St<V>, st: Step<V>): St<V>
    requires Enabled(s, st)
  {
    match st
    case Make(c, buffer) =>
      var made := ChanState(if buffer < 0 then 0 else buffer, [], [], false, None, None, false, []);
      SetChan(s, c, made).(joining := s.joining + {c})
    case Register(c) =>
      SetChan(s, c, s.chans[c].(from := Some(|s.published|))).(joining := s.joining - {c}, subs := s.subs + {c})
    case RefuseLate(c) => CloseChan(s, c).(joining := s.joining - {c})
    case Unsubscribe(c) =>
      if c in s.subs && c in s.chans then CloseChan(s, c).(subs := s.subs - {c}) else s
    case Publish(v) => s.(loop := Sending(v, s.subs), published := s.published + [v])
    case Send(c, waiting) => TrySend(s, c, s.loop.v, waiting).(loop := Sending(s.loop.v, s.loop.todo - {c}))
    case Sent => s.(loop := Selecting)
    case Stop => s.(stop := true)
    case BeginClose => s.(stop := false, loop := Closing(s.subs))
    case CloseOne(c) => CloseChan(s, c).(loop := Closing(s.loop.todo - {c}))
    case Exit => s.(loop := Exited)
    case Receive(c) =>
      var x := s.chans[c];
      SetChan(s, c, x.(got := x.got + [x.buf[0]], buf := x.buf[1..]))
  }

  // ---------- the invariant, channel by channel ----------

  function Delivered<V>(x: ChanState<V>): seq<V> {
    x.got + x.buf
  }

  // The end of a registered channel's window: not yet the value still being
  // sent around, if its turn has not come.
  function WindowEnd<V>(s: St<V>, c: Chan): int
    requires c in s.chans
  {
    if s.chans[c].to.Some? then s.chans[c].to.value
    else |s.published| - if s.loop.Sending? && c in s.loop.todo then 1 else 0
  }

  ghost predicate SetsOk<V>(s: St<V>) {
    && !s.fault
    && s.subs <= s.chans.Keys && s.joining <= s.chans.Keys
    && (s.loop.Sending? || s.loop.Closing? ==> s.loop.todo <= s.subs)
    && (s.loop.Sending? ==> s.published != [] && s.published[|s.published| - 1] == s.loop.v)
  }

  ghost predicate FlagsOk<V>(s: St<V>, c: Chan)
    requires c in s.chans
  {
    var x := s.chans[c];
    && |x.buf| <= x.cap
    && (c in s.joining ==> c !in s.subs && !x.closed && x.from.None? && x.to.None?)
    && (c in s.subs ==>
          && x.from.Some? && (x.to.Some? <==> x.closed)
          && (x.closed <==> s.loop.Exited? || (s.loop.Closing? && c !in s.loop.todo)))
    && (c !in s.joining && c !in s.subs ==> x.closed && (x.from.Some? ==> x.to.Some?))
    && (x.from.None? ==> Delivered(x) == [] && x.source == [] && !x.lost)
  }

  // delivered is what the window of published from lo to hi has at the places
  // source, in that order; all of it unless something was lost.
  ghost predicate Faithful<V>(delivered: seq<V>, source: seq<nat>, lost: bool, published: seq<V>, lo: int, hi: int) {
    && 0 <= lo <= hi <= |published| && |source| == |delivered|
    && (forall i, j :: 0 <= i < j < |source| ==> source[i] < source[j])
    && (forall i :: 0 <= i < |source| ==> lo <= source[i] < hi && delivered[i] == published[source[i]])
    && (!lost ==> |source| == hi - lo)
  }

  ghost predicate WindowOk<V>(s: St<V>, c: Chan)
    requires c in s.chans
  {
    var x := s.chans[c];
    x.from.Some? ==> Faithful(Delivered(x), x.source, x.lost, s.published, x.from.value, WindowEnd(s, c))
  }

  ghost predicate ChanOk<V>(s: St<V>, c: Chan)
    requires c in s.chans
  {
    FlagsOk(s, c) && WindowOk(s, c)
  }

  ghost predicate Inv<V>(s: St<V>) {
    SetsOk(s) && forall c :: c in s.chans ==> ChanOk(s, c)
  }

  lemma StepKeepsSets<V>(s: St<V>, st: Step<V>)
    requires SetsOk(s) && Enabled(s, st)
    requires (st.Send? || st.CloseOne? || st.RefuseLate? || st.Unsubscribe?) && st.c in s.chans ==> FlagsOk(s, st.c)
    ensures SetsOk(Apply(s, st))
  {}

  lemma CloseKeepsFlags<V>(s: St<V>, st: Step<V>, c: Chan)
    requires SetsOk(s) && Enabled(s, st) && c in s.chans && FlagsOk(s, c)
    requires st.RefuseLate? || st.Unsubscribe? || st.CloseOne?
    ensures FlagsOk(Apply(s, st), c)
  {}

  lemma StepKeepsFlags<V>(s: St<V>, st: Step<V>, c: Chan)
    requires SetsOk(s) && Enabled(s, st) && c in Apply(s, st).chans
    requires c in s.chans ==> FlagsOk(s, c)
    ensures FlagsOk(Apply(s, st), c)
  {
    if st.RefuseLate? || st.Unsubscribe? || st.CloseOne? {
      CloseKeepsFlags(s, st, c);
    }
  }

  // A step that neither delivers to c nor moves its window.
  lemma WindowFrame<V>(s: St<V>, s': St<V>, c: Chan)
    requires c in s.chans && c in s'.chans && WindowOk(s, c)
    requires s.published <= s'.published && s'.chans[c].from == s.chans[c].from
    requires s'.chans[c].lost == s.chans[c].lost && s'.chans[c].source == s.chans[c].source
    requires Delivered(s'.chans[c]) == Delivered(s.chans[c])
    requires s.chans[c].from.Some? ==> WindowEnd(s', c) == WindowEnd(s, c)
    ensures WindowOk(s', c)
  {}

  lemma SendKeepsWindow<V>(s: St<V>, c: Chan, waiting: bool)
    requires SetsOk(s) && Enabled(s, Send(c, waiting)) && ChanOk(s, c)
    ensures WindowOk(Apply(s, Send(c, waiting)), c)
  {
    var x, x' := s.chans[c], Apply(s, Send(c, waiting)).chans[c];
    if x' != x.(lost := true) {
      assert Delivered(x') == Delivered(x) + [s.loop.v];
      assert x'.source == x.source + [|s.published| - 1];
    }
  }

  // The steps that close a channel: if it is c, its window ends here.
  lemma CloseKeepsWindow<V>(s: St<V>, st: Step<V>, c: Chan)
    requires SetsOk(s) && Enabled(s, st) && c in s.chans && ChanOk(s, c)
    requires st.RefuseLate? || st.Unsubscribe? || st.CloseOne?
    ensures WindowOk(Apply(s, st), c)
  {
    var s' := Apply(s, st);
    assert c in s'.chans && (s'.chans[c] == s.chans[c] || (s'.chans[c].closed && !s.chans[c].closed));
    WindowFrame(s, s', c);
  }

  lemma ReceiveKeepsWindow<V>(s: St<V>, st: Step<V>, c: Chan)
    requires SetsOk(s) && Enabled(s, st) && st.Receive? && c in s.chans && ChanOk(s, c)
    ensures WindowOk(Apply(s, st), c)
  {
    assert Delivered(Apply(s, st).chans[c]) == Delivered(s.chans[c]);
    WindowFrame(s, Apply(s, st), c);
  }

  // The steps that touch no channel, and a send to another one.
  lemma OtherKeepsWindow<V>(s: St<V>, st: Step<V>, c: Chan)
    requires SetsOk(s) && Enabled(s, st) && c in s.chans && ChanOk(s, c)
    requires st.Publish? || st.Sent? || st.Stop? || st.BeginClose? || st.Exit? || (st.Send? && st.c != c)
    ensures WindowOk(Apply(s, st), c)
  {
    assert Apply(s, st).chans[c] == s.chans[c];
    WindowFrame(s, Apply(s, st), c);
  }

  lemma StepKeepsWindow<V>(s: St<V>, st: Step<V>, c: Chan)
    requires SetsOk(s) && Enabled(s, st) && c in Apply(s, st).chans
    requires c in s.chans ==> ChanOk(s, c)
    ensures WindowOk(Apply(s, st), c)
  {
    if c in s.chans {
      if st.Send? && st.c == c {
        SendKeepsWindow(s, c, st.waiting);
      } else if st.RefuseLate? || st.Unsubscribe? || st.CloseOne? {
        CloseKeepsWindow(s, st, c);
      } else if st.Receive? {
        ReceiveKeepsWindow(s, st, c);
      } else if st.Make? || st.Register? {
      } else {
        OtherKeepsWindow(s, st, c);
      }
    }
  }

  lemma StepKeepsInv<V>(s: St<V>, st: Step<V>)
    requires Inv(s) && Enabled(s, st)
    ensures Inv(Apply(s, st))
  {
    StepKeepsSets(s, st);
    forall c | c in Apply(s, st).chans ensures ChanOk(Apply(s, st), c) {
      assert c in s.chans ==> ChanOk(s, c);
      StepKeepsFlags(s, st, c);
      StepKeepsWindow(s, st, c);
    }
  }

  // ---------- every interleaving ----------

  ghost predicate StepAt<V>(trace: seq<St<V>>, steps: seq<Step<V>>, i: nat)
    requires i < |steps| < |trace|
  {
    Enabled(trace[i], steps[i]) && trace[i + 1] == Apply(trace[i], steps[i])
  }

  ghost predicate IsRun<V>(trace: seq<St<V>>, steps: seq<Step<V>>) {
    && |trace| == |steps| + 1 && trace[0] == Initial()
    && forall i: nat :: i < |steps| ==> StepAt(trace, steps, i)
  }

  lemma {:induction false} RunKeepsInv<V>(trace: seq<St<V>>, steps: seq<Step<V>>, n: nat)
    requires IsRun(trace, steps) && n <= |steps|
    ensures Inv(trace[n])
  {
    if n > 0 {
      RunKeepsInv(trace, steps, n - 1);
      assert StepAt(trace, steps, n - 1);
      StepKeepsInv(trace[n - 1], steps[n - 1]);
    }
  }

  /** No interleaving closes a channel twice or sends on a closed one, and when
      the goroutine has exited, every channel ever handed out is closed except
      those whose Subscribe has yet to notice. */
  lemma ChannelLifecycle<V>(trace: seq<St<V>>, steps: seq<Step<V>>, n: nat)
    requires IsRun(trace, steps) && n <= |steps|
    ensures !trace[n].fault
    ensures trace[n].loop.Exited? ==>
              forall c :: c in trace[n].chans && c !in trace[n].joining ==> trace[n].chans[c].closed
    ensures forall c :: c in trace[n].chans && c !in trace[n].joining && !trace[n].chans[c].closed ==>
              c in trace[n].subs
  {
    RunKeepsInv(trace, steps, n);
    forall c | c in trace[n].chans ensures FlagsOk(trace[n], c) {}
  }

  // The k-th step offers c a value when nobody waits for it and its buffer is full.
  ghost predicate OverflowsAt<V>(trace: seq<St<V>>, steps: seq<Step<V>>, c: Chan, k: nat)
    requires k < |steps| < |trace|
  {
    steps[k] == Send(c, false) && c in trace[k].chans && |trace[k].chans[c].buf| == trace[k].chans[c].cap
  }

  lemma StepLoses<V>(s: St<V>, st: Step<V>, c: Chan)
    requires Inv(s) && Enabled(s, st) && c in Apply(s, st).chans
    ensures Apply(s, st).chans[c].lost <==>
              c in s.chans && (s.chans[c].lost || (st == Send(c, false) && |s.chans[c].buf| == s.chans[c].cap))
  {
    if c in s.chans {
      assert ChanOk(s, c);
    }
  }

  /** A channel has lost a value exactly when some send found its buffer full and
      nobody waiting. */
  lemma {:induction false} LostExactly<V>(trace: seq<St<V>>, steps: seq<Step<V>>, n: nat, c: Chan)
    requires IsRun(trace, steps) && n <= |steps| && c in trace[n].chans
    ensures trace[n].chans[c].lost <==> exists k: nat :: k < n && OverflowsAt(trace, steps, c, k)
  {
    if n > 0 {
      RunKeepsInv(trace, steps, n - 1);
      assert StepAt(trace, steps, n - 1);
      StepLoses(trace[n - 1], steps[n - 1], c);
      if c in trace[n - 1].chans {
        LostExactly(trace, steps, n - 1, c);
        assert OverflowsAt(trace, steps, c, n - 1) <==>
                 steps[n - 1] == Send(c, false) && |trace[n - 1].chans[c].buf| == trace[n - 1].chans[c].cap;
      } else {
        NotThereBefore(trace, steps, n - 1, c);
      }
    }
  }

  // Channels stay: one not there has never been.
  lemma {:induction false} NotThereBefore<V>(trace: seq<St<V>>, steps: seq<Step<V>>, n: nat, c: Chan)
    requires IsRun(trace, steps) && n <= |steps| && c !in trace[n].chans
    ensures forall k: nat :: k <= n ==> c !in trace[k].chans
  {
    if n > 0 {
      assert StepAt(trace, steps, n - 1);
      NotThereBefore(trace, steps, n - 1, c);
    }
  }

  // a is b with some elements left out, in the same order.
  ghost predicate IsSubsequence<V>(a: seq<V>, b: seq<V>) {
    exists at: seq<nat> :: Embeds(at, a, b)
  }

  ghost predicate Embeds<V>(at: seq<nat>, a: seq<V>, b: seq<V>) {
    && |at| == |a|
    && (forall i, j :: 0 <= i < j < |at| ==> at[i] < at[j])
    && (forall i :: 0 <= i < |at| ==> at[i] < |b| && a[i] == b[at[i]])
  }

  lemma {:induction false} IncreasingFills(at: seq<nat>, n: nat)
    requires |at| == n && (forall i, j :: 0 <= i < j < n ==> at[i] < at[j]) && (forall i :: 0 <= i < n ==> at[i] < n)
    ensures forall i :: 0 <= i < n ==> at[i] == i
  {
    if n > 0 {
      var front := at[..n - 1];
      forall i | 0 <= i < |front| ensures front[i] < n - 1 {
        assert front[i] == at[i] < at[n - 1];
      }
      IncreasingFills(front, n - 1);
      assert n >= 2 ==> front[n - 2] == at[n - 2] < at[n - 1];
    }
  }

  /** What a subscriber has received is an in-order part of the values published
      while its channel was registered; with what its buffer still holds it is
      all of them, up to the one being sent around, unless a value met a full
      buffer. */
  lemma Delivery<V>(trace: seq<St<V>>, steps: seq<Step<V>>, n: nat, c: Chan)
    requires IsRun(trace, steps) && n <= |steps| && c in trace[n].chans && trace[n].chans[c].from.Some?
    ensures var s := trace[n];
            var x := s.chans[c];
            && 0 <= x.from.value <= WindowEnd(s, c) <= |s.published|
            && IsSubsequence(x.got, s.published[x.from.value..WindowEnd(s, c)])
            && IsSubsequence(x.got + x.buf, s.published[x.from.value..WindowEnd(s, c)])
            && (!x.lost ==> x.got + x.buf == s.published[x.from.value..WindowEnd(s, c)])
  {
    RunKeepsInv(trace, steps, n);
    var s := trace[n];
    var x := s.chans[c];
    assert ChanOk(s, c);
    var window := s.published[x.from.value..WindowEnd(s, c)];
    var at: seq<nat> := seq(|x.source|, i requires 0 <= i < |x.source| => x.source[i] - x.from.value);
    assert Embeds(at, Delivered(x), window);
    assert Embeds(at[..|x.got|], x.got, window);
    if !x.lost {
      IncreasingFills(at, |at|);
    }
  }

  /** Once the stop signal is taken the goroutine only closes channels: after as
      many closes as there are channels left it can exit. */
  lemma ClosingShrinks<V>(s: St<V>, st: Step<V>)
    requires Inv(s) && Enabled(s, st) && s.loop.Closing?
    ensures var s' := Apply(s, st);
            if st.CloseOne? then s'.loop.Closing? && |s'.loop.todo| == |s.loop.todo| - 1
            else if st.Exit? then s.loop.todo == {} && s'.loop.Exited?
            else s'.loop == s.loop
    ensures s.loop.todo != {} ==> exists c :: Enabled(s, CloseOne(c))
    ensures s.loop.todo == {} ==> Enabled(s, Exit)
  {
    if s.loop.todo != {} {
      var c :| c in s.loop.todo;
      assert Enabled(s, CloseOne(c));
    }
  }

  // ---------- the goroutine itself ----------

  // steps, one after the other, lead from s to s'.
  ghost predicate Leads<V>(s: St<V>, steps: seq<Step<V>>, s': St<V>)
    decreases |steps|
  {
    if steps == [] then s' == s
    else Enabled(s, steps[0]) && Leads(Apply(s, steps[0]), steps[1..], s')
  }

  lemma {:induction false} LeadsOn<V>(s: St<V>, steps: seq<Step<V>>, m: St<V>, st: Step<V>)
    requires Leads(s, steps, m) && Enabled(m, st)
    ensures Leads(s, steps + [st], Apply(m, st))
    decreases |steps|
  {
    if steps == [] {
      assert (steps + [st])[1..] == [];
    } else {
      assert (steps + [st])[1..] == steps[1..] + [st];
      LeadsOn(Apply(s, steps[0]), steps[1..], m, st);
    }
  }

  lemma {:induction false} LeadsKeepsInv<V>(s: St<V>, steps: seq<Step<V>>, s': St<V>)
    requires Inv(s) && Leads(s, steps, s')
    ensures Inv(s')
    decreases |steps|
  {
    if steps != [] {
      StepKeepsInv(s, steps[0]);
      LeadsKeepsInv(Apply(s, steps[0]), steps[1..], s');
    }
  }

  // What a published value did to one channel, and what stopping did.
  predicate Reached<V(==)>(x: ChanState<V>, was: ChanState<V>, served: bool, v: V, at: nat, receiving: bool) {
    x == if served then Offered(was, v, at, receiving && was.buf == []) else was
  }

  predicate Ended<V(==)>(x: ChanState<V>, was: ChanState<V>, served: bool, now: nat) {
    x == if served then Shut(was, now) else was
  }

  // In the middle of publishing v: steps lead here, todo is yet to be served.
  ghost predicate Publishing<V>(
    s0: St<V>, s: St<V>, steps: seq<Step<V>>, v: V, todo: set<Chan>, receivers: set<Chan>)
  {
    && Leads(s0, steps, s) && !s.fault
    && s == s0.(chans := s.chans, published := s0.published + [v], loop := Sending(v, todo))
    && todo <= s.subs && s.chans.Keys == s0.chans.Keys
    && forall c :: c in s.chans ==>
         Reached(s.chans[c], s0.chans[c], c in s.subs && c !in todo, v, |s0.published|, c in receivers)
  }

  // In the middle of stopping.
  ghost predicate Stopping<V>(s0: St<V>, s: St<V>, steps: seq<Step<V>>, todo: set<Chan>) {
    && Leads(s0, steps, s) && !s.fault
    && s == s0.(chans := s.chans, stop := false, loop := Closing(todo))
    && todo <= s.subs && s.chans.Keys == s0.chans.Keys
    && forall c :: c in s.chans ==> Ended(s.chans[c], s0.chans[c], c in s.subs && c !in todo, |s0.published|)
  }

  lemma PublishingStarts<V>(s0: St<V>, v: V, receivers: set<Chan>)
    requires Inv(s0) && s0.loop.Selecting?
    ensures Publishing(s0, s0.(published := s0.published + [v], loop := Sending(v, s0.subs)), [Publish(v)], v,
            s0.subs, receivers)
  {
    LeadsOn(s0, [], s0, Publish(v));
    assert [] + [Publish(v)] == [Publish(v)];
  }

  lemma OpenChan<V>(s0: St<V>, c: Chan)
    requires Inv(s0) && s0.loop.Selecting? && c in s0.subs
    ensures c in s0.chans && !s0.chans[c].closed
  {
    assert c in s0.chans;
    assert ChanOk(s0, c);
  }

  lemma SendIs<V>(s: St<V>, c: Chan, v: V, todo: set<Chan>, waiting: bool)
    requires s.loop == Sending(v, todo) && c in todo && c in s.chans && !s.chans[c].closed && s.published != []
    requires waiting ==> s.chans[c].buf == []
    ensures Enabled(s, Send(c, waiting))
    ensures Apply(s, Send(c, waiting)) ==
            s.(chans := s.chans[c := Offered(s.chans[c], v, |s.published| - 1, waiting)],
              loop := Sending(v, todo - {c}))
  {}

  lemma PublishingOn<V>(
    s0: St<V>, s: St<V>, steps: seq<Step<V>>, v: V, todo: set<Chan>, receivers: set<Chan>, c: Chan)
    requires Inv(s0) && s0.loop.Selecting? && Publishing(s0, s, steps, v, todo, receivers) && c in todo
    ensures c in s.chans && !s.chans[c].closed
    ensures var waiting := c in receivers && s.chans[c].buf == [];
            var x := Offered(s.chans[c], v, |s.published| - 1, waiting);
            Publishing(s0, s.(chans := s.chans[c := x], loop := Sending(v, todo - {c})), steps + [Send(c, waiting)], v,
                       todo - {c}, receivers)
  {
    OpenChan(s0, c);
    assert Reached(s.chans[c], s0.chans[c], false, v, |s0.published|, c in receivers);
    var waiting := c in receivers && s.chans[c].buf == [];
    SendIs(s, c, v, todo, waiting);
    LeadsOn(s0, steps, s, Send(c, waiting));
  }

  lemma PublishingEnds<V>(s0: St<V>, s: St<V>, steps: seq<Step<V>>, v: V, receivers: set<Chan>)
    requires Inv(s0) && Publishing(s0, s, steps, v, {}, receivers)
    ensures Leads(s0, steps + [Sent], s.(loop := Selecting)) && Inv(s.(loop := Selecting))
  {
    LeadsOn(s0, steps, s, Sent);
    LeadsKeepsInv(s0, steps + [Sent], Apply(s, Sent));
  }

  // What publishing does, channel by channel: a value is lost only by a channel
  // whose buffer is full and whose subscriber is not waiting for one.
  lemma PublishedPlainly<V>(s0: St<V>, s: St<V>, steps: seq<Step<V>>, v: V, receivers: set<Chan>)
    requires Inv(s0) && Publishing(s0, s, steps, v, {}, receivers)
    ensures forall c :: c in s0.subs ==> Served(s0.chans[c], s.chans[c], v, c in receivers && s0.chans[c].buf == [])
    ensures forall c :: c in s.chans && c !in s0.subs ==> s.chans[c] == s0.chans[c]
  {
    forall c | c in s0.subs ensures Served(s0.chans[c], s.chans[c], v, c in receivers && s0.chans[c].buf == []) {
      assert c in s.chans;
      assert ChanOk(s0, c);
      var x := s0.chans[c];
      assert x.got + (x.buf + [v]) == x.got + x.buf + [v];
      assert x.buf == [] ==> x.got + [v] + x.buf == x.got + x.buf + [v];
    }
  }

  ghost predicate Served<V>(was: ChanState<V>, x: ChanState<V>, v: V, waiting: bool) {
    && x.cap == was.cap && |x.buf| <= x.cap
    && (waiting || |was.buf| < was.cap ==> x.got + x.buf == was.got + was.buf + [v] && x.lost == was.lost)
    && (!waiting && |was.buf| == was.cap ==> x.got == was.got && x.buf == was.buf && x.lost)
  }

  lemma StoppingStarts<V>(s0: St<V>)
    requires Inv(s0) && s0.loop.Selecting? && s0.stop
    ensures Stopping(s0, s0.(stop := false, loop := Closing(s0.subs)), [BeginClose], s0.subs)
  {
    LeadsOn(s0, [], s0, BeginClose);
    assert [] + [BeginClose] == [Step<V>.BeginClose];
  }

  lemma StoppingOn<V>(s0: St<V>, s: St<V>, steps: seq<Step<V>>, todo: set<Chan>, c: Chan)
    requires Inv(s0) && s0.loop.Selecting? && Stopping(s0, s, steps, todo) && c in todo
    ensures c in s.chans && !s.chans[c].closed
    ensures var x := Shut(s.chans[c], |s.published|);
            Stopping(s0, s.(chans := s.chans[c := x], loop := Closing(todo - {c})), steps + [CloseOne(c)], todo - {c})
  {
    OpenChan(s0, c);
    assert Apply(s, CloseOne(c)) ==
             s.(chans := s.chans[c := Shut(s.chans[c], |s.published|)], loop := Closing(todo - {c}));
    LeadsOn(s0, steps, s, CloseOne(c));
  }

  lemma StoppingEnds<V>(s0: St<V>, s: St<V>, steps: seq<Step<V>>)
    requires Inv(s0) && Stopping(s0, s, steps, {})
    ensures Leads(s0, steps + [Exit], s.(loop := Exited)) && Inv(s.(loop := Exited))
    ensures forall c :: c in s.chans && c !in s.joining ==> s.chans[c].closed
  {
    LeadsOn(s0, steps, s, Exit);
    LeadsKeepsInv(s0, steps + [Exit], Apply(s, Exit));
    forall c | c in s.chans && c !in s.joining ensures s.chans[c].closed {
      assert ChanOk(Apply(s, Exit), c);
    }
  }

  // What the select of run has to do in one turn, field by field.  Where Go
  // would panic there is a precondition; each turn is a run of the system above,
  // in whatever order the map of subscribers is walked.
  class Hub<V(==)> {
    var chans: map<Chan, ChanState<V>>
    var joining: set<Chan>
    var subs: set<Chan>
    var stop: bool
    var published: seq<V>
    ghost var loop: Loop<V>

    ghost function State(): St<V>
      reads this
    {
      St(chans, joining, subs, loop, stop, published, false)
    }

    constructor ()
      ensures State() == Initial()
    {
      chans, joining, subs, stop, published := map[], {}, {}, false, [];
      loop := Selecting;
    }

    // close(ch)
    method CloseChan(c: Chan)
      requires c in chans && !chans[c].closed
      modifies `chans
      ensures chans == old(chans)[c := Shut(old(chans)[c], |published|)]
    {
      chans := chans[c := Shut(chans[c], |published|)];
    }

    // select { case ch <- v: default: }
    method SendOne(c: Chan, v: V, receivers: set<Chan>, ghost s0: St<V>, ghost steps: seq<Step<V>>,
        ghost todo: set<Chan>)
      returns (ghost steps': seq<Step<V>>)
      requires Inv(s0) && s0.loop.Selecting? && Publishing(s0, State(), steps, v, todo, receivers) && c in todo
      modifies `chans, `loop
      ensures Publishing(s0, State(), steps', v, todo - {c}, receivers)
    {
      PublishingOn(s0, State(), steps, v, todo, receivers, c);
      assert !chans[c].closed;
      var waiting := c in receivers && chans[c].buf == [];
      steps' := steps + [Send(c, waiting)];
      chans := chans[c := Offered(chans[c], v, |published| - 1, waiting)];
      loop := Sending(v, todo - {c});
    }

    method TurnSubscribe(c: Chan)
      requires Inv(State()) && loop.Selecting? && c in joining
      modifies this
      ensures State() == Apply(old(State()), Register(c)) && Inv(State())
      ensures c in subs && !chans[c].closed
    {
      StepKeepsInv(State(), Register(c));
      assert ChanOk(State(), c);
      chans := chans[c := chans[c].(from := Some(|published|))];
      joining, subs := joining - {c}, subs + {c};
    }

    method TurnUnsubscribe(c: Chan)
      requires Inv(State()) && loop.Selecting?
      modifies `chans, `subs
      ensures State() == Apply(old(State()), Unsubscribe(c)) && Inv(State())
      ensures c !in subs && (c in old(subs) ==> c in chans && chans[c].closed)
    {
      StepKeepsInv(State(), Unsubscribe(c));
      var todo := subs;
      while todo != {}
        invariant todo <= subs == old(subs) && chans == old(chans)
        invariant c in subs ==> c in todo
        decreases |todo|
      {
        var ch :| ch in todo;
        if ch == c {
          assert ChanOk(old(State()), c);
          subs := subs - {ch};
          CloseChan(ch);
          return;
        }
        todo := todo - {ch};
      }
      assert c !in subs;
    }

    /** Publishing reaches every registered channel once, whatever the order:
        taken, buffered or lost; no other channel is touched. */
    method TurnPublish(v: V, receivers: set<Chan>) returns (ghost steps: seq<Step<V>>)
      requires Inv(State()) && loop.Selecting?
      modifies this
      ensures Leads(old(State()), steps, State()) && Inv(State()) && loop.Selecting?
      ensures published == old(published) + [v] && subs == old(subs) && chans.Keys == old(chans).Keys
      ensures forall c :: c in subs && (|old(chans)[c].buf| < old(chans)[c].cap
                                        || (c in receivers && old(chans)[c].buf == [])) ==>
                            chans[c].got + chans[c].buf == old(chans)[c].got + old(chans)[c].buf + [v] &&
                            chans[c].lost == old(chans)[c].lost
      ensures forall c :: c in subs && |old(chans)[c].buf| == old(chans)[c].cap
                          && !(c in receivers && old(chans)[c].buf == []) ==>
                            chans[c].got == old(chans)[c].got && chans[c].buf == old(chans)[c].buf && chans[c].lost
      ensures forall c :: c in chans && c !in subs ==> chans[c] == old(chans)[c]
      ensures forall c :: c in subs ==> |chans[c].buf| <= chans[c].cap == old(chans)[c].cap
      ensures forall c :: c in chans ==>
                            Reached(chans[c], old(chans)[c], c in subs, v, |old(published)|, c in receivers)
    {
      ghost var s0 := State();
      PublishingStarts(s0, v, receivers);
      published := published + [v];
      loop := Sending(v, subs);
      steps := [Publish(v)];
      var todo := subs;
      while todo != {}
        invariant Publishing(s0, State(), steps, v, todo, receivers)
        decreases |todo|
      {
        var c :| c in todo;
        steps := SendOne(c, v, receivers, s0, steps, todo);
        todo := todo - {c};
      }
      PublishingEnds(s0, State(), steps, v, receivers);
      PublishedPlainly(s0, State(), steps, v, receivers);
      steps := steps + [Sent];
      loop := Selecting;
    }

    /** Stopping closes every registered channel exactly once and no other. */
    method TurnStop() returns (ghost steps: seq<Step<V>>)
      requires Inv(State()) && loop.Selecting? && stop
      modifies this
      ensures Leads(old(State()), steps, State()) && Inv(State()) && loop.Exited? && !stop
      ensures subs == old(subs) && published == old(published) && chans.Keys == old(chans).Keys
      ensures forall c :: c in chans ==> Ended(chans[c], old(chans)[c], c in subs, |published|)
      ensures forall c :: c in chans && c !in joining ==> chans[c].closed
    {
      ghost var s0 := State();
      StoppingStarts(s0);
      stop := false;
      loop := Closing(subs);
      steps := [BeginClose];
      var todo := subs;
      while todo != {}
        invariant Stopping(s0, State(), steps, todo)
        decreases |todo|
      {
        var c :| c in todo;
        StoppingOn(s0, State(), steps, todo, c);
        steps := steps + [CloseOne(c)];
        CloseChan(c);
        todo := todo - {c};
        loop := Closing(todo);
      }
      StoppingEnds(s0, State(), steps);
      steps := steps + [Exit];
      loop := Exited;
    }
  }
}
