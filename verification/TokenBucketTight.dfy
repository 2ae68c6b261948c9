/** The token bucket filter holds nothing back that it could have sent: a packet waits or is dropped only if
    sending it at once would have been too much for some interval of time. */
module TokenBucketTight {
  import opened Common
  import opened TokenBucket

  /** Some interval up to now is used up: what left in it and what is left are a full bucket and the inflow. */
  ghost predicate Tight(c: Config, s: State, log: seq<(real, Pkt)>) {
    exists a: real :: a <= s.last && BitsSent(log, a, s.last) + s.tokens == c.bucket as real + Flow(c, a, s.last)
  }

  /** Were p sent at this time, every interval that ends then would still conform. */
  ghost predicate CanLeave(c: Config, log: seq<(real, Pkt)>, p: Pkt, at: real) {
    forall a: real :: a <= at ==> BitsSent(log, a, at) + Bits(p) <= c.bucket as real + Flow(c, a, at)
  }

  lemma UpdatedTight(c: Config, s: State, log: seq<(real, Pkt)>, now: real)
    requires Sane(c) && s.last <= now && Tight(c, s, log) && s.tokens <= c.bucket as real
    requires forall i :: 0 <= i < |log| ==> log[i].0 <= s.last
    ensures Tight(c, Updated(c, s, now), log)
  {
    hide Flow, BitsSent;
    var s' := Updated(c, s, now);
    var a: real :| a <= s.last && BitsSent(log, a, s.last) + s.tokens == c.bucket as real + Flow(c, a, s.last);
    FlowsIn(c, a, s.last, now);
    if s.tokens + Flow(c, s.last, now) <= c.bucket as real {
      LaterAlike(log, a, s.last, now);
      assert BitsSent(log, a, now) + s'.tokens == c.bucket as real + Flow(c, a, now);
    } else {
      FlowsIn(c, s.last, now, now);
      LaterAlike(log, now, s.last, now);
      assert BitsSent(log, now, now) + s'.tokens == c.bucket as real + Flow(c, now, now);
    }
  }

  lemma SentTight(c: Config, s: State, log: seq<(real, Pkt)>, p: Pkt, s': State)
    requires Tight(c, s, log) && s'.last == s.last && s'.tokens == s.tokens - Bits(p)
    ensures Tight(c, s', log + [(s.last, p)])
  {
    var log' := log + [(s.last, p)];
    assert log'[..|log|] == log;
    var a: real :| a <= s.last && BitsSent(log, a, s.last) + s.tokens == c.bucket as real + Flow(c, a, s.last);
    assert BitsSent(log', a, s.last) == BitsSent(log, a, s.last) + Bits(p);
  }

  lemma SameTight(c: Config, s: State, log: seq<(real, Pkt)>, s': State)
    requires Tight(c, s, log) && s'.last == s.last && s'.tokens == s.tokens
    ensures Tight(c, s', log)
  {
  }

  /** The first packet finds a full bucket. */
  lemma FirstTight(c: Config, now: real)
    requires Sane(c)
    ensures Tight(c, State(c.bucket as real, now, [], None, false), [])
  {
    FlowsIn(c, now, now, now);
    assert BitsSent([], now, now) + c.bucket as real == c.bucket as real + Flow(c, now, now);
  }

  ghost predicate TightInv(c: Config, t: Trace) {
    t.st.init || Tight(c, t.st, t.log)
  }

  lemma InvIs(c: Config, t: Trace)
    requires Inv(c, t)
    ensures t.st.tokens <= c.bucket as real && t.st.last <= t.now && |t.st.queue| <= c.qlen
    ensures forall i :: 0 <= i < |t.log| ==> t.log[i].0 <= t.st.last
    ensures t.st.init ==> t.st == Fresh && t.log == []
    ensures TimerInv(c, t.st) && Paid(c, t.st, t.log)
  {
  }

  lemma StepTight(c: Config, t: Trace, e: Event)
    requires Sane(c) && Inv(c, t) && Timely(t, e) && TightInv(c, t)
    requires Step(c, t, e).Some?
    ensures TightInv(c, Step(c, t, e).value)
  {
    hide Inv, Tight, Updated, Wait, Flow, Bits;
    InvIs(c, t);
    match e
    case Arrive(at, p) =>
      var s0 := if t.st.init then t.st.(tokens := c.bucket as real, last := at, init := false) else t.st;
      if t.st.init { FirstTight(c, at); }
      UpdatedTight(c, s0, t.log, at);
      UpdatedIs(c, s0, at);
      var s1 := Updated(c, s0, at);
      var t' := Step(c, t, e).value;
      if s0.queue != [] {
        SameTight(c, s0, t.log, t'.st);
      } else if s1.tokens >= Bits(p) {
        SentTight(c, s1, t.log, p, t'.st);
      } else {
        SameTight(c, s1, t.log, t'.st);
      }
    case Expire(at) =>
      if !t.st.init {
        UpdatedTight(c, t.st, t.log, at);
        UpdatedIs(c, t.st, at);
        SentTight(c, Updated(c, t.st, at), t.log, t.st.queue[0], Step(c, t, e).value.st);
      }
  }

  lemma {:induction false} AlwaysTight(c: Config, events: seq<Event>)
    requires Sane(c) && Legal(c, events) && Run(c, events).Some?
    ensures Inv(c, Run(c, events).value) && TightInv(c, Run(c, events).value)
  {
    hide Inv, TightInv, Step, Timely;
    RunKeeps(c, events);
    if events == [] {
      StartTight(c);
    } else {
      var n := |events| - 1;
      RunKeeps(c, events[..n]);
      AlwaysTight(c, events[..n]);
      StepTight(c, Run(c, events[..n]).value, events[n]);
    }
  }

  lemma StartTight(c: Config)
    ensures TightInv(c, Trace(Fresh, 0.0, [], []))
  {
  }

  /** With tokens for p there is room in every interval, without them there is none in some interval. */
  lemma TokensDecide(c: Config, s: State, log: seq<(real, Pkt)>, p: Pkt)
    requires Paid(c, s, log) && Tight(c, s, log)
    ensures s.tokens >= Bits(p) <==> CanLeave(c, log, p, s.last)
  {
    hide BitsSent, Flow, Bits;
    var a: real :| a <= s.last && BitsSent(log, a, s.last) + s.tokens == c.bucket as real + Flow(c, a, s.last);
    if CanLeave(c, log, p, s.last) {
      assert BitsSent(log, a, s.last) + Bits(p) <= c.bucket as real + Flow(c, a, s.last);
    }
    if s.tokens >= Bits(p) {
      forall a: real | a <= s.last ensures BitsSent(log, a, s.last) + Bits(p) <= c.bucket as real + Flow(c, a, s.last) {
        assert BitsSent(log, a, s.last) + s.tokens <= c.bucket as real + Flow(c, a, s.last);
      }
    }
  }

  /** In every run: an arriving packet leaves at once exactly when nobody waits and every interval still conforms
      with it. If it cannot, it is dropped exactly when qlen packets wait already, and is queued otherwise. */
  lemma ArrivalIff(c: Config, events: seq<Event>, p: Pkt, at: real)
    requires Sane(c) && Legal(c, events) && Run(c, events).Some? && Timely(Run(c, events).value, Arrive(at, p))
    ensures var t := Run(c, events).value;
      var out := Recv(c, t.st, p, at).1;
      && (out == Sent(p) <==> t.st.queue == [] && CanLeave(c, t.log, p, at))
      && (out == Dropped <==> out != Sent(p) && |t.st.queue| == c.qlen)
      && (out == Queued <==> out != Sent(p) && |t.st.queue| < c.qlen)
      && (t.st.init ==> (out == Sent(p) <==> Bits(p) <= c.bucket as real))
  {
    hide Inv, Tight, Paid, Updated, Wait, Flow, Bits, CanLeave, Run, Legal;
    AlwaysTight(c, events);
    var t := Run(c, events).value;
    InvIs(c, t);
    var s0 := if t.st.init then t.st.(tokens := c.bucket as real, last := at, init := false) else t.st;
    if t.st.init {
      FirstTight(c, at);
      FirstPaid(c, at);
      FullStays(c, s0, at);
    }
    UpdatedPaid(c, s0, t.log, at);
    UpdatedTight(c, s0, t.log, at);
    UpdatedIs(c, s0, at);
    TokensDecide(c, Updated(c, s0, at), t.log, p);
  }

  lemma FullStays(c: Config, s: State, now: real)
    requires Sane(c) && s.tokens == c.bucket as real && s.last == now
    ensures Updated(c, s, now).tokens == c.bucket as real
  {
    FlowsIn(c, now, now, now);
  }

  /** While packets wait, the timer is set for the first moment at which the head could leave; it can leave then
      exactly when it is not larger than the bucket. */
  lemma NoSooner(c: Config, events: seq<Event>, at: real)
    requires Sane(c) && Legal(c, events) && Run(c, events).Some?
    requires var t := Run(c, events).value; t.st.timer.Some? && t.now <= at <= t.st.timer.value
    ensures var t := Run(c, events).value;
      t.st.queue != [] &&
      (CanLeave(c, t.log, t.st.queue[0], at) <==>
         at == t.st.timer.value && Bits(t.st.queue[0]) <= c.bucket as real)
  {
    hide Inv, Tight, Paid, Bits, CanLeave, Run, Legal;
    AlwaysTight(c, events);
    var t := Run(c, events).value;
    InvIs(c, t);
    var p := t.st.queue[0];
    UpdatedPaid(c, t.st, t.log, at);
    UpdatedTight(c, t.st, t.log, at);
    UpdatedIs(c, t.st, at);
    TokensDecide(c, Updated(c, t.st, at), t.log, p);
    if at < t.st.timer.value { LessFlows(c, t.st.last, at, t.st.timer.value); }
  }

  lemma LessFlows(c: Config, from: real, a: real, b: real)
    requires Sane(c) && a < b
    ensures Flow(c, from, a) < Flow(c, from, b)
  {
  }
}
