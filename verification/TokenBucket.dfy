/** The token bucket filter (adc/tbf.cc): packets leave at once while there are tokens, wait in a queue
    otherwise, and a timer releases the head of the queue when the tokens have reached its size. */
module TokenBucket {
  import opened Common

  // A packet and its size in bytes.
  datatype Pkt = Pkt(id: nat, size: nat)

  // Bits per second, bits, packets.
  datatype Config = Config(rate: real, bucket: nat, qlen: nat)

  // The timer, when set, is the time at which it goes off. init: no packet has arrived yet.
  datatype State = State(tokens: real, last: real, queue: seq<Pkt>, timer: Option<real>, init: bool)

  datatype Outcome = Sent(pkt: Pkt) | Queued | Dropped

  function Bits(p: Pkt): (b: real)
    ensures b >= 0.0
  {
    (8 * p.size) as real
  }

  predicate Sane(c: Config) { c.rate > 0.0 }

  const Fresh := State(0.0, 0.0, [], None, true)

  // ---------- the steps ----------

  /** The bits that flow into the bucket meanwhile. */
  function Flow(c: Config, from: real, to: real): real { (to - from) * c.rate }

  function Updated(c: Config, s: State, now: real): State {
    var tokens := s.tokens + Flow(c, s.last, now);
    s.(tokens := if tokens > c.bucket as real then c.bucket as real else tokens, last := now)
  }

  function Wait(c: Config, tokens: real, p: Pkt): real
    requires Sane(c)
  {
    (Bits(p) - tokens) / c.rate
  }

  function Recv(c: Config, s: State, p: Pkt, now: real): (State, Outcome)
    requires Sane(c)
  {
    var s0 := if s.init then s.(tokens := c.bucket as real, last := now, init := false) else s;
    if s0.queue != [] then
      if |s0.queue| < c.qlen then (s0.(queue := s0.queue + [p]), Queued) else (s0, Dropped)
    else
      var s1 := Updated(c, s0, now);
      if s1.tokens >= Bits(p) then (s1.(tokens := s1.tokens - Bits(p)), Sent(p))
      else if c.qlen != 0 then (s1.(queue := [p], timer := Some(now + Wait(c, s1.tokens, p))), Queued)
      else (s1, Dropped)
  }

  /** The timer goes off: the head is sent without a look at the tokens. None when the program aborts. */
  function Timeout(c: Config, s: State, now: real): Option<(State, Pkt)>
    requires Sane(c)
  {
    if s.queue == [] then None
    else
      var p, rest := s.queue[0], s.queue[1..];
      var s1 := Updated(c, s, now);
      var tokens := s1.tokens - Bits(p);
      Some((s1.(tokens := tokens, queue := rest,
                timer := if rest == [] then None else Some(now + Wait(c, tokens, rest[0]))), p))
  }

  // ---------- runs ----------

  datatype Event = Arrive(at: real, pkt: Pkt) | Expire(at: real)

  // What left, each with its time, and what was not dropped, in the order of arrival.
  datatype Trace = Trace(st: State, now: real, log: seq<(real, Pkt)>, accepted: seq<Pkt>)

  /** Time does not run backwards, the timer goes off when it is due, and nothing happens later than that before it. */
  predicate Timely(t: Trace, e: Event) {
    && t.now <= e.at
    && (t.st.timer.Some? ==> e.at <= t.st.timer.value)
    && (e.Expire? ==> t.st.timer == Some(e.at))
  }

  function Step(c: Config, t: Trace, e: Event): Option<Trace>
    requires Sane(c)
  {
    match e
    case Arrive(at, p) =>
      var (st, out) := Recv(c, t.st, p, at);
      Some(Trace(st, at, if out.Sent? then t.log + [(at, out.pkt)] else t.log,
                 if out.Dropped? then t.accepted else t.accepted + [p]))
    case Expire(at) =>
      match Timeout(c, t.st, at)
      case None => None
      case Some((st, p)) => Some(Trace(st, at, t.log + [(at, p)], t.accepted))
  }

  /** The events happen in this order, starting with an empty filter at time 0; None if the program aborted. */
  function Run(c: Config, events: seq<Event>): Option<Trace>
    requires Sane(c)
  {
    if events == [] then Some(Trace(Fresh, 0.0, [], []))
    else
      match Run(c, events[..|events| - 1])
      case None => None
      case Some(t) => Step(c, t, events[|events| - 1])
  }

  predicate Legal(c: Config, events: seq<Event>)
    requires Sane(c)
  {
    events == [] ||
    (var n := |events| - 1;
     Legal(c, events[..n]) && (Run(c, events[..n]).Some? ==> Timely(Run(c, events[..n]).value, events[n])))
  }

  /** Bits that left from time a to time b. */
  function BitsSent(log: seq<(real, Pkt)>, a: real, b: real): (r: real)
    ensures r >= 0.0
  {
    if log == [] then 0.0
    else
      var (t, p) := log[|log| - 1];
      BitsSent(log[..|log| - 1], a, b) + if a <= t <= b then Bits(p) else 0.0
  }

  function Pkts(log: seq<(real, Pkt)>): (r: seq<Pkt>)
    ensures |r| == |log| && forall i :: 0 <= i < |log| ==> r[i] == log[i].1
  {
    seq(|log|, i requires 0 <= i < |log| => log[i].1)
  }

  // ---------- what every run keeps ----------

  /** While packets wait, the timer is set to the moment at which the tokens reach the size of the head. */
  predicate TimerInv(c: Config, s: State) {
    && (s.queue == [] <==> s.timer.None?)
    && (s.timer.Some? ==> s.tokens + Flow(c, s.last, s.timer.value) == Bits(s.queue[0]) && s.last <= s.timer.value)
  }

  /** What was sent since any moment is covered by a full bucket and what has flowed in since, less what is left. */
  ghost predicate Paid(c: Config, s: State, log: seq<(real, Pkt)>) {
    forall a: real :: a <= s.last ==> BitsSent(log, a, s.last) + s.tokens <= c.bucket as real + Flow(c, a, s.last)
  }

  ghost predicate Inv(c: Config, t: Trace) {
    && (t.st.init ==> t.st == Fresh && t.log == [])
    && t.st.tokens <= c.bucket as real
    && |t.st.queue| <= c.qlen
    && 0.0 <= t.st.last <= t.now
    && (t.st.timer.Some? ==> t.now <= t.st.timer.value)
    && TimerInv(c, t.st)
    && Pkts(t.log) + t.st.queue == t.accepted
    && (forall i :: 0 <= i < |t.log| ==> t.log[i].0 <= t.st.last)
    && Paid(c, t.st, t.log)
  }

  lemma WaitIs(c: Config, tokens: real, p: Pkt)
    requires Sane(c)
    ensures Wait(c, tokens, p) * c.rate == Bits(p) - tokens
    ensures tokens <= Bits(p) ==> Wait(c, tokens, p) >= 0.0
  {
    var x, r := Bits(p) - tokens, c.rate;
    assert (x / r) * r == x;
    if x >= 0.0 && x / r < 0.0 { assert (x / r) * r < 0.0; }
  }

  lemma FlowsIn(c: Config, from: real, mid: real, to: real)
    requires Sane(c) && from <= mid <= to
    ensures Flow(c, from, mid) + Flow(c, mid, to) == Flow(c, from, to)
    ensures Flow(c, from, mid) >= 0.0 && Flow(c, mid, to) >= 0.0 && (from == to ==> Flow(c, from, to) == 0.0)
  {
  }

  lemma WaitFlows(c: Config, tokens: real, p: Pkt, now: real)
    requires Sane(c)
    ensures Flow(c, now, now + Wait(c, tokens, p)) == Bits(p) - tokens
    ensures tokens <= Bits(p) ==> Wait(c, tokens, p) >= 0.0
  {
    hide Bits;
    WaitIs(c, tokens, p);
  }

  lemma {:induction false} LaterAlike(log: seq<(real, Pkt)>, a: real, b: real, b': real)
    requires forall i :: 0 <= i < |log| ==> log[i].0 <= b
    requires b <= b'
    ensures BitsSent(log, a, b') == BitsSent(log, a, b)
    ensures b < a ==> BitsSent(log, a, b') == 0.0
  {
    if log != [] { LaterAlike(log[..|log| - 1], a, b, b'); }
  }

  lemma UpdatedPaid(c: Config, s: State, log: seq<(real, Pkt)>, now: real)
    requires Sane(c) && s.last <= now && Paid(c, s, log)
    requires forall i :: 0 <= i < |log| ==> log[i].0 <= s.last
    ensures Paid(c, Updated(c, s, now), log) && Updated(c, s, now).tokens <= c.bucket as real
  {
    hide Flow;
    var s' := Updated(c, s, now);
    forall a: real | a <= now ensures BitsSent(log, a, now) + s'.tokens <= c.bucket as real + Flow(c, a, now) {
      LaterAlike(log, a, s.last, now);
      if a <= s.last {
        assert BitsSent(log, a, s.last) + s.tokens <= c.bucket as real + Flow(c, a, s.last);
        FlowsIn(c, a, s.last, now);
      } else {
        FlowsIn(c, a, a, now);
      }
    }
  }

  lemma SentPaid(c: Config, s: State, log: seq<(real, Pkt)>, p: Pkt, s': State)
    requires Paid(c, s, log) && s'.last == s.last && s'.tokens == s.tokens - Bits(p)
    ensures Paid(c, s', log + [(s.last, p)])
  {
    var log' := log + [(s.last, p)];
    assert log'[..|log|] == log;
    forall a: real | a <= s.last ensures BitsSent(log', a, s.last) == BitsSent(log, a, s.last) + Bits(p) {}
  }

  lemma PktsSnoc(log: seq<(real, Pkt)>, t: real, p: Pkt)
    ensures Pkts(log + [(t, p)]) == Pkts(log) + [p]
  {
  }

  lemma FirstPaid(c: Config, now: real)
    requires Sane(c)
    ensures Paid(c, State(c.bucket as real, now, [], None, false), [])
  {
    forall a: real | a <= now ensures BitsSent([], a, now) <= Flow(c, a, now) { FlowsIn(c, a, a, now); }
  }

  lemma ArriveKeeps(c: Config, t: Trace, p: Pkt, at: real)
    requires Sane(c) && Inv(c, t) && Timely(t, Arrive(at, p))
    ensures Inv(c, Step(c, t, Arrive(at, p)).value)
  {
    hide Paid, BitsSent, Pkts, Updated, Wait, Flow;
    var s0 := if t.st.init then t.st.(tokens := c.bucket as real, last := at, init := false) else t.st;
    if t.st.init { FirstPaid(c, at); }
    if s0.queue == [] {
      UpdatedPaid(c, s0, t.log, at);
      UpdatedIs(c, s0, at);
      var s1 := Updated(c, s0, at);
      var t' := Step(c, t, Arrive(at, p)).value;
      PktsSnoc(t.log, at, p);
      if s1.tokens >= Bits(p) {
        SentPaid(c, s1, t.log, p, t'.st);
      } else {
        WaitFlows(c, s1.tokens, p, at);
        SamePaid(c, s1, t.log, t'.st);
      }
    } else {
      SamePaid(c, s0, t.log, s0.(queue := s0.queue + [p]));
    }
  }

  lemma UpdatedIs(c: Config, s: State, now: real)
    ensures Updated(c, s, now) == s.(tokens := Updated(c, s, now).tokens, last := now)
  {
  }

  lemma SamePaid(c: Config, s: State, log: seq<(real, Pkt)>, s': State)
    requires Paid(c, s, log) && s'.last == s.last && s'.tokens == s.tokens
    ensures Paid(c, s', log)
  {
  }

  /** The timer goes off with tokens for the head exactly used up, unless the packet is larger than the bucket. */
  lemma TimeoutTokens(c: Config, s: State, now: real)
    requires Sane(c) && TimerInv(c, s) && s.timer == Some(now)
    ensures Updated(c, s, now).tokens - Bits(s.queue[0])
      == if Bits(s.queue[0]) <= c.bucket as real then 0.0 else c.bucket as real - Bits(s.queue[0])
  {
    assert s.queue != [] && s.tokens + Flow(c, s.last, now) == Bits(s.queue[0]);
  }

  lemma ExpireKeeps(c: Config, t: Trace, at: real)
    requires Sane(c) && Inv(c, t) && Timely(t, Expire(at))
    ensures Step(c, t, Expire(at)).Some? && Inv(c, Step(c, t, Expire(at)).value)
  {
    hide Paid, BitsSent, Pkts, Updated, Wait, Flow;
    var p, rest := t.st.queue[0], t.st.queue[1..];
    UpdatedPaid(c, t.st, t.log, at);
    UpdatedIs(c, t.st, at);
    TimeoutTokens(c, t.st, at);
    PktsSnoc(t.log, at, p);
    var t' := Step(c, t, Expire(at)).value;
    SentPaid(c, Updated(c, t.st, at), t.log, p, t'.st);
    assert t.st.queue == [p] + rest;
    if rest != [] { WaitFlows(c, t'.st.tokens, rest[0], at); }
  }

  lemma {:induction false} RunKeeps(c: Config, events: seq<Event>)
    requires Sane(c) && Legal(c, events)
    ensures Run(c, events).Some? && Inv(c, Run(c, events).value)
  {
    hide Inv, Step, Timely;
    if events == [] {
      StartInv(c);
    } else {
      var n := |events| - 1;
      RunKeeps(c, events[..n]);
      StepKeeps(c, Run(c, events[..n]).value, events[n]);
    }
  }

  lemma StartInv(c: Config)
    requires Sane(c)
    ensures Inv(c, Trace(Fresh, 0.0, [], []))
  {
    assert c.bucket as real >= 0.0;
    forall a: real | a <= 0.0 ensures BitsSent([], a, 0.0) <= Flow(c, a, 0.0) { FlowsIn(c, a, a, 0.0); }
  }

  lemma StepKeeps(c: Config, t: Trace, e: Event)
    requires Sane(c) && Inv(c, t) && Timely(t, e)
    ensures Step(c, t, e).Some? && Inv(c, Step(c, t, e).value)
  {
    match e
    case Arrive(at, p) => ArriveKeeps(c, t, p, at);
    case Expire(at) => ExpireKeeps(c, t, at);
  }

  // ---------- what the filter promises ----------

  predicate Fits(c: Config, log: seq<(real, Pkt)>) {
    forall i :: 0 <= i < |log| ==> Bits(log[i].1) <= c.bucket as real
  }

  lemma LogGrows(c: Config, t: Trace, e: Event)
    requires Sane(c) && Step(c, t, e).Some?
    ensures var t' := Step(c, t, e).value;
      t'.now == e.at && t.log <= t'.log && |t'.log| <= |t.log| + 1 && (|t'.log| > |t.log| ==> t'.log[|t.log|].0 == e.at)
  {
    hide Recv, Timeout;
  }

  /** While no packet larger than the bucket has left, the tokens stay between 0 and the bucket. */
  lemma {:induction false} TokensInRange(c: Config, events: seq<Event>)
    requires Sane(c) && Legal(c, events) && Run(c, events).Some? && Fits(c, Run(c, events).value.log)
    ensures 0.0 <= Run(c, events).value.st.tokens <= c.bucket as real
  {
    hide Inv, Step, Timely;
    RunKeeps(c, events);
    MostTokens(c, Run(c, events).value);
    if events != [] {
      var n := |events| - 1;
      RunKeeps(c, events[..n]);
      var t := Run(c, events[..n]).value;
      LogGrows(c, t, events[n]);
      assert Fits(c, t.log);
      TokensInRange(c, events[..n]);
      StepTokens(c, t, events[n]);
    }
  }

  lemma MostTokens(c: Config, t: Trace)
    requires Inv(c, t)
    ensures t.st.tokens <= c.bucket as real
  {
  }

  lemma StepTokens(c: Config, t: Trace, e: Event)
    requires Sane(c) && Inv(c, t) && Timely(t, e) && t.st.tokens >= 0.0 && Step(c, t, e).Some?
    requires Fits(c, Step(c, t, e).value.log)
    ensures Step(c, t, e).value.st.tokens >= 0.0
  {
    hide Paid, Pkts, Wait, Flow;
    match e
    case Arrive(at, p) =>
      FlowsIn(c, if t.st.init then at else t.st.last, at, at);
    case Expire(at) =>
      TimeoutTokens(c, t.st, at);
      assert Step(c, t, e).value.log[|t.log|] == (at, t.st.queue[0]);
  }

  lemma {:induction false} NotYet(log: seq<(real, Pkt)>, more: seq<(real, Pkt)>, a: real, b: real)
    requires forall i :: 0 <= i < |more| ==> more[i].0 > b
    ensures BitsSent(log + more, a, b) == BitsSent(log, a, b)
  {
    if more == [] {
      assert log + more == log;
    } else {
      var m := |more| - 1;
      assert (log + more)[..|log| + m] == log + more[..m];
      NotYet(log, more[..m], a, b);
    }
  }

  lemma SameSoFar(before: seq<(real, Pkt)>, log: seq<(real, Pkt)>, at: real, a: real, b: real)
    requires before <= log && |log| <= |before| + 1 && b < at && (|log| > |before| ==> log[|before|].0 == at)
    ensures BitsSent(log, a, b) == BitsSent(before, a, b)
  {
    assert log == before + log[|before|..];
    NotYet(before, log[|before|..], a, b);
  }

  lemma NothingSent(a: real, b: real)
    ensures BitsSent([], a, b) == 0.0
  {
  }

  lemma FitsPart(c: Config, part: seq<(real, Pkt)>, log: seq<(real, Pkt)>)
    requires Fits(c, log) && part <= log
    ensures Fits(c, part)
  {
  }

  /** In every run, what leaves from time a to time b is at most a full bucket and what flows in meanwhile. */
  lemma {:induction false} Conformance(c: Config, events: seq<Event>, a: real, b: real)
    requires Sane(c) && Legal(c, events) && Run(c, events).Some? && Fits(c, Run(c, events).value.log) && a <= b
    ensures BitsSent(Run(c, events).value.log, a, b) <= c.bucket as real + Flow(c, a, b)
  {
    hide Inv, Step, Timely, Flow, BitsSent, Fits;
    FlowsIn(c, a, a, b);
    RunKeeps(c, events);
    var t := Run(c, events).value;
    if events == [] {
      NothingSent(a, b);
    } else {
      var n := |events| - 1;
      RunKeeps(c, events[..n]);
      var t0 := Run(c, events[..n]).value;
      LogGrows(c, t0, events[n]);
      if b < events[n].at {
        FitsPart(c, t0.log, t.log);
        Conformance(c, events[..n], a, b);
        SameSoFar(t0.log, t.log, events[n].at, a, b);
      } else {
        TokensInRange(c, events);
        UpToNow(c, t, a, b);
      }
    }
  }

  lemma UpToNow(c: Config, t: Trace, a: real, b: real)
    requires Sane(c) && Inv(c, t) && a <= b && t.now <= b && t.st.tokens >= 0.0
    ensures BitsSent(t.log, a, b) <= c.bucket as real + Flow(c, a, b)
  {
    hide Flow, Pkts;
    FlowsIn(c, a, a, b);
    LaterAlike(t.log, a, t.st.last, b);
    if a <= t.st.last {
      FlowsIn(c, a, t.st.last, b);
    }
  }

  lemma {:induction false} SentAt(log: seq<(real, Pkt)>, i: nat)
    requires i < |log|
    ensures BitsSent(log, log[i].0, log[i].0) >= Bits(log[i].1)
  {
    var m := |log| - 1;
    if i < m {
      assert log[..m][i] == log[i];
      SentAt(log[..m], i);
    } else {
      assert log[m] == (log[i].0, log[i].1);
    }
  }

  ghost predicate Conforms(c: Config, log: seq<(real, Pkt)>) {
    forall a: real, b: real :: a <= b ==> BitsSent(log, a, b) <= c.bucket as real + Flow(c, a, b)
  }

  /** A run conforms over every interval exactly when no packet that left was larger than the bucket. */
  lemma ConformsIff(c: Config, events: seq<Event>)
    requires Sane(c) && Legal(c, events)
    ensures Run(c, events).Some?
    ensures var log := Run(c, events).value.log; Conforms(c, log) <==> Fits(c, log)
  {
    hide Legal, Run, Inv, Flow;
    RunKeeps(c, events);
    var log := Run(c, events).value.log;
    if Fits(c, log) {
      forall a: real, b: real | a <= b ensures BitsSent(log, a, b) <= c.bucket as real + Flow(c, a, b) {
        Conformance(c, events, a, b);
      }
    }
    if Conforms(c, log) {
      forall i | 0 <= i < |log| ensures Bits(log[i].1) <= c.bucket as real {
        SentAt(log, i);
        FlowsIn(c, log[i].0, log[i].0, log[i].0);
        assert BitsSent(log, log[i].0, log[i].0) <= c.bucket as real + Flow(c, log[i].0, log[i].0);
      }
    }
  }

  lemma {:induction false} AcceptedArrived(c: Config, events: seq<Event>, p: Pkt)
    requires Sane(c) && Run(c, events).Some? && p in Run(c, events).value.accepted
    ensures exists k :: 0 <= k < |events| && events[k].Arrive? && events[k].pkt == p
  {
    hide Recv, Timeout;
    var n := |events| - 1;
    var t := Run(c, events[..n]).value;
    if p in t.accepted {
      AcceptedArrived(c, events[..n], p);
      var k :| 0 <= k < n && events[..n][k].Arrive? && events[..n][k].pkt == p;
      assert events[k].Arrive? && events[k].pkt == p;
    } else {
      assert events[n].Arrive? && events[n].pkt == p;
    }
  }

  /** If no packet that arrives is larger than the bucket, every run conforms over every interval. */
  lemma SmallPacketsConform(c: Config, events: seq<Event>)
    requires Sane(c) && Legal(c, events)
    requires forall k :: 0 <= k < |events| && events[k].Arrive? ==> Bits(events[k].pkt) <= c.bucket as real
    ensures Run(c, events).Some? && Conforms(c, Run(c, events).value.log)
    ensures 0.0 <= Run(c, events).value.st.tokens <= c.bucket as real
  {
    hide Run, Legal;
    ConformsIff(c, events);
    Fifo(c, events);
    var t := Run(c, events).value;
    forall i | 0 <= i < |t.log| ensures Bits(t.log[i].1) <= c.bucket as real {
      var p := t.log[i].1;
      assert (Pkts(t.log) + t.st.queue)[i] == p;
      AcceptedArrived(c, events, p);
    }
    TokensInRange(c, events);
  }

  /** Packets leave in the order in which they were accepted, and whatever has not left is queued. */
  lemma Fifo(c: Config, events: seq<Event>)
    requires Sane(c) && Legal(c, events)
    ensures Run(c, events).Some?
    ensures var t := Run(c, events).value; Pkts(t.log) + t.st.queue == t.accepted && |t.st.queue| <= c.qlen
  {
    hide Run, Legal;
    RunKeeps(c, events);
  }

  /** In every run packets wait exactly while the timer is set, and it is set for the moment at which the tokens,
      were they updated then, would equal the head's size; so the send without a check leaves 0 tokens
      exactly when the head fits the bucket. */
  lemma TimerIsRight(c: Config, events: seq<Event>)
    requires Sane(c) && Legal(c, events)
    ensures Run(c, events).Some?
    ensures var s := Run(c, events).value.st;
      && (s.queue != [] <==> s.timer.Some?)
      && (s.timer.Some? ==>
            && s.tokens + Flow(c, s.last, s.timer.value) == Bits(s.queue[0])
            && Timeout(c, s, s.timer.value).Some?
            && (Timeout(c, s, s.timer.value).value.0.tokens == 0.0 <==> Bits(s.queue[0]) <= c.bucket as real))
  {
    hide Run, Legal, Updated, Flow;
    RunKeeps(c, events);
    var s := Run(c, events).value.st;
    if s.timer.Some? { TimeoutTokens(c, s, s.timer.value); }
  }
}
