/** Reservation signalling (adc/): a source sends a REQUEST along its path, every link books the
    rate or clears the decision bit, and a CONFIRM on the same path keeps or releases what was booked. */
module Reservation {
  import opened Common

  const NFLOWS := 500
  const FREE := -1

  datatype Kind = Request | Accept | Reject | Confirm | Teardown

  datatype Packet = Packet(kind: Kind, flow: nat, rate: real, decision: bool)

  // A link with its admission control: what is booked, how much may be booked (utilization times
  // bandwidth), the slots of the flows whose CONFIRM is awaited, and the count of admitted flows.
  datatype Link = Link(resv: real, cap: real, pending: seq<int>, numfl: int)

  // ---------- one link ----------

  /** The first slot that holds id, -1 if none does. */
  function Lookup(pending: seq<int>, id: int): (j: int)
    ensures -1 <= j < |pending|
    ensures j == -1 <==> id !in pending
    ensures j >= 0 ==> pending[j] == id && forall i :: 0 <= i < j ==> pending[i] != id
  {
    if pending == [] then -1
    else if pending[0] == id then 0
    else
      var j := Lookup(pending[1..], id);
      assert forall k :: 0 < k < |pending| ==> pending[k] == pending[1..][k - 1];
      if j == -1 then -1 else j + 1
  }

  predicate Admits(l: Link, rate: real) { l.resv + rate <= l.cap }

  /** A signalling packet passes a link; None when the table of pending flows is full and the program exits. */
  function Pass(l: Link, p: Packet): Option<(Link, Packet)> {
    match p.kind
    case Request =>
      if !Admits(l, p.rate) then Some((l, p.(decision := false)))
      else
        var j := Lookup(l.pending, FREE);
        if j == -1 then None
        else Some((l.(resv := l.resv + p.rate, pending := l.pending[j := p.flow], numfl := l.numfl + 1), p))
    case Confirm =>
      var j := Lookup(l.pending, p.flow);
      if j == -1 then Some((l, p))
      else
        var l' := l.(pending := l.pending[j := FREE]);
        Some((if p.decision then l' else l'.(resv := l.resv - p.rate, numfl := l.numfl - 1), p))
    case Teardown => Some((l.(resv := l.resv - p.rate, numfl := l.numfl - 1), p))
    case Accept => Some((l, p))
    case Reject => Some((l, p))
  }

  /** The receiver's answer to a REQUEST that has crossed its whole path. */
  function Answer(p: Packet): Packet {
    p.(kind := if p.decision then Accept else Reject)
  }

  /** The source turns the answer into the CONFIRM. */
  function TurnAround(p: Packet): Packet {
    if p.kind == Accept || p.kind == Reject then p.(kind := Confirm) else p
  }

  // ---------- many flows over many links ----------

  // What a flow's signalling packet is doing: nothing yet, or on its way past path[pos].
  datatype Phase = Idle | Requesting | Confirming | Leaving

  // net[l] counts how often link l has booked the flow less how often it has released it.
  datatype Flow = Flow(path: seq<nat>, rate: real, phase: Phase, pos: nat, decision: bool, net: map<nat, int>)

  datatype State = State(links: seq<Link>, flows: seq<Flow>)

  datatype Event = Start(i: nat) | Cross(i: nat) | Return(i: nat) | Stop(i: nat)

  function Net(f: Flow, l: nat): int { if l in f.net then f.net[l] else 0 }

  predicate Settled(f: Flow) { f.phase == Confirming && f.pos == |f.path| }

  /** The packet of flow i; no link reads the decision bit of a TEARDOWN, so it keeps what was decided. */
  function InFlight(i: nat, f: Flow): Packet
    requires f.phase != Idle
  {
    var kind := match f.phase case Requesting => Request case Confirming => Confirm case _ => Teardown;
    Packet(kind, i, f.rate, f.decision)
  }

  /** The packet of flow i passes the next link of its path. */
  function CrossStep(s: State, i: nat): Option<State>
    requires i < |s.flows| && s.flows[i].phase != Idle && s.flows[i].pos < |s.flows[i].path|
    requires s.flows[i].path[s.flows[i].pos] < |s.links|
  {
    var f := s.flows[i];
    var l := f.path[f.pos];
    match Pass(s.links[l], InFlight(i, f))
    case None => None
    case Some((link, p)) =>
      var f' := f.(pos := f.pos + 1, decision := p.decision,
                   net := f.net[l := Net(f, l) + link.numfl - s.links[l].numfl]);
      Some(State(s.links[l := link], s.flows[i := f']))
  }

  /** One event; one that is not possible in s changes nothing. */
  function Step(s: State, e: Event): Option<State> {
    var i := e.i;
    if i >= |s.flows| then Some(s)
    else
      var f := s.flows[i];
      match e
      case Start(_) =>
        Some(if f.phase != Idle then s
             else s.(flows := s.flows[i := f.(phase := Requesting, pos := 0, decision := true)]))
      case Cross(_) =>
        if f.phase == Idle || f.pos >= |f.path| || f.path[f.pos] >= |s.links| then Some(s) else CrossStep(s, i)
      case Return(_) =>
        if f.phase != Requesting || f.pos != |f.path| then Some(s)
        else
          var p := TurnAround(Answer(InFlight(i, f)));
          Some(s.(flows := s.flows[i := f.(phase := if p.kind == Confirm then Confirming else f.phase, pos := 0,
                                           decision := p.decision)]))
      case Stop(_) =>
        Some(if !Settled(f) then s else s.(flows := s.flows[i := f.(phase := Leaving, pos := 0)]))
  }

  function Run(s: State, events: seq<Event>): (r: Option<State>)
    ensures r.Some? ==> |r.value.links| == |s.links| && |r.value.flows| == |s.flows|
  {
    if events == [] then Some(s)
    else
      match Run(s, events[..|events| - 1])
      case None => None
      case Some(t) => Step(t, events[|events| - 1])
  }

  predicate Initial(s: State) {
    && (forall l :: 0 <= l < |s.links| ==>
          var k := s.links[l];
          k.resv == 0.0 <= k.cap && k.numfl == 0 && |k.pending| == NFLOWS
          && forall j :: 0 <= j < NFLOWS ==> k.pending[j] == FREE)
    && (forall i :: 0 <= i < |s.flows| ==>
          var f := s.flows[i];
          f.phase == Idle && f.pos == 0 && f.net == map[] && f.rate >= 0.0 && GoodPath(f.path, |s.links|))
  }

  /** A path crosses links that exist, none of them twice. */
  predicate GoodPath(path: seq<nat>, n: nat) {
    (forall k :: 0 <= k < |path| ==> path[k] < n) && (forall j, k :: 0 <= j < k < |path| ==> path[j] != path[k])
  }

  // ---------- sums over flows ----------

  /** The rates booked at link l, each as often as the link counts it. */
  function Booked(flows: seq<Flow>, l: nat): real {
    if flows == [] then 0.0
    else var f := flows[|flows| - 1]; Booked(flows[..|flows| - 1], l) + f.rate * (Net(f, l) as real)
  }

  function Count(flows: seq<Flow>, l: nat): int {
    if flows == [] then 0 else Count(flows[..|flows| - 1], l) + Net(flows[|flows| - 1], l)
  }

  /** The rates of the flows that have been admitted at l and not been released. */
  function Held(flows: seq<Flow>, l: nat): real {
    if flows == [] then 0.0
    else var f := flows[|flows| - 1]; Held(flows[..|flows| - 1], l) + if Net(f, l) > 0 then f.rate else 0.0
  }

  lemma {:induction false} BookedUpdate(flows: seq<Flow>, i: nat, f: Flow, l: nat, d: int)
    requires i < |flows| && f.rate == flows[i].rate && Net(f, l) == Net(flows[i], l) + d
    ensures Booked(flows[i := f], l) == Booked(flows, l) + f.rate * (d as real)
    ensures Count(flows[i := f], l) == Count(flows, l) + d
  {
    var n := |flows| - 1;
    if i == n {
      assert flows[i := f][..n] == flows[..n];
      Distribute(f.rate, Net(flows[i], l), d);
    } else {
      assert flows[i := f][..n] == flows[..n][i := f];
      BookedUpdate(flows[..n], i, f, l, d);
    }
  }

  lemma Distribute(r: real, m: int, d: int)
    ensures r * ((m + d) as real) == r * (m as real) + r * (d as real)
  {
    assert (m + d) as real == (m as real) + (d as real);
  }

  // ---------- what every run keeps ----------

  /** Where flow f stands with the k-th link of its path. */
  predicate Standing(f: Flow, k: nat)
    requires k < |f.path|
  {
    var n, d := Net(f, f.path[k]), if f.decision then 1 else 0;
    match f.phase
    case Idle => n == 0
    case Requesting => if k < f.pos then n == 1 || (n == 0 && !f.decision) else n == 0
    case Confirming => if k < f.pos then n == d else n == 1 || (n == 0 && !f.decision)
    case Leaving => n == if k < f.pos then d - 1 else d
  }

  predicate Refused(f: Flow) {
    exists k :: 0 <= k < f.pos && k < |f.path| && Net(f, f.path[k]) == 0
  }

  predicate FlowInv(f: Flow, links: nat) {
    && f.rate >= 0.0 && f.pos <= |f.path| && GoodPath(f.path, links)
    && (f.phase == Requesting && !f.decision ==> Refused(f))
    && (forall l :: l in f.net ==> l in f.path)
    && (forall k :: 0 <= k < |f.path| ==> Standing(f, k))
  }

  /** Link l awaits the CONFIRM of flow f. */
  predicate Awaits(f: Flow, l: nat) {
    exists k :: 0 <= k < |f.path| && f.path[k] == l && AwaitsAt(f, k)
  }

  predicate AwaitsAt(f: Flow, k: nat)
    requires k < |f.path|
  {
    Net(f, f.path[k]) == 1 && (f.phase == Requesting || (f.phase == Confirming && k >= f.pos))
  }

  predicate SlotsInv(pending: seq<int>, flows: seq<Flow>, l: nat) {
    && |pending| == NFLOWS
    && (forall j :: 0 <= j < NFLOWS ==> pending[j] == FREE || 0 <= pending[j] < |flows|)
    && (forall j, k :: 0 <= j < k < NFLOWS && pending[j] != FREE ==> pending[j] != pending[k])
    && (forall i :: 0 <= i < |flows| ==> (i in pending <==> Awaits(flows[i], l)))
  }

  predicate LinkInv(link: Link, flows: seq<Flow>, l: nat) {
    && link.resv == Booked(flows, l) <= link.cap
    && link.numfl == Count(flows, l)
    && SlotsInv(link.pending, flows, l)
  }

  predicate Inv(s: State) {
    && (forall i :: 0 <= i < |s.flows| ==> FlowInv(s.flows[i], |s.links|))
    && (forall l :: 0 <= l < |s.links| ==> LinkInv(s.links[l], s.flows, l))
  }

  lemma {:induction false} NothingBooked(flows: seq<Flow>, l: nat)
    requires forall i :: 0 <= i < |flows| ==> Net(flows[i], l) == 0
    ensures Booked(flows, l) == 0.0 && Count(flows, l) == 0
  {
    if flows != [] { NothingBooked(flows[..|flows| - 1], l); }
  }

  lemma InitialInv(s: State)
    requires Initial(s)
    ensures Inv(s)
  {
    forall l | 0 <= l < |s.links| ensures LinkInv(s.links[l], s.flows, l) {
      NothingBooked(s.flows, l);
      forall i | 0 <= i < |s.flows| ensures i !in s.links[l].pending {}
    }
  }

  // ---------- a packet passes a link ----------

  /** Every change of a link's count is a change of its booked rate by the packet's rate. */
  lemma PassBooks(l: Link, p: Packet)
    requires l.resv <= l.cap && p.rate >= 0.0 && Pass(l, p).Some?
    ensures var (l', p') := Pass(l, p).value;
      && l'.resv == l.resv + p.rate * ((l'.numfl - l.numfl) as real) && l'.resv <= l'.cap && l'.cap == l.cap
      && p' == p.(decision := p'.decision)
  {
    var d := Pass(l, p).value.0.numfl - l.numfl;
    assert d == 0 || d == 1 || d == -1;
    assert p.rate * (0 as real) == 0.0 && p.rate * (1 as real) == p.rate && p.rate * (-1 as real) == -p.rate;
  }

  function Crossed(f: Flow, decision: bool, d: int): Flow
    requires f.pos < |f.path|
  {
    f.(pos := f.pos + 1, decision := decision, net := f.net[f.path[f.pos] := Net(f, f.path[f.pos]) + d])
  }

  lemma OtherLinks(f: Flow, n: nat, decision: bool, d: int, l: nat)
    requires f.pos < |f.path| && GoodPath(f.path, n) && l != f.path[f.pos]
    ensures Net(Crossed(f, decision, d), l) == Net(f, l)
    ensures Awaits(Crossed(f, decision, d), l) <==> Awaits(f, l)
  {
    var f' := Crossed(f, decision, d);
    forall k | 0 <= k < |f.path| && f.path[k] == l ensures AwaitsAt(f', k) <==> AwaitsAt(f, k) {}
  }

  lemma AwaitsHere(f: Flow, n: nat, k: nat)
    requires GoodPath(f.path, n) && k < |f.path|
    ensures Awaits(f, f.path[k]) <==> AwaitsAt(f, k)
  {
  }

  /** How a link's answer changes the standing of the flow whose packet passes it. */
  lemma CrossedKeeps(f: Flow, n: nat, decision: bool, d: int)
    requires FlowInv(f, n) && f.phase != Idle && f.pos < |f.path|
    requires f.phase == Requesting ==> d == (if d == 0 then 0 else 1) && decision == (f.decision && d == 1)
    requires f.phase == Confirming ==>
               decision == f.decision && d == if Net(f, f.path[f.pos]) == 1 && !decision then -1 else 0
    requires f.phase == Leaving ==> decision == f.decision && d == -1
    ensures FlowInv(Crossed(f, decision, d), n)
  {
    var f' := Crossed(f, decision, d);
    forall k | 0 <= k < |f.path| ensures Standing(f', k) {
      assert Standing(f, k);
      if k != f.pos { assert f.path[k] != f.path[f.pos]; }
    }
    if f'.phase == Requesting && !f'.decision {
      if !f.decision {
        var k :| 0 <= k < f.pos && k < |f.path| && Net(f, f.path[k]) == 0;
        assert Net(f', f'.path[k]) == 0;
      } else {
        assert Standing(f, f.pos);
        assert Net(f', f'.path[f.pos]) == 0;
      }
    }
  }

  /** A slot that was free takes a flow that had none. */
  lemma SlotTaken(pending: seq<int>, flows: seq<Flow>, l: nat, i: nat, f: Flow, j: nat)
    requires SlotsInv(pending, flows, l) && i < |flows| && !Awaits(flows[i], l) && Awaits(f, l)
    requires j < NFLOWS && pending[j] == FREE
    ensures SlotsInv(pending[j := i], flows[i := f], l)
  {
    var p' := pending[j := i];
    assert i !in pending;
    forall k | 0 <= k < |flows| ensures k in p' <==> Awaits(flows[i := f][k], l) {
      if k == i { assert p'[j] == i; }
      else if k in pending { var m :| 0 <= m < NFLOWS && pending[m] == k; assert p'[m] == k; }
    }
  }

  /** The slot of a flow that awaits nothing more is freed. */
  lemma SlotFreed(pending: seq<int>, flows: seq<Flow>, l: nat, i: nat, f: Flow, j: nat)
    requires SlotsInv(pending, flows, l) && i < |flows| && !Awaits(f, l)
    requires j < NFLOWS && pending[j] == i
    ensures SlotsInv(pending[j := FREE], flows[i := f], l)
  {
    var p' := pending[j := FREE];
    forall k | 0 <= k < |flows| ensures k in p' <==> Awaits(flows[i := f][k], l) {
      if k == i { assert forall m :: 0 <= m < NFLOWS ==> p'[m] != i; }
      else if k in pending { var m :| 0 <= m < NFLOWS && pending[m] == k; assert p'[m] == k; }
    }
  }

  lemma SlotsSame(pending: seq<int>, flows: seq<Flow>, l: nat, i: nat, f: Flow)
    requires SlotsInv(pending, flows, l) && i < |flows| && (Awaits(f, l) <==> Awaits(flows[i], l))
    ensures SlotsInv(pending, flows[i := f], l)
  {
  }

  /** The link that is passed, after one packet of flow i. */
  lemma PassKeeps(link: Link, flows: seq<Flow>, i: nat, n: nat)
    requires i < |flows| && FlowInv(flows[i], n) && flows[i].phase != Idle && flows[i].pos < |flows[i].path|
    requires LinkInv(link, flows, flows[i].path[flows[i].pos])
    requires Pass(link, InFlight(i, flows[i])).Some?
    ensures var f := flows[i];
      var (link', p) := Pass(link, InFlight(i, f)).value;
      var f' := Crossed(f, p.decision, link'.numfl - link.numfl);
      FlowInv(f', n) && LinkInv(link', flows[i := f'], f.path[f.pos])
  {
    hide SlotsInv, Awaits, FlowInv, GoodPath;
    var f := flows[i];
    var l := f.path[f.pos];
    var (link', p) := Pass(link, InFlight(i, f)).value;
    var d := link'.numfl - link.numfl;
    var f' := Crossed(f, p.decision, d);
    FlowFacts(f, n);
    SlotFacts(link.pending, flows, l, i);
    AwaitsHere(f, n, f.pos);
    AwaitsHere(f', n, f.pos);
    PassBooks(link, InFlight(i, f));
    BookedUpdate(flows, i, f', l, d);
    CrossedKeeps(f, n, p.decision, d);
    if f.phase == Requesting && d == 1 {
      SlotTaken(link.pending, flows, l, i, f', Lookup(link.pending, FREE));
    } else if f.phase == Confirming && i in link.pending {
      SlotFreed(link.pending, flows, l, i, f', Lookup(link.pending, i));
    } else {
      SlotsSame(link.pending, flows, l, i, f');
    }
  }

  lemma FlowFacts(f: Flow, n: nat)
    requires FlowInv(f, n) && f.pos < |f.path|
    ensures f.rate >= 0.0 && Standing(f, f.pos) && GoodPath(f.path, n)
  {
  }

  lemma SlotFacts(pending: seq<int>, flows: seq<Flow>, l: nat, i: nat)
    requires SlotsInv(pending, flows, l) && i < |flows|
    ensures |pending| == NFLOWS && (i in pending <==> Awaits(flows[i], l))
  {
  }

  /** A link that is not passed. */
  lemma OtherKeeps(link: Link, flows: seq<Flow>, i: nat, f': Flow, l: nat)
    requires i < |flows| && LinkInv(link, flows, l) && f'.rate == flows[i].rate
    requires Net(f', l) == Net(flows[i], l) && (Awaits(f', l) <==> Awaits(flows[i], l))
    ensures LinkInv(link, flows[i := f'], l)
  {
    hide Awaits, SlotsInv;
    BookedUpdate(flows, i, f', l, 0);
    SlotsSame(link.pending, flows, l, i, f');
  }

  lemma CrossKeeps(s: State, i: nat)
    requires Inv(s) && i < |s.flows| && s.flows[i].phase != Idle && s.flows[i].pos < |s.flows[i].path|
    requires s.flows[i].path[s.flows[i].pos] < |s.links| && CrossStep(s, i).Some?
    ensures Inv(CrossStep(s, i).value)
  {
    hide LinkInv, FlowInv, GoodPath, Awaits, Pass, InFlight;
    var f := s.flows[i];
    var l := f.path[f.pos];
    FlowFacts(f, |s.links|);
    PassKeeps(s.links[l], s.flows, i, |s.links|);
    var (link, p) := Pass(s.links[l], InFlight(i, f)).value;
    var f' := Crossed(f, p.decision, link.numfl - s.links[l].numfl);
    var s' := CrossStep(s, i).value;
    assert s' == State(s.links[l := link], s.flows[i := f']);
    forall m | 0 <= m < |s.links| ensures LinkInv(s'.links[m], s'.flows, m) {
      if m != l {
        OtherLinks(f, |s.links|, p.decision, link.numfl - s.links[l].numfl, m);
        OtherKeeps(s.links[m], s.flows, i, f', m);
      }
    }
  }

  /** An event that only changes the phase of flow i. */
  lemma PhaseKeeps(s: State, i: nat, f': Flow)
    requires Inv(s) && i < |s.flows| && FlowInv(f', |s.links|)
    requires f'.rate == s.flows[i].rate && f'.net == s.flows[i].net
    requires forall l :: Awaits(f', l) <==> Awaits(s.flows[i], l)
    ensures Inv(s.(flows := s.flows[i := f']))
  {
    hide LinkInv, FlowInv, Awaits;
    forall m | 0 <= m < |s.links| ensures LinkInv(s.links[m], s.flows[i := f'], m) {
      OtherKeeps(s.links[m], s.flows, i, f', m);
    }
  }

  lemma NewPhase(f: Flow, f': Flow, n: nat)
    requires FlowInv(f, n) && f'.pos == 0
    requires f' == f.(phase := f'.phase, pos := 0, decision := f'.decision)
    requires (f.phase == Idle && f'.phase == Requesting && f'.decision)
          || (f.phase == Requesting && f.pos == |f.path| && f'.phase == Confirming && f'.decision == f.decision)
          || (Settled(f) && f'.phase == Leaving && f'.decision == f.decision)
    ensures FlowInv(f', n) && forall l :: Awaits(f', l) <==> Awaits(f, l)
  {
    forall k | 0 <= k < |f.path| ensures Standing(f', k) && (AwaitsAt(f', k) <==> AwaitsAt(f, k)) {
      assert Standing(f, k);
    }
    forall l ensures Awaits(f', l) <==> Awaits(f, l) {
      if Awaits(f', l) { var k :| 0 <= k < |f.path| && f.path[k] == l && AwaitsAt(f', k); assert AwaitsAt(f, k); }
      if Awaits(f, l) { var k :| 0 <= k < |f.path| && f.path[k] == l && AwaitsAt(f, k); assert AwaitsAt(f', k); }
    }
  }

  lemma StepKeeps(s: State, e: Event)
    requires Inv(s) && Step(s, e).Some?
    ensures Inv(Step(s, e).value)
  {
    hide Inv, FlowInv, Awaits, CrossStep;
    var i, s' := e.i, Step(s, e).value;
    if s' != s {
      FlowOf(s, i);
      if e.Cross? { CrossKeeps(s, i); }
      else {
        NewPhase(s.flows[i], s'.flows[i], |s.links|);
        PhaseKeeps(s, i, s'.flows[i]);
      }
    }
  }

  lemma FlowOf(s: State, i: nat)
    requires Inv(s) && i < |s.flows|
    ensures FlowInv(s.flows[i], |s.links|)
  {
  }

  lemma {:induction false} RunKeeps(s: State, events: seq<Event>)
    requires Initial(s) && Run(s, events).Some?
    ensures Inv(Run(s, events).value) && Same(s, Run(s, events).value)
  {
    hide Inv, Step, Initial;
    if events == [] {
      InitialInv(s);
    } else {
      RunKeeps(s, events[..|events| - 1]);
      var t, e := Run(s, events[..|events| - 1]).value, events[|events| - 1];
      StepKeeps(t, e);
      StepSame(t, e);
    }
  }

  /** The flows and the links are those of the start. */
  predicate Same(s: State, t: State) {
    && |s.links| == |t.links| && |s.flows| == |t.flows|
    && (forall l :: 0 <= l < |s.links| ==> s.links[l].cap == t.links[l].cap)
    && (forall i :: 0 <= i < |s.flows| ==> s.flows[i].path == t.flows[i].path && s.flows[i].rate == t.flows[i].rate)
  }

  lemma StepSame(s: State, e: Event)
    requires Step(s, e).Some?
    ensures Same(s, Step(s, e).value)
  {
  }

  // ---------- what the signalling promises ----------

  /** Once a flow's CONFIRM has crossed its whole path, the rate is booked on every link of the path if the
      decision was 1 and on none otherwise, whatever the other flows do. */
  lemma Atomicity(s: State, events: seq<Event>, i: nat, l: nat)
    requires Initial(s) && Run(s, events).Some? && i < |s.flows| && l in s.flows[i].path
    requires Settled(Run(s, events).value.flows[i])
    ensures var f := Run(s, events).value.flows[i]; Net(f, l) == if f.decision then 1 else 0
  {
    hide LinkInv;
    RunKeeps(s, events);
    var f := Run(s, events).value.flows[i];
    FlowOf(Run(s, events).value, i);
    var k :| 0 <= k < |f.path| && f.path[k] == l;
    assert Standing(f, k);
  }

  /** When the REQUEST has crossed the whole path, its decision bit is 1 exactly when every link booked the rate. */
  lemma DecisionIsConjunction(s: State, events: seq<Event>, i: nat)
    requires Initial(s) && Run(s, events).Some? && i < |s.flows|
    requires var f := Run(s, events).value.flows[i]; f.phase == Requesting && f.pos == |f.path|
    ensures var f := Run(s, events).value.flows[i];
      f.decision <==> forall k :: 0 <= k < |f.path| ==> Net(f, f.path[k]) == 1
  {
    hide LinkInv;
    RunKeeps(s, events);
    var f := Run(s, events).value.flows[i];
    FlowOf(Run(s, events).value, i);
    forall k | 0 <= k < |f.path| && f.decision ensures Net(f, f.path[k]) == 1 { assert Standing(f, k); }
  }

  /** In every run a REQUEST that crosses a link is booked there exactly when its rate fits into what all flows have
      left of the capacity, whatever the links before it have said; and its decision bit stays 1 exactly then. */
  lemma AdmittedIff(s: State, events: seq<Event>, i: nat)
    requires Initial(s) && Run(s, events).Some? && i < |s.flows|
    requires var f := Run(s, events).value.flows[i];
      f.phase == Requesting && f.pos < |f.path| && f.path[f.pos] < |s.links|
    requires Step(Run(s, events).value, Cross(i)).Some?
    ensures var t, t' := Run(s, events).value, Step(Run(s, events).value, Cross(i)).value;
      var f, f' := t.flows[i], t'.flows[i];
      var l := f.path[f.pos];
      var room := Booked(t.flows, l) + f.rate <= s.links[l].cap;
      && Net(f', l) == (if room then 1 else 0) && (f'.decision <==> f.decision && room)
      && t'.links[l].resv == t.links[l].resv + if room then f.rate else 0.0
  {
    hide SlotsInv;
    RunKeeps(s, events);
    var t := Run(s, events).value;
    FlowOf(t, i);
    assert Standing(t.flows[i], t.flows[i].pos);
    assert LinkInv(t.links[t.flows[i].path[t.flows[i].pos]], t.flows, t.flows[i].path[t.flows[i].pos]);
  }

  /** The receiver accepts exactly what every link has let pass, and the CONFIRM is the REQUEST with another name. */
  lemma AnswerTells(p: Packet)
    ensures Answer(p).kind == Accept <==> p.decision
    ensures Answer(p).kind == Reject <==> !p.decision
    ensures TurnAround(Answer(p)) == p.(kind := Confirm)
  {
  }

  /** After that nothing changes what was decided: not the answer, not the CONFIRM, not the TEARDOWN. */
  lemma DecisionStays(s: State, e: Event, i: nat)
    requires Step(s, e).Some? && i < |s.flows| && s.flows[i].phase != Idle
    requires e == Cross(i) ==> s.flows[i].phase != Requesting
    ensures var f, f' := s.flows[i], Step(s, e).value.flows[i];
      f'.decision == f.decision && (e == Return(i) && f.phase == Requesting && f.pos == |f.path| ==>
        f'.phase == Confirming && f'.pos == 0 && f'.net == f.net)
  {
  }

  /** In every run each link's booked rate is what the flows have booked there less what they have released,
      its count of flows likewise, and the booked rate never exceeds the capacity. */
  lemma Conservation(s: State, events: seq<Event>, l: nat)
    requires Initial(s) && Run(s, events).Some? && l < |s.links|
    ensures var t := Run(s, events).value;
      && t.links[l].resv == Booked(t.flows, l) <= s.links[l].cap
      && t.links[l].numfl == Count(t.flows, l)
  {
    RunKeeps(s, events);
  }

  /** After the TEARDOWN has crossed the whole path, nothing of the flow is left on any link exactly when the
      flow had been accepted: a rejected flow takes off what it never booked. */
  lemma TeardownBalances(s: State, events: seq<Event>, i: nat, l: nat)
    requires Initial(s) && Run(s, events).Some? && i < |s.flows|
    requires var f := Run(s, events).value.flows[i]; f.phase == Leaving && f.pos == |f.path| && l in f.path
    ensures var f := Run(s, events).value.flows[i]; Net(f, l) == 0 <==> f.decision
  {
    hide LinkInv;
    RunKeeps(s, events);
    var f := Run(s, events).value.flows[i];
    FlowOf(Run(s, events).value, i);
    var k :| 0 <= k < |f.path| && f.path[k] == l;
    assert Standing(f, k);
  }

  /** The TEARDOWN of a rejected flow has passed link l. */
  predicate Spoils(f: Flow, l: nat) {
    f.phase == Leaving && !f.decision && exists k :: 0 <= k < f.pos && k < |f.path| && f.path[k] == l
  }

  lemma NetRange(f: Flow, n: nat, l: nat)
    requires FlowInv(f, n)
    ensures Net(f, l) == -1 || Net(f, l) == 0 || Net(f, l) == 1
    ensures Net(f, l) == -1 <==> Spoils(f, l)
  {
    if l in f.path {
      var k :| 0 <= k < |f.path| && f.path[k] == l;
      assert Standing(f, k);
    }
  }

  lemma {:induction false} BookedIsHeld(flows: seq<Flow>, n: nat, l: nat)
    requires forall i :: 0 <= i < |flows| ==> FlowInv(flows[i], n)
    ensures Booked(flows, l) <= Held(flows, l)
    ensures Booked(flows, l) == Held(flows, l) <==>
      forall i :: 0 <= i < |flows| && Spoils(flows[i], l) ==> flows[i].rate == 0.0
  {
    hide FlowInv, Spoils;
    if flows != [] {
      var m := |flows| - 1;
      var f := flows[m];
      BookedIsHeld(flows[..m], n, l);
      NetRange(f, n, l);
      RateOf(f, n);
      assert f.rate * (0 as real) == 0.0 && f.rate * (1 as real) == f.rate && f.rate * (-1 as real) == -f.rate;
      assert forall i :: 0 <= i < m ==> flows[..m][i] == flows[i];
    }
  }

  lemma RateOf(f: Flow, n: nat)
    requires FlowInv(f, n)
    ensures f.rate >= 0.0
  {
  }

  /** A link's books agree with what the admitted flows hold exactly when no rejected flow of positive rate
      has sent a TEARDOWN across it. */
  lemma BooksBalance(s: State, events: seq<Event>, l: nat)
    requires Initial(s) && Run(s, events).Some? && l < |s.links|
    ensures var t := Run(s, events).value;
      t.links[l].resv == Held(t.flows, l) <==>
      forall i :: 0 <= i < |t.flows| && Spoils(t.flows[i], l) ==> t.flows[i].rate == 0.0
  {
    hide FlowInv, Spoils;
    RunKeeps(s, events);
    BookedIsHeld(Run(s, events).value.flows, |s.links|, l);
  }

  /** If only accepted flows send a TEARDOWN, the rates held on a link never exceed its capacity. */
  lemma NeverOvercommitted(s: State, events: seq<Event>, l: nat)
    requires Initial(s) && Run(s, events).Some? && l < |s.links|
    requires forall i :: 0 <= i < |s.flows| ==>
               var f := Run(s, events).value.flows[i]; f.phase == Leaving ==> f.decision
    ensures Held(Run(s, events).value.flows, l) <= s.links[l].cap
  {
    Conservation(s, events, l);
    BooksBalance(s, events, l);
  }

  // ---------- the table of pending flows ----------

  lemma {:induction false} Distinct(pending: seq<int>, n: nat)
    requires forall j :: 0 <= j < |pending| ==> 0 <= pending[j] < n
    requires forall j, k :: 0 <= j < k < |pending| ==> pending[j] != pending[k]
    ensures |pending| <= n
    decreases n
  {
    if pending != [] {
      assert 0 <= pending[0] < n;
      var m := |pending| - 1;
      // move n - 1 to the end if it is there, then drop the end
      var p := if n - 1 in pending then pending[Lookup(pending, n - 1) := pending[m]] else pending;
      assert forall j :: 0 <= j < m ==> 0 <= p[j] < n - 1;
      Distinct(p[..m], n - 1);
    }
  }

  /** With at most 500 flows no link ever runs out of slots. */
  lemma NeverRunsOut(s: State, e: Event)
    requires Inv(s) && |s.flows| <= NFLOWS
    ensures Step(s, e).Some?
  {
    hide FlowInv, Awaits, GoodPath;
    if Step(s, e).None? {
      var i := e.i;
      var f := s.flows[i];
      var link := s.links[f.path[f.pos]];
      assert FREE !in link.pending;
      SlotFacts(link.pending, s.flows, f.path[f.pos], i);
      FlowFacts(f, |s.links|);
      AwaitsHere(f, |s.links|, f.pos);
      assert i !in link.pending;
      var n := |s.flows|;
      var p := seq(NFLOWS, j requires 0 <= j < NFLOWS => if link.pending[j] == n - 1 then i else link.pending[j]);
      Distinct(p, n - 1);
    }
  }

  lemma {:induction false} AllRunsGoOn(s: State, events: seq<Event>)
    requires Initial(s) && |s.flows| <= NFLOWS
    ensures Run(s, events).Some?
  {
    hide Initial, Step;
    if events != [] {
      AllRunsGoOn(s, events[..|events| - 1]);
      RunKeeps(s, events[..|events| - 1]);
      NeverRunsOut(Run(s, events[..|events| - 1]).value, events[|events| - 1]);
    }
  }

  // ---------- a rejected flow that stops ----------

  lemma {:induction false} Chain(states: seq<State>, events: seq<Event>)
    requires |states| == |events| + 1
    requires forall k :: 0 <= k < |events| ==> Step(states[k], events[k]) == Some(states[k + 1])
    ensures Run(states[0], events) == Some(states[|events|])
  {
    hide Step;
    if events != [] { Chain(states[..|events|], events[..|events| - 1]); }
  }

  function AllFree(): (q: seq<int>)
    ensures |q| == NFLOWS && forall j :: 0 <= j < NFLOWS ==> q[j] == FREE
  {
    seq(NFLOWS, _ => FREE)
  }

  function Unit(phase: Phase, pos: nat, decision: bool, net: map<nat, int>): Flow {
    Flow([0], 1.0, phase, pos, decision, net)
  }

  function OneLink(resv: real, pending: seq<int>, numfl: int, flows: seq<Flow>): State {
    State([Link(resv, 1.0, pending, numfl)], flows)
  }

  /** A state that differs from s in flow i, and in the link when it is given. */
  lemma Next(s: State, e: Event, f: Flow, t: State)
    requires Step(s, e).Some? && e.i < |s.flows| && t.links == Step(s, e).value.links
    requires Step(s, e).value.flows == s.flows[e.i := f] && t.flows == s.flows[e.i := f]
    ensures Step(s, e) == Some(t)
  {
  }

  /** The signalling of the first flow on a link with room: REQUEST, answer, CONFIRM. */
  lemma AcceptedFlow()
    ensures var idle := Unit(Idle, 0, false, map[]);
      Run(OneLink(0.0, AllFree(), 0, [idle, idle, idle]), [Start(0), Cross(0), Return(0), Cross(0)])
      == Some(OneLink(1.0, AllFree(), 1, [Unit(Confirming, 1, true, map[0 := 1]), idle, idle]))
  {
    var idle := Unit(Idle, 0, false, map[]);
    var free := AllFree();
    var taken := free[0 := 0];
    assert taken[0 := FREE] == free;
    var f1, f2 := Unit(Requesting, 0, true, map[]), Unit(Requesting, 1, true, map[0 := 1]);
    var f3, f4 := Unit(Confirming, 0, true, map[0 := 1]), Unit(Confirming, 1, true, map[0 := 1]);
    assert f1.net[0 := 1] == f2.net && f3.net[0 := 1] == f4.net;
    var s0, s1 := OneLink(0.0, free, 0, [idle, idle, idle]), OneLink(0.0, free, 0, [f1, idle, idle]);
    var s2, s3 := OneLink(1.0, taken, 1, [f2, idle, idle]), OneLink(1.0, taken, 1, [f3, idle, idle]);
    Next(s0, Start(0), f1, s1);
    Next(s1, Cross(0), f2, s2);
    Next(s2, Return(0), f3, s3);
    Next(s3, Cross(0), f4, OneLink(1.0, free, 1, [f4, idle, idle]));
    var e := [Start(0), Cross(0), Return(0), Cross(0)];
    Chain([s0, s1, s2, s3, OneLink(1.0, free, 1, [f4, idle, idle])], e);
  }

  /** A second flow is rejected. */
  lemma RejectedFlow()
    ensures var idle := Unit(Idle, 0, false, map[]);
      var acc := Unit(Confirming, 1, true, map[0 := 1]);
      Run(OneLink(1.0, AllFree(), 1, [acc, idle, idle]), [Start(1), Cross(1), Return(1), Cross(1)])
      == Some(OneLink(1.0, AllFree(), 1, [acc, Unit(Confirming, 1, false, map[0 := 0]), idle]))
  {
    hide Run;
    var idle := Unit(Idle, 0, false, map[]);
    var acc := Unit(Confirming, 1, true, map[0 := 1]);
    var free := AllFree();
    var f1, f2 := Unit(Requesting, 0, true, map[]), Unit(Requesting, 1, false, map[0 := 0]);
    var f3, f4 := Unit(Confirming, 0, false, map[0 := 0]), Unit(Confirming, 1, false, map[0 := 0]);
    assert f1.net[0 := 0] == f2.net && f3.net[0 := 0] == f4.net;
    var s0, s1 := OneLink(1.0, free, 1, [acc, idle, idle]), OneLink(1.0, free, 1, [acc, f1, idle]);
    var s2, s3 := OneLink(1.0, free, 1, [acc, f2, idle]), OneLink(1.0, free, 1, [acc, f3, idle]);
    var s4 := OneLink(1.0, free, 1, [acc, f4, idle]);
    Next(s0, Start(1), f1, s1);
    Next(s1, Cross(1), f2, s2);
    Next(s2, Return(1), f3, s3);
    Next(s3, Cross(1), f4, s4);
    Chain([s0, s1, s2, s3, s4], [Start(1), Cross(1), Return(1), Cross(1)]);
  }

  /** It stops all the same, and takes off a rate it never had. */
  lemma RejectedFlowStops()
    ensures var idle := Unit(Idle, 0, false, map[]);
      var acc := Unit(Confirming, 1, true, map[0 := 1]);
      Run(OneLink(1.0, AllFree(), 1, [acc, Unit(Confirming, 1, false, map[0 := 0]), idle]), [Stop(1), Cross(1)])
      == Some(OneLink(0.0, AllFree(), 0, [acc, Unit(Leaving, 1, false, map[0 := -1]), idle]))
  {
    hide Run;
    var idle := Unit(Idle, 0, false, map[]);
    var acc := Unit(Confirming, 1, true, map[0 := 1]);
    var f0, f1 := Unit(Confirming, 1, false, map[0 := 0]), Unit(Leaving, 0, false, map[0 := 0]);
    var f2 := Unit(Leaving, 1, false, map[0 := -1]);
    assert f1.net[0 := -1] == f2.net;
    var s0, s1 := OneLink(1.0, AllFree(), 1, [acc, f0, idle]), OneLink(1.0, AllFree(), 1, [acc, f1, idle]);
    var s2 := OneLink(0.0, AllFree(), 0, [acc, f2, idle]);
    Next(s0, Stop(1), f1, s1);
    Next(s1, Cross(1), f2, s2);
    Chain([s0, s1, s2], [Stop(1), Cross(1)]);
  }

  lemma {:induction false} RunOn(s: State, a: seq<Event>, b: seq<Event>)
    requires Run(s, a).Some?
    ensures Run(s, a + b) == Run(Run(s, a).value, b)
  {
    if b == [] {
      assert a + b == a;
    } else {
      RunOn(s, a, b[..|b| - 1]);
      assert (a + b)[..|a + b| - 1] == a + b[..|b| - 1];
    }
  }

  /** A third flow then finds the link empty. */
  lemma AdmittedFlow()
    ensures var idle := Unit(Idle, 0, false, map[]);
      var acc, out := Unit(Confirming, 1, true, map[0 := 1]), Unit(Leaving, 1, false, map[0 := -1]);
      Run(OneLink(0.0, AllFree(), 0, [acc, out, idle]), [Start(2), Cross(2)])
      == Some(OneLink(1.0, AllFree()[0 := 2], 1, [acc, out, Unit(Requesting, 1, true, map[0 := 1])]))
  {
    hide Run;
    var idle := Unit(Idle, 0, false, map[]);
    var acc, out := Unit(Confirming, 1, true, map[0 := 1]), Unit(Leaving, 1, false, map[0 := -1]);
    var f, g := Unit(Requesting, 0, true, map[]), Unit(Requesting, 1, true, map[0 := 1]);
    assert f.net[0 := 1] == g.net;
    var s0, s1 := OneLink(0.0, AllFree(), 0, [acc, out, idle]), OneLink(0.0, AllFree(), 0, [acc, out, f]);
    var s2 := OneLink(1.0, AllFree()[0 := 2], 1, [acc, out, g]);
    Next(s0, Start(2), f, s1);
    Next(s1, Cross(2), g, s2);
    Chain([s0, s1, s2], [Start(2), Cross(2)]);
  }

  /** A run in which a rejected flow stops and two flows of rate 1 then hold a link of capacity 1. */
  lemma RejectedStopOvercommits()
    ensures exists s: State, events: seq<Event> ::
      Initial(s) && Run(s, events).Some? && |s.links| == 1
        && Held(Run(s, events).value.flows, 0) == 2.0 > s.links[0].cap
  {
    hide Run, Step, Held;
    var idle := Unit(Idle, 0, false, map[]);
    var s0 := OneLink(0.0, AllFree(), 0, [idle, idle, idle]);
    AcceptedFlow();
    RejectedFlow();
    RejectedFlowStops();
    AdmittedFlow();
    var e0 := [Start(0), Cross(0), Return(0), Cross(0)];
    var e1 := [Start(1), Cross(1), Return(1), Cross(1)];
    RunOn(s0, e0, e1);
    RunOn(s0, e0 + e1, [Stop(1), Cross(1)]);
    RunOn(s0, e0 + e1 + [Stop(1), Cross(1)], [Start(2), Cross(2)]);
    HeldOf(Unit(Confirming, 1, true, map[0 := 1]), Unit(Leaving, 1, false, map[0 := -1]),
           Unit(Requesting, 1, true, map[0 := 1]));
    assert Initial(s0);
  }

  lemma HeldOf(f: Flow, g: Flow, h: Flow)
    requires f.rate == h.rate == 1.0 && Net(f, 0) == Net(h, 0) == 1 && Net(g, 0) == -1
    ensures Held([f, g, h], 0) == 2.0
  {
    assert [f, g, h][..2] == [f, g] && [f, g][..1] == [f] && [f][..0] == [];
    assert Held([f], 0) == 1.0 && Held([f, g], 0) == 1.0;
  }
}
