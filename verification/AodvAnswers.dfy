/** What an AODV node tells the others: which reply belongs to which request, when an answer is due and what it says,
    and which lost routes are reported. */
module AodvAnswers {
  import opened Common
  import opened AodvProtocol
  import opened AodvNetwork

  // ---------- every reply answers a request, and its label is what was asked for ----------

  /** The request as its source sent it, labelled with the number its source had. */
  predicate Original(m: Sent) { m.p.Rreq? && m.p.q.saddr == m.p.q.src && m.asked == m.p.q.dstSeqno }

  /** m asks on behalf of src for dst, with this number. */
  predicate Asks(m: Sent, src: Addr, dst: Addr, asked: nat) {
    Original(m) && m.p.q.src == src && m.p.q.dst == dst && m.asked == asked
  }

  predicate Asked(net: set<Sent>, src: Addr, dst: Addr, asked: nat) {
    exists m :: m in net && Asks(m, src, dst, asked)
  }

  predicate Grounded(net: set<Sent>, m: Sent) {
    match m.p
    case Rreq(q) => Asked(net, q.src, q.dst, m.asked)
    case Rrep(r) => Asked(net, r.daddr, r.dst, m.asked)
    case _ => true
  }

  predicate AllGrounded(net: set<Sent>) { forall m :: m in net ==> Grounded(net, m) }

  /** out carries on p: for the same source and the same destination. */
  predicate CarriesOn(p: Packet, out: Packet) {
    match out
    case Rreq(q) => p.Rreq? && q.src == p.q.src && q.dst == p.q.dst
    case Rrep(r) => (match p
                     case Rreq(q) => r.daddr == q.src && r.dst == q.dst
                     case Rrep(r0) => r.daddr == r0.daddr && r.dst == r0.dst
                     case _ => false)
    case _ => true
  }

  predicate Follows(e: Event, out: seq<Packet>) {
    forall k :: 0 <= k < |out| ==>
      if e.Deliver? then CarriesOn(e.m.p, out[k]) else !out[k].Rrep? && (out[k].Rreq? ==> Original(Label(e, out[k])))
  }

  lemma ReactFollows(n: Node, e: Event, now: real)
    requires !e.Tick? && (e.Ask? || e.Repair? ==> e.dst in n.table)
    ensures Follows(e, React(n, e, now).1)
  {
    hide UpdateReverse, UpdateForward, ErrorHeard, LinkFailure, Purge, RequestTimeout, Fresher, OwnReplySeqno;
    match e
    case Deliver(_, Sent(Rreq(q), _)) => RequestFollows(n, q.(ttl := q.ttl - 1), now);
    case Deliver(_, Sent(Rrep(r), _)) =>
    case _ =>
  }

  lemma RequestFollows(n: Node, q: Request, now: real)
    ensures forall k :: 0 <= k < |RecvRequest(n, q, now).1| ==> CarriesOn(Rreq(q), RecvRequest(n, q, now).1[k])
  {
    hide UpdateReverse, OwnReplySeqno;
  }

  lemma StepGrounded(s: Sys, e: Event)
    requires AllGrounded(s.net) && Enabled(s, e)
    ensures AllGrounded(Step(s, e).net)
  {
    hide React, Asserts, Grounded, CarriesOn;
    if !e.Tick? {
      ReactFollows(s.nodes[e.at], e, s.now);
      var out := React(s.nodes[e.at], e, s.now).1;
      var s' := Step(s, e);
      forall m | m in s'.net ensures Grounded(s'.net, m) {
        if m in s.net {
          Kept(s.net, s'.net, m);
        } else {
          var p :| p in out && m == Label(e, p);
          if e.Deliver? { Carried(s.net, s'.net, e.m, m); } else { OwnGrounded(s'.net, m); }
        }
      }
    }
  }

  lemma Kept(net: set<Sent>, net': set<Sent>, m: Sent)
    requires Grounded(net, m) && net <= net'
    ensures Grounded(net', m)
  {
  }

  lemma Carried(net: set<Sent>, net': set<Sent>, m: Sent, m': Sent)
    requires Grounded(net, m) && net <= net' && CarriesOn(m.p, m'.p) && m'.asked == m.asked
    ensures Grounded(net', m')
  {
  }

  lemma OwnGrounded(net: set<Sent>, m: Sent)
    requires m in net && !m.p.Rrep? && (m.p.Rreq? ==> Original(m))
    ensures Grounded(net, m)
  {
    if m.p.Rreq? { assert Asks(m, m.p.q.src, m.p.q.dst, m.asked); }
  }

  lemma {:induction false} RunGrounded(run: seq<Sys>, events: seq<Event>, k: nat)
    requires IsRun(run, events) && k < |run|
    ensures AllGrounded(run[k].net)
  {
    hide AllGrounded, Enabled;
    if k == 0 {
      NothingSent(run[0]);
    } else {
      RunGrounded(run, events, k - 1);
      assert Enabled(run[k - 1], events[k - 1]);
      StepGrounded(run[k - 1], events[k - 1]);
    }
  }

  lemma NothingSent(s: Sys)
    requires Initial(s)
    ensures AllGrounded(s.net)
  {
  }

  /** In every run, for each reply some request was sent by the node that the reply is for, about the destination
      that the reply is about, with the number on its label; without local repair the reply is newer than that. */
  lemma EveryReplyWasAsked(run: seq<Sys>, events: seq<Event>, k: nat, m: Sent)
    requires IsRun(run, events) && k < |run| && m in run[k].net && m.p.Rrep?
    ensures exists o ::
      o in run[k].net && Original(o) && o.p.q.src == m.p.r.daddr && o.p.q.dst == m.p.r.dst && o.p.q.dstSeqno == m.asked
    ensures NoRepairs(events) ==> m.asked < m.p.r.dstSeqno
  {
    hide IsRun, AllGrounded;
    RunGrounded(run, events, k);
    assert Grounded(run[k].net, m) by { OneGrounded(run[k].net, m); }
    var o :| o in run[k].net && Asks(o, m.p.r.daddr, m.p.r.dst, m.asked);
    assert Original(o);
    if NoRepairs(events) { UsefulReplies(run, events, k, m); }
  }

  lemma OneGrounded(net: set<Sent>, m: Sent)
    requires AllGrounded(net) && m in net
    ensures Grounded(net, m)
  {
  }

  // ---------- a request is heard ----------

  /** The entry takes the route through via, with this number and so many hops. */
  predicate Routes(e: Entry, seqno: nat, hops: nat, via: Addr) {
    e.flags.Up? && e.seqno == seqno && e.hops == Some(hops) && e.nexthop == via
  }

  predicate SameRoute(e: Entry, e': Entry) {
    e'.flags == e.flags && e'.seqno == e.seqno && e'.hops == e.hops && e'.nexthop == e.nexthop && e'.dst == e.dst
  }

  predicate Rested(e: Entry) { e.reqCnt == 0 && e.reqTimeout == 0.0 }

  /** A route to d that is not older than what is asked for. */
  predicate HasFresh(n: Node, d: Addr, seqno: nat) {
    d in n.table && n.table[d].hops.Some? && n.table[d].seqno >= seqno
  }

  /** The way back: a request that is fresher than the entry for its source gives it a new route, others only a longer
      life. */
  predicate WayBack(e: Entry, e': Entry, q: Request, now: real) {
    && e'.expire >= now + REV_ROUTE_LIFE && e'.dst == e.dst
    && if Fresher(q.srcSeqno, q.hopCount, e) then
         && Routes(e', q.srcSeqno, q.hopCount, q.saddr)
         && (e.reqTimeout > 0.0 ==>
               Rested(e') && e'.reqLastTtl == q.hopCount && e'.expire == now + ACTIVE_ROUTE_TIMEOUT)
         && (e.reqTimeout <= 0.0 ==> e'.expire == MaxReal(e.expire, now + REV_ROUTE_LIFE))
       else SameRoute(e, e') && e'.expire == MaxReal(e.expire, now + REV_ROUTE_LIFE)
  }

  /** The fields in which every answer to q agrees: it goes back along the route to its source. */
  predicate Replies(n': Node, q: Request, r: Reply)
    requires q.src in n'.table
  {
    && r.saddr == r.src == n'.index && r.daddr == q.src && r.nextHop == n'.table[q.src].nexthop && r.dst == q.dst
    && r.ttl == NETWORK_DIAMETER && r.timestamp == q.timestamp
  }

  /** The destination's own answer: a new number of its own, above all it ever gave and what was asked for. */
  predicate OwnReply(n: Node, n': Node, q: Request, r: Reply)
    requires q.src in n'.table
  {
    && Replies(n', q, r) && r.hopCount == 1 && r.lifetime == 10 && r.dstSeqno == n'.seqno
    && Max(n.seqno, q.dstSeqno) < n'.seqno <= Max(n.seqno, q.dstSeqno) + 2 && n'.seqno % 2 == 0
  }

  /** The answer of a node on the way, one hop further than its own route; the next hops there and back become
      precursors of each other. */
  ghost predicate TableReply(n: Node, n': Node, q: Request, now: real, r: Reply)
    requires q.src in n'.table && q.dst in n'.table && n'.table.Keys == n.table.Keys + {q.src}
  {
    var d, b := n'.table[q.dst], n'.table[q.src];
    && Replies(n', q, r) && d.hops.Some? && r.dstSeqno == d.seqno && r.hopCount == d.hops.value + 1
    && r.lifetime == Truncate(d.expire - now) && n'.seqno == n.seqno
    && b.nexthop in d.precursors && d.nexthop in b.precursors
    && (q.src != q.dst ==> d == n.table[q.dst].(precursors := d.precursors)
                           && forall x :: x in d.precursors <==> x in n.table[q.dst].precursors || x == b.nexthop)
  }

  /** The request as it is passed on, never asking for less. */
  predicate PassedOn(n': Node, q: Request, q': Request) {
    q' == q.(saddr := n'.index, hopCount := q.hopCount + 1,
             dstSeqno := if q.dst in n'.table then Max(n'.table[q.dst].seqno, q.dstSeqno) else q.dstSeqno)
  }

  /** What leaves for the first copy of request q, between node n with the way back and node n'. */
  ghost predicate Response(n: Node, n': Node, q: Request, now: real, out: seq<Packet>) {
    && n' == n.(seqno := n'.seqno, table := n'.table) && n'.table.Keys == n.table.Keys && q.src in n'.table
    && (forall d :: d in n.table && d != q.src && d != q.dst ==> n'.table[d] == n.table[d])
    && n'.table[q.src] == n.table[q.src].(precursors := n'.table[q.src].precursors)
    && if q.dst == n.index then
         |out| == 1 && out[0].Rrep? && OwnReply(n, n', q, out[0].r) && n'.table == n.table
       else if HasFresh(n', q.dst, q.dstSeqno) then
         |out| == 1 && out[0].Rrep? && TableReply(n, n', q, now, out[0].r)
       else
         && n' == n
         && if q.ttl != 0 then |out| == 1 && out[0].Rreq? && PassedOn(n', q, out[0].q) else out == []
  }

  lemma AnswerIs(n: Node, q: Request, now: real)
    requires q.src in n.table
    ensures Response(n, AnswerRequest(n, q, now).0, q, now, AnswerRequest(n, q, now).1)
  {
    hide OwnReplySeqno;
    if q.dst == n.index { OwnNumber(n.seqno, q.dstSeqno); }
  }

  lemma ReverseIs(e: Entry, q: Request, now: real)
    ensures WayBack(e, UpdateReverse(e, q, now), q, now)
    ensures UpdateReverse(e, q, now).precursors == e.precursors
  {
  }

  /** What a node does with the first copy of a request of somebody else: it remembers it and the way back, and answers
      if it is the destination or has a route that is fresh enough; otherwise it passes it on while it may. */
  lemma RequestAnswered(n: Node, q: Request, now: real) returns (heard: Node)
    ensures var (n', out) := RecvRequest(n, q, now);
      var key, e := (q.src, q.bcastId), WithEntry(n.table, q.src)[q.src];
      if q.src == n.index || key in n.bcache then n' == n && out == []
      else
        && heard == n.(bcache := n.bcache[key := now + BCAST_ID_SAVE], table := heard.table)
        && q.src in heard.table && heard.table == n.table[q.src := heard.table[q.src]]
        && WayBack(e, heard.table[q.src], q, now)
        && Response(heard, n', q, now, out)
  {
    hide AnswerRequest, UpdateReverse, WayBack, Response;
    heard := n;
    if q.src != n.index && (q.src, q.bcastId) !in n.bcache {
      var t := WithEntry(n.table, q.src);
      ReverseIs(t[q.src], q, now);
      heard := n.(bcache := n.bcache[(q.src, q.bcastId) := now + BCAST_ID_SAVE],
                  table := t[q.src := UpdateReverse(t[q.src], q, now)]);
      AnswerIs(heard, q, now);
    }
  }

  lemma OwnNumber(own: nat, asked: nat)
    ensures Max(own, asked) < OwnReplySeqno(own, asked) <= Max(own, asked) + 2 && OwnReplySeqno(own, asked) % 2 == 0
  {
  }

  // ---------- a reply is heard ----------

  /** The route as the reply tells it; the search for it is over. */
  predicate NewRoute(e: Entry, e': Entry, r: Reply) {
    && Routes(e', r.dstSeqno, r.hopCount, r.src) && Rested(e') && e'.reqLastTtl == r.hopCount
    && e'.dst == e.dst && e'.lastHopCount == e.lastHopCount
  }

  /** Who uses the route to r.daddr has the next hop there as a precursor of the route to r.dst. */
  predicate Delivered(n': Node, r: Reply, now: real, out: seq<Packet>)
    requires r.dst in n'.table
  {
    if r.daddr == n'.index || r.daddr !in n'.table || n'.table[r.daddr].hops.None? then out == []
    else
      var b := n'.table[r.daddr];
      && b.nexthop in n'.table[r.dst].precursors
      && if r.ttl == 0 then out == []
         else
           && b.expire == now + ACTIVE_ROUTE_TIMEOUT
           && out == [Rrep(r.(hopCount := r.hopCount + 1, src := n'.index, nextHop := b.nexthop))]
  }

  /** What a node does with a reply: one that is not fresher than what it has changes nothing and goes nowhere; another
      one gives the route, and goes on to the next hop of the route to the node it is for, if there is one. */
  lemma ReplyAnswered(n: Node, r: Reply, now: real)
    ensures var (n', out) := RecvReply(n, r, now);
      var e := WithEntry(n.table, r.dst)[r.dst];
      && n' == n.(table := n'.table) && n'.table.Keys == n.table.Keys + {r.dst}
      && (forall d :: d in n.table && d != r.dst && d != r.daddr ==> n'.table[d] == n.table[d])
      && (r.daddr != r.dst && r.daddr in n.table ==>
            n'.table[r.daddr] == n.table[r.daddr].(expire := n'.table[r.daddr].expire))
      && if !Fresher(r.dstSeqno, r.hopCount, e) then n'.table == WithEntry(n.table, r.dst) && out == []
         else
           && NewRoute(e, n'.table[r.dst], r) && Delivered(n', r, now, out)
           && (r.daddr != r.dst ==> n'.table[r.dst].expire == now + r.lifetime as real)
           && (forall x :: x in e.precursors ==> x in n'.table[r.dst].precursors)
  {
    hide Fresher, ForwardReply, NewRoute, Delivered;
    var t := WithEntry(n.table, r.dst);
    var e1 := UpdateForward(t[r.dst], r, now);
    var n1 := n.(table := t[r.dst := e1]);
    if Fresher(r.dstSeqno, r.hopCount, t[r.dst]) {
      ForwardUpdates(t[r.dst], r, now);
      if r.daddr == n.index { StaysHere(n1, r, now); } else { ForwardIs(n1, r, now); }
      NewRouteStays(t[r.dst], e1, RecvReply(n, r, now).0.table[r.dst], r);
    }
  }

  lemma ForwardUpdates(e: Entry, r: Reply, now: real)
    requires Fresher(r.dstSeqno, r.hopCount, e)
    ensures var e' := UpdateForward(e, r, now);
      NewRoute(e, e', r) && e'.expire == now + r.lifetime as real && e'.precursors == e.precursors
  {
  }

  lemma NewRouteStays(e: Entry, e1: Entry, e': Entry, r: Reply)
    requires NewRoute(e, e1, r) && e' == e1.(expire := e'.expire, precursors := e'.precursors)
    ensures NewRoute(e, e', r)
  {
  }

  lemma StaysHere(n: Node, r: Reply, now: real)
    requires r.dst in n.table && r.daddr == n.index
    ensures Delivered(n, r, now, [])
  {
  }

  lemma ForwardIs(n: Node, r: Reply, now: real)
    requires r.dst in n.table && r.daddr != n.index
    ensures var (n', out) := ForwardReply(n, r, now);
      && n' == n.(table := n'.table) && n'.table.Keys == n.table.Keys && Delivered(n', r, now, out)
      && (forall d :: d in n.table && d != r.dst && d != r.daddr ==> n'.table[d] == n.table[d])
      && (r.daddr != r.dst && r.daddr in n.table ==>
            n'.table[r.daddr] == n.table[r.daddr].(expire := n'.table[r.daddr].expire))
      && (var d := n'.table[r.dst];
          d == n.table[r.dst].(expire := d.expire, precursors := d.precursors)
          && (r.daddr != r.dst ==> d.expire == n.table[r.dst].expire)
          && forall x :: x in n.table[r.dst].precursors ==> x in d.precursors)
  {
  }
}
