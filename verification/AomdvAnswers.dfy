/** AOMDV requests and their answers: which reply belongs to which request, how fresh it is, and when one is due. */
module AomdvAnswers {
  import opened Common
  import opened AomdvTable
  import opened AomdvProtocol
  import opened AomdvNetwork
  import opened AomdvPaths

  // ---------- every reply answers a request, and is fresh enough for it ----------

  /** The request as its source sent it. */
  predicate Original(p: Packet) { p.Rreq? && p.q.saddr == p.q.src }

  /** p asks on behalf of src, under its number bid, for dst with at least this sequence number. */
  predicate Asks(p: Packet, src: Addr, bid: nat, dst: Addr, seqno: nat) {
    Original(p) && p.q.src == src && p.q.bcastId == bid && p.q.dst == dst && p.q.dstSeqno <= seqno
  }

  /** Somebody has asked for this. */
  predicate Asked(net: set<Packet>, src: Addr, bid: nat, dst: Addr, seqno: nat) {
    exists p :: p in net && Asks(p, src, bid, dst, seqno)
  }

  /** Packet p carries on something that was asked. */
  predicate Grounded(net: set<Packet>, p: Packet) {
    match p
    case Rreq(q) => Asked(net, q.src, q.bcastId, q.dst, q.dstSeqno)
    case Rrep(r) => Asked(net, r.daddr, r.bcastId, r.dst, r.dstSeqno)
    case _ => true
  }

  predicate AnswersInv(s: Sys) {
    && (forall i :: i in s.nodes ==> s.nodes[i].index == i)
    && (forall p :: p in s.net ==> Grounded(s.net, p))
    && (forall p :: p in s.net && Original(p) ==> Numbered(s, p))
    && OneEach(s.net)
  }

  /** The request p has a number that its source has used up, and asks for more than a dead route. */
  predicate Numbered(s: Sys, p: Packet)
    requires p.Rreq?
  {
    p.q.src in s.nodes && p.q.bcastId < s.nodes[p.q.src].bid && Dead(p.q.dstSeqno)
  }

  predicate SameNumber(p: Packet, p': Packet) {
    Original(p) && Original(p') && p.q.src == p'.q.src && p.q.bcastId == p'.q.bcastId
  }

  /** No node asks twice under one number. */
  predicate OneEach(net: set<Packet>) {
    forall p, p' :: p in net && p' in net && SameNumber(p, p') ==> p == p'
  }

  /** out is a request of the node's own, under a number that is used up by it. */
  predicate AsksAnew(n: Node, n': Node, out: Packet) {
    Original(out) && out.q.src == n.index && n.bid == out.q.bcastId < n'.bid
  }

  /** out carries on p: for the same source and number, the same destination, and nothing older. */
  predicate CarriesOn(p: Packet, out: Packet) {
    match out
    case Rreq(q) => !Original(out) && p.Rreq? && q.src == p.q.src && q.bcastId == p.q.bcastId && q.dst == p.q.dst
                    && q.dstSeqno >= p.q.dstSeqno
    case Rrep(r) =>
      (match p
       case Rreq(q) => r.daddr == q.src && r.bcastId == q.bcastId && r.dst == q.dst && r.dstSeqno >= q.dstSeqno
       case Rrep(r0) => r.daddr == r0.daddr && r.bcastId == r0.bcastId && r.dst == r0.dst && r.dstSeqno >= r0.dstSeqno
       case _ => false)
    case _ => true
  }

  /** What a node sends is about nobody's request, or is a request of its own, or carries on what it has received. */
  predicate Follows(n: Node, n': Node, e: Event, out: seq<Packet>) {
    && n'.index == n.index && n.bid <= n'.bid && |out| <= 1
    && forall k :: 0 <= k < |out| ==>
         || out[k].Rerr? || out[k].Hello?
         || (AsksAnew(n, n', out[k]) && Dead(out[k].q.dstSeqno))
         || (e.Deliver? && CarriesOn(e.p, out[k]))
  }

  lemma AnswerFollows(n: Node, q: Request, now: real, seen: bool, route: bool)
    requires q.src in n.table && (q.src, q.bcastId) in n.bcache && q.src != n.index
    ensures var (n', out) := AnswerRequest(n, q, now, seen, route);
      && n'.index == n.index && n'.bid == n.bid && |out| <= 1
      && forall k :: 0 <= k < |out| ==> CarriesOn(Rreq(q), out[k])
  {
  }

  lemma RequestFollows(n: Node, p: Request, now: real)
    ensures var (n', out) := RecvRequest(n, p, now);
      && n'.index == n.index && n'.bid == n.bid && |out| <= 1
      && forall k :: 0 <= k < |out| ==> CarriesOn(Rreq(p), out[k])
  {
    hide UpdateReverse, AnswerRequest;
    if p.src != n.index {
      var key := (p.src, p.bcastId);
      var q := if p.hopCount == 0 then p.(firstHop := n.index) else p;
      var bcache := if key in n.bcache then n.bcache else n.bcache[key := Bcast(now + BCAST_ID_SAVE, 0)];
      var (n1, upd) := RecordReverse(n.(bcache := bcache), q, now);
      if upd.Keep? { AnswerFollows(n1, q, now, key in n.bcache, upd.route); }
    }
  }

  lemma ReplyFollows(n: Node, r: Reply, now: real)
    ensures var (n', out) := RecvReply(n, r, now);
      && n'.index == n.index && n'.bid == n.bid && |out| <= 1
      && (r.daddr == n.index ==> out == [])
      && forall k :: 0 <= k < |out| ==> CarriesOn(Rrep(r), out[k])
  {
    hide UpdateForward;
  }

  lemma SendFollows(n: Node, d: Addr, now: real, heard: set<Advert>)
    requires NodeOk(n, heard) && d in n.table
    ensures var (n', out) := SendRequest(n, d, now);
      && n'.index == n.index && n.bid <= n'.bid && |out| <= 1
      && forall k :: 0 <= k < |out| ==> AsksAnew(n, n', out[k]) && Dead(out[k].q.dstSeqno)
  {
    assert Fine(n.index, n.maxPaths, d, n.table[d], heard);
  }

  lemma ResolveFollows(n: Node, saddr: Addr, d: Addr, now: real, heard: set<Advert>)
    requires NodeOk(n, heard)
    ensures var (n', out) := RtResolve(n, saddr, d, now);
      && n'.index == n.index && n.bid <= n'.bid && |out| <= 1
      && forall k :: 0 <= k < |out| ==> out[k].Rerr? || (AsksAnew(n, n', out[k]) && Dead(out[k].q.dstSeqno))
  {
    hide SendRequest, NodeOk;
    var n1 := n.(table := WithEntry(n.table, d));
    WithEntryFine(n, d, heard);
    SendFollows(n1, d, now, heard);
  }

  lemma WithEntryFine(n: Node, d: Addr, heard: set<Advert>)
    requires NodeOk(n, heard)
    ensures NodeOk(n.(table := WithEntry(n.table, d)), heard)
  {
    NewEntryOk(n.index, n.maxPaths, d, heard);
  }

  lemma ReactFollows(n: Node, e: Event, now: real, heard: set<Advert>)
    requires !e.Tick? && NodeOk(n, heard) && (e.Request? ==> e.dst in n.table)
    ensures var (n', out) := React(n, e, now); Follows(n, n', e, out)
  {
    hide RecvRequest, RecvReply, SendRequest, RtResolve, NodeOk, ErrorHeard, LinkFailure, Purge;
    match e
    case Deliver(_, Rreq(q)) => RequestFollows(n, q.(ttl := q.ttl - 1), now);
    case Deliver(_, Rrep(r)) => ReplyFollows(n, r.(ttl := r.ttl - 1), now);
    case Deliver(_, Hello(r)) => HelloFollows(n, r.(ttl := r.ttl - 1), now);
    case Resolve(_, saddr, dst) => ResolveFollows(n, saddr, dst, now, heard);
    case Request(_, dst) => SendFollows(n, dst, now, heard);
    case _ =>
  }

  lemma HelloFollows(n: Node, r: Reply, now: real)
    ensures var (n', out) := RecvHello(n, r, now); n'.index == n.index && n'.bid == n.bid && out == []
  {
    hide RecvReply;
    var life := if r.dst in n.nbs then 1.5 * ALLOWED_HELLO_LOSS * HELLO_INTERVAL
                else HELLO_INTERVAL * ALLOWED_HELLO_LOSS;
    ReplyFollows(n.(nbs := n.nbs[r.dst := now + life]), r.(daddr := n.index, src := r.saddr, firstHop := n.index), now);
  }

  lemma AskedMore(net: set<Packet>, net': set<Packet>, p: Packet)
    requires Grounded(net, p) && net <= net'
    ensures Grounded(net', p)
  {
  }

  /** Who carries on something that was asked asks for, or answers with, nothing older. */
  lemma Carried(net: set<Packet>, p: Packet, out: Packet)
    requires p in net && Grounded(net, p) && CarriesOn(p, out)
    ensures Grounded(net, out)
  {
    match p
    case Rreq(q) => var o :| o in net && Asks(o, q.src, q.bcastId, q.dst, q.dstSeqno);
      if out.Rreq? { assert Asks(o, q.src, q.bcastId, q.dst, out.q.dstSeqno); }
      if out.Rrep? { assert Asks(o, q.src, q.bcastId, q.dst, out.r.dstSeqno); }
    case Rrep(r) => var o :| o in net && Asks(o, r.daddr, r.bcastId, r.dst, r.dstSeqno);
      if out.Rrep? { assert Asks(o, r.daddr, r.bcastId, r.dst, out.r.dstSeqno); }
    case _ =>
  }

  lemma StepAnswers(s: Sys, e: Event)
    requires Inv(s) && AnswersInv(s) && Enabled(s, e)
    ensures AnswersInv(Step(s, e))
  {
    hide Inv, React, NodeOk, Grounded, CarriesOn;
    if !e.Tick? {
      var n := s.nodes[e.at];
      NodeIs(s, e.at);
      ReactFollows(n, e, s.now, Adverts(s.net));
      var (n', out) := React(n, e, s.now);
      var s' := Step(s, e);
      assert s'.net == s.net + (set p | p in out);
      forall p | p in s'.net ensures Grounded(s'.net, p) {
        if p in s.net {
          AskedMore(s.net, s'.net, p);
        } else {
          assert p == out[0];
          if p.Rerr? || p.Hello? || AsksAnew(n, n', p) {
            OwnGrounded(s'.net, p);
          } else {
            Carried(s.net, e.p, p);
            AskedMore(s.net, s'.net, p);
          }
        }
      }
      forall p | p in s'.net && p !in s.net && Original(p) ensures AsksAnew(n, n', p) && Dead(p.q.dstSeqno) {
        assert p == out[0];
        if e.Deliver? && CarriesOn(e.p, p) { NotOriginal(e.p, p); }
      }
      OriginalsKept(s, s', n, n');
    }
  }

  /** New requests of one node do not disturb the numbering. */
  lemma OriginalsKept(s: Sys, s': Sys, n: Node, n': Node)
    requires n.index in s.nodes && s.nodes[n.index] == n && s'.nodes == s.nodes[n.index := n'] && n.bid <= n'.bid
    requires s.net <= s'.net && OneEach(s.net) && forall p :: p in s.net && Original(p) ==> Numbered(s, p)
    requires forall p :: p in s'.net && p !in s.net && Original(p) ==> AsksAnew(n, n', p) && Dead(p.q.dstSeqno)
    requires forall p, p' :: p in s'.net && p' in s'.net && p !in s.net && p' !in s.net ==> p == p'
    ensures OneEach(s'.net) && forall p :: p in s'.net && Original(p) ==> Numbered(s', p)
  {
  }

  lemma NodeIs(s: Sys, i: Addr)
    requires Inv(s) && i in s.nodes
    ensures s.nodes[i].index == i && NodeOk(s.nodes[i], Adverts(s.net))
  {
  }

  lemma OwnGrounded(net: set<Packet>, p: Packet)
    requires p in net && (p.Rerr? || p.Hello? || Original(p))
    ensures Grounded(net, p)
  {
    if p.Rreq? { assert Asks(p, p.q.src, p.q.bcastId, p.q.dst, p.q.dstSeqno); }
  }

  lemma NotOriginal(p: Packet, out: Packet)
    requires CarriesOn(p, out)
    ensures !Original(out)
  {
  }

  lemma {:induction false} RunAnswers(run: seq<Sys>, k: nat)
    requires IsRun(run) && k < |run|
    ensures AnswersInv(run[k])
  {
    hide AnswersInv, Inv;
    if k == 0 {
      NothingAsked(run[0]);
    } else {
      RunAnswers(run, k - 1);
      RunOk(run, k - 1);
      assert Next(run[k - 1], run[k]);
      var e :| Enabled(run[k - 1], e) && run[k] == Step(run[k - 1], e);
      StepAnswers(run[k - 1], e);
    }
  }

  lemma NothingAsked(s: Sys)
    requires Initial(s)
    ensures AnswersInv(s)
  {
  }

  lemma ReplyLive(s: Sys, r: Reply)
    requires Inv(s) && Rrep(r) in s.net
    ensures Live(r.dstSeqno)
  {
    assert PacketOk(Rrep(r));
  }

  lemma FreshIn(s: Sys, r: Reply)
    requires AnswersInv(s) && Rrep(r) in s.net && Live(r.dstSeqno)
    ensures OneEach(s.net)
    ensures exists p :: p in s.net && Original(p) && p.q.src == r.daddr && p.q.bcastId == r.bcastId
    ensures forall p :: p in s.net && Original(p) && p.q.src == r.daddr && p.q.bcastId == r.bcastId ==>
      p.q.dst == r.dst && p.q.dstSeqno < r.dstSeqno
  {
    assert Grounded(s.net, Rrep(r));
    var p :| p in s.net && Asks(p, r.daddr, r.bcastId, r.dst, r.dstSeqno);
    assert Numbered(s, p);
    forall p' | p' in s.net && Original(p') && p'.q.src == r.daddr && p'.q.bcastId == r.bcastId ensures p' == p {
      assert SameNumber(p, p');
    }
  }

  /** In every run: however often request and reply were passed on, each reply belongs to exactly one request of
      the node it goes to, is about the destination that was asked for, and carries a number at least as new as
      the one asked for, and newer if that one was of a dead route. */
  lemma FreshAnswers(run: seq<Sys>, k: nat, r: Reply)
    requires IsRun(run) && k < |run| && Rrep(r) in run[k].net
    ensures exists p :: p in run[k].net && Original(p) && p.q.src == r.daddr && p.q.bcastId == r.bcastId
    ensures forall p :: p in run[k].net && Original(p) && p.q.src == r.daddr && p.q.bcastId == r.bcastId ==>
      p.q.dst == r.dst && p.q.dstSeqno < r.dstSeqno
    ensures OneEach(run[k].net)
  {
    hide AnswersInv, Inv, IsRun, Original, OneEach;
    RunAnswers(run, k);
    RunOk(run, k);
    ReplyLive(run[k], r);
    FreshIn(run[k], r);
  }

  /** So a node that has learnt nothing newer since it asked takes the route from whatever answer reaches it. */
  lemma UsefulAnswers(run: seq<Sys>, k: nat, r: Reply, p: Packet)
    requires IsRun(run) && k < |run| && Rrep(r) in run[k].net
    requires p in run[k].net && Original(p) && p.q.src == r.daddr && p.q.bcastId == r.bcastId
    requires r.daddr in run[k].nodes && r.dst != r.daddr
    requires WithEntry(run[k].nodes[r.daddr].table, r.dst)[r.dst].seqno <= p.q.dstSeqno
    ensures var (n, out) := RecvReply(run[k].nodes[r.daddr], r, run[k].now);
      && r.dst in n.table && n.table[r.dst].flags.Up? && n.table[r.dst].seqno == r.dstSeqno && out == []
      && n.table[r.dst].paths == [Path(r.src, r.hopCount + 1, run[k].now + r.lifetime, r.firstHop)]
  {
    hide AnswersInv, Inv, IsRun, RecvReply, Original;
    FreshAnswers(run, k, r);
    RunOk(run, k);
    NodeIs(run[k], r.daddr);
    TakesRoute(run[k].nodes[r.daddr], r, run[k].now);
  }

  lemma TakesRoute(n: Node, r: Reply, now: real)
    requires r.daddr == n.index != r.dst && WithEntry(n.table, r.dst)[r.dst].seqno < r.dstSeqno
    ensures var (n', out) := RecvReply(n, r, now);
      && r.dst in n'.table && n'.table[r.dst].flags.Up? && n'.table[r.dst].seqno == r.dstSeqno && out == []
      && n'.table[r.dst].paths == [Path(r.src, r.hopCount + 1, now + r.lifetime, r.firstHop)]
  {
    hide ForwardReply, LastHopCount;
  }

  // ---------- when an answer is due, and what it says ----------

  /** A usable route to d that is not older than what is asked for. */
  predicate HasFresh(n: Node, d: Addr, seqno: nat) {
    d in n.table && n.table[d].flags.Up? && n.table[d].seqno >= seqno
  }

  /** The search for a route is over: the next one starts afresh. */
  predicate Rested(e: Entry) { e.reqTimeout == 0.0 && e.reqLastTtl == 0 && e.reqCnt == 0 }

  /** How many replies have gone through here for this request. */
  function Replied(n: Node, key: (Addr, nat)): nat { if key in n.bcache then n.bcache[key].count else 0 }

  /** The way back that a request brings; the neighbour of its source is the last hop itself. */
  function WayBack(n: Node, q: Request, now: real): Path {
    Path(q.saddr, q.hopCount + 1, now + REV_ROUTE_LIFE, if q.hopCount == 0 then n.index else q.firstHop)
  }

  /** The fields in which every answer to q agrees. */
  predicate Replies(n: Node, q: Request, r: Reply) {
    && r.saddr == r.src == n.index && r.daddr == q.src && r.nextHop == q.saddr && r.dst == q.dst
    && r.bcastId == q.bcastId && r.ttl == NETWORK_DIAMETER && r.timestamp == q.timestamp
  }

  /** The answer of the destination: its own number, raised above what was asked for if that is news to it. */
  predicate OwnReply(n: Node, n': Node, q: Request, r: Reply) {
    && Replies(n', q, r) && r.hopCount == 0 && r.firstHop == q.saddr && r.lifetime == MY_ROUTE_TIMEOUT
    && r.dstSeqno == n'.seqno >= q.dstSeqno && Live(n'.seqno)
    && (q.dstSeqno <= n.seqno ==> n'.seqno == n.seqno)
    && (n.seqno < q.dstSeqno ==> q.dstSeqno < n'.seqno <= q.dstSeqno + 2)
  }

  /** The answer of a node on the way: what its entry for the destination says from now on. */
  predicate TableReply(n': Node, q: Request, now: real, r: Reply)
    requires q.dst in n'.table && n'.table[q.dst].paths != []
  {
    var e := n'.table[q.dst];
    && Replies(n', q, r) && r.dstSeqno == e.seqno && e.advertisedHops == Some(r.hopCount) && e.error
    && r.firstHop == e.paths[0].lasthop && r.lifetime == e.paths[0].expire - now
  }

  /** The request as it is passed on: with what the entry for its source says from now on, and never asking for less. */
  predicate PassedOn(n': Node, q: Request, q': Request)
    requires q.src in n'.table && n'.table[q.src].paths != []
  {
    var e := n'.table[q.src];
    && q'.saddr == n'.index && e.advertisedHops == Some(q'.hopCount) && q'.firstHop == e.paths[0].lasthop
    && q'.dstSeqno == (if q.dst in n'.table then Max(n'.table[q.dst].seqno, q.dstSeqno) else q.dstSeqno)
    && q'.src == q.src && q'.srcSeqno == q.srcSeqno && q'.dst == q.dst && q'.bcastId == q.bcastId && q'.ttl == q.ttl
    && q'.timestamp == q.timestamp
  }

  /** What leaves for request q once it is followed up: `first` if it is the first copy, `route` if its path is one
      that can be answered on. */
  predicate Response(n: Node, n': Node, q: Request, now: real, first: bool, route: bool, out: seq<Packet>)
    requires q.src in n'.table && n'.table[q.src].paths != []
    requires HasFresh(n', q.dst, q.dstSeqno) ==> n'.table[q.dst].paths != []
  {
    var key := (q.src, q.bcastId);
    if q.dst == n.index then |out| == 1 && out[0].Rrep? && OwnReply(n, n', q, out[0].r)
    else if HasFresh(n', q.dst, q.dstSeqno) then
      if route && Replied(n, key) == 0 then
        |out| == 1 && out[0].Rrep? && TableReply(n', q, now, out[0].r) && Replied(n', key) == 1
      else out == []
    else if first && q.ttl != 0 then |out| == 1 && out[0].Rreq? && PassedOn(n', q, out[0].q)
    else out == []
  }

  predicate Answered(n: Node, q: Request, now: real, seen: bool, route: bool)
    requires q.src in n.table && (q.src, q.bcastId) in n.bcache
  {
    var (n', out) := AnswerRequest(n, q, now, seen, route);
    && q.src in n'.table && n'.table[q.src].paths == n.table[q.src].paths != []
    && (HasFresh(n', q.dst, q.dstSeqno) ==> n'.table[q.dst].paths != [])
    && Response(n, n', q, now, !seen, route, out)
  }

  lemma OwnIs(n: Node, q: Request, now: real, seen: bool, route: bool)
    requires q.src in n.table && (q.src, q.bcastId) in n.bcache && q.dst == n.index && Live(n.seqno)
    requires n.table[q.src].paths != [] && (q.dst in n.table ==> n.table[q.dst].flags.Down?)
    ensures Answered(n, q, now, seen, route)
  {
  }

  lemma KnownIs(n: Node, q: Request, now: real, seen: bool, route: bool)
    requires q.src in n.table && (q.src, q.bcastId) in n.bcache && HasFresh(n, q.dst, q.dstSeqno) && q.dst != n.index
    requires n.table[q.src].paths != [] && n.table[q.dst].paths != []
    requires Advertise(n.table[q.dst]).advertisedHops.Some?
    ensures Answered(n, q, now, seen, route)
  {
    hide MaxHopcount;
  }

  lemma UnknownIs(n: Node, q: Request, now: real, seen: bool, route: bool)
    requires q.src in n.table && (q.src, q.bcastId) in n.bcache && !HasFresh(n, q.dst, q.dstSeqno) && q.dst != n.index
    requires n.table[q.src].paths != [] && Advertise(n.table[q.src]).advertisedHops.Some?
    ensures Answered(n, q, now, seen, route)
  {
    hide MaxHopcount;
  }

  lemma EntryUp(n: Node, d: Addr, heard: set<Advert>)
    requires NodeOk(n, heard) && d in n.table
    ensures n.table[d].flags.Up? ==>
      n.table[d].paths != [] && Advertise(n.table[d]).advertisedHops.Some? && d != n.index
    ensures d == n.index ==> n.table[d].flags.Down?
  {
    if n.table[d].flags.Up? { AdvertiseOk(n.index, n.maxPaths, d, n.table[d], heard); }
    assert Fine(n.index, n.maxPaths, d, n.table[d], heard);
  }

  lemma AnswerIs(n: Node, q: Request, now: real, seen: bool, route: bool, heard: set<Advert>)
    requires NodeOk(n, heard) && q.src in n.table && (q.src, q.bcastId) in n.bcache && n.table[q.src].flags.Up?
    ensures Answered(n, q, now, seen, route)
  {
    hide Fine, Answered;
    EntryUp(n, q.src, heard);
    if q.dst in n.table { EntryUp(n, q.dst, heard); }
    if q.dst == n.index {
      OwnIs(n, q, now, seen, route);
    } else if HasFresh(n, q.dst, q.dstSeqno) {
      KnownIs(n, q, now, seen, route);
    } else {
      UnknownIs(n, q, now, seen, route);
    }
  }

  lemma FineDistinct(index: Addr, maxPaths: int, d: Addr, e: Entry, heard: set<Advert>)
    requires Fine(index, maxPaths, d, e, heard)
    ensures Distinct(e.paths)
  {
  }

  /** The last hop in the request itself plays no part in the decisions. */
  lemma RefusedAlike(index: Addr, diff: int, e: Entry, p: Request, q: Request, back: Path)
    requires p == q.(firstHop := p.firstHop)
    ensures forall e' :: Refused(index, diff, e, e', p, back) <==> Refused(index, diff, e, e', q, back)
  {
  }

  lemma ResponseAlike(n1: Node, n: Node, n': Node, p: Request, q: Request, now: real, first: bool, route: bool,
                      out: seq<Packet>)
    requires p == q.(firstHop := p.firstHop) && n1.index == n.index && n1.seqno == n.seqno
    requires Replied(n1, (q.src, q.bcastId)) == Replied(n, (q.src, q.bcastId))
    requires q.src in n'.table && n'.table[q.src].paths != []
    requires HasFresh(n', q.dst, q.dstSeqno) ==> n'.table[q.dst].paths != []
    requires Response(n1, n', p, now, first, route, out)
    ensures Response(n, n', q, now, first, route, out)
  {
  }

  lemma AnswerKeeps(n: Node, q: Request, now: real, seen: bool, route: bool)
    requires q.src in n.table && (q.src, q.bcastId) in n.bcache
    ensures var n' := AnswerRequest(n, q, now, seen, route).0; var key := (q.src, q.bcastId);
      && q.src in n'.table && n'.table[q.src].seqno == n.table[q.src].seqno
      && (Rested(n.table[q.src]) ==> Rested(n'.table[q.src]))
      && key in n'.bcache && n'.bcache[key].expire == n.bcache[key].expire
  {
  }

  lemma RecordKeeps(n: Node, q: Request, now: real)
    ensures var (n1, upd) := RecordReverse(n, q, now);
      && n1 == n.(table := n1.table) && q.src in n1.table
      && n1.table[q.src].paths == upd.entry.paths && n1.table[q.src].seqno == upd.entry.seqno
      && upd == UpdateReverse(n.index, n.maxPaths, n.lenDiff, WithEntry(n.table, q.src)[q.src], q, now)
      && (upd.Keep? && n1.table[q.src].flags.Up? ==> Rested(n1.table[q.src]))
  {
    hide UpdateReverse;
  }

  /** What a node does with a request of somebody else: it learns the way back, as `learnt` says, remembers the
      request, and answers, passes it on or drops it. */
  lemma RequestAnswered(n: Node, q: Request, now: real, heard: set<Advert>) returns (learnt: Entry)
    requires NodeOk(n, heard) && PacketOk(Rreq(q)) && AdvertOf(Rreq(q)) in heard && q.src != n.index
    ensures var (n', out) := RecvRequest(n, q, now);
      var key, e, back := (q.src, q.bcastId), WithEntry(n.table, q.src)[q.src], WayBack(n, q, now);
      && Learnt(e, learnt, q.srcSeqno, back, n.maxPaths, n.lenDiff)
      && q.src in n'.table && n'.table[q.src].paths == learnt.paths && n'.table[q.src].seqno == learnt.seqno
      && key in n'.bcache && (key !in n.bcache ==> n'.bcache[key].expire == now + BCAST_ID_SAVE)
      && if Refused(n.index, n.lenDiff, e, learnt, q, back) then out == []
         else
           && learnt.paths != [] && Rested(n'.table[q.src])
           && (HasFresh(n', q.dst, q.dstSeqno) ==> n'.table[q.dst].paths != [])
           && Response(n, n', q, now, key !in n.bcache, Taken(e, learnt, q.srcSeqno, back), out)
  {
    hide AnswerRequest, UpdateReverse, RecordReverse, NodeOk, Fine, Response, Learnt, Refused, Taken, HasFresh,
         NodeAdvances;
    var p := if q.hopCount == 0 then q.(firstHop := n.index) else q;
    var key := (q.src, q.bcastId);
    var seen := key in n.bcache;
    var n0 := n.(bcache := if seen then n.bcache else n.bcache[key := Bcast(now + BCAST_ID_SAVE, 0)]);
    var e := WithEntry(n.table, q.src)[q.src];
    WithEntryOk(n, q.src, heard);
    FineDistinct(n.index, n.maxPaths, q.src, e, heard);
    ReverseLearns(n.index, n.maxPaths, n.lenDiff, e, p, now);
    RefusedAlike(n.index, n.lenDiff, e, p, q, WayBack(n, q, now));
    RecordReverseOk(n, n0, p, now, heard);
    RecordKeeps(n0, p, now);
    var (n1, upd) := RecordReverse(n0, p, now);
    learnt := upd.entry;
    if upd.Drop? {
      assert RecvRequest(n, q, now) == (n1, []);
    } else {
      AnswerIs(n1, p, now, seen, upd.route, heard);
      var (n', out) := AnswerRequest(n1, p, now, seen, upd.route);
      AnswerKeeps(n1, p, now, seen, upd.route);
      assert RecvRequest(n, q, now) == (n', out);
      ResponseAlike(n1, n, n', p, q, now, !seen, upd.route, out);
    }
  }

  /** A request changes at most the entry for its source, the freshness of the advertisement of the entry for the
      destination, what is remembered of the request, and, at the destination, the own number. */
  predicate Touches(n: Node, n': Node, q: Request) {
    && n' == n.(seqno := n'.seqno, bcache := n'.bcache, table := n'.table)
    && (q.dst != n.index ==> n'.seqno == n.seqno)
    && n'.table.Keys == n.table.Keys + {q.src}
    && (forall d :: d in n.table && d != q.src && d != q.dst ==> n'.table[d] == n.table[d])
    && (q.dst != q.src && q.dst in n.table ==> SameButSaid(n.table[q.dst], n'.table[q.dst]))
    && (forall k :: k in n.bcache && k != (q.src, q.bcastId) ==> k in n'.bcache && n'.bcache[k] == n.bcache[k])
  }

  predicate SameButSaid(e: Entry, e': Entry) { e' == e.(advertisedHops := e'.advertisedHops, error := e'.error) }

  lemma RequestTouches(n: Node, q: Request, now: real)
    requires q.src != n.index
    ensures Touches(n, RecvRequest(n, q, now).0, q)
  {
    hide Touches, RecordReverse, AnswerRequest;
    var p := if q.hopCount == 0 then q.(firstHop := n.index) else q;
    var key := (q.src, q.bcastId);
    var n0 := n.(bcache := if key in n.bcache then n.bcache else n.bcache[key := Bcast(now + BCAST_ID_SAVE, 0)]);
    var (n1, upd) := RecordReverse(n0, p, now);
    RecordTouches(n, n0, p, q, now);
    if upd.Keep? {
      AnswerTouches(n1, p, q, now, key in n.bcache, upd.route);
      TouchesTrans(n, n1, AnswerRequest(n1, p, now, key in n.bcache, upd.route).0, q);
    }
  }

  lemma TouchesTrans(n: Node, n1: Node, n': Node, q: Request)
    requires Touches(n, n1, q) && Touches(n1, n', q)
    ensures Touches(n, n', q)
  {
  }

  lemma RecordTouches(n: Node, n0: Node, p: Request, q: Request, now: real)
    requires n0 == n.(bcache := n0.bcache) && p.src == q.src
    requires forall k :: k in n.bcache && k != (q.src, q.bcastId) ==> k in n0.bcache && n0.bcache[k] == n.bcache[k]
    ensures Touches(n, RecordReverse(n0, p, now).0, q)
  {
    hide UpdateReverse;
  }

  lemma AnswerTouches(n: Node, p: Request, q: Request, now: real, seen: bool, route: bool)
    requires q.src in n.table && (q.src, q.bcastId) in n.bcache && p == q.(firstHop := p.firstHop)
    ensures Touches(n, AnswerRequest(n, p, now, seen, route).0, q)
  {
    hide MaxHopcount;
  }

  // ---------- replies on their way ----------

  /** A reply changes at most the entry for what it is about and the lifetimes in the entry for whom it is for. */
  predicate ReplyTouches(n: Node, n': Node, r: Reply) {
    && n' == n.(bcache := n'.bcache, table := n'.table) && n'.bcache.Keys == n.bcache.Keys
    && n'.table.Keys == n.table.Keys + {r.dst}
    && (forall d :: d in n.table && d != r.dst && d != r.daddr ==> n'.table[d] == n.table[d])
    && (r.daddr != r.dst && r.daddr in n.table ==>
          var e, e' := n.table[r.daddr], n'.table[r.daddr];
          e' == e.(paths := e'.paths) && |e'.paths| == |e.paths|
          && forall i :: 0 <= i < |e.paths| ==> e'.paths[i] == e.paths[i].(expire := e'.paths[i].expire)
                                                && (i > 0 ==> e'.paths[i] == e.paths[i]))
    && (forall k :: k in n.bcache && k != (r.daddr, r.bcastId) ==> n'.bcache[k] == n.bcache[k])
  }

  lemma ReplyTouchesLittle(n: Node, r: Reply, now: real)
    requires r.dst != n.index
    ensures ReplyTouches(n, RecvReply(n, r, now).0, r)
  {
    hide UpdateForward, MaxHopcount;
  }

  /** The reply goes on to somebody for whom no reply has gone through here yet. */
  predicate GoesOn(n: Node, n': Node, r: Reply) {
    && r.daddr != n.index && r.daddr in n'.table && n'.table[r.daddr].flags.Up?
    && (r.daddr, r.bcastId) in n.bcache && Replied(n, (r.daddr, r.bcastId)) == 0
  }

  /** What a node does with a reply about somebody else: it learns the route, as `learnt` says. If it has taken the
      path, the reply goes on to the next hop of the first path to the node it is for, once for each request, and
      says what the entry says from now on. */
  lemma ReplyPassedOn(n: Node, r: Reply, now: real, heard: set<Advert>) returns (learnt: Entry)
    requires NodeOk(n, heard) && PacketOk(Rrep(r)) && AdvertOf(Rrep(r)) in heard && r.dst != n.index
    ensures var (n', out) := RecvReply(n, r, now);
      var e, p := WithEntry(n.table, r.dst)[r.dst], Path(r.src, r.hopCount + 1, now + r.lifetime, r.firstHop);
      && Learnt(e, learnt, r.dstSeqno, p, n.maxPaths, n.lenDiff) && r.dst in n'.table
      && (r.daddr != r.dst ==> n'.table[r.dst].paths == learnt.paths) && n'.table[r.dst].seqno == learnt.seqno
      && (Taken(e, learnt, r.dstSeqno, p) ==> Rested(n'.table[r.dst]))
      && if !Taken(e, learnt, r.dstSeqno, p) || !GoesOn(n, n', r) then out == [] && n'.bcache == n.bcache
         else
           var d, b := n'.table[r.dst], n'.table[r.daddr];
           && d.paths != [] && d.advertisedHops.Some? && d.error
           && b.paths != [] && b.paths[0].expire == now + ACTIVE_ROUTE_TIMEOUT
           && Replied(n', (r.daddr, r.bcastId)) == 1
           && out == if r.ttl == 0 then [] else
                [Rrep(r.(nextHop := b.paths[0].nexthop, src := n.index, hopCount := d.advertisedHops.value,
                         firstHop := d.paths[0].lasthop))]
  {
    hide UpdateForward, ForwardReply, NodeOk, Fine, Learnt, Taken, NodeAdvances;
    WithEntryOk(n, r.dst, heard);
    var e := WithEntry(n.table, r.dst)[r.dst];
    FineDistinct(n.index, n.maxPaths, r.dst, e, heard);
    ForwardLearns(n.maxPaths, n.lenDiff, e, r, now);
    RecordForwardOk(n, r, now, heard);
    var (n1, upd) := RecordForward(n, r, now);
    learnt := upd.entry;
    if upd.Drop? || r.daddr == n.index {
      assert RecvReply(n, r, now) == (n1, []);
    } else {
      assert RecvReply(n, r, now) == ForwardReply(n1, r, now);
      EntryUp(n1, r.dst, heard);
      if r.daddr in n1.table { EntryUp(n1, r.daddr, heard); }
      ForwardIs(n1, r, now);
    }
  }

  lemma RecordForwardOk(n: Node, r: Reply, now: real, heard: set<Advert>)
    requires NodeOk(n, heard) && PacketOk(Rrep(r)) && AdvertOf(Rrep(r)) in heard && r.dst != n.index
    ensures var (n1, upd) := RecordForward(n, r, now);
      && NodeOk(n1, heard) && n1 == n.(table := n1.table)
      && upd == UpdateForward(n.maxPaths, n.lenDiff, WithEntry(n.table, r.dst)[r.dst], r, now)
      && n1.table[r.dst].paths == upd.entry.paths && n1.table[r.dst].seqno == upd.entry.seqno
      && (upd.Keep? ==> n1.table[r.dst].flags.Up? && Rested(n1.table[r.dst]))
  {
    hide Fine, UpdateForward;
    WithEntryOk(n, r.dst, heard);
    var e := WithEntry(n.table, r.dst)[r.dst];
    UpdateForwardOk(n, e, r, now, heard);
    var upd := UpdateForward(n.maxPaths, n.lenDiff, e, r, now);
    SameRouteOk(n.index, n.maxPaths, r.dst, upd.entry, ResetRequests(upd.entry), heard);
    var e' := if upd.Drop? then upd.entry else ResetRequests(upd.entry);
    AdvancesTrans(e, upd.entry, e');
    PutOk(n, RecordForward(n, r, now).0, r.dst, e', heard);
  }

  lemma ForwardIs(n: Node, r: Reply, now: real)
    requires r.dst in n.table && n.table[r.dst].flags.Up? && n.table[r.dst].paths != [] && r.daddr != n.index
    requires Advertise(n.table[r.dst]).advertisedHops.Some?
    requires r.daddr in n.table && n.table[r.daddr].flags.Up? ==> n.table[r.daddr].paths != []
    ensures var (n', out) := ForwardReply(n, r, now);
      && r.dst in n'.table && n'.table[r.dst].seqno == n.table[r.dst].seqno
      && (Rested(n.table[r.dst]) ==> Rested(n'.table[r.dst]))
      && (r.daddr != r.dst ==> n'.table[r.dst].paths == n.table[r.dst].paths)
      && if !GoesOn(n, n', r) then out == [] && n'.bcache == n.bcache
         else
           var d, b := n'.table[r.dst], n'.table[r.daddr];
           && d.paths != [] && d.advertisedHops.Some? && d.error
           && b.paths != [] && b.paths[0].expire == now + ACTIVE_ROUTE_TIMEOUT
           && Replied(n', (r.daddr, r.bcastId)) == 1
           && out == if r.ttl == 0 then [] else
                [Rrep(r.(nextHop := b.paths[0].nexthop, src := n.index, hopCount := d.advertisedHops.value,
                         firstHop := d.paths[0].lasthop))]
  {
    hide MaxHopcount;
  }
}
