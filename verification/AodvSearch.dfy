/** How an AODV node looks for routes: when it asks, how far, how often, and what it does for data, repair and
    neighbours. */
module AodvSearch {
  import opened Common
  import opened AodvProtocol
  import opened AodvNetwork

  // ---------- in every run ----------

  /** Routes have at least one hop, and so had the last one; searches are counted up to one more than the retries. */
  predicate SearchOk(e: Entry) {
    && (e.hops.Some? ==> e.hops.value >= 1)
    && e.lastHopCount >= 1 && e.reqCnt <= RREQ_RETRIES + 1
  }

  predicate Searches(n: Node) {
    forall d :: d in n.table ==> SearchOk(n.table[d])
  }

  /** Whoever goes through the sender is at least one hop away. */
  predicate HopsOk(p: Packet) { Advertises(p) ==> AdvertOf(p).hops >= 1 }

  predicate AllHopsOk(net: set<Sent>) {
    forall m :: m in net ==> HopsOk(m.p)
  }

  predicate Sound(n: Node, out: seq<Packet>) {
    Searches(n) && forall k :: 0 <= k < |out| ==> HopsOk(out[k])
  }

  lemma EntrySearch(e: Entry, q: Request, now: real)
    requires SearchOk(e) && q.hopCount >= 1
    ensures SearchOk(UpdateReverse(e, q, now))
  {
  }

  lemma ForwardSearch(e: Entry, r: Reply, now: real)
    requires SearchOk(e) && r.hopCount >= 1
    ensures SearchOk(UpdateForward(e, r, now))
  {
  }

  lemma LossSearch(e: Entry, id: Addr, u: nat, now: real)
    requires SearchOk(e)
    ensures SearchOk(LinkFailure(e, id).0) && SearchOk(ErrorHeard(e, id, u).0) && SearchOk(Purge(e, now))
    ensures SearchOk(RtDown(e))
  {
    hide PcDelete;
  }

  lemma NewEntrySearch(d: Addr)
    ensures SearchOk(NewEntry(d))
  {
  }

  lemma RequestSearch(n: Node, q: Request, now: real)
    requires Searches(n) && q.hopCount >= 1
    ensures var (n', out) := RecvRequest(n, q, now); Sound(n', out)
  {
    hide AnswerRequest, UpdateReverse, SearchOk;
    if q.src != n.index && (q.src, q.bcastId) !in n.bcache {
      NewEntrySearch(q.src);
      var t := WithEntry(n.table, q.src);
      EntrySearch(t[q.src], q, now);
      var n1 := n.(bcache := n.bcache[(q.src, q.bcastId) := now + BCAST_ID_SAVE],
                   table := t[q.src := UpdateReverse(t[q.src], q, now)]);
      AnswerSearch(n1, q, now);
    }
  }

  lemma AnswerSearch(n: Node, q: Request, now: real)
    requires Searches(n) && q.src in n.table && q.hopCount >= 1
    ensures var (n', out) := AnswerRequest(n, q, now); Sound(n', out)
  {
    hide PcInsert, OwnReplySeqno;
  }

  lemma ReplySearch(n: Node, r: Reply, now: real)
    requires Searches(n) && r.hopCount >= 1
    ensures var (n', out) := RecvReply(n, r, now); Sound(n', out)
  {
    hide ForwardReply, UpdateForward, SearchOk, Fresher;
    NewEntrySearch(r.dst);
    var t := WithEntry(n.table, r.dst);
    ForwardSearch(t[r.dst], r, now);
    PassingSearch(n.(table := t[r.dst := UpdateForward(t[r.dst], r, now)]), r, now);
  }

  lemma PassingSearch(n: Node, r: Reply, now: real)
    requires Searches(n) && r.dst in n.table && r.hopCount >= 1
    ensures var (n', out) := ForwardReply(n, r, now); Sound(n', out)
  {
    hide PcInsert;
  }

  lemma SendSearch(n: Node, d: Addr, perHop: real, now: real)
    requires Searches(n) && d in n.table
    ensures var (n', out) := SendRequest(n, d, perHop, now); Sound(n', out)
  {
    hide RequestTimeout;
  }

  lemma ResolveSearch(n: Node, saddr: Addr, d: Addr, perHop: real, now: real)
    requires Searches(n)
    ensures var (n', out) := RtResolve(n, saddr, d, perHop, now); Sound(n', out)
  {
    hide SendRequest;
    NewEntrySearch(d);
    SendSearch(n.(table := WithEntry(n.table, d)), d, perHop, now);
  }

  lemma RepairSearch(n: Node, d: Addr, perHop: real, now: real)
    requires Searches(n) && d in n.table
    ensures var (n', out) := LocalRepair(n, d, perHop, now); Sound(n', out)
  {
    hide SendRequest;
    SendSearch(n.(table := n.table[d := n.table[d].(flags := InRepair)]), d, perHop, now);
  }

  lemma LossesSearch(n: Node, id: Addr, unreachable: map<Addr, nat>, now: real)
    requires Searches(n)
    ensures Searches(NbDelete(n, id).0) && Searches(RecvError(n, id, unreachable).0) && Searches(RtPurge(n, now))
    ensures forall d :: Searches(RepairTimeout(n, d))
  {
    hide LinkFailure, ErrorHeard, Purge, RtDown, SearchOk, ErrorReports, LossReports;
    forall d | d in n.table
      ensures SearchOk(LinkFailure(n.table[d], id).0) && SearchOk(Purge(n.table[d], now))
      ensures SearchOk(RtDown(n.table[d]))
      ensures d in unreachable ==> SearchOk(ErrorHeard(n.table[d], id, unreachable[d]).0)
    {
      LossSearch(n.table[d], id, if d in unreachable then unreachable[d] else 0, now);
    }
  }

  lemma ReactSearch(n: Node, e: Event, now: real)
    requires Searches(n) && !e.Tick? && (e.Ask? || e.Repair? ==> e.dst in n.table)
    requires e.Deliver? ==> HopsOk(e.m.p)
    ensures var (n', out) := React(n, e, now); Sound(n', out)
  {
    hide RecvRequest, RecvReply, RecvError, SendRequest, RtResolve, NbDelete, RtPurge, LocalRepair,
         RepairTimeout, Searches;
    match e
    case Deliver(_, Sent(Rreq(q), _)) => RequestSearch(n, q.(ttl := q.ttl - 1), now);
    case Deliver(_, Sent(Rrep(r), _)) => ReplySearch(n, r.(ttl := r.ttl - 1), now);
    case Deliver(_, Sent(Rerr(saddr, unreachable), _)) =>
      LossesSearch(n, saddr, unreachable, now);
      ErrorsOnly(n, saddr, unreachable, 0);
    case Deliver(_, Sent(Hello(d, _), _)) => HelloSearch(n, d, now);
    case Resolve(_, saddr, dst, perHop) => ResolveSearch(n, saddr, dst, perHop, now);
    case Ask(_, dst, perHop) => SendSearch(n, dst, perHop, now);
    case NbLoss(_, id) =>
      LossesSearch(n, id, map[], now);
      ErrorsOnly(n, 0, map[], id);
    case Repair(_, dst, perHop, _) => RepairSearch(n, dst, perHop, now);
    case RouteTick(_) => LossesSearch(n, 0, map[], now);
    case RepairTick(_, dst) => LossesSearch(n, 0, map[], now);
    case SayHello(_) => HelloSearch(n, 0, now);
    case BcastTick(_) => HelloSearch(n, 0, now);
  }

  lemma ErrorsOnly(n: Node, saddr: Addr, unreachable: map<Addr, nat>, id: Addr)
    ensures forall k :: 0 <= k < |RecvError(n, saddr, unreachable).1| ==> RecvError(n, saddr, unreachable).1[k].Rerr?
    ensures forall k :: 0 <= k < |NbDelete(n, id).1| ==> NbDelete(n, id).1[k].Rerr?
  {
    hide ErrorReports, LossReports, ErrorHeard, LinkFailure;
  }

  lemma HelloSearch(n: Node, d: Addr, now: real)
    requires Searches(n)
    ensures Searches(RecvHello(n, d, now)) && Searches(IdPurge(n, now))
  {
  }

  predicate SearchInv(s: Sys) {
    AllHopsOk(s.net) && forall i :: i in s.nodes ==> Searches(s.nodes[i])
  }

  lemma StepSearch(s: Sys, e: Event)
    requires SearchInv(s) && Enabled(s, e)
    ensures SearchInv(Step(s, e))
  {
    hide React, Asserts, Searches, HopsOk;
    if !e.Tick? { ReactSearch(s.nodes[e.at], e, s.now); }
  }

  lemma {:induction false} RunSearches(run: seq<Sys>, events: seq<Event>, k: nat)
    requires IsRun(run, events) && k < |run|
    ensures SearchInv(run[k])
  {
    hide SearchInv, Enabled;
    if k == 0 {
      NothingKnown(run[0]);
    } else {
      assert Enabled(run[k - 1], events[k - 1]);
      RunSearches(run, events, k - 1);
      StepSearch(run[k - 1], events[k - 1]);
    }
  }

  lemma NothingKnown(s: Sys)
    requires Initial(s)
    ensures SearchInv(s)
  {
  }

  // ---------- how far packets go ----------

  /** The time to live of a request or a reply. */
  function Ttl(p: Packet): int
    requires Advertises(p)
  {
    match p case Rreq(q) => q.ttl case Rrep(r) => r.ttl
  }

  predicate TtlOk(p: Packet) { Advertises(p) ==> 1 <= Ttl(p) <= NETWORK_DIAMETER }

  /** A request passed on, and a reply passed on, may go one hop less than before; an answer goes as far as any. */
  predicate HopLess(p: Packet, out: Packet) {
    match out
    case Rreq(q) => p.Rreq? && q.ttl == p.q.ttl - 1 != 0
    case Rrep(r) => if p.Rrep? then r.ttl == p.r.ttl - 1 != 0 else p.Rreq? && r.ttl == NETWORK_DIAMETER
    case _ => true
  }

  lemma PassedOnHopLess(n: Node, p: Packet, now: real)
    ensures forall k :: 0 <= k < |Recv(n, p, now).1| ==> HopLess(p, Recv(n, p, now).1[k])
  {
    hide UpdateReverse, UpdateForward, ErrorReports, Fresher, OwnReplySeqno;
    match p
    case Rreq(q) =>
    case _ =>
  }

  lemma ReactTtl(n: Node, e: Event, now: real)
    requires !e.Tick? && (e.Ask? || e.Repair? ==> e.dst in n.table) && (e.Deliver? ==> TtlOk(e.m.p))
    ensures forall k :: 0 <= k < |React(n, e, now).1| ==> TtlOk(React(n, e, now).1[k])
  {
    hide Recv, LossReports, RequestTimeout;
    if e.Deliver? { PassedOnHopLess(n, e.m.p, now); }
  }

  /** In every run each request and each reply may still go between 1 and NETWORK_DIAMETER hops, one less whenever it
      is passed on: none goes on forever. */
  lemma {:induction false} TtlInRuns(run: seq<Sys>, events: seq<Event>, k: nat)
    requires IsRun(run, events) && k < |run|
    ensures forall m :: m in run[k].net ==> TtlOk(m.p)
  {
    hide TtlOk, React, Asserts;
    if k > 0 {
      var s, e := run[k - 1], events[k - 1];
      assert Enabled(s, e) && run[k] == Step(s, e);
      TtlInRuns(run, events, k - 1);
      if !e.Tick? { ReactTtl(s.nodes[e.at], e, s.now); }
    }
  }

  // ---------- one request ----------

  /** How far the search for this entry has reached, or the destination was away. */
  function Reach(e: Entry): nat { Max(e.reqLastTtl, e.lastHopCount) }

  /** The fields of a request of the node's own for d. */
  predicate OwnRequest(n: Node, d: Addr, now: real, q: Request)
    requires d in n.table
  {
    && q.saddr == q.src == n.index && q.srcSeqno == n.seqno + 2 && q.dst == d && q.dstSeqno == n.table[d].seqno
    && q.hopCount == 1 && q.bcastId == n.bid && q.timestamp == now
  }

  /** What sendRequest does for d. */
  predicate Asking(n: Node, d: Addr, perHop: real, now: real, n': Node, out: seq<Packet>)
    requires d in n.table
  {
    var e := n.table[d];
    && (out != [] <==> !e.flags.Up? && e.reqTimeout <= now && e.reqCnt <= RREQ_RETRIES)
    && (out != [] ==>
          && |out| == 1 && out[0].Rreq? && OwnRequest(n, d, now, out[0].q) && d in n'.table
          && var ttl, t := out[0].q.ttl, n'.table[d].reqTimeout;
             && (if Reach(e) < TTL_THRESHOLD then ttl == Reach(e) + TTL_INCREMENT else ttl == NETWORK_DIAMETER)
             && ttl > TTL_INCREMENT && (e.lastHopCount == INFINITY2 ==> ttl == NETWORK_DIAMETER)
             && (perHop > 0.0 ==> now < t) && t <= now + MAX_RREQ_TIMEOUT
             && n' == n.(bid := n.bid + 1, seqno := n.seqno + 2,
                  table := n.table[d := e.(reqLastTtl := ttl, expire := 0.0, reqTimeout := t,
                    reqCnt := if ttl == NETWORK_DIAMETER then e.reqCnt + 1 else e.reqCnt)]))
    && (out == [] ==>
          n' == if e.flags.Up? || e.reqTimeout > now then n
                else n.(table := n.table[d := e.(reqTimeout := now + MAX_RREQ_TIMEOUT, reqCnt := 0)]))
  }

  lemma AskingIs(n: Node, d: Addr, perHop: real, now: real)
    requires d in n.table && SearchOk(n.table[d])
    ensures Asking(n, d, perHop, now, SendRequest(n, d, perHop, now).0, SendRequest(n, d, perHop, now).1)
  {
    hide RequestTimeout;
    var e := n.table[d];
    var ttl, wide := RequestTtl(e).0, RequestTtl(e).1;
    TimeoutIs(ttl, if wide then e.reqCnt + 1 else e.reqCnt, perHop, now);
  }

  /** The wait is as long as a request and its answer may take, and longer after searches of the whole network. */
  lemma TimeoutIs(ttl: nat, cnt: nat, perHop: real, now: real)
    requires ttl > 0
    ensures RequestTimeout(ttl, cnt, perHop, now) <= now + MAX_RREQ_TIMEOUT
    ensures perHop > 0.0 ==> now < RequestTimeout(ttl, cnt, perHop, now)
    ensures RequestTimeout(ttl, cnt, perHop, now) < now + MAX_RREQ_TIMEOUT ==>
      RequestTimeout(ttl, cnt, perHop, now) - now == 2.0 * ttl as real * perHop * Max(cnt, 1) as real
  {
    var a, b := ttl as real, Max(cnt, 1) as real;
    assert perHop > 0.0 ==> 2.0 * a * perHop > 0.0;
    Positive(2.0 * a * perHop, b);
  }

  lemma Positive(x: real, y: real)
    requires y > 0.0
    ensures x > 0.0 ==> x * y > 0.0
  {
  }

  /** In every run, a node that wants a route asks exactly when it has none, the time to wait is over and it has not
      asked the whole network more than RREQ_RETRIES times. It asks two hops further than before, or, from
      TTL_THRESHOLD on, the whole network, which is counted. A destination it never had a route to is looked for in
      the whole network at once: the first ring of TTL_START hops is never used. */
  lemma AsksWidely(run: seq<Sys>, events: seq<Event>, k: nat, i: Addr, d: Addr, perHop: real)
    requires IsRun(run, events) && k < |run| && i in run[k].nodes && d in run[k].nodes[i].table
    ensures var n, now := run[k].nodes[i], run[k].now;
      var (n', out) := SendRequest(n, d, perHop, now);
      Asking(n, d, perHop, now, n', out) && n.table[d].reqCnt <= RREQ_RETRIES + 1
  {
    hide IsRun, Asking, SendRequest, AllHopsOk;
    RunSearches(run, events, k);
    assert Searches(run[k].nodes[i]);
    AskingIs(run[k].nodes[i], d, perHop, run[k].now);
  }

  // ---------- data, repair, neighbours ----------

  /** A packet for d keeps a route that is up alive. Without one the node asks for its own packets, waits while the
      route is in repair, and answers others with a route error about d alone. */
  lemma DataResolved(n: Node, saddr: Addr, d: Addr, perHop: real, now: real, heard: set<Advert>)
    requires NodeOk(n, heard) && Searches(n)
    ensures var (n', out) := RtResolve(n, saddr, d, perHop, now);
      var n1 := n.(table := WithEntry(n.table, d));
      var e := n1.table[d];
      if e.flags.Up? then
        out == [] && e.hops.Some? && n' == n.(table := n.table[d := e.(expire := now + ACTIVE_ROUTE_TIMEOUT)])
      else if saddr == n.index then Asking(n1, d, perHop, now, n', out)
      else n' == n1 && out == (if e.flags.InRepair? then [] else [Rerr(n.index, map[d := e.seqno])])
           && (e.flags.Down? ==> Dead(e.seqno))
  {
    hide SendRequest, Asking;
    NewEntrySearch(d);
    NewEntryOk(d, heard);
    var n1 := n.(table := WithEntry(n.table, d));
    assert Fine(d, n1.table[d], heard);
    AskingIs(n1, d, perHop, now);
  }

  /** Local repair keeps the route, marks it as in repair and asks for a new one. */
  lemma RepairAsks(n: Node, d: Addr, perHop: real, now: real)
    requires Searches(n) && d in n.table
    ensures var (n', out) := LocalRepair(n, d, perHop, now);
      Asking(n.(table := n.table[d := n.table[d].(flags := InRepair)]), d, perHop, now, n', out)
  {
    AskingIs(n.(table := n.table[d := n.table[d].(flags := InRepair)]), d, perHop, now);
  }

  /** A neighbour that says hello is kept; a new one makes the node's number rise. Routes do not change. */
  lemma HelloHeard(n: Node, d: Addr, now: real)
    ensures var n' := RecvHello(n, d, now);
      && d in n'.nbs && n'.nbs == n.nbs[d := now + 4.5]
      && n' == n.(nbs := n'.nbs, seqno := n'.seqno) && n'.seqno == n.seqno + if d in n.nbs then 0 else 2
  {
  }
}
