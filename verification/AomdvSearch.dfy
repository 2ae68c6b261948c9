/** How an AOMDV node looks for routes: when it asks, how far, how often, and what it does for data and neighbours. */
module AomdvSearch {
  import opened Common
  import opened AomdvTable
  import opened AomdvProtocol
  import opened AomdvNetwork
  import opened AomdvPaths

  // ---------- in every run ----------

  /** The last hop count is never 0, and the searches are counted up to one more than the retries. */
  predicate SearchOk(e: Entry) { e.lastHopCount >= 1 && e.reqCnt <= RREQ_RETRIES + 1 }

  predicate Searches(n: Node) {
    forall d :: d in n.table ==> SearchOk(n.table[d])
  }

  lemma LastHopCountPositive(ps: seq<Path>)
    ensures LastHopCount(ps) >= 1
  {
  }

  lemma NewEntrySearch(d: Addr)
    ensures SearchOk(NewEntry(d))
  {
  }

  lemma ReverseSearch(n: Node, e: Entry, q: Request, now: real)
    requires SearchOk(e)
    ensures SearchOk(UpdateReverse(n.index, n.maxPaths, n.lenDiff, e, q, now).entry)
  {
    hide DisjointPathLookup, PathLookupLasthop, CloseEnough, LastHopCount;
    LastHopCountPositive([Path(q.saddr, q.hopCount + 1, now + REV_ROUTE_LIFE, q.firstHop)]);
    LastHopCountPositive(e.paths + [Path(q.saddr, q.hopCount + 1, now + REV_ROUTE_LIFE, q.firstHop)]);
  }

  lemma ForwardSearch(n: Node, e: Entry, r: Reply, now: real)
    requires SearchOk(e)
    ensures SearchOk(UpdateForward(n.maxPaths, n.lenDiff, e, r, now).entry)
  {
    hide DisjointPathLookup, CloseEnough, LastHopCount;
    LastHopCountPositive([Path(r.src, r.hopCount + 1, now + r.lifetime, r.firstHop)]);
    LastHopCountPositive(e.paths + [Path(r.src, r.hopCount + 1, now + r.lifetime, r.firstHop)]);
  }

  lemma ResetSearch(e: Entry)
    requires SearchOk(e)
    ensures SearchOk(ResetRequests(e))
  {
  }

  lemma RequestSearch(n: Node, q: Request, now: real)
    requires Searches(n)
    ensures Searches(RecvRequest(n, q, now).0)
  {
    hide UpdateReverse, AnswerRequest, SearchOk;
    if q.src != n.index {
      var p := if q.hopCount == 0 then q.(firstHop := n.index) else q;
      var key := (q.src, q.bcastId);
      var n0 := n.(bcache := if key in n.bcache then n.bcache else n.bcache[key := Bcast(now + BCAST_ID_SAVE, 0)]);
      NewEntrySearch(q.src);
      var e := WithEntry(n.table, q.src)[q.src];
      var u := UpdateReverse(n.index, n.maxPaths, n.lenDiff, e, p, now);
      ReverseSearch(n, e, p, now);
      ResetSearch(u.entry);
      var (n1, upd) := RecordReverse(n0, p, now);
      assert Searches(n1);
      if upd.Keep? { AnswerSearch(n1, p, now, key in n.bcache, upd.route); }
    }
  }

  lemma AnswerSearch(n: Node, q: Request, now: real, seen: bool, route: bool)
    requires Searches(n) && q.src in n.table && (q.src, q.bcastId) in n.bcache
    ensures Searches(AnswerRequest(n, q, now, seen, route).0)
  {
    hide MaxHopcount;
  }

  lemma ReplySearch(n: Node, r: Reply, now: real)
    requires Searches(n)
    ensures Searches(RecvReply(n, r, now).0)
  {
    hide UpdateForward, ForwardReply, SearchOk;
    if r.dst != n.index {
      NewEntrySearch(r.dst);
      var e := WithEntry(n.table, r.dst)[r.dst];
      var u := UpdateForward(n.maxPaths, n.lenDiff, e, r, now);
      ForwardSearch(n, e, r, now);
      ResetSearch(u.entry);
      var n1 := RecordForward(n, r, now).0;
      assert Searches(n1);
      PassingSearch(n1, r, now);
    }
  }

  lemma PassingSearch(n: Node, r: Reply, now: real)
    requires Searches(n) && r.dst in n.table
    ensures Searches(ForwardReply(n, r, now).0)
  {
    hide MaxHopcount;
  }

  lemma SendSearch(n: Node, d: Addr, now: real)
    requires Searches(n) && d in n.table
    ensures Searches(SendRequest(n, d, now).0)
  {
    hide RequestTimeout;
  }

  lemma ResolveSearch(n: Node, saddr: Addr, d: Addr, now: real)
    requires Searches(n)
    ensures Searches(RtResolve(n, saddr, d, now).0)
  {
    hide SendRequest, SearchOk;
    NewEntrySearch(d);
    var n1 := n.(table := WithEntry(n.table, d));
    SendSearch(n1, d, now);
    UseSearch(n1.table[d], saddr == n.index, now);
  }

  lemma UseSearch(e: Entry, own: bool, now: real)
    requires SearchOk(e)
    ensures SearchOk(UseRoute(e, own, now))
  {
  }

  lemma EntryLossSearch(e: Entry, id: Addr, u: nat, now: real)
    requires SearchOk(e)
    ensures SearchOk(LinkFailure(e, id).0) && SearchOk(ErrorHeard(e, id, u).0) && SearchOk(Purge(e, now))
  {
    hide PathDelete, PathLookup, Unexpired;
  }

  lemma LossSearch(n: Node, id: Addr, unreachable: map<Addr, nat>, now: real)
    requires Searches(n)
    ensures Searches(NbDelete(n, id).0) && Searches(RecvError(n, id, unreachable).0) && Searches(RtPurge(n, now))
  {
    hide LinkFailure, ErrorHeard, Purge, SearchOk, ErrorReports, LossReports;
    forall d | d in n.table
      ensures SearchOk(LinkFailure(n.table[d], id).0) && SearchOk(Purge(n.table[d], now))
      ensures d in unreachable ==> SearchOk(ErrorHeard(n.table[d], id, unreachable[d]).0)
    {
      EntryLossSearch(n.table[d], id, if d in unreachable then unreachable[d] else 0, now);
    }
  }

  lemma ReactSearch(n: Node, e: Event, now: real)
    requires Searches(n) && !e.Tick? && (e.Request? ==> e.dst in n.table)
    ensures Searches(React(n, e, now).0)
  {
    hide RecvRequest, RecvReply, RecvError, SendRequest, RtResolve, NbDelete, RtPurge, SearchOk;
    match e
    case Deliver(_, Rreq(q)) => RequestSearch(n, q.(ttl := q.ttl - 1), now);
    case Deliver(_, Rrep(r)) => ReplySearch(n, r.(ttl := r.ttl - 1), now);
    case Deliver(_, Rerr(saddr, unreachable)) => LossSearch(n, saddr, unreachable, now);
    case Deliver(_, Hello(r)) =>
      var life := if r.dst in n.nbs then 1.5 * ALLOWED_HELLO_LOSS * HELLO_INTERVAL
                  else HELLO_INTERVAL * ALLOWED_HELLO_LOSS;
      ReplySearch(n.(nbs := n.nbs[r.dst := now + life]),
        r.(ttl := r.ttl - 1, daddr := n.index, src := r.saddr, firstHop := n.index), now);
    case Resolve(_, saddr, dst) => ResolveSearch(n, saddr, dst, now);
    case Request(_, dst) => SendSearch(n, dst, now);
    case NbLoss(_, id) => LossSearch(n, id, map[], now);
    case RouteTick(_) => LossSearch(n, 0, map[], now);
    case _ =>
  }

  lemma {:induction false} RunSearches(run: seq<Sys>, k: nat, i: Addr)
    requires IsRun(run) && k < |run| && i in run[k].nodes
    ensures Searches(run[k].nodes[i])
  {
    hide Searches, React;
    if k == 0 {
      NothingKnown(run[0], i);
    } else {
      assert Next(run[k - 1], run[k]);
      var e :| Enabled(run[k - 1], e) && run[k] == Step(run[k - 1], e);
      RunSearches(run, k - 1, i);
      if !e.Tick? && e.at == i { ReactSearch(run[k - 1].nodes[i], e, run[k - 1].now); }
    }
  }

  lemma NothingKnown(s: Sys, i: Addr)
    requires Initial(s) && i in s.nodes
    ensures Searches(s.nodes[i])
  {
  }

  // ---------- how far packets go ----------

  /** The time to live of a request or a reply. */
  function Ttl(p: Packet): int
    requires p.Rreq? || p.Rrep?
  {
    match p case Rreq(q) => q.ttl case Rrep(r) => r.ttl
  }

  predicate TtlOk(p: Packet) { p.Rreq? || p.Rrep? ==> 1 <= Ttl(p) <= NETWORK_DIAMETER }

  /** A request passed on, and a reply passed on, may go one hop less than before; an answer goes as far as any. */
  predicate HopLess(p: Packet, out: Packet) {
    match out
    case Rreq(q) => p.Rreq? && q.ttl == p.q.ttl - 1 != 0
    case Rrep(r) => if p.Rrep? then r.ttl == p.r.ttl - 1 != 0 else p.Rreq? && r.ttl == NETWORK_DIAMETER
    case _ => true
  }

  lemma PassedOnHopLess(n: Node, p: Packet, now: real)
    ensures forall k :: 0 <= k < |Recv(n, p, now).1| ==> HopLess(p, Recv(n, p, now).1[k])
  {
    hide UpdateReverse, UpdateForward, ErrorReports, MaxHopcount;
    match p
    case Rreq(q) => RequestHopLess(n, q.(ttl := q.ttl - 1), now);
    case _ =>
  }

  lemma RequestHopLess(n: Node, q: Request, now: real)
    ensures var out := RecvRequest(n, q, now).1;
      forall k :: 0 <= k < |out| ==>
        if out[k].Rreq? then out[k].q.ttl == q.ttl != 0 else out[k].Rrep? && out[k].r.ttl == NETWORK_DIAMETER
  {
    hide UpdateReverse, MaxHopcount;
  }

  lemma ReactTtl(n: Node, e: Event, now: real)
    requires !e.Tick? && (e.Request? ==> e.dst in n.table) && (e.Deliver? ==> TtlOk(e.p))
    ensures forall k :: 0 <= k < |React(n, e, now).1| ==> TtlOk(React(n, e, now).1[k])
  {
    hide Recv, LossReports, RequestTimeout;
    if e.Deliver? { PassedOnHopLess(n, e.p, now); }
  }

  /** In every run each request and each reply may still go between 1 and NETWORK_DIAMETER hops, one less whenever it
      is passed on: none goes on forever. */
  lemma {:induction false} TtlInRuns(run: seq<Sys>, k: nat)
    requires IsRun(run) && k < |run|
    ensures forall p :: p in run[k].net ==> TtlOk(p)
  {
    hide TtlOk, React;
    if k > 0 {
      assert Next(run[k - 1], run[k]);
      var s := run[k - 1];
      var e :| Enabled(s, e) && run[k] == Step(s, e);
      TtlInRuns(run, k - 1);
      if !e.Tick? { ReactTtl(s.nodes[e.at], e, s.now); }
    }
  }

  // ---------- one request ----------

  /** How far the search for this entry has reached, or the destination was away. */
  function Reach(e: Entry): nat { Max(e.reqLastTtl, e.lastHopCount) }

  /** The fields of a request of the node's own for d. */
  predicate OwnRequest(n: Node, d: Addr, now: real, q: Request)
    requires d in n.table
  {
    && q.saddr == q.src == n.index && q.srcSeqno == n.seqno + 2 && q.dst == d && q.dstSeqno == n.table[d].seqno
    && q.hopCount == 0 && q.bcastId == n.bid && q.firstHop == 0 && q.timestamp == now
  }

  /** In every run, a node that wants a route asks exactly when it has none, the time to wait is over and it has not
      asked the whole network more than RREQ_RETRIES times. It asks two hops further than before, or, from
      TTL_THRESHOLD on, the whole network, which is counted. A destination it never had a path to is looked for in
      the whole network at once: the first ring of TTL_START hops is never used. */
  lemma AsksWidely(run: seq<Sys>, k: nat, i: Addr, d: Addr)
    requires IsRun(run) && k < |run| && i in run[k].nodes && d in run[k].nodes[i].table
    ensures var n, now := run[k].nodes[i], run[k].now;
      var (n', out) := SendRequest(n, d, now);
      var e := n.table[d];
      && (out != [] <==> !e.flags.Up? && e.reqTimeout <= now && e.reqCnt <= RREQ_RETRIES)
      && (out != [] ==>
            && |out| == 1 && out[0].Rreq? && OwnRequest(n, d, now, out[0].q)
            && var ttl, t := out[0].q.ttl, n'.table[d].reqTimeout;
               && (if Reach(e) < TTL_THRESHOLD then ttl == Reach(e) + TTL_INCREMENT else ttl == NETWORK_DIAMETER)
               && ttl > TTL_INCREMENT && (e.lastHopCount == INFINITY2 ==> ttl == NETWORK_DIAMETER)
               && n'.bid == n.bid + 1 && n'.seqno == n.seqno + 2 && now < t <= now + MAX_RREQ_TIMEOUT
               && n'.table == n.table[d := e.(reqLastTtl := ttl, expire := 0.0, reqTimeout := t,
                    reqCnt := if ttl == NETWORK_DIAMETER then e.reqCnt + 1 else e.reqCnt)])
      && (out == [] ==>
            n' == if e.flags.Up? || e.reqTimeout > now then n
                  else n.(table := n.table[d := e.(reqTimeout := now + MAX_RREQ_TIMEOUT, reqCnt := 0)]))
  {
    hide RequestTimeout, IsRun;
    RunSearches(run, k, i);
    var n, now := run[k].nodes[i], run[k].now;
    var e := n.table[d];
    assert SearchOk(e);
    var ttl, wide := RequestTtl(e).0, RequestTtl(e).1;
    TimeoutIs(ttl, if wide then e.reqCnt + 1 else e.reqCnt, now);
  }

  /** The wait is as long as a request and its answer may take, and longer after searches of the whole network. */
  lemma TimeoutIs(ttl: nat, cnt: nat, now: real)
    requires ttl > 0
    ensures now < RequestTimeout(ttl, cnt, now) <= now + MAX_RREQ_TIMEOUT
    ensures RequestTimeout(ttl, cnt, now) < now + MAX_RREQ_TIMEOUT ==>
      RequestTimeout(ttl, cnt, now) - now == 2.0 * ttl as real * NODE_TRAVERSAL_TIME * Max(cnt, 1) as real
  {
    var a, b := ttl as real, Max(cnt, 1) as real;
    assert a * b > 0.0;
    assert 2.0 * a * NODE_TRAVERSAL_TIME * b == 2.0 * NODE_TRAVERSAL_TIME * (a * b);
  }

  // ---------- data, neighbours, memory ----------

  /** A packet for d keeps the first path of a usable route alive and marks the route as used if it is not the node's
      own. Without one the node asks for its own packets and answers others with a route error about d alone. */
  lemma DataResolved(n: Node, saddr: Addr, d: Addr, now: real, heard: set<Advert>)
    requires NodeOk(n, heard)
    ensures var (n', out) := RtResolve(n, saddr, d, now);
      var n1 := n.(table := WithEntry(n.table, d));
      var e := n1.table[d];
      if e.flags.Up? then
        out == [] && e.paths != [] &&
        n' == n.(table := n.table[d := e.(error := e.error || saddr != n.index,
                   paths := [e.paths[0].(expire := now + ACTIVE_ROUTE_TIMEOUT)] + e.paths[1..])])
      else if saddr == n.index then (n', out) == SendRequest(n1, d, now)
      else n' == n1 && out == [Rerr(n.index, map[d := e.seqno])] && Dead(e.seqno)
  {
    hide SendRequest;
    var n1 := n.(table := WithEntry(n.table, d));
    var e := n1.table[d];
    WithEntryOk(n, d, heard);
    if e.flags.Up? {
      assert e.paths[0 := e.paths[0].(expire := now + ACTIVE_ROUTE_TIMEOUT)] ==
        [e.paths[0].(expire := now + ACTIVE_ROUTE_TIMEOUT)] + e.paths[1..];
    }
  }

  /** A node says hello exactly when it has a route up; whoever hears it keeps it as a neighbour, longer if it was one
      already, and learns the route to it as from a reply of one hop. */
  lemma HelloHeard(n: Node, m: Node, now: real, heard: set<Advert>) returns (learnt: Entry)
    requires NodeOk(m, heard) && n.index != m.index && (exists d :: d in n.table && n.table[d].flags.Up?)
    ensures |HelloTimer(n)| == 1 && HelloTimer(n)[0].Hello?
    ensures var r := HelloTimer(n)[0].r;
      var (m', out) := RecvHello(m, r, now);
      var e := WithEntry(m.table, n.index)[n.index];
      && out == [] && n.index in m'.nbs && m'.nbs == m.nbs[n.index := m'.nbs[n.index]]
      && m'.nbs[n.index] == now + (if n.index in m.nbs then 4.5 else 3.0)
      && Learnt(e, learnt, n.seqno, Path(n.index, 1, now + 4.0, m.index), m.maxPaths, m.lenDiff)
      && n.index in m'.table && m'.table == m.table[n.index := m'.table[n.index]]
      && m'.table[n.index].paths == learnt.paths && m'.table[n.index].seqno == learnt.seqno
  {
    hide UpdateForward, Learnt, Fine, NodeOk;
    var r := HelloTimer(n)[0].r;
    var m1 := m.(nbs := m.nbs[r.dst := now + if r.dst in m.nbs then 4.5 else 3.0]);
    var r1 := r.(daddr := m.index, src := r.saddr, firstHop := m.index);
    WithEntryOk(m, n.index, heard);
    var e := WithEntry(m.table, n.index)[n.index];
    assert Distinct(e.paths) by { EntryDistinct(m.index, m.maxPaths, n.index, e, heard); }
    ForwardLearns(m.maxPaths, m.lenDiff, e, r1, now);
    learnt := UpdateForward(m.maxPaths, m.lenDiff, e, r1, now).entry;
    assert RecvHello(m, r, now) == RecvReply(m1, r1, now);
  }

  lemma EntryDistinct(index: Addr, maxPaths: int, d: Addr, e: Entry, heard: set<Advert>)
    requires Fine(index, maxPaths, d, e, heard)
    ensures Distinct(e.paths)
  {
  }

  lemma SilentWithoutRoute(n: Node)
    ensures HelloTimer(n) == [] <==> forall d :: d in n.table ==> !n.table[d].flags.Up?
  {
  }

  /** A request is forgotten exactly when its time is over. */
  lemma IdsForgotten(n: Node, now: real, key: (Addr, nat))
    ensures var n' := IdPurge(n, now);
      && n' == n.(bcache := n'.bcache)
      && (key in n'.bcache <==> key in n.bcache && n.bcache[key].expire > now)
      && (key in n'.bcache ==> n'.bcache[key] == n.bcache[key])
  {
  }
}
