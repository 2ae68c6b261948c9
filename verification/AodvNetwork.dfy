/** AODV over a network of any number of nodes. Every packet ever sent stays available, so
    packets may be lost, repeated and reordered; a reply reaches only the node it is addressed to. */
module AodvNetwork {
  import opened Common
  import opened AodvProtocol

  // `asked` is a label the nodes never see: a request, and every reply it causes, carries the
  // sequence number of the requester's own entry at the time it asked.
  datatype Sent = Sent(p: Packet, asked: nat)

  datatype Sys = Sys(nodes: map<Addr, Node>, net: set<Sent>, now: real)

  datatype Event =
    | Tick(until: real)
    | Deliver(at: Addr, m: Sent)
    | Resolve(at: Addr, saddr: Addr, dst: Addr, perHop: real)
    | Ask(at: Addr, dst: Addr, perHop: real)
    | SayHello(at: Addr)
    | NbLoss(at: Addr, id: Addr)
    | RouteTick(at: Addr)
    | BcastTick(at: Addr)
    | Repair(at: Addr, dst: Addr, perHop: real, forwards: nat)  // a packet that was passed on so often is stuck here
    | RepairTick(at: Addr, dst: Addr)

  /** What the code asserts when node n handles event e; the program stops when this fails. */
  predicate Asserts(n: Node, e: Event) {
    match e
    case Deliver(_, Sent(Rerr(saddr, unreachable), _)) =>
      forall d :: d in n.table && d in unreachable ==>
        (n.table[d].hops.Some? && n.table[d].nexthop == saddr && n.table[d].seqno <= unreachable[d] ==>
           n.table[d].flags.Up? && n.table[d].seqno % 2 == 0)
    case Deliver(_, Sent(Rrep(r), _)) =>
      r.daddr != n.index && r.daddr in n.table && r.daddr != r.dst ==>
        (n.table[r.daddr].hops.Some? && Fresher(r.dstSeqno, r.hopCount, WithEntry(n.table, r.dst)[r.dst]) ==>
           n.table[r.daddr].flags.Up?)
    case Deliver(_, Sent(Hello(_, _), _)) => (n.seqno + 2) % 2 == 0
    case NbLoss(_, id) =>
      && (n.seqno + 2) % 2 == 0
      && forall d :: d in n.table && n.table[d].hops.Some? && n.table[d].nexthop == id ==>
           n.table[d].flags.Up? && n.table[d].seqno % 2 == 0
    case Resolve(_, saddr, d, _) =>
      var rt := WithEntry(n.table, d)[d];
      (rt.flags.Up? ==> rt.hops.Some?) && (saddr == n.index ==> n.seqno % 2 == 0)
    case Ask(_, dst, _) => n.seqno % 2 == 0 && (dst in n.table && n.table[dst].flags.Up? ==> n.table[dst].hops.Some?)
    case Repair(_, _, _, _) => n.seqno % 2 == 0
    case RouteTick(_) =>
      forall d :: d in n.table && n.table[d].flags.Up? ==>
        n.table[d].hops.Some? && (n.table[d].seqno + 1) % 2 == 1
    case _ => true
  }

  /** The events that may come next. */
  predicate Possible(s: Sys, e: Event) {
    match e
    case Tick(until) => until >= s.now
    case Deliver(at, m) => at in s.nodes && m in s.net && (m.p.Rrep? ==> m.p.r.nextHop == at)
    case Ask(at, dst, _) => at in s.nodes && dst in s.nodes[at].table
    case Repair(at, dst, _, forwards) =>
      at in s.nodes && dst in s.nodes[at].table && s.nodes[at].table[dst].hops.Some?
      && forwards > s.nodes[at].table[dst].hops.value
    case _ => e.at in s.nodes
  }

  predicate Enabled(s: Sys, e: Event) {
    Possible(s, e) && (!e.Tick? ==> Asserts(s.nodes[e.at], e))
  }

  function React(n: Node, e: Event, now: real): (Node, seq<Packet>)
    requires !e.Tick?
    requires e.Ask? || e.Repair? ==> e.dst in n.table
  {
    match e
    case Deliver(_, m) => Recv(n, m.p, now)
    case Resolve(_, saddr, dst, perHop) => RtResolve(n, saddr, dst, perHop, now)
    case Ask(_, dst, perHop) => SendRequest(n, dst, perHop, now)
    case SayHello(_) => (n, [Hello(n.index, n.seqno)])
    case NbLoss(_, id) => NbDelete(n, id)
    case RouteTick(_) => (RtPurge(n, now), [])
    case BcastTick(_) => (IdPurge(n, now), [])
    case Repair(_, dst, perHop, _) => LocalRepair(n, dst, perHop, now)
    case RepairTick(_, dst) => (RepairTimeout(n, dst), [])
  }

  function Label(e: Event, p: Packet): Sent {
    Sent(p, if e.Deliver? then e.m.asked else if p.Rreq? then p.q.dstSeqno else 0)
  }

  function Step(s: Sys, e: Event): Sys
    requires Enabled(s, e)
  {
    if e.Tick? then s.(now := e.until)
    else
      var (n, out) := React(s.nodes[e.at], e, s.now);
      s.(nodes := s.nodes[e.at := n], net := s.net + (set p | p in out :: Label(e, p)))
  }

  predicate Initial(s: Sys) {
    s.net == {} && forall i :: i in s.nodes ==> s.nodes[i] == NewNode(i)
  }

  /** A run: states and the enabled events between them. */
  predicate IsRun(run: seq<Sys>, events: seq<Event>) {
    && |run| == |events| + 1
    && Initial(run[0])
    && forall k :: 0 <= k < |events| ==> Enabled(run[k], events[k]) && run[k + 1] == Step(run[k], events[k])
  }

  /** The repair timer never fires on a route that is still being repaired. */
  predicate RepairsInTime(run: seq<Sys>, events: seq<Event>)
    requires IsRun(run, events)
  {
    forall k :: 0 <= k < |events| && events[k].RepairTick? && events[k].dst in run[k].nodes[events[k].at].table ==>
      !run[k].nodes[events[k].at].table[events[k].dst].flags.InRepair?
  }

  // ---------- advertisements ----------

  // Node `who` tells the world: whoever goes through me is `hops` hops from `dst`, as of `seqno`.
  datatype Advert = Advert(who: Addr, dst: Addr, seqno: nat, hops: nat)

  predicate Advertises(p: Packet) { p.Rreq? || p.Rrep? }

  function AdvertOf(p: Packet): Advert
    requires Advertises(p)
  {
    match p
    case Rreq(q) => Advert(q.saddr, q.src, q.srcSeqno, q.hopCount)
    case Rrep(r) => Advert(r.src, r.dst, r.dstSeqno, r.hopCount)
  }

  function Adverts(net: set<Sent>): set<Advert> {
    set m | m in net && Advertises(m.p) :: AdvertOf(m.p)
  }

  // ---------- the invariant ----------

  predicate Live(q: nat) { q >= 2 && q % 2 == 0 }

  predicate Dead(q: nat) { q == 0 || q % 2 == 1 }

  /** An entry: usable ones are even and were heard from their next hop, the others are odd or 0. */
  predicate Fine(d: Addr, e: Entry, heard: set<Advert>) {
    && e.dst == d
    && (e.hops.Some? <==> !e.flags.Down?)
    && (if e.flags.Down? then Dead(e.seqno)
        else Live(e.seqno) && Advert(e.nexthop, d, e.seqno, e.hops.value) in heard)
  }

  /** Node n can back advertisement a of its own: it has something newer, or a route short enough. */
  predicate Backs(n: Node, a: Advert) {
    if a.dst == n.index then true
    else
      && a.dst in n.table
      && (|| n.table[a.dst].seqno > a.seqno
          || (n.table[a.dst].seqno == a.seqno && n.table[a.dst].hops.Some? && n.table[a.dst].hops.value < a.hops))
  }

  /** Somebody has spoken of sequence number q of destination d. */
  predicate Known(heard: set<Advert>, d: Addr, q: nat) {
    exists a :: a in heard && a.dst == d && a.seqno == q
  }

  predicate NodeOk(n: Node, heard: set<Advert>) {
    Live(n.seqno) && forall d :: d in n.table ==> Fine(d, n.table[d], heard)
  }

  predicate PacketOk(p: Packet) {
    match p
    case Rerr(_, unreachable) => forall d :: d in unreachable ==> Dead(unreachable[d])
    case Rreq(q) => Live(q.srcSeqno)
    case Rrep(r) => Live(r.dstSeqno)
    case Hello(_, _) => true
  }

  /** The label on a request never exceeds what it asks for, and a reply beats a dead label. */
  predicate Useful(m: Sent) {
    && (m.p.Rreq? ==> m.asked <= m.p.q.dstSeqno)
    && (m.p.Rrep? && Dead(m.asked) ==> m.asked < m.p.r.dstSeqno)
  }

  predicate Inv(s: Sys) {
    var heard := Adverts(s.net);
    && (forall i :: i in s.nodes ==> s.nodes[i].index == i && NodeOk(s.nodes[i], heard))
    && (forall m :: m in s.net ==> PacketOk(m.p) && Useful(m))
    && (forall a :: a in heard ==> a.who in s.nodes && Backs(s.nodes[a.who], a))
    && (forall a :: a in heard && a.dst in s.nodes ==> a.seqno <= s.nodes[a.dst].seqno)
  }

  // ---------- one node's step ----------

  /** Freshness: a newer sequence number, or the same one and no more hops. */
  predicate Advances(e: Entry, e': Entry) {
    || e.seqno < e'.seqno
    || (e.seqno == e'.seqno && (e.hops.None? || (e'.hops.Some? && e'.hops.value <= e.hops.value)))
  }

  predicate NodeAdvances(n: Node, n': Node) {
    && n'.index == n.index && n.seqno <= n'.seqno
    && forall d :: d in n.table ==> d in n'.table && Advances(n.table[d], n'.table[d])
  }

  /** What a node puts on the air: well formed, backed, and only its own sequence number is news. */
  predicate Speaks(n: Node, out: seq<Packet>, heard: set<Advert>) {
    forall k :: 0 <= k < |out| ==>
      && PacketOk(out[k])
      && (Advertises(out[k]) ==>
            var a := AdvertOf(out[k]);
            && a.who == n.index && Backs(n, a)
            && ((a.dst == n.index && a.seqno <= n.seqno) || Known(heard, a.dst, a.seqno)))
  }

  /** Requests keep asking for at least `asked`, replies beat it when it is dead. */
  predicate Answers(out: seq<Packet>, asked: nat) {
    forall k :: 0 <= k < |out| ==> Useful(Sent(out[k], asked))
  }

  predicate GoodStep(n: Node, n': Node, out: seq<Packet>, heard: set<Advert>) {
    NodeOk(n', heard) && NodeAdvances(n, n') && Speaks(n', out, heard)
  }

  lemma PutOk(n: Node, n': Node, d: Addr, e: Entry, heard: set<Advert>)
    requires NodeOk(n, heard) && Fine(d, e, heard)
    requires d in n.table ==> Advances(n.table[d], e)
    requires n'.index == n.index && n'.table == n.table[d := e] && n'.seqno >= n.seqno && Live(n'.seqno)
    ensures NodeOk(n', heard) && NodeAdvances(n, n')
  {
  }

  lemma SameRouteOk(d: Addr, e: Entry, e': Entry, heard: set<Advert>)
    requires Fine(d, e, heard)
    requires e'.dst == e.dst && e'.seqno == e.seqno && e'.hops == e.hops && e'.nexthop == e.nexthop
      && e'.flags == e.flags
    ensures Fine(d, e', heard) && Advances(e, e')
  {
  }

  lemma UpdateReverseOk(e: Entry, q: Request, now: real, heard: set<Advert>)
    requires Fine(q.src, e, heard) && Live(q.srcSeqno) && AdvertOf(Rreq(q)) in heard
    ensures var e' := UpdateReverse(e, q, now);
      && Fine(q.src, e', heard) && Advances(e, e')
      && (e'.seqno > q.srcSeqno || (e'.seqno == q.srcSeqno && e'.hops.Some? && e'.hops.value <= q.hopCount))
  {
  }

  lemma AnswerRequestOk(n: Node, q: Request, now: real, asked: nat, heard: set<Advert>)
    requires NodeOk(n, heard) && q.src in n.table && q.src != n.index && AdvertOf(Rreq(q)) in heard && Live(q.srcSeqno)
    requires asked <= q.dstSeqno
    requires var e := n.table[q.src];
      e.seqno > q.srcSeqno || (e.seqno == q.srcSeqno && e.hops.Some? && e.hops.value <= q.hopCount)
    ensures var (n', out) := AnswerRequest(n, q, now); GoodStep(n, n', out, heard) && Answers(out, asked)
  {
    hide ReplyFromRoute;
    if q.dst == n.index {
    } else if q.dst in n.table && n.table[q.dst].hops.Some? && n.table[q.dst].seqno >= q.dstSeqno {
      ReplyFromRouteOk(n, q, now, asked, heard);
    } else {
      assert Known(heard, q.src, q.srcSeqno);
    }
  }

  lemma ReplyFromRouteOk(n: Node, q: Request, now: real, asked: nat, heard: set<Advert>)
    requires NodeOk(n, heard) && q.src in n.table && q.dst in n.table && q.dst != n.index
    requires n.table[q.dst].hops.Some? && asked <= q.dstSeqno <= n.table[q.dst].seqno
    ensures var (n', out) := ReplyFromRoute(n, q, now); GoodStep(n, n', out, heard) && Answers(out, asked)
  {
    var rt := n.table[q.dst];
    assert Fine(q.dst, rt, heard);
    assert Known(heard, q.dst, rt.seqno);
    var e1 := rt.(precursors := PcInsert(rt.precursors, n.table[q.src].nexthop));
    SameRouteOk(q.dst, rt, e1, heard);
    var n1 := n.(table := n.table[q.dst := e1]);
    PutOk(n, n1, q.dst, e1, heard);
    var e2 := n1.table[q.src].(precursors := PcInsert(n1.table[q.src].precursors, n1.table[q.dst].nexthop));
    SameRouteOk(q.src, n1.table[q.src], e2, heard);
    PutOk(n1, n1.(table := n1.table[q.src := e2]), q.src, e2, heard);
  }

  lemma RecvRequestOk(n: Node, q: Request, now: real, asked: nat, heard: set<Advert>)
    requires NodeOk(n, heard) && PacketOk(Rreq(q)) && AdvertOf(Rreq(q)) in heard && asked <= q.dstSeqno
    ensures var (n', out) := RecvRequest(n, q, now); GoodStep(n, n', out, heard) && Answers(out, asked)
  {
    hide UpdateReverse, AnswerRequest, Fine;
    if q.src != n.index && (q.src, q.bcastId) !in n.bcache {
      NewEntryOk(q.src, heard);
      var t := WithEntry(n.table, q.src);
      UpdateReverseOk(t[q.src], q, now, heard);
      var e := UpdateReverse(t[q.src], q, now);
      var n1 := n.(bcache := n.bcache[(q.src, q.bcastId) := now + BCAST_ID_SAVE], table := t[q.src := e]);
      PutOk(n, n1, q.src, e, heard);
      AnswerRequestOk(n1, q, now, asked, heard);
    }
  }

  lemma NewEntryOk(d: Addr, heard: set<Advert>)
    ensures Fine(d, NewEntry(d), heard)
  {
  }

  lemma UpdateForwardOk(e: Entry, r: Reply, now: real, heard: set<Advert>)
    requires Fine(r.dst, e, heard) && Live(r.dstSeqno) && AdvertOf(Rrep(r)) in heard
    ensures var e' := UpdateForward(e, r, now);
      && Fine(r.dst, e', heard) && Advances(e, e')
      && (Fresher(r.dstSeqno, r.hopCount, e) ==> e'.seqno == r.dstSeqno && e'.hops == Some(r.hopCount))
  {
  }

  lemma ForwardReplyOk(n: Node, r: Reply, now: real, asked: nat, heard: set<Advert>)
    requires NodeOk(n, heard) && r.dst in n.table && AdvertOf(Rrep(r)) in heard && Live(r.dstSeqno)
    requires n.table[r.dst].seqno == r.dstSeqno && n.table[r.dst].hops == Some(r.hopCount)
    requires Dead(asked) ==> asked < r.dstSeqno
    ensures var (n', out) := ForwardReply(n, r, now); GoodStep(n, n', out, heard) && Answers(out, asked)
  {
    hide Fine;
    if r.daddr in n.table && n.table[r.daddr].hops.Some? {
      assert Known(heard, r.dst, r.dstSeqno);
      var rt0 := n.table[r.daddr];
      var used := if r.ttl == 0 then rt0 else rt0.(expire := now + ACTIVE_ROUTE_TIMEOUT);
      SameRouteOk(r.daddr, rt0, used, heard);
      var n1 := n.(table := n.table[r.daddr := used]);
      PutOk(n, n1, r.daddr, used, heard);
      var e := n1.table[r.dst].(precursors := PcInsert(n1.table[r.dst].precursors, rt0.nexthop));
      SameRouteOk(r.dst, n1.table[r.dst], e, heard);
      PutOk(n1, n1.(table := n1.table[r.dst := e]), r.dst, e, heard);
    }
  }

  lemma RecvReplyOk(n: Node, r: Reply, now: real, asked: nat, heard: set<Advert>)
    requires NodeOk(n, heard) && PacketOk(Rrep(r)) && AdvertOf(Rrep(r)) in heard
    requires Dead(asked) ==> asked < r.dstSeqno
    ensures var (n', out) := RecvReply(n, r, now); GoodStep(n, n', out, heard) && Answers(out, asked)
  {
    hide Fine, UpdateForward, ForwardReply;
    NewEntryOk(r.dst, heard);
    var t := WithEntry(n.table, r.dst);
    UpdateForwardOk(t[r.dst], r, now, heard);
    var e := UpdateForward(t[r.dst], r, now);
    var n1 := n.(table := t[r.dst := e]);
    PutOk(n, n1, r.dst, e, heard);
    if Fresher(r.dstSeqno, r.hopCount, t[r.dst]) { ForwardReplyOk(n1, r, now, asked, heard); }
  }

  lemma ErrorHeardOk(d: Addr, e: Entry, via: Addr, u: nat, heard: set<Advert>)
    requires Fine(d, e, heard) && Dead(u)
    ensures var (e', rep) := ErrorHeard(e, via, u);
      Fine(d, e', heard) && Advances(e, e') && (rep.Some? ==> Dead(rep.value))
      && (e' != e ==> e.seqno < e'.seqno)
  {
  }

  lemma LinkFailureOk(d: Addr, e: Entry, id: Addr, heard: set<Advert>)
    requires Fine(d, e, heard)
    ensures var (e', rep) := LinkFailure(e, id);
      Fine(d, e', heard) && Advances(e, e') && (rep.Some? ==> Dead(rep.value))
  {
  }

  lemma RecvErrorOk(n: Node, saddr: Addr, unreachable: map<Addr, nat>, heard: set<Advert>)
    requires NodeOk(n, heard) && PacketOk(Rerr(saddr, unreachable))
    ensures var (n', out) := RecvError(n, saddr, unreachable);
      GoodStep(n, n', out, heard) && forall k :: 0 <= k < |out| ==> out[k].Rerr?
  {
    hide Fine, ErrorHeard;
    forall d | d in n.table && d in unreachable
      ensures var (e', rep) := ErrorHeard(n.table[d], saddr, unreachable[d]);
        Fine(d, e', heard) && Advances(n.table[d], e') && (rep.Some? ==> Dead(rep.value))
    {
      ErrorHeardOk(d, n.table[d], saddr, unreachable[d], heard);
    }
  }

  lemma NbDeleteOk(n: Node, id: Addr, heard: set<Advert>)
    requires NodeOk(n, heard)
    ensures var (n', out) := NbDelete(n, id); GoodStep(n, n', out, heard) && forall k :: 0 <= k < |out| ==> out[k].Rerr?
  {
    hide Fine, LinkFailure;
    forall d | d in n.table
      ensures var (e', rep) := LinkFailure(n.table[d], id);
        Fine(d, e', heard) && Advances(n.table[d], e') && (rep.Some? ==> Dead(rep.value))
    {
      LinkFailureOk(d, n.table[d], id, heard);
    }
  }

  lemma RtPurgeOk(n: Node, now: real, heard: set<Advert>)
    requires NodeOk(n, heard)
    ensures GoodStep(n, RtPurge(n, now), [], heard)
  {
    forall d | d in n.table
      ensures Fine(d, Purge(n.table[d], now), heard) && Advances(n.table[d], Purge(n.table[d], now))
    {
      assert Fine(d, n.table[d], heard);
    }
  }

  lemma SendRequestOk(n: Node, d: Addr, perHop: real, now: real, heard: set<Advert>)
    requires NodeOk(n, heard) && d in n.table
    ensures var (n', out) := SendRequest(n, d, perHop, now);
      GoodStep(n, n', out, heard) && forall k :: 0 <= k < |out| ==> out[k].Rreq?
  {
    hide Fine, RequestTimeout;
    var n' := SendRequest(n, d, perHop, now).0;
    SameRouteOk(d, n.table[d], n'.table[d], heard);
    PutOk(n, n', d, n'.table[d], heard);
  }

  lemma RtResolveOk(n: Node, saddr: Addr, d: Addr, perHop: real, now: real, heard: set<Advert>)
    requires NodeOk(n, heard)
    ensures var (n', out) := RtResolve(n, saddr, d, perHop, now);
      GoodStep(n, n', out, heard) && forall k :: 0 <= k < |out| ==> !out[k].Rrep?
  {
    hide SendRequest;
    NewEntryOk(d, heard);
    var n1 := n.(table := WithEntry(n.table, d));
    var e := n1.table[d];
    PutOk(n, n1, d, e, heard);
    SendRequestOk(n1, d, perHop, now, heard);
    var e' := e.(expire := now + ACTIVE_ROUTE_TIMEOUT);
    SameRouteOk(d, e, e', heard);
    PutOk(n1, n1.(table := n1.table[d := e']), d, e', heard);
    assert e.flags.Down? ==> Dead(e.seqno);
  }

  lemma LocalRepairOk(n: Node, d: Addr, perHop: real, now: real, heard: set<Advert>)
    requires NodeOk(n, heard) && d in n.table && n.table[d].hops.Some?
    ensures var (n', out) := LocalRepair(n, d, perHop, now);
      GoodStep(n, n', out, heard) && forall k :: 0 <= k < |out| ==> out[k].Rreq?
  {
    hide SendRequest;
    var e := n.table[d].(flags := InRepair);
    assert Fine(d, n.table[d], heard);
    var n1 := n.(table := n.table[d := e]);
    PutOk(n, n1, d, e, heard);
    SendRequestOk(n1, d, perHop, now, heard);
  }

  /** The repair timer keeps the freshness of a fine entry exactly when it does not find it in repair. */
  lemma RepairTimeoutAdvances(n: Node, d: Addr, heard: set<Advert>)
    requires NodeOk(n, heard) && d in n.table
    ensures Advances(n.table[d], RepairTimeout(n, d).table[d]) <==> !n.table[d].flags.InRepair?
  {
    assert Fine(d, n.table[d], heard);
  }

  /** The side condition under which one step keeps everything. */
  predicate InTime(n: Node, e: Event) {
    e.RepairTick? && e.dst in n.table ==> !n.table[e.dst].flags.InRepair?
  }

  lemma ReactOk(n: Node, e: Event, now: real, heard: set<Advert>)
    requires NodeOk(n, heard) && !e.Tick? && InTime(n, e)
    requires e.Ask? || e.Repair? ==> e.dst in n.table
    requires e.Repair? ==> n.table[e.dst].hops.Some?
    requires e.Deliver? ==> PacketOk(e.m.p) && Useful(e.m) && (Advertises(e.m.p) ==> AdvertOf(e.m.p) in heard)
    ensures var (n', out) := React(n, e, now);
      GoodStep(n, n', out, heard) && forall k :: 0 <= k < |out| ==> Useful(Label(e, out[k]))
  {
    hide Fine, RecvReply, RecvRequest, RecvError, SendRequest, RtResolve, NbDelete, RtPurge, LocalRepair;
    match e
    case Deliver(_, Sent(Rreq(q), asked)) => RecvRequestOk(n, q.(ttl := q.ttl - 1), now, asked, heard);
    case Deliver(_, Sent(Rrep(r), asked)) => RecvReplyOk(n, r.(ttl := r.ttl - 1), now, asked, heard);
    case Deliver(_, Sent(Rerr(saddr, unreachable), _)) => RecvErrorOk(n, saddr, unreachable, heard);
    case Deliver(_, Sent(Hello(_, _), _)) =>
    case Resolve(_, saddr, dst, perHop) => RtResolveOk(n, saddr, dst, perHop, now, heard);
    case Ask(_, dst, perHop) => SendRequestOk(n, dst, perHop, now, heard);
    case SayHello(_) =>
    case NbLoss(_, id) => NbDeleteOk(n, id, heard);
    case RouteTick(_) => RtPurgeOk(n, now, heard);
    case BcastTick(_) =>
    case Repair(_, dst, perHop, _) => LocalRepairOk(n, dst, perHop, now, heard);
    case RepairTick(_, dst) =>
      if dst in n.table { assert Fine(dst, n.table[dst], heard); }
      assert RepairTimeout(n, dst).table == n.table;
  }

  // ---------- the whole network ----------

  lemma BacksStable(n: Node, n': Node, a: Advert)
    requires NodeAdvances(n, n') && Backs(n, a)
    ensures Backs(n', a)
  {
  }

  lemma MoreHeard(n: Node, heard: set<Advert>, more: set<Advert>)
    requires NodeOk(n, heard) && heard <= more
    ensures NodeOk(n, more)
  {
  }

  lemma StepOk(s: Sys, e: Event)
    requires Inv(s) && Enabled(s, e) && (!e.Tick? ==> InTime(s.nodes[e.at], e))
    ensures Inv(Step(s, e))
  {
    hide NodeOk, Backs, PacketOk, React, Advances, Useful, Asserts, InTime;
    if !e.Tick? {
      var heard := Adverts(s.net);
      var n := s.nodes[e.at];
      assert e.Deliver? && Advertises(e.m.p) ==> AdvertOf(e.m.p) in heard;
      ReactOk(n, e, s.now, heard);
      var (n', out) := React(n, e, s.now);
      var s' := Step(s, e);
      var heard' := Adverts(s'.net);
      assert heard <= heard';
      forall i | i in s'.nodes ensures s'.nodes[i].index == i && NodeOk(s'.nodes[i], heard') {
        MoreHeard(s'.nodes[i], heard, heard');
      }
      forall a | a in heard ensures a.who in s'.nodes && Backs(s'.nodes[a.who], a) {
        if a.who == e.at { BacksStable(n, n', a); }
      }
      forall a | a in heard' && a !in heard
        ensures a.who == e.at && Backs(n', a)
        ensures (a.dst == n'.index && a.seqno <= n'.seqno) || Known(heard, a.dst, a.seqno)
      {
        var m :| m in s'.net && Advertises(m.p) && AdvertOf(m.p) == a;
      }
    }
  }

  lemma {:induction false} RunOk(run: seq<Sys>, events: seq<Event>, k: nat)
    requires IsRun(run, events) && RepairsInTime(run, events) && k < |run|
    ensures Inv(run[k])
  {
    hide Inv, Enabled;
    if k == 0 {
      InitialOk(run[0]);
    } else {
      RunOk(run, events, k - 1);
      assert Enabled(run[k - 1], events[k - 1]);
      StepOk(run[k - 1], events[k - 1]);
    }
  }

  lemma InitialOk(s: Sys)
    requires Initial(s)
    ensures Inv(s)
  {
    assert Adverts(s.net) == {};
  }

  // ---------- loop freedom ----------

  /** Node i sends what is for d to node j. */
  predicate Edge(s: Sys, d: Addr, i: Addr, j: Addr) {
    i in s.nodes && d in s.nodes[i].table && s.nodes[i].table[d].hops.Some? && s.nodes[i].table[d].nexthop == j
  }

  /** The way of a packet towards d, which ends at the latest when it reaches d. */
  predicate Walk(s: Sys, d: Addr, w: seq<Addr>) {
    && |w| > 0
    && (forall k :: 0 <= k < |w| - 1 ==> Edge(s, d, w[k], w[k + 1]))
    && (forall k :: 0 <= k < |w| - 1 ==> w[k] != d)
  }

  /** The lexicographic measure: j is closer to d than i. */
  predicate Below(s: Sys, d: Addr, j: Addr, i: Addr)
    requires i in s.nodes && j in s.nodes && d in s.nodes[i].table && d in s.nodes[j].table
  {
    var e, f := s.nodes[i].table[d], s.nodes[j].table[d];
    || f.seqno > e.seqno
    || (f.seqno == e.seqno && f.hops.Some? && (e.hops.Some? ==> f.hops.value < e.hops.value))
  }

  lemma EdgeDescends(s: Sys, d: Addr, i: Addr, j: Addr)
    requires Inv(s) && Edge(s, d, i, j) && j != d
    ensures j in s.nodes && d in s.nodes[j].table && Below(s, d, j, i)
  {
    var e := s.nodes[i].table[d];
    assert Fine(d, e, Adverts(s.net));
    assert Backs(s.nodes[j], Advert(j, d, e.seqno, e.hops.value));
  }

  lemma {:induction false} WalkDescends(s: Sys, d: Addr, w: seq<Addr>)
    requires Inv(s) && Walk(s, d, w) && |w| >= 2 && w[|w| - 1] != d
    ensures w[0] in s.nodes && d in s.nodes[w[0]].table
    ensures w[|w| - 1] in s.nodes && d in s.nodes[w[|w| - 1]].table
    ensures Below(s, d, w[|w| - 1], w[0])
  {
    hide Inv;
    var m := |w| - 1;
    assert Edge(s, d, w[m - 1], w[m]);
    EdgeDescends(s, d, w[m - 1], w[m]);
    if m >= 2 {
      assert w[..m][m - 1] == w[m - 1];
      WalkDescends(s, d, w[..m]);
    }
  }

  /** Loop freedom in every reachable state: a packet for d meets no node twice. */
  lemma LoopFreedom(run: seq<Sys>, events: seq<Event>, k: nat, d: Addr, w: seq<Addr>)
    requires IsRun(run, events) && RepairsInTime(run, events) && k < |run| && Walk(run[k], d, w)
    ensures forall a, b :: 0 <= a < b < |w| ==> w[a] != w[b]
  {
    hide Inv, IsRun, RepairsInTime;
    RunOk(run, events, k);
    var s := run[k];
    forall a, b | 0 <= a < b < |w| ensures w[a] != w[b] {
      if w[b] != d {
        var v := w[a..b + 1];
        forall x | 0 <= x < |v| - 1 ensures Edge(s, d, v[x], v[x + 1]) && v[x] != d {
          assert Edge(s, d, w[a + x], w[a + x + 1]);
        }
        WalkDescends(s, d, v);
      }
    }
  }

  // ---------- routes of a node to itself ----------

  predicate SelfRoute(n: Node) {
    n.index in n.table && n.table[n.index].hops.Some?
  }

  /** A reply gives its receiver a route to itself exactly when it is about it and fresher than what is there. */
  lemma SelfRouteIff(n: Node, r: Reply, now: real)
    requires !SelfRoute(n)
    ensures SelfRoute(RecvReply(n, r, now).0) <==>
      r.dst == n.index && Fresher(r.dstSeqno, r.hopCount, WithEntry(n.table, r.dst)[r.dst])
  {
  }

  /** No other event does. */
  lemma SelfRouteOnlyByReply(n: Node, e: Event, now: real)
    requires !e.Tick? && !(e.Deliver? && e.m.p.Rrep?) && !SelfRoute(n)
    requires e.Ask? || e.Repair? ==> e.dst in n.table
    requires e.Repair? ==> n.table[e.dst].hops.Some?
    ensures !SelfRoute(React(n, e, now).0)
  {
    match e
    case Deliver(_, Sent(Rreq(q), _)) =>
    case Repair(_, dst, _, _) => assert dst != n.index;
    case _ =>
  }

  /** A node is handed a reply about itself that is fresher than what it has. */
  predicate TellsItself(s: Sys, e: Event)
    requires Enabled(s, e)
  {
    e.Deliver? && e.m.p.Rrep? &&
    var n, r := s.nodes[e.at], e.m.p.r;
    r.dst == n.index && Fresher(r.dstSeqno, r.hopCount, WithEntry(n.table, r.dst)[r.dst])
  }

  predicate NoSelfRoute(s: Sys) {
    forall i :: i in s.nodes ==> !SelfRoute(s.nodes[i])
  }

  lemma SelfRouteStep(s: Sys, e: Event)
    requires Enabled(s, e) && NoSelfRoute(s)
    ensures NoSelfRoute(Step(s, e)) <==> !TellsItself(s, e)
  {
    hide SelfRoute, Fresher, Recv, RecvReply, Asserts;
    if !e.Tick? {
      var n := s.nodes[e.at];
      var n' := React(n, e, s.now).0;
      OneNodeSteps(s, e);
      if e.Deliver? && e.m.p.Rrep? {
        var r := e.m.p.r;
        SelfRouteIff(n, r.(ttl := r.ttl - 1), s.now);
        RecvIs(n, r, s.now);
      } else {
        SelfRouteOnlyByReply(n, e, s.now);
      }
    }
  }

  lemma OneNodeSteps(s: Sys, e: Event)
    requires Enabled(s, e) && NoSelfRoute(s) && !e.Tick?
    ensures NoSelfRoute(Step(s, e)) <==> !SelfRoute(React(s.nodes[e.at], e, s.now).0)
  {
    hide SelfRoute, React, Asserts;
    var s' := Step(s, e);
    assert s'.nodes[e.at] == React(s.nodes[e.at], e, s.now).0 && s'.nodes.Keys == s.nodes.Keys;
  }

  lemma RecvIs(n: Node, r: Reply, now: real)
    ensures Recv(n, Rrep(r), now) == RecvReply(n, r.(ttl := r.ttl - 1), now)
  {
  }

  lemma {:induction false} NoSelfRouteUntil(run: seq<Sys>, events: seq<Event>, m: nat)
    requires IsRun(run, events) && m < |run|
    requires forall k :: 0 <= k < |events| ==> Enabled(run[k], events[k]) && !TellsItself(run[k], events[k])
    ensures NoSelfRoute(run[m])
  {
    hide NoSelfRoute, TellsItself, Enabled, Step;
    if m == 0 {
      NoneAtFirst(run[0]);
    } else {
      NoSelfRouteUntil(run, events, m - 1);
      assert Enabled(run[m - 1], events[m - 1]);
      SelfRouteStep(run[m - 1], events[m - 1]);
    }
  }

  lemma NoneAtFirst(s: Sys)
    requires Initial(s)
    ensures NoSelfRoute(s)
  {
  }

  /** In no state of a run does a node have a route to itself exactly when no event of the run hands a node a
      reply about itself that is fresher than what it has. */
  lemma SelfRouteRuns(run: seq<Sys>, events: seq<Event>)
    requires IsRun(run, events)
    ensures (forall k :: 0 <= k < |run| ==> NoSelfRoute(run[k])) <==>
      (forall k :: 0 <= k < |events| ==> Enabled(run[k], events[k]) && !TellsItself(run[k], events[k]))
  {
    hide NoSelfRoute, TellsItself, Enabled, Step;
    if forall k :: 0 <= k < |events| ==> Enabled(run[k], events[k]) && !TellsItself(run[k], events[k]) {
      forall k | 0 <= k < |run| ensures NoSelfRoute(run[k]) { NoSelfRouteUntil(run, events, k); }
    }
    if forall k :: 0 <= k < |run| ==> NoSelfRoute(run[k]) {
      forall k | 0 <= k < |events| ensures Enabled(run[k], events[k]) && !TellsItself(run[k], events[k]) {
        assert Enabled(run[k], events[k]);
        SelfRouteStep(run[k], events[k]);
        assert NoSelfRoute(run[k + 1]);
      }
    }
  }

  /** The same walk, but not stopping at d. */
  predicate RawWalk(s: Sys, d: Addr, w: seq<Addr>) {
    |w| > 0 && forall k :: 0 <= k < |w| - 1 ==> Edge(s, d, w[k], w[k + 1])
  }

  /** Even then, whatever is met twice is met around the destination itself. */
  lemma CyclesPassDestination(run: seq<Sys>, events: seq<Event>, k: nat, d: Addr, w: seq<Addr>, a: nat, b: nat)
    requires IsRun(run, events) && RepairsInTime(run, events) && k < |run| && RawWalk(run[k], d, w)
    requires a < b < |w| && w[a] == w[b]
    ensures d in w[a..b] && d in run[k].nodes && SelfRoute(run[k].nodes[d])
  {
    hide IsRun, RepairsInTime, Inv;
    RunOk(run, events, k);
    var v := w[a..b + 1];
    if d !in w[a..b] {
      forall x | 0 <= x < |v| - 1 ensures Edge(run[k], d, v[x], v[x + 1]) && v[x] != d {
        assert Edge(run[k], d, w[a + x], w[a + x + 1]) && v[x] == w[a..b][x];
      }
      assert v[0] == v[b - a];
      LoopFreedom(run, events, k, d, v);
    } else {
      var x :| 0 <= x < b - a && w[a..b][x] == d;
      assert Edge(run[k], d, w[a + x], w[a + x + 1]);
      NodeIndex(run[k], d);
    }
  }

  lemma NodeIndex(s: Sys, i: Addr)
    requires Inv(s) && i in s.nodes
    ensures s.nodes[i].index == i
  {
  }

  // ---------- freshness, ownership, useful replies ----------

  lemma NodeStepAdvances(s: Sys, e: Event)
    requires Inv(s) && Enabled(s, e) && !e.Tick? && InTime(s.nodes[e.at], e)
    ensures NodeAdvances(s.nodes[e.at], React(s.nodes[e.at], e, s.now).0)
  {
    hide NodeOk, React, PacketOk, Useful, Asserts, InTime;
    assert e.Deliver? && Advertises(e.m.p) ==> AdvertOf(e.m.p) in Adverts(s.net);
    ReactOk(s.nodes[e.at], e, s.now, Adverts(s.net));
  }

  /** Along a run no entry ever becomes less fresh. */
  lemma {:induction false} FreshnessGrows(run: seq<Sys>, events: seq<Event>, j: nat, k: nat, i: Addr, d: Addr)
    requires IsRun(run, events) && RepairsInTime(run, events)
    requires j <= k < |run| && i in run[j].nodes && d in run[j].nodes[i].table
    ensures i in run[k].nodes && d in run[k].nodes[i].table
    ensures run[j].nodes[i].table[d].seqno <= run[k].nodes[i].table[d].seqno
    ensures Advances(run[j].nodes[i].table[d], run[k].nodes[i].table[d])
    decreases k - j
  {
    hide Inv, React, Enabled;
    if j < k {
      FreshnessGrows(run, events, j, k - 1, i, d);
      RunOk(run, events, k - 1);
      var s, e := run[k - 1], events[k - 1];
      assert Enabled(s, e) && run[k] == Step(s, e);
      if !e.Tick? && e.at == i { NodeStepAdvances(s, e); }
    }
  }

  /** No entry of any node is less fresh in s' than in s. */
  predicate KeepsFreshness(s: Sys, s': Sys) {
    forall i, d :: i in s.nodes && d in s.nodes[i].table ==>
      i in s'.nodes && d in s'.nodes[i].table && Advances(s.nodes[i].table[d], s'.nodes[i].table[d])
  }

  predicate TimedOut(s: Sys, e: Event)
    requires Enabled(s, e)
  {
    e.RepairTick? && e.dst in s.nodes[e.at].table && s.nodes[e.at].table[e.dst].flags.InRepair?
  }

  lemma RunPart(run: seq<Sys>, events: seq<Event>, m: nat)
    requires IsRun(run, events) && m <= |events|
    ensures IsRun(run[..m + 1], events[..m])
  {
    hide Enabled, Initial, Step;
  }

  /** A run that has been in time up to a timer that finds its route under repair loses freshness there. */
  lemma LateTimerLoses(run: seq<Sys>, events: seq<Event>, m: nat)
    requires IsRun(run, events) && m < |events| && Enabled(run[m], events[m]) && TimedOut(run[m], events[m])
    requires forall k :: 0 <= k < m ==> Enabled(run[k], events[k]) && !TimedOut(run[k], events[k])
    ensures !KeepsFreshness(run[m], run[m + 1])
  {
    hide Inv, Asserts;
    RunPart(run, events, m);
    var before, past := run[..m + 1], events[..m];
    assert RepairsInTime(before, past) by {
      assert forall k :: 0 <= k < m ==> past[k] == events[k] && before[k] == run[k];
    }
    RunOk(before, past, m);
    assert before[m] == run[m];
    LateStep(run[m], events[m]);
  }

  lemma LateStep(s: Sys, e: Event)
    requires Inv(s) && Enabled(s, e) && TimedOut(s, e)
    ensures !KeepsFreshness(s, Step(s, e))
  {
    hide Asserts;
    var n := s.nodes[e.at];
    RepairTimeoutAdvances(n, e.dst, Adverts(s.net));
    assert Step(s, e).nodes[e.at] == RepairTimeout(n, e.dst);
  }

  lemma {:induction false} FreshUntil(run: seq<Sys>, events: seq<Event>, m: nat)
    requires IsRun(run, events) && m <= |events|
    requires forall k :: 0 <= k < |events| ==> KeepsFreshness(run[k], run[k + 1])
    ensures forall k :: 0 <= k < m ==> Enabled(run[k], events[k]) && !TimedOut(run[k], events[k])
  {
    hide KeepsFreshness, TimedOut, Enabled;
    if m > 0 {
      FreshUntil(run, events, m - 1);
      if TimedOut(run[m - 1], events[m - 1]) { LateTimerLoses(run, events, m - 1); }
    }
  }

  /** A run keeps the freshness of every entry at every step exactly when no repair timer finds its route
      under repair. */
  lemma FreshnessIff(run: seq<Sys>, events: seq<Event>)
    requires IsRun(run, events)
    ensures (forall k :: 0 <= k < |events| ==> KeepsFreshness(run[k], run[k + 1])) <==> RepairsInTime(run, events)
  {
    if forall k :: 0 <= k < |events| ==> KeepsFreshness(run[k], run[k + 1]) {
      hide KeepsFreshness;
      FreshUntil(run, events, |events|);
      assert forall k :: 0 <= k < |events| ==> Enabled(run[k], events[k]) && !TimedOut(run[k], events[k]);
    }
    if RepairsInTime(run, events) {
      hide RepairsInTime, IsRun, Advances;
      forall k | 0 <= k < |events| ensures KeepsFreshness(run[k], run[k + 1]) {
        forall i, d | i in run[k].nodes && d in run[k].nodes[i].table
          ensures i in run[k + 1].nodes && d in run[k + 1].nodes[i].table
          ensures Advances(run[k].nodes[i].table[d], run[k + 1].nodes[i].table[d])
        {
          RunStates(run, events);
          FreshnessGrows(run, events, k, k + 1, i, d);
        }
      }
    }
  }

  lemma RunStates(run: seq<Sys>, events: seq<Event>)
    requires IsRun(run, events)
    ensures |run| == |events| + 1
  {
  }

  /** The sequence number of a usable route to d is one that d itself has issued. */
  lemma Ownership(run: seq<Sys>, events: seq<Event>, k: nat, i: Addr, d: Addr)
    requires IsRun(run, events) && RepairsInTime(run, events) && k < |run|
    requires i in run[k].nodes && d in run[k].nodes && d in run[k].nodes[i].table && run[k].nodes[i].table[d].hops.Some?
    ensures run[k].nodes[i].table[d].seqno <= run[k].nodes[d].seqno
  {
    RunOk(run, events, k);
    var e := run[k].nodes[i].table[d];
    assert Fine(d, e, Adverts(run[k].net));
  }

  /** A run without local repair. */
  predicate NoRepairs(events: seq<Event>) {
    forall k :: 0 <= k < |events| ==> !events[k].Repair?
  }

  predicate Unrepaired(s: Sys) {
    && (forall i, d :: i in s.nodes && d in s.nodes[i].table ==> !s.nodes[i].table[d].flags.InRepair?)
    && (forall m :: m in s.net && Advertises(m.p) ==> Dead(m.asked))
  }

  lemma UnrepairedStep(s: Sys, e: Event)
    requires Inv(s) && Unrepaired(s) && Enabled(s, e) && !e.Repair?
    ensures Unrepaired(Step(s, e))
  {
    hide Asserts, React, Inv;
    if !e.Tick? {
      NodeUnrepaired(s, e);
      var (n, out) := React(s.nodes[e.at], e, s.now);
      var s' := Step(s, e);
      forall i, d | i in s'.nodes && d in s'.nodes[i].table ensures !s'.nodes[i].table[d].flags.InRepair? {
        assert i != e.at ==> d in s.nodes[i].table;
      }
    }
  }

  predicate Steady(n: Node) {
    forall d :: d in n.table ==> !n.table[d].flags.InRepair?
  }

  /** No handler but local repair itself marks a route as being repaired. */
  lemma SteadyReact(n: Node, e: Event, now: real)
    requires Steady(n) && !e.Repair? && !e.Tick? && (e.Ask? ==> e.dst in n.table)
    ensures Steady(React(n, e, now).0)
  {
    hide RequestTimeout, PcDelete, PcInsert, SendReply, Fresher;
    match e
    case Deliver(_, m) => SteadyDeliver(n, m.p, e, now);
    case _ =>
  }

  lemma SteadyDeliver(n: Node, p: Packet, e: Event, now: real)
    requires Steady(n) && e.Deliver? && e.m.p == p
    ensures Steady(React(n, e, now).0)
  {
    hide RecvRequest, RecvReply;
    match p
    case Rreq(q) => SteadyRequest(n, q.(ttl := q.ttl - 1), now);
    case Rrep(r) => SteadyReply(n, r.(ttl := r.ttl - 1), now);
    case _ => hide LinkFailure, Purge;
  }

  lemma SteadyRequest(n: Node, q: Request, now: real)
    requires Steady(n)
    ensures Steady(RecvRequest(n, q, now).0)
  {
    hide RequestTimeout, PcDelete, PcInsert, SendReply;
  }

  lemma SteadyReply(n: Node, r: Reply, now: real)
    requires Steady(n)
    ensures Steady(RecvReply(n, r, now).0)
  {
    hide RequestTimeout, PcDelete, PcInsert, Fresher;
  }

  lemma NodeUnrepaired(s: Sys, e: Event)
    requires Inv(s) && Unrepaired(s) && Enabled(s, e) && !e.Repair? && !e.Tick?
    ensures var (n, out) := React(s.nodes[e.at], e, s.now);
      && (forall d :: d in n.table ==> !n.table[d].flags.InRepair?)
      && (forall k :: 0 <= k < |out| && Advertises(out[k]) ==> Dead(Label(e, out[k]).asked))
  {
    hide Asserts, RequestTimeout, PcDelete, Backs, RecvRequest, RecvReply, RtPurge, NbDelete, RecvError;
    var n := s.nodes[e.at];
    SteadyReact(n, e, s.now);
    if e.Ask? || e.Resolve? {
      assert e.dst in n.table ==> Fine(e.dst, n.table[e.dst], Adverts(s.net));
    } else if e.Deliver? {
      if e.m.p.Rerr? { RecvErrorOk(n, e.m.p.saddr, e.m.p.unreachable, Adverts(s.net)); }
      assert Advertises(e.m.p) ==> Dead(e.m.asked);
    } else if e.NbLoss? {
      NbDeleteOk(n, e.id, Adverts(s.net));
    }
  }

  lemma {:induction false} NoRepairsOk(run: seq<Sys>, events: seq<Event>, k: nat)
    requires IsRun(run, events) && NoRepairs(events) && k < |run|
    ensures Inv(run[k]) && Unrepaired(run[k])
  {
    hide Inv, Asserts, React;
    if k == 0 {
      InitialOk(run[0]);
    } else {
      NoRepairsOk(run, events, k - 1);
      var s, e := run[k - 1], events[k - 1];
      assert Enabled(s, e) && run[k] == Step(s, e);
      UnrepairedStep(s, e);
      StepOk(s, e);
    }
  }

  /** Without local repair the side condition of the other theorems holds. */
  lemma NoRepairsInTime(run: seq<Sys>, events: seq<Event>)
    requires IsRun(run, events) && NoRepairs(events)
    ensures RepairsInTime(run, events)
  {
    forall k | 0 <= k < |events| && events[k].RepairTick? ensures Enabled(run[k], events[k]) && Unrepaired(run[k]) {
      NoRepairsOk(run, events, k);
    }
  }

  /** Without local repair no assertion ever fails, so the program never stops. */
  lemma AssertionsHold(run: seq<Sys>, events: seq<Event>, k: nat, e: Event)
    requires IsRun(run, events) && NoRepairs(events) && k < |run| && Possible(run[k], e) && !e.Tick?
    ensures Enabled(run[k], e)
  {
    hide Fresher;
    NoRepairsOk(run, events, k);
    var n := run[k].nodes[e.at];
    assert forall d :: d in n.table ==> Fine(d, n.table[d], Adverts(run[k].net)) && !n.table[d].flags.InRepair?;
    assert Live(n.seqno);
  }

  /** A reply, however many nodes passed on the request and the reply, is newer than the
      requester's entry was when it asked; so a requester that has learnt nothing since takes the route. */
  lemma UsefulReplies(run: seq<Sys>, events: seq<Event>, k: nat, m: Sent)
    requires IsRun(run, events) && NoRepairs(events) && k < |run| && m in run[k].net && m.p.Rrep?
    ensures m.asked < m.p.r.dstSeqno
    ensures var r := m.p.r; var at := r.daddr;
      at in run[k].nodes && WithEntry(run[k].nodes[at].table, r.dst)[r.dst].seqno == m.asked ==>
        var e := RecvReply(run[k].nodes[at], r, run[k].now).0.table[r.dst];
        e.flags.Up? && e.seqno == r.dstSeqno && e.nexthop == r.src && e.hops == Some(r.hopCount)
  {
    hide ForwardReply;
    NoRepairsOk(run, events, k);
    assert Useful(m) && Dead(m.asked);
    var r := m.p.r;
    if r.daddr in run[k].nodes {
      var n := run[k].nodes[r.daddr];
      assert n.index == r.daddr;
    }
  }
}
