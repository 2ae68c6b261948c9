/** What one AODV node does (aodv.cc, aodv_rtable.cc): one next hop per destination. Every
    handler is a function from the old state to the new state and the packets sent. */
module AodvProtocol {
  import opened Common

  // The value 0xff that stands for "no hop count".
  const INFINITY2: nat := 255
  const MY_ROUTE_TIMEOUT: real := 10.0
  const ACTIVE_ROUTE_TIMEOUT: real := 10.0
  const REV_ROUTE_LIFE: real := 6.0
  const BCAST_ID_SAVE: real := 6.0
  const RREQ_RETRIES: nat := 3
  const MAX_RREQ_TIMEOUT: real := 10.0
  const TTL_START: nat := 5
  const TTL_INCREMENT: nat := 2
  const TTL_THRESHOLD: nat := 7
  const NETWORK_DIAMETER: nat := 30
  const NEIGHBOR_LIFE: real := 4.5

  // rt_hops is None while the code holds its infinity there.
  datatype Entry = Entry(
    dst: Addr, seqno: nat, hops: Option<nat>, nexthop: Addr, precursors: seq<Addr>, expire: real, flags: Flag,
    lastHopCount: nat, reqTimeout: real, reqCnt: nat, reqLastTtl: nat)

  function NewEntry(dst: Addr): Entry {
    Entry(dst, 0, None, 0, [], 0.0, Down, INFINITY2, 0.0, 0, 0)
  }

  datatype Request = Request(
    saddr: Addr, ttl: int, src: Addr, srcSeqno: nat, dst: Addr, dstSeqno: nat,
    hopCount: nat, bcastId: nat, timestamp: real)

  datatype Reply = Reply(
    saddr: Addr, daddr: Addr, ttl: int, nextHop: Addr, src: Addr, dst: Addr, dstSeqno: nat,
    hopCount: nat, lifetime: int, timestamp: real)

  datatype Packet =
    | Rreq(q: Request)
    | Rrep(r: Reply)
    | Rerr(saddr: Addr, unreachable: map<Addr, nat>)
    | Hello(dst: Addr, dstSeqno: nat)

  datatype Node = Node(
    index: Addr, seqno: nat, bid: nat, table: map<Addr, Entry>,
    bcache: map<(Addr, nat), real>, nbs: map<Addr, real>)

  function NewNode(index: Addr): Node { Node(index, 2, 1, map[], map[], map[]) }

  /** rt_lookup followed by rt_add when there is no entry yet. */
  function WithEntry(t: map<Addr, Entry>, d: Addr): (t': map<Addr, Entry>)
    ensures d in t'
  {
    if d in t then t else t[d := NewEntry(d)]
  }

  // ---------- one entry ----------

  /** The freshness test of recvRequest and recvReply: a newer sequence number, or the same with fewer hops. */
  predicate Fresher(seqno: nat, hops: nat, e: Entry) {
    seqno > e.seqno || (seqno == e.seqno && (e.hops.None? || hops < e.hops.value))
  }

  function RtUpdate(e: Entry, seqno: nat, hops: nat, nexthop: Addr, expire: real): Entry {
    e.(seqno := seqno, hops := Some(hops), flags := Up, nexthop := nexthop, expire := expire)
  }

  function RtDown(e: Entry): Entry {
    if e.flags.Down? then e
    else e.(lastHopCount := HopsOf(e.hops), hops := None, flags := Down, nexthop := 0, expire := 0.0)
  }

  function HopsOf(h: Option<nat>): nat { if h.Some? then h.value else INFINITY2 }

  function PcInsert(pcs: seq<Addr>, id: Addr): seq<Addr> {
    if id in pcs then pcs else [id] + pcs
  }

  /** pc_delete(id): the first occurrence goes. */
  function PcDelete(pcs: seq<Addr>, id: Addr): seq<Addr> {
    if pcs == [] then [] else if pcs[0] == id then pcs[1..] else [pcs[0]] + PcDelete(pcs[1..], id)
  }

  /** One entry's share of handle_link_failure; the second component is the sequence number to report. */
  function LinkFailure(e: Entry, id: Addr): (Entry, Option<nat>) {
    var (e', rep) :=
      if e.hops.Some? && e.nexthop == id then (RtDown(e.(seqno := e.seqno + 1)), Some(e.seqno + 1)) else (e, None);
    (e'.(precursors := PcDelete(e'.precursors, id)), rep)
  }

  /** One entry's share of recvError: neighbour via reports sequence number u. */
  function ErrorHeard(e: Entry, via: Addr, u: nat): (Entry, Option<nat>) {
    if e.hops.Some? && e.nexthop == via && e.seqno <= u then
      (RtDown(e.(seqno := u)).(precursors := []), if e.precursors == [] then None else Some(u))
    else (e, None)
  }

  /** One entry's share of rt_purge. */
  function Purge(e: Entry, now: real): Entry {
    if e.flags.Up? && e.expire < now then RtDown(e.(seqno := e.seqno + 1)) else e
  }

  // ---------- receiving a route request ----------

  function UpdateReverse(e: Entry, q: Request, now: real): Entry {
    var e1 := e.(expire := MaxReal(e.expire, now + REV_ROUTE_LIFE));
    if Fresher(q.srcSeqno, q.hopCount, e1) then
      var e2 := RtUpdate(e1, q.srcSeqno, q.hopCount, q.saddr, MaxReal(e1.expire, now + REV_ROUTE_LIFE));
      if e2.reqTimeout > 0.0 then
        e2.(reqCnt := 0, reqTimeout := 0.0, reqLastTtl := q.hopCount, expire := now + ACTIVE_ROUTE_TIMEOUT)
      else e2
    else e1
  }

  /** The sequence number the destination itself answers with. */
  function OwnReplySeqno(own: nat, asked: nat): nat {
    var s := Max(own, asked) + 1;
    if s % 2 == 1 then s + 1 else s
  }

  function RecvRequest(n: Node, q: Request, now: real): (Node, seq<Packet>) {
    if q.src == n.index || (q.src, q.bcastId) in n.bcache then (n, []) else
      var t := WithEntry(n.table, q.src);
      AnswerRequest(n.(bcache := n.bcache[(q.src, q.bcastId) := now + BCAST_ID_SAVE],
                       table := t[q.src := UpdateReverse(t[q.src], q, now)]), q, now)
  }

  /** The second half of recvRequest: answer the request or pass it on. */
  function AnswerRequest(n: Node, q: Request, now: real): (Node, seq<Packet>)
    requires q.src in n.table
  {
    if q.dst == n.index then
      var s := OwnReplySeqno(n.seqno, q.dstSeqno);
      var n' := n.(seqno := s);
      (n', [SendReply(n', q.src, 1, n.index, s, MY_ROUTE_TIMEOUT, q.timestamp)])
    else if q.dst in n.table && n.table[q.dst].hops.Some? && n.table[q.dst].seqno >= q.dstSeqno then
      ReplyFromRoute(n, q, now)
    else
      var dstSeqno := if q.dst in n.table then Max(n.table[q.dst].seqno, q.dstSeqno) else q.dstSeqno;
      (n, if q.ttl == 0 then [] else [Rreq(q.(saddr := n.index, hopCount := q.hopCount + 1, dstSeqno := dstSeqno))])
  }

  /** A node with a fresh route answers for the destination; the two directions become precursors of each other. */
  function ReplyFromRoute(n: Node, q: Request, now: real): (Node, seq<Packet>)
    requires q.src in n.table && q.dst in n.table
  {
    var rt := n.table[q.dst];
    var t1 := n.table[q.dst := rt.(precursors := PcInsert(rt.precursors, n.table[q.src].nexthop))];
    var t2 := t1[q.src := t1[q.src].(precursors := PcInsert(t1[q.src].precursors, t1[q.dst].nexthop))];
    (n.(table := t2), [SendReply(n, q.src, HopsOf(rt.hops) + 1, q.dst, rt.seqno, rt.expire - now, q.timestamp)])
  }

  /** A reply towards ipdst, handed to the next hop of the route there. The lifetime is cut to whole seconds. */
  function SendReply(n: Node, ipdst: Addr, hops: nat, rpdst: Addr, rpseq: nat, lifetime: real, timestamp: real): Packet
    requires ipdst in n.table
  {
    Rrep(Reply(n.index, ipdst, NETWORK_DIAMETER, n.table[ipdst].nexthop, n.index, rpdst, rpseq, hops,
               Truncate(lifetime), timestamp))
  }

  /** The conversion of a floating-point number to an integer, towards zero. */
  function Truncate(x: real): (t: int)
    ensures x >= 0.0 ==> t as real <= x < t as real + 1.0
    ensures x <= 0.0 ==> t as real - 1.0 < x <= t as real
  {
    if x < 0.0 then -((-x).Floor) else x.Floor
  }

  // ---------- receiving a route reply ----------

  function UpdateForward(e: Entry, r: Reply, now: real): Entry {
    if Fresher(r.dstSeqno, r.hopCount, e) then
      RtUpdate(e, r.dstSeqno, r.hopCount, r.src, now + r.lifetime as real).(
        reqCnt := 0, reqTimeout := 0.0, reqLastTtl := r.hopCount)
    else e
  }

  function RecvReply(n: Node, r: Reply, now: real): (Node, seq<Packet>) {
    var t := WithEntry(n.table, r.dst);
    var n1 := n.(table := t[r.dst := UpdateForward(t[r.dst], r, now)]);
    if r.daddr == n.index || !Fresher(r.dstSeqno, r.hopCount, t[r.dst]) then (n1, []) else ForwardReply(n1, r, now)
  }

  /** The second half of recvReply: pass the reply on towards r.daddr. */
  function ForwardReply(n: Node, r: Reply, now: real): (Node, seq<Packet>)
    requires r.dst in n.table
  {
    if r.daddr !in n.table || n.table[r.daddr].hops.None? then (n, []) else
      var rt0 := n.table[r.daddr];
      var used := if r.ttl == 0 then rt0 else rt0.(expire := now + ACTIVE_ROUTE_TIMEOUT);
      var t1 := n.table[r.daddr := used];
      var t2 := t1[r.dst := t1[r.dst].(precursors := PcInsert(t1[r.dst].precursors, rt0.nexthop))];
      (n.(table := t2),
       if r.ttl == 0 then [] else [Rrep(r.(hopCount := r.hopCount + 1, src := n.index, nextHop := rt0.nexthop))])
  }

  // ---------- route errors, lost neighbours, expiry ----------

  function SendError(index: Addr, rerr: map<Addr, nat>): seq<Packet> {
    if rerr == map[] then [] else [Rerr(index, rerr)]
  }

  function RecvError(n: Node, saddr: Addr, unreachable: map<Addr, nat>): (Node, seq<Packet>) {
    var t := map d | d in n.table ::
      if d in unreachable then ErrorHeard(n.table[d], saddr, unreachable[d]).0 else n.table[d];
    (n.(table := t), SendError(n.index, ErrorReports(n, saddr, unreachable)))
  }

  function ErrorReports(n: Node, saddr: Addr, unreachable: map<Addr, nat>): map<Addr, nat> {
    map d | d in n.table && d in unreachable && ErrorHeard(n.table[d], saddr, unreachable[d]).1.Some? ::
      ErrorHeard(n.table[d], saddr, unreachable[d]).1.value
  }

  function HandleLinkFailure(n: Node, id: Addr): (Node, seq<Packet>) {
    (n.(table := map d | d in n.table :: LinkFailure(n.table[d], id).0), SendError(n.index, LossReports(n, id)))
  }

  function LossReports(n: Node, id: Addr): map<Addr, nat> {
    map d | d in n.table && LinkFailure(n.table[d], id).1.Some? :: LinkFailure(n.table[d], id).1.value
  }

  function NbDelete(n: Node, id: Addr): (Node, seq<Packet>) {
    HandleLinkFailure(n.(seqno := n.seqno + 2, nbs := n.nbs - {id}), id)
  }

  function RtPurge(n: Node, now: real): Node {
    n.(table := map d | d in n.table :: Purge(n.table[d], now))
  }

  function IdPurge(n: Node, now: real): Node {
    n.(bcache := map k | k in n.bcache && n.bcache[k] > now :: n.bcache[k])
  }

  /** A hello message only keeps the neighbour list up to date. */
  function RecvHello(n: Node, d: Addr, now: real): Node {
    n.(nbs := n.nbs[d := now + NEIGHBOR_LIFE], seqno := if d in n.nbs then n.seqno else n.seqno + 2)
  }

  // ---------- originating ----------

  function RequestTtl(e: Entry): (nat, bool) {
    var last := Max(e.reqLastTtl, e.lastHopCount);
    if last == 0 then (TTL_START, false)
    else if last < TTL_THRESHOLD then (last + TTL_INCREMENT, false)
    else (NETWORK_DIAMETER, true)
  }

  /** When to ask again, given the round trip time per hop. */
  function RequestTimeout(ttl: nat, cnt: nat, perHop: real, now: real): real {
    var wait := 2.0 * ttl as real * perHop * (if cnt > 0 then cnt as real else 1.0);
    if wait > MAX_RREQ_TIMEOUT then now + MAX_RREQ_TIMEOUT else now + wait
  }

  function SendRequest(n: Node, d: Addr, perHop: real, now: real): (Node, seq<Packet>)
    requires d in n.table
  {
    var e := n.table[d];
    if e.flags.Up? || e.reqTimeout > now then (n, [])
    else if e.reqCnt > RREQ_RETRIES then
      (n.(table := n.table[d := e.(reqTimeout := now + MAX_RREQ_TIMEOUT, reqCnt := 0)]), [])
    else
      var (ttl, wide) := RequestTtl(e);
      var cnt := if wide then e.reqCnt + 1 else e.reqCnt;
      var e' := e.(reqLastTtl := ttl, reqCnt := cnt, expire := 0.0,
        reqTimeout := RequestTimeout(ttl, cnt, perHop, now));
      (n.(table := n.table[d := e'], bid := n.bid + 1, seqno := n.seqno + 2),
       [Rreq(Request(n.index, ttl, n.index, n.seqno + 2, d, e.seqno, 1, n.bid, now))])
  }

  /** rt_resolve for a data packet from saddr to d: forward it, look for a route, wait, or report the lack of one. */
  function RtResolve(n: Node, saddr: Addr, d: Addr, perHop: real, now: real): (Node, seq<Packet>) {
    var n1 := n.(table := WithEntry(n.table, d));
    var e := n1.table[d];
    if e.flags.Up? then (n1.(table := n1.table[d := e.(expire := now + ACTIVE_ROUTE_TIMEOUT)]), [])
    else if saddr == n.index then SendRequest(n1, d, perHop, now)
    else if e.flags.InRepair? then (n1, [])
    else (n1, [Rerr(n.index, map[d := e.seqno])])
  }

  // ---------- local repair ----------

  /** local_rt_repair: keep the broken route but mark it, and look for a new one. */
  function LocalRepair(n: Node, d: Addr, perHop: real, now: real): (Node, seq<Packet>)
    requires d in n.table
  {
    SendRequest(n.(table := n.table[d := n.table[d].(flags := InRepair)]), d, perHop, now)
  }

  /** The local repair timer: a route that is still not up is taken down. */
  function RepairTimeout(n: Node, d: Addr): Node {
    if d in n.table && !n.table[d].flags.Up? then n.(table := n.table[d := RtDown(n.table[d])]) else n
  }

  /** recv and recvAODV: one hop is taken off the time to live, then the packet is dispatched. */
  function Recv(n: Node, p: Packet, now: real): (Node, seq<Packet>) {
    match p
    case Rreq(q) => RecvRequest(n, q.(ttl := q.ttl - 1), now)
    case Rrep(r) => RecvReply(n, r.(ttl := r.ttl - 1), now)
    case Rerr(saddr, unreachable) => RecvError(n, saddr, unreachable)
    case Hello(d, _) => (RecvHello(n, d, now), [])
  }
}
