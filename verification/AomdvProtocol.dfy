/** What one AOMDV node does (aomdv.cc): its state as a value and every handler as a
    function from the old state to the new state and the packets handed to the network. */
module AomdvProtocol {
  import opened Common
  import opened AomdvTable

  const MY_ROUTE_TIMEOUT: real := 10.0
  const ACTIVE_ROUTE_TIMEOUT: real := 10.0
  const REV_ROUTE_LIFE: real := 6.0
  const BCAST_ID_SAVE: real := 6.0
  const RREQ_RETRIES: nat := 3
  const MAX_RREQ_TIMEOUT: real := 1.0
  const TTL_START: nat := 5
  const TTL_INCREMENT: nat := 2
  const TTL_THRESHOLD: nat := 7
  const NETWORK_DIAMETER: nat := 30
  const NODE_TRAVERSAL_TIME: real := 0.03
  const HELLO_INTERVAL: real := 1.0
  const ALLOWED_HELLO_LOSS: real := 3.0

  datatype Request = Request(
    saddr: Addr, ttl: int, src: Addr, srcSeqno: nat, dst: Addr, dstSeqno: nat,
    hopCount: nat, bcastId: nat, firstHop: Addr, timestamp: real)

  datatype Reply = Reply(
    saddr: Addr, daddr: Addr, ttl: int, nextHop: Addr, src: Addr, dst: Addr, dstSeqno: nat,
    hopCount: nat, bcastId: nat, firstHop: Addr, lifetime: real, timestamp: real)

  // A hello message has the format of a reply.
  datatype Packet =
    | Rreq(q: Request)
    | Rrep(r: Reply)
    | Rerr(saddr: Addr, unreachable: map<Addr, nat>)
    | Hello(r: Reply)

  // A remembered broadcast id: when to forget it, and how many replies used it.
  datatype Bcast = Bcast(expire: real, count: nat)

  datatype Node = Node(
    index: Addr, seqno: nat, bid: nat, maxPaths: int, lenDiff: int,
    table: map<Addr, Entry>, bcache: map<(Addr, nat), Bcast>, nbs: map<Addr, real>)

  function NewNode(index: Addr, maxPaths: int, lenDiff: int): Node {
    Node(index, 2, 1, maxPaths, lenDiff, map[], map[], map[])
  }

  /** rt_lookup followed by rt_add when there is no entry yet. */
  function WithEntry(t: map<Addr, Entry>, d: Addr): (t': map<Addr, Entry>)
    ensures d in t'
  {
    if d in t then t else t[d := NewEntry(d)]
  }

  // ---------- receiving a route request ----------

  // Drop: the packet goes no further. Keep: carry on; `route` tells whether reverse_path was set.
  datatype Update = Drop(entry: Entry) | Keep(entry: Entry, route: bool)

  /** The reverse route to the source of request q, heard from q.saddr. */
  function UpdateReverse(index: Addr, maxPaths: int, lenDiff: int, e: Entry, q: Request, now: real): Update
  {
    var p := Path(q.saddr, q.hopCount + 1, now + REV_ROUTE_LIFE, q.firstHop);
    if e.seqno < q.srcSeqno then
      Keep(Renew(e, q.srcSeqno, p), true)
    else if e.seqno == q.srcSeqno && (e.advertisedHops.None? || e.advertisedHops.value > q.hopCount) then
      var known := DisjointPathLookup(e.paths, q.saddr, q.firstHop);
      if known < |e.paths| then
        Keep(e.(paths := Extend(e.paths, known, now + REV_ROUTE_LIFE)), true)
      else if NewDisjointPath(e.paths, q.saddr, q.firstHop) then
        var room := |e.paths| < maxPaths && CloseEnough(e.paths, q.hopCount + 1, lenDiff);
        var e' := if room then PathInsert(e, p) else e;
        if CloseEnough(e'.paths, q.hopCount + 1, lenDiff) then Keep(e', room) else Drop(e')
      else
        var erp := PathLookupLasthop(e.paths, q.firstHop);
        if q.dst == index && (erp == |e.paths| || q.hopCount + 1 > e.paths[erp].hopcount) then Drop(e)
        else Keep(e, false)
    else Drop(e)
  }

  function ResetRequests(e: Entry): Entry {
    if e.flags.Up? then e.(reqTimeout := 0.0, reqLastTtl := 0, reqCnt := 0) else e
  }

  /** The sequence number the destination itself answers with. */
  function OwnReplySeqno(own: nat, asked: nat): nat {
    var s := if own < asked then asked + 1 else own;
    if s % 2 == 1 then s + 1 else s
  }

  function RecvRequest(n: Node, p: Request, now: real): (Node, seq<Packet>)
  {
    if p.src == n.index then (n, []) else
      var key := (p.src, p.bcastId);
      var seen := key in n.bcache;
      var bcache := if seen then n.bcache else n.bcache[key := Bcast(now + BCAST_ID_SAVE, 0)];
      var q := if p.hopCount == 0 then p.(firstHop := n.index) else p;
      var (n1, upd) := RecordReverse(n.(bcache := bcache), q, now);
      if upd.Drop? then (n1, []) else AnswerRequest(n1, q, now, seen, upd.route)
  }

  /** The first half of recvRequest, once the request is known to come from somebody else. */
  function RecordReverse(n: Node, q: Request, now: real): (r: (Node, Update))
    ensures r.0.bcache == n.bcache && q.src in r.0.table
  {
    var table := WithEntry(n.table, q.src);
    var upd := UpdateReverse(n.index, n.maxPaths, n.lenDiff, table[q.src], q, now);
    (n.(table := table[q.src := if upd.Drop? then upd.entry else ResetRequests(upd.entry)]), upd)
  }

  /** The second half of recvRequest: answer the request or pass it on. */
  function AnswerRequest(n: Node, q: Request, now: real, seen: bool, route: bool): (Node, seq<Packet>)
    requires q.src in n.table && (q.src, q.bcastId) in n.bcache
  {
    var key := (q.src, q.bcastId);
    if q.dst == n.index then
      var s := OwnReplySeqno(n.seqno, q.dstSeqno);
      (n.(seqno := s),
       [Rrep(Reply(n.index, q.src, NETWORK_DIAMETER, q.saddr, n.index, n.index, s, 0, q.bcastId, q.saddr,
                   MY_ROUTE_TIMEOUT, q.timestamp))])
    else if q.dst in n.table && n.table[q.dst].flags.Up? && n.table[q.dst].seqno >= q.dstSeqno then
      if route && n.bcache[key].count == 0 then ReplyFromRoute(n, q, now) else (n, [])
    else if seen then (n, [])
    else PassOn(n, q)
  }

  /** A node with a fresh route answers for the destination, and advertises that route. */
  function ReplyFromRoute(n: Node, q: Request, now: real): (Node, seq<Packet>)
    requires q.dst in n.table && (q.src, q.bcastId) in n.bcache
  {
    var key := (q.src, q.bcastId);
    var e := Advertise(n.table[q.dst]).(error := true);
    var first := if e.paths == [] then Path(0, 0, 0.0, 0) else e.paths[0];
    (n.(bcache := n.bcache[key := n.bcache[key].(count := 1)], table := n.table[q.dst := e]),
     [Rrep(Reply(n.index, q.src, NETWORK_DIAMETER, q.saddr, n.index, q.dst, e.seqno,
                 HopsOf(e.advertisedHops), q.bcastId, first.lasthop, first.expire - now, q.timestamp))])
  }

  /** Rebroadcast a request, advertising the route back to its source. */
  function PassOn(n: Node, q: Request): (Node, seq<Packet>)
    requires q.src in n.table
  {
    var dstSeqno := if q.dst in n.table then Max(n.table[q.dst].seqno, q.dstSeqno) else q.dstSeqno;
    var e := Advertise(n.table[q.src]);
    var firstHop := if e.paths == [] then 0 else e.paths[0].lasthop;
    (n.(table := n.table[q.src := e]),
     if q.ttl == 0 then [] else
       [Rreq(q.(saddr := n.index, dstSeqno := dstSeqno, hopCount := HopsOf(e.advertisedHops), firstHop := firstHop))])
  }

  function HopsOf(h: Option<nat>): nat {
    if h.Some? then h.value else INFINITY2
  }

  // ---------- receiving a route reply ----------

  /** The forward route to r.dst, heard from r.src. */
  function UpdateForward(maxPaths: int, lenDiff: int, e: Entry, r: Reply, now: real): Update
  {
    var p := Path(r.src, r.hopCount + 1, now + r.lifetime, r.firstHop);
    if e.seqno < r.dstSeqno then
      Keep(Renew(e, r.dstSeqno, p), true)
    else if e.seqno == r.dstSeqno && (e.advertisedHops.None? || e.advertisedHops.value > r.hopCount) then
      var known := DisjointPathLookup(e.paths, r.src, r.firstHop);
      if known < |e.paths| then
        Keep(e.(paths := Extend(e.paths, known, now + r.lifetime)), true)
      else if NewDisjointPath(e.paths, r.src, r.firstHop) && |e.paths| < maxPaths
              && CloseEnough(e.paths, r.hopCount + 1, lenDiff) then
        Keep(PathInsert(e, p), true)
      else Drop(e)
    else Drop(e)
  }

  function RecvReply(n: Node, r: Reply, now: real): (Node, seq<Packet>)
  {
    if r.dst == n.index then (n, []) else
      var (n1, upd) := RecordForward(n, r, now);
      if upd.Drop? || r.daddr == n.index then (n1, []) else ForwardReply(n1, r, now)
  }

  /** The first half of recvReply, once the reply is known to be about somebody else. */
  function RecordForward(n: Node, r: Reply, now: real): (u: (Node, Update))
    ensures r.dst in u.0.table
  {
    var table := WithEntry(n.table, r.dst);
    var upd := UpdateForward(n.maxPaths, n.lenDiff, table[r.dst], r, now);
    (n.(table := table[r.dst := if upd.Drop? then upd.entry else ResetRequests(upd.entry)]), upd)
  }

  /** The second half of recvReply: pass the reply on towards r.daddr, once per request. */
  function ForwardReply(n: Node, r: Reply, now: real): (Node, seq<Packet>)
    requires r.dst in n.table
  {
    var key := (r.daddr, r.bcastId);
    if r.daddr !in n.table || !n.table[r.daddr].flags.Up? || key !in n.bcache || n.bcache[key].count != 0 then
      (n, [])
    else
      var n1 := n.(bcache := n.bcache[key := n.bcache[key].(count := 1)]);
      var e := Advertise(n1.table[r.dst]);
      var firstHop := if e.paths == [] then 0 else e.paths[0].lasthop;
      var t1 := n1.table[r.dst := e.(error := true)];
      var back := t1[r.daddr];
      var nextHop := if back.paths == [] then 0 else back.paths[0].nexthop;
      var t2 := t1[r.daddr := back.(paths := Refresh(back.paths, 0, now + ACTIVE_ROUTE_TIMEOUT))];
      (n1.(table := t2),
       if r.ttl == 0 then [] else
         [Rrep(r.(nextHop := nextHop, src := n.index, hopCount := HopsOf(e.advertisedHops), firstHop := firstHop))])
  }

  // ---------- route errors, lost neighbours, expiry ----------

  function RecvError(n: Node, saddr: Addr, unreachable: map<Addr, nat>): (Node, seq<Packet>)
  {
    var t := map d | d in n.table ::
      if d in unreachable then ErrorHeard(n.table[d], saddr, unreachable[d]).0 else n.table[d];
    (n.(table := t), SendError(n.index, ErrorReports(n, saddr, unreachable)))
  }

  /** The destinations that became unreachable here too and have precursors to warn. */
  function ErrorReports(n: Node, saddr: Addr, unreachable: map<Addr, nat>): map<Addr, nat> {
    map d | d in n.table && d in unreachable && ErrorHeard(n.table[d], saddr, unreachable[d]).1.Some? ::
      ErrorHeard(n.table[d], saddr, unreachable[d]).1.value
  }

  function SendError(index: Addr, rerr: map<Addr, nat>): seq<Packet> {
    if rerr == map[] then [] else [Rerr(index, rerr)]
  }

  function HandleLinkFailure(n: Node, id: Addr): (Node, seq<Packet>) {
    var t := map d | d in n.table :: LinkFailure(n.table[d], id).0;
    (n.(table := t), SendError(n.index, LossReports(n, id)))
  }

  function LossReports(n: Node, id: Addr): map<Addr, nat> {
    map d | d in n.table && LinkFailure(n.table[d], id).1.Some? :: LinkFailure(n.table[d], id).1.value
  }

  function NbDelete(n: Node, id: Addr): (Node, seq<Packet>) {
    HandleLinkFailure(n.(seqno := n.seqno + 2, nbs := n.nbs - {id}), id)
  }

  function RtPurge(n: Node, now: real): Node {
    n.(table := map d | d in n.table :: Purge(n.table[d], now))
  }

  function IdPurge(n: Node, now: real): Node {
    n.(bcache := map k | k in n.bcache && n.bcache[k].expire > now :: n.bcache[k])
  }

  // ---------- originating ----------

  /** The ring of the next expanding-ring search, and whether it is network wide. */
  function RequestTtl(e: Entry): (nat, bool) {
    var last := Max(e.reqLastTtl, e.lastHopCount);
    if last == 0 then (TTL_START, false)
    else if last < TTL_THRESHOLD then (last + TTL_INCREMENT, false)
    else (NETWORK_DIAMETER, true)
  }

  /** When to ask again: a round trip of the ring, longer after network-wide searches, but capped. */
  function RequestTimeout(ttl: nat, cnt: nat, now: real): real {
    var wait := 2.0 * ttl as real * NODE_TRAVERSAL_TIME * (if cnt > 0 then cnt as real else 1.0);
    if wait > MAX_RREQ_TIMEOUT then now + MAX_RREQ_TIMEOUT else now + wait
  }

  function SendRequest(n: Node, d: Addr, now: real): (Node, seq<Packet>)
    requires d in n.table
  {
    var e := n.table[d];
    if e.flags.Up? || e.reqTimeout > now then (n, [])
    else if e.reqCnt > RREQ_RETRIES then
      (n.(table := n.table[d := e.(reqTimeout := now + MAX_RREQ_TIMEOUT, reqCnt := 0)]), [])
    else
      var (ttl, wide) := RequestTtl(e);
      var cnt := if wide then e.reqCnt + 1 else e.reqCnt;
      var e' := e.(reqLastTtl := ttl, reqCnt := cnt, expire := 0.0, reqTimeout := RequestTimeout(ttl, cnt, now));
      (n.(table := n.table[d := e'], bid := n.bid + 1, seqno := n.seqno + 2),
       [Rreq(Request(n.index, ttl, n.index, n.seqno + 2, d, e.seqno, 0, n.bid, 0, now))])
  }

  /** Using the route in e for a data packet sent by saddr: the first path stays alive. */
  function UseRoute(e: Entry, own: bool, now: real): Entry {
    e.(paths := Refresh(e.paths, 0, now + ACTIVE_ROUTE_TIMEOUT), error := e.error || !own)
  }

  /** rt_resolve for a data packet from saddr to d: forward it, look for a route, or report the lack of one. */
  function RtResolve(n: Node, saddr: Addr, d: Addr, now: real): (Node, seq<Packet>) {
    var n1 := n.(table := WithEntry(n.table, d));
    var e := n1.table[d];
    if e.flags.Up? then (n1.(table := n1.table[d := UseRoute(e, saddr == n.index, now)]), [])
    else if saddr == n.index then SendRequest(n1, d, now)
    else if e.flags.InRepair? then (n1, [])
    else (n1, [Rerr(n.index, map[d := e.seqno])])
  }

  predicate HasActiveRoute(n: Node) {
    exists d :: d in n.table && n.table[d].flags.Up?
  }

  /** The hello timer: a node with an active route announces itself. */
  function HelloTimer(n: Node): seq<Packet> {
    if HasActiveRoute(n) then
      [Hello(Reply(n.index, 0, 1, 0, 0, n.index, n.seqno, 0, 0, 0, (1.0 + ALLOWED_HELLO_LOSS) * HELLO_INTERVAL, 0.0))]
    else []
  }

  function RecvHello(n: Node, r: Reply, now: real): (Node, seq<Packet>) {
    var life := if r.dst in n.nbs then 1.5 * ALLOWED_HELLO_LOSS * HELLO_INTERVAL
                else HELLO_INTERVAL * ALLOWED_HELLO_LOSS;
    RecvReply(n.(nbs := n.nbs[r.dst := now + life]), r.(daddr := n.index, src := r.saddr, firstHop := n.index), now)
  }

  /** recv and recvAOMDV: one hop is taken off the time to live, then the packet is dispatched. */
  function Recv(n: Node, p: Packet, now: real): (Node, seq<Packet>) {
    match p
    case Rreq(q) => RecvRequest(n, q.(ttl := q.ttl - 1), now)
    case Rrep(r) => RecvReply(n, r.(ttl := r.ttl - 1), now)
    case Rerr(saddr, unreachable) => RecvError(n, saddr, unreachable)
    case Hello(r) => RecvHello(n, r.(ttl := r.ttl - 1), now)
  }

  // ---------- what the handlers assert ----------

  /** The assertions of recvRequest and recvReply about the entry that a message heard
      from `via` with these numbers is about. */
  predicate UpdateAsserts(e: Entry, seqno: nat, via: Addr, hopCount: nat, lasthop: Addr) {
    e.seqno == seqno && (e.advertisedHops.None? || e.advertisedHops.value > hopCount) ==>
      && e.flags.Up?
      && (var known := DisjointPathLookup(e.paths, via, lasthop);
          known < |e.paths| ==> e.paths[known].hopcount == hopCount + 1)
  }
}
