/** AOMDV over a network of any number of nodes: every packet ever sent stays available,
    so packets may be lost, repeated, reordered and overheard by anybody. */
module AomdvNetwork {
  import opened Common
  import opened AomdvTable
  import opened AomdvProtocol

  datatype Sys = Sys(nodes: map<Addr, Node>, net: set<Packet>, now: real)

  datatype Event =
    | Tick(until: real)
    | Deliver(at: Addr, p: Packet)
    | Resolve(at: Addr, saddr: Addr, dst: Addr)
    | Request(at: Addr, dst: Addr)
    | HelloTick(at: Addr)
    | NbLoss(at: Addr, id: Addr)
    | RouteTick(at: Addr)
    | BcastTick(at: Addr)

  predicate Enabled(s: Sys, e: Event) {
    match e
    case Tick(until) => until >= s.now
    case Deliver(at, p) => at in s.nodes && p in s.net
    case Request(at, dst) => at in s.nodes && dst in s.nodes[at].table
    case _ => e.at in s.nodes
  }

  function React(n: Node, e: Event, now: real): (Node, seq<Packet>)
    requires !e.Tick?
    requires e.Request? ==> e.dst in n.table
  {
    match e
    case Deliver(_, p) => Recv(n, p, now)
    case Resolve(_, saddr, dst) => RtResolve(n, saddr, dst, now)
    case Request(_, dst) => SendRequest(n, dst, now)
    case HelloTick(_) => (n, HelloTimer(n))
    case NbLoss(_, id) => NbDelete(n, id)
    case RouteTick(_) => (RtPurge(n, now), [])
    case BcastTick(_) => (IdPurge(n, now), [])
  }

  function Step(s: Sys, e: Event): Sys
    requires Enabled(s, e)
  {
    if e.Tick? then s.(now := e.until)
    else
      var (n, out) := React(s.nodes[e.at], e, s.now);
      s.(nodes := s.nodes[e.at := n], net := s.net + (set p | p in out))
  }

  ghost predicate Next(s: Sys, s': Sys) {
    exists e :: Enabled(s, e) && s' == Step(s, e)
  }

  /** A run: the states passed through, each one an enabled step after the one before. */
  ghost predicate IsRun(run: seq<Sys>) {
    && |run| > 0
    && Initial(run[0])
    && forall k :: 0 < k < |run| ==> Next(run[k - 1], run[k])
  }

  predicate Initial(s: Sys) {
    && s.net == {}
    && forall i :: i in s.nodes ==> s.nodes[i] == NewNode(i, s.nodes[i].maxPaths, s.nodes[i].lenDiff)
  }

  // ---------- advertisements ----------

  // Node `who` tells the world: I am `hops` hops from `dst`, as of its sequence number `seqno`.
  datatype Advert = Advert(who: Addr, dst: Addr, seqno: nat, hops: nat)

  function AdvertOf(p: Packet): Advert
    requires !p.Rerr?
  {
    match p
    case Rreq(q) => Advert(q.saddr, q.src, q.srcSeqno, q.hopCount)
    case Rrep(r) => Advert(r.src, r.dst, r.dstSeqno, r.hopCount)
    case Hello(r) => Advert(r.saddr, r.dst, r.dstSeqno, r.hopCount)
  }

  function Adverts(net: set<Packet>): set<Advert> {
    set p | p in net && !p.Rerr? :: AdvertOf(p)
  }

  // ---------- the invariant ----------

  predicate Live(q: nat) { q >= 2 && q % 2 == 0 }

  predicate Dead(q: nat) { q == 0 || q % 2 == 1 }

  predicate Distinct(ps: seq<Path>) {
    forall i, j :: 0 <= i < j < |ps| ==> ps[i].nexthop != ps[j].nexthop && ps[i].lasthop != ps[j].lasthop
  }

  /** What holds of each entry by itself, at a node with this address and path limit. */
  predicate EntryOk(index: Addr, maxPaths: int, d: Addr, e: Entry) {
    && e.dst == d
    && !e.flags.InRepair?
    && (e.flags.Up? <==> e.paths != [])
    && (if e.flags.Up? then Live(e.seqno) else Dead(e.seqno) && e.advertisedHops.None?)
    && Dead(e.highestSeqnoHeard)
    && Distinct(e.paths)
    && (|e.paths| <= 1 || |e.paths| <= maxPaths)
    && (forall k :: 0 <= k < |e.paths| ==> 1 <= e.paths[k].hopcount)
    && (e.advertisedHops.Some? ==> forall k :: 0 <= k < |e.paths| ==> e.paths[k].hopcount <= e.advertisedHops.value)
    && (d == index ==> e.flags.Down?)
  }

  /** Every path was heard from its next hop. */
  predicate Heard(d: Addr, e: Entry, heard: set<Advert>) {
    forall k :: 0 <= k < |e.paths| && 1 <= e.paths[k].hopcount ==>
      Advert(e.paths[k].nexthop, d, e.seqno, e.paths[k].hopcount - 1) in heard
  }

  predicate Fine(index: Addr, maxPaths: int, d: Addr, e: Entry, heard: set<Advert>) {
    EntryOk(index, maxPaths, d, e) && Heard(d, e, heard)
  }

  /** Node n still stands by advertisement a of its own: it has moved on to a newer
      sequence number, or the advertised hop count is frozen at what it said. */
  predicate StandsBy(n: Node, a: Advert) {
    if a.dst == n.index then a.hops == 0 && a.seqno <= n.seqno
    else
      && a.dst in n.table
      && (|| n.table[a.dst].seqno > a.seqno
          || (n.table[a.dst].seqno == a.seqno && n.table[a.dst].advertisedHops == Some(a.hops)))
  }

  /** Advertisement a is what node n would say right now. */
  predicate Says(n: Node, a: Advert) {
    if a.dst == n.index then a.hops == 0 && a.seqno <= n.seqno
    else a.dst in n.table && n.table[a.dst].seqno == a.seqno && n.table[a.dst].advertisedHops == Some(a.hops)
  }

  predicate NodeOk(n: Node, heard: set<Advert>) {
    && Live(n.seqno)
    && forall d :: d in n.table ==> Fine(n.index, n.maxPaths, d, n.table[d], heard)
  }

  predicate PacketOk(p: Packet) {
    match p
    case Rerr(_, unreachable) => forall d :: d in unreachable ==> Dead(unreachable[d])
    case Rreq(q) => Live(q.srcSeqno)
    case Rrep(r) => Live(r.dstSeqno)
    case Hello(r) => Live(r.dstSeqno) && r.dst == r.saddr
  }

  /** All advertisements of one node about one destination and sequence number agree. */
  predicate Consistent(heard: set<Advert>) {
    forall a, b :: a in heard && b in heard && a.who == b.who && a.dst == b.dst && a.seqno == b.seqno ==>
      a.hops == b.hops
  }

  predicate Inv(s: Sys) {
    var heard := Adverts(s.net);
    && (forall i :: i in s.nodes ==> s.nodes[i].index == i && NodeOk(s.nodes[i], heard))
    && (forall p :: p in s.net ==> PacketOk(p))
    && (forall a :: a in heard ==> a.who in s.nodes && StandsBy(s.nodes[a.who], a))
    && Consistent(heard)
  }

  // ---------- one node's step ----------

  /** Freshness never goes back, and within one sequence number the advertised hops are written once. */
  predicate Advances(e: Entry, e': Entry) {
    || e.seqno < e'.seqno
    || (e.seqno == e'.seqno && (e.advertisedHops.None? || e'.advertisedHops == e.advertisedHops))
  }

  predicate NodeAdvances(n: Node, n': Node) {
    && n'.index == n.index && n.seqno <= n'.seqno && n'.maxPaths == n.maxPaths
    && forall d :: d in n.table ==> d in n'.table && Advances(n.table[d], n'.table[d])
  }

  /** What a node puts on the air is well formed and a promise it stands by. */
  predicate Speaks(n: Node, out: seq<Packet>) {
    forall k :: 0 <= k < |out| ==>
      PacketOk(out[k]) && (!out[k].Rerr? ==> AdvertOf(out[k]).who == n.index && Says(n, AdvertOf(out[k])))
  }

  predicate GoodStep(n: Node, n': Node, out: seq<Packet>, heard: set<Advert>) {
    NodeOk(n', heard) && NodeAdvances(n, n') && Speaks(n', out)
  }

  lemma InsertOk(index: Addr, maxPaths: int, d: Addr, e: Entry, p: Path, heard: set<Advert>)
    requires Fine(index, maxPaths, d, e, heard) && e.flags.Up?
    requires |e.paths| < maxPaths && NewDisjointPath(e.paths, p.nexthop, p.lasthop)
    requires p.hopcount >= 1 && Advert(p.nexthop, d, e.seqno, p.hopcount - 1) in heard
    requires e.advertisedHops.None? || p.hopcount <= e.advertisedHops.value
    ensures Fine(index, maxPaths, d, PathInsert(e, p), heard)
  {
  }

  lemma RenewOk(index: Addr, maxPaths: int, d: Addr, e: Entry, q: nat, p: Path, heard: set<Advert>)
    requires e.dst == d && Dead(e.highestSeqnoHeard) && d != index && Live(q)
    requires p.hopcount >= 1 && Advert(p.nexthop, d, q, p.hopcount - 1) in heard
    ensures Fine(index, maxPaths, d, Renew(e, q, p), heard)
  {
  }

  lemma ExtendOk(index: Addr, maxPaths: int, d: Addr, e: Entry, i: nat, p: Path, heard: set<Advert>)
    requires Fine(index, maxPaths, d, e, heard) && i < |e.paths|
    requires p.nexthop == e.paths[i].nexthop && p.lasthop == e.paths[i].lasthop && p.hopcount == e.paths[i].hopcount
    ensures Fine(index, maxPaths, d, e.(paths := e.paths[i := p]), heard)
  {
  }

  lemma AdvertiseOk(index: Addr, maxPaths: int, d: Addr, e: Entry, heard: set<Advert>)
    requires Fine(index, maxPaths, d, e, heard) && e.flags.Up?
    ensures var e' := Advertise(e);
      && Fine(index, maxPaths, d, e', heard) && Fine(index, maxPaths, d, e'.(error := true), heard)
      && Advances(e, e') && e'.advertisedHops.Some? && e'.seqno == e.seqno && e'.flags.Up? && d != index
  {
    assert e.paths[0].hopcount > 0;
  }

  /** Only the route itself matters, not the bookkeeping of requests and errors. */
  lemma SameRouteOk(index: Addr, maxPaths: int, d: Addr, e: Entry, e': Entry, heard: set<Advert>)
    requires Fine(index, maxPaths, d, e, heard)
    requires e'.dst == e.dst && e'.seqno == e.seqno && e'.advertisedHops == e.advertisedHops && e'.paths == e.paths
    requires e'.highestSeqnoHeard == e.highestSeqnoHeard && e'.flags == e.flags
    ensures Fine(index, maxPaths, d, e', heard)
  {
  }

  lemma NewEntryOk(index: Addr, maxPaths: int, d: Addr, heard: set<Advert>)
    ensures Fine(index, maxPaths, d, NewEntry(d), heard)
  {
  }

  lemma ShrinkOk(index: Addr, maxPaths: int, d: Addr, e: Entry, ps: seq<Path>, from: seq<nat>, heard: set<Advert>)
    requires Fine(index, maxPaths, d, e, heard) && ps != [] && |from| == |ps| <= |e.paths|
    requires forall k :: 0 <= k < |from| ==> from[k] < |e.paths| && ps[k] == e.paths[from[k]]
    requires forall j, k :: 0 <= j < k < |from| ==> from[j] < from[k]
    ensures Fine(index, maxPaths, d, e.(paths := ps), heard)
  {
    forall i, j | 0 <= i < j < |ps| ensures ps[i].nexthop != ps[j].nexthop && ps[i].lasthop != ps[j].lasthop {
      assert from[i] < from[j];
    }
  }

  /** The positions of the paths that are left after the one through a neighbour is gone. */
  lemma DeletedFrom(ps: seq<Path>, id: Addr) returns (from: seq<nat>)
    ensures |from| == |PathDelete(ps, id)| <= |ps|
    ensures forall k :: 0 <= k < |from| ==> from[k] < |ps| && PathDelete(ps, id)[k] == ps[from[k]]
    ensures forall j, k :: 0 <= j < k < |from| ==> from[j] < from[k]
  {
    hide PathLookup;
    var i, left := PathLookup(ps, id), PathDelete(ps, id);
    from := seq(|left|, k => if k < i then k else k + 1);
  }

  lemma DeleteOk(index: Addr, maxPaths: int, d: Addr, e: Entry, id: Addr, heard: set<Advert>)
    requires Fine(index, maxPaths, d, e, heard) && PathDelete(e.paths, id) != []
    ensures Fine(index, maxPaths, d, e.(paths := PathDelete(e.paths, id)), heard)
  {
    hide Fine, PathDelete;
    var from := DeletedFrom(e.paths, id);
    ShrinkOk(index, maxPaths, d, e, PathDelete(e.paths, id), from, heard);
  }

  lemma {:induction false} UnexpiredFrom(ps: seq<Path>, now: real) returns (from: seq<nat>)
    ensures |from| == |Unexpired(ps, now)| <= |ps|
    ensures forall k :: 0 <= k < |from| ==> from[k] < |ps| && Unexpired(ps, now)[k] == ps[from[k]]
    ensures forall j, k :: 0 <= j < k < |from| ==> from[j] < from[k]
  {
    hide Unexpired;
    from := [];
    if ps == [] {
      UnexpiredNone(now);
    } else {
      var n := |ps| - 1;
      from := UnexpiredFrom(ps[..n], now);
      UnexpiredSnoc(ps, now);
      Selected(ps, from, Unexpired(ps[..n], now));
      if ps[n].expire >= now { from := from + [n]; }
    }
  }

  lemma Selected(ps: seq<Path>, from: seq<nat>, kept: seq<Path>)
    requires ps != [] && |from| == |kept|
    requires forall k :: 0 <= k < |from| ==> from[k] < |ps[..|ps| - 1]| && kept[k] == ps[..|ps| - 1][from[k]]
    ensures forall k :: 0 <= k < |from| ==> from[k] < |ps| - 1 && kept[k] == ps[from[k]]
  {
  }

  lemma UnexpiredNone(now: real)
    ensures Unexpired([], now) == []
  {
  }

  lemma UnexpiredSnoc(ps: seq<Path>, now: real)
    requires ps != []
    ensures var n := |ps| - 1;
      var kept := Unexpired(ps[..n], now);
      Unexpired(ps, now) == if ps[n].expire >= now then kept + [ps[n]] else kept
  {
  }

  lemma LinkFailureOk(index: Addr, maxPaths: int, d: Addr, e: Entry, id: Addr, heard: set<Advert>)
    requires Fine(index, maxPaths, d, e, heard)
    ensures var (e', rep) := LinkFailure(e, id);
      Fine(index, maxPaths, d, e', heard) && Advances(e, e') && (rep.Some? ==> Dead(rep.value))
  {
    if e.flags.Up? && PathDelete(e.paths, id) != [] { DeleteOk(index, maxPaths, d, e, id, heard); }
  }

  lemma ErrorHeardOk(index: Addr, maxPaths: int, d: Addr, e: Entry, via: Addr, u: nat, heard: set<Advert>)
    requires Fine(index, maxPaths, d, e, heard) && Dead(u)
    ensures var (e', rep) := ErrorHeard(e, via, u);
      Fine(index, maxPaths, d, e', heard) && Advances(e, e') && (rep.Some? ==> Dead(rep.value))
  {
    if e.flags.Up? && PathDelete(e.paths, via) != [] { DeleteOk(index, maxPaths, d, e, via, heard); }
  }

  lemma PurgeOk(index: Addr, maxPaths: int, d: Addr, e: Entry, now: real, heard: set<Advert>)
    requires Fine(index, maxPaths, d, e, heard)
    ensures Fine(index, maxPaths, d, Purge(e, now), heard) && Advances(e, Purge(e, now))
  {
    var from := UnexpiredFrom(e.paths, now);
    if Unexpired(e.paths, now) != [] { ShrinkOk(index, maxPaths, d, e, Unexpired(e.paths, now), from, heard); }
  }

  lemma UpdateReverseOk(n: Node, e: Entry, q: Request, now: real, heard: set<Advert>)
    requires Fine(n.index, n.maxPaths, q.src, e, heard)
    requires q.src != n.index && Live(q.srcSeqno) && AdvertOf(Rreq(q)) in heard
    ensures var u := UpdateReverse(n.index, n.maxPaths, n.lenDiff, e, q, now);
      && Fine(n.index, n.maxPaths, q.src, u.entry, heard) && Advances(e, u.entry)
      && (u.Keep? ==> u.entry.flags.Up? && u.entry.seqno == q.srcSeqno)
  {
    hide Distinct, MaxHopcount, MinHopcount;
    var p := Path(q.saddr, q.hopCount + 1, now + REV_ROUTE_LIFE, q.firstHop);
    if e.seqno < q.srcSeqno {
      RenewOk(n.index, n.maxPaths, q.src, e, q.srcSeqno, p, heard);
    } else if e.seqno == q.srcSeqno && (e.advertisedHops.None? || e.advertisedHops.value > q.hopCount) {
      assert e.flags.Up?;
      var known := DisjointPathLookup(e.paths, q.saddr, q.firstHop);
      if known < |e.paths| {
        ExtendOk(n.index, n.maxPaths, q.src, e, known, Extend(e.paths, known, now + REV_ROUTE_LIFE)[known], heard);
      } else if NewDisjointPath(e.paths, q.saddr, q.firstHop) && |e.paths| < n.maxPaths {
        InsertOk(n.index, n.maxPaths, q.src, e, p, heard);
      }
    }
  }

  lemma UpdateForwardOk(n: Node, e: Entry, r: Reply, now: real, heard: set<Advert>)
    requires Fine(n.index, n.maxPaths, r.dst, e, heard)
    requires r.dst != n.index && Live(r.dstSeqno) && AdvertOf(Rrep(r)) in heard
    ensures var u := UpdateForward(n.maxPaths, n.lenDiff, e, r, now);
      && Fine(n.index, n.maxPaths, r.dst, u.entry, heard) && Advances(e, u.entry)
      && (u.Keep? ==> u.entry.flags.Up? && u.entry.seqno == r.dstSeqno)
  {
    hide Distinct, MaxHopcount, MinHopcount;
    var p := Path(r.src, r.hopCount + 1, now + r.lifetime, r.firstHop);
    if e.seqno < r.dstSeqno {
      RenewOk(n.index, n.maxPaths, r.dst, e, r.dstSeqno, p, heard);
    } else if e.seqno == r.dstSeqno && (e.advertisedHops.None? || e.advertisedHops.value > r.hopCount) {
      assert e.flags.Up?;
      var known := DisjointPathLookup(e.paths, r.src, r.firstHop);
      if known < |e.paths| {
        ExtendOk(n.index, n.maxPaths, r.dst, e, known, Extend(e.paths, known, now + r.lifetime)[known], heard);
      } else if NewDisjointPath(e.paths, r.src, r.firstHop) && |e.paths| < n.maxPaths {
        InsertOk(n.index, n.maxPaths, r.dst, e, p, heard);
      }
    }
  }

  lemma FineUp(index: Addr, maxPaths: int, d: Addr, e: Entry, heard: set<Advert>)
    requires Fine(index, maxPaths, d, e, heard) && e.flags.Up?
    ensures e.paths != [] && Live(e.seqno) && d != index
  {
  }

  /** Replacing one entry by a fine one that is no less fresh. */
  lemma PutOk(n: Node, n': Node, d: Addr, e: Entry, heard: set<Advert>)
    requires NodeOk(n, heard) && Fine(n.index, n.maxPaths, d, e, heard)
    requires d in n.table ==> Advances(n.table[d], e)
    requires n'.index == n.index && n'.maxPaths == n.maxPaths && n'.table == n.table[d := e]
    requires n'.seqno >= n.seqno && Live(n'.seqno)
    ensures NodeOk(n', heard) && NodeAdvances(n, n')
  {
  }

  lemma AnswerRequestOk(n: Node, q: Request, now: real, seen: bool, route: bool, heard: set<Advert>)
    requires NodeOk(n, heard) && q.src in n.table && (q.src, q.bcastId) in n.bcache && q.src != n.index
    requires n.table[q.src].flags.Up? && n.table[q.src].seqno == q.srcSeqno && Live(q.srcSeqno)
    ensures var (n', out) := AnswerRequest(n, q, now, seen, route); GoodStep(n, n', out, heard)
  {
    hide Fine;
    var (n', out) := AnswerRequest(n, q, now, seen, route);
    if q.dst == n.index {
    } else if q.dst in n.table && n.table[q.dst].flags.Up? && n.table[q.dst].seqno >= q.dstSeqno {
      FineUp(n.index, n.maxPaths, q.dst, n.table[q.dst], heard);
      AdvertiseOk(n.index, n.maxPaths, q.dst, n.table[q.dst], heard);
      PutOk(n, n', q.dst, n'.table[q.dst], heard);
    } else {
      AdvertiseOk(n.index, n.maxPaths, q.src, n.table[q.src], heard);
      PutOk(n, n', q.src, n'.table[q.src], heard);
    }
  }

  lemma RefreshOk(n: Node, d: Addr, now: real, heard: set<Advert>)
    requires NodeOk(n, heard) && d in n.table && n.table[d].flags.Up?
    ensures var n' := n.(table := n.table[d := n.table[d].(paths := Refresh(n.table[d].paths, 0, now))]);
      NodeOk(n', heard) && NodeAdvances(n, n')
  {
    hide Fine;
    var back := n.table[d];
    FineUp(n.index, n.maxPaths, d, back, heard);
    ExtendOk(n.index, n.maxPaths, d, back, 0, back.paths[0].(expire := now), heard);
    PutOk(n, n.(table := n.table[d := back.(paths := Refresh(back.paths, 0, now))]),
      d, back.(paths := Refresh(back.paths, 0, now)), heard);
  }

  lemma ForwardReplyOk(n: Node, r: Reply, now: real, heard: set<Advert>)
    requires NodeOk(n, heard) && r.dst in n.table && r.dst != n.index
    requires n.table[r.dst].flags.Up? && n.table[r.dst].seqno == r.dstSeqno
    ensures var (n', out) := ForwardReply(n, r, now); GoodStep(n, n', out, heard)
  {
    hide Fine;
    FineUp(n.index, n.maxPaths, r.dst, n.table[r.dst], heard);
    AdvertiseOk(n.index, n.maxPaths, r.dst, n.table[r.dst], heard);
    var key := (r.daddr, r.bcastId);
    if r.daddr in n.table && n.table[r.daddr].flags.Up? && key in n.bcache && n.bcache[key].count == 0 {
      var e := Advertise(n.table[r.dst]).(error := true);
      var n1 := n.(bcache := n.bcache[key := n.bcache[key].(count := 1)], table := n.table[r.dst := e]);
      PutOk(n, n1, r.dst, e, heard);
      RefreshOk(n1, r.daddr, now + ACTIVE_ROUTE_TIMEOUT, heard);
    }
  }

  /** The entry for d, new or old, is in order and has not gone back. */
  lemma WithEntryOk(n: Node, d: Addr, heard: set<Advert>)
    requires NodeOk(n, heard)
    ensures Fine(n.index, n.maxPaths, d, WithEntry(n.table, d)[d], heard)
    ensures d in n.table ==> WithEntry(n.table, d)[d] == n.table[d]
  {
    hide Fine;
    NewEntryOk(n.index, n.maxPaths, d, heard);
  }

  lemma ThenOk(n: Node, n1: Node, n': Node, out: seq<Packet>, heard: set<Advert>)
    requires NodeAdvances(n, n1) && GoodStep(n1, n', out, heard)
    ensures GoodStep(n, n', out, heard)
  {
    hide Fine;
  }

  lemma SilentOk(n: Node, n': Node, heard: set<Advert>)
    requires NodeOk(n', heard) && NodeAdvances(n, n')
    ensures GoodStep(n, n', [], heard)
  {
  }

  lemma SameOk(n: Node, heard: set<Advert>)
    requires NodeOk(n, heard)
    ensures GoodStep(n, n, [], heard) && Live(n.seqno)
  {
  }

  /** The first half of a request leaves a sound node, and a live reverse route if the request is kept. */
  lemma RecordReverseOk(n: Node, n0: Node, q: Request, now: real, heard: set<Advert>)
    requires NodeOk(n, heard) && Live(q.srcSeqno) && AdvertOf(Rreq(q)) in heard && q.src != n.index
    requires n0 == n.(bcache := n0.bcache)
    ensures var (n1, upd) := RecordReverse(n0, q, now);
      && NodeOk(n1, heard) && NodeAdvances(n, n1) && n1.index == n.index
      && (upd.Keep? ==> n1.table[q.src].flags.Up? && n1.table[q.src].seqno == q.srcSeqno)
  {
    hide Fine, UpdateReverse, NodeOk, NodeAdvances, Advances;
    WithEntryOk(n, q.src, heard);
    var table := WithEntry(n.table, q.src);
    UpdateReverseOk(n, table[q.src], q, now, heard);
    var upd := UpdateReverse(n.index, n.maxPaths, n.lenDiff, table[q.src], q, now);
    var e := if upd.Drop? then upd.entry else ResetRequests(upd.entry);
    SameRouteOk(n.index, n.maxPaths, q.src, upd.entry, ResetRequests(upd.entry), heard);
    AdvancesTrans(table[q.src], upd.entry, e);
    SameOk(n, heard);
    PutOk(n, RecordReverse(n0, q, now).0, q.src, e, heard);
  }

  lemma RecvRequestOk(n: Node, p: Request, now: real, heard: set<Advert>)
    requires NodeOk(n, heard) && PacketOk(Rreq(p)) && AdvertOf(Rreq(p)) in heard
    ensures var (n', out) := RecvRequest(n, p, now); GoodStep(n, n', out, heard)
  {
    hide RecordReverse, AnswerRequest, NodeOk, NodeAdvances, GoodStep;
    SameOk(n, heard);
    if p.src != n.index {
      var q := if p.hopCount == 0 then p.(firstHop := n.index) else p;
      var key := (p.src, p.bcastId);
      var seen := key in n.bcache;
      var n0 := n.(bcache := if seen then n.bcache else n.bcache[key := Bcast(now + BCAST_ID_SAVE, 0)]);
      RecordReverseOk(n, n0, q, now, heard);
      var (n1, upd) := RecordReverse(n0, q, now);
      if upd.Keep? {
        AnswerRequestOk(n1, q, now, seen, upd.route, heard);
        var (n', out) := AnswerRequest(n1, q, now, seen, upd.route);
        ThenOk(n, n1, n', out, heard);
      } else {
        SilentOk(n, n1, heard);
      }
    }
  }

  lemma AdvancesTrans(a: Entry, b: Entry, c: Entry)
    requires Advances(a, b) && Advances(b, c)
    ensures Advances(a, c) && Advances(a, a)
  {
  }

  lemma RecvReplyOk(n: Node, r: Reply, now: real, heard: set<Advert>)
    requires NodeOk(n, heard) && PacketOk(Rrep(r)) && AdvertOf(Rrep(r)) in heard
    ensures var (n', out) := RecvReply(n, r, now); GoodStep(n, n', out, heard)
  {
    hide Fine, UpdateForward, ForwardReply;
    if r.dst != n.index {
      NewEntryOk(n.index, n.maxPaths, r.dst, heard);
      var table := WithEntry(n.table, r.dst);
      UpdateForwardOk(n, table[r.dst], r, now, heard);
      var upd := UpdateForward(n.maxPaths, n.lenDiff, table[r.dst], r, now);
      var e := if upd.Drop? then upd.entry else ResetRequests(upd.entry);
      SameRouteOk(n.index, n.maxPaths, r.dst, upd.entry, ResetRequests(upd.entry), heard);
      var n1 := n.(table := table[r.dst := e]);
      PutOk(n, n1, r.dst, e, heard);
      if upd.Keep? && r.daddr != n.index { ForwardReplyOk(n1, r, now, heard); }
    }
  }

  lemma RecvErrorOk(n: Node, saddr: Addr, unreachable: map<Addr, nat>, heard: set<Advert>)
    requires NodeOk(n, heard) && PacketOk(Rerr(saddr, unreachable))
    ensures var (n', out) := RecvError(n, saddr, unreachable); GoodStep(n, n', out, heard)
  {
    hide Fine, ErrorHeard;
    forall d | d in n.table && d in unreachable
      ensures var (e', rep) := ErrorHeard(n.table[d], saddr, unreachable[d]);
        Fine(n.index, n.maxPaths, d, e', heard) && Advances(n.table[d], e') && (rep.Some? ==> Dead(rep.value))
    {
      ErrorHeardOk(n.index, n.maxPaths, d, n.table[d], saddr, unreachable[d], heard);
    }
  }

  lemma NbDeleteOk(n: Node, id: Addr, heard: set<Advert>)
    requires NodeOk(n, heard)
    ensures var (n', out) := NbDelete(n, id); GoodStep(n, n', out, heard)
  {
    hide Fine, LinkFailure;
    forall d | d in n.table
      ensures var (e', rep) := LinkFailure(n.table[d], id);
        Fine(n.index, n.maxPaths, d, e', heard) && Advances(n.table[d], e') && (rep.Some? ==> Dead(rep.value))
    {
      LinkFailureOk(n.index, n.maxPaths, d, n.table[d], id, heard);
    }
  }

  lemma RtPurgeOk(n: Node, now: real, heard: set<Advert>)
    requires NodeOk(n, heard)
    ensures GoodStep(n, RtPurge(n, now), [], heard)
  {
    hide Fine, Purge;
    forall d | d in n.table
      ensures Fine(n.index, n.maxPaths, d, Purge(n.table[d], now), heard)
        && Advances(n.table[d], Purge(n.table[d], now))
    {
      PurgeOk(n.index, n.maxPaths, d, n.table[d], now, heard);
    }
  }

  lemma SendRequestOk(n: Node, d: Addr, now: real, heard: set<Advert>)
    requires NodeOk(n, heard) && d in n.table
    ensures var (n', out) := SendRequest(n, d, now); GoodStep(n, n', out, heard)
  {
    hide Fine;
    var n' := SendRequest(n, d, now).0;
    SameRouteOk(n.index, n.maxPaths, d, n.table[d], n'.table[d], heard);
    PutOk(n, n', d, n'.table[d], heard);
  }

  lemma UseRouteOk(index: Addr, maxPaths: int, d: Addr, e: Entry, own: bool, now: real, heard: set<Advert>)
    requires Fine(index, maxPaths, d, e, heard) && e.flags.Up?
    ensures Fine(index, maxPaths, d, UseRoute(e, own, now), heard)
  {
    ExtendOk(index, maxPaths, d, e, 0, e.paths[0].(expire := now + ACTIVE_ROUTE_TIMEOUT), heard);
  }

  lemma RtResolveOk(n: Node, saddr: Addr, d: Addr, now: real, heard: set<Advert>)
    requires NodeOk(n, heard)
    ensures var (n', out) := RtResolve(n, saddr, d, now); GoodStep(n, n', out, heard)
  {
    hide Fine, NodeOk, NodeAdvances, GoodStep, Advances, SendRequest, UseRoute;
    SameOk(n, heard);
    WithEntryOk(n, d, heard);
    var n1 := n.(table := WithEntry(n.table, d));
    var e := n1.table[d];
    AdvancesSame(e);
    PutOk(n, n1, d, e, heard);
    var (n', out) := RtResolve(n, saddr, d, now);
    if e.flags.Up? {
      UseRouteOk(n.index, n.maxPaths, d, e, saddr == n.index, now, heard);
      FineUp(n.index, n.maxPaths, d, e, heard);
      UseRouteAdvances(e, saddr == n.index, now);
      PutOk(n, n', d, UseRoute(e, saddr == n.index, now), heard);
      SilentOk(n, n', heard);
    } else if saddr == n.index {
      SendRequestOk(n1, d, now, heard);
      ThenOk(n, n1, n', out, heard);
    } else {
      UnknownOk(n, n1, d, e, out, heard);
    }
  }

  lemma AdvancesSame(e: Entry)
    ensures Advances(e, e)
  {
  }

  lemma UseRouteAdvances(e: Entry, own: bool, now: real)
    requires e.flags.Up? && e.paths != []
    ensures Advances(e, UseRoute(e, own, now))
  {
  }

  lemma UnknownOk(n: Node, n1: Node, d: Addr, e: Entry, out: seq<Packet>, heard: set<Advert>)
    requires NodeOk(n1, heard) && NodeAdvances(n, n1) && Fine(n.index, n.maxPaths, d, e, heard) && !e.flags.Up?
    requires out == [] || out == [Rerr(n.index, map[d := e.seqno])]
    ensures GoodStep(n, n1, out, heard)
  {
    assert Dead(e.seqno);
  }

  lemma RecvHelloOk(n: Node, r: Reply, now: real, heard: set<Advert>)
    requires NodeOk(n, heard) && PacketOk(Hello(r)) && AdvertOf(Hello(r)) in heard
    ensures var (n', out) := RecvHello(n, r, now); GoodStep(n, n', out, heard)
  {
    hide Fine, RecvReply;
    var life := if r.dst in n.nbs then 1.5 * ALLOWED_HELLO_LOSS * HELLO_INTERVAL
                else HELLO_INTERVAL * ALLOWED_HELLO_LOSS;
    RecvReplyOk(n.(nbs := n.nbs[r.dst := now + life]), r.(daddr := n.index, src := r.saddr, firstHop := n.index),
      now, heard);
  }

  lemma ReactOk(n: Node, e: Event, now: real, heard: set<Advert>)
    requires NodeOk(n, heard) && !e.Tick?
    requires e.Request? ==> e.dst in n.table
    requires e.Deliver? ==> PacketOk(e.p) && (!e.p.Rerr? ==> AdvertOf(e.p) in heard)
    ensures var (n', out) := React(n, e, now); GoodStep(n, n', out, heard)
  {
    hide Fine, RecvReply, RecvRequest, RecvHello, RecvError, SendRequest, RtResolve, NbDelete, RtPurge;
    match e
    case Deliver(_, Rreq(q)) => RecvRequestOk(n, q.(ttl := q.ttl - 1), now, heard);
    case Deliver(_, Rrep(r)) => RecvReplyOk(n, r.(ttl := r.ttl - 1), now, heard);
    case Deliver(_, Rerr(saddr, unreachable)) => RecvErrorOk(n, saddr, unreachable, heard);
    case Deliver(_, Hello(r)) => RecvHelloOk(n, r.(ttl := r.ttl - 1), now, heard);
    case Resolve(_, saddr, dst) => RtResolveOk(n, saddr, dst, now, heard);
    case Request(_, dst) => SendRequestOk(n, dst, now, heard);
    case HelloTick(_) =>
    case NbLoss(_, id) => NbDeleteOk(n, id, heard);
    case RouteTick(_) => RtPurgeOk(n, now, heard);
    case BcastTick(_) =>
  }

  // ---------- the whole network ----------

  lemma StandsByStable(n: Node, n': Node, a: Advert)
    requires NodeAdvances(n, n') && StandsBy(n, a)
    ensures StandsBy(n', a)
  {
  }

  lemma SaysStandsBy(n: Node, a: Advert)
    requires Says(n, a)
    ensures StandsBy(n, a)
  {
  }

  /** A node cannot stand by two different hop counts for one destination and sequence number. */
  lemma SameWord(n: Node, a: Advert, b: Advert)
    requires Says(n, a) && StandsBy(n, b) && a.dst == b.dst && a.seqno == b.seqno
    ensures a.hops == b.hops
  {
  }

  lemma MoreHeard(n: Node, heard: set<Advert>, more: set<Advert>)
    requires NodeOk(n, heard) && heard <= more
    ensures NodeOk(n, more)
  {
  }

  lemma StepOk(s: Sys, e: Event)
    requires Inv(s) && Enabled(s, e)
    ensures Inv(Step(s, e))
  {
    hide NodeOk, StandsBy, Says, PacketOk, React, Advances;
    if !e.Tick? {
      var heard := Adverts(s.net);
      var n := s.nodes[e.at];
      assert e.Deliver? && !e.p.Rerr? ==> AdvertOf(e.p) in heard;
      ReactOk(n, e, s.now, heard);
      var (n', out) := React(n, e, s.now);
      var s' := Step(s, e);
      var heard' := Adverts(s'.net);
      assert heard <= heard';
      forall i | i in s'.nodes ensures s'.nodes[i].index == i && NodeOk(s'.nodes[i], heard') {
        MoreHeard(s'.nodes[i], heard, heard');
      }
      forall a | a in heard ensures a.who in s'.nodes && StandsBy(s'.nodes[a.who], a) {
        if a.who == e.at { StandsByStable(n, n', a); }
      }
      forall a | a in heard' && a !in heard ensures a.who == e.at && Says(n', a) && StandsBy(n', a) {
        var p :| p in s'.net && !p.Rerr? && AdvertOf(p) == a;
        SaysStandsBy(n', a);
      }
      forall a, b | a in heard' && b in heard' && a.who == b.who && a.dst == b.dst && a.seqno == b.seqno
        ensures a.hops == b.hops
      {
        if a !in heard { SameWord(n', a, b); } else if b !in heard { SameWord(n', b, a); }
      }
    }
  }

  lemma InitialOk(s: Sys)
    requires Initial(s)
    ensures Inv(s)
  {
    assert Adverts(s.net) == {};
  }

  lemma {:induction false} RunOk(run: seq<Sys>, k: nat)
    requires IsRun(run) && k < |run|
    ensures Inv(run[k])
  {
    if k == 0 {
      InitialOk(run[0]);
    } else {
      RunOk(run, k - 1);
      assert Next(run[k - 1], run[k]);
      var e :| Enabled(run[k - 1], e) && run[k] == Step(run[k - 1], e);
      StepOk(run[k - 1], e);
    }
  }

  // ---------- loop freedom ----------

  /** Node i holds a path to d whose next hop is j. */
  predicate Edge(s: Sys, d: Addr, i: Addr, j: Addr) {
    && i in s.nodes && d in s.nodes[i].table
    && var ps := s.nodes[i].table[d].paths;
       exists k :: 0 <= k < |ps| && ps[k].nexthop == j
  }

  /** A walk along next hops towards d, through any of the stored paths. */
  predicate Walk(s: Sys, d: Addr, w: seq<Addr>) {
    |w| > 0 && forall k :: 0 <= k < |w| - 1 ==> Edge(s, d, w[k], w[k + 1])
  }

  /** The rank of node j as a relay towards d is below that of node i: j knows a newer
      sequence number, or the same one with strictly fewer advertised hops. */
  predicate Below(s: Sys, d: Addr, j: Addr, i: Addr)
    requires i in s.nodes && j in s.nodes && d in s.nodes[i].table && d in s.nodes[j].table
  {
    var e, f := s.nodes[i].table[d], s.nodes[j].table[d];
    || f.seqno > e.seqno
    || (f.seqno == e.seqno && f.advertisedHops.Some?
        && (e.advertisedHops.Some? ==> f.advertisedHops.value < e.advertisedHops.value))
  }

  lemma EdgeDescends(s: Sys, d: Addr, i: Addr, j: Addr)
    requires Inv(s) && Edge(s, d, i, j) && j != d
    ensures i != d && j in s.nodes && d in s.nodes[j].table && Below(s, d, j, i)
  {
    var e := s.nodes[i].table[d];
    assert Fine(s.nodes[i].index, s.nodes[i].maxPaths, d, e, Adverts(s.net));
    var k :| 0 <= k < |e.paths| && e.paths[k].nexthop == j;
    var a := Advert(j, d, e.seqno, e.paths[k].hopcount - 1);
    assert a in Adverts(s.net);
    assert StandsBy(s.nodes[j], a);
  }

  lemma {:induction false} WalkDescends(s: Sys, d: Addr, w: seq<Addr>)
    requires Inv(s) && Walk(s, d, w) && |w| >= 2 && w[|w| - 1] != d
    ensures w[0] in s.nodes && d in s.nodes[w[0]].table
    ensures w[|w| - 1] in s.nodes && d in s.nodes[w[|w| - 1]].table
    ensures Below(s, d, w[|w| - 1], w[0])
  {
    hide Inv;
    var m := |w| - 1;
    assert Edge(s, d, w[m - 1], w[m]);
    EdgeDescends(s, d, w[m - 1], w[m]);
    if m >= 2 {
      assert w[..m][m - 1] == w[m - 1];
      WalkDescends(s, d, w[..m]);
    }
  }

  /** Loop freedom in every reachable state: whatever paths are followed towards d,
      no node is met twice. */
  lemma LoopFreedom(run: seq<Sys>, k: nat, d: Addr, w: seq<Addr>)
    requires IsRun(run) && k < |run| && Walk(run[k], d, w)
    ensures forall a, b :: 0 <= a < b < |w| ==> w[a] != w[b]
  {
    hide Inv, IsRun;
    RunOk(run, k);
    var s := run[k];
    forall a, b | 0 <= a < b < |w| ensures w[a] != w[b] {
      if w[b] == d {
        assert Edge(s, d, w[a], w[a + 1]);
        NoEdgeAtDestination(s, d, w[a + 1]);
      } else {
        var v := w[a..b + 1];
        forall x | 0 <= x < |v| - 1 ensures Edge(s, d, v[x], v[x + 1]) {
          assert Edge(s, d, w[a + x], w[a + x + 1]);
        }
        WalkDescends(s, d, v);
      }
    }
  }

  lemma NoEdgeAtDestination(s: Sys, d: Addr, j: Addr)
    requires Inv(s)
    ensures !Edge(s, d, d, j)
  {
    if d in s.nodes && d in s.nodes[d].table {
      assert Fine(d, s.nodes[d].maxPaths, d, s.nodes[d].table[d], Adverts(s.net));
    }
  }

  // ---------- the other promises of the table and the messages ----------

  /** Every entry of every reachable state: disjoint paths, within the limit, present exactly when the entry is up. */
  lemma PathTables(run: seq<Sys>, k: nat, i: Addr, d: Addr)
    requires IsRun(run) && k < |run| && i in run[k].nodes && d in run[k].nodes[i].table
    ensures var n := run[k].nodes[i]; var e := n.table[d];
      && (e.flags.Up? <==> e.paths != [])
      && (e.flags.Up? || e.flags.Down?)
      && (|e.paths| <= 1 || |e.paths| <= n.maxPaths)
      && (forall a, b :: 0 <= a < b < |e.paths| ==>
            e.paths[a].nexthop != e.paths[b].nexthop && e.paths[a].lasthop != e.paths[b].lasthop)
      && (e.advertisedHops.Some? ==> forall a :: 0 <= a < |e.paths| ==> e.paths[a].hopcount <= e.advertisedHops.value)
  {
    RunOk(run, k);
    assert Fine(i, run[k].nodes[i].maxPaths, d, run[k].nodes[i].table[d], Adverts(run[k].net));
  }

  /** All packets ever sent by one node about one destination and sequence number carry one hop count. */
  lemma OneHopCount(run: seq<Sys>, k: nat, p: Packet, q: Packet)
    requires IsRun(run) && k < |run| && p in run[k].net && q in run[k].net && !p.Rerr? && !q.Rerr?
    requires var a, b := AdvertOf(p), AdvertOf(q); a.who == b.who && a.dst == b.dst && a.seqno == b.seqno
    ensures AdvertOf(p).hops == AdvertOf(q).hops
  {
    RunOk(run, k);
    assert AdvertOf(p) in Adverts(run[k].net) && AdvertOf(q) in Adverts(run[k].net);
  }

  /** Along a run no entry loses freshness, and the advertised hops of one sequence number are written once. */
  lemma {:induction false} WriteOnce(run: seq<Sys>, j: nat, k: nat, i: Addr, d: Addr)
    requires IsRun(run) && j <= k < |run| && i in run[j].nodes && d in run[j].nodes[i].table
    ensures i in run[k].nodes && d in run[k].nodes[i].table
    ensures Advances(run[j].nodes[i].table[d], run[k].nodes[i].table[d])
    decreases k - j
  {
    hide Inv, React;
    if j < k {
      WriteOnce(run, j, k - 1, i, d);
      RunOk(run, k - 1);
      var s := run[k - 1];
      assert Next(s, run[k]);
      var e :| Enabled(s, e) && run[k] == Step(s, e);
      if !e.Tick? && e.at == i { NodeStepAdvances(s, e); }
    }
  }

  lemma NodeStepAdvances(s: Sys, e: Event)
    requires Inv(s) && Enabled(s, e) && !e.Tick?
    ensures NodeAdvances(s.nodes[e.at], React(s.nodes[e.at], e, s.now).0)
  {
    hide NodeOk, React, PacketOk;
    assert e.Deliver? && !e.p.Rerr? ==> AdvertOf(e.p) in Adverts(s.net);
    ReactOk(s.nodes[e.at], e, s.now, Adverts(s.net));
  }

  /** What the code asserts when node n handles event e. */
  predicate Asserts(n: Node, e: Event) {
    match e
    case Deliver(_, Rreq(q)) =>
      q.src != n.index ==>
        && UpdateAsserts(WithEntry(n.table, q.src)[q.src], q.srcSeqno, q.saddr, q.hopCount,
                         if q.hopCount == 0 then n.index else q.firstHop)
        && (q.dst in n.table && n.table[q.dst].flags.Up? ==> n.table[q.dst].seqno % 2 == 0)
    case Deliver(_, Rrep(r)) =>
      r.dst != n.index ==> UpdateAsserts(WithEntry(n.table, r.dst)[r.dst], r.dstSeqno, r.src, r.hopCount, r.firstHop)
    case Deliver(_, Hello(r)) =>
      r.dst != n.index ==> UpdateAsserts(WithEntry(n.table, r.dst)[r.dst], r.dstSeqno, r.saddr, r.hopCount, n.index)
    case Deliver(_, Rerr(_, _)) => forall d :: d in n.table && n.table[d].flags.Up? ==> n.table[d].seqno % 2 == 0
    case NbLoss(_, _) =>
      (n.seqno + 2) % 2 == 0 && forall d :: d in n.table && n.table[d].flags.Up? ==> n.table[d].seqno % 2 == 0
    case Resolve(_, _, d) =>
      var f := WithEntry(n.table, d)[d].flags; f.Up? || f.Down?
    case Request(_, _) => n.seqno % 2 == 0
    case _ => true
  }

  lemma UpdateAssertsHold(n: Node, a: Advert, lasthop: Addr, heard: set<Advert>)
    requires NodeOk(n, heard) && a in heard && Consistent(heard) && Live(a.seqno)
    ensures UpdateAsserts(WithEntry(n.table, a.dst)[a.dst], a.seqno, a.who, a.hops, lasthop)
  {
    NewEntryOk(n.index, n.maxPaths, a.dst, heard);
    var e := WithEntry(n.table, a.dst)[a.dst];
    assert Fine(n.index, n.maxPaths, a.dst, e, heard);
    var known := DisjointPathLookup(e.paths, a.who, lasthop);
    if e.seqno == a.seqno && known < |e.paths| {
      var b := Advert(e.paths[known].nexthop, a.dst, e.seqno, e.paths[known].hopcount - 1);
      assert b in heard;
      assert b.who == a.who;
    }
  }

  /** In no run does an assertion fail, whatever is delivered to whom and when. */
  lemma AssertionsHold(run: seq<Sys>, k: nat, e: Event)
    requires IsRun(run) && k < |run| && Enabled(run[k], e) && !e.Tick?
    ensures Asserts(run[k].nodes[e.at], e)
  {
    hide UpdateAsserts;
    RunOk(run, k);
    var s := run[k];
    var heard := Adverts(s.net);
    var n := s.nodes[e.at];
    assert forall d :: d in n.table ==> Fine(n.index, n.maxPaths, d, n.table[d], heard);
    match e
    case Deliver(_, Rreq(q)) =>
      assert AdvertOf(e.p) in heard;
      UpdateAssertsHold(n, AdvertOf(e.p), if q.hopCount == 0 then n.index else q.firstHop, heard);
    case Deliver(_, Rrep(r)) =>
      assert AdvertOf(e.p) in heard;
      UpdateAssertsHold(n, AdvertOf(e.p), r.firstHop, heard);
    case Deliver(_, Hello(r)) =>
      assert AdvertOf(e.p) in heard;
      UpdateAssertsHold(n, AdvertOf(e.p), n.index, heard);
    case Resolve(_, _, d) =>
      NewEntryOk(n.index, n.maxPaths, d, heard);
    case _ =>
  }
}
