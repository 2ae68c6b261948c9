/** The AOMDV objects as the program has them: route entries and the routing agent, updated
    in place. Every method computes what the corresponding function of the protocol says. */
module AomdvAgent {
  import opened Common
  import T = AomdvTable
  import P = AomdvProtocol

  class RtEntry {
    var dst: Addr
    var seqno: nat
    var advertisedHops: Option<nat>
    var paths: seq<T.Path>
    var numPaths: int
    var highestSeqnoHeard: nat
    var error: bool
    var flags: Flag
    var expire: real
    var lastHopCount: nat
    var reqTimeout: real
    var reqCnt: nat
    var reqLastTtl: nat

    ghost predicate Valid() reads this { numPaths == |paths| }

    ghost function View(): T.Entry reads this {
      T.Entry(dst, seqno, advertisedHops, paths, highestSeqnoHeard, error, flags, expire,
              lastHopCount, reqTimeout, reqCnt, reqLastTtl)
    }

    constructor (d: Addr)
      ensures Valid() && View() == T.NewEntry(d)
    {
      dst, seqno, advertisedHops, paths, numPaths := d, 0, None, [], 0;
      highestSeqnoHeard, error, flags, expire := 0, false, Down, 0.0;
      lastHopCount, reqTimeout, reqCnt, reqLastTtl := T.INFINITY2, 0.0, 0, 0;
    }

    method PathInsert(nexthop: Addr, hopcount: nat, until: real, lasthop: Addr)
      requires Valid()
      modifies this`paths, this`numPaths
      ensures Valid() && paths == old(paths) + [T.Path(nexthop, hopcount, until, lasthop)]
    {
      paths := paths + [T.Path(nexthop, hopcount, until, lasthop)];
      numPaths := numPaths + 1;
    }

    /** The position of the path through this next hop, or |paths| for null. */
    method PathLookup(nexthop: Addr) returns (i: nat)
      ensures i == T.PathLookup(paths, nexthop)
    {
      i := 0;
      while i < |paths|
        invariant i <= |paths|
        invariant forall j :: 0 <= j < i ==> paths[j].nexthop != nexthop
      {
        if paths[i].nexthop == nexthop { return; }
        i := i + 1;
      }
    }

    method DisjointPathLookup(nexthop: Addr, lasthop: Addr) returns (i: nat)
      ensures i == T.DisjointPathLookup(paths, nexthop, lasthop)
    {
      i := 0;
      while i < |paths|
        invariant i <= |paths|
        invariant forall j :: 0 <= j < i ==> !(paths[j].nexthop == nexthop && paths[j].lasthop == lasthop)
      {
        if paths[i].nexthop == nexthop && paths[i].lasthop == lasthop { return; }
        i := i + 1;
      }
    }

    method PathLookupLasthop(lasthop: Addr) returns (i: nat)
      ensures i == T.PathLookupLasthop(paths, lasthop)
    {
      i := 0;
      while i < |paths|
        invariant i <= |paths|
        invariant forall j :: 0 <= j < i ==> paths[j].lasthop != lasthop
      {
        if paths[i].lasthop == lasthop { return; }
        i := i + 1;
      }
    }

    method NewDisjointPath(nexthop: Addr, lasthop: Addr) returns (disjoint: bool)
      ensures disjoint <==> T.NewDisjointPath(paths, nexthop, lasthop)
    {
      var i := 0;
      while i < |paths|
        invariant i <= |paths|
        invariant forall j :: 0 <= j < i ==> paths[j].nexthop != nexthop && paths[j].lasthop != lasthop
      {
        if paths[i].nexthop == nexthop || paths[i].lasthop == lasthop { return false; }
        i := i + 1;
      }
      return true;
    }

    method PathDelete(nexthop: Addr)
      requires Valid()
      modifies this`paths, this`numPaths
      ensures Valid() && paths == T.PathDelete(old(paths), nexthop)
    {
      var i := 0;
      while i < |paths|
        invariant i <= |paths| && Valid() && paths == old(paths)
        invariant forall j :: 0 <= j < i ==> paths[j].nexthop != nexthop
      {
        if paths[i].nexthop == nexthop {
          assert i == T.PathLookup(paths, nexthop);
          paths := paths[..i] + paths[i + 1..];
          numPaths := numPaths - 1;
          return;
        }
        i := i + 1;
      }
      assert i == T.PathLookup(paths, nexthop);
    }

    method PathDeleteAll()
      modifies this`paths, this`numPaths
      ensures Valid() && paths == []
    {
      while paths != []
        decreases |paths|
      {
        paths := paths[1..];
      }
      numPaths := 0;
    }

    method PathEmpty() returns (empty: bool)
      requires Valid()
      ensures empty <==> paths == []
    {
      if paths != [] {
        assert numPaths > 0;
        return false;
      } else {
        assert numPaths == 0;
        return true;
      }
    }

    method PathGetMaxHopcount() returns (m: Option<nat>)
      ensures m == T.MaxHopcount(paths)
    {
      var most, i := 0, 0;
      while i < |paths|
        invariant i <= |paths|
        invariant T.MaxHopcount(paths[..i]) == if most == 0 then None else Some(most)
      {
        assert paths[..i + 1][..i] == paths[..i];
        if paths[i].hopcount > most { most := paths[i].hopcount; }
        i := i + 1;
      }
      assert paths[..i] == paths;
      return if most == 0 then None else Some(most);
    }

    method PathGetMinHopcount() returns (m: Option<nat>)
      ensures m == T.MinHopcount(paths)
    {
      var i := 0;
      m := None;
      while i < |paths|
        invariant i <= |paths|
        invariant m == T.MinHopcount(paths[..i])
      {
        assert paths[..i + 1][..i] == paths[..i];
        if m.None? || paths[i].hopcount < m.value { m := Some(paths[i].hopcount); }
        i := i + 1;
      }
      assert paths[..i] == paths;
    }

    /** Starts over from the head of the list after each deletion, until a pass deletes nothing. */
    method PathPurge(now: real)
      requires Valid()
      modifies this`paths, this`numPaths
      ensures Valid() && paths == T.Unexpired(old(paths), now)
    {
      var again := true;
      while again
        invariant Valid() && T.Unexpired(paths, now) == T.Unexpired(old(paths), now)
        invariant !again ==> forall j :: 0 <= j < |paths| ==> paths[j].expire >= now
        decreases |paths|, again
      {
        again := false;
        var i := 0;
        label Pass:
        while i < |paths| && !again
          invariant i <= |paths|
          invariant Valid() && T.Unexpired(paths, now) == T.Unexpired(old(paths), now)
          invariant !again ==> forall j :: 0 <= j < i ==> paths[j].expire >= now
          invariant if again then |paths| < |old@Pass(paths)| else paths == old@Pass(paths)
          decreases !again, |paths| - i
        {
          if paths[i].expire < now {
            UnexpiredWithout(paths, i, now);
            paths := paths[..i] + paths[i + 1..];
            numPaths := numPaths - 1;
            again := true;
          } else {
            i := i + 1;
          }
        }
      }
      UnexpiredAll(paths, now);
    }
  }

  lemma {:induction false} UnexpiredWithout(ps: seq<T.Path>, i: nat, now: real)
    requires i < |ps| && ps[i].expire < now
    ensures T.Unexpired(ps, now) == T.Unexpired(ps[..i] + ps[i + 1..], now)
  {
    var m := |ps| - 1;
    if i < m {
      UnexpiredWithout(ps[..m], i, now);
      assert (ps[..i] + ps[i + 1..])[..m - 1] == ps[..m][..i] + ps[..m][i + 1..];
    } else {
      assert ps[..i] + ps[i + 1..] == ps[..m];
    }
  }

  lemma {:induction false} UnexpiredAll(ps: seq<T.Path>, now: real)
    requires forall j :: 0 <= j < |ps| ==> ps[j].expire >= now
    ensures T.Unexpired(ps, now) == ps
  {
    if ps != [] { UnexpiredAll(ps[..|ps| - 1], now); }
  }

  lemma ReverseKeepsPaths(index: Addr, maxPaths: int, lenDiff: int, e: T.Entry, q: P.Request, now: real)
    requires P.UpdateAsserts(e, q.srcSeqno, q.saddr, q.hopCount, q.firstHop)
    requires e.flags.Up? ==> e.paths != []
    ensures var u := P.UpdateReverse(index, maxPaths, lenDiff, e, q, now);
      (u.Keep? ==> u.entry.flags.Up?) && (u.entry.flags.Up? ==> u.entry.paths != [])
  {
    hide T.DisjointPathLookup, T.PathLookupLasthop, T.NewDisjointPath, T.CloseEnough, T.LastHopCount;
  }

  lemma ForwardKeepsPaths(maxPaths: int, lenDiff: int, e: T.Entry, r: P.Reply, now: real)
    requires P.UpdateAsserts(e, r.dstSeqno, r.src, r.hopCount, r.firstHop)
    requires e.flags.Up? ==> e.paths != []
    ensures var u := P.UpdateForward(maxPaths, lenDiff, e, r, now);
      (u.Keep? ==> u.entry.flags.Up?) && (u.entry.flags.Up? ==> u.entry.paths != [])
  {
    hide T.DisjointPathLookup, T.PathLookupLasthop, T.NewDisjointPath, T.CloseEnough, T.LastHopCount;
  }

  class Aomdv {
    const index: Addr
    var seqno: nat
    var bid: nat
    var maxPaths: int
    var lenDiff: int
    var rtable: map<Addr, RtEntry>
    var bcache: map<(Addr, nat), P.Bcast>
    var nbs: map<Addr, real>

    ghost predicate Valid()
      reads this, rtable.Values
    {
      forall d :: d in rtable ==> rtable[d].dst == d && rtable[d].Valid()
    }

    /** What the handlers take for granted: a route that is up has a path. */
    ghost predicate UpHasPath()
      reads this, rtable.Values
    {
      forall d :: d in rtable && rtable[d].flags.Up? ==> rtable[d].paths != []
    }

    /** The entry for d as rt_lookup or rt_add would deliver it. */
    ghost function EntryFor(d: Addr): T.Entry
      reads this, rtable.Values
    {
      if d in rtable then rtable[d].View() else T.NewEntry(d)
    }

    ghost function View(): P.Node
      reads this, rtable.Values
    {
      P.Node(index, seqno, bid, maxPaths, lenDiff, map d | d in rtable :: rtable[d].View(), bcache, nbs)
    }

    /** n is this agent but for what its entries hold. */
    ghost predicate Shape(n: P.Node)
      reads this
    {
      && n.index == index && n.seqno == seqno && n.bid == bid && n.bcache == bcache && n.nbs == nbs
      && n.table.Keys == rtable.Keys
      && n.maxPaths == maxPaths && n.lenDiff == lenDiff
    }

    lemma ViewIs()
      ensures Shape(View()) && forall d :: d in rtable ==> View().table[d] == rtable[d].View()
    {
    }

    /** Only the entry for d has changed, and perhaps some fields of the agent. */
    twostate lemma OnlyEntry(d: Addr)
      requires old(Valid()) && d in rtable && rtable == old(rtable)
      requires maxPaths == old(maxPaths) && lenDiff == old(lenDiff)
      requires forall x :: x in rtable && x != d ==> unchanged(rtable[x])
      ensures View() == old(View()).(seqno := seqno, bid := bid, bcache := bcache, nbs := nbs,
                                     table := old(View()).table[d := rtable[d].View()])
    {
      assert View().table == old(View()).table[d := rtable[d].View()];
    }

    /** No entry has changed, only some fields of the agent. */
    twostate lemma NoEntry()
      requires rtable == old(rtable) && maxPaths == old(maxPaths) && lenDiff == old(lenDiff)
      requires forall x :: x in rtable ==> unchanged(rtable[x])
      ensures View() == old(View()).(seqno := seqno, bid := bid, bcache := bcache, nbs := nbs)
    {
      assert View().table == old(View()).table;
    }

    lemma EntryForIs(d: Addr)
      ensures EntryFor(d) == P.WithEntry(View().table, d)[d]
      ensures d in rtable <==> d in View().table
      ensures View().index == index && View().seqno == seqno && View().bid == bid
      ensures View().bcache == bcache && View().nbs == nbs
      ensures View().maxPaths == maxPaths && View().lenDiff == lenDiff
    {
    }

    constructor (id: Addr, maxPaths: int, lenDiff: int)
      ensures Valid() && fresh(rtable.Values) && View() == P.NewNode(id, maxPaths, lenDiff)
    {
      index, seqno, bid := id, 2, 1;
      this.maxPaths, this.lenDiff := maxPaths, lenDiff;
      rtable, bcache, nbs := map[], map[], map[];
    }

    /** rt_lookup, and rt_add when that finds nothing. */
    method RtFind(d: Addr) returns (rt: RtEntry)
      requires Valid()
      modifies this`rtable
      ensures Valid() && d in rtable && rtable[d] == rt && rt.View() == old(EntryFor(d))
      ensures if d in old(rtable) then rtable == old(rtable) else fresh(rt) && rtable == old(rtable)[d := rt]
      ensures View() == old(View()).(table := P.WithEntry(old(View()).table, d))
    {
      if d !in rtable {
        rt := new RtEntry(d);
        rtable := rtable[d := rt];
        assert View().table == old(View()).table[d := T.NewEntry(d)];
      } else {
        rt := rtable[d];
      }
    }

    method RtDown(rt: RtEntry)
      requires rt.Valid()
      modifies rt
      ensures rt.Valid() && rt.View() == T.RtDown(old(rt.View()))
    {
      if rt.flags == Down { return; }
      rt.flags := Down;
      rt.advertisedHops := None;
      rt.PathDeleteAll();
      rt.expire := 0.0;
    }

    method NoteLastHopCount(rt: RtEntry)
      modifies rt`lastHopCount
      ensures rt.lastHopCount == T.LastHopCount(rt.paths)
    {
      var m := rt.PathGetMaxHopcount();
      rt.lastHopCount := if m.Some? then m.value else T.INFINITY2;
    }

    /** A newer sequence number: all paths go, and one takes their place. */
    method StartOver(rt: RtEntry, s: nat, nexthop: Addr, hopcount: nat, until: real, lasthop: Addr)
      requires rt.Valid()
      modifies rt
      ensures rt.Valid() && rt.View() == T.Renew(old(rt.View()), s, T.Path(nexthop, hopcount, until, lasthop))
    {
      rt.seqno := s;
      rt.advertisedHops := None;
      rt.PathDeleteAll();
      rt.flags := Up;
      rt.PathInsert(nexthop, hopcount, until, lasthop);
      NoteLastHopCount(rt);
    }

    method AddPath(rt: RtEntry, nexthop: Addr, hopcount: nat, until: real, lasthop: Addr)
      requires rt.Valid()
      modifies rt
      ensures rt.Valid() && rt.View() == T.PathInsert(old(rt.View()), T.Path(nexthop, hopcount, until, lasthop))
    {
      rt.PathInsert(nexthop, hopcount, until, lasthop);
      NoteLastHopCount(rt);
    }

    method CloseEnough(rt: RtEntry, h: nat) returns (near: bool)
      ensures near <==> T.CloseEnough(rt.paths, h, lenDiff)
    {
      var m := rt.PathGetMinHopcount();
      near := m.None? || h - m.value <= lenDiff;
    }

    /** The part of recvRequest that records the reverse route in rt0. */
    method UpdateReverse(rt0: RtEntry, q: P.Request, now: real) returns (drop: bool, route: bool)
      requires rt0.Valid()
      requires P.UpdateAsserts(rt0.View(), q.srcSeqno, q.saddr, q.hopCount, q.firstHop)
      modifies rt0
      ensures rt0.Valid() && rt0.dst == old(rt0.dst)
      ensures var u := P.UpdateReverse(index, maxPaths, lenDiff, old(rt0.View()), q, now);
        rt0.View() == u.entry && drop == u.Drop? && (u.Keep? ==> route == u.route)
    {
      hide T.DisjointPathLookup, T.PathLookupLasthop, T.NewDisjointPath, T.CloseEnough, T.LastHopCount;
      drop, route := false, false;
      if rt0.seqno < q.srcSeqno {
        StartOver(rt0, q.srcSeqno, q.saddr, q.hopCount + 1, now + P.REV_ROUTE_LIFE, q.firstHop);
        route := true;
      } else if rt0.seqno == q.srcSeqno && (rt0.advertisedHops.None? || rt0.advertisedHops.value > q.hopCount) {
        assert rt0.flags == Up;
        var known := rt0.DisjointPathLookup(q.saddr, q.firstHop);
        var disjoint := rt0.NewDisjointPath(q.saddr, q.firstHop);
        if known < |rt0.paths| {
          assert rt0.paths[known].hopcount == q.hopCount + 1;
          var path := rt0.paths[known];
          rt0.paths := rt0.paths[known := path.(expire := MaxReal(path.expire, now + P.REV_ROUTE_LIFE))];
          route := true;
        } else if disjoint {
          var near := CloseEnough(rt0, q.hopCount + 1);
          if rt0.numPaths < maxPaths && near {
            AddPath(rt0, q.saddr, q.hopCount + 1, now + P.REV_ROUTE_LIFE, q.firstHop);
            route := true;
          }
          near := CloseEnough(rt0, q.hopCount + 1);
          if !near { drop := true; }
        } else {
          var erp := rt0.PathLookupLasthop(q.firstHop);
          if q.dst == index && (erp == |rt0.paths| || q.hopCount + 1 > rt0.paths[erp].hopcount) { drop := true; }
        }
      } else {
        drop := true;
      }
    }

    /** The part of recvReply that records the forward route in rt. */
    method UpdateForward(rt: RtEntry, r: P.Reply, now: real) returns (drop: bool)
      requires rt.Valid()
      requires P.UpdateAsserts(rt.View(), r.dstSeqno, r.src, r.hopCount, r.firstHop)
      modifies rt
      ensures rt.Valid() && rt.dst == old(rt.dst)
      ensures var u := P.UpdateForward(maxPaths, lenDiff, old(rt.View()), r, now);
        rt.View() == u.entry && drop == u.Drop?
    {
      hide T.DisjointPathLookup, T.PathLookupLasthop, T.NewDisjointPath, T.CloseEnough, T.LastHopCount;
      drop := false;
      if rt.seqno < r.dstSeqno {
        StartOver(rt, r.dstSeqno, r.src, r.hopCount + 1, now + r.lifetime, r.firstHop);
      } else if rt.seqno == r.dstSeqno && (rt.advertisedHops.None? || rt.advertisedHops.value > r.hopCount) {
        assert rt.flags == Up;
        var known := rt.DisjointPathLookup(r.src, r.firstHop);
        if known < |rt.paths| {
          assert rt.paths[known].hopcount == r.hopCount + 1;
          var path := rt.paths[known];
          rt.paths := rt.paths[known := path.(expire := MaxReal(path.expire, now + r.lifetime))];
        } else {
          var disjoint := rt.NewDisjointPath(r.src, r.firstHop);
          var near := CloseEnough(rt, r.hopCount + 1);
          if disjoint && rt.numPaths < maxPaths && near {
            AddPath(rt, r.src, r.hopCount + 1, now + r.lifetime, r.firstHop);
          } else {
            drop := true;
          }
        }
      } else {
        drop := true;
      }
    }

    method ResetRequests(rt: RtEntry)
      requires rt.Valid()
      modifies rt`reqTimeout, rt`reqLastTtl, rt`reqCnt
      ensures rt.Valid() && rt.View() == P.ResetRequests(old(rt.View()))
      ensures rt.dst == old(rt.dst) && rt.paths == old(rt.paths) && rt.flags == old(rt.flags)
    {
      if rt.flags == Up {
        rt.reqTimeout, rt.reqLastTtl, rt.reqCnt := 0.0, 0, 0;
      }
    }

    method Advertise(rt: RtEntry)
      requires rt.Valid()
      modifies rt`advertisedHops
      ensures rt.Valid() && rt.View() == T.Advertise(old(rt.View())) && rt.paths == old(rt.paths)
    {
      if rt.advertisedHops == None {
        var m := rt.PathGetMaxHopcount();
        rt.advertisedHops := m;
      }
    }

    method RecvRequest(p: P.Request, now: real) returns (out: seq<P.Packet>)
      requires Valid() && UpHasPath()
      requires p.src != index ==>
        P.UpdateAsserts(EntryFor(p.src), p.srcSeqno, p.saddr, p.hopCount, if p.hopCount == 0 then index else p.firstHop)
      requires p.dst in rtable && rtable[p.dst].flags.Up? ==> rtable[p.dst].seqno % 2 == 0
      modifies this, rtable.Values
      ensures Valid() && fresh(rtable.Values - old(rtable.Values))
      ensures (View(), out) == P.RecvRequest(old(View()), p, now)
    {
      hide P.RecordReverse, P.UpdateAsserts, P.AnswerRequest;
      if p.src == index { return []; }
      var key := (p.src, p.bcastId);
      var seen := key in bcache;
      if !seen { bcache := bcache[key := P.Bcast(now + P.BCAST_ID_SAVE, 0)]; }
      NoEntry();
      var q := if p.hopCount == 0 then p.(firstHop := index) else p;
      var drop, route := RecordReverse(q, now);
      if drop { return []; }
      out := AnswerRequest(q, now, seen, route);
    }

    /** The first half of recvRequest. */
    method RecordReverse(q: P.Request, now: real) returns (drop: bool, route: bool)
      requires Valid() && UpHasPath()
      requires P.UpdateAsserts(EntryFor(q.src), q.srcSeqno, q.saddr, q.hopCount, q.firstHop)
      modifies this`rtable, rtable.Values
      ensures Valid() && UpHasPath() && fresh(rtable.Values - old(rtable.Values)) && q.src in rtable
      ensures var (n, upd) := P.RecordReverse(old(View()), q, now);
        View() == n && drop == upd.Drop? && (upd.Keep? ==> route == upd.route && rtable[q.src].flags.Up?)
    {
      hide P.UpdateReverse, P.UpdateAsserts, P.ResetRequests, View, RtEntry.Valid;
      EntryForIs(q.src);
      var rt0 := RtFind(q.src);
      label Found:
      drop, route := UpdateReverse(rt0, q, now);
      ReverseKeepsPaths(index, maxPaths, lenDiff, old(EntryFor(q.src)), q, now);
      if !drop { ResetRequests(rt0); }
      OnlyEntry@Found(q.src);
    }

    /** The second half of recvRequest. */
    method AnswerRequest(q: P.Request, now: real, seen: bool, route: bool) returns (out: seq<P.Packet>)
      requires Valid() && UpHasPath()
      requires q.src in rtable && rtable[q.src].flags.Up? && (q.src, q.bcastId) in bcache
      modifies this, rtable.Values
      ensures Valid() && rtable == old(rtable)
      ensures (View(), out) == P.AnswerRequest(old(View()), q, now, seen, route)
    {
      hide P.ReplyFromRoute, P.PassOn;
      var key := (q.src, q.bcastId);
      if q.dst == index {
        if seqno < q.dstSeqno { seqno := q.dstSeqno + 1; }
        if seqno % 2 == 1 { seqno := seqno + 1; }
        out := [P.Rrep(P.Reply(index, q.src, P.NETWORK_DIAMETER, q.saddr, index, index, seqno, 0, q.bcastId, q.saddr,
                               P.MY_ROUTE_TIMEOUT, q.timestamp))];
        NoEntry();
      } else if q.dst in rtable && rtable[q.dst].flags == Up && rtable[q.dst].seqno >= q.dstSeqno {
        out := [];
        if route && bcache[key].count == 0 { out := ReplyFromRoute(q, now); }
      } else if seen {
        out := [];
      } else {
        out := PassOn(q);
      }
    }

    method ReplyFromRoute(q: P.Request, now: real) returns (out: seq<P.Packet>)
      requires Valid() && q.dst in rtable && rtable[q.dst].flags.Up? && (q.src, q.bcastId) in bcache
      requires rtable[q.dst].paths != []
      modifies this`bcache, rtable[q.dst]
      ensures Valid() && (View(), out) == P.ReplyFromRoute(old(View()), q, now)
    {
      hide T.Advertise;
      var key := (q.src, q.bcastId);
      var rt := rtable[q.dst];
      bcache := bcache[key := bcache[key].(count := 1)];
      Advertise(rt);
      var forwardPath := rt.paths[0];
      rt.error := true;
      out := [P.Rrep(P.Reply(index, q.src, P.NETWORK_DIAMETER, q.saddr, index, q.dst, rt.seqno,
                             P.HopsOf(rt.advertisedHops), q.bcastId, forwardPath.lasthop, forwardPath.expire - now,
                             q.timestamp))];
      OnlyEntry(q.dst);
    }

    method PassOn(q: P.Request) returns (out: seq<P.Packet>)
      requires Valid() && q.src in rtable && rtable[q.src].paths != []
      modifies rtable[q.src]
      ensures Valid() && (View(), out) == P.PassOn(old(View()), q)
    {
      hide T.Advertise;
      var dstSeqno := if q.dst in rtable then Max(rtable[q.dst].seqno, q.dstSeqno) else q.dstSeqno;
      var rt0 := rtable[q.src];
      Advertise(rt0);
      OnlyEntry(q.src);
      if q.ttl == 0 { return []; }
      out := [P.Rreq(q.(saddr := index, dstSeqno := dstSeqno, hopCount := P.HopsOf(rt0.advertisedHops),
                        firstHop := rt0.paths[0].lasthop))];
    }

    // ---------- replies ----------

    method RecvReply(r: P.Reply, now: real) returns (out: seq<P.Packet>)
      requires Valid() && UpHasPath()
      requires r.dst != index ==> P.UpdateAsserts(EntryFor(r.dst), r.dstSeqno, r.src, r.hopCount, r.firstHop)
      modifies this, rtable.Values
      ensures Valid() && fresh(rtable.Values - old(rtable.Values))
      ensures (View(), out) == P.RecvReply(old(View()), r, now)
    {
      hide P.RecordForward, P.UpdateAsserts, P.ForwardReply;
      if r.dst == index { return []; }
      var drop := RecordForward(r, now);
      if drop || r.daddr == index { return []; }
      out := ForwardReply(r, now);
    }

    /** The first half of recvReply. */
    method RecordForward(r: P.Reply, now: real) returns (drop: bool)
      requires Valid() && UpHasPath()
      requires P.UpdateAsserts(EntryFor(r.dst), r.dstSeqno, r.src, r.hopCount, r.firstHop)
      modifies this`rtable, rtable.Values
      ensures Valid() && UpHasPath() && fresh(rtable.Values - old(rtable.Values)) && r.dst in rtable
      ensures var (n, upd) := P.RecordForward(old(View()), r, now);
        View() == n && drop == upd.Drop? && (upd.Keep? ==> rtable[r.dst].flags.Up?)
    {
      hide P.UpdateForward, P.UpdateAsserts, P.ResetRequests, View, RtEntry.Valid;
      EntryForIs(r.dst);
      var rt := RtFind(r.dst);
      label Found:
      drop := UpdateForward(rt, r, now);
      ForwardKeepsPaths(maxPaths, lenDiff, old(EntryFor(r.dst)), r, now);
      if !drop { ResetRequests(rt); }
      OnlyEntry@Found(r.dst);
    }

    /** The second half of recvReply: pass the reply on along the reverse path. */
    method ForwardReply(r: P.Reply, now: real) returns (out: seq<P.Packet>)
      requires Valid() && UpHasPath() && r.dst in rtable && rtable[r.dst].flags.Up?
      modifies this`bcache, rtable.Values
      ensures Valid() && (View(), out) == P.ForwardReply(old(View()), r, now)
    {
      hide T.Advertise, View;
      EntryForIs(r.dst);
      EntryForIs(r.daddr);
      var key := (r.daddr, r.bcastId);
      if r.daddr !in rtable || rtable[r.daddr].flags != Up || key !in bcache || bcache[key].count != 0 { return []; }
      var rt, rt0 := rtable[r.dst], rtable[r.daddr];
      bcache := bcache[key := bcache[key].(count := 1)];
      var nextHop := rt0.paths[0].nexthop;
      Advertise(rt);
      var firstHop := rt.paths[0].lasthop;
      rt.error := true;
      OnlyEntry(r.dst);
      label Advertised:
      rt0.paths := rt0.paths[0 := rt0.paths[0].(expire := now + P.ACTIVE_ROUTE_TIMEOUT)];
      OnlyEntry@Advertised(r.daddr);
      if r.ttl == 0 { return []; }
      out := [P.Rrep(r.(nextHop := nextHop, src := index,
                        hopCount := P.HopsOf(rt.advertisedHops), firstHop := firstHop))];
    }

    method RecvHello(r: P.Reply, now: real) returns (out: seq<P.Packet>)
      requires Valid() && UpHasPath()
      requires r.dst != index ==> P.UpdateAsserts(EntryFor(r.dst), r.dstSeqno, r.saddr, r.hopCount, index)
      modifies this, rtable.Values
      ensures Valid() && fresh(rtable.Values - old(rtable.Values))
      ensures (View(), out) == P.RecvHello(old(View()), r, now)
    {
      hide P.RecvReply, P.UpdateAsserts;
      if r.dst !in nbs {
        nbs := nbs[r.dst := now + P.HELLO_INTERVAL * P.ALLOWED_HELLO_LOSS];
      } else {
        nbs := nbs[r.dst := now + 1.5 * P.ALLOWED_HELLO_LOSS * P.HELLO_INTERVAL];
      }
      NoEntry();
      out := RecvReply(r.(daddr := index, src := r.saddr, firstHop := index), now);
    }

    // ---------- errors, lost neighbours, expiry ----------

    ghost predicate UpIsEven()
      reads this, rtable.Values
    {
      forall d :: d in rtable && rtable[d].flags.Up? ==> rtable[d].seqno % 2 == 0
    }

    /** One destination of a route error. */
    method ErrorHeard(rt: RtEntry, via: Addr, u: nat) returns (report: Option<nat>)
      requires rt.Valid() && (rt.flags.Up? ==> rt.seqno % 2 == 0)
      modifies rt
      ensures rt.Valid() && rt.dst == old(rt.dst)
      ensures (rt.View(), report) == T.ErrorHeard(old(rt.View()), via, u)
    {
      hide T.First;
      report := None;
      if rt.flags != Up { return; }
      var path := rt.PathLookup(via);
      if path < |rt.paths| && rt.seqno <= u {
        assert rt.seqno % 2 == 0;
        rt.PathDelete(via);
        rt.highestSeqnoHeard := Max(rt.highestSeqnoHeard, u);
        var empty := rt.PathEmpty();
        if empty {
          rt.seqno := rt.highestSeqnoHeard;
          RtDown(rt);
          if rt.error {
            report := Some(rt.seqno);
            rt.error := false;
          }
        }
      }
    }

    lemma AllHeard(n: P.Node, saddr: Addr, unreachable: map<Addr, nat>, nre: map<Addr, nat>)
      requires Shape(n)
      requires forall d :: d in rtable ==>
        rtable[d].View() == if d in unreachable then T.ErrorHeard(n.table[d], saddr, unreachable[d]).0 else n.table[d]
      requires forall d :: d in nre <==>
        d in rtable && d in unreachable && T.ErrorHeard(n.table[d], saddr, unreachable[d]).1.Some?
      requires forall d :: d in nre ==> nre[d] == T.ErrorHeard(n.table[d], saddr, unreachable[d]).1.value
      ensures (View(), P.SendError(index, nre)) == P.RecvError(n, saddr, unreachable)
    {
      hide T.ErrorHeard;
      assert View().table == P.RecvError(n, saddr, unreachable).0.table;
      assert nre == P.ErrorReports(n, saddr, unreachable);
    }

    method RecvError(saddr: Addr, unreachable: map<Addr, nat>) returns (out: seq<P.Packet>)
      requires Valid() && UpIsEven()
      modifies rtable.Values
      ensures Valid() && (View(), out) == P.RecvError(old(View()), saddr, unreachable)
    {
      hide T.ErrorHeard, View, RtEntry.View, RtEntry.Valid, P.RecvError, P.SendError;
      ghost var before := View();
      ViewIs();
      var todo, nre := unreachable.Keys, map[];
      while todo != {}
        invariant todo <= unreachable.Keys && Valid()
        invariant forall d :: d in rtable && (d in todo || d !in unreachable) ==> unchanged(rtable[d])
        invariant forall d :: d in rtable ==>
          rtable[d].View() ==
            if d in unreachable && d !in todo then T.ErrorHeard(before.table[d], saddr, unreachable[d]).0
                              else before.table[d]
        invariant forall d :: d in nre <==>
          d in rtable && d in unreachable && d !in todo && T.ErrorHeard(before.table[d], saddr, unreachable[d]).1.Some?
        invariant forall d :: d in nre ==> nre[d] == T.ErrorHeard(before.table[d], saddr, unreachable[d]).1.value
      {
        var d :| d in todo;
        todo := todo - {d};
        if d in rtable {
          var report := ErrorHeard(rtable[d], saddr, unreachable[d]);
          if report.Some? { nre := nre[d := report.value]; }
        }
      }
      AllHeard(before, saddr, unreachable, nre);
      out := SendError(nre);
    }

    method SendError(rerr: map<Addr, nat>) returns (out: seq<P.Packet>)
      ensures out == P.SendError(index, rerr)
    {
      if rerr != map[] { out := [P.Rerr(index, rerr)]; } else { out := []; }
    }

    /** One route entry when the neighbour id is lost. */
    method LinkFailure(rt: RtEntry, id: Addr) returns (report: Option<nat>)
      requires rt.Valid() && (rt.flags.Up? ==> rt.seqno % 2 == 0)
      modifies rt
      ensures rt.Valid() && rt.dst == old(rt.dst)
      ensures (rt.View(), report) == T.LinkFailure(old(rt.View()), id)
    {
      hide T.First;
      report := None;
      if rt.flags != Up { return; }
      var path := rt.PathLookup(id);
      if path < |rt.paths| {
        assert rt.seqno % 2 == 0;
        rt.PathDelete(id);
        var empty := rt.PathEmpty();
        if empty {
          rt.seqno := rt.seqno + 1;
          rt.seqno := Max(rt.seqno, rt.highestSeqnoHeard);
          if rt.error {
            report := Some(rt.seqno);
            rt.error := false;
          }
          RtDown(rt);
        }
      }
    }

    lemma AllFailed(n: P.Node, id: Addr, re: map<Addr, nat>)
      requires Shape(n)
      requires forall d :: d in rtable ==> rtable[d].View() == T.LinkFailure(n.table[d], id).0
      requires forall d :: d in re <==> d in rtable && T.LinkFailure(n.table[d], id).1.Some?
      requires forall d :: d in re ==> re[d] == T.LinkFailure(n.table[d], id).1.value
      ensures (View(), P.SendError(index, re)) == P.HandleLinkFailure(n, id)
    {
      hide T.LinkFailure;
      assert View().table == P.HandleLinkFailure(n, id).0.table;
      assert re == P.LossReports(n, id);
    }

    method HandleLinkFailure(id: Addr) returns (out: seq<P.Packet>)
      requires Valid() && UpIsEven()
      modifies rtable.Values
      ensures Valid() && (View(), out) == P.HandleLinkFailure(old(View()), id)
    {
      hide T.LinkFailure, View, RtEntry.View, RtEntry.Valid, P.HandleLinkFailure, P.SendError;
      ghost var before := View();
      ViewIs();
      var todo, re := rtable.Keys, map[];
      while todo != {}
        invariant todo <= rtable.Keys && Valid()
        invariant forall d :: d in todo ==> unchanged(rtable[d])
        invariant forall d :: d in rtable ==>
          rtable[d].View() == if d !in todo then T.LinkFailure(before.table[d], id).0 else before.table[d]
        invariant forall d :: d in re <==> d in rtable && d !in todo && T.LinkFailure(before.table[d], id).1.Some?
        invariant forall d :: d in re ==> re[d] == T.LinkFailure(before.table[d], id).1.value
      {
        var d :| d in todo;
        todo := todo - {d};
        var report := LinkFailure(rtable[d], id);
        if report.Some? { re := re[d := report.value]; }
      }
      AllFailed(before, id, re);
      out := SendError(re);
    }

    method NbDelete(id: Addr) returns (out: seq<P.Packet>)
      requires Valid() && UpIsEven()
      modifies this`seqno, this`nbs, rtable.Values
      ensures Valid() && (View(), out) == P.NbDelete(old(View()), id)
    {
      hide P.HandleLinkFailure;
      seqno := seqno + 2;
      nbs := nbs - {id};
      NoEntry();
      out := HandleLinkFailure(id);
    }

    /** One route entry when its lifetime is checked. */
    method Purge(rt: RtEntry, now: real)
      requires rt.Valid()
      modifies rt
      ensures rt.Valid() && rt.dst == old(rt.dst) && rt.View() == T.Purge(old(rt.View()), now)
    {
      if rt.flags == Up && rt.expire < now {
        rt.PathPurge(now);
        var empty := rt.PathEmpty();
        if empty {
          rt.seqno := rt.seqno + 1;
          rt.seqno := Max(rt.seqno, rt.highestSeqnoHeard);
          if rt.seqno % 2 == 0 { rt.seqno := rt.seqno + 1; }
          RtDown(rt);
        }
      }
    }

    method RtPurge(now: real)
      requires Valid()
      modifies rtable.Values
      ensures Valid() && View() == P.RtPurge(old(View()), now)
    {
      hide T.Purge;
      var todo := rtable.Keys;
      while todo != {}
        invariant todo <= rtable.Keys && Valid()
        invariant forall d :: d in rtable ==>
          rtable[d].View() == if d !in todo then T.Purge(old(rtable[d].View()), now) else old(rtable[d].View())
      {
        var d :| d in todo;
        todo := todo - {d};
        Purge(rtable[d], now);
      }
      assert View().table == P.RtPurge(old(View()), now).table;
    }

    method IdPurge(now: real)
      requires Valid()
      modifies this`bcache
      ensures Valid() && View() == P.IdPurge(old(View()), now)
    {
      var todo := bcache.Keys;
      while todo != {}
        invariant todo <= old(bcache).Keys
        invariant forall k :: k in bcache <==> k in old(bcache) && (k in todo || old(bcache)[k].expire > now)
        invariant forall k :: k in bcache ==> bcache[k] == old(bcache)[k]
      {
        var k :| k in todo;
        todo := todo - {k};
        if k in bcache && bcache[k].expire <= now { bcache := bcache - {k}; }
      }
      NoEntry();
    }

    // ---------- originating ----------

    method RequestTimeout(ttl: nat, cnt: nat, now: real) returns (t: real)
      ensures t == P.RequestTimeout(ttl, cnt, now)
    {
      t := 2.0 * ttl as real * P.NODE_TRAVERSAL_TIME;
      if cnt > 0 { t := t * cnt as real; }
      t := t + now;
      if t > now + P.MAX_RREQ_TIMEOUT { t := now + P.MAX_RREQ_TIMEOUT; }
    }

    /** The ring that is searched next is entered in rt. */
    method Widen(rt: RtEntry, now: real) returns (ttl: nat)
      requires rt.Valid()
      modifies rt
      ensures rt.Valid() && rt.dst == old(rt.dst) && ttl == P.RequestTtl(old(rt.View())).0
      ensures var e := old(rt.View());
        var cnt := if P.RequestTtl(e).1 then e.reqCnt + 1 else e.reqCnt;
        rt.View() == e.(reqLastTtl := ttl, reqCnt := cnt, expire := 0.0, reqTimeout := P.RequestTimeout(ttl, cnt, now))
    {
      hide P.RequestTimeout;
      rt.reqLastTtl := Max(rt.reqLastTtl, rt.lastHopCount);
      if rt.reqLastTtl == 0 {
        ttl := P.TTL_START;
      } else if rt.reqLastTtl < P.TTL_THRESHOLD {
        ttl := rt.reqLastTtl + P.TTL_INCREMENT;
      } else {
        ttl := P.NETWORK_DIAMETER;
        rt.reqCnt := rt.reqCnt + 1;
      }
      rt.reqLastTtl := ttl;
      rt.reqTimeout := RequestTimeout(ttl, rt.reqCnt, now);
      rt.expire := 0.0;
    }

    method SendRequest(d: Addr, now: real) returns (out: seq<P.Packet>)
      requires Valid() && d in rtable && seqno % 2 == 0
      modifies this`seqno, this`bid, rtable[d]
      ensures Valid() && (View(), out) == P.SendRequest(old(View()), d, now)
    {
      hide P.RequestTimeout, P.RequestTtl, View;
      EntryForIs(d);
      var rt := rtable[d];
      if rt.flags == Up || rt.reqTimeout > now { return []; }
      if rt.reqCnt > P.RREQ_RETRIES {
        rt.reqTimeout, rt.reqCnt := now + P.MAX_RREQ_TIMEOUT, 0;
        OnlyEntry(d);
        return [];
      }
      var ttl := Widen(rt, now);
      seqno := seqno + 2;
      assert seqno % 2 == 0;
      out := [P.Rreq(P.Request(index, ttl, index, seqno, d, rt.seqno, 0, bid, 0, now))];
      bid := bid + 1;
      OnlyEntry(d);
    }

    /** A data packet takes the first path of rt. */
    method UseRoute(rt: RtEntry, own: bool, now: real)
      requires rt.Valid() && rt.paths != []
      modifies rt
      ensures rt.Valid() && rt.dst == old(rt.dst) && rt.View() == P.UseRoute(old(rt.View()), own, now)
    {
      rt.paths := rt.paths[0 := rt.paths[0].(expire := now + P.ACTIVE_ROUTE_TIMEOUT)];
      if !own { rt.error := true; }
    }

    method RtResolve(saddr: Addr, d: Addr, now: real) returns (out: seq<P.Packet>)
      requires Valid() && UpHasPath() && seqno % 2 == 0
      modifies this, rtable.Values
      ensures Valid() && fresh(rtable.Values - old(rtable.Values))
      ensures (View(), out) == P.RtResolve(old(View()), saddr, d, now)
    {
      hide P.SendRequest, P.UseRoute, View, RtEntry.Valid;
      EntryForIs(d);
      var rt := RtFind(d);
      label Found:
      out := [];
      if rt.flags == Up {
        UseRoute(rt, saddr == index, now);
        OnlyEntry@Found(d);
      } else if saddr == index {
        out := SendRequest(d, now);
      } else if rt.flags == InRepair {
      } else {
        out := [P.Rerr(index, map[d := rt.seqno])];
      }
    }

    /** rt_has_active_route, by a scan of the table. */
    method HasActiveRoute() returns (active: bool)
      requires Valid()
      ensures active <==> exists d :: d in rtable && rtable[d].flags.Up?
    {
      var todo := rtable.Keys;
      while todo != {}
        invariant todo <= rtable.Keys
        invariant forall d :: d in rtable && d !in todo ==> !rtable[d].flags.Up?
      {
        var d :| d in todo;
        todo := todo - {d};
        if rtable[d].flags == Up { return true; }
      }
      return false;
    }

    method HelloTimer() returns (out: seq<P.Packet>)
      requires Valid()
      ensures out == P.HelloTimer(View())
    {
      var active := HasActiveRoute();
      assert forall d :: d in rtable ==> View().table[d].flags == rtable[d].flags;
      if !active { return []; }
      out := [P.Hello(P.Reply(index, 0, 1, 0, 0, index, seqno, 0, 0, 0,
                              (1.0 + P.ALLOWED_HELLO_LOSS) * P.HELLO_INTERVAL, 0.0))];
    }
  }
}
