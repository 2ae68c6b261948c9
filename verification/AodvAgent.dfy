/** The AODV objects as the program has them: route entries with their precursor lists, and
    the routing agent, updated in place. */
module AodvAgent {
  import opened Common
  import P = AodvProtocol

  class RtEntry {
    var dst: Addr
    var seqno: nat
    var hops: Option<nat>
    var nexthop: Addr
    var precursors: seq<Addr>
    var expire: real
    var flags: Flag
    var lastHopCount: nat
    var reqTimeout: real
    var reqCnt: nat
    var reqLastTtl: nat

    ghost function View(): P.Entry reads this {
      P.Entry(dst, seqno, hops, nexthop, precursors, expire, flags, lastHopCount, reqTimeout, reqCnt, reqLastTtl)
    }

    constructor (d: Addr)
      ensures View() == P.NewEntry(d)
    {
      dst, seqno, hops, nexthop, precursors, expire, flags := d, 0, None, 0, [], 0.0, Down;
      lastHopCount, reqTimeout, reqCnt, reqLastTtl := P.INFINITY2, 0.0, 0, 0;
    }

    /** The position of the precursor, or |precursors| for null. */
    method PcLookup(id: Addr) returns (i: nat)
      ensures i <= |precursors| && (i < |precursors| <==> id in precursors)
      ensures i < |precursors| ==> precursors[i] == id && id !in precursors[..i]
    {
      i := 0;
      while i < |precursors|
        invariant i <= |precursors| && id !in precursors[..i]
      {
        if precursors[i] == id { return; }
        i := i + 1;
      }
    }

    method PcInsert(id: Addr)
      modifies this`precursors
      ensures precursors == P.PcInsert(old(precursors), id)
    {
      var i := PcLookup(id);
      if i == |precursors| { precursors := [id] + precursors; }
    }

    method PcDelete(id: Addr)
      modifies this`precursors
      ensures precursors == P.PcDelete(old(precursors), id)
    {
      var i := 0;
      while i < |precursors|
        invariant i <= |precursors| && precursors == old(precursors)
        invariant P.PcDelete(precursors, id) == precursors[..i] + P.PcDelete(precursors[i..], id)
      {
        if precursors[i] == id {
          precursors := precursors[..i] + precursors[i + 1..];
          return;
        }
        assert precursors[..i + 1] == precursors[..i] + [precursors[i]];
        i := i + 1;
      }
    }

    method PcDeleteAll()
      modifies this`precursors
      ensures precursors == []
    {
      while precursors != []
        decreases |precursors|
      {
        precursors := precursors[1..];
      }
    }

    method PcEmpty() returns (empty: bool)
      ensures empty <==> precursors == []
    {
      empty := precursors == [];
    }
  }

  class Aodv {
    const index: Addr
    var seqno: nat
    var bid: nat
    var rtable: map<Addr, RtEntry>
    var bcache: map<(Addr, nat), real>
    var nbs: map<Addr, real>

    ghost predicate Valid()
      reads this, rtable.Values
    {
      forall d :: d in rtable ==> rtable[d].dst == d
    }

    ghost function View(): P.Node
      reads this, rtable.Values
    {
      P.Node(index, seqno, bid, map d | d in rtable :: rtable[d].View(), bcache, nbs)
    }

    /** The entry for d as rt_lookup or rt_add would deliver it. */
    ghost function EntryFor(d: Addr): P.Entry
      reads this, rtable.Values
    {
      if d in rtable then rtable[d].View() else P.NewEntry(d)
    }

    /** n is this agent but for what its entries hold. */
    ghost predicate Shape(n: P.Node)
      reads this
    {
      && n.index == index && n.seqno == seqno && n.bid == bid && n.bcache == bcache && n.nbs == nbs
      && n.table.Keys == rtable.Keys
    }

    lemma ViewIs()
      ensures Shape(View()) && forall d :: d in rtable ==> View().table[d] == rtable[d].View()
    {
    }

    /** Only the entry for d has changed, and perhaps some fields of the agent. */
    twostate lemma OnlyEntry(d: Addr)
      requires old(Valid()) && d in rtable && rtable == old(rtable)
      requires forall x :: x in rtable && x != d ==> unchanged(rtable[x])
      ensures View() == old(View()).(seqno := seqno, bid := bid, bcache := bcache, nbs := nbs,
                                     table := old(View()).table[d := rtable[d].View()])
    {
      assert View().table == old(View()).table[d := rtable[d].View()];
    }

    /** No entry has changed, only some fields of the agent. */
    twostate lemma NoEntry()
      requires rtable == old(rtable)
      requires forall x :: x in rtable ==> unchanged(rtable[x])
      ensures View() == old(View()).(seqno := seqno, bid := bid, bcache := bcache, nbs := nbs)
    {
      assert View().table == old(View()).table;
    }

    lemma EntryForIs(d: Addr)
      ensures EntryFor(d) == P.WithEntry(View().table, d)[d]
      ensures d in rtable <==> d in View().table
      ensures View().index == index && View().seqno == seqno && View().bid == bid
      ensures View().bcache == bcache && View().nbs == nbs
    {
    }

    constructor (id: Addr)
      ensures Valid() && fresh(rtable.Values) && View() == P.NewNode(id)
    {
      index, seqno, bid := id, 2, 1;
      rtable, bcache, nbs := map[], map[], map[];
    }

    /** rt_lookup, and rt_add when that finds nothing. */
    method RtFind(d: Addr) returns (rt: RtEntry)
      requires Valid()
      modifies this`rtable
      ensures Valid() && d in rtable && rtable[d] == rt && rt.View() == old(EntryFor(d))
      ensures if d in old(rtable) then rtable == old(rtable) else fresh(rt) && rtable == old(rtable)[d := rt]
      ensures View() == old(View()).(table := P.WithEntry(old(View()).table, d))
    {
      if d !in rtable {
        rt := new RtEntry(d);
        rtable := rtable[d := rt];
        assert View().table == old(View()).table[d := P.NewEntry(d)];
      } else {
        rt := rtable[d];
      }
    }

    method RtUpdate(rt: RtEntry, s: nat, metric: nat, nexthop: Addr, until: real)
      modifies rt
      ensures rt.View() == P.RtUpdate(old(rt.View()), s, metric, nexthop, until)
    {
      rt.seqno := s;
      rt.hops := Some(metric);
      rt.flags := Up;
      rt.nexthop := nexthop;
      rt.expire := until;
    }

    method RtDown(rt: RtEntry)
      modifies rt
      ensures rt.View() == P.RtDown(old(rt.View()))
    {
      if rt.flags == Down { return; }
      rt.lastHopCount := P.HopsOf(rt.hops);
      rt.hops := None;
      rt.flags := Down;
      rt.nexthop := 0;
      rt.expire := 0.0;
    }

    // ---------- requests ----------

    /** The part of recvRequest that records the reverse route in rt0. */
    method UpdateReverse(rt0: RtEntry, q: P.Request, now: real)
      modifies rt0
      ensures rt0.dst == old(rt0.dst) && rt0.View() == P.UpdateReverse(old(rt0.View()), q, now)
    {
      rt0.expire := MaxReal(rt0.expire, now + P.REV_ROUTE_LIFE);
      if q.srcSeqno > rt0.seqno
        || (q.srcSeqno == rt0.seqno && (rt0.hops.None? || q.hopCount < rt0.hops.value)) {
        RtUpdate(rt0, q.srcSeqno, q.hopCount, q.saddr, MaxReal(rt0.expire, now + P.REV_ROUTE_LIFE));
        if rt0.reqTimeout > 0.0 {
          rt0.reqCnt := 0;
          rt0.reqTimeout := 0.0;
          rt0.reqLastTtl := q.hopCount;
          rt0.expire := now + P.ACTIVE_ROUTE_TIMEOUT;
        }
        assert rt0.flags == Up;
      }
    }

    method RecvRequest(q: P.Request, now: real) returns (out: seq<P.Packet>)
      requires Valid()
      modifies this, rtable.Values
      ensures Valid() && fresh(rtable.Values - old(rtable.Values))
      ensures (View(), out) == P.RecvRequest(old(View()), q, now)
    {
      hide P.UpdateReverse, P.AnswerRequest, View;
      EntryForIs(q.src);
      if q.src == index { return []; }
      if (q.src, q.bcastId) in bcache { return []; }
      bcache := bcache[(q.src, q.bcastId) := now + P.BCAST_ID_SAVE];
      NoEntry();
      var rt0 := RtFind(q.src);
      label Found:
      UpdateReverse(rt0, q, now);
      OnlyEntry@Found(q.src);
      out := AnswerRequest(q, now);
    }

    /** The second half of recvRequest. */
    method AnswerRequest(q: P.Request, now: real) returns (out: seq<P.Packet>)
      requires Valid() && q.src in rtable
      modifies this`seqno, rtable.Values
      ensures Valid() && (View(), out) == P.AnswerRequest(old(View()), q, now)
    {
      hide P.ReplyFromRoute, View, P.SendReply;
      EntryForIs(q.src);
      EntryForIs(q.dst);
      if q.dst == index {
        seqno := Max(seqno, q.dstSeqno) + 1;
        if seqno % 2 == 1 { seqno := seqno + 1; }
        NoEntry();
        out := SendReply(q.src, 1, index, seqno, P.MY_ROUTE_TIMEOUT, q.timestamp);
      } else if q.dst in rtable && rtable[q.dst].hops != None && rtable[q.dst].seqno >= q.dstSeqno {
        out := ReplyFromRoute(q, now);
      } else {
        var dstSeqno := if q.dst in rtable then Max(rtable[q.dst].seqno, q.dstSeqno) else q.dstSeqno;
        if q.ttl == 0 { return []; }
        out := [P.Rreq(q.(saddr := index, hopCount := q.hopCount + 1, dstSeqno := dstSeqno))];
      }
    }

    method ReplyFromRoute(q: P.Request, now: real) returns (out: seq<P.Packet>)
      requires Valid() && q.src in rtable && q.dst in rtable
      modifies rtable[q.src], rtable[q.dst]
      ensures Valid() && (View(), out) == P.ReplyFromRoute(old(View()), q, now)
    {
      hide View, P.SendReply, P.PcInsert;
      EntryForIs(q.src);
      EntryForIs(q.dst);
      var rt, rt0 := rtable[q.dst], rtable[q.src];
      out := SendReply(q.src, P.HopsOf(rt.hops) + 1, q.dst, rt.seqno, rt.expire - now, q.timestamp);
      rt.PcInsert(rt0.nexthop);
      OnlyEntry(q.dst);
      label Inserted:
      rt0.PcInsert(rt.nexthop);
      OnlyEntry@Inserted(q.src);
    }

    method SendReply(ipdst: Addr, hops: nat, rpdst: Addr, rpseq: nat, lifetime: real, timestamp: real)
      returns (out: seq<P.Packet>)
      requires ipdst in rtable
      ensures out == [P.SendReply(View(), ipdst, hops, rpdst, rpseq, lifetime, timestamp)]
    {
      out := [P.Rrep(P.Reply(index, ipdst, P.NETWORK_DIAMETER, rtable[ipdst].nexthop, index, rpdst, rpseq, hops,
                             P.Truncate(lifetime), timestamp))];
    }

    method SendHello() returns (out: seq<P.Packet>)
      ensures out == [P.Hello(View().index, View().seqno)]
    {
      out := [P.Hello(index, seqno)];
    }

    // ---------- replies ----------

    method RecvReply(r: P.Reply, now: real) returns (out: seq<P.Packet>)
      requires Valid()
      requires r.daddr != index && r.daddr in rtable && r.daddr != r.dst ==>
        (rtable[r.daddr].hops.Some? && P.Fresher(r.dstSeqno, r.hopCount, EntryFor(r.dst)) ==> rtable[r.daddr].flags.Up?)
      modifies this`rtable, rtable.Values
      ensures Valid() && fresh(rtable.Values - old(rtable.Values))
      ensures (View(), out) == P.RecvReply(old(View()), r, now)
    {
      hide P.ForwardReply, View, P.UpdateForward, P.Fresher;
      EntryForIs(r.dst);
      var rt := RtFind(r.dst);
      label Found:
      var suppress := UpdateForward(rt, r, now);
      OnlyEntry@Found(r.dst);
      if r.daddr == index || suppress { return []; }
      out := ForwardReply(r, now);
    }

    /** The part of recvReply that records the route in rt; whether the reply is suppressed. */
    method UpdateForward(rt: RtEntry, r: P.Reply, now: real) returns (suppress: bool)
      modifies rt
      ensures rt.dst == old(rt.dst) && rt.View() == P.UpdateForward(old(rt.View()), r, now)
      ensures suppress <==> !P.Fresher(r.dstSeqno, r.hopCount, old(rt.View()))
      ensures !suppress ==> rt.flags.Up?
    {
      suppress := false;
      if rt.seqno < r.dstSeqno
        || (rt.seqno == r.dstSeqno && (rt.hops.None? || rt.hops.value > r.hopCount)) {
        RtUpdate(rt, r.dstSeqno, r.hopCount, r.src, now + r.lifetime as real);
        rt.reqCnt := 0;
        rt.reqTimeout := 0.0;
        rt.reqLastTtl := r.hopCount;
      } else {
        suppress := true;
      }
    }

    /** The second half of recvReply. */
    method ForwardReply(r: P.Reply, now: real) returns (out: seq<P.Packet>)
      requires Valid() && r.dst in rtable
      requires r.daddr in rtable && rtable[r.daddr].hops.Some? ==> rtable[r.daddr].flags.Up?
      modifies rtable.Values
      ensures Valid() && (View(), out) == P.ForwardReply(old(View()), r, now)
    {
      hide View, P.PcInsert;
      EntryForIs(r.dst);
      EntryForIs(r.daddr);
      if r.daddr !in rtable || rtable[r.daddr].hops == None { return []; }
      var rt, rt0 := rtable[r.dst], rtable[r.daddr];
      assert rt0.flags == Up;
      out := [];
      if r.ttl != 0 {
        rt0.expire := now + P.ACTIVE_ROUTE_TIMEOUT;
        out := [P.Rrep(r.(hopCount := r.hopCount + 1, src := index, nextHop := rt0.nexthop))];
      }
      OnlyEntry(r.daddr);
      label Forwarded:
      rt.PcInsert(rt0.nexthop);
      OnlyEntry@Forwarded(r.dst);
    }

    // ---------- errors, lost neighbours, expiry ----------

    /** One destination of a route error. */
    method ErrorHeard(rt: RtEntry, via: Addr, u: nat) returns (report: Option<nat>)
      requires rt.hops.Some? && rt.nexthop == via && rt.seqno <= u ==> rt.flags.Up? && rt.seqno % 2 == 0
      modifies rt
      ensures rt.dst == old(rt.dst) && (rt.View(), report) == P.ErrorHeard(old(rt.View()), via, u)
    {
      report := None;
      if rt.hops != None && rt.nexthop == via && rt.seqno <= u {
        assert rt.flags == Up && rt.seqno % 2 == 0;
        rt.seqno := u;
        RtDown(rt);
        var empty := rt.PcEmpty();
        if !empty {
          report := Some(rt.seqno);
          rt.PcDeleteAll();
        }
      }
    }

    lemma AllHeard(n: P.Node, saddr: Addr, unreachable: map<Addr, nat>, nre: map<Addr, nat>)
      requires Shape(n)
      requires forall d :: d in rtable ==>
        rtable[d].View() == if d in unreachable then P.ErrorHeard(n.table[d], saddr, unreachable[d]).0 else n.table[d]
      requires forall d :: d in nre <==>
        d in rtable && d in unreachable && P.ErrorHeard(n.table[d], saddr, unreachable[d]).1.Some?
      requires forall d :: d in nre ==> nre[d] == P.ErrorHeard(n.table[d], saddr, unreachable[d]).1.value
      ensures (View(), P.SendError(index, nre)) == P.RecvError(n, saddr, unreachable)
    {
      hide P.ErrorHeard;
      assert View().table == P.RecvError(n, saddr, unreachable).0.table;
      assert nre == P.ErrorReports(n, saddr, unreachable);
    }

    method RecvError(saddr: Addr, unreachable: map<Addr, nat>) returns (out: seq<P.Packet>)
      requires Valid()
      requires forall d :: d in rtable && d in unreachable ==>
        (rtable[d].hops.Some? && rtable[d].nexthop == saddr && rtable[d].seqno <= unreachable[d] ==>
           rtable[d].flags.Up? && rtable[d].seqno % 2 == 0)
      modifies rtable.Values
      ensures Valid() && (View(), out) == P.RecvError(old(View()), saddr, unreachable)
    {
      hide P.ErrorHeard, View, RtEntry.View, P.RecvError, P.SendError;
      ghost var before := View();
      ViewIs();
      var todo, nre := unreachable.Keys, map[];
      while todo != {}
        invariant todo <= unreachable.Keys && Valid()
        invariant forall d :: d in rtable && (d in todo || d !in unreachable) ==> unchanged(rtable[d])
        invariant forall d :: d in rtable ==>
          rtable[d].View() ==
            if d in unreachable && d !in todo then P.ErrorHeard(before.table[d], saddr, unreachable[d]).0
                              else before.table[d]
        invariant forall d :: d in nre <==>
          d in rtable && d in unreachable && d !in todo && P.ErrorHeard(before.table[d], saddr, unreachable[d]).1.Some?
        invariant forall d :: d in nre ==> nre[d] == P.ErrorHeard(before.table[d], saddr, unreachable[d]).1.value
      {
        var d :| d in todo;
        todo := todo - {d};
        if d in rtable {
          var report := ErrorHeard(rtable[d], saddr, unreachable[d]);
          if report.Some? { nre := nre[d := report.value]; }
        }
      }
      AllHeard(before, saddr, unreachable, nre);
      out := SendError(nre);
    }

    method SendError(rerr: map<Addr, nat>) returns (out: seq<P.Packet>)
      ensures out == P.SendError(index, rerr)
    {
      if rerr != map[] { out := [P.Rerr(index, rerr)]; } else { out := []; }
    }

    /** One route entry when the neighbour id is lost. */
    method LinkFailure(rt: RtEntry, id: Addr) returns (report: Option<nat>)
      requires rt.hops.Some? && rt.nexthop == id ==> rt.flags.Up? && rt.seqno % 2 == 0
      modifies rt
      ensures rt.dst == old(rt.dst) && (rt.View(), report) == P.LinkFailure(old(rt.View()), id)
    {
      report := None;
      if rt.hops != None && rt.nexthop == id {
        assert rt.flags == Up && rt.seqno % 2 == 0;
        rt.seqno := rt.seqno + 1;
        report := Some(rt.seqno);
        RtDown(rt);
      }
      rt.PcDelete(id);
    }

    lemma AllFailed(n: P.Node, id: Addr, re: map<Addr, nat>)
      requires Shape(n)
      requires forall d :: d in rtable ==> rtable[d].View() == P.LinkFailure(n.table[d], id).0
      requires forall d :: d in re <==> d in rtable && P.LinkFailure(n.table[d], id).1.Some?
      requires forall d :: d in re ==> re[d] == P.LinkFailure(n.table[d], id).1.value
      ensures (View(), P.SendError(index, re)) == P.HandleLinkFailure(n, id)
    {
      hide P.LinkFailure;
      assert View().table == P.HandleLinkFailure(n, id).0.table;
      assert re == P.LossReports(n, id);
    }

    method HandleLinkFailure(id: Addr) returns (out: seq<P.Packet>)
      requires Valid()
      requires forall d :: d in rtable && rtable[d].hops.Some? && rtable[d].nexthop == id ==>
        rtable[d].flags.Up? && rtable[d].seqno % 2 == 0
      modifies rtable.Values
      ensures Valid() && (View(), out) == P.HandleLinkFailure(old(View()), id)
    {
      hide P.LinkFailure, View, RtEntry.View, P.HandleLinkFailure, P.SendError;
      ghost var before := View();
      ViewIs();
      var todo, re := rtable.Keys, map[];
      while todo != {}
        invariant todo <= rtable.Keys && Valid()
        invariant forall d :: d in todo ==> unchanged(rtable[d])
        invariant forall d :: d in rtable ==>
          rtable[d].View() == if d !in todo then P.LinkFailure(before.table[d], id).0 else before.table[d]
        invariant forall d :: d in re <==> d in rtable && d !in todo && P.LinkFailure(before.table[d], id).1.Some?
        invariant forall d :: d in re ==> re[d] == P.LinkFailure(before.table[d], id).1.value
      {
        var d :| d in todo;
        todo := todo - {d};
        var report := LinkFailure(rtable[d], id);
        if report.Some? { re := re[d := report.value]; }
      }
      AllFailed(before, id, re);
      out := SendError(re);
    }

    method NbDelete(id: Addr) returns (out: seq<P.Packet>)
      requires Valid() && seqno % 2 == 0
      requires forall d :: d in rtable && rtable[d].hops.Some? && rtable[d].nexthop == id ==>
        rtable[d].flags.Up? && rtable[d].seqno % 2 == 0
      modifies this`seqno, this`nbs, rtable.Values
      ensures Valid() && (View(), out) == P.NbDelete(old(View()), id)
    {
      hide P.HandleLinkFailure, View;
      EntryForIs(id);
      seqno := seqno + 2;
      assert seqno % 2 == 0;
      nbs := nbs - {id};
      NoEntry();
      out := HandleLinkFailure(id);
    }

    method Purge(rt: RtEntry, now: real)
      requires rt.flags.Up? ==> rt.hops.Some? && rt.seqno % 2 == 0
      modifies rt
      ensures rt.dst == old(rt.dst) && rt.View() == P.Purge(old(rt.View()), now)
    {
      if rt.flags == Up && rt.expire < now {
        assert rt.hops != None;
        rt.seqno := rt.seqno + 1;
        assert rt.seqno % 2 == 1;
        RtDown(rt);
      }
    }

    method RtPurge(now: real)
      requires Valid()
      requires forall d :: d in rtable && rtable[d].flags.Up? ==> rtable[d].hops.Some? && rtable[d].seqno % 2 == 0
      modifies rtable.Values
      ensures Valid() && View() == P.RtPurge(old(View()), now)
    {
      hide P.Purge;
      var todo := rtable.Keys;
      while todo != {}
        invariant todo <= rtable.Keys && Valid()
        invariant forall d :: d in todo ==> unchanged(rtable[d])
        invariant forall d :: d in rtable ==>
          rtable[d].View() == if d !in todo then P.Purge(old(rtable[d].View()), now) else old(rtable[d].View())
      {
        var d :| d in todo;
        todo := todo - {d};
        Purge(rtable[d], now);
      }
      assert View().table == P.RtPurge(old(View()), now).table;
    }

    method IdPurge(now: real)
      requires Valid()
      modifies this`bcache
      ensures Valid() && View() == P.IdPurge(old(View()), now)
    {
      var todo := bcache.Keys;
      while todo != {}
        invariant todo <= old(bcache).Keys
        invariant forall k :: k in bcache <==> k in old(bcache) && (k in todo || old(bcache)[k] > now)
        invariant forall k :: k in bcache ==> bcache[k] == old(bcache)[k]
      {
        var k :| k in todo;
        todo := todo - {k};
        if k in bcache && bcache[k] <= now { bcache := bcache - {k}; }
      }
      NoEntry();
    }

    method RecvHello(d: Addr, now: real)
      requires Valid() && seqno % 2 == 0
      modifies this`nbs, this`seqno
      ensures Valid() && View() == P.RecvHello(old(View()), d, now) && seqno % 2 == 0
    {
      if d !in nbs {
        nbs := nbs[d := now + P.NEIGHBOR_LIFE];
        seqno := seqno + 2;
      } else {
        nbs := nbs[d := now + P.NEIGHBOR_LIFE];
      }
      NoEntry();
    }

    // ---------- originating ----------

    method RequestTimeout(ttl: nat, cnt: nat, perHop: real, now: real) returns (t: real)
      ensures t == P.RequestTimeout(ttl, cnt, perHop, now)
    {
      t := 2.0 * ttl as real * perHop;
      if cnt > 0 { t := t * cnt as real; }
      t := t + now;
      if t > now + P.MAX_RREQ_TIMEOUT { t := now + P.MAX_RREQ_TIMEOUT; }
    }

    /** The ring that is searched next is entered in rt. */
    method Widen(rt: RtEntry, perHop: real, now: real) returns (ttl: nat)
      modifies rt
      ensures rt.dst == old(rt.dst) && ttl == P.RequestTtl(old(rt.View())).0
      ensures var e := old(rt.View());
        var cnt := if P.RequestTtl(e).1 then e.reqCnt + 1 else e.reqCnt;
        rt.View() == e.(reqLastTtl := ttl, reqCnt := cnt, expire := 0.0,
          reqTimeout := P.RequestTimeout(ttl, cnt, perHop, now))
    {
      hide P.RequestTimeout;
      rt.reqLastTtl := Max(rt.reqLastTtl, rt.lastHopCount);
      if rt.reqLastTtl == 0 {
        ttl := P.TTL_START;
      } else if rt.reqLastTtl < P.TTL_THRESHOLD {
        ttl := rt.reqLastTtl + P.TTL_INCREMENT;
      } else {
        ttl := P.NETWORK_DIAMETER;
        rt.reqCnt := rt.reqCnt + 1;
      }
      rt.reqLastTtl := ttl;
      rt.reqTimeout := RequestTimeout(ttl, rt.reqCnt, perHop, now);
      rt.expire := 0.0;
    }

    method SendRequest(d: Addr, perHop: real, now: real) returns (out: seq<P.Packet>)
      requires Valid() && d in rtable && seqno % 2 == 0 && (rtable[d].flags.Up? ==> rtable[d].hops.Some?)
      modifies this`seqno, this`bid, rtable[d]
      ensures Valid() && (View(), out) == P.SendRequest(old(View()), d, perHop, now)
    {
      hide P.RequestTimeout, P.RequestTtl, View;
      EntryForIs(d);
      var rt := rtable[d];
      if rt.flags == Up {
        assert rt.hops != None;
        return [];
      }
      if rt.reqTimeout > now { return []; }
      if rt.reqCnt > P.RREQ_RETRIES {
        rt.reqTimeout, rt.reqCnt := now + P.MAX_RREQ_TIMEOUT, 0;
        OnlyEntry(d);
        return [];
      }
      var ttl := Widen(rt, perHop, now);
      seqno := seqno + 2;
      assert seqno % 2 == 0;
      out := [P.Rreq(P.Request(index, ttl, index, seqno, d, rt.seqno, 1, bid, now))];
      bid := bid + 1;
      OnlyEntry(d);
    }

    method RtResolve(saddr: Addr, d: Addr, perHop: real, now: real) returns (out: seq<P.Packet>)
      requires Valid() && (saddr == index ==> seqno % 2 == 0)
      requires EntryFor(d).flags.Up? ==> EntryFor(d).hops.Some?
      modifies this, rtable.Values
      ensures Valid() && fresh(rtable.Values - old(rtable.Values))
      ensures (View(), out) == P.RtResolve(old(View()), saddr, d, perHop, now)
    {
      hide P.SendRequest, View;
      EntryForIs(d);
      var rt := RtFind(d);
      label Found:
      out := [];
      if rt.flags == Up {
        assert rt.hops != None;
        rt.expire := now + P.ACTIVE_ROUTE_TIMEOUT;
        OnlyEntry@Found(d);
      } else if saddr == index {
        out := SendRequest(d, perHop, now);
      } else if rt.flags == InRepair {
      } else {
        assert rt.flags == Down;
        out := [P.Rerr(index, map[d := rt.seqno])];
      }
    }

    // ---------- local repair ----------

    method LocalRepair(d: Addr, perHop: real, now: real) returns (out: seq<P.Packet>)
      requires Valid() && d in rtable && seqno % 2 == 0
      modifies this`seqno, this`bid, rtable[d]
      ensures Valid() && (View(), out) == P.LocalRepair(old(View()), d, perHop, now)
    {
      hide P.SendRequest, View;
      EntryForIs(d);
      rtable[d].flags := InRepair;
      OnlyEntry(d);
      out := SendRequest(d, perHop, now);
    }

    method RepairTimeout(d: Addr)
      requires Valid()
      modifies rtable.Values
      ensures Valid() && View() == P.RepairTimeout(old(View()), d)
    {
      hide View;
      EntryForIs(d);
      if d in rtable && rtable[d].flags != Up {
        RtDown(rtable[d]);
        OnlyEntry(d);
      }
    }
  }
}
