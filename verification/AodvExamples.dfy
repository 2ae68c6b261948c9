/** Two concrete runs of AODV that show where loop freedom ends: a route being repaired that
    is taken down by the repair timer, and a node that learns a route to itself. */
module AodvExamples {
  import opened Common
  import opened AodvProtocol
  import opened AodvNetwork

  function Extended(run: seq<Sys>, e: Event): seq<Sys>
    requires |run| > 0 && Enabled(run[|run| - 1], e)
  {
    run + [Step(run[|run| - 1], e)]
  }

  lemma ExtendRun(run: seq<Sys>, events: seq<Event>, e: Event)
    requires IsRun(run, events) && Enabled(run[|run| - 1], e)
    ensures IsRun(Extended(run, e), events + [e])
  {
    hide Enabled, Step, Initial;
    var run', events' := Extended(run, e), events + [e];
    forall k | 0 <= k < |events'| ensures Enabled(run'[k], events'[k]) && run'[k + 1] == Step(run'[k], events'[k]) {
      assert k < |events| ==> run'[k] == run[k] && events'[k] == events[k] && run'[k + 1] == run[k + 1];
    }
  }

  /** What one event with one packet as its answer does to a state. */
  lemma StepIs(s: Sys, e: Event, n': Node, out: Packet)
    requires Enabled(s, e) && !e.Tick? && React(s.nodes[e.at], e, s.now) == (n', [out])
    ensures Step(s, e) == s.(nodes := s.nodes[e.at := n'], net := s.net + {Label(e, out)})
  {
    assert (set p | p in [out] :: Label(e, p)) == {Label(e, out)};
  }

  lemma QuietStepIs(s: Sys, e: Event, n': Node)
    requires Enabled(s, e) && !e.Tick? && React(s.nodes[e.at], e, s.now) == (n', [])
    ensures Step(s, e) == s.(nodes := s.nodes[e.at := n'])
  {
    assert (set p | p in [] :: Label(e, p)) == {};
  }

  const Start: Sys := Sys(map[0 := NewNode(0), 1 := NewNode(1), 2 := NewNode(2), 3 := NewNode(3)], {}, 0.0)

  /** A node looks for a node d it has never heard of. */
  lemma FirstAsk(n: Node, d: Addr) returns (n': Node)
    requires d !in n.table
    ensures RtResolve(n, n.index, d, 0.03, 0.0)
      == (n', [Rreq(Request(n.index, 30, n.index, n.seqno + 2, d, 0, 1, n.bid, 0.0))])
    ensures n'.index == n.index && n'.seqno == n.seqno + 2 && n'.bid == n.bid + 1 && n'.bcache == n.bcache
    ensures n'.table.Keys == n.table.Keys + {d}
  {
    n' := RtResolve(n, n.index, d, 0.03, 0.0).0;
    assert RequestTtl(NewEntry(d)) == (30, true);
  }

  /** A node that knows nothing about src hears of it and passes the request on. */
  lemma PassOn(n: Node, q: Request) returns (n': Node)
    requires q.src != n.index && (q.src, q.bcastId) !in n.bcache && q.src !in n.table
    requires q.dst != n.index && q.dst !in n.table && q.dst != q.src && q.srcSeqno > 0 && q.ttl > 1
    ensures Recv(n, Rreq(q), 0.0) == (n', [Rreq(q.(ttl := q.ttl - 1, saddr := n.index, hopCount := q.hopCount + 1))])
    ensures n'.index == n.index && n'.seqno == n.seqno && n'.bid == n.bid
    ensures n'.table.Keys == n.table.Keys + {q.src} && n'.bcache.Keys == n.bcache.Keys + {(q.src, q.bcastId)}
    ensures forall d :: d in n.table ==> n'.table[d] == n.table[d]
    ensures var e := n'.table[q.src];
      e.seqno == q.srcSeqno && e.hops == Some(q.hopCount) && e.nexthop == q.saddr && e.flags.Up?
      && e.reqTimeout == 0.0 && e.reqCnt == 0
  {
    n' := Recv(n, Rreq(q), 0.0).0;
  }

  /** Adds one event, answered by one packet, to a run. */
  lemma Grow(run: seq<Sys>, events: seq<Event>, e: Event, n': Node, out: Packet)
    returns (run': seq<Sys>, events': seq<Event>)
    requires IsRun(run, events) && Enabled(run[|run| - 1], e) && !e.Tick?
    requires var s := run[|run| - 1]; React(s.nodes[e.at], e, s.now) == (n', [out])
    ensures IsRun(run', events') && events' == events + [e] && |run'| == |run| + 1 && run'[..|run|] == run
    ensures var s := run[|run| - 1];
      run'[|run|] == s.(nodes := s.nodes[e.at := n'], net := s.net + {Label(e, out)})
  {
    hide Enabled, React;
    StepIs(run[|run| - 1], e, n', out);
    ExtendRun(run, events, e);
    run', events' := Extended(run, e), events + [e];
  }

  lemma GrowQuietly(run: seq<Sys>, events: seq<Event>, e: Event, n': Node) returns (run': seq<Sys>, events': seq<Event>)
    requires IsRun(run, events) && Enabled(run[|run| - 1], e) && !e.Tick?
    requires var s := run[|run| - 1]; React(s.nodes[e.at], e, s.now) == (n', [])
    ensures IsRun(run', events') && events' == events + [e] && |run'| == |run| + 1 && run'[..|run|] == run
    ensures var s := run[|run| - 1]; run'[|run|] == s.(nodes := s.nodes[e.at := n'])
  {
    hide Enabled, React;
    QuietStepIs(run[|run| - 1], e, n');
    ExtendRun(run, events, e);
    run', events' := Extended(run, e), events + [e];
  }

  predicate Knows(n: Node, d: Addr, seqno: nat, hops: nat, via: Addr) {
    && d in n.table
    && var e := n.table[d];
       e.seqno == seqno && e.hops == Some(hops) && e.nexthop == via && e.flags.Up? && e.reqTimeout == 0.0
         && e.reqCnt == 0
  }

  lemma StartRun()
    ensures IsRun([Start], [])
  {
  }

  /** Node 0 looks for node 9; node 1 hears it from 0 and node 2 from 1. */
  lemma TwoRoutesToZero() returns (run: seq<Sys>, events: seq<Event>, one: Node, two: Node)
    ensures IsRun(run, events) && |run| == 4
    ensures var s := run[3];
      && s.now == 0.0 && 1 in s.nodes && 2 in s.nodes && s.nodes[1] == one && s.nodes[2] == two
      && 3 in s.nodes && s.nodes[3] == NewNode(3) && Sent(Rreq(Request(2, 28, 0, 4, 9, 0, 3, 1, 0.0)), 0) in s.net
    ensures one.index == 1 && one.seqno == 2 && one.bid == 1 && Knows(one, 0, 4, 1, 0)
    ensures two.index == 2 && two.table.Keys == {0} && two.bcache.Keys == {(0, 1)} && Knows(two, 0, 4, 2, 1)
  {
    hide React, Enabled, IsRun;
    StartRun();
    run, events := [Start], [];
    var ask := Request(0, 30, 0, 4, 9, 0, 1, 1, 0.0);
    var e := Resolve(0, 0, 9, 0.03);
    assert Enabled(Start, e) by { Allowed(Start, e); }
    var zero := FirstAsk(NewNode(0), 9);
    assert React(NewNode(0), e, 0.0) == (zero, [Rreq(ask)]) by { ReactIs(NewNode(0), e, 0.0); }
    run, events := Grow(run, events, e, zero, Rreq(ask));

    e := Deliver(1, Sent(Rreq(ask), 0));
    assert Enabled(run[1], e) by { Allowed(run[1], e); }
    one := PassOn(NewNode(1), ask);
    var ask1 := ask.(ttl := 29, saddr := 1, hopCount := 2);
    assert React(NewNode(1), e, 0.0) == (one, [Rreq(ask1)]) by { ReactIs(NewNode(1), e, 0.0); }
    run, events := Grow(run, events, e, one, Rreq(ask1));

    e := Deliver(2, Sent(Rreq(ask1), 0));
    assert Enabled(run[2], e) by { Allowed(run[2], e); }
    two := PassOn(NewNode(2), ask1);
    var ask2 := ask1.(ttl := 28, saddr := 2, hopCount := 3);
    assert React(NewNode(2), e, 0.0) == (two, [Rreq(ask2)]) by { ReactIs(NewNode(2), e, 0.0); }
    run, events := Grow(run, events, e, two, Rreq(ask2));
  }

  /** Node 3 hears it from 2, so that what it sends to 0 goes through 2 and 1. */
  lemma RoutesToZero() returns (run: seq<Sys>, events: seq<Event>, one: Node, two: Node)
    ensures IsRun(run, events) && |run| == 5
    ensures var s := run[4];
      s.now == 0.0 && 1 in s.nodes && 2 in s.nodes && s.nodes[1] == one && s.nodes[2] == two && Walk(s, 0, [3, 2, 1, 0])
    ensures one.index == 1 && one.seqno == 2 && one.bid == 1 && Knows(one, 0, 4, 1, 0)
    ensures two.index == 2 && two.table.Keys == {0} && two.bcache.Keys == {(0, 1)} && Knows(two, 0, 4, 2, 1)
  {
    hide React, Enabled, IsRun;
    run, events, one, two := TwoRoutesToZero();
    var ask2 := Request(2, 28, 0, 4, 9, 0, 3, 1, 0.0);
    var e := Deliver(3, Sent(Rreq(ask2), 0));
    assert Enabled(run[3], e) by { Allowed(run[3], e); }
    var three := PassOn(NewNode(3), ask2);
    var ask3 := ask2.(ttl := 27, saddr := 3, hopCount := 4);
    assert React(NewNode(3), e, 0.0) == (three, [Rreq(ask3)]) by { ReactIs(NewNode(3), e, 0.0); }
    run, events := Grow(run, events, e, three, Rreq(ask3));
    assert Edge(run[4], 0, 3, 2) && Edge(run[4], 0, 2, 1) && Edge(run[4], 0, 1, 0);
  }

  lemma Allowed(s: Sys, e: Event)
    requires Possible(s, e) && (!e.Tick? ==> Asserts(s.nodes[e.at], e))
    ensures Enabled(s, e)
  {
  }

  lemma ReactIs(n: Node, e: Event, now: real)
    requires e.Deliver? || e.Resolve? || (e.Repair? && e.dst in n.table) || e.RepairTick?
    ensures e.Deliver? ==> React(n, e, now) == Recv(n, e.m.p, now)
    ensures e.Resolve? ==> React(n, e, now) == RtResolve(n, e.saddr, e.dst, e.perHop, now)
    ensures e.Repair? ==> React(n, e, now) == LocalRepair(n, e.dst, e.perHop, now)
    ensures e.RepairTick? ==> React(n, e, now) == (RepairTimeout(n, e.dst), [])
  {
  }

  /** A packet from node 3 comes to node 1 by way of node 2, passed on twice, and is stuck there: 1 repairs its
      route of one hop to 0, and 2 answers with the very route that leads through 1. */
  lemma RepairAnswered() returns (run: seq<Sys>, events: seq<Event>, one: Node, reply: Reply)
    ensures IsRun(run, events) && |run| == 7 && Walk(run[4], 0, [3, 2, 1, 0]) && events[4] == Repair(1, 0, 0.03, 2)
    ensures var s := run[6];
      && s.now == 0.0 && 1 in s.nodes && 2 in s.nodes && s.nodes[1] == one && Sent(Rrep(reply), 4) in s.net
      && 0 in s.nodes[2].table && s.nodes[2].table[0].hops.Some? && s.nodes[2].table[0].nexthop == 1
    ensures one.index == 1 && 0 in one.table && one.table[0].seqno == 4 && one.table[0].hops.Some?
      && one.table[0].flags.InRepair?
    ensures reply.daddr == 1 && reply.nextHop == 1 && reply.src == 2 && reply.dst == 0 && reply.dstSeqno == 4
      && reply.hopCount == 3 && reply.ttl == 30
  {
    hide React, Enabled, IsRun;
    var one0, two;
    run, events, one0, two := RoutesToZero();
    RunLength(run, events);

    // the packet was passed on more often than the route is long, so 1 repairs it
    var e := Repair(1, 0, 0.03, 2);
    assert Enabled(run[4], e) by { Allowed(run[4], e); }
    var ask;
    one, ask := Repairing(one0);
    assert React(one0, e, 0.0) == (one, [Rreq(ask)]) by { ReactIs(one0, e, 0.0); }
    run, events := Grow(run, events, e, one, Rreq(ask));

    // 2 answers
    e := Deliver(2, Sent(Rreq(ask), 4));
    assert Enabled(run[5], e) by { Allowed(run[5], e); }
    var two';
    two', reply := Answering(two, ask);
    assert React(two, e, 0.0) == (two', [Rrep(reply)]) by { ReactIs(two, e, 0.0); }
    run, events := Grow(run, events, e, two', Rrep(reply));
  }

  /** The repair timer forgets that the entry at 1 was better than the answer, and 1 believes 2. */
  lemma RepairLoop() returns (run: seq<Sys>, events: seq<Event>)
    ensures IsRun(run, events) && !RepairsInTime(run, events)
    ensures |run| > 5 && Walk(run[4], 0, [3, 2, 1, 0]) && events[4] == Repair(1, 0, 0.03, 2)
    ensures Walk(run[|run| - 1], 0, [1, 2, 1])
  {
    hide React, Enabled, IsRun;
    var one', reply;
    run, events, one', reply := RepairAnswered();

    // the repair timer of 1 fires
    var e := Tick(1.8);
    assert Enabled(run[6], e) by { Allowed(run[6], e); }
    ExtendRun(run, events, e);
    assert |events| == 6 by { RunLength(run, events); }
    run, events := Extended(run, e), events + [e];
    e := RepairTick(1, 0);
    assert Enabled(run[7], e) by { Allowed(run[7], e); }
    var one'' := RepairTimeout(one', 0);
    assert React(one', e, 1.8) == (one'', []) by { ReactIs(one', e, 1.8); }
    run, events := GrowQuietly(run, events, e, one'');

    // and only then the answer arrives
    e := Deliver(1, Sent(Rrep(reply), 4));
    var last := RecvReply(one'', reply.(ttl := 29), 1.8).0;
    assert Enabled(run[8], e) by { Allowed(run[8], e); }
    assert React(one'', e, 1.8) == (last, []) by { ReactIs(one'', e, 1.8); }
    var before := run;
    run, events := GrowQuietly(run, events, e, last);
    assert run[7] == before[7] && events[7] == RepairTick(1, 0);
    assert Edge(run[9], 0, 1, 2) && Edge(run[9], 0, 2, 1);
  }

  lemma RunLength(run: seq<Sys>, events: seq<Event>)
    requires IsRun(run, events)
    ensures |run| == |events| + 1
  {
  }

  lemma Repairing(one: Node) returns (n': Node, q: Request)
    requires one.index == 1 && one.seqno == 2 && one.bid == 1 && 0 in one.table
    requires var e := one.table[0]; e.seqno == 4 && e.hops.Some? && e.reqTimeout == 0.0 && e.reqCnt == 0
    ensures LocalRepair(one, 0, 0.03, 0.0) == (n', [Rreq(q)])
    ensures q.saddr == 1 && q.src == 1 && q.srcSeqno == 4 && q.dst == 0 && q.dstSeqno == 4 && q.hopCount == 1
      && q.bcastId == 1
    ensures n'.index == 1 && n'.table.Keys == one.table.Keys
    ensures var e := n'.table[0]; e.seqno == 4 && e.hops.Some? && e.flags.InRepair?
  {
    hide RequestTtl, RequestTimeout;
    n' := LocalRepair(one, 0, 0.03, 0.0).0;
    q := LocalRepair(one, 0, 0.03, 0.0).1[0].q;
  }

  lemma Answering(two: Node, q: Request) returns (n': Node, r: Reply)
    requires two.index == 2 && 1 !in two.table && (1, 1) !in two.bcache && 0 in two.table
    requires var e := two.table[0]; e.seqno == 4 && e.hops == Some(2) && e.nexthop == 1
    requires q.saddr == 1 && q.src == 1 && q.srcSeqno == 4 && q.dst == 0 && q.dstSeqno == 4 && q.hopCount == 1
      && q.bcastId == 1
    ensures Recv(two, Rreq(q), 0.0) == (n', [Rrep(r)])
    ensures r.daddr == 1 && r.nextHop == 1 && r.src == 2 && r.dst == 0 && r.dstSeqno == 4 && r.hopCount == 3
      && r.ttl == 30
    ensures n'.index == 2 && 0 in n'.table && n'.table[0].hops.Some? && n'.table[0].nexthop == 1
  {
    hide Truncate;
    n' := Recv(two, Rreq(q), 0.0).0;
    r := Recv(two, Rreq(q), 0.0).1[0].r;
  }

  // ---------- a route to oneself ----------

  /** Node 2 looks for 0 and then for 9; node 0 looks for 8. */
  lemma ThreeRequests() returns (run: seq<Sys>, events: seq<Event>, zero: Node)
    ensures IsRun(run, events) && NoRepairs(events) && |run| == 4
    ensures var s := run[3];
      s.now == 0.0 && 0 in s.nodes && 1 in s.nodes && s.nodes[0] == zero && s.nodes[1] == NewNode(1)
    ensures Sent(Rreq(Request(2, 30, 2, 4, 0, 0, 1, 1, 0.0)), 0) in run[3].net
    ensures Sent(Rreq(Request(2, 30, 2, 6, 9, 0, 1, 2, 0.0)), 0) in run[3].net
    ensures Sent(Rreq(Request(0, 30, 0, 4, 8, 0, 1, 1, 0.0)), 0) in run[3].net
    ensures zero.index == 0 && zero.seqno == 4 && zero.table.Keys == {8} && zero.bcache == map[]
  {
    hide React, Enabled, IsRun;
    StartRun();
    run, events := [Start], [];
    var e := Resolve(2, 2, 0, 0.03);
    assert Enabled(Start, e) by { Allowed(Start, e); }
    var two := FirstAsk(NewNode(2), 0);
    assert React(NewNode(2), e, 0.0) == (two, [Rreq(Request(2, 30, 2, 4, 0, 0, 1, 1, 0.0))]) by {
      ReactIs(NewNode(2), e, 0.0);
    }
    run, events := Grow(run, events, e, two, Rreq(Request(2, 30, 2, 4, 0, 0, 1, 1, 0.0)));

    e := Resolve(2, 2, 9, 0.03);
    assert Enabled(run[1], e) by { Allowed(run[1], e); }
    var two' := FirstAsk(two, 9);
    assert React(two, e, 0.0) == (two', [Rreq(Request(2, 30, 2, 6, 9, 0, 1, 2, 0.0))]) by { ReactIs(two, e, 0.0); }
    run, events := Grow(run, events, e, two', Rreq(Request(2, 30, 2, 6, 9, 0, 1, 2, 0.0)));

    e := Resolve(0, 0, 8, 0.03);
    assert Enabled(run[2], e) by { Allowed(run[2], e); }
    zero := FirstAsk(NewNode(0), 8);
    assert React(NewNode(0), e, 0.0) == (zero, [Rreq(Request(0, 30, 0, 4, 8, 0, 1, 1, 0.0))]) by {
      ReactIs(NewNode(0), e, 0.0);
    }
    run, events := Grow(run, events, e, zero, Rreq(Request(0, 30, 0, 4, 8, 0, 1, 1, 0.0)));
  }

  /** The second request of node 2 reaches node 1 by way of node 0, so that 1 goes through 0 to
      reach 2; the request of node 0 gives 1 a route to 0. */
  lemma TwoRoutesAtOne() returns (run: seq<Sys>, events: seq<Event>, zero: Node, one: Node)
    ensures IsRun(run, events) && NoRepairs(events) && |run| == 7
    ensures var s := run[6]; s.now == 0.0 && 0 in s.nodes && 1 in s.nodes && s.nodes[0] == zero && s.nodes[1] == one
    ensures Sent(Rreq(Request(2, 30, 2, 4, 0, 0, 1, 1, 0.0)), 0) in run[6].net
    ensures zero.index == 0 && zero.table.Keys == {8, 2} && Knows(zero, 2, 6, 1, 2)
    ensures one.index == 1 && (2, 1) !in one.bcache && Knows(one, 2, 6, 2, 0) && Knows(one, 0, 4, 1, 0)
  {
    hide React, Enabled, IsRun;
    run, events, zero := ThreeRequests();

    var ask := Request(2, 30, 2, 6, 9, 0, 1, 2, 0.0);
    var e := Deliver(0, Sent(Rreq(ask), 0));
    assert Enabled(run[3], e) by { Allowed(run[3], e); }
    var zero0 := zero;
    zero := PassOn(zero0, ask);
    var ask' := ask.(ttl := 29, saddr := 0, hopCount := 2);
    assert React(zero0, e, 0.0) == (zero, [Rreq(ask')]) by { ReactIs(zero0, e, 0.0); }
    run, events := Grow(run, events, e, zero, Rreq(ask'));

    e := Deliver(1, Sent(Rreq(ask'), 0));
    assert Enabled(run[4], e) by { Allowed(run[4], e); }
    var one1 := PassOn(NewNode(1), ask');
    var ask'' := ask'.(ttl := 28, saddr := 1, hopCount := 3);
    assert React(NewNode(1), e, 0.0) == (one1, [Rreq(ask'')]) by { ReactIs(NewNode(1), e, 0.0); }
    run, events := Grow(run, events, e, one1, Rreq(ask''));

    var other := Request(0, 30, 0, 4, 8, 0, 1, 1, 0.0);
    e := Deliver(1, Sent(Rreq(other), 0));
    assert Enabled(run[5], e) by { Allowed(run[5], e); }
    one := PassOn(one1, other);
    var other' := other.(ttl := 29, saddr := 1, hopCount := 2);
    assert React(one1, e, 0.0) == (one, [Rreq(other')]) by { ReactIs(one1, e, 0.0); }
    run, events := Grow(run, events, e, one, Rreq(other'));
  }

  /** The first request of node 2 arrives late at node 1, which answers for node 0 through node 0:
      node 0 learns a route to itself by way of node 1, whose route to 0 leads straight back. */
  lemma SelfRouteLoop() returns (run: seq<Sys>, events: seq<Event>)
    ensures IsRun(run, events) && NoRepairs(events)
    ensures RawWalk(run[|run| - 1], 0, [0, 1, 0])
  {
    hide React, Enabled, IsRun;
    var zero, one;
    run, events, zero, one := TwoRoutesAtOne();

    var late := Request(2, 30, 2, 4, 0, 0, 1, 1, 0.0);
    var e := Deliver(1, Sent(Rreq(late), 0));
    assert Enabled(run[6], e) by { Allowed(run[6], e); }
    var one', reply := AnsweringLate(one, late);
    assert React(one, e, 0.0) == (one', [Rrep(reply)]) by { ReactIs(one, e, 0.0); }
    run, events := Grow(run, events, e, one', Rrep(reply));

    e := Deliver(0, Sent(Rrep(reply), 0));
    assert Enabled(run[7], e) by { Allowed(run[7], e); }
    var zero', reply' := BelievingIt(zero, reply);
    assert React(zero, e, 0.0) == (zero', [Rrep(reply')]) by { ReactIs(zero, e, 0.0); }
    run, events := Grow(run, events, e, zero', Rrep(reply'));
    assert Edge(run[8], 0, 0, 1) && Edge(run[8], 0, 1, 0);
  }

  lemma AnsweringLate(one: Node, q: Request) returns (n': Node, r: Reply)
    requires one.index == 1 && (2, 1) !in one.bcache && Knows(one, 2, 6, 2, 0) && Knows(one, 0, 4, 1, 0)
    requires q == Request(2, 30, 2, 4, 0, 0, 1, 1, 0.0)
    ensures Recv(one, Rreq(q), 0.0) == (n', [Rrep(r)])
    ensures r.daddr == 2 && r.nextHop == 0 && r.src == 1 && r.dst == 0 && r.dstSeqno == 4 && r.hopCount == 2
      && r.ttl == 30
    ensures n'.index == 1 && 0 in n'.table && n'.table[0].hops.Some? && n'.table[0].nexthop == 0
  {
    hide Truncate;
    n' := Recv(one, Rreq(q), 0.0).0;
    r := Recv(one, Rreq(q), 0.0).1[0].r;
  }

  lemma BelievingIt(zero: Node, r: Reply) returns (n': Node, r': Reply)
    requires zero.index == 0 && zero.table.Keys == {8, 2} && Knows(zero, 2, 6, 1, 2)
    requires r.daddr == 2 && r.nextHop == 0 && r.src == 1 && r.dst == 0 && r.dstSeqno == 4 && r.hopCount == 2
      && r.ttl == 30
    ensures Recv(zero, Rrep(r), 0.0) == (n', [Rrep(r')])
    ensures n'.index == 0 && 0 in n'.table && n'.table[0].hops.Some? && n'.table[0].nexthop == 1
  {
    n' := Recv(zero, Rrep(r), 0.0).0;
    r' := Recv(zero, Rrep(r), 0.0).1[0].r;
  }
}
