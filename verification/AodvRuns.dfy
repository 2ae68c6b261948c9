/** The AODV agent in a run: the objects may carry out whatever event comes next. */
module AodvRuns {
  import opened Common
  import opened AodvProtocol
  import opened AodvNetwork
  import A = AodvAgent

  /** What the methods take for granted is what the code asserts, so it holds for every event that may come next;
      AodvNetwork.AssertionsHold says that without local repair every possible event is such. */
  lemma Ready(a: A.Aodv, n: Node, e: Event)
    requires a.View() == n && !e.Tick? && Asserts(n, e)
    ensures a.index == n.index && a.seqno == n.seqno && a.rtable.Keys == n.table.Keys
    ensures e.Resolve? ==> a.EntryFor(e.dst).flags.Up? ==> a.EntryFor(e.dst).hops.Some?
    ensures e.Ask? && e.dst in a.rtable && a.rtable[e.dst].flags.Up? ==> a.rtable[e.dst].hops.Some?
    ensures e.NbLoss? ==> forall d :: d in a.rtable && a.rtable[d].hops.Some? && a.rtable[d].nexthop == e.id ==>
      a.rtable[d].flags.Up? && a.rtable[d].seqno % 2 == 0
    ensures e.RouteTick? ==> forall d :: d in a.rtable && a.rtable[d].flags.Up? ==>
      a.rtable[d].hops.Some? && a.rtable[d].seqno % 2 == 0
  {
    a.ViewIs();
    if e.Resolve? { a.EntryForIs(e.dst); }
    assert forall d :: d in a.rtable ==> n.table[d] == a.rtable[d].View();
  }

  lemma ReadyForReply(a: A.Aodv, n: Node, e: Event, r: Reply)
    requires a.View() == n && e.Deliver? && e.m.p == Rrep(r) && Asserts(n, e)
    ensures r.daddr != a.index && r.daddr in a.rtable && r.daddr != r.dst ==>
      (a.rtable[r.daddr].hops.Some? && Fresher(r.dstSeqno, r.hopCount, a.EntryFor(r.dst)) ==>
        a.rtable[r.daddr].flags.Up?)
  {
    hide Fresher;
    a.ViewIs();
    a.EntryForIs(r.dst);
    assert r.daddr in a.rtable ==> n.table[r.daddr] == a.rtable[r.daddr].View();
  }

  lemma ReadyForError(a: A.Aodv, n: Node, e: Event, saddr: Addr, unreachable: map<Addr, nat>)
    requires a.View() == n && e.Deliver? && e.m.p == Rerr(saddr, unreachable) && Asserts(n, e)
    ensures forall d :: d in a.rtable && d in unreachable ==>
      (a.rtable[d].hops.Some? && a.rtable[d].nexthop == saddr && a.rtable[d].seqno <= unreachable[d] ==>
         a.rtable[d].flags.Up? && a.rtable[d].seqno % 2 == 0)
  {
    a.ViewIs();
    assert forall d :: d in a.rtable ==> n.table[d] == a.rtable[d].View();
  }

  /** recv and recvAODV: one hop is taken off the time to live, then the packet is dispatched. */
  method Recv(a: A.Aodv, p: Packet, now: real, ghost e: Event) returns (out: seq<Packet>)
    requires a.Valid() && e.Deliver? && e.m.p == p && Asserts(a.View(), e)
    modifies a, a.rtable.Values
    ensures a.Valid() && fresh(a.rtable.Values - old(a.rtable.Values))
    ensures (a.View(), out) == AodvProtocol.Recv(old(a.View()), p, now)
  {
    hide A.Aodv.View, A.Aodv.Valid, A.Aodv.EntryFor, Fresher, RecvRequest, RecvReply, RecvHello, RecvError;
    Ready(a, a.View(), e);
    out := [];
    match p
    case Rreq(q) => out := a.RecvRequest(q.(ttl := q.ttl - 1), now);
    case Rrep(r) =>
      ReadyForReply(a, a.View(), e, r);
      out := a.RecvReply(r.(ttl := r.ttl - 1), now);
    case Rerr(saddr, unreachable) =>
      ReadyForError(a, a.View(), e, saddr, unreachable);
      out := a.RecvError(saddr, unreachable);
    case Hello(d, _) => a.RecvHello(d, now);
  }

  /** In every state of every run, an agent that is one of its nodes carries out any event that may come next,
      and is then that node of the next state and sends what the step sends. */
  method Execute(a: A.Aodv, e: Event, now: real, ghost run: seq<Sys>, ghost events: seq<Event>, ghost k: nat)
    returns (out: seq<Packet>)
    requires a.Valid() && IsRun(run, events) && k < |run| && Enabled(run[k], e) && !e.Tick? && now == run[k].now
    requires a.View() == run[k].nodes[e.at]
    modifies a, a.rtable.Values
    ensures a.Valid() && fresh(a.rtable.Values - old(a.rtable.Values))
    ensures a.View() == Step(run[k], e).nodes[e.at]
    ensures out == React(run[k].nodes[e.at], e, now).1
  {
    hide A.Aodv.View, A.Aodv.Valid, A.Aodv.EntryFor, IsRun;
    hide AodvProtocol.Recv, RtResolve, SendRequest, NbDelete, RtPurge, IdPurge, LocalRepair, RepairTimeout;
    Ready(a, run[k].nodes[e.at], e);
    out := [];
    match e
    case Deliver(_, m) => out := Recv(a, m.p, now, e);
    case Resolve(_, saddr, dst, perHop) => out := a.RtResolve(saddr, dst, perHop, now);
    case Ask(_, dst, perHop) => out := a.SendRequest(dst, perHop, now);
    case SayHello(_) => out := a.SendHello();
    case NbLoss(_, id) => out := a.NbDelete(id);
    case RouteTick(_) => a.RtPurge(now);
    case BcastTick(_) => a.IdPurge(now);
    case Repair(_, dst, perHop, _) => out := a.LocalRepair(dst, perHop, now);
    case RepairTick(_, dst) => a.RepairTimeout(dst);
  }
}
