/** The AOMDV agent in a run: the objects may carry out whatever event comes next. */
module AomdvRuns {
  import opened Common
  import opened AomdvProtocol
  import opened AomdvNetwork
  import A = AomdvAgent

  /** What the methods take for granted about the agent holds in every state of every run. */
  lemma Ready(a: A.Aomdv, run: seq<Sys>, k: nat, i: Addr)
    requires IsRun(run) && k < |run| && i in run[k].nodes && a.View() == run[k].nodes[i]
    ensures a.index == i && a.seqno % 2 == 0 && a.UpHasPath() && a.UpIsEven()
  {
    RunOk(run, k);
    a.ViewIs();
    var heard := Adverts(run[k].net);
    forall d | d in a.rtable && a.rtable[d].flags.Up? ensures a.rtable[d].paths != [] && a.rtable[d].seqno % 2 == 0 {
      assert a.View().table[d] == a.rtable[d].View();
      assert Fine(i, a.View().maxPaths, d, a.View().table[d], heard);
    }
  }

  /** The asserts about the entry that a message from `via` is about, as the methods state them. */
  lemma ReadyFor(a: A.Aomdv, run: seq<Sys>, k: nat, e: Event)
    requires IsRun(run) && k < |run| && Enabled(run[k], e) && e.Deliver? && a.View() == run[k].nodes[e.at]
    ensures a.index == e.at
    ensures match e.p
      case Rreq(q) => q.src != a.index ==>
        UpdateAsserts(a.EntryFor(q.src), q.srcSeqno, q.saddr, q.hopCount,
                      if q.hopCount == 0 then a.index else q.firstHop)
      case Rrep(r) => r.dst != a.index ==> UpdateAsserts(a.EntryFor(r.dst), r.dstSeqno, r.src, r.hopCount, r.firstHop)
      case Hello(r) => r.dst != a.index ==> UpdateAsserts(a.EntryFor(r.dst), r.dstSeqno, r.saddr, r.hopCount, a.index)
      case Rerr(_, _) => true
  {
    hide UpdateAsserts, A.Aomdv.View;
    Ready(a, run, k, e.at);
    AssertionsHold(run, k, e);
    match e.p
    case Rreq(q) => a.EntryForIs(q.src);
    case Rrep(r) => a.EntryForIs(r.dst);
    case Hello(r) => a.EntryForIs(r.dst);
    case Rerr(_, _) =>
  }

  /** recv and recvAOMDV: one hop is taken off the time to live, then the packet is dispatched. */
  method Recv(a: A.Aomdv, p: Packet, now: real, ghost run: seq<Sys>, ghost k: nat, ghost e: Event)
    returns (out: seq<Packet>)
    requires a.Valid() && IsRun(run) && k < |run| && Enabled(run[k], e) && e.Deliver? && e.p == p
    requires a.View() == run[k].nodes[e.at]
    modifies a, a.rtable.Values
    ensures a.Valid() && fresh(a.rtable.Values - old(a.rtable.Values))
    ensures (a.View(), out) == AomdvProtocol.Recv(old(a.View()), p, now)
  {
    hide A.Aomdv.View, A.Aomdv.Valid, A.Aomdv.EntryFor, UpdateAsserts, RecvRequest, RecvReply, RecvHello,
         RecvError, IsRun;
    Ready(a, run, k, e.at);
    ReadyFor(a, run, k, e);
    match p
    case Rreq(q) => out := a.RecvRequest(q.(ttl := q.ttl - 1), now);
    case Rrep(r) => out := a.RecvReply(r.(ttl := r.ttl - 1), now);
    case Rerr(saddr, unreachable) => out := a.RecvError(saddr, unreachable);
    case Hello(r) => out := a.RecvHello(r.(ttl := r.ttl - 1), now);
  }

  /** In every state of every run, an agent that is one of its nodes carries out any event that may come next,
      and is then that node of the next state and sends what the step sends. */
  method Execute(a: A.Aomdv, e: Event, now: real, ghost run: seq<Sys>, ghost k: nat) returns (out: seq<Packet>)
    requires a.Valid() && IsRun(run) && k < |run| && Enabled(run[k], e) && !e.Tick? && now == run[k].now
    requires a.View() == run[k].nodes[e.at]
    modifies a, a.rtable.Values
    ensures a.Valid() && fresh(a.rtable.Values - old(a.rtable.Values))
    ensures a.View() == Step(run[k], e).nodes[e.at]
    ensures out == React(run[k].nodes[e.at], e, now).1
  {
    hide A.Aomdv.View, A.Aomdv.Valid, AomdvProtocol.Recv, RtResolve, SendRequest, NbDelete, RtPurge, IdPurge,
         HelloTimer, IsRun;
    Ready(a, run, k, e.at);
    a.ViewIs();
    out := [];
    match e
    case Deliver(_, p) => out := Recv(a, p, now, run, k, e);
    case Resolve(_, saddr, dst) => out := a.RtResolve(saddr, dst, now);
    case Request(_, dst) => out := a.SendRequest(dst, now);
    case HelloTick(_) => out := a.HelloTimer();
    case NbLoss(_, id) => out := a.NbDelete(id);
    case RouteTick(_) => a.RtPurge(now);
    case BcastTick(_) => a.IdPurge(now);
  }
}
