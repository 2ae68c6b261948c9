/** How an AODV node loses routes, what it reports, and what becomes of those who relied on it. */
module AodvLosses {
  import opened Common
  import opened AodvProtocol
  import opened AodvNetwork

  // ---------- precursors ----------

  predicate OnceEach(pcs: seq<Addr>) {
    forall i, j :: 0 <= i < j < |pcs| ==> pcs[i] != pcs[j]
  }

  predicate Listed(n: Node) {
    forall d :: d in n.table ==> OnceEach(n.table[d].precursors)
  }

  lemma {:induction false} DeleteOnce(pcs: seq<Addr>, id: Addr)
    requires OnceEach(pcs)
    ensures OnceEach(PcDelete(pcs, id))
    ensures forall x :: x in PcDelete(pcs, id) <==> x in pcs && x != id
  {
    hide OnceEach;
    if pcs != [] {
      TailOnce(pcs);
      DeleteOnce(pcs[1..], id);
      if pcs[0] != id { ConsOnce(pcs[0], PcDelete(pcs[1..], id)); }
    }
  }

  lemma TailOnce(pcs: seq<Addr>)
    requires OnceEach(pcs) && pcs != []
    ensures OnceEach(pcs[1..]) && pcs[0] !in pcs[1..]
  {
  }

  lemma ConsOnce(x: Addr, pcs: seq<Addr>)
    requires OnceEach(pcs) && x !in pcs
    ensures OnceEach([x] + pcs)
  {
  }

  lemma InsertOnce(pcs: seq<Addr>, id: Addr)
    requires OnceEach(pcs)
    ensures OnceEach(PcInsert(pcs, id))
  {
  }

  lemma AllDeleteOnce(n: Node, id: Addr)
    requires Listed(n)
    ensures Listed(NbDelete(n, id).0)
  {
    hide PcDelete, OnceEach;
    forall d | d in n.table ensures OnceEach(NbDelete(n, id).0.table[d].precursors) {
      DeleteOnce(n.table[d].precursors, id);
    }
  }

  lemma RequestListed(n: Node, q: Request, now: real)
    requires Listed(n)
    ensures Listed(RecvRequest(n, q, now).0)
  {
    hide AnswerRequest, Fresher, OnceEach;
    if q.src != n.index && (q.src, q.bcastId) !in n.bcache {
      NoneListed();
      var t := WithEntry(n.table, q.src);
      var n1 := n.(bcache := n.bcache[(q.src, q.bcastId) := now + BCAST_ID_SAVE],
                   table := t[q.src := UpdateReverse(t[q.src], q, now)]);
      assert Listed(n1);
      AnswerListed(n1, q, now);
    }
  }

  lemma NoneListed()
    ensures OnceEach([])
  {
  }

  lemma AnswerListed(n: Node, q: Request, now: real)
    requires Listed(n) && q.src in n.table
    ensures Listed(AnswerRequest(n, q, now).0)
  {
    hide PcInsert, OnceEach, OwnReplySeqno;
    forall pcs, id | OnceEach(pcs) ensures OnceEach(PcInsert(pcs, id)) { InsertOnce(pcs, id); }
  }

  lemma ReplyListed(n: Node, r: Reply, now: real)
    requires Listed(n)
    ensures Listed(RecvReply(n, r, now).0)
  {
    hide PcInsert, OnceEach, Fresher;
    NoneListed();
    forall pcs, id | OnceEach(pcs) ensures OnceEach(PcInsert(pcs, id)) { InsertOnce(pcs, id); }
  }

  lemma OthersListed(n: Node, e: Event, now: real)
    requires Listed(n) && !e.Tick? && !e.NbLoss? && (e.Ask? || e.Repair? ==> e.dst in n.table)
    requires e.Deliver? ==> e.m.p.Rerr? || e.m.p.Hello?
    ensures Listed(React(n, e, now).0)
  {
    hide OnceEach, RequestTimeout;
    NoneListed();
  }

  lemma ReactListed(n: Node, e: Event, now: real)
    requires Listed(n) && !e.Tick? && (e.Ask? || e.Repair? ==> e.dst in n.table)
    ensures Listed(React(n, e, now).0)
  {
    hide RecvRequest, RecvReply, NbDelete, Listed;
    match e
    case Deliver(_, Sent(Rreq(q), _)) => RequestListed(n, q.(ttl := q.ttl - 1), now);
    case Deliver(_, Sent(Rrep(r), _)) => ReplyListed(n, r.(ttl := r.ttl - 1), now);
    case NbLoss(_, id) => AllDeleteOnce(n, id);
    case _ => OthersListed(n, e, now);
  }

  lemma {:induction false} RunListed(run: seq<Sys>, events: seq<Event>, k: nat, i: Addr)
    requires IsRun(run, events) && k < |run| && i in run[k].nodes
    ensures Listed(run[k].nodes[i])
  {
    hide Listed, React, Asserts;
    if k == 0 {
      NothingListed(run[0], i);
    } else {
      var s, e := run[k - 1], events[k - 1];
      assert Enabled(s, e) && run[k] == Step(s, e);
      RunListed(run, events, k - 1, i);
      if !e.Tick? && e.at == i { ReactListed(s.nodes[i], e, s.now); }
    }
  }

  lemma NothingListed(s: Sys, i: Addr)
    requires Initial(s) && i in s.nodes
    ensures Listed(s.nodes[i])
  {
  }

  // ---------- a neighbour is lost ----------

  /** The entry is used, and its next hop is id. */
  predicate Through(e: Entry, id: Addr) { e.hops.Some? && e.nexthop == id }

  /** The entry without its route, under a new number. */
  function Broken(e: Entry, seqno: nat): Entry
    requires e.hops.Some?
  {
    e.(flags := Down, lastHopCount := e.hops.value, hops := None, nexthop := 0, expire := 0.0, seqno := seqno)
  }

  /** Exactly these destinations, each with the number it has now, in one message; none if there are none. */
  predicate Tells(n': Node, gone: set<Addr>, out: seq<Packet>) {
    if gone == {} then out == []
    else |out| == 1 && out[0].Rerr? && out[0].saddr == n'.index && out[0].unreachable.Keys == gone
         && forall d :: d in gone ==> d in n'.table && out[0].unreachable[d] == n'.table[d].seqno
  }

  function RoutesThrough(n: Node, id: Addr): set<Addr> {
    set d | d in n.table && Through(n.table[d], id)
  }

  /** The entry after the loss, but for its precursors. */
  predicate AfterLoss(e: Entry, e': Entry, id: Addr) {
    e' == (if Through(e, id) then Broken(e, e.seqno + 1) else e).(precursors := e'.precursors)
  }

  ghost predicate Lost(n: Node, id: Addr, n': Node, out: seq<Packet>) {
    && n' == n.(seqno := n.seqno + 2, nbs := n.nbs - {id}, table := n'.table) && n'.table.Keys == n.table.Keys
    && (forall d :: d in n.table ==> AfterLoss(n.table[d], n'.table[d], id))
    && (forall d, x :: d in n.table ==> (x in n'.table[d].precursors <==> x in n.table[d].precursors && x != id))
    && Tells(n', RoutesThrough(n, id), out)
  }

  lemma LossIs(d: Addr, e: Entry, id: Addr, heard: set<Advert>)
    requires Fine(d, e, heard) && OnceEach(e.precursors)
    ensures AfterLoss(e, LinkFailure(e, id).0, id)
    ensures LinkFailure(e, id).1 == if Through(e, id) then Some(e.seqno + 1) else None
    ensures forall x :: x in LinkFailure(e, id).0.precursors <==> x in e.precursors && x != id
  {
    DeleteOnce(e.precursors, id);
  }

  lemma AfterLossSeqno()
    ensures forall e, e', id :: AfterLoss(e, e', id) ==> e'.seqno == if Through(e, id) then e.seqno + 1 else e.seqno
  {
  }

  lemma NodeLoses(n: Node, id: Addr, heard: set<Advert>)
    requires NodeOk(n, heard) && Listed(n)
    ensures Lost(n, id, NbDelete(n, id).0, NbDelete(n, id).1)
  {
    hide Fine, LinkFailure, AfterLoss, Through, OnceEach;
    forall d | d in n.table
      ensures AfterLoss(n.table[d], LinkFailure(n.table[d], id).0, id)
      ensures LinkFailure(n.table[d], id).1 ==
        if Through(n.table[d], id) then Some(n.table[d].seqno + 1) else None
      ensures forall x :: x in LinkFailure(n.table[d], id).0.precursors <==> x in n.table[d].precursors && x != id
    {
      LossIs(d, n.table[d], id, heard);
    }
    AfterLossSeqno();
    var rep := LossReports(n, id);
    assert rep.Keys == RoutesThrough(n, id);
    assert rep == map[] <==> rep.Keys == {};
  }

  lemma NoneThrough(n: Node, id: Addr, n': Node, out: seq<Packet>)
    requires Lost(n, id, n', out)
    ensures forall d :: d in n'.table ==> !Through(n'.table[d], id) && id !in n'.table[d].precursors
  {
    forall d | d in n'.table ensures !Through(n'.table[d], id) { assert AfterLoss(n.table[d], n'.table[d], id); }
  }

  /** In every run whose repair timers fire in time: when a node gives up a neighbour, no route uses it any more and no
      route lists it as a precursor; exactly the routes that used it are reported, each under the next number; every
      other route stays. */
  lemma NeighbourLost(run: seq<Sys>, events: seq<Event>, k: nat, i: Addr, id: Addr)
    requires IsRun(run, events) && RepairsInTime(run, events) && k < |run| && i in run[k].nodes
    ensures var n := run[k].nodes[i]; var (n', out) := NbDelete(n, id);
      && Lost(n, id, n', out)
      && forall d :: d in n'.table ==> !Through(n'.table[d], id) && id !in n'.table[d].precursors
  {
    hide Inv, Lost, IsRun, RepairsInTime, Listed, NbDelete;
    RunOk(run, events, k);
    RunListed(run, events, k, i);
    var n := run[k].nodes[i];
    NodeFine(run[k], i);
    NodeLoses(n, id, Adverts(run[k].net));
    NoneThrough(n, id, NbDelete(n, id).0, NbDelete(n, id).1);
  }

  lemma NodeFine(s: Sys, i: Addr)
    requires Inv(s) && i in s.nodes
    ensures s.nodes[i].index == i && NodeOk(s.nodes[i], Adverts(s.net))
  {
  }

  // ---------- a route error is heard ----------

  function Affected(n: Node, via: Addr, unreachable: map<Addr, nat>): set<Addr> {
    set d | d in n.table && d in unreachable && Through(n.table[d], via) && n.table[d].seqno <= unreachable[d]
  }

  /** Those of them that somebody is to be warned of. */
  function Warned(n: Node, via: Addr, unreachable: map<Addr, nat>): set<Addr> {
    set d | d in Affected(n, via, unreachable) && n.table[d].precursors != []
  }

  ghost predicate Spread(n: Node, via: Addr, unreachable: map<Addr, nat>, n': Node, out: seq<Packet>) {
    var gone := Affected(n, via, unreachable);
    && n' == n.(table := n'.table) && n'.table.Keys == n.table.Keys
    && (forall d :: d in n.table ==>
          n'.table[d] == if d in gone then Broken(n.table[d], unreachable[d]).(precursors := []) else n.table[d])
    && Tells(n', Warned(n, via, unreachable), out)
  }

  lemma ErrorIs(d: Addr, e: Entry, via: Addr, u: nat, heard: set<Advert>)
    requires Fine(d, e, heard)
    ensures Told(e, via, u, ErrorHeard(e, via, u))
  {
  }

  predicate Told(e: Entry, via: Addr, u: nat, r: (Entry, Option<nat>)) {
    r == if Through(e, via) && e.seqno <= u then
           (Broken(e, u).(precursors := []), if e.precursors == [] then None else Some(u))
         else (e, None)
  }

  lemma ToldIs()
    ensures forall e, via, u, r :: Told(e, via, u, r) ==>
      if Through(e, via) && e.seqno <= u then
        e.hops.Some? && r.0 == Broken(e, u).(precursors := []) && r.0.seqno == u
        && r.1 == if e.precursors == [] then None else Some(u)
      else r == (e, None)
  {
  }

  /** A route error takes away exactly the routes through its sender that it names with a number not older than the
      entry's, and goes on for those of them that have precursors. */
  lemma ErrorSpreads(n: Node, via: Addr, unreachable: map<Addr, nat>, heard: set<Advert>)
    requires NodeOk(n, heard)
    ensures Spread(n, via, unreachable, RecvError(n, via, unreachable).0, RecvError(n, via, unreachable).1)
  {
    hide Fine, ErrorHeard, Through, Told, Broken;
    forall d | d in n.table && d in unreachable
      ensures Told(n.table[d], via, unreachable[d], ErrorHeard(n.table[d], via, unreachable[d]))
    {
      ErrorIs(d, n.table[d], via, unreachable[d], heard);
    }
    ToldIs();
    var rep := ErrorReports(n, via, unreachable);
    assert rep.Keys == Warned(n, via, unreachable);
    assert rep == map[] <==> rep.Keys == {};
  }

  /** In every run whose repair timers fire in time: if node j gives up the next hop of its route to d, then every node
      that sends what is for d to j, when it hears what j reports, gives up that route too, under j's new number, and
      tells its own precursors. */
  lemma ErrorReaches(run: seq<Sys>, events: seq<Event>, k: nat, d: Addr, i: Addr, j: Addr, id: Addr)
    requires IsRun(run, events) && RepairsInTime(run, events) && k < |run| && j in run[k].nodes && j != d
    requires Edge(run[k], d, i, j) && d in run[k].nodes[j].table && Through(run[k].nodes[j].table[d], id)
    ensures var (j', out) := NbDelete(run[k].nodes[j], id);
      |out| == 1 && out[0].Rerr? && out[0].saddr == j &&
      var (i', more) := RecvError(run[k].nodes[i], j, out[0].unreachable);
      && d in i'.table && i'.table[d].hops.None? && d in j'.table
      && run[k].nodes[i].table[d].seqno < i'.table[d].seqno == j'.table[d].seqno
      && (run[k].nodes[i].table[d].precursors != [] ==>
            |more| == 1 && more[0].Rerr? && d in more[0].unreachable && more[0].unreachable[d] == i'.table[d].seqno)
  {
    hide Inv, IsRun, RepairsInTime, NbDelete, RecvError, NodeOk, Lost, Spread;
    RunOk(run, events, k);
    var s := run[k];
    EdgeDescends(s, d, i, j);
    NodeFine(s, i);
    NodeFine(s, j);
    NeighbourLost(run, events, k, j, id);
    var (j', out) := NbDelete(s.nodes[j], id);
    Reported(s.nodes[j], id, j', out, d);
    var (i', more) := RecvError(s.nodes[i], j, out[0].unreachable);
    ErrorSpreads(s.nodes[i], j, out[0].unreachable, Adverts(s.net));
    TakenDown(s.nodes[i], j, out[0].unreachable, i', more, d);
  }

  lemma Reported(n: Node, id: Addr, n': Node, out: seq<Packet>, d: Addr)
    requires Lost(n, id, n', out) && d in n.table && Through(n.table[d], id)
    ensures |out| == 1 && out[0].Rerr? && out[0].saddr == n.index && d in out[0].unreachable && d in n'.table
    ensures out[0].unreachable[d] == n.table[d].seqno + 1 == n'.table[d].seqno
  {
    assert d in RoutesThrough(n, id);
    assert AfterLoss(n.table[d], n'.table[d], id);
  }

  lemma TakenDown(n: Node, via: Addr, unreachable: map<Addr, nat>, n': Node, out: seq<Packet>, d: Addr)
    requires Spread(n, via, unreachable, n', out) && d in n.table && Through(n.table[d], via)
    requires d in unreachable && n.table[d].seqno <= unreachable[d]
    ensures d in n'.table && n'.table[d].hops.None? && n'.table[d].seqno == unreachable[d]
    ensures n.table[d].precursors != [] ==>
      |out| == 1 && out[0].Rerr? && d in out[0].unreachable && out[0].unreachable[d] == n'.table[d].seqno
  {
    var gone := Affected(n, via, unreachable);
    assert d in gone;
    assert n.table[d].precursors != [] ==> d in Warned(n, via, unreachable);
  }

  // ---------- time passes ----------

  /** Exactly the routes that are up and past their time go down, under the next number. */
  lemma RoutesExpire(n: Node, now: real, heard: set<Advert>)
    requires NodeOk(n, heard)
    ensures var n' := RtPurge(n, now);
      && n' == n.(table := n'.table) && n'.table.Keys == n.table.Keys
      && forall d :: d in n.table ==>
           var e := n.table[d];
           && (e.flags.Up? ==> e.hops.Some?)
           && n'.table[d] == if e.flags.Up? && e.expire < now then Broken(e, e.seqno + 1) else e
  {
    forall d | d in n.table ensures Fine(d, n.table[d], heard) {}
  }

  /** A request is forgotten exactly when its time is over. */
  lemma IdsForgotten(n: Node, now: real, key: (Addr, nat))
    ensures var n' := IdPurge(n, now);
      && n' == n.(bcache := n'.bcache)
      && (key in n'.bcache <==> key in n.bcache && n.bcache[key] > now)
      && (key in n'.bcache ==> n'.bcache[key] == n.bcache[key])
  {
  }

  /** The repair timer takes a route down exactly when it is not up, and never raises its number. */
  lemma RepairGivenUp(n: Node, d: Addr, heard: set<Advert>)
    requires NodeOk(n, heard) && d in n.table
    ensures var n' := RepairTimeout(n, d); var e := n.table[d];
      n' == n.(table := n.table[d := if e.flags.InRepair? then Broken(e, e.seqno) else e])
  {
    assert Fine(d, n.table[d], heard);
    assert n.table[d := n.table[d]] == n.table;
  }
}
