/** What a node's list of paths becomes: which paths it learns from a message and which it loses with a neighbour,
    a route error or time, and what it tells the others about it. */
module AomdvPaths {
  import opened Common
  import opened AomdvTable
  import opened AomdvProtocol
  import opened AomdvNetwork

  // ---------- learning a path ----------

  predicate Along(p: Path, nexthop: Addr, lasthop: Addr) { p.nexthop == nexthop && p.lasthop == lasthop }

  /** Some stored path has these hops. */
  predicate Stored(ps: seq<Path>, nexthop: Addr, lasthop: Addr) {
    exists i :: 0 <= i < |ps| && Along(ps[i], nexthop, lasthop)
  }

  /** No stored path shares a hop with p. */
  predicate Disjoint(ps: seq<Path>, p: Path) {
    forall i :: 0 <= i < |ps| ==> ps[i].nexthop != p.nexthop && ps[i].lasthop != p.lasthop
  }

  /** p is at most diff hops longer than each stored path. */
  predicate NotTooLong(ps: seq<Path>, p: Path, diff: int) {
    forall i :: 0 <= i < |ps| ==> p.hopcount - ps[i].hopcount <= diff
  }

  predicate Welcome(ps: seq<Path>, p: Path, maxPaths: int, diff: int) {
    |ps| < maxPaths && Disjoint(ps, p) && NotTooLong(ps, p, diff)
  }

  /** A message with the number of the entry may add to it while it promises no more than was advertised. */
  predicate Usable(e: Entry, seqno: nat, p: Path) {
    e.seqno == seqno && (e.advertisedHops.None? || p.hopcount <= e.advertisedHops.value)
  }

  /** The paths with the hops of p live at least as long as p, nothing else has changed. */
  predicate Prolonged(ps: seq<Path>, ps': seq<Path>, p: Path) {
    && |ps'| == |ps|
    && forall i :: 0 <= i < |ps| ==>
         ps'[i] == if Along(ps[i], p.nexthop, p.lasthop) then ps[i].(expire := MaxReal(ps[i].expire, p.expire))
                   else ps[i]
  }

  /** What hearing of path p under this number makes of entry e. */
  predicate Learnt(e: Entry, e': Entry, seqno: nat, p: Path, maxPaths: int, diff: int) {
    if e.seqno < seqno then
      e' == e.(flags := Up, seqno := seqno, advertisedHops := None, paths := [p], lastHopCount := p.hopcount)
    else if Usable(e, seqno, p) then
      if Stored(e.paths, p.nexthop, p.lasthop) then e' == e.(paths := e'.paths) && Prolonged(e.paths, e'.paths, p)
      else if Welcome(e.paths, p, maxPaths, diff) then
        e' == e.(paths := e.paths + [p], lastHopCount := e'.lastHopCount) && Longest(e'.paths, e'.lastHopCount)
      else e' == e
    else e' == e
  }

  /** h is the largest hop count of these paths. */
  predicate Longest(ps: seq<Path>, h: nat) {
    && (forall i :: 0 <= i < |ps| ==> ps[i].hopcount <= h)
    && exists i :: 0 <= i < |ps| && ps[i].hopcount == h
  }

  lemma LongestIs(ps: seq<Path>, p: Path)
    requires p.hopcount >= 1
    ensures LastHopCount([p]) == p.hopcount && Longest(ps + [p], LastHopCount(ps + [p]))
  {
    assert (ps + [p])[|ps|] == p && [p][0] == p;
  }

  /** The number is newer, or it can be used and the path is among those stored then. */
  predicate Taken(e: Entry, e': Entry, seqno: nat, p: Path) {
    e.seqno < seqno || (Usable(e, seqno, p) && Stored(e'.paths, p.nexthop, p.lasthop))
  }

  lemma CloseEnoughIff(ps: seq<Path>, p: Path, diff: int)
    ensures CloseEnough(ps, p.hopcount, diff) <==> NotTooLong(ps, p, diff)
  {
  }

  lemma FoundIff(ps: seq<Path>, v: Addr, l: Addr)
    ensures DisjointPathLookup(ps, v, l) < |ps| <==> Stored(ps, v, l)
    ensures Stored(ps, v, l) ==> Along(ps[DisjointPathLookup(ps, v, l)], v, l)
  {
  }

  lemma ExtendProlongs(ps: seq<Path>, p: Path)
    requires Distinct(ps) && Stored(ps, p.nexthop, p.lasthop)
    ensures Prolonged(ps, Extend(ps, DisjointPathLookup(ps, p.nexthop, p.lasthop), p.expire), p)
    ensures Stored(Extend(ps, DisjointPathLookup(ps, p.nexthop, p.lasthop), p.expire), p.nexthop, p.lasthop)
  {
    var i := DisjointPathLookup(ps, p.nexthop, p.lasthop);
    FoundIff(ps, p.nexthop, p.lasthop);
    assert Along(Extend(ps, i, p.expire)[i], p.nexthop, p.lasthop);
  }

  lemma AddedIsStored(ps: seq<Path>, p: Path)
    ensures Stored(ps + [p], p.nexthop, p.lasthop)
  {
    assert Along((ps + [p])[|ps|], p.nexthop, p.lasthop);
  }

  lemma DisjointNotStored(ps: seq<Path>, p: Path)
    requires Disjoint(ps, p)
    ensures !Stored(ps, p.nexthop, p.lasthop)
  {
  }

  /** A reply about r.dst from r.src: what the entry learns, and whether the reply goes on. */
  lemma ForwardLearns(maxPaths: int, diff: int, e: Entry, r: Reply, now: real)
    requires Distinct(e.paths)
    ensures var p := Path(r.src, r.hopCount + 1, now + r.lifetime, r.firstHop);
      var u := UpdateForward(maxPaths, diff, e, r, now);
      Learnt(e, u.entry, r.dstSeqno, p, maxPaths, diff) && (u.Keep? <==> Taken(e, u.entry, r.dstSeqno, p))
      && (u.Keep? ==> u.route)
  {
    hide LastHopCount, CloseEnough, DisjointPathLookup, Prolonged, Stored, NotTooLong, Distinct, Longest;
    var p := Path(r.src, r.hopCount + 1, now + r.lifetime, r.firstHop);
    FoundIff(e.paths, r.src, r.firstHop);
    CloseEnoughIff(e.paths, p, diff);
    AddedIsStored(e.paths, p);
    LongestIs(e.paths, p);
    if Disjoint(e.paths, p) { DisjointNotStored(e.paths, p); }
    if Stored(e.paths, r.src, r.firstHop) { ExtendProlongs(e.paths, p); }
  }

  /** A request is not followed up when its number is too old or its route too long, when its path is disjoint but too
      long, or, at the destination itself, when the path shares a hop and is no shorter way to its last hop. */
  predicate Refused(index: Addr, diff: int, e: Entry, e': Entry, q: Request, p: Path) {
    e.seqno >= q.srcSeqno &&
    (!Usable(e, q.srcSeqno, p) ||
     (!Stored(e.paths, p.nexthop, p.lasthop) &&
      if Disjoint(e.paths, p) then !NotTooLong(e'.paths, p, diff)
      else q.dst == index &&
           forall i :: 0 <= i < |e.paths| && e.paths[i].lasthop == p.lasthop ==> e.paths[i].hopcount < p.hopcount))
  }

  lemma LasthopIff(ps: seq<Path>, p: Path)
    requires Distinct(ps)
    ensures var i := PathLookupLasthop(ps, p.lasthop);
      (i == |ps| || p.hopcount > ps[i].hopcount) <==>
        forall i :: 0 <= i < |ps| && ps[i].lasthop == p.lasthop ==> ps[i].hopcount < p.hopcount
  {
  }

  /** A request from q.src heard from q.saddr: what the entry for q.src learns, whether the request is followed up,
      and whether its path is one that can be answered on. */
  lemma ReverseLearns(index: Addr, maxPaths: int, diff: int, e: Entry, q: Request, now: real)
    requires Distinct(e.paths)
    ensures var p := Path(q.saddr, q.hopCount + 1, now + REV_ROUTE_LIFE, q.firstHop);
      var u := UpdateReverse(index, maxPaths, diff, e, q, now);
      && Learnt(e, u.entry, q.srcSeqno, p, maxPaths, diff)
      && (u.Drop? <==> Refused(index, diff, e, u.entry, q, p))
      && (u.Keep? ==> (u.route <==> Taken(e, u.entry, q.srcSeqno, p)))
  {
    hide LastHopCount, CloseEnough, DisjointPathLookup, Prolonged, Stored, NotTooLong, Distinct, PathLookupLasthop,
         Longest;
    var p := Path(q.saddr, q.hopCount + 1, now + REV_ROUTE_LIFE, q.firstHop);
    FoundIff(e.paths, q.saddr, q.firstHop);
    CloseEnoughIff(e.paths, p, diff);
    CloseEnoughIff(e.paths + [p], p, diff);
    AddedIsStored(e.paths, p);
    LongestIs(e.paths, p);
    LasthopIff(e.paths, p);
    if Disjoint(e.paths, p) { DisjointNotStored(e.paths, p); }
    if Stored(e.paths, q.saddr, q.firstHop) { ExtendProlongs(e.paths, p); }
  }

  // ---------- losing paths ----------

  /** The paths with this property, in their order. */
  function Only(ps: seq<Path>, f: Path -> bool): seq<Path> {
    if ps == [] then [] else Only(ps[..|ps| - 1], f) + if f(ps[|ps| - 1]) then [ps[|ps| - 1]] else []
  }

  function Avoiding(ps: seq<Path>, id: Addr): seq<Path> { Only(ps, (p: Path) => p.nexthop != id) }

  function Alive(ps: seq<Path>, now: real): seq<Path> { Only(ps, (p: Path) => p.expire >= now) }

  lemma {:induction false} OnlyIn(ps: seq<Path>, f: Path -> bool)
    ensures forall p :: p in Only(ps, f) <==> p in ps && f(p)
  {
    if ps != [] {
      OnlyIn(ps[..|ps| - 1], f);
      assert ps == ps[..|ps| - 1] + [ps[|ps| - 1]];
    }
  }

  lemma {:induction false} OnlyAll(ps: seq<Path>, f: Path -> bool)
    requires forall i :: 0 <= i < |ps| ==> f(ps[i])
    ensures Only(ps, f) == ps
  {
    if ps != [] { OnlyAll(ps[..|ps| - 1], f); }
  }

  lemma {:induction false} OnlyConcat(a: seq<Path>, b: seq<Path>, f: Path -> bool)
    ensures Only(a + b, f) == Only(a, f) + Only(b, f)
  {
    if b == [] {
      assert a + b == a;
    } else {
      assert (a + b)[..|a + b| - 1] == a + b[..|b| - 1];
      OnlyConcat(a, b[..|b| - 1], f);
    }
  }

  /** With disjoint paths, deleting the first one through id leaves none through id. */
  lemma DeleteAvoids(ps: seq<Path>, id: Addr)
    requires Distinct(ps)
    ensures PathDelete(ps, id) == Avoiding(ps, id)
    ensures PathLookup(ps, id) < |ps| <==> Avoiding(ps, id) != ps
  {
    hide PathLookup, Distinct;
    var f, i := (p: Path) => p.nexthop != id, PathLookup(ps, id);
    OthersAvoid(ps, id);
    if i == |ps| { OnlyAll(ps, f); } else { AllButOne(ps, i, f); }
  }

  lemma OthersAvoid(ps: seq<Path>, id: Addr)
    requires Distinct(ps)
    ensures forall j :: 0 <= j < |ps| && j != PathLookup(ps, id) ==> ps[j].nexthop != id
  {
  }

  lemma OnlyAround(a: seq<Path>, p: Path, b: seq<Path>, f: Path -> bool)
    requires !f(p) && Only(a, f) == a && Only(b, f) == b
    ensures Only(a + [p] + b, f) == a + b
  {
    OnlyConcat(a + [p], b, f);
    assert (a + [p])[..|a|] == a;
  }

  lemma AllButOne(ps: seq<Path>, i: nat, f: Path -> bool)
    requires i < |ps| && !f(ps[i]) && forall j :: 0 <= j < |ps| && j != i ==> f(ps[j])
    ensures Only(ps, f) == ps[..i] + ps[i + 1..] && |Only(ps, f)| < |ps|
  {
    hide Only;
    OnlyAll(ps[..i], f);
    OnlyAll(ps[i + 1..], f);
    OnlyAround(ps[..i], ps[i], ps[i + 1..], f);
    assert ps == ps[..i] + [ps[i]] + ps[i + 1..];
  }

  lemma {:induction false} UnexpiredAlive(ps: seq<Path>, now: real)
    ensures Unexpired(ps, now) == Alive(ps, now)
  {
    if ps != [] { UnexpiredAlive(ps[..|ps| - 1], now); }
  }

  /** The last paths of the entry go with neighbour id. */
  predicate LastGone(e: Entry, id: Addr) { e.paths != [] && Avoiding(e.paths, id) == [] }

  /** The entry without its paths, under a new number. */
  function Broken(e: Entry, seqno: nat): Entry {
    e.(flags := Down, advertisedHops := None, paths := [], expire := 0.0, seqno := seqno)
  }

  lemma LinkFailureIs(index: Addr, maxPaths: int, d: Addr, e: Entry, id: Addr, heard: set<Advert>)
    requires Fine(index, maxPaths, d, e, heard)
    ensures var s := Max(e.seqno + 1, e.highestSeqnoHeard);
      LinkFailure(e, id) ==
        if LastGone(e, id) then (Broken(e, s).(error := false), if e.error then Some(s) else None)
        else (e.(paths := Avoiding(e.paths, id)), None)
  {
    hide Avoiding, PathLookup, PathDelete;
    DeleteAvoids(e.paths, id);
    NonePaths(id);
  }

  lemma NonePaths(id: Addr)
    ensures Avoiding([], id) == []
  {
  }

  /** Exactly these destinations, each with the number it has now, in one message; none if there are none. */
  predicate Tells(n': Node, gone: set<Addr>, out: seq<Packet>) {
    if gone == {} then out == []
    else |out| == 1 && out[0].Rerr? && out[0].saddr == n'.index && out[0].unreachable.Keys == gone
         && forall d :: d in gone ==> d in n'.table && out[0].unreachable[d] == n'.table[d].seqno
  }

  /** The routes of n that somebody else uses and that end with neighbour id. */
  function UsedThrough(n: Node, id: Addr): set<Addr> {
    set d | d in n.table && LastGone(n.table[d], id) && n.table[d].error
  }

  /** When neighbour id is lost, the paths through it go and no others; a route that has none left goes down under a
      newer number; and exactly the routes that went down and are used by others are reported, with that number. */
  lemma NeighbourLost(n: Node, id: Addr, heard: set<Advert>)
    requires NodeOk(n, heard)
    ensures var (n', out) := NbDelete(n, id);
      && n' == n.(seqno := n.seqno + 2, nbs := n.nbs - {id}, table := n'.table) && n'.table.Keys == n.table.Keys
      && (forall d :: d in n.table ==>
            n'.table[d] ==
              if LastGone(n.table[d], id) then
                Broken(n.table[d], Max(n.table[d].seqno + 1, n.table[d].highestSeqnoHeard)).(error := false)
              else n.table[d].(paths := Avoiding(n.table[d].paths, id)))
      && Tells(n', UsedThrough(n, id), out)
  {
    hide Fine, LinkFailure, LastGone, Broken, Avoiding;
    forall d | d in n.table
      ensures LinkFailure(n.table[d], id) ==
        var e := n.table[d];
        var s := Max(e.seqno + 1, e.highestSeqnoHeard);
        if LastGone(e, id) then (Broken(e, s).(error := false), if e.error then Some(s) else None)
        else (e.(paths := Avoiding(e.paths, id)), None)
    {
      LinkFailureIs(n.index, n.maxPaths, d, n.table[d], id, heard);
    }
    BrokenSeqno();
    var rep := LossReports(n, id);
    assert rep.Keys == UsedThrough(n, id);
    assert rep == map[] <==> rep.Keys == {};
  }

  lemma BrokenSeqno()
    ensures forall e, s :: Broken(e, s).seqno == s
  {
  }

  /** The routes that a route error from `via` is news about. */
  predicate Concerned(e: Entry, via: Addr, u: nat) {
    Avoiding(e.paths, via) != e.paths && e.seqno <= u
  }

  lemma ErrorHeardIs(index: Addr, maxPaths: int, d: Addr, e: Entry, via: Addr, u: nat, heard: set<Advert>)
    requires Fine(index, maxPaths, d, e, heard)
    ensures var h := Max(e.highestSeqnoHeard, u);
      ErrorHeard(e, via, u) ==
        if !Concerned(e, via, u) then (e, None)
        else if LastGone(e, via) then
          (Broken(e, h).(error := false, highestSeqnoHeard := h), if e.error then Some(h) else None)
        else (e.(paths := Avoiding(e.paths, via), highestSeqnoHeard := h), None)
  {
    hide Avoiding, PathLookup, PathDelete;
    DeleteAvoids(e.paths, via);
    NonePaths(via);
  }

  function UsedAndConcerned(n: Node, via: Addr, unreachable: map<Addr, nat>): set<Addr> {
    set d | d in n.table && d in unreachable && Concerned(n.table[d], via, unreachable[d])
            && LastGone(n.table[d], via) && n.table[d].error
  }

  /** A route error takes away the paths through its sender to the destinations it names with a number not older than
      the entry's, and is passed on for exactly the routes that went down by it and are used by others. */
  lemma ErrorSpreads(n: Node, via: Addr, unreachable: map<Addr, nat>, heard: set<Advert>)
    requires NodeOk(n, heard)
    ensures var (n', out) := RecvError(n, via, unreachable);
      && n' == n.(table := n'.table) && n'.table.Keys == n.table.Keys
      && (forall d :: d in n.table ==>
            var e := n.table[d];
            n'.table[d] ==
              if d !in unreachable || !Concerned(e, via, unreachable[d]) then e
              else
                var h := Max(e.highestSeqnoHeard, unreachable[d]);
                if LastGone(e, via) then Broken(e, h).(error := false, highestSeqnoHeard := h)
                else e.(paths := Avoiding(e.paths, via), highestSeqnoHeard := h))
      && Tells(n', UsedAndConcerned(n, via, unreachable), out)
  {
    hide Fine, ErrorHeard, LastGone, Broken, Avoiding, Concerned;
    forall d | d in n.table && d in unreachable
      ensures ErrorHeard(n.table[d], via, unreachable[d]) ==
        var e := n.table[d];
        var h := Max(e.highestSeqnoHeard, unreachable[d]);
        if !Concerned(e, via, unreachable[d]) then (e, None)
        else if LastGone(e, via) then
          (Broken(e, h).(error := false, highestSeqnoHeard := h), if e.error then Some(h) else None)
        else (e.(paths := Avoiding(e.paths, via), highestSeqnoHeard := h), None)
    {
      ErrorHeardIs(n.index, n.maxPaths, d, n.table[d], via, unreachable[d], heard);
    }
    BrokenSeqno();
    var rep := ErrorReports(n, via, unreachable);
    assert rep.Keys == UsedAndConcerned(n, via, unreachable);
    assert rep == map[] <==> rep.Keys == {};
  }

  lemma PurgeIs(index: Addr, maxPaths: int, d: Addr, e: Entry, now: real, heard: set<Advert>)
    requires Fine(index, maxPaths, d, e, heard)
    ensures Purge(e, now) ==
      if e.flags.Down? || e.expire >= now then e
      else if Alive(e.paths, now) != [] then e.(paths := Alive(e.paths, now))
      else Broken(e, Max(e.seqno + 1, e.highestSeqnoHeard))
  {
    hide Alive, Unexpired;
    UnexpiredAlive(e.paths, now);
  }

  /** When routes are purged, the paths of an expired entry that have expired themselves go; an entry that has none
      left goes down under a newer, odd number; everything else stays. */
  lemma RoutesExpire(n: Node, now: real, heard: set<Advert>)
    requires NodeOk(n, heard)
    ensures var n' := RtPurge(n, now);
      && n' == n.(table := n'.table) && n'.table.Keys == n.table.Keys
      && forall d :: d in n.table ==>
           var e := n.table[d];
           n'.table[d] ==
             if e.flags.Down? || e.expire >= now then e
             else if Alive(e.paths, now) != [] then e.(paths := Alive(e.paths, now))
             else Broken(e, Max(e.seqno + 1, e.highestSeqnoHeard))
  {
    hide Fine, Purge, Alive, Broken;
    forall d | d in n.table { PurgeIs(n.index, n.maxPaths, d, n.table[d], now, heard); }
  }

  /** In every run: if node j gives up the last path of a route to d that others use, then every node with a path to d
      through j, when it hears what j reports, has none through j left; and if that was its last one and others use
      the route, it passes the news on. */
  lemma ErrorReaches(run: seq<Sys>, k: nat, d: Addr, i: Addr, j: Addr, id: Addr)
    requires IsRun(run) && k < |run| && Edge(run[k], d, i, j) && j != d && j in run[k].nodes
    requires d in run[k].nodes[j].table
    requires LastGone(run[k].nodes[j].table[d], id) && run[k].nodes[j].table[d].error
    ensures var (j', out) := NbDelete(run[k].nodes[j], id);
      |out| == 1 && out[0].Rerr? && out[0].saddr == j &&
      var (i', more) := RecvError(run[k].nodes[i], j, out[0].unreachable);
      && d in i'.table && (forall p :: p in i'.table[d].paths ==> p.nexthop != j)
      && (LastGone(run[k].nodes[i].table[d], j) && run[k].nodes[i].table[d].error ==>
            |more| == 1 && more[0].Rerr? && d in more[0].unreachable && more[0].unreachable[d] == i'.table[d].seqno)
  {
    hide Inv, IsRun, NbDelete, RecvError, NodeOk, Fine, LastGone, Avoiding, Broken, Below;
    RunOk(run, k);
    var s := run[k];
    EdgeDescends(s, d, i, j);
    NodeFine(s, i);
    NodeFine(s, j);
    var (j', out) := NbDelete(s.nodes[j], id);
    NeighbourLost(s.nodes[j], id, Adverts(s.net));
    assert d in UsedThrough(s.nodes[j], id);
    BrokenSeqno();
    BelowIs(s, d, i, j);
    var u := out[0].unreachable;
    ErrorSpreads(s.nodes[i], j, u, Adverts(s.net));
    AvoidingIs(s, d, i, j);
    var more := RecvError(s.nodes[i], j, u).1;
    if LastGone(s.nodes[i].table[d], j) && s.nodes[i].table[d].error {
      assert d in UsedAndConcerned(s.nodes[i], j, u);
    }
  }

  lemma NodeFine(s: Sys, i: Addr)
    requires Inv(s) && i in s.nodes
    ensures s.nodes[i].index == i && NodeOk(s.nodes[i], Adverts(s.net))
  {
  }

  lemma BelowIs(s: Sys, d: Addr, i: Addr, j: Addr)
    requires i in s.nodes && j in s.nodes && d in s.nodes[i].table && d in s.nodes[j].table && Below(s, d, j, i)
    ensures s.nodes[i].table[d].seqno <= s.nodes[j].table[d].seqno
  {
  }

  lemma AvoidingIs(s: Sys, d: Addr, i: Addr, j: Addr)
    requires Edge(s, d, i, j)
    ensures Avoiding(s.nodes[i].table[d].paths, j) != s.nodes[i].table[d].paths
    ensures forall p :: p in Avoiding(s.nodes[i].table[d].paths, j) ==> p.nexthop != j
    ensures forall e: Entry, u :: Broken(e, u).paths == []
  {
    var ps := s.nodes[i].table[d].paths;
    var k :| 0 <= k < |ps| && ps[k].nexthop == j;
    OnlyIn(ps, (p: Path) => p.nexthop != j);
    assert ps[k] in ps && ps[k] !in Avoiding(ps, j);
  }
}
