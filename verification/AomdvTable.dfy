/** The multipath route entry of AOMDV (aomdv_rtable.cc), as values: an entry keeps
    several next hops for one destination, in the order in which they were found. */
module AomdvTable {
  import opened Common

  // The value 0xff that stands for "no hop count".
  const INFINITY2: nat := 255

  datatype Path = Path(nexthop: Addr, hopcount: nat, expire: real, lasthop: Addr)

  // rt_advertised_hops is None while the code holds its infinity there.
  datatype Entry = Entry(
    dst: Addr, seqno: nat, advertisedHops: Option<nat>, paths: seq<Path>,
    highestSeqnoHeard: nat, error: bool, flags: Flag, expire: real,
    lastHopCount: nat, reqTimeout: real, reqCnt: nat, reqLastTtl: nat)

  function NewEntry(dst: Addr): Entry {
    Entry(dst, 0, None, [], 0, false, Down, 0.0, INFINITY2, 0.0, 0, 0)
  }

  // ---------- scans of the path list ----------

  /** Position of the first path that satisfies f, or the length when there is none. */
  function First(ps: seq<Path>, f: Path -> bool): (i: nat)
    ensures i <= |ps|
    ensures i < |ps| ==> f(ps[i])
    ensures forall j :: 0 <= j < i ==> !f(ps[j])
  {
    if ps == [] then 0 else if f(ps[0]) then 0 else 1 + First(ps[1..], f)
  }

  function PathLookup(ps: seq<Path>, nexthop: Addr): (i: nat)
    ensures i <= |ps|
    ensures i < |ps| ==> ps[i].nexthop == nexthop
    ensures forall j :: 0 <= j < i ==> ps[j].nexthop != nexthop
  {
    First(ps, (p: Path) => p.nexthop == nexthop)
  }

  function DisjointPathLookup(ps: seq<Path>, nexthop: Addr, lasthop: Addr): (i: nat)
    ensures i <= |ps|
    ensures i < |ps| ==> ps[i].nexthop == nexthop && ps[i].lasthop == lasthop
    ensures forall j :: 0 <= j < i ==> ps[j].nexthop != nexthop || ps[j].lasthop != lasthop
  {
    First(ps, (p: Path) => p.nexthop == nexthop && p.lasthop == lasthop)
  }

  function PathLookupLasthop(ps: seq<Path>, lasthop: Addr): (i: nat)
    ensures i <= |ps|
    ensures i < |ps| ==> ps[i].lasthop == lasthop
    ensures forall j :: 0 <= j < i ==> ps[j].lasthop != lasthop
  {
    First(ps, (p: Path) => p.lasthop == lasthop)
  }

  predicate NewDisjointPath(ps: seq<Path>, nexthop: Addr, lasthop: Addr) {
    forall i :: 0 <= i < |ps| ==> ps[i].nexthop != nexthop && ps[i].lasthop != lasthop
  }

  /** The largest hop count on the list; None (infinity) when the list holds no positive one. */
  function MaxHopcount(ps: seq<Path>): (m: Option<nat>)
    ensures m.Some? ==> m.value > 0 && exists i :: 0 <= i < |ps| && ps[i].hopcount == m.value
    ensures forall i :: 0 <= i < |ps| && ps[i].hopcount > 0 ==> m.Some? && ps[i].hopcount <= m.value
  {
    if ps == [] then None else
      var init := ps[..|ps| - 1];
      var m := MaxHopcount(init);
      var h := ps[|ps| - 1].hopcount;
      var bound := if m.Some? then m.value else 0;
      if h > bound then
        assert ps[|ps| - 1].hopcount == h;
        Some(h)
      else
        assert m.Some? ==> exists i :: 0 <= i < |init| && init[i].hopcount == m.value && ps[i] == init[i];
        m
  }

  /** The smallest hop count on the list; None (infinity) when the list is empty. */
  function MinHopcount(ps: seq<Path>): (m: Option<nat>)
    ensures m.Some? <==> ps != []
    ensures m.Some? ==> exists i :: 0 <= i < |ps| && ps[i].hopcount == m.value
    ensures forall i :: 0 <= i < |ps| ==> m.value <= ps[i].hopcount
  {
    if ps == [] then None else
      var init := ps[..|ps| - 1];
      var m := MinHopcount(init);
      var h := ps[|ps| - 1].hopcount;
      if m.None? || h < m.value then
        assert ps[|ps| - 1].hopcount == h;
        Some(h)
      else
        assert exists i :: 0 <= i < |init| && init[i].hopcount == m.value && ps[i] == init[i];
        m
  }

  /** The length test on a candidate path of h hops: h - path_get_min_hopcount() <= diff. */
  predicate CloseEnough(ps: seq<Path>, h: nat, diff: int) {
    var m := MinHopcount(ps);
    m.None? || h - m.value <= diff
  }

  // ---------- changes of the path list ----------

  function RemoveAt(ps: seq<Path>, i: nat): seq<Path> {
    if i < |ps| then ps[..i] + ps[i + 1..] else ps
  }

  /** path_delete(id): the first path through id goes, the others keep their order. */
  function PathDelete(ps: seq<Path>, nexthop: Addr): seq<Path> {
    RemoveAt(ps, PathLookup(ps, nexthop))
  }

  /** path_purge(): every path whose lifetime ended before now goes. */
  function Unexpired(ps: seq<Path>, now: real): seq<Path> {
    if ps == [] then [] else
      Unexpired(ps[..|ps| - 1], now) + if ps[|ps| - 1].expire < now then [] else [ps[|ps| - 1]]
  }

  function Extend(ps: seq<Path>, i: nat, until: real): seq<Path> {
    if i < |ps| then ps[i := ps[i].(expire := MaxReal(ps[i].expire, until))] else ps
  }

  function Refresh(ps: seq<Path>, i: nat, until: real): seq<Path> {
    if i < |ps| then ps[i := ps[i].(expire := until)] else ps
  }

  // ---------- changes of an entry ----------

  function RtDown(e: Entry): Entry {
    if e.flags.Down? then e
    else e.(flags := Down, advertisedHops := None, paths := [], expire := 0.0)
  }

  /** A newer sequence number: forget everything and start over with one path. */
  function Renew(e: Entry, seqno: nat, p: Path): Entry {
    e.(seqno := seqno, advertisedHops := None, paths := [p], flags := Up, lastHopCount := LastHopCount([p]))
  }

  function LastHopCount(ps: seq<Path>): nat {
    var m := MaxHopcount(ps);
    if m.Some? then m.value else INFINITY2
  }

  function PathInsert(e: Entry, p: Path): Entry {
    e.(paths := e.paths + [p], lastHopCount := LastHopCount(e.paths + [p]))
  }

  /** Route advertisement: the advertised hop count is fixed on first use. */
  function Advertise(e: Entry): Entry {
    if e.advertisedHops.None? then e.(advertisedHops := MaxHopcount(e.paths)) else e
  }

  /** One entry's share of handle_link_failure: the neighbour id is gone. The second
      component is the sequence number to report in a RERR, if any. */
  function LinkFailure(e: Entry, id: Addr): (Entry, Option<nat>) {
    if e.flags.Up? && PathLookup(e.paths, id) < |e.paths| then
      var left := PathDelete(e.paths, id);
      if left == [] then
        var s := Max(e.seqno + 1, e.highestSeqnoHeard);
        (RtDown(e.(paths := left, seqno := s, error := false)), if e.error then Some(s) else None)
      else (e.(paths := left), None)
    else (e, None)
  }

  /** One entry's share of recvError: neighbour via reports the destination unreachable
      with sequence number u. */
  function ErrorHeard(e: Entry, via: Addr, u: nat): (Entry, Option<nat>) {
    if e.flags.Up? && PathLookup(e.paths, via) < |e.paths| && e.seqno <= u then
      var left := PathDelete(e.paths, via);
      var h := Max(e.highestSeqnoHeard, u);
      if left == [] then
        (RtDown(e.(paths := left, highestSeqnoHeard := h, seqno := h)).(error := false),
         if e.error then Some(h) else None)
      else (e.(paths := left, highestSeqnoHeard := h), None)
    else (e, None)
  }

  /** One entry's share of rt_purge. */
  function Purge(e: Entry, now: real): Entry {
    if e.flags.Up? && e.expire < now then
      var left := Unexpired(e.paths, now);
      if left == [] then
        var s := Max(e.seqno + 1, e.highestSeqnoHeard);
        RtDown(e.(paths := left, seqno := if s % 2 == 0 then s + 1 else s))
      else e.(paths := left)
    else e
  }
}
