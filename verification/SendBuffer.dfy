/** The buffer in which AODV and AOMDV keep packets that wait for a route (aodv_rqueue.cc,
    aomdv_rqueue.cc), as a bounded sequence, oldest packet first. */
module SendBuffer {
  import opened Common

  const LIMIT := 64
  const TIMEOUT := 30.0

  // expires: the time after which the packet is purged.
  datatype Item = Item(id: nat, dst: Addr, expires: real)

  // ---------- the operations ----------

  function FirstAged(q: seq<Item>, now: real): (i: nat)
    ensures i <= |q| && (i < |q| ==> q[i].expires < now)
    ensures forall j :: 0 <= j < i ==> q[j].expires >= now
  {
    if q == [] || q[0].expires < now then 0 else 1 + FirstAged(q[1..], now)
  }

  function FirstFor(q: seq<Item>, dst: Addr): (i: nat)
    ensures i <= |q| && (i < |q| ==> q[i].dst == dst)
    ensures forall j :: 0 <= j < i ==> q[j].dst != dst
  {
    if q == [] || q[0].dst == dst then 0 else 1 + FirstFor(q[1..], dst)
  }

  function Without(q: seq<Item>, i: nat): seq<Item>
    requires i < |q|
  {
    q[..i] + q[i + 1..]
  }

  /** Take out an aged packet until there is none. */
  function Purge(q: seq<Item>, now: real): (r: seq<Item>)
    ensures |r| <= |q| && forall j :: 0 <= j < |r| ==> r[j].expires >= now
    decreases |q|
  {
    var i := FirstAged(q, now);
    if i == |q| then q else Purge(Without(q, i), now)
  }

  function Enque(q: seq<Item>, id: nat, dst: Addr, now: real): seq<Item> {
    var q := Purge(q, now);
    (if |q| == LIMIT then q[1..] else q) + [Item(id, dst, now + TIMEOUT)]
  }

  function Deque(q: seq<Item>, now: real): (seq<Item>, Option<Item>) {
    var q := Purge(q, now);
    if q == [] then (q, None) else (q[1..], Some(q[0]))
  }

  function DequeFor(q: seq<Item>, dst: Addr, now: real): (seq<Item>, Option<Item>) {
    var q := Purge(q, now);
    var i := FirstFor(q, dst);
    if i == |q| then (q, None) else (Without(q, i), Some(q[i]))
  }

  // ---------- two ways to purge ----------

  /** The older purge, which only looks at the head. */
  function PurgeHead(q: seq<Item>, now: real): seq<Item> {
    if q != [] && q[0].expires < now then PurgeHead(q[1..], now) else q
  }

  predicate Sorted(q: seq<Item>) {
    forall i, j :: 0 <= i < j < |q| ==> q[i].expires <= q[j].expires
  }

  /** No aged packet stands behind one that has not aged. */
  predicate AgedFirst(q: seq<Item>, now: real) {
    forall i, j :: 0 <= i < j < |q| && q[j].expires < now ==> q[i].expires < now
  }

  /** The two leave the same packets exactly when the aged ones stand in front. */
  lemma {:induction false} PurgesAgree(q: seq<Item>, now: real)
    ensures Purge(q, now) == PurgeHead(q, now) <==> AgedFirst(q, now)
    decreases |q|
  {
    hide AgedFirst;
    var i := FirstAged(q, now);
    if i == |q| {
      NoneAged(q, now);
    } else if i == 0 {
      assert Without(q, 0) == q[1..];
      PurgesAgree(q[1..], now);
      AgedHead(q, now);
    } else {
      AgedBehind(q, now, i);
      assert |Purge(q, now)| < |q|;
    }
  }

  lemma NoneAged(q: seq<Item>, now: real)
    requires forall j :: 0 <= j < |q| ==> q[j].expires >= now
    ensures AgedFirst(q, now)
  {
  }

  lemma AgedHead(q: seq<Item>, now: real)
    requires q != [] && q[0].expires < now
    ensures AgedFirst(q, now) <==> AgedFirst(q[1..], now)
  {
    var r := q[1..];
    assert forall j :: 0 < j < |q| ==> q[j] == r[j - 1];
    assert forall j :: 0 <= j < |r| ==> r[j] == q[j + 1];
  }

  lemma AgedBehind(q: seq<Item>, now: real, i: nat)
    requires 0 < i < |q| && q[0].expires >= now && q[i].expires < now
    ensures !AgedFirst(q, now)
  {
  }

  lemma SortedAgedFirst(q: seq<Item>, now: real)
    requires Sorted(q)
    ensures AgedFirst(q, now)
  {
  }

  // ---------- whole runs ----------

  datatype Event = In(now: real, id: nat, dst: Addr) | Out(now: real) | OutFor(now: real, dst: Addr)

  function Step(q: seq<Item>, e: Event): seq<Item> {
    match e
    case In(now, id, dst) => Enque(q, id, dst, now)
    case Out(now) => Deque(q, now).0
    case OutFor(now, dst) => DequeFor(q, dst, now).0
  }

  function Run(events: seq<Event>): seq<Item> {
    if events == [] then [] else Step(Run(events[..|events| - 1]), events[|events| - 1])
  }

  /** The clock does not run backwards. */
  predicate Clocked(events: seq<Event>) {
    forall i, j :: 0 <= i < j < |events| ==> events[i].now <= events[j].now
  }

  /** What was put in, in order. */
  function Came(events: seq<Event>): seq<Item> {
    if events == [] then []
    else
      var e := events[|events| - 1];
      Came(events[..|events| - 1]) + if e.In? then [Item(e.id, e.dst, e.now + TIMEOUT)] else []
  }

  function For(q: seq<Item>, dst: Addr): seq<Item> {
    if q == [] then []
    else For(q[..|q| - 1], dst) + if q[|q| - 1].dst == dst then [q[|q| - 1]] else []
  }

  predicate Suffix(a: seq<Item>, b: seq<Item>) { |a| <= |b| && a == b[|b| - |a|..] }

  lemma {:induction false} ForConcat(a: seq<Item>, b: seq<Item>, dst: Addr)
    ensures For(a + b, dst) == For(a, dst) + For(b, dst)
  {
    if b == [] {
      assert a + b == a;
    } else {
      assert (a + b)[..|a + b| - 1] == a + b[..|b| - 1];
      ForConcat(a, b[..|b| - 1], dst);
    }
  }

  lemma {:induction false} ForNone(q: seq<Item>, dst: Addr)
    requires forall j :: 0 <= j < |q| ==> q[j].dst != dst
    ensures For(q, dst) == []
  {
    if q != [] { ForNone(q[..|q| - 1], dst); }
  }

  /** Taking out one packet takes the oldest away from its destination and nothing from any other. */
  lemma ForWithout(q: seq<Item>, i: nat, dst: Addr)
    requires i < |q| && forall j :: 0 <= j < i ==> q[j].dst != q[i].dst
    ensures For(q, dst) == (if q[i].dst == dst then [q[i]] else []) + For(Without(q, i), dst)
  {
    assert q == q[..i] + [q[i]] + q[i + 1..];
    assert [q[i]][..0] == [];
    assert For([q[i]], dst) == if q[i].dst == dst then [q[i]] else [];
    ForConcat(q[..i] + [q[i]], q[i + 1..], dst);
    ForConcat(q[..i], [q[i]], dst);
    ForConcat(q[..i], q[i + 1..], dst);
    if q[i].dst == dst { ForNone(q[..i], dst); }
  }

  /** deque(dst) hands out the oldest packet that waits for dst and leaves the order of all others alone. */
  lemma ServesOldest(q: seq<Item>, dst: Addr, now: real, other: Addr)
    ensures var waiting := For(Purge(q, now), dst);
      DequeFor(q, dst, now).1 == if waiting == [] then None else Some(waiting[0])
    ensures var waiting := For(Purge(q, now), other);
      For(DequeFor(q, dst, now).0, other) == if dst == other && waiting != [] then waiting[1..] else waiting
  {
    hide For, Purge;
    var r := Purge(q, now);
    var i := FirstFor(r, dst);
    if i == |r| {
      ForNone(r, dst);
    } else {
      ForWithout(r, i, dst);
      ForWithout(r, i, other);
    }
  }

  lemma SuffixTrans(a: seq<Item>, b: seq<Item>, c: seq<Item>)
    requires Suffix(a, b) && Suffix(b, c)
    ensures Suffix(a, c)
  {
  }

  lemma {:induction false} PurgeHeadDrops(q: seq<Item>, now: real) returns (k: nat)
    ensures k <= |q| && PurgeHead(q, now) == q[k..]
    ensures forall j :: 0 <= j < k ==> q[j].expires < now
  {
    k := 0;
    if q != [] && q[0].expires < now {
      k := PurgeHeadDrops(q[1..], now);
      k := k + 1;
    }
  }

  lemma {:induction false} DropSuffix(q: seq<Item>, k: nat, dst: Addr)
    requires k <= |q|
    ensures Suffix(For(q[k..], dst), For(q, dst))
  {
    assert q == q[..k] + q[k..];
    ForConcat(q[..k], q[k..], dst);
  }

  /** On a sorted buffer the purge drops a prefix, which has expired. */
  lemma PurgeDrops(q: seq<Item>, now: real) returns (k: nat)
    requires Sorted(q)
    ensures k <= |q| && Purge(q, now) == q[k..]
    ensures forall j :: 0 <= j < k ==> q[j].expires < now
  {
    SortedAgedFirst(q, now);
    PurgesAgree(q, now);
    k := PurgeHeadDrops(q, now);
  }

  /** Sorted, bounded, and nothing expires later than the latest packet can. */
  predicate Inv(q: seq<Item>, now: real) {
    Sorted(q) && |q| <= LIMIT && forall j :: 0 <= j < |q| ==> q[j].expires <= now + TIMEOUT
  }

  lemma DropInv(q: seq<Item>, t: real, k: nat, now: real)
    requires Inv(q, t) && t <= now && k <= |q|
    ensures Inv(q[k..], now)
  {
  }

  lemma WithoutInv(q: seq<Item>, now: real, i: nat)
    requires Inv(q, now) && i < |q|
    ensures Inv(Without(q, i), now)
  {
  }

  lemma InInv(q: seq<Item>, now: real, id: nat, dst: Addr)
    requires Inv(q, now) && |q| < LIMIT
    ensures Inv(q + [Item(id, dst, now + TIMEOUT)], now)
  {
  }

  lemma StepInv(q: seq<Item>, t: real, e: Event)
    requires Inv(q, t) && t <= e.now
    ensures Inv(Step(q, e), e.now)
  {
    hide Purge, Inv;
    InvSorted(q, t);
    var k := PurgeDrops(q, e.now);
    DropInv(q, t, k, e.now);
    var r := q[k..];
    InvSorted(r, e.now);
    if |r| > 0 { DropInv(r, e.now, 1, e.now); }
    match e
    case In(now, id, d) => InInv(if |r| == LIMIT then r[1..] else r, now, id, d);
    case Out(_) =>
    case OutFor(now, d) => if FirstFor(r, d) < |r| { WithoutInv(r, now, FirstFor(r, d)); }
  }

  lemma InvSorted(q: seq<Item>, t: real)
    requires Inv(q, t)
    ensures Sorted(q) && |q| <= LIMIT
  {
  }

  lemma StepSuffix(q: seq<Item>, e: Event, dst: Addr)
    requires Sorted(q)
    ensures Suffix(For(Step(q, e), dst),
      For(q, dst) + if e.In? && e.dst == dst then [Item(e.id, e.dst, e.now + TIMEOUT)] else [])
  {
    hide Purge, For, Sorted, Suffix;
    var k := PurgeDrops(q, e.now);
    var r := q[k..];
    DropSuffix(q, k, dst);
    assert For(q, dst) + [] == For(q, dst);
    match e
    case In(now, id, d) =>
      var kept, p := if |r| == LIMIT then r[1..] else r, Item(id, d, now + TIMEOUT);
      ForConcat(kept, [p], dst);
      ForOne(p, dst);
      DropSuffix(r, if |r| == LIMIT then 1 else 0, dst);
      assert r[0..] == r;
      SuffixTrans(For(kept, dst), For(r, dst), For(q, dst));
      SuffixMore(For(kept, dst), For(q, dst), if d == dst then [p] else []);
    case Out(_) =>
      if r != [] {
        DropSuffix(r, 1, dst);
        SuffixTrans(For(r[1..], dst), For(r, dst), For(q, dst));
      }
    case OutFor(now, d) =>
      ServesOldest(q, d, now, dst);
      TailSuffix(For(r, dst));
      SuffixTrans(For(Step(q, e), dst), For(r, dst), For(q, dst));
  }

  lemma TailSuffix(a: seq<Item>)
    ensures Suffix(a, a) && (a != [] ==> Suffix(a[1..], a))
  {
  }

  lemma ForOne(p: Item, dst: Addr)
    ensures For([p], dst) == if p.dst == dst then [p] else []
  {
    assert [p][..0] == [];
  }

  /** In every run under a clock that does not run backwards, the packets that wait for a destination are a last
      part of those that came for it, in order. */
  lemma {:induction false} LatestInOrder(events: seq<Event>, dst: Addr)
    requires Clocked(events)
    ensures Suffix(For(Run(events), dst), For(Came(events), dst))
    ensures events != [] ==> Inv(Run(events), events[|events| - 1].now)
  {
    hide For, Step, Sorted;
    if events == [] {
    } else {
      var n, e := |events| - 1, events[|events| - 1];
      LatestInOrder(events[..n], dst);
      var t := if n == 0 then e.now else events[n - 1].now;
      if n == 0 { NoneYet(t); }
      InvSorted(Run(events[..n]), t);
      StepInv(Run(events[..n]), t, e);
      StepSuffix(Run(events[..n]), e, dst);
      var p := if e.In? then [Item(e.id, e.dst, e.now + TIMEOUT)] else [];
      ForConcat(Came(events[..n]), p, dst);
      if e.In? { ForOne(p[0], dst); } else { ForNone([], dst); }
      SuffixMore(For(Run(events[..n]), dst), For(Came(events[..n]), dst), For(p, dst));
      SuffixTrans(For(Run(events), dst), For(Run(events[..n]), dst) + For(p, dst), For(Came(events), dst));
    }
  }

  lemma NoneYet(t: real)
    ensures Inv([], t)
  {
  }

  lemma SuffixMore(a: seq<Item>, b: seq<Item>, p: seq<Item>)
    requires Suffix(a, b)
    ensures Suffix(a + p, b + p)
  {
  }

  // ---------- what became of the others ----------

  datatype Fate = HandedOut | Expired | PushedOut

  // A packet that left the buffer at event number `at`.
  datatype Departure = Departure(item: Item, fate: Fate, at: nat)

  function Aged(q: seq<Item>, now: real): seq<Item> {
    if q == [] then [] else (if q[0].expires < now then [q[0]] else []) + Aged(q[1..], now)
  }

  function Marked(q: seq<Item>, fate: Fate, at: nat): (d: seq<Departure>)
    ensures |d| == |q| && forall i :: 0 <= i < |q| ==> d[i] == Departure(q[i], fate, at)
  {
    seq(|q|, i requires 0 <= i < |q| => Departure(q[i], fate, at))
  }

  /** The packet that event e takes out of the purged buffer, if any. */
  function TakenOut(q: seq<Item>, e: Event): seq<Item> {
    var r := Purge(q, e.now);
    match e
    case In(_, _, _) => if |r| == LIMIT then [r[0]] else []
    case Out(_) => if r == [] then [] else [r[0]]
    case OutFor(_, dst) => var i := FirstFor(r, dst); if i == |r| then [] else [r[i]]
  }

  /** The departures at event e, number `at`, in order. */
  function Departs(q: seq<Item>, e: Event, at: nat): seq<Departure> {
    Marked(Aged(q, e.now), Expired, at) + Marked(TakenOut(q, e), if e.In? then PushedOut else HandedOut, at)
  }

  function Left(events: seq<Event>): seq<Departure> {
    if events == [] then []
    else
      var n := |events| - 1;
      Left(events[..n]) + Departs(Run(events[..n]), events[n], n)
  }

  function Items(d: seq<Departure>): (q: seq<Item>)
    ensures |q| == |d| && forall i :: 0 <= i < |d| ==> q[i] == d[i].item
  {
    seq(|d|, i requires 0 <= i < |d| => d[i].item)
  }

  lemma {:induction false} AgedIs(q: seq<Item>, now: real, k: nat)
    requires k <= |q| && (forall j :: 0 <= j < k ==> q[j].expires < now)
    requires forall j :: k <= j < |q| ==> q[j].expires >= now
    ensures Aged(q, now) == q[..k]
  {
    if q != [] {
      AgedIs(q[1..], now, if k == 0 then 0 else k - 1);
      if k > 0 { assert q[..k] == [q[0]] + q[1..][..k - 1]; }
    }
  }

  /** What was there and what came is what left and what is there, in order. */
  lemma StepAccounts(q: seq<Item>, e: Event, at: nat, dst: Addr)
    requires Sorted(q)
    ensures var p := if e.In? then [Item(e.id, e.dst, e.now + TIMEOUT)] else [];
      For(q, dst) + For(p, dst) == For(Items(Departs(q, e, at)), dst) + For(Step(q, e), dst)
  {
    hide Purge, For, Sorted, Aged;
    var k := PurgeDrops(q, e.now);
    var r := q[k..];
    assert forall j :: k <= j < |q| ==> q[j] == r[j - k];
    AgedIs(q, e.now, k);
    var taken := TakenOut(q, e);
    assert q == q[..k] + r && Items(Departs(q, e, at)) == q[..k] + taken;
    ForConcat(q[..k], r, dst);
    ForConcat(q[..k], taken, dst);
    TakenAccounts(q, e, dst);
    var p := if e.In? then [Item(e.id, e.dst, e.now + TIMEOUT)] else [];
    Assoc(For(q[..k], dst), For(r, dst), For(p, dst));
    Assoc(For(q[..k], dst), For(taken, dst), For(Step(q, e), dst));
  }

  lemma Assoc(a: seq<Item>, b: seq<Item>, c: seq<Item>)
    ensures (a + b) + c == a + (b + c)
  {
  }

  lemma TakenAccounts(q: seq<Item>, e: Event, dst: Addr)
    ensures var p := if e.In? then [Item(e.id, e.dst, e.now + TIMEOUT)] else [];
      For(Purge(q, e.now), dst) + For(p, dst) == For(TakenOut(q, e), dst) + For(Step(q, e), dst)
  {
    hide Purge, For;
    var r := Purge(q, e.now);
    ForNone([], dst);
    match e
    case In(now, id, d) =>
      var p := [Item(id, d, now + TIMEOUT)];
      if |r| == LIMIT { FirstAccounts(r, dst); }
      ForConcat(if |r| == LIMIT then r[1..] else r, p, dst);
    case Out(_) => if r != [] { FirstAccounts(r, dst); }
    case OutFor(_, d) =>
      var i := FirstFor(r, d);
      if i < |r| {
        ForWithout(r, i, dst);
        ForOne(r[i], dst);
      }
  }

  lemma FirstAccounts(r: seq<Item>, dst: Addr)
    requires r != []
    ensures For(r, dst) == For([r[0]], dst) + For(r[1..], dst)
  {
    assert r == [r[0]] + r[1..];
    ForConcat([r[0]], r[1..], dst);
  }

  /** In every run under a clock that does not run backwards, the packets that came for a destination are, in their
      order, those that left and those that wait: none is lost, repeated, invented or overtaken. */
  lemma {:induction false} Accounted(events: seq<Event>, dst: Addr)
    requires Clocked(events)
    ensures For(Came(events), dst) == For(Items(Left(events)), dst) + For(Run(events), dst)
  {
    hide For, Step, Sorted, Departs;
    if events == [] {
      ForNone([], dst);
    } else {
      var n, e := |events| - 1, events[|events| - 1];
      var past := events[..n];
      Accounted(past, dst);
      LatestInOrder(past, dst);
      if n == 0 { NoneYet(0.0); }
      InvSorted(Run(past), if n == 0 then 0.0 else past[n - 1].now);
      StepAccounts(Run(past), e, n, dst);
      var p := if e.In? then [Item(e.id, e.dst, e.now + TIMEOUT)] else [];
      var gone := Departs(Run(past), e, n);
      ForConcat(Came(past), p, dst);
      ForConcat(Items(Left(past)), Items(gone), dst);
      assert Items(Left(events)) == Items(Left(past)) + Items(gone);
      Assoc(For(Items(Left(past)), dst), For(Run(past), dst), For(p, dst));
      Assoc(For(Items(Left(past)), dst), For(Items(gone), dst), For(Run(events), dst));
    }
  }

  /** What event e does to packet p of the buffer q. */
  predicate Happens(q: seq<Item>, e: Event, p: Item, fate: Fate) {
    match fate
    case Expired => p.expires < e.now
    case PushedOut => e.In? && |Purge(q, e.now)| == LIMIT && p == Purge(q, e.now)[0]
    case HandedOut => || (e.Out? && Deque(q, e.now).1 == Some(p))
                      || (e.OutFor? && DequeFor(q, e.dst, e.now).1 == Some(p))
  }

  /** A packet leaves because it was handed out, because it had expired, or because it was the oldest of 64
      when another one came. */
  lemma {:induction false} WhyLeft(events: seq<Event>, i: nat)
    requires i < |Left(events)|
    ensures var d := Left(events)[i];
      d.at < |events| && Happens(Run(events[..d.at]), events[d.at], d.item, d.fate)
  {
    hide Purge;
    var n := |events| - 1;
    var past := events[..n];
    if i < |Left(past)| {
      WhyLeft(past, i);
      var d := Left(past)[i];
      assert past[..d.at] == events[..d.at];
    } else {
      AgedOnly(Run(past), events[n].now);
    }
  }

  lemma {:induction false} AgedOnly(q: seq<Item>, now: real)
    ensures forall i :: 0 <= i < |Aged(q, now)| ==> Aged(q, now)[i].expires < now
  {
    if q != [] { AgedOnly(q[1..], now); }
  }

  /** So the purge that searches the whole buffer and the one that only looks at its head are interchangeable. */
  lemma PurgesAgreeInRuns(events: seq<Event>, now: real)
    requires Clocked(events)
    ensures Purge(Run(events), now) == PurgeHead(Run(events), now) && |Run(events)| <= LIMIT
  {
    LatestInOrder(events, 0);
    if events != [] { InvSorted(Run(events), events[|events| - 1].now); }
    SortedAgedFirst(Run(events), now);
    PurgesAgree(Run(events), now);
  }
}
