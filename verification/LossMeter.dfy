/** The loss meter of an IVS receiver (common/ivs.cc): gaps in the sequence numbers are remembered as holes,
    old holes are thrown away, and those in a window of time decide how loaded the network is. */
module LossMeter {
  import opened Common

  // Numbers start .. end, found missing at this time.
  datatype Hole = Hole(start: nat, end: nat, time: real)

  // next: one more than the highest number seen, 0 before the first packet.
  datatype Meter = Meter(next: nat, mean: real, dev: real, holes: seq<Hole>)

  datatype Load = Unloaded | Loaded | Congested

  // A packet with its number, heard at this time; diff is its age, maxrtt what it announces.
  datatype Heard = Heard(now: real, diff: real, number: nat, maxrtt: real, ipg: real)

  // ---------- one packet ----------

  /** None: the number went backwards and the program aborts. */
  function Note(m: Meter, number: nat, now: real): Option<Meter> {
    if m.next == 0 || number == m.next then Some(m.(next := number + 1))
    else if number > m.next then Some(m.(next := number + 1, holes := m.holes + [Hole(m.next, number - 1, now)]))
    else None
  }

  function Smooth(m: Meter, diff: real): Meter {
    var mean := if m.mean == 0.0 then diff else (7.0 * m.mean + diff) / 8.0;
    var d := if diff < mean then mean - diff else diff - mean;
    m.(mean := mean, dev := (7.0 * m.dev + d) / 8.0)
  }

  /** The holes that are not older than lo. */
  function Keep(holes: seq<Hole>, lo: real): (r: seq<Hole>)
    ensures |r| <= |holes|
  {
    if holes == [] then []
    else var h := holes[|holes| - 1]; Keep(holes[..|holes| - 1], lo) + if h.time < lo then [] else [h]
  }

  /** The numbers that are missing in the holes from lo up to hi. */
  function Lost(holes: seq<Hole>, lo: real, hi: real): int {
    if holes == [] then 0
    else
      var h := holes[|holes| - 1];
      Lost(holes[..|holes| - 1], lo, hi) + if lo <= h.time < hi then h.end - h.start + 1 else 0
  }

  /** The verdict on a number of losses, by how many packets an rtt holds. */
  function Verdict(lost: int, maxrtt: real, ipg: real): Load {
    var perRtt := if ipg != 0.0 then maxrtt / ipg else 0.0;
    var pps := if perRtt * 15.0 / 100.0 < 2.0 then 13.0 else perRtt;
    if lost as real <= 5.0 * pps / 100.0 then Unloaded
    else if lost as real <= 15.0 * pps / 100.0 then Loaded
    else Congested
  }

  function Hear(m: Meter, p: Heard): Option<(Meter, Load)> {
    match Note(m, p.number, p.now)
    case None => None
    case Some(noted) =>
      var s := Smooth(noted, p.diff);
      if s.holes == [] then Some((s, Unloaded))
      else
        var hi := p.now - 2.0 * s.dev;
        var lo := hi - p.maxrtt;
        Some((s.(holes := Keep(s.holes, lo)), Verdict(Lost(s.holes, lo, hi), p.maxrtt, p.ipg)))
  }

  /** When an rtt holds few packets, no loss is unloaded, one is loaded, and more are congestion. */
  lemma FewPerRtt(lost: nat, maxrtt: real, ipg: real)
    requires ipg == 0.0 || maxrtt / ipg * 15.0 / 100.0 < 2.0
    ensures Verdict(lost, maxrtt, ipg) == if lost == 0 then Unloaded else if lost == 1 then Loaded else Congested
  {
  }

  /** How many packets an rtt holds, as it is announced. */
  function PerRtt(maxrtt: real, ipg: real): real { if ipg != 0.0 then maxrtt / ipg else 0.0 }

  /** When an rtt holds many packets, up to 5 losses in 100 are unloaded, up to 15 loaded, and more are congestion. */
  lemma ManyPerRtt(lost: nat, maxrtt: real, ipg: real)
    requires PerRtt(maxrtt, ipg) * 15.0 >= 200.0
    ensures Verdict(lost, maxrtt, ipg) == Unloaded <==> lost as real * 100.0 <= 5.0 * PerRtt(maxrtt, ipg)
    ensures Verdict(lost, maxrtt, ipg) == Congested <==> lost as real * 100.0 > 15.0 * PerRtt(maxrtt, ipg)
  {
  }

  /** More loss never makes the verdict milder. */
  lemma MoreIsWorse(lost: nat, more: nat, maxrtt: real, ipg: real)
    requires lost <= more && maxrtt >= 0.0 && ipg >= 0.0
    ensures Verdict(more, maxrtt, ipg) == Unloaded ==> Verdict(lost, maxrtt, ipg) == Unloaded
    ensures Verdict(lost, maxrtt, ipg) == Congested ==> Verdict(more, maxrtt, ipg) == Congested
  {
  }

  function Distance(a: real, b: real): (d: real)
    ensures d >= 0.0 && (d == a - b || d == b - a)
  {
    if a < b then b - a else a - b
  }

  /** With each packet the mean goes an eighth of the way to the packet's age, the first one sets it, and the deviation
      goes an eighth of the way to the distance that remains; without holes the verdict is unloaded. */
  lemma HearSmooths(m: Meter, p: Heard)
    requires Hear(m, p).Some?
    ensures var (m', load) := Hear(m, p).value;
      && m'.next == p.number + 1
      && (m.mean == 0.0 ==> m'.mean == p.diff)
      && (m.mean != 0.0 ==> 8.0 * (m'.mean - m.mean) == p.diff - m.mean)
      && 8.0 * (m'.dev - m.dev) == Distance(p.diff, m'.mean) - m.dev
      && (m.holes == [] && m.next in {0, p.number} ==> m'.holes == [] && load == Unloaded)
  {
    hide Verdict, Lost, Keep;
  }

  // ---------- whole runs ----------

  // Every hole there ever was, and the numbers that were heard.
  datatype Trace = Trace(m: Meter, ever: seq<Hole>, heard: set<nat>)

  function Step(t: Trace, p: Heard): Option<Trace> {
    match Hear(t.m, p)
    case None => None
    case Some((m, _)) =>
      Some(Trace(m, t.ever + Note(t.m, p.number, p.now).value.holes[|t.m.holes|..], t.heard + {p.number}))
  }

  function Run(ps: seq<Heard>): Option<Trace> {
    if ps == [] then Some(Trace(Meter(0, 0.0, 0.0, []), [], {}))
    else
      match Run(ps[..|ps| - 1])
      case None => None
      case Some(t) => Step(t, ps[|ps| - 1])
  }

  predicate Clocked(ps: seq<Heard>) {
    forall i, j :: 0 <= i < j < |ps| ==> ps[i].now <= ps[j].now
  }

  predicate In(holes: seq<Hole>, n: nat) {
    exists i :: 0 <= i < |holes| && holes[i].start <= n <= holes[i].end
  }

  /** Holes in the order of their numbers and of their times. */
  predicate Ordered(holes: seq<Hole>) {
    && (forall i :: 0 <= i < |holes| ==> holes[i].start <= holes[i].end)
    && (forall i, j :: 0 <= i < j < |holes| ==> holes[i].end < holes[j].start && holes[i].time <= holes[j].time)
  }

  predicate Inv(t: Trace, first: nat, now: real) {
    && Ordered(t.ever)
    && (forall i :: 0 <= i < |t.ever| ==> t.ever[i].end < t.m.next && t.ever[i].time <= now)
    && |t.m.holes| <= |t.ever| && t.m.holes == t.ever[|t.ever| - |t.m.holes|..]
    && first < t.m.next
    && (forall n :: n in t.heard ==> first <= n < t.m.next)
    && (forall n: nat :: first <= n < t.m.next ==> (n in t.heard <==> !In(t.ever, n)))
    && (forall i :: 0 <= i < |t.ever| ==> first < t.ever[i].start)
  }

  predicate ByTime(holes: seq<Hole>) {
    forall i, j :: 0 <= i < j < |holes| ==> holes[i].time <= holes[j].time
  }

  /** On holes in order of time, aging removes a prefix. */
  lemma {:induction false} KeepDrops(holes: seq<Hole>, lo: real) returns (k: nat)
    requires ByTime(holes)
    ensures k <= |holes| && Keep(holes, lo) == holes[k..]
    ensures forall i :: 0 <= i < |holes| ==> (i < k <==> holes[i].time < lo)
  {
    k := 0;
    if holes != [] {
      var n := |holes| - 1;
      k := KeepDrops(holes[..n], lo);
      assert Keep(holes, lo) == holes[..n][k..] + if holes[n].time < lo then [] else [holes[n]];
      assert forall i :: 0 <= i < n ==> holes[..n][i] == holes[i];
      if holes[n].time < lo { AllBefore(holes, k, lo); }
      DropSnoc(holes, k);
      k := if holes[n].time < lo then n + 1 else k;
    }
  }

  lemma DropSnoc(holes: seq<Hole>, k: nat)
    requires holes != [] && k < |holes|
    ensures holes[k..] == holes[..|holes| - 1][k..] + [holes[|holes| - 1]]
    ensures k == |holes| - 1 ==> holes[..|holes| - 1][k..] == [] && holes[|holes|..] == []
  {
  }

  lemma AllBefore(holes: seq<Hole>, k: nat, lo: real)
    requires ByTime(holes) && holes != [] && k < |holes| && holes[|holes| - 1].time < lo
    requires forall i :: 0 <= i < |holes| - 1 ==> (i < k <==> holes[i].time < lo)
    ensures k == |holes| - 1
  {
    assert holes[k].time <= holes[|holes| - 1].time;
  }

  lemma SuffixOfSuffix(a: seq<Hole>, i: nat, k: nat)
    requires i + k <= |a|
    ensures a[i..][k..] == a[i + k..]
  {
  }

  lemma InMore(holes: seq<Hole>, h: Hole, n: nat)
    ensures In(holes + [h], n) <==> In(holes, n) || h.start <= n <= h.end
  {
    var all := holes + [h];
    if In(holes, n) {
      var i :| 0 <= i < |holes| && holes[i].start <= n <= holes[i].end;
      assert all[i].start <= n <= all[i].end;
    }
    if h.start <= n <= h.end { assert all[|holes|].start <= n <= all[|holes|].end; }
    if In(all, n) { var i :| 0 <= i < |all| && all[i].start <= n <= all[i].end; }
  }

  lemma OrderedMore(holes: seq<Hole>, h: Hole)
    requires Ordered(holes) && h.start <= h.end
    requires forall i :: 0 <= i < |holes| ==> holes[i].end < h.start && holes[i].time <= h.time
    ensures Ordered(holes + [h])
  {
  }

  lemma NoHole(holes: seq<Hole>, n: nat)
    requires forall i :: 0 <= i < |holes| ==> holes[i].end < n
    ensures !In(holes, n)
  {
  }

  lemma NoteKeeps(t: Trace, first: nat, before: real, p: Heard)
    requires Inv(t, first, before) && before <= p.now && Note(t.m, p.number, p.now).Some?
    ensures var m := Note(t.m, p.number, p.now).value;
      Inv(Trace(m, t.ever + m.holes[|t.m.holes|..], t.heard + {p.number}), first, p.now)
  {
    hide In, Ordered;
    var m := Note(t.m, p.number, p.now).value;
    if p.number == t.m.next {
      assert m.holes[|t.m.holes|..] == [] && t.ever + [] == t.ever;
      NoHole(t.ever, p.number);
    } else {
      var h := Hole(t.m.next, p.number - 1, p.now);
      assert m.holes[|t.m.holes|..] == [h];
      OrderedMore(t.ever, h);
      SuffixMore(t.ever, |t.ever| - |t.m.holes|, h);
      forall n: nat | first <= n < m.next ensures n in t.heard + {p.number} <==> !In(t.ever + [h], n) {
        InMore(t.ever, h, n);
        if n >= t.m.next { NoHole(t.ever, n); }
      }
    }
  }

  lemma SuffixMore(a: seq<Hole>, i: nat, h: Hole)
    requires i <= |a|
    ensures a[i..] + [h] == (a + [h])[i..]
  {
  }

  lemma FirstInv(p: Heard, t: Trace)
    requires Step(Trace(Meter(0, 0.0, 0.0, []), [], {}), p) == Some(t)
    ensures Inv(t, p.number, p.now)
  {
  }

  /** Smoothing and aging leave the invariant alone: what is thrown away is a prefix. */
  lemma AgedKeeps(t: Trace, first: nat, now: real, m: Meter, lo: real)
    requires Inv(t, first, now) && m.next == t.m.next && m.holes == Keep(t.m.holes, lo)
    ensures Inv(t.(m := m), first, now)
  {
    hide In, Ordered, Keep, ByTime;
    var k0 := |t.ever| - |t.m.holes|;
    OrderedSuffix(t.ever, k0);
    var k := KeepDrops(t.m.holes, lo);
    SuffixOfSuffix(t.ever, k0, k);
  }

  lemma StepKeeps(t: Trace, first: nat, before: real, p: Heard)
    requires Inv(t, first, before) && before <= p.now && Step(t, p).Some?
    ensures Inv(Step(t, p).value, first, p.now)
  {
    hide Inv, Keep, Verdict, Lost, Smooth;
    NoteKeeps(t, first, before, p);
    var m := Note(t.m, p.number, p.now).value;
    SmoothKeeps(m, p.diff);
    var s := Smooth(m, p.diff);
    var noted := Trace(m, t.ever + m.holes[|t.m.holes|..], t.heard + {p.number});
    var t' := Step(t, p).value;
    assert t' == noted.(m := t'.m);
    if s.holes != [] {
      AgedKeeps(noted, first, p.now, t'.m, p.now - 2.0 * s.dev - p.maxrtt);
    } else {
      SameKeeps(noted, first, p.now, t'.m);
    }
  }

  lemma SameKeeps(t: Trace, first: nat, now: real, m: Meter)
    requires Inv(t, first, now) && m.next == t.m.next && m.holes == t.m.holes
    ensures Inv(t.(m := m), first, now)
  {
    hide In, Ordered;
  }

  lemma SmoothKeeps(m: Meter, diff: real)
    ensures Smooth(m, diff).holes == m.holes && Smooth(m, diff).next == m.next
  {
  }

  lemma OrderedSuffix(holes: seq<Hole>, k: nat)
    requires Ordered(holes) && k <= |holes|
    ensures Ordered(holes[k..]) && ByTime(holes[k..])
  {
  }

  lemma {:induction false} RunKeeps(ps: seq<Heard>)
    requires ps != [] && Clocked(ps) && Run(ps).Some?
    ensures Inv(Run(ps).value, ps[0].number, ps[|ps| - 1].now)
  {
    hide Inv, Step;
    var n := |ps| - 1;
    if n == 0 {
      assert ps[..0] == [];
      FirstInv(ps[0], Run(ps).value);
    } else {
      RunKeeps(ps[..n]);
      StepKeeps(Run(ps[..n]).value, ps[0].number, ps[n - 1].now, ps[n]);
    }
  }

  /** Every number between the first and the next expected was either heard or lies in exactly one hole; the
      holes that are remembered are the latest of all, so what was thrown away is always a prefix. */
  lemma Partition(ps: seq<Heard>, n: nat)
    requires ps != [] && Clocked(ps) && Run(ps).Some?
    ensures var t := Run(ps).value;
      && (ps[0].number <= n < t.m.next ==> (n in t.heard <==> !In(t.ever, n)))
      && (forall i, j :: 0 <= i < j < |t.ever| ==> t.ever[i].end < t.ever[j].start)
      && |t.m.holes| <= |t.ever| && t.m.holes == t.ever[|t.ever| - |t.m.holes|..]
  {
    RunKeeps(ps);
  }

  /** Before the next packet of a run the holes are in order of time and none is younger than the packet. */
  lemma HolesInTime(ps: seq<Heard>, p: Heard)
    requires Clocked(ps + [p]) && Run(ps).Some?
    ensures var holes := Run(ps).value.m.holes;
      ByTime(holes) && forall i :: 0 <= i < |holes| ==> holes[i].time <= p.now
  {
    hide In, Ordered;
    if ps != [] {
      var all := ps + [p];
      assert forall i :: 0 <= i < |ps| ==> all[i] == ps[i];
      assert all[|ps|] == p && ps[|ps| - 1].now <= p.now;
      RunKeeps(ps);
      var t := Run(ps).value;
      OrderedSuffix(t.ever, |t.ever| - |t.m.holes|);
    }
  }

  lemma NextHeard(ps: seq<Heard>, p: Heard)
    requires Run(ps).Some?
    ensures var h := Hear(Run(ps).value.m, p); var r := Run(ps + [p]);
      (r.None? <==> h.None?) && (r.Some? ==> r.value.m == h.value.0)
  {
    hide Hear;
    assert (ps + [p])[..|ps|] == ps;
  }

  // ---------- the count ----------

  function Range(a: nat, b: nat): (s: set<nat>)
    ensures forall n :: n in s <==> a <= n < b
    ensures a <= b ==> |s| == b - a
  {
    if a >= b then {} else Range(a, b - 1) + {b - 1}
  }

  /** The numbers that are missing in the holes from lo up to hi, as a set. */
  function Missing(holes: seq<Hole>, lo: real, hi: real): (s: set<nat>)
    ensures forall n :: n in s ==> In(holes, n)
  {
    if holes == [] then {}
    else
      var h, m := holes[|holes| - 1], |holes| - 1;
      assert forall n: nat :: In(holes[..m], n) ==> In(holes, n) by {
        forall n: nat | In(holes[..m], n)
          ensures In(holes, n)
        {
          assert holes == holes[..m] + [h];
          InMore(holes[..m], h, n);
        }
      }
      assert forall n: nat :: h.start <= n <= h.end ==> In(holes, n);
      Missing(holes[..m], lo, hi) + if lo <= h.time < hi then Range(h.start, h.end + 1) else {}
  }

  lemma {:induction false} LostIsMissing(holes: seq<Hole>, lo: real, hi: real)
    requires Ordered(holes)
    ensures Lost(holes, lo, hi) == |Missing(holes, lo, hi)|
  {
    hide Ordered, In, Range;
    if holes != [] {
      var n := |holes| - 1;
      var h := holes[n];
      OrderedPart(holes);
      LostIsMissing(holes[..n], lo, hi);
      var before, here := Missing(holes[..n], lo, hi), Range(h.start, h.end + 1);
      forall x: nat | x in before ensures x !in here { BeforeLast(holes, x); }
      assert before !! here;
    }
  }

  lemma OrderedPart(holes: seq<Hole>)
    requires Ordered(holes) && holes != []
    ensures Ordered(holes[..|holes| - 1]) && holes[|holes| - 1].start <= holes[|holes| - 1].end
  {
  }

  lemma BeforeLast(holes: seq<Hole>, x: nat)
    requires Ordered(holes) && holes != [] && In(holes[..|holes| - 1], x)
    ensures x < holes[|holes| - 1].start
  {
    var i :| 0 <= i < |holes| - 1 && holes[..|holes| - 1][i].start <= x <= holes[..|holes| - 1][i].end;
    assert holes[i].end < holes[|holes| - 1].start;
  }

  /** The loss on which the verdict rests is the number of missing packets in the remembered holes that fall
      into the window; a hole that is thrown away is older than the window. */
  lemma CountsMissing(ps: seq<Heard>, p: Heard)
    requires Clocked(ps + [p]) && Run(ps).Some? && Hear(Run(ps).value.m, p).Some?
    requires Note(Run(ps).value.m, p.number, p.now).value.holes != []
    ensures var (m, load) := Hear(Run(ps).value.m, p).value;
      var all := Note(Run(ps).value.m, p.number, p.now).value.holes;
      var hi := p.now - 2.0 * m.dev;
      var lo := hi - p.maxrtt;
      exists k :: 0 <= k <= |all| && m.holes == all[k..]
        && (forall i :: 0 <= i < |all| ==> (i < k <==> all[i].time < lo))
        && load == Verdict(|Missing(m.holes, lo, hi)|, p.maxrtt, p.ipg)
  {
    hide Verdict, Missing, Lost, Ordered, Run, Keep, ByTime, Note;
    var noted := Note(Run(ps).value.m, p.number, p.now).value;
    var s := Smooth(noted, p.diff);
    var hi := p.now - 2.0 * s.dev;
    var lo := hi - p.maxrtt;
    NotedOrdered(ps, p);
    var k := KeepDrops(s.holes, lo);
    OrderedSuffix(s.holes, k);
    LostIsMissing(s.holes[k..], lo, hi);
    LostOfKept(s.holes, k, lo, hi);
  }

  lemma NotedOrdered(ps: seq<Heard>, p: Heard)
    requires Clocked(ps + [p]) && Run(ps).Some? && Note(Run(ps).value.m, p.number, p.now).Some?
    ensures var holes := Note(Run(ps).value.m, p.number, p.now).value.holes; Ordered(holes) && ByTime(holes)
  {
    if ps != [] {
      var t := Run(ps).value;
      var all := ps + [p];
      assert forall i :: 0 <= i < |ps| ==> all[i] == ps[i];
      assert all[|ps|] == p && ps[|ps| - 1].now <= p.now;
      RunKeeps(ps);
      NoteKeeps(t, ps[0].number, ps[|ps| - 1].now, p);
      var m := Note(t.m, p.number, p.now).value;
      var ever := t.ever + m.holes[|t.m.holes|..];
      OrderedSuffix(ever, |ever| - |m.holes|);
    }
  }

  lemma {:induction false} LostOfKept(holes: seq<Hole>, k: nat, lo: real, hi: real)
    requires k <= |holes| && forall i :: 0 <= i < k ==> holes[i].time < lo
    ensures Lost(holes, lo, hi) == Lost(holes[k..], lo, hi)
    decreases |holes|
  {
    if k < |holes| {
      var n := |holes| - 1;
      assert holes[k..][..n - k] == holes[..n][k..];
      LostOfKept(holes[..n], k, lo, hi);
    } else if holes != [] {
      LostOfKept(holes[..|holes| - 1], k - 1, lo, hi);
    }
  }

  // ---------- ages and numbers ----------

  predicate AgesIn(ps: seq<Heard>, lo: real, hi: real) {
    forall i :: 0 <= i < |ps| ==> lo <= ps[i].diff <= hi
  }

  /** If all ages lie in some range of positive numbers, so does their mean, and the deviation is at most its width. */
  lemma {:induction false} MeanInRange(ps: seq<Heard>, lo: real, hi: real)
    requires ps != [] && Run(ps).Some? && AgesIn(ps, lo, hi) && 0.0 < lo
    ensures var m := Run(ps).value.m; lo <= m.mean <= hi && 0.0 <= m.dev <= hi - lo
  {
    hide Hear;
    var n := |ps| - 1;
    var t := Run(ps[..n]).value;
    HearSmooths(t.m, ps[n]);
    if n > 0 { MeanInRange(ps[..n], lo, hi); }
  }

  predicate Increasing(ps: seq<Heard>) {
    forall i, j :: 0 <= i < j < |ps| ==> ps[i].number < ps[j].number
  }

  lemma HearGoesOn(m: Meter, p: Heard)
    ensures Hear(m, p).Some? <==> m.next == 0 || p.number >= m.next
    ensures Hear(m, p).Some? ==> Hear(m, p).value.0.next == p.number + 1
  {
    hide Verdict, Lost, Keep;
  }

  /** The program goes on exactly as long as the numbers increase. */
  lemma {:induction false} GoesOnIff(ps: seq<Heard>)
    ensures Run(ps).Some? <==> Increasing(ps)
    ensures Run(ps).Some? && ps != [] ==> Run(ps).value.m.next == ps[|ps| - 1].number + 1
  {
    hide Hear;
    if ps != [] {
      var n := |ps| - 1;
      GoesOnIff(ps[..n]);
      if Run(ps[..n]).Some? { HearGoesOn(Run(ps[..n]).value.m, ps[n]); }
      assert Increasing(ps) ==> Increasing(ps[..n]);
      if n > 0 && Increasing(ps[..n]) {
        assert ps[..n][n - 1] == ps[n - 1];
        assert forall i :: 0 <= i < n ==> ps[..n][i].number <= ps[n - 1].number;
      }
    }
  }
}
