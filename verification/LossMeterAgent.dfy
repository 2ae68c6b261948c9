/** The loss meter as it is built: a singly linked list of holes with head and tail, from which old
    holes are unlinked during one walk that also counts. */
module LossMeterAgent {
  import opened Common
  import opened LossMeter

  class McHole {
    const hole: Hole
    var next: McHole?

    constructor (h: Hole)
      ensures hole == h && next == null
    {
      hole, next := h, null;
    }
  }

  ghost function HolesOf(nodes: seq<McHole>): (q: seq<Hole>)
    ensures |q| == |nodes|
    ensures forall i :: 0 <= i < |nodes| ==> q[i] == nodes[i].hole
  {
    seq(|nodes|, i requires 0 <= i < |nodes| => nodes[i].hole)
  }

  class IvsReceiver {
    var nextSeq: nat
    var timeMean: real
    var timeVar: real
    var head: McHole?
    var tail: McHole?
    ghost var nodes: seq<McHole>
    ghost var repr: set<McHole>

    /** The list from head on; tail is not looked at. */
    ghost predicate Linked()
      reads this`head, this`nodes, this`repr, repr
    {
      && (forall i :: 0 <= i < |nodes| ==> nodes[i] in repr)
      && (forall i, j :: 0 <= i < j < |nodes| ==> nodes[i] != nodes[j])
      && head == (if nodes == [] then null else nodes[0])
      && (forall i {:trigger nodes[i].next} :: 0 <= i < |nodes| ==>
            nodes[i].next == if i == |nodes| - 1 then null else nodes[i + 1])
    }

    /** An empty list may leave the tail dangling; otherwise it is the last hole. */
    ghost predicate Valid()
      reads this`head, this`tail, this`nodes, this`repr, repr
    {
      Linked() && (nodes != [] ==> tail == nodes[|nodes| - 1])
    }

    ghost function View(): Meter
      reads this`nextSeq, this`timeMean, this`timeVar, this`nodes
    {
      Meter(nextSeq, timeMean, timeVar, HolesOf(nodes))
    }

    constructor ()
      ensures Valid() && View() == Meter(0, 0.0, 0.0, []) && repr == {}
    {
      nextSeq, timeMean, timeVar, head, tail, nodes, repr := 0, 0.0, 0.0, null, null, [], {};
    }

    /** False when the number went backwards and the program aborts. */
    method NoteNumber(number: nat, now: real) returns (ok: bool)
      requires Valid()
      modifies this, repr
      ensures Valid() && fresh(repr - old(repr))
      ensures ok <==> Note(old(View()), number, now).Some?
      ensures ok ==> View() == Note(old(View()), number, now).value
    {
      ok := true;
      if nextSeq == 0 {
        nextSeq := number + 1;
      } else if number == nextSeq {
        nextSeq := nextSeq + 1;
      } else if number > nextSeq {
        var n := new McHole(Hole(nextSeq, number - 1, now));
        if head == null {
          head, tail := n, n;
        } else {
          tail.next := n;
          tail := n;
        }
        nodes, repr := nodes + [n], repr + {n};
        nextSeq := number + 1;
      } else {
        ok := false;
      }
    }

    /** Take out cur, which stands at i behind prev. */
    method Unlink(cur: McHole, prev: McHole?, ghost i: nat)
      requires Linked() && i < |nodes| && cur == nodes[i] && prev == if i == 0 then null else nodes[i - 1]
      modifies this`head, this`nodes, repr
      ensures Linked() && nodes == old(nodes[..i] + nodes[i + 1..])
    {
      if prev == null {
        head := cur.next;
      } else {
        prev.next := cur.next;
      }
      nodes := nodes[..i] + nodes[i + 1..];
    }

    /** What the first k holes leave, and what they count for. */
    ghost predicate Counted(kept: seq<McHole>, all: seq<McHole>, k: nat, lo: real, hi: real, lost: int) {
      && k <= |all| && HolesOf(kept) == Keep(HolesOf(all[..k]), lo) && lost == Lost(HolesOf(all[..k]), lo, hi)
      && (k > 0 && all[k - 1].hole.time >= lo ==> kept != [] && kept[|kept| - 1] == all[k - 1])
    }

    lemma CountOne(kept: seq<McHole>, all: seq<McHole>, k: nat, lo: real, hi: real, lost: int)
      requires Counted(kept, all, k, lo, hi, lost) && k < |all|
      ensures var h := all[k].hole;
        if h.time < lo then Counted(kept, all, k + 1, lo, hi, lost)
        else Counted(kept + [all[k]], all, k + 1, lo, hi, lost + if h.time < hi then h.end - h.start + 1 else 0)
    {
      var before, upto := HolesOf(all[..k]), HolesOf(all[..k + 1]);
      assert upto[..k] == before && upto[k] == all[k].hole;
      assert HolesOf(kept + [all[k]]) == HolesOf(kept) + [all[k].hole];
    }

    lemma CountAll(kept: seq<McHole>, all: seq<McHole>, lo: real, hi: real, lost: int)
      requires Counted(kept, all, |all|, lo, hi, lost)
      ensures HolesOf(kept) == Keep(HolesOf(all), lo) && lost == Lost(HolesOf(all), lo, hi)
      ensures all != [] && all[|all| - 1].hole.time >= lo ==> kept != [] && kept[|kept| - 1] == all[|all| - 1]
    {
      assert all[..|all|] == all;
    }

    /** The list during the walk: what was kept, then what is still to come. */
    ghost predicate Walking(kept: seq<McHole>, all: seq<McHole>, k: nat)
      reads this`head, this`nodes, this`repr, repr
    {
      Linked() && k <= |all| && nodes == kept + all[k..]
    }

    lemma At(kept: seq<McHole>, all: seq<McHole>, k: nat)
      requires Walking(kept, all, k)
      ensures (if kept == [] then head else kept[|kept| - 1].next) == (if k < |all| then all[k] else null)
      ensures k == |all| ==> nodes == kept
    {
      var i := |kept|;
      if i > 0 { assert nodes[i - 1].next == if i == |nodes| then null else nodes[i]; }
    }

    lemma KeepOn(kept: seq<McHole>, all: seq<McHole>, k: nat)
      requires Walking(kept, all, k) && k < |all|
      ensures Walking(kept + [all[k]], all, k + 1)
    {
      assert all[k..] == [all[k]] + all[k + 1..];
    }

    /** Take cur, the next of the walk, out of the list. */
    method Drop(cur: McHole, prev: McHole?, ghost kept: seq<McHole>, ghost all: seq<McHole>, ghost k: nat)
      requires Walking(kept, all, k) && k < |all| && cur == all[k]
      requires prev == if kept == [] then null else kept[|kept| - 1]
      modifies this`head, this`nodes, repr
      ensures Walking(kept, all, k + 1)
    {
      assert all[k..] == [all[k]] + all[k + 1..];
      Unlink(cur, prev, |kept|);
      assert nodes == kept + all[k + 1..];
    }

    /** One walk along the holes: drop those older than lo, count those before hi. */
    method Age(lo: real, hi: real) returns (lost: int)
      requires Linked()
      modifies this`head, this`nodes, repr
      ensures Linked() && HolesOf(nodes) == Keep(HolesOf(old(nodes)), lo)
      ensures lost == Lost(HolesOf(old(nodes)), lo, hi)
      ensures var all := old(nodes);
        all != [] && all[|all| - 1].hole.time >= lo ==> nodes != [] && nodes[|nodes| - 1] == all[|all| - 1]
    {
      hide Keep, Lost, HolesOf, Walking, Linked, Counted;
      ghost var all, k := nodes, 0;
      ghost var kept: seq<McHole> := [];
      var cur: McHole?, prev: McHole? := head, null;
      lost := 0;
      Begin(lo, hi);
      At(kept, all, k);
      while cur != null
        invariant Walking(kept, all, k) && k <= |all|
        invariant cur == if k < |all| then all[k] else null
        invariant prev == if kept == [] then null else kept[|kept| - 1]
        invariant Counted(kept, all, k, lo, hi, lost)
        decreases |all| - k
      {
        CountOne(kept, all, k, lo, hi, lost);
        if cur.hole.time < lo {
          Drop(cur, prev, kept, all, k);
          if prev == null { cur := head; } else { cur := prev.next; }
        } else {
          if cur.hole.time < hi { lost := lost + (cur.hole.end - cur.hole.start + 1); }
          KeepOn(kept, all, k);
          kept := kept + [cur];
          prev := cur;
          cur := cur.next;
        }
        k := k + 1;
        At(kept, all, k);
      }
      At(kept, all, k);
      CountAll(kept, all, lo, hi, lost);
      Linkage(kept, all, k);
    }

    lemma Linkage(kept: seq<McHole>, all: seq<McHole>, k: nat)
      requires Walking(kept, all, k)
      ensures Linked()
    {
    }

    lemma Begin(lo: real, hi: real)
      requires Linked()
      ensures Walking([], nodes, 0) && Counted([], nodes, 0, lo, hi, 0)
    {
      assert HolesOf(nodes[..0]) == HolesOf([]) == [];
      assert [] + nodes[0..] == nodes;
    }

    lemma HeadIs()
      requires Linked()
      ensures head == null <==> View().holes == []
    {
    }

    method SmoothTime(diff: real)
      modifies this`timeMean, this`timeVar
      ensures View() == Smooth(old(View()), diff)
    {
      var timeDiff := diff;
      timeMean := if timeMean == 0.0 then timeDiff else (7.0 * timeMean + timeDiff) / 8.0;
      timeDiff := timeDiff - timeMean;
      if timeDiff < 0.0 { timeDiff := -timeDiff; }
      timeVar := (7.0 * timeVar + timeDiff) / 8.0;
    }

    /** A packet is heard; None when the program aborts. The clock has not run backwards since the holes were found. */
    method HearPacket(p: Heard) returns (load: Option<Load>)
      requires Valid() && ByTime(View().holes)
      requires forall i :: 0 <= i < |View().holes| ==> View().holes[i].time <= p.now
      modifies this, repr
      ensures Valid() && fresh(repr - old(repr))
      ensures load.None? <==> Hear(old(View()), p).None?
      ensures load.Some? ==> (View(), load.value) == Hear(old(View()), p).value
    {
      hide Keep, Lost, ByTime, Verdict, Smooth, Note, Linked, HolesOf;
      MoreByTime(View(), p);
      var ok := NoteNumber(p.number, p.now);
      if !ok { return None; }
      SmoothTime(p.diff);
      SmoothKeeps(Note(old(View()), p.number, p.now).value, p.diff);
      HeadIs();
      if head == null { return Some(Unloaded); }
      var validEnd := p.now - 2.0 * timeVar;
      var validStart := validEnd - p.maxrtt;
      ghost var all := nodes;
      var lost := Age(validStart, validEnd);
      NoneKept(HolesOf(all), validStart);
      return Some(Verdict(lost, p.maxrtt, p.ipg));
    }

    /** In a run under a clock that does not run backwards the receiver can hear one packet after the other,
        and is then the meter of the next state. */
    method HearNext(p: Heard, ghost ps: seq<Heard>) returns (load: Option<Load>)
      requires Valid() && Clocked(ps + [p]) && Run(ps).Some? && View() == Run(ps).value.m
      modifies this, repr
      ensures Valid() && fresh(repr - old(repr))
      ensures load.None? <==> Run(ps + [p]).None?
      ensures load.Some? ==> View() == Run(ps + [p]).value.m
    {
      hide Run, Hear;
      HolesInTime(ps, p);
      NextHeard(ps, p);
      load := HearPacket(p);
    }

    lemma MoreByTime(m: Meter, p: Heard)
      requires ByTime(m.holes) && forall i :: 0 <= i < |m.holes| ==> m.holes[i].time <= p.now
      ensures Note(m, p.number, p.now).Some? ==> ByTime(Note(m, p.number, p.now).value.holes)
    {
    }

    /** When the last hole of a list in order of time is thrown away, all are. */
    lemma NoneKept(all: seq<Hole>, lo: real)
      requires ByTime(all)
      ensures all != [] && all[|all| - 1].time < lo ==> Keep(all, lo) == []
    {
      var k := KeepDrops(all, lo);
    }
  }
}
