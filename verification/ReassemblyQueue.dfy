/** BayReassemblyQueue (tcp-full-bay.cc) as it is built: a doubly linked list of segments that
    is relinked in place. The counter rcv_nxt_, which the queue shares with its agent, lives here. */
module ReassemblyQueue {
  import opened Reassembly

  function WithoutFin(flags: bv8): (r: bv8)
    ensures r & TH_FIN == 0 && r | TH_FIN == flags | TH_FIN
  {
    flags & !TH_FIN
  }

  lemma FlagsSnoc(c: seq<Seg>, k: nat)
    requires k < |c|
    ensures AllFlags(c[..k + 1]) == AllFlags(c[..k]) | c[k].flags
  {
    assert c[..k + 1][..k] == c[..k];
  }

  lemma NoFlags(c: seq<Seg>)
    ensures AllFlags(c[..0]) == 0
  {
  }

  lemma Delivered(rcvNxt: int, c: seq<Seg>)
    requires c != [] && c[0].start <= rcvNxt
    ensures var n := RunLength(c);
      n > 0 && Deliver(State(rcvNxt, c)) == (State(c[n - 1].end, c[n..]), AllFlags(c[..n]))
  {
  }

  class SegInfo {
    var next: SegInfo?
    var prev: SegInfo?
    const seg: Seg

    constructor (s: Seg)
      ensures seg == s && next == null && prev == null
    {
      seg, next, prev := s, null, null;
    }
  }

  lemma {:induction false} FirstAfterIs(q: seq<Seg>, end: int, i: nat)
    requires i <= |q|
    requires forall j :: 0 <= j < i ==> q[j].start < end
    requires i < |q| ==> end <= q[i].start
    ensures i == FirstAfter(q, end)
  {
    var k := FirstAfter(q, end);
  }

  lemma RunLengthIs(q: seq<Seg>, n: nat)
    requires 0 < n <= |q|
    requires forall j :: 0 < j < n ==> q[j - 1].end >= q[j].start
    requires n < |q| ==> q[n - 1].end < q[n].start
    ensures n == RunLength(q)
  {
    var k := RunLength(q);
  }

  ghost function SegsOf(nodes: seq<SegInfo>): (c: seq<Seg>)
    ensures |c| == |nodes|
    ensures forall i :: 0 <= i < |nodes| ==> c[i] == nodes[i].seg
  {
    seq(|nodes|, i requires 0 <= i < |nodes| => nodes[i].seg)
  }

  class Queue {
    var head: SegInfo?
    var tail: SegInfo?
    var rcvNxt: int
    ghost var nodes: seq<SegInfo>
    ghost var repr: set<SegInfo>  // the nodes linked in so far

    ghost predicate Valid()
      reads this`head, this`tail, this`nodes, this`repr, repr
    {
      && (forall i :: 0 <= i < |nodes| ==> nodes[i] in repr)
      && (forall i, j :: 0 <= i < j < |nodes| ==> nodes[i] != nodes[j])
      && head == (if nodes == [] then null else nodes[0])
      && tail == (if nodes == [] then null else nodes[|nodes| - 1])
      && (forall i {:trigger nodes[i].prev} :: 0 <= i < |nodes| ==>
            nodes[i].prev == if i == 0 then null else nodes[i - 1])
      && (forall i {:trigger nodes[i].next} :: 0 <= i < |nodes| ==>
            nodes[i].next == if i == |nodes| - 1 then null else nodes[i + 1])
    }

    ghost function Contents(): seq<Seg>
      reads this`nodes
    {
      SegsOf(nodes)
    }

    ghost function View(): State
      reads this
    {
      State(rcvNxt, Contents())
    }

    constructor (isn: int)
      ensures Valid() && View() == State(isn, []) && repr == {}
    {
      head, tail, rcvNxt, nodes, repr := null, null, isn, [], {};
    }

    method Empty() returns (empty: bool)
      requires Valid()
      ensures empty <==> View().queue == []
    {
      empty := head == null;
    }

    method Clear()
      requires Valid()
      modifies this
      ensures Valid() && View() == old(View()).(queue := []) && repr == old(repr)
    {
      var p := head;
      ghost var k := 0;
      while p != null
        invariant k <= |nodes| && p == (if k == |nodes| then null else nodes[k])
        decreases |nodes| - k
      {
        p := p.next;
        k := k + 1;
      }
      head, tail, nodes := null, null, [];
    }

    /** The node after which a new segment belongs, null for the head. */
    method Place(s: Seg) returns (p: SegInfo?, ghost i: nat)
      requires Valid()
      ensures i == InsertPos(Contents(), s) && i <= |nodes|
      ensures p == if i == 0 then null else nodes[i - 1]
    {
      if head == null { return null, 0; }
      if tail.seg.end <= s.start { return tail, |nodes|; }
      var q := head;
      i := 0;
      while q != null && s.end > q.seg.start
        invariant i <= |nodes| && q == (if i == |nodes| then null else nodes[i])
        invariant forall j :: 0 <= j < i ==> Contents()[j].start < s.end
        decreases |nodes| - i
      {
        q := q.next;
        i := i + 1;
      }
      FirstAfterIs(Contents(), s.end, i);
      if q == null { p := tail; } else { p := q.prev; }
    }

    /** Link node n in behind p, which stands just before place i. */
    method LinkAfter(n: SegInfo, p: SegInfo, ghost i: nat)
      requires Valid() && n !in repr && n.next == null && n.prev == null
      requires 0 < i <= |nodes| && p == nodes[i - 1]
      modifies this, repr, n
      ensures Valid() && nodes == old(nodes[..i] + [n] + nodes[i..]) && rcvNxt == old(rcvNxt)
      ensures repr == old(repr) + {n}
    {
      n.next := p.next;
      if p.next != null { p.next.prev := n; }
      p.next := n;
      n.prev := p;
      if p == tail { tail := n; }
      nodes, repr := nodes[..i] + [n] + nodes[i..], repr + {n};
    }

    /** Link node n in at the head. */
    method LinkFirst(n: SegInfo)
      requires Valid() && n !in repr && n.next == null && n.prev == null
      modifies this, repr, n
      ensures Valid() && nodes == [n] + old(nodes) && rcvNxt == old(rcvNxt) && repr == old(repr) + {n}
    {
      if head == null {
        head, tail := n, n;
      } else {
        n.next := head;
        n.prev := null;
        head.prev := n;
        head := n;
      }
      nodes, repr := [n] + nodes, repr + {n};
    }

    /** Link node n in behind p, or at the head when p is null. */
    method Link(n: SegInfo, p: SegInfo?, ghost i: nat)
      requires Valid() && n !in repr && n.next == null && n.prev == null
      requires i <= |nodes| && p == if i == 0 then null else nodes[i - 1]
      modifies this, repr, n
      ensures Valid() && nodes == old(nodes[..i] + [n] + nodes[i..]) && rcvNxt == old(rcvNxt)
      ensures repr == old(repr) + {n}
    {
      hide Valid;
      if p == null { LinkFirst(n); } else { LinkAfter(n, p, i); }
    }

    lemma HeadIs()
      requires Valid()
      ensures head == null <==> Contents() == []
      ensures head != null ==> head in nodes && head.seg == Contents()[0]
    {
    }

    lemma Holds()
      requires Contents() == [] || Contents()[0].start > rcvNxt
      ensures Deliver(View()) == (View(), 0)
    {
    }

    lemma HeadFirst()
      requires Valid() && head != null
      ensures Contents() == SegsOf(nodes) && nodes != [] && head == nodes[0]
      ensures head.next == if |nodes| == 1 then null else nodes[1]
    {
    }

    /** What is left when the head is gone. */
    lemma Rest(was: seq<SegInfo>)
      requires Valid() && was != [] && nodes == was[..0] + was[1..]
      ensures Contents() == SegsOf(was)[1..] && head == if |was| == 1 then null else was[1]
    {
    }

    /** Take node q, which stands at i, out of the list; its own links stay as they are. */
    method Unlink(q: SegInfo, ghost i: nat)
      requires Valid() && i < |nodes| && q == nodes[i]
      modifies this, repr
      ensures Valid() && nodes == old(nodes[..i] + nodes[i + 1..]) && q.next == old(q.next)
      ensures rcvNxt == old(rcvNxt) && repr == old(repr)
    {
      if q.prev != null {
        q.prev.next := q.next;
      } else {
        head := q.next;
      }
      if q.next != null { q.next.prev := q.prev; } else { tail := q.prev; }
      nodes := nodes[..i] + nodes[i + 1..];
    }

    method TakeHead(q: SegInfo)
      requires Valid() && q == head
      modifies this, repr
      ensures Valid() && Contents() == old(Contents())[1..] && q.next == head && rcvNxt == old(rcvNxt)
        && repr == old(repr)
    {
      hide Valid, SegsOf, Contents;
      HeadFirst();
      ghost var was := nodes;
      Unlink(q, 0);
      Rest(was);
    }

    /** Unlink nodes from the head while they are in sequence. */
    method DeliverRun() returns (flags: bv8)
      requires Valid()
      modifies this, repr
      ensures Valid() && (View(), flags) == Deliver(old(View())) && repr == old(repr)
    {
      hide RunLength, Valid, SegsOf, Contents, Deliver, AllFlags;
      HeadIs();
      if head == null || head.seg.start > rcvNxt {
        Holds();
        return 0;
      }
      ghost var c, k := Contents(), 0;
      NoFlags(c);
      flags := 0;
      var p := head;
      while p != null
        invariant k <= |c| && Contents() == c[k..] && Valid() && p == head
        invariant repr == old(repr)
        invariant flags == AllFlags(c[..k]) && (k > 0 ==> rcvNxt == c[k - 1].end)
        invariant forall j :: 0 < j < k ==> c[j - 1].end >= c[j].start
        invariant 0 < k < |c| ==> c[k - 1].end >= c[k].start
        invariant k == 0 ==> p != null
        decreases |c| - k
      {
        HeadIs();
        assert p.seg == c[k];
        rcvNxt := p.seg.end;
        flags := flags | p.seg.flags;
        FlagsSnoc(c, k);
        var q := p;
        TakeHead(q);
        assert Contents() == c[k + 1..];
        k := k + 1;
        HeadIs();
        if q.next != null && q.seg.end < q.next.seg.start { break; }
        p := q.next;
      }
      HeadIs();
      RunLengthIs(c, k);
      Delivered(old(rcvNxt), c);
    }

    /** add: insert a segment, then deliver what is in sequence. */
    method Add(s: Seg) returns (flags: bv8)
      requires Valid()
      modifies this, repr
      ensures Valid() && fresh(repr - old(repr))
      ensures (View(), flags) == Reassembly.Add(old(View()), s)
    {
      hide Deliver, InsertPos;
      var n := new SegInfo(s);
      var p, i := Place(s);
      Link(n, p, i);
      assert Contents() == Insert(old(Contents()), s);
      flags := DeliverRun();
    }

    /** The data part of the agent's recv: trim what was seen, then the fast path or the queue. */
    method Receive(seqno: int, len: nat, flags: bv8)
      requires Valid()
      modifies this, repr
      ensures Valid() && fresh(repr - old(repr))
      ensures View() == Reassembly.Receive(old(View()), seqno, len, flags)
    {
      hide Valid, Contents, Reassembly.Add;
      var start, datalen, tiflags := seqno, len, flags;
      var todrop := rcvNxt - seqno;
      if todrop > 0 {
        if todrop > len || (todrop == len && tiflags & TH_FIN == 0) {
          tiflags := WithoutFin(tiflags);
          todrop := len;
        }
        start := start + todrop;
        datalen := datalen - todrop;
      }
      if datalen > 0 || tiflags & TH_FIN != 0 {
        var empty := Empty();
        if start == rcvNxt && empty {
          tiflags := tiflags & TH_FIN;
          if tiflags != 0 { rcvNxt := rcvNxt + 1; }
          rcvNxt := rcvNxt + datalen;
        } else {
          tiflags := Add(Seg(start, start + len, flags));
        }
      }
      if tiflags & TH_FIN != 0 { Clear(); }
    }
  }
}
