/** The send buffer as it is built: a singly linked list with head, tail and length, changed in place. */
module SendBufferQueue {
  import opened Common
  import opened SendBuffer

  class Packet {
    const id: nat
    const dst: Addr
    var ts: real
    var next: Packet?

    constructor (i: nat, d: Addr)
      ensures id == i && dst == d && next == null
    {
      id, dst, next := i, d, null;
    }
  }

  ghost function ItemsOf(nodes: seq<Packet>): (q: seq<Item>)
    reads nodes`ts
    ensures |q| == |nodes|
    ensures forall i :: 0 <= i < |nodes| ==> q[i] == Item(nodes[i].id, nodes[i].dst, nodes[i].ts)
  {
    if nodes == [] then []
    else var n := nodes[|nodes| - 1]; ItemsOf(nodes[..|nodes| - 1]) + [Item(n.id, n.dst, n.ts)]
  }

  lemma ItemsWithout(nodes: seq<Packet>, i: nat)
    requires i < |nodes|
    ensures ItemsOf(nodes[..i] + nodes[i + 1..]) == Without(ItemsOf(nodes), i)
  {
    hide ItemsOf;
    var rest := nodes[..i] + nodes[i + 1..];
    assert forall k :: 0 <= k < i ==> rest[k] == nodes[k];
    assert forall k :: i <= k < |rest| ==> rest[k] == nodes[k + 1];
  }

  lemma FirstAgedIs(q: seq<Item>, now: real, i: nat)
    requires i <= |q| && (forall j :: 0 <= j < i ==> q[j].expires >= now) && (i < |q| ==> q[i].expires < now)
    ensures i == FirstAged(q, now)
  {
    var k := FirstAged(q, now);
  }

  lemma FirstForIs(q: seq<Item>, dst: Addr, i: nat)
    requires i <= |q| && (forall j :: 0 <= j < i ==> q[j].dst != dst) && (i < |q| ==> q[i].dst == dst)
    ensures i == FirstFor(q, dst)
  {
    var k := FirstFor(q, dst);
  }

  class RQueue {
    var head: Packet?
    var tail: Packet?
    var len: int
    ghost var nodes: seq<Packet>
    ghost var repr: set<Packet>  // the packets that wait, and perhaps some that have left

    ghost predicate Valid()
      reads this, repr
    {
      && Linked()
      && len == |nodes|
      && head == (if nodes == [] then null else nodes[0])
      && tail == (if nodes == [] then null else nodes[|nodes| - 1])
    }

    /** Each packet points to the one behind it. */
    ghost predicate Linked()
      reads this`nodes, this`repr, repr
    {
      && (forall i :: 0 <= i < |nodes| ==> nodes[i] in repr)
      && (forall i, j :: 0 <= i < j < |nodes| ==> nodes[i] != nodes[j])
      && (forall i {:trigger nodes[i].next} :: 0 <= i < |nodes| ==>
            nodes[i].next == if i == |nodes| - 1 then null else nodes[i + 1])
    }

    ghost function View(): seq<Item>
      reads this`nodes, nodes`ts
    {
      ItemsOf(nodes)
    }

    constructor ()
      ensures Valid() && View() == [] && repr == {}
    {
      head, tail, len, nodes, repr := null, null, 0, [], {};
    }

    /** The first packet that has expired and the one before it. */
    method FindAgedPacket(now: real) returns (p: Packet?, prev: Packet?, ghost i: nat)
      requires Valid()
      ensures i == FirstAged(View(), now)
      ensures p == (if i == |nodes| then null else nodes[i]) && prev == if i == 0 then null else nodes[i - 1]
    {
      prev, i := null, 0;
      p := head;
      while p != null
        invariant i <= |nodes| && p == (if i == |nodes| then null else nodes[i])
        invariant prev == if i == 0 then null else nodes[i - 1]
        invariant forall j :: 0 <= j < i ==> View()[j].expires >= now
        decreases |nodes| - i
      {
        if p.ts < now { break; }
        prev := p;
        p := p.next;
        i := i + 1;
      }
      FirstAgedIs(View(), now, i);
    }

    /** The first packet for dst and the one before it. */
    method FindPacketWithDst(dst: Addr) returns (p: Packet?, prev: Packet?, ghost i: nat)
      requires Valid()
      ensures i == FirstFor(View(), dst)
      ensures p == (if i == |nodes| then null else nodes[i]) && prev == if i == 0 then null else nodes[i - 1]
    {
      prev, i := null, 0;
      p := head;
      while p != null
        invariant i <= |nodes| && p == (if i == |nodes| then null else nodes[i])
        invariant prev == if i == 0 then null else nodes[i - 1]
        invariant forall j :: 0 <= j < i ==> View()[j].dst != dst
        decreases |nodes| - i
      {
        if p.dst == dst { break; }
        prev := p;
        p := p.next;
        i := i + 1;
      }
      FirstForIs(View(), dst, i);
    }

    method RemoveHead() returns (p: Packet?)
      requires Valid()
      modifies this
      ensures Valid() && repr == old(repr) && p == old(head)
      ensures View() == if p == null then [] else old(View())[1..]
      ensures nodes == if p == null then [] else old(nodes)[1..]
      ensures p != null ==> p !in nodes
    {
      p := head;
      if head == tail {
        head, tail := null, null;
      } else {
        head := head.next;
      }
      if p != null {
        len := len - 1;
        nodes := nodes[1..];
      }
    }

    lemma At(i: nat)
      requires Linked() && i < |nodes|
      ensures nodes[i].next == if i == |nodes| - 1 then null else nodes[i + 1]
      ensures forall j :: 0 <= j < |nodes| && j != i ==> nodes[j] != nodes[i]
    {
    }

    /** Point from prev past the packet at i. */
    method Bypass(prev: Packet, to: Packet?, ghost i: nat)
      requires Linked() && 0 < i < |nodes| && prev == nodes[i - 1] && to == nodes[i].next
      modifies this`nodes, repr`next
      ensures Linked() && nodes == old(nodes[..i] + nodes[i + 1..])
    {
      prev.next := to;
      nodes := nodes[..i] + nodes[i + 1..];
    }

    /** Take out packet p, which stands at i behind prev. */
    method Unlink(p: Packet, prev: Packet?, ghost i: nat)
      requires Valid() && i < |nodes| && p == nodes[i] && prev == if i == 0 then null else nodes[i - 1]
      modifies this, repr`next
      ensures Valid() && repr == old(repr) && View() == Without(old(View()), i)
      ensures len == old(len) - 1 && p !in nodes
    {
      hide ItemsOf, Without, Linked;
      ghost var was := nodes;
      ItemsWithout(nodes, i);
      At(i);
      if p == head {
        var _ := RemoveHead();
        assert nodes == was[..i] + was[i + 1..];
      } else if p == tail {
        Bypass(prev, null, i);
        tail := prev;
        len := len - 1;
      } else {
        Bypass(prev, p.next, i);
        len := len - 1;
      }
    }

    method Purge(now: real)
      requires Valid()
      modifies this, repr`next
      ensures Valid() && repr == old(repr) && View() == SendBuffer.Purge(old(View()), now)
    {
      hide Valid, ItemsOf, View;
      LenIs();
      var p, prev, i := FindAgedPacket(now);
      while p != null
        invariant Valid() && repr == old(repr) && i == FirstAged(View(), now) && len == |View()|
        invariant p == null <==> i == len
        invariant p != null ==> i < |nodes| && p == nodes[i] && prev == if i == 0 then null else nodes[i - 1]
        invariant SendBuffer.Purge(View(), now) == SendBuffer.Purge(old(View()), now)
        decreases len
      {
        Unlink(p, prev, i);
        LenIs();
        p, prev, i := FindAgedPacket(now);
      }
    }

    lemma LenIs()
      requires Valid()
      ensures len == |View()| == |nodes|
    {
    }

    method Append(p: Packet)
      requires Valid() && p !in repr && p.next == null
      modifies this, repr`next
      ensures Valid() && repr == old(repr) + {p}
      ensures View() == old(View()) + [Item(p.id, p.dst, p.ts)]
    {
      if head == null {
        head, tail := p, p;
      } else {
        tail.next := p;
        tail := p;
      }
      len := len + 1;
      nodes, repr := nodes + [p], repr + {p};
    }

    /** The packets that have left belong to others. */
    ghost method Forget()
      requires Valid()
      modifies this`repr
      ensures Valid() && repr == (set n | n in nodes) && repr <= old(repr) && View() == old(View())
    {
      repr := set n | n in nodes;
    }

    /** A packet that does not wait already enters, stamped with the time at which it expires. */
    method Enque(p: Packet, now: real)
      requires Valid() && p !in nodes
      modifies this, repr`next, p
      ensures Valid() && repr == old(set n | n in nodes) + {p}
      ensures View() == SendBuffer.Enque(old(View()), p.id, p.dst, now)
    {
      hide SendBuffer.Purge, Valid, ItemsOf, View;
      Forget();
      Purge(now);
      Stamp(p, now);
      LenIs();
      if len == LIMIT {
        var _ := RemoveHead();
      }
      Append(p);
    }

    method Stamp(p: Packet, now: real)
      requires Valid() && p !in repr
      modifies p
      ensures Valid() && View() == old(View()) && p.next == null && p.ts == now + TIMEOUT
    {
      p.next := null;
      p.ts := now + TIMEOUT;
    }

    method Deque(now: real) returns (p: Packet?)
      requires Valid()
      modifies this, repr`next
      ensures Valid() && repr == old(repr) && (p != null ==> p !in nodes)
      ensures var (q, out) := SendBuffer.Deque(old(View()), now);
        View() == q && (p == null <==> out.None?) && (p != null ==> out == Some(Item(p.id, p.dst, p.ts)))
    {
      hide SendBuffer.Purge;
      Purge(now);
      p := RemoveHead();
    }

    method DequeDst(dst: Addr, now: real) returns (p: Packet?)
      requires Valid()
      modifies this, repr`next
      ensures Valid() && repr == old(repr) && (p != null ==> p !in nodes)
      ensures var (q, out) := SendBuffer.DequeFor(old(View()), dst, now);
        View() == q && (p == null <==> out.None?) && (p != null ==> out == Some(Item(p.id, p.dst, p.ts)))
    {
      hide SendBuffer.Purge;
      Purge(now);
      var prev;
      ghost var i;
      p, prev, i := FindPacketWithDst(dst);
      if p == null { return; }
      Unlink(p, prev, i);
    }

    method Find(dst: Addr) returns (found: bool)
      requires Valid()
      ensures found <==> exists i :: 0 <= i < |View()| && View()[i].dst == dst
    {
      var p, _, i := FindPacketWithDst(dst);
      found := p != null;
      if found { assert View()[i].dst == dst; }
    }

    /** The asserts of verifyQueue: a walk along the list counts len packets and ends at the tail. */
    method VerifyQueue() returns (cnt: int, prev: Packet?)
      requires Valid()
      ensures cnt == len == |View()| && prev == tail
    {
      var p := head;
      prev, cnt := null, 0;
      while p != null
        invariant 0 <= cnt <= |nodes| && p == (if cnt == |nodes| then null else nodes[cnt])
        invariant prev == if cnt == 0 then null else nodes[cnt - 1]
        decreases |nodes| - cnt
      {
        cnt := cnt + 1;
        prev := p;
        p := p.next;
      }
    }
  }
}
