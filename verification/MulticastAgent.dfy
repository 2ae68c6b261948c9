/** The hash tables of the multicast classifier as they are built: arrays of chains, a new node in front
    of its chain, an interface overwritten in place. */
module MulticastAgent {
  import opened Common
  import opened Multicast

  class HashNode {
    const src: bv32
    const dst: bv32
    const slot: int
    const next: HashNode?
    var iif: int

    constructor (s: bv32, d: bv32, sl: int, i: int, n: HashNode?)
      ensures src == s && dst == d && slot == sl && iif == i && next == n
    {
      src, dst, slot, iif, next := s, d, sl, i, n;
    }

    function Home(): nat { Hash(src, dst) }

    function View(): Entry
      reads this
    {
      Entry(src, dst, slot, iif)
    }
  }

  /** The first place from i on whose node belongs to bucket h. */
  ghost function Place(nodes: seq<HashNode>, i: nat, h: nat): (k: nat)
    requires i <= |nodes|
    ensures i <= k <= |nodes| && (k < |nodes| ==> nodes[k].Home() == h)
    ensures forall j :: i <= j < k ==> nodes[j].Home() != h
    decreases |nodes| - i
  {
    if i == |nodes| || nodes[i].Home() == h then i else Place(nodes, i + 1, h)
  }

  ghost function NodeAt(nodes: seq<HashNode>, i: nat): HashNode? { if i < |nodes| then nodes[i] else null }

  lemma {:induction false} PlaceShifts(n: HashNode, nodes: seq<HashNode>, i: nat, h: nat)
    requires i <= |nodes|
    ensures Place([n] + nodes, i + 1, h) == Place(nodes, i, h) + 1
    decreases |nodes| - i
  {
    if i < |nodes| {
      assert ([n] + nodes)[i + 1] == nodes[i];
      PlaceShifts(n, nodes, i + 1, h);
    }
  }

  ghost function Entries(nodes: seq<HashNode>): (list: seq<Entry>)
    reads nodes
    ensures |list| == |nodes| && forall i :: 0 <= i < |nodes| ==> list[i] == nodes[i].View()
  {
    if nodes == [] then [] else Entries(nodes[..|nodes| - 1]) + [nodes[|nodes| - 1].View()]
  }

  lemma EntriesCons(n: HashNode, nodes: seq<HashNode>)
    ensures Entries([n] + nodes) == [n.View()] + Entries(nodes)
  {
    hide Entries;
  }

  lemma ScanIs(list: seq<Entry>, src: bv32, dst: bv32, iface: int, i: nat)
    requires i <= |list| && (forall j :: 0 <= j < i ==> !Matches(list[j], src, dst, iface))
    requires i < |list| ==> Matches(list[i], src, dst, iface)
    ensures i == Scan(list, src, dst, iface)
  {
    var k := Scan(list, src, dst, iface);
  }

  /** Every chain holds the nodes of its bucket, in the order of the list. */
  ghost predicate Chained(nodes: seq<HashNode>, heads: seq<HashNode?>) {
    && (forall i, j :: 0 <= i < j < |nodes| ==> nodes[i] != nodes[j])
    && (forall h {:trigger heads[h]} :: 0 <= h < |heads| ==> heads[h] == NodeAt(nodes, Place(nodes, 0, h)))
    && (forall i {:trigger nodes[i].next} :: 0 <= i < |nodes| ==>
          nodes[i].next == NodeAt(nodes, Place(nodes, i + 1, nodes[i].Home())))
  }

  /** A new node in front moves every other node one place on. */
  lemma Shifted(n: HashNode, nodes: seq<HashNode>, i: nat, h: nat)
    requires i <= |nodes|
    ensures NodeAt([n] + nodes, Place([n] + nodes, i + 1, h)) == NodeAt(nodes, Place(nodes, i, h))
    ensures var first := if n.Home() == h then n else NodeAt(nodes, Place(nodes, 0, h));
      i == 0 ==> NodeAt([n] + nodes, Place([n] + nodes, 0, h)) == first
  {
    hide Hash;
    PlaceShifts(n, nodes, i, h);
  }

  lemma ChainedCons(n: HashNode, nodes: seq<HashNode>, heads: seq<HashNode?>)
    requires Chained(nodes, heads) && n !in nodes && |heads| == HASHSIZE && n.next == heads[n.Home()]
    ensures Chained([n] + nodes, heads[n.Home() := n])
  {
    hide Hash, Place, NodeAt;
    var nodes' := [n] + nodes;
    forall i | 0 <= i < |nodes'| ensures nodes'[i].next == NodeAt(nodes', Place(nodes', i + 1, nodes'[i].Home())) {
      Shifted(n, nodes, i, nodes'[i].Home());
      if i > 0 { assert nodes'[i] == nodes[i - 1]; }
    }
    forall h | 0 <= h < HASHSIZE ensures heads[n.Home() := n][h] == NodeAt(nodes', Place(nodes', 0, h)) {
      Shifted(n, nodes, 0, h);
    }
  }

  class HashTable {
    const ht: array<HashNode?>
    ghost var nodes: seq<HashNode>  // all nodes, newest first
    ghost var repr: set<HashNode>

    ghost predicate Valid()
      reads this, ht
    {
      && ht.Length == HASHSIZE
      && (forall i :: 0 <= i < |nodes| ==> nodes[i] in repr)
      && Chained(nodes, ht[..])
    }

    ghost function View(): seq<Entry>
      reads this, nodes
    {
      Entries(nodes)
    }

    constructor ()
      ensures Valid() && View() == [] && fresh(ht) && repr == {}
    {
      ht := new HashNode?[HASHSIZE](_ => null);
      nodes, repr := [], {};
    }

    method SetHash(src: bv32, dst: bv32, slot: int, iface: int)
      requires Valid()
      modifies this, ht
      ensures Valid() && fresh(repr - old(repr))
      ensures View() == [Entry(src, dst, slot, iface)] + old(View())
    {
      hide Hash, Entries, Chained;
      var h := Hash(src, dst);
      var p := new HashNode(src, dst, slot, iface, ht[h]);
      ghost var was, heads := nodes, ht[..];
      assert forall i :: 0 <= i < |was| ==> was[i] in repr;
      ht[h] := p;
      nodes, repr := [p] + nodes, repr + {p};
      ChainedCons(p, was, heads);
      assert ht[..] == heads[h := p];
      EntriesCons(p, was);
    }

    /** The newest entry for the pair on that interface, or on any. */
    method Lookup(src: bv32, dst: bv32, iface: int) returns (p: HashNode?, ghost i: nat)
      requires Valid()
      ensures i == Scan(View(), src, dst, iface) && p == NodeAt(nodes, i)
      ensures Found(View(), src, dst, iface) == if p == null then None else Some(p.View())
    {
      hide Hash, Entries, Matches;
      var h := Hash(src, dst);
      p := ht[h];
      i := Place(nodes, 0, h);
      forall j | 0 <= j < i ensures !Matches(Entries(nodes)[j], src, dst, iface) { Meaning(j, src, dst, iface); }
      while p != null
        invariant i <= |nodes| && p == NodeAt(nodes, i) && (i < |nodes| ==> nodes[i].Home() == h)
        invariant forall j :: 0 <= j < i ==> !Matches(Entries(nodes)[j], src, dst, iface)
        decreases |nodes| - i
      {
        Meaning(i, src, dst, iface);
        if p.src == src && p.dst == dst {
          if p.iif == iface || iface == ANY_IFACE { break; }
        }
        var k := Place(nodes, i + 1, h);
        forall j | i < j < k ensures !Matches(Entries(nodes)[j], src, dst, iface) { Meaning(j, src, dst, iface); }
        p := p.next;
        i := k;
      }
      ScanIs(Entries(nodes), src, dst, iface, i);
    }

    lemma Meaning(i: nat, src: bv32, dst: bv32, iface: int)
      requires i < |nodes|
      ensures var n := nodes[i];
        Matches(Entries(nodes)[i], src, dst, iface) <==>
          n.src == src && n.dst == dst && (n.iif == iface || iface == ANY_IFACE)
    {
    }

    /** The newest entry for the group; the entries of the table have source 0. */
    method LookupStar(dst: bv32, iface: int) returns (p: HashNode?, ghost i: nat)
      requires Valid() && forall j :: 0 <= j < |nodes| ==> nodes[j].src == 0
      ensures i == Scan(View(), 0, dst, iface) && p == NodeAt(nodes, i)
      ensures Found(View(), 0, dst, iface) == if p == null then None else Some(p.View())
    {
      hide Hash, Entries, Matches;
      var h := Hash(0, dst);
      p := ht[h];
      i := Place(nodes, 0, h);
      forall j | 0 <= j < i ensures !Matches(Entries(nodes)[j], 0, dst, iface) { Meaning(j, 0, dst, iface); }
      while p != null
        invariant i <= |nodes| && p == NodeAt(nodes, i) && (i < |nodes| ==> nodes[i].Home() == h)
        invariant forall j :: 0 <= j < i ==> !Matches(Entries(nodes)[j], 0, dst, iface)
        decreases |nodes| - i
      {
        Meaning(i, 0, dst, iface);
        if p.dst == dst && (iface == ANY_IFACE || p.iif == iface) { break; }
        var k := Place(nodes, i + 1, h);
        forall j | i < j < k ensures !Matches(Entries(nodes)[j], 0, dst, iface) { Meaning(j, 0, dst, iface); }
        p := p.next;
        i := k;
      }
      ScanIs(Entries(nodes), 0, dst, iface, i);
    }

    method ChangeIface(src: bv32, dst: bv32, oldiface: int, newiface: int)
      requires Valid()
      modifies repr
      ensures Valid() && View() == Change(old(View()), src, dst, oldiface, newiface)
    {
      var p, i := Lookup(src, dst, oldiface);
      if p != null { p.iif := newiface; }
    }

    method Clear()
      requires Valid()
      modifies this, ht
      ensures Valid() && View() == [] && repr == {}
    {
      var i := 0;
      while i < ht.Length
        invariant 0 <= i <= ht.Length && forall j :: 0 <= j < i ==> ht[j] == null
      {
        ht[i] := null;
        i := i + 1;
      }
      nodes, repr := [], {};
    }
  }

  class MCastClassifier {
    const ht: HashTable
    const htStar: HashTable

    constructor ()
      ensures fresh(ht) && fresh(htStar) && ht.Valid() && htStar.Valid() && ht.View() == htStar.View() == []
    {
      ht := new HashTable();
      htStar := new HashTable();
    }

    /** The slot of a packet, by its own interface first and by any interface then. */
    method Classify(src: bv32, dst: bv32, iface: int) returns (c: Class)
      requires ht.Valid() && htStar.Valid() && forall j :: 0 <= j < |htStar.nodes| ==> htStar.nodes[j].src == 0
      ensures c == Multicast.Classify(ht.View(), htStar.View(), src, dst, iface)
    {
      hide Found, Scan, Entries, HashTable.Valid, HashTable.View, NodeAt;
      var p, i := ht.Lookup(src, dst, iface);
      if p == null { p, i := htStar.LookupStar(dst, iface); }
      if p == null {
        p, i := ht.Lookup(src, dst, ANY_IFACE);
        if p == null { p, i := htStar.LookupStar(dst, ANY_IFACE); }
        if p == null { return CacheMiss; }
        return if p.iif == ANY_IFACE then Slot(p.slot) else WrongIif;
      }
      return Slot(p.slot);
    }
  }
}
