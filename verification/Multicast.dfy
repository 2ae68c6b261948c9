/** The multicast classifier (classifier/classifier-mcast.cc): entries for (source, group) pairs and for
    groups alone, kept in hash tables that behave like one list each, newest entry first. */
module Multicast {
  import opened Common

  const HASHSIZE := 256
  const ANY_IFACE := -2

  datatype Entry = Entry(src: bv32, dst: bv32, slot: int, iif: int)

  function Hash(src: bv32, dst: bv32): (h: nat)
    ensures h < HASHSIZE
  {
    var s := src ^ dst;
    var s1 := s ^ (s >> 16);
    var s2 := s1 ^ (s1 >> 8);
    (s2 & 0xff) as int
  }

  // ---------- one list ----------

  predicate Matches(e: Entry, src: bv32, dst: bv32, iface: int) {
    e.src == src && e.dst == dst && (e.iif == iface || iface == ANY_IFACE)
  }

  /** The newest entry that matches. */
  function Scan(list: seq<Entry>, src: bv32, dst: bv32, iface: int): (i: nat)
    ensures i <= |list| && (i < |list| ==> Matches(list[i], src, dst, iface))
    ensures forall j :: 0 <= j < i ==> !Matches(list[j], src, dst, iface)
  {
    if list == [] || Matches(list[0], src, dst, iface) then 0 else 1 + Scan(list[1..], src, dst, iface)
  }

  function Found(list: seq<Entry>, src: bv32, dst: bv32, iface: int): Option<Entry> {
    var i := Scan(list, src, dst, iface); if i < |list| then Some(list[i]) else None
  }

  function Change(list: seq<Entry>, src: bv32, dst: bv32, oldiface: int, newiface: int): seq<Entry> {
    var i := Scan(list, src, dst, oldiface);
    if i < |list| then list[i := list[i].(iif := newiface)] else list
  }

  // ---------- the same entries spread over buckets ----------

  /** The entries of one bucket, newest first. */
  function Bucket(list: seq<Entry>, h: nat): seq<Entry> {
    if list == [] then []
    else (if Hash(list[0].src, list[0].dst) == h then [list[0]] else []) + Bucket(list[1..], h)
  }

  lemma FoundCons(e: Entry, rest: seq<Entry>, src: bv32, dst: bv32, iface: int)
    ensures Found([e] + rest, src, dst, iface) ==
      if Matches(e, src, dst, iface) then Some(e) else Found(rest, src, dst, iface)
  {
    hide Matches;
    assert ([e] + rest)[1..] == rest;
  }

  lemma ChangeCons(e: Entry, rest: seq<Entry>, src: bv32, dst: bv32, o: int, n: int)
    ensures Change([e] + rest, src, dst, o, n)
      == if Matches(e, src, dst, o) then [e.(iif := n)] + rest else [e] + Change(rest, src, dst, o, n)
  {
    hide Matches;
    assert ([e] + rest)[1..] == rest;
  }

  lemma BucketCons(e: Entry, rest: seq<Entry>, h: nat)
    ensures Bucket([e] + rest, h) == (if Hash(e.src, e.dst) == h then [e] else []) + Bucket(rest, h)
  {
    assert ([e] + rest)[1..] == rest;
  }

  /** Looking through the one bucket finds what looking through the whole list finds. */
  lemma {:induction false} BucketFinds(list: seq<Entry>, src: bv32, dst: bv32, iface: int)
    ensures Found(Bucket(list, Hash(src, dst)), src, dst, iface) == Found(list, src, dst, iface)
  {
    hide Hash, Found, Bucket;
    if list == [] {
      BucketNone(Hash(src, dst));
    } else {
      var e, rest, h := list[0], list[1..], Hash(src, dst);
      assert list == [e] + rest;
      BucketFinds(rest, src, dst, iface);
      BucketCons(e, rest, h);
      FoundCons(e, rest, src, dst, iface);
      if Hash(e.src, e.dst) == h {
        FoundCons(e, Bucket(rest, h), src, dst, iface);
      } else {
        assert [] + Bucket(rest, h) == Bucket(rest, h);
      }
    }
  }

  lemma BucketNone(h: nat)
    ensures Bucket([], h) == []
  {
  }

  /** Changing the interface of the first match in its bucket changes that bucket of the list and no other. */
  lemma {:induction false} BucketChanges(list: seq<Entry>, src: bv32, dst: bv32, o: int, n: int, h: nat)
    ensures Bucket(Change(list, src, dst, o, n), h)
      == if h == Hash(src, dst) then Change(Bucket(list, h), src, dst, o, n) else Bucket(list, h)
  {
    hide Hash, Change, Bucket;
    if list == [] {
      BucketNone(h);
      ChangeNone(src, dst, o, n);
    } else {
      var e, rest := list[0], list[1..];
      assert list == [e] + rest;
      ChangeCons(e, rest, src, dst, o, n);
      BucketCons(e, rest, h);
      BucketCons(e.(iif := n), rest, h);
      BucketCons(e, Change(rest, src, dst, o, n), h);
      BucketChanges(rest, src, dst, o, n, h);
      if Hash(e.src, e.dst) == h {
        ChangeCons(e, Bucket(rest, h), src, dst, o, n);
      } else {
        assert [] + Bucket(rest, h) == Bucket(rest, h);
      }
    }
  }

  lemma ChangeNone(src: bv32, dst: bv32, o: int, n: int)
    ensures Change([], src, dst, o, n) == []
  {
  }

  // ---------- whole runs ----------

  datatype Op = SetHash(e: Entry) | ChangeIface(src: bv32, dst: bv32, oldiface: int, newiface: int) | ClearAll

  function OnList(ops: seq<Op>): seq<Entry> {
    if ops == [] then []
    else
      var list := OnList(ops[..|ops| - 1]);
      match ops[|ops| - 1]
      case SetHash(e) => [e] + list
      case ChangeIface(src, dst, o, n) => Change(list, src, dst, o, n)
      case ClearAll => []
  }

  /** The same operations on a table of chains: only the chain the key hashes to is touched. */
  function OnTable(ops: seq<Op>): (t: seq<seq<Entry>>)
    ensures |t| == HASHSIZE
  {
    if ops == [] then seq(HASHSIZE, _ => [])
    else
      var t := OnTable(ops[..|ops| - 1]);
      match ops[|ops| - 1]
      case SetHash(e) => var h := Hash(e.src, e.dst); t[h := [e] + t[h]]
      case ChangeIface(src, dst, o, n) => var h := Hash(src, dst); t[h := Change(t[h], src, dst, o, n)]
      case ClearAll => seq(HASHSIZE, _ => [])
  }

  lemma {:induction false} TableIsBuckets(ops: seq<Op>, h: nat)
    requires h < HASHSIZE
    ensures OnTable(ops)[h] == Bucket(OnList(ops), h)
  {
    hide Hash, Change;
    if ops != [] {
      var before := ops[..|ops| - 1];
      TableIsBuckets(before, h);
      match ops[|ops| - 1]
      case SetHash(e) => assert ([e] + OnList(before))[1..] == OnList(before);
      case ChangeIface(src, dst, o, n) => BucketChanges(OnList(before), src, dst, o, n, h);
      case ClearAll =>
    }
  }

  /** Over any operations, a lookup in the chain the key hashes to returns what a newest-first scan of one
      unhashed list returns, with the any-interface case. */
  lemma HashAgrees(ops: seq<Op>, src: bv32, dst: bv32, iface: int)
    ensures Found(OnTable(ops)[Hash(src, dst)], src, dst, iface) == Found(OnList(ops), src, dst, iface)
  {
    TableIsBuckets(ops, Hash(src, dst));
    BucketFinds(OnList(ops), src, dst, iface);
  }

  // ---------- classification ----------

  // The slot for a packet, or the reason for which the group protocol is called.
  datatype Class = Slot(slot: int) | CacheMiss | WrongIif

  function OrElse(a: Option<Entry>, b: Option<Entry>): Option<Entry> { if a.Some? then a else b }

  function Classify(list: seq<Entry>, stars: seq<Entry>, src: bv32, dst: bv32, iface: int): Class {
    match OrElse(Found(list, src, dst, iface), Found(stars, 0, dst, iface))
    case Some(e) => Slot(e.slot)
    case None =>
      match OrElse(Found(list, src, dst, ANY_IFACE), Found(stars, 0, dst, ANY_IFACE))
      case None => CacheMiss
      case Some(e) => if e.iif == ANY_IFACE then Slot(e.slot) else WrongIif
  }

  predicate Knows(list: seq<Entry>, src: bv32, dst: bv32) {
    exists i :: 0 <= i < |list| && list[i].src == src && list[i].dst == dst
  }

  predicate Serves(list: seq<Entry>, src: bv32, dst: bv32, iface: int) {
    exists i :: 0 <= i < |list| && Matches(list[i], src, dst, iface)
  }

  /** The group protocol hears of a miss exactly when neither the pair nor the group has an entry; an entry for
      the packet's own interface always gives a slot. */
  lemma ClassifiedBy(list: seq<Entry>, stars: seq<Entry>, src: bv32, dst: bv32, iface: int)
    ensures Classify(list, stars, src, dst, iface) == CacheMiss <==> !Knows(list, src, dst) && !Knows(stars, 0, dst)
    ensures Serves(list, src, dst, iface) || Serves(stars, 0, dst, iface) ==>
      Classify(list, stars, src, dst, iface).Slot?
  {
    var i, j := Scan(list, src, dst, ANY_IFACE), Scan(stars, 0, dst, ANY_IFACE);
    if Knows(list, src, dst) { var k :| 0 <= k < |list| && list[k].src == src && list[k].dst == dst; assert !(k < i); }
    if Knows(stars, 0, dst) { var k :| 0 <= k < |stars| && stars[k].src == 0 && stars[k].dst == dst; assert !(k < j); }
  }

  /** Entry i is the newest for this pair and interface. */
  predicate Newest(list: seq<Entry>, i: int, src: bv32, dst: bv32, iface: int) {
    && 0 <= i < |list| && Matches(list[i], src, dst, iface)
    && forall j :: 0 <= j < i ==> !Matches(list[j], src, dst, iface)
  }

  /** What an entry found for another interface than the packet's means. */
  function Elsewhere(e: Entry): Class { if e.iif == ANY_IFACE then Slot(e.slot) else WrongIif }

  lemma NewestIs(list: seq<Entry>, src: bv32, dst: bv32, iface: int)
    ensures forall i :: Newest(list, i, src, dst, iface) ==> Found(list, src, dst, iface) == Some(list[i])
  {
    hide Matches;
  }

  lemma NotServed(list: seq<Entry>, src: bv32, dst: bv32, iface: int)
    ensures Found(list, src, dst, iface).None? <==> !Serves(list, src, dst, iface)
    ensures Knows(list, src, dst) <==> Serves(list, src, dst, ANY_IFACE)
  {
    var i := Scan(list, src, dst, iface);
    if Serves(list, src, dst, iface) {
      var k :| 0 <= k < |list| && Matches(list[k], src, dst, iface);
      assert !(k < i);
    }
    if Knows(list, src, dst) {
      var k :| 0 <= k < |list| && list[k].src == src && list[k].dst == dst;
      assert Matches(list[k], src, dst, ANY_IFACE);
    }
  }

  /** Which entry decides: for the packet's own interface the newest of the pair, else the newest of the group; if
      neither is there, the newest of the pair for any interface, else the newest of the group. */
  lemma SlotGiven(list: seq<Entry>, stars: seq<Entry>, src: bv32, dst: bv32, iface: int)
    ensures var c := Classify(list, stars, src, dst, iface);
      && (forall i :: Newest(list, i, src, dst, iface) ==> c == Slot(list[i].slot))
      && (!Serves(list, src, dst, iface) ==>
            forall i :: Newest(stars, i, 0, dst, iface) ==> c == Slot(stars[i].slot))
      && (!Serves(list, src, dst, iface) && !Serves(stars, 0, dst, iface) ==>
            && (forall i :: Newest(list, i, src, dst, ANY_IFACE) ==> c == Elsewhere(list[i]))
            && (!Knows(list, src, dst) ==>
                  forall i :: Newest(stars, i, 0, dst, ANY_IFACE) ==> c == Elsewhere(stars[i])))
  {
    hide Matches, Newest, Serves, Knows, Found;
    NotServed(list, src, dst, iface);
    NotServed(stars, 0, dst, iface);
    NotServed(list, src, dst, ANY_IFACE);
    NewestIs(list, src, dst, iface);
    NewestIs(stars, 0, dst, iface);
    NewestIs(list, src, dst, ANY_IFACE);
    NewestIs(stars, 0, dst, ANY_IFACE);
  }

  /** The group protocol is told of a wrong interface exactly when nothing is there for the packet's own interface, and
      the newest entry of the pair, or if there is none of the group, is for another one. */
  lemma WrongIifIff(list: seq<Entry>, stars: seq<Entry>, src: bv32, dst: bv32, iface: int)
    ensures Classify(list, stars, src, dst, iface) == WrongIif <==>
      && !Serves(list, src, dst, iface) && !Serves(stars, 0, dst, iface)
      && (|| (exists i :: Newest(list, i, src, dst, ANY_IFACE) && list[i].iif != ANY_IFACE)
          || (!Knows(list, src, dst)
              && exists i :: Newest(stars, i, 0, dst, ANY_IFACE) && stars[i].iif != ANY_IFACE))
  {
    hide Matches, Serves, Knows, Found, Newest;
    SlotGiven(list, stars, src, dst, iface);
    NotServed(list, src, dst, iface);
    NotServed(stars, 0, dst, iface);
    NotServed(list, src, dst, ANY_IFACE);
    FoundNewest(list, src, dst, ANY_IFACE);
    FoundNewest(stars, 0, dst, ANY_IFACE);
  }

  lemma FoundNewest(list: seq<Entry>, src: bv32, dst: bv32, iface: int)
    ensures var f := Found(list, src, dst, iface);
      f.Some? ==> exists i :: 0 <= i < |list| && Newest(list, i, src, dst, iface) && f.value == list[i]
  {
    hide Matches;
    var i := Scan(list, src, dst, iface);
    assert i < |list| ==> Newest(list, i, src, dst, iface);
  }
}
