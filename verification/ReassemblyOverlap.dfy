/** Segments that overlap in part: when the reassembly path handles them, for one packet and for whole streams. */
module ReassemblyOverlap {
  import opened Reassembly

  // ---------- one packet ----------

  /** Nonempty segments beyond rcvNxt, in order, disjoint or repeated. */
  predicate Tidy(st: State) {
    && Sorted(st.queue)
    && (forall i :: 0 <= i < |st.queue| ==> st.rcvNxt < st.queue[i].start < st.queue[i].end)
    && (forall i, j :: 0 <= i < |st.queue| && 0 <= j < |st.queue| ==> Clean(st.queue[i], st.queue[j]))
  }

  /** Byte b is there once the packet has come: in the packet or in the queue. */
  predicate There(st: State, seqno: int, len: nat, b: int) {
    seqno <= b < seqno + len || Covered(st.queue, b)
  }

  /** n is the first byte from rcvNxt on that is not there. */
  predicate FirstMissing(st: State, seqno: int, len: nat, n: int) {
    st.rcvNxt <= n && !There(st, seqno, len, n) && forall b :: st.rcvNxt <= b < n ==> There(st, seqno, len, b)
  }

  /** The packet brings the next byte while others wait, and repeats bytes before it or reaches into what waits. */
  predicate Mishandled(st: State, seqno: int, len: nat) {
    && st.queue != [] && seqno <= st.rcvNxt < seqno + len
    && (seqno < st.rcvNxt || st.queue[0].start < seqno + len)
  }

  lemma {:induction false} RunHeld(q: seq<Seg>, n: nat, b: int)
    requires 0 < n <= RunLength(q) && q[0].start <= b < q[n - 1].end
    ensures Covered(q, b)
  {
    if q[n - 1].start <= b {
      assert Covers(q[n - 1], b);
    } else {
      RunHeld(q, n - 1, b);
    }
  }

  /** Before rcvNxt nothing waits, and the ends of the segments are in order too. */
  lemma TidyEnds(st: State, i: nat, j: nat)
    requires Tidy(st) && i <= j < |st.queue|
    ensures st.queue[i].end <= st.queue[j].end
  {
    assert Clean(st.queue[i], st.queue[j]);
  }

  lemma NotYet(st: State, b: int)
    requires Tidy(st) && (st.queue != [] ==> b < st.queue[0].start)
    ensures !Covered(st.queue, b)
  {
    if Covered(st.queue, b) {
      var i :| 0 <= i < |st.queue| && Covers(st.queue[i], b);
      SortedFrom(st.queue, i);
    }
  }

  /** The next segment in order, which does not reach into the queue: what is delivered ends at the first gap. */
  lemma InOrder(st: State, s: Seg)
    requires Tidy(st) && s.start == st.rcvNxt < s.end && (st.queue != [] ==> s.end <= st.queue[0].start)
    ensures var st' := Deliver(State(st.rcvNxt, [s] + st.queue)).0;
      && s.end <= st'.rcvNxt && FirstMissing(st, s.start, s.end - s.start, st'.rcvNxt) && Tidy(st')
      && forall b :: st'.rcvNxt <= b ==> (Covered(st'.queue, b) <==> Covers(s, b) || Covered(st.queue, b))
  {
    hide Tidy, Covered, Sorted, RunLength, AllFlags;
    var q := [s] + st.queue;
    var n := RunLength(q);
    var whole := State(st.rcvNxt - 1, q);
    Longer(st, s);
    forall j | 0 <= j < n ensures q[j].end <= q[n - 1].end { TidyEnds(whole, j, n - 1); }
    TidySorted(whole);
    RestWaits(q, n);
    var len, end := s.end - s.start, q[n - 1].end;
    forall b | st.rcvNxt <= b < end ensures There(st, s.start, len, b) {
      RunHeld(q, n, b);
      CoveredCons(s, st.queue, b);
    }
    if Covered(st.queue, end) { BeyondRun(q, n, s, st.queue); }
    TidyRest(whole, n, end);
    forall b | end <= b ensures Covered(q[n..], b) <==> Covers(s, b) || Covered(st.queue, b) {
      RestCovered(q, n, b);
      CoveredCons(s, st.queue, b);
    }
  }

  lemma RestCovered(q: seq<Seg>, n: nat, b: int)
    requires n <= |q| && forall j :: 0 <= j < n ==> q[j].end <= b
    ensures Covered(q[n..], b) <==> Covered(q, b)
  {
    if Covered(q, b) {
      var i :| 0 <= i < |q| && Covers(q[i], b);
      assert Covers(q[n..][i - n], b);
    }
    if Covered(q[n..], b) {
      var i :| 0 <= i < |q[n..]| && Covers(q[n..][i], b);
      assert Covers(q[n + i], b);
    }
  }

  lemma Longer(st: State, s: Seg)
    requires Tidy(st) && s.start == st.rcvNxt < s.end && (st.queue != [] ==> s.end <= st.queue[0].start)
    ensures Tidy(State(st.rcvNxt - 1, [s] + st.queue))
  {
    var q := [s] + st.queue;
    assert forall i :: 0 < i < |q| ==> q[i] == st.queue[i - 1];
    forall i | 0 < i < |q| ensures s.end <= q[i].start { SortedFrom(st.queue, i - 1); }
    forall i, j | 0 <= i < j < |q| ensures q[i].start <= q[j].start {
      if i > 0 { assert st.queue[i - 1].start <= st.queue[j - 1].start; }
    }
    forall i, j | 0 <= i < |q| && 0 <= j < |q| ensures Clean(q[i], q[j]) {
      if i > 0 && j > 0 { assert Clean(st.queue[i - 1], st.queue[j - 1]); }
    }
  }

  lemma TidySorted(st: State)
    requires Tidy(st)
    ensures Sorted(st.queue)
  {
  }

  lemma CoveredCons(s: Seg, q: seq<Seg>, b: int)
    ensures Covered([s] + q, b) <==> Covers(s, b) || Covered(q, b)
  {
    var all := [s] + q;
    if Covers(s, b) { assert Covers(all[0], b); }
    if Covered(q, b) {
      var i :| 0 <= i < |q| && Covers(q[i], b);
      assert Covers(all[i + 1], b);
    }
    if Covered(all, b) {
      var i :| 0 <= i < |all| && Covers(all[i], b);
      if i > 0 { assert Covers(q[i - 1], b); }
    }
  }

  /** The byte at the end of the run is in no segment. */
  lemma BeyondRun(q: seq<Seg>, n: nat, s: Seg, rest: seq<Seg>)
    requires q == [s] + rest && 0 < n <= |q| && (forall j :: 0 <= j < n ==> q[j].end <= q[n - 1].end)
    requires forall i :: 0 <= i < |q[n..]| ==> q[n - 1].end < q[n..][i].start
    ensures !Covered(rest, q[n - 1].end)
  {
    var end := q[n - 1].end;
    forall i | 0 <= i < |rest| ensures !Covers(rest[i], end) {
      assert q[i + 1] == rest[i];
      if i + 1 >= n { assert q[n..][i + 1 - n] == rest[i]; }
    }
  }

  lemma TidyRest(st: State, n: nat, rcvNxt: int)
    requires Tidy(st) && n <= |st.queue| && forall i :: 0 <= i < |st.queue[n..]| ==> rcvNxt < st.queue[n..][i].start
    ensures Tidy(State(rcvNxt, st.queue[n..]))
  {
    var q := st.queue[n..];
    assert forall i :: 0 <= i < |q| ==> q[i] == st.queue[n + i];
    forall i, j | 0 <= i < |q| && 0 <= j < |q|
      ensures Clean(q[i], q[j])
    {
      assert Clean(st.queue[n + i], st.queue[n + j]);
    }
    forall i, j | 0 <= i < j < |q|
      ensures q[i].start <= q[j].start
    {
      assert st.queue[n + i].start <= st.queue[n + j].start;
    }
  }

  /** Where the segment that starts at rcvNxt goes: in front, or behind the head if it reaches into the queue. */
  lemma NextInserted(st: State, s: Seg)
    requires Tidy(st) && st.queue != [] && s.start == st.rcvNxt < s.end
    ensures s.end <= st.queue[0].start ==> Insert(st.queue, s) == [s] + st.queue
    ensures st.queue[0].start < s.end ==> Insert(st.queue, s)[0] == st.queue[0] && s in Insert(st.queue, s)[1..]
  {
    var q := st.queue;
    SortedFrom(q, |q| - 1);
    var i := InsertPos(q, s);
    assert i == FirstAfter(q, s.end);
    if q[0].start < s.end {
      assert i > 0;
      var all := Insert(q, s);
      assert all[i] == s && all[1..][i - 1] == s;
    }
  }

  /** A segment beyond rcvNxt only waits. */
  lemma Waits(st: State, s: Seg)
    requires Tidy(st) && st.rcvNxt < s.start
    ensures Add(st, s) == (State(st.rcvNxt, Insert(st.queue, s)), 0)
  {
    hide Sorted;
    var q := Insert(st.queue, s);
    assert q[0] == s || (st.queue != [] && q[0] == st.queue[0]);
  }

  /** What recv does with a packet that is not a FIN. */
  lemma ReceiveIs(st: State, seqno: int, len: nat, flags: bv8)
    requires flags & TH_FIN == 0
    ensures var st' := Receive(st, seqno, len, flags);
      var start := if seqno <= st.rcvNxt then st.rcvNxt else seqno;
      if len == 0 || seqno + len <= st.rcvNxt then st' == st
      else if start == st.rcvNxt && st.queue == [] then st' == st.(rcvNxt := seqno + len)
      else var st1 := Add(st, Seg(start, start + len, flags)).0; st' == st1 || st' == st1.(queue := [])
  {
    hide Add;
    if seqno <= st.rcvNxt < seqno + len { FastPathFlags(st, seqno + len - st.rcvNxt, flags); }
  }

  /** What is acknowledged after a packet is the first byte that is not there, except exactly when the packet brings
      the next byte while others wait, and repeats bytes before it or reaches into what waits. */
  lemma OverlapIff(st: State, seqno: int, len: nat, flags: bv8)
    requires Tidy(st) && flags & TH_FIN == 0
    ensures FirstMissing(st, seqno, len, Receive(st, seqno, len, flags).rcvNxt) <==> !Mishandled(st, seqno, len)
  {
    hide Tidy, Covered, Add, Insert, Receive;
    ReceiveIs(st, seqno, len, flags);
    TidyHead(st);
    NotYet(st, st.rcvNxt);
    if len == 0 || seqno + len <= st.rcvNxt {
    } else if seqno > st.rcvNxt {
      Waits(st, Seg(seqno, seqno + len, flags));
    } else if st.queue == [] {
      NotYet(st, seqno + len);
    } else {
      var s := Seg(st.rcvNxt, st.rcvNxt + len, flags);
      NextOverlaps(st, seqno, len, s);
    }
  }

  lemma TidyHead(st: State)
    requires Tidy(st)
    ensures st.queue != [] ==> st.rcvNxt < st.queue[0].start
  {
  }

  lemma NextOverlaps(st: State, seqno: int, len: nat, s: Seg)
    requires Tidy(st) && st.queue != [] && seqno <= st.rcvNxt < seqno + len
    requires s.start == st.rcvNxt && s.end == st.rcvNxt + len
    ensures FirstMissing(st, seqno, len, Add(st, s).0.rcvNxt) <==> !Mishandled(st, seqno, len)
  {
    hide Tidy, Covered, Insert, Deliver;
    NextInserted(st, s);
    TidyHead(st);
    if s.end <= st.queue[0].start {
      InOrder(st, s);
      if seqno < st.rcvNxt {
        NotYet(st, seqno + len);
        assert !There(st, seqno, len, seqno + len);
      }
    } else {
      Held(Insert(st.queue, s), st.rcvNxt);
      assert There(st, seqno, len, st.rcvNxt);
    }
  }

  lemma Held(q: seq<Seg>, rcvNxt: int)
    requires q != [] && rcvNxt < q[0].start
    ensures Deliver(State(rcvNxt, q)) == (State(rcvNxt, q), 0)
  {
  }

  /** The packet would be linked behind the head though it comes first, or overlaps a segment that waits. */
  predicate Untidy(st: State, seqno: int, len: nat) {
    if seqno <= st.rcvNxt then st.queue != [] && st.rcvNxt < seqno + len && st.queue[0].start < st.rcvNxt + len
    else len > 0 && exists i :: 0 <= i < |st.queue| && !Clean(st.queue[i], Seg(seqno, seqno + len, 0))
  }

  /** The queue stays in order and without overlaps exactly when the packet is not of that kind. */
  lemma TidyIff(st: State, seqno: int, len: nat, flags: bv8)
    requires Tidy(st) && flags & TH_FIN == 0
    ensures Tidy(Receive(st, seqno, len, flags)) <==> !Untidy(st, seqno, len)
  {
    hide Tidy, Add, Insert, Receive, Untidy, Deliver;
    ReceiveIs(st, seqno, len, flags);
    var start := if seqno <= st.rcvNxt then st.rcvNxt else seqno;
    var s := Seg(start, start + len, flags);
    UntidyIs(st, seqno, len, s);
    if len == 0 || seqno + len <= st.rcvNxt {
    } else if start == st.rcvNxt && st.queue == [] {
      EmptyTidy(seqno + len);
    } else if seqno > st.rcvNxt {
      Waits(st, s);
      WaitingTidy(st, s);
      NoFinFlags(st, seqno, len, flags, s);
    } else {
      NextTidy(st, s);
      NoFinFlags(st, seqno, len, flags, s);
      EmptyTidy(Add(st, s).0.rcvNxt);
    }
  }

  lemma UntidyIs(st: State, seqno: int, len: nat, s: Seg)
    requires s.start == (if seqno <= st.rcvNxt then st.rcvNxt else seqno) && s.end == s.start + len
    ensures len == 0 || seqno + len <= st.rcvNxt ==> !Untidy(st, seqno, len)
    ensures st.queue == [] ==> !Untidy(st, seqno, len)
    ensures seqno <= st.rcvNxt < seqno + len && st.queue != [] ==>
      (Untidy(st, seqno, len) <==> st.queue[0].start < s.end)
    ensures seqno > st.rcvNxt && len > 0 ==>
      (Untidy(st, seqno, len) <==> exists i :: 0 <= i < |st.queue| && !Clean(st.queue[i], s))
  {
    forall i | 0 <= i < |st.queue| ensures Clean(st.queue[i], s) <==> Clean(st.queue[i], Seg(s.start, s.end, 0)) {}
  }

  lemma EmptyTidy(rcvNxt: int)
    ensures Tidy(State(rcvNxt, []))
  {
  }

  /** A queue that does not change rcvNxt hands over no flags, so nothing is cleared. */
  lemma NoFinFlags(st: State, seqno: int, len: nat, flags: bv8, s: Seg)
    requires flags & TH_FIN == 0 && len > 0 && st.rcvNxt < seqno + len && !(seqno <= st.rcvNxt && st.queue == [])
    requires s.start == (if seqno <= st.rcvNxt then st.rcvNxt else seqno) && s.end == s.start + len && s.flags == flags
    ensures Add(st, s).1 == 0 ==> Receive(st, seqno, len, flags) == Add(st, s).0
  {
    hide Add;
    assert (0 as bv8) & TH_FIN == 0;
  }

  lemma WaitingTidy(st: State, s: Seg)
    requires Tidy(st) && st.rcvNxt < s.start < s.end
    ensures Tidy(State(st.rcvNxt, Insert(st.queue, s))) <==> forall i :: 0 <= i < |st.queue| ==> Clean(st.queue[i], s)
  {
    hide Clean, Tidy, Sorted;
    var q, i := st.queue, InsertPos(st.queue, s);
    var all := q[..i] + [s] + q[i..];
    assert all == Insert(q, s);
    if forall k :: 0 <= k < |q| ==> Clean(q[k], s) {
      InsertTidy(st, s, i, all);
    } else {
      var k :| 0 <= k < |q| && !Clean(q[k], s);
      assert q[k] == if k < i then all[k] else all[k + 1];
      NotTidy(st.rcvNxt, all, q[k], all[i]);
    }
  }

  lemma NotTidy(rcvNxt: int, q: seq<Seg>, x: Seg, y: Seg)
    requires x in q && y in q && !Clean(x, y)
    ensures !Tidy(State(rcvNxt, q))
  {
    hide Clean, Sorted;
  }

  lemma InsertTidy(st: State, s: Seg, i: nat, all: seq<Seg>)
    requires Tidy(st) && st.rcvNxt < s.start < s.end && i == InsertPos(st.queue, s)
    requires all == st.queue[..i] + [s] + st.queue[i..]
    requires forall k :: 0 <= k < |st.queue| ==> Clean(st.queue[k], s)
    ensures Tidy(State(st.rcvNxt, all))
  {
    hide Clean, Tidy, Sorted;
    var q := st.queue;
    TidySorted(st);
    forall j | 0 <= j < i ensures q[j].start <= s.start { CleanBefore(st, s, j); }
    forall j | i <= j < |q| ensures s.start <= q[j].start { SortedPair(q, i, j); }
    SortedInsert(q, s, i);
    forall j | 0 <= j < |all| ensures all[j] == s || all[j] in q {}
    AllTidy(st, s, all);
  }

  lemma CleanBefore(st: State, s: Seg, j: nat)
    requires Tidy(st) && s.start < s.end && j < InsertPos(st.queue, s) && Clean(st.queue[j], s)
    ensures st.queue[j].start <= s.start
  {
    assert st.queue[j].start <= st.queue[|st.queue| - 1].start;
  }

  lemma AllTidy(st: State, s: Seg, all: seq<Seg>)
    requires Tidy(st) && st.rcvNxt < s.start < s.end && Sorted(all)
    requires forall j :: 0 <= j < |all| ==> all[j] == s || all[j] in st.queue
    requires forall k :: 0 <= k < |st.queue| ==> Clean(st.queue[k], s)
    ensures Tidy(State(st.rcvNxt, all))
  {
    hide Sorted;
    forall j, k | 0 <= j < |all| && 0 <= k < |all| ensures Clean(all[j], all[k]) { CleanPair(st, s, all[j], all[k]); }
  }

  lemma CleanPair(st: State, s: Seg, x: Seg, y: Seg)
    requires Tidy(st) && forall k :: 0 <= k < |st.queue| ==> Clean(st.queue[k], s)
    requires (x == s || x in st.queue) && (y == s || y in st.queue)
    ensures Clean(x, y)
  {
  }

  /** The segment that starts at rcvNxt, with others waiting. */
  lemma NextTidy(st: State, s: Seg)
    requires Tidy(st) && st.queue != [] && s.start == st.rcvNxt < s.end
    ensures Tidy(Add(st, s).0) <==> s.end <= st.queue[0].start
    ensures st.queue[0].start < s.end ==> Add(st, s).1 == 0
  {
    hide Tidy, Insert, Deliver;
    NextInserted(st, s);
    TidyHead(st);
    if s.end <= st.queue[0].start {
      InOrder(st, s);
    } else {
      var q := Insert(st.queue, s);
      Held(q, st.rcvNxt);
      assert Add(st, s) == (State(st.rcvNxt, q), 0);
      NotInOrder(st.rcvNxt, q, s);
    }
  }

  lemma NotInOrder(rcvNxt: int, q: seq<Seg>, s: Seg)
    requires s in q && s.start <= rcvNxt
    ensures !Tidy(State(rcvNxt, q))
  {
    var i :| 0 <= i < |q| && q[i] == s;
  }

  /** Bytes 16-19 wait, bytes 5-13 arrive when 10 is expected: the segment is linked behind the head,
      and 10 is still expected though it has come. */
  lemma OverlapHolds()
    ensures Receive(State(10, [Seg(16, 20, 0)]), 5, 9, 0) == State(10, [Seg(16, 20, 0), Seg(10, 19, 0)])
  {
    assert Insert([Seg(16, 20, 0)], Seg(10, 19, 0)) == [Seg(16, 20, 0), Seg(10, 19, 0)];
  }

  // ---------- streams with overlaps ----------

  predicate Plain(q: seq<Seg>) {
    forall i :: 0 <= i < |q| ==> q[i].flags & TH_FIN == 0
  }

  /** The bytes below rcvNxt and those in the queue. */
  predicate Has(st: State, b: int) { b < st.rcvNxt || Covered(st.queue, b) }

  lemma InsertPlain(q: seq<Seg>, s: Seg)
    requires Plain(q) && s.flags & TH_FIN == 0
    ensures Plain(Insert(q, s))
  {
  }

  lemma AddPlain(st: State, s: Seg)
    requires Plain(st.queue) && s.flags & TH_FIN == 0
    ensures Plain(Add(st, s).0.queue) && Add(st, s).1 & TH_FIN == 0
  {
    hide Insert, RunLength;
    InsertPlain(st.queue, s);
    var q := Insert(st.queue, s);
    var n := RunLength(q);
    assert (0 as bv8) & TH_FIN == 0;
    FlagsWithoutFin(q[..n]);
  }

  /** As long as no FIN is in sight, nothing is cleared. */
  lemma ReceivePlain(st: State, seqno: int, len: nat, flags: bv8)
    requires Plain(st.queue) && flags & TH_FIN == 0
    ensures Plain(Receive(st, seqno, len, flags).queue)
    ensures var start := if seqno <= st.rcvNxt then st.rcvNxt else seqno;
      len > 0 && st.rcvNxt < seqno + len && !(start == st.rcvNxt && st.queue == []) ==>
        Receive(st, seqno, len, flags) == Add(st, Seg(start, start + len, flags)).0
  {
    hide Add, Plain;
    var start := if seqno <= st.rcvNxt then st.rcvNxt else seqno;
    ReceiveIs(st, seqno, len, flags);
    AddPlain(st, Seg(start, start + len, flags));
    NonePlain();
  }

  lemma NonePlain()
    ensures Plain([])
  {
  }

  lemma InsertCovers(q: seq<Seg>, s: Seg, b: int)
    ensures Covered(Insert(q, s), b) <==> Covers(s, b) || Covered(q, b)
  {
    var i, all := InsertPos(q, s), Insert(q, s);
    assert all[i] == s && forall k :: 0 <= k < |q| ==> q[k] == all[if k < i then k else k + 1];
    if Covers(s, b) { assert Covers(all[i], b); }
    if Covered(q, b) {
      var k :| 0 <= k < |q| && Covers(q[k], b);
      assert Covers(all[if k < i then k else k + 1], b);
    }
    if Covered(all, b) {
      var k :| 0 <= k < |all| && Covers(all[k], b);
      assert k == i || Covers(q[if k < i then k else k - 1], b);
    }
  }

  /** A packet of the right kind adds its bytes and no others, and loses none. */
  lemma KeepsBytes(st: State, seqno: int, len: nat, flags: bv8, b: int)
    requires Tidy(st) && Plain(st.queue) && flags & TH_FIN == 0 && !Mishandled(st, seqno, len)
    ensures Has(Receive(st, seqno, len, flags), b) <==> Has(st, b) || seqno <= b < seqno + len
  {
    hide Tidy, Covered, Add, Insert, Receive, Plain, Deliver;
    ReceiveIs(st, seqno, len, flags);
    ReceivePlain(st, seqno, len, flags);
    if len == 0 || seqno + len <= st.rcvNxt {
    } else if seqno > st.rcvNxt {
      var s := Seg(seqno, seqno + len, flags);
      Waits(st, s);
      InsertCovers(st.queue, s, b);
    } else if st.queue == [] {
      NothingCovered(b);
    } else {
      NextKeepsBytes(st, Seg(seqno, seqno + len, flags), b);
    }
  }

  lemma NothingCovered(b: int)
    ensures !Covered([], b)
  {
  }

  lemma NextKeepsBytes(st: State, s: Seg, b: int)
    requires Tidy(st) && st.queue != [] && s.start == st.rcvNxt < s.end <= st.queue[0].start
    ensures Has(Add(st, s).0, b) <==> Has(st, b) || Covers(s, b)
  {
    hide Tidy, Covered, Insert, Deliver;
    NextInserted(st, s);
    InOrder(st, s);
    var st' := Add(st, s).0;
    assert st' == Deliver(State(st.rcvNxt, [s] + st.queue)).0;
    if st.rcvNxt <= b < st'.rcvNxt { assert There(st, s.start, s.end - s.start, b); }
  }

  /** rcvNxt never moves backwards from a queue in order. */
  lemma Onward(st: State, seqno: int, len: nat, flags: bv8)
    requires Tidy(st) && flags & TH_FIN == 0
    ensures Receive(st, seqno, len, flags).rcvNxt >= st.rcvNxt
  {
    hide Tidy, Insert, Receive, Deliver;
    ReceiveIs(st, seqno, len, flags);
    TidyHead(st);
    if seqno > st.rcvNxt {
      if len > 0 { Waits(st, Seg(seqno, seqno + len, flags)); }
    } else if st.rcvNxt < seqno + len && st.queue != [] {
      var s := Seg(st.rcvNxt, st.rcvNxt + len, flags);
      NextInserted(st, s);
      if s.end <= st.queue[0].start {
        InOrder(st, s);
        assert Add(st, s).0 == Deliver(State(st.rcvNxt, [s] + st.queue)).0;
      } else {
        Held(Insert(st.queue, s), st.rcvNxt);
        assert Add(st, s) == Deliver(State(st.rcvNxt, Insert(st.queue, s)));
      }
    }
  }

  /** The state has, in order, exactly the bytes from isn on that have come. */
  ghost predicate Exact(isn: int, segs: seq<Seg>, st: State) {
    Tidy(st) && forall b :: isn <= b ==> (Covered(segs, b) <==> Has(st, b))
  }

  /** The packet can be taken in the right way. */
  predicate Taken(st: State, s: Seg) {
    !Mishandled(st, s.start, Len(s)) && !Untidy(st, s.start, Len(s))
  }

  lemma CoveredSnoc(segs: seq<Seg>, s: Seg, b: int)
    ensures Covered(segs + [s], b) <==> Covered(segs, b) || Covers(s, b)
  {
    var all := segs + [s];
    if Covered(segs, b) { CoveredMore(segs, s, b); }
    if Covers(s, b) { assert Covers(all[|segs|], b); }
    if Covered(all, b) {
      var i :| 0 <= i < |all| && Covers(all[i], b);
      if i < |segs| { assert Covers(segs[i], b); }
    }
  }

  /** One packet keeps the state exact exactly when it can be taken in the right way. */
  lemma ExactStep(isn: int, segs: seq<Seg>, st: State, s: Seg)
    requires Exact(isn, segs, st) && isn <= st.rcvNxt && Plain(st.queue) && s.flags & TH_FIN == 0
    ensures Exact(isn, segs + [s], Receive(st, s.start, Len(s), s.flags)) <==> Taken(st, s)
  {
    hide Tidy, Covered, Receive, Mishandled, Untidy, Plain, Has;
    var st' := Receive(st, s.start, Len(s), s.flags);
    TidyIff(st, s.start, Len(s), s.flags);
    OverlapIff(st, s.start, Len(s), s.flags);
    Onward(st, s.start, Len(s), s.flags);
    if Taken(st, s) {
      forall b | isn <= b ensures Covered(segs + [s], b) <==> Has(st', b) {
        CoveredSnoc(segs, s, b);
        KeepsBytes(st, s.start, Len(s), s.flags, b);
      }
    }
    if Exact(isn, segs + [s], st') { ExactMissing(isn, segs, st, s, st'); }
  }

  lemma ExactMissing(isn: int, segs: seq<Seg>, st: State, s: Seg, st': State)
    requires Exact(isn, segs, st) && Exact(isn, segs + [s], st') && isn <= st.rcvNxt <= st'.rcvNxt
    ensures FirstMissing(st, s.start, Len(s), st'.rcvNxt)
  {
    hide Tidy, Covered;
    forall b | st.rcvNxt <= b <= st'.rcvNxt ensures There(st, s.start, Len(s), b) <==> b < st'.rcvNxt {
      CoveredSnoc(segs, s, b);
      assert Covered(segs, b) <==> Has(st, b);
      assert Covered(segs + [s], b) <==> Has(st', b);
      if b == st'.rcvNxt {
        TidyHead(st');
        NotYet(st', b);
      }
    }
    assert !There(st, s.start, Len(s), st'.rcvNxt);
  }

  /** After every part of the stream the state has exactly the bytes that have come, in order. */
  ghost predicate AllExact(isn: int, segs: seq<Seg>) {
    forall k :: 0 <= k <= |segs| ==> Exact(isn, segs[..k], ReceiveAll(isn, segs[..k]))
  }

  /** Every packet of the stream finds a state that can take it in the right way. */
  predicate AllTaken(isn: int, segs: seq<Seg>) {
    forall k :: 0 <= k < |segs| ==> Taken(ReceiveAll(isn, segs[..k]), segs[k])
  }

  lemma {:induction false} PlainRuns(isn: int, segs: seq<Seg>, k: nat)
    requires Plain(segs) && k <= |segs|
    ensures Plain(ReceiveAll(isn, segs[..k]).queue)
  {
    hide Receive;
    if k == 0 {
      NonePlain();
    } else {
      PlainRuns(isn, segs, k - 1);
      NextState(isn, segs, k - 1);
      ReceivePlain(ReceiveAll(isn, segs[..k - 1]), segs[k - 1].start, Len(segs[k - 1]), segs[k - 1].flags);
    }
  }

  lemma NextState(isn: int, segs: seq<Seg>, k: nat)
    requires k < |segs|
    ensures segs[..k + 1] == segs[..k] + [segs[k]]
    ensures ReceiveAll(isn, segs[..k + 1]) ==
      Receive(ReceiveAll(isn, segs[..k]), segs[k].start, Len(segs[k]), segs[k].flags)
  {
    hide Receive;
    assert segs[..k + 1][..k] == segs[..k];
  }

  lemma {:induction false} ExactUntil(isn: int, segs: seq<Seg>, k: nat)
    requires Plain(segs) && k <= |segs|
    requires forall j :: 0 <= j < k ==> Taken(ReceiveAll(isn, segs[..j]), segs[j])
    ensures Exact(isn, segs[..k], ReceiveAll(isn, segs[..k])) && isn <= ReceiveAll(isn, segs[..k]).rcvNxt
  {
    hide Receive, Taken, ReceiveAll, Exact;
    if k == 0 {
      ExactStart(isn);
    } else {
      ExactUntil(isn, segs, k - 1);
      PlainRuns(isn, segs, k - 1);
      NextState(isn, segs, k - 1);
      var st, s := ReceiveAll(isn, segs[..k - 1]), segs[k - 1];
      ExactStep(isn, segs[..k - 1], st, s);
      ExactTidy(isn, segs[..k - 1], st);
      Onward(st, s.start, Len(s), s.flags);
    }
  }

  lemma ExactStart(isn: int)
    ensures ReceiveAll(isn, []) == State(isn, []) && Exact(isn, [], State(isn, []))
  {
  }

  lemma ExactTidy(isn: int, segs: seq<Seg>, st: State)
    requires Exact(isn, segs, st)
    ensures Tidy(st)
  {
  }

  lemma {:induction false} OnwardRuns(isn: int, segs: seq<Seg>, k: nat)
    requires Plain(segs) && k <= |segs| && AllExact(isn, segs)
    ensures isn <= ReceiveAll(isn, segs[..k]).rcvNxt
  {
    hide Receive, Exact;
    if k > 0 {
      OnwardRuns(isn, segs, k - 1);
      NextState(isn, segs, k - 1);
      ExactTidy(isn, segs[..k - 1], ReceiveAll(isn, segs[..k - 1]));
      Onward(ReceiveAll(isn, segs[..k - 1]), segs[k - 1].start, Len(segs[k - 1]), segs[k - 1].flags);
    }
  }

  /** For any stream without a FIN, with whatever overlaps: after every packet exactly the bytes that have come are
      acknowledged or wait in order, exactly when every packet finds a state that can take it in the right way. */
  lemma OverlapRuns(isn: int, segs: seq<Seg>)
    requires Plain(segs)
    ensures AllExact(isn, segs) <==> AllTaken(isn, segs)
  {
    hide Receive, Taken, ReceiveAll, Exact;
    if AllTaken(isn, segs) {
      forall k | 0 <= k <= |segs|
        ensures Exact(isn, segs[..k], ReceiveAll(isn, segs[..k]))
      {
        ExactUntil(isn, segs, k);
      }
    }
    if AllExact(isn, segs) {
      forall k | 0 <= k < |segs| ensures Taken(ReceiveAll(isn, segs[..k]), segs[k]) {
        PlainRuns(isn, segs, k);
        OnwardRuns(isn, segs, k);
        NextState(isn, segs, k);
        assert Exact(isn, segs[..k + 1], ReceiveAll(isn, segs[..k + 1]));
        ExactStep(isn, segs[..k], ReceiveAll(isn, segs[..k]), segs[k]);
      }
    }
  }

  /** Streams without overlaps keep the queue in this shape. */
  lemma AlwaysTidy(isn: int, segs: seq<Seg>)
    requires CleanStream(isn, segs)
    ensures Tidy(ReceiveAll(isn, segs))
  {
    hide Clean, ReceiveAll;
    AlwaysInv(isn, segs);
    var st := ReceiveAll(isn, segs);
    forall i | 0 <= i < |st.queue| ensures st.queue[i].start < st.queue[i].end { assert st.queue[i] in segs; }
    forall i, j | 0 <= i < |st.queue| && 0 <= j < |st.queue| ensures Clean(st.queue[i], st.queue[j]) {
      assert st.queue[i] in segs && st.queue[j] in segs;
    }
  }

  /** Bytes 30-39 wait, bytes 5-14 arrive when 10 is expected: 20 is acknowledged, though 15 never came. */
  lemma OverlapOvershoots()
    ensures Receive(State(10, [Seg(30, 40, 0)]), 5, 10, 0) == State(20, [Seg(30, 40, 0)])
  {
    var q := [Seg(30, 40, 0)];
    assert Insert(q, Seg(10, 20, 0)) == [Seg(10, 20, 0), Seg(30, 40, 0)];
    assert RunLength([Seg(10, 20, 0), Seg(30, 40, 0)]) == 1;
    assert AllFlags([Seg(10, 20, 0)]) == 0 by { assert [Seg(10, 20, 0)][..0] == []; }
    assert [Seg(10, 20, 0), Seg(30, 40, 0)][..1] == [Seg(10, 20, 0)];
    assert [Seg(10, 20, 0), Seg(30, 40, 0)][1..] == q;
  }

  /** Bytes 16-19 come, then 14-17, then 10-15: 18 is expected next and nothing waits, so 18 and 19 are lost. */
  lemma OverlapLoses()
    ensures ReceiveAll(10, [Seg(16, 20, 0), Seg(14, 18, 0), Seg(10, 16, 0)]) == State(18, [])
  {
    hide Receive;
    var a, b, c := Seg(16, 20, 0), Seg(14, 18, 0), Seg(10, 16, 0);
    assert [a, b, c][..2] == [a, b] && [a, b][..1] == [a] && [a][..0] == [];
    TwoWait();
    LastTwoLost();
    assert ReceiveAll(10, []) == State(10, []);
    assert ReceiveAll(10, [a]) == Receive(State(10, []), 16, 4, 0);
    assert ReceiveAll(10, [a, b]) == Receive(ReceiveAll(10, [a]), 14, 4, 0);
  }

  lemma TwoWait()
    ensures Receive(State(10, []), 16, 4, 0) == State(10, [Seg(16, 20, 0)])
    ensures Receive(State(10, [Seg(16, 20, 0)]), 14, 4, 0) == State(10, [Seg(16, 20, 0), Seg(14, 18, 0)])
  {
    var a, b := Seg(16, 20, 0), Seg(14, 18, 0);
    assert Insert([], a) == [a] && Insert([a], b) == [a, b];
  }

  lemma LastTwoLost()
    ensures Receive(State(10, [Seg(16, 20, 0), Seg(14, 18, 0)]), 10, 6, 0) == State(18, [])
  {
    var a, b, c := Seg(16, 20, 0), Seg(14, 18, 0), Seg(10, 16, 0);
    assert Insert([a, b], c) == [c, a, b];
    assert RunLength([c, a, b]) == 3 by { assert [c, a, b][1..] == [a, b] && [a, b][1..] == [b]; }
    assert [c, a, b][..3] == [c, a, b] && [c, a, b][3..] == [];
    ThreePlain(c, a, b);
    assert (0 as bv8) & TH_FIN == 0;
  }

  lemma ThreePlain(a: Seg, b: Seg, c: Seg)
    requires a.flags == b.flags == c.flags == 0
    ensures AllFlags([a, b, c]) == 0
  {
    assert [a, b, c][..2] == [a, b] && [a, b][..1] == [a] && [a][..0] == [];
    assert AllFlags([a]) == 0 && AllFlags([a, b]) == 0;
  }
}
