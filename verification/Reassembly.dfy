/** Reassembly of a TCP byte stream (tcp-full-bay.cc): what arrives in any order is delivered
    as a gap-free prefix. The queue as a sequence of segments. */
module Reassembly {

  const TH_FIN: bv8 := 0x01

  // Bytes start .. end - 1, with the flags of the packet that brought them.
  datatype Seg = Seg(start: int, end: int, flags: bv8)

  // The next byte expected, and what waits beyond it.
  datatype State = State(rcvNxt: int, queue: seq<Seg>)

  /** Where a new segment goes: behind the tail when it starts after it, else before the first
      segment that starts at or after its end. */
  function InsertPos(q: seq<Seg>, s: Seg): (i: nat)
    ensures i <= |q|
  {
    if q != [] && q[|q| - 1].end <= s.start then |q| else FirstAfter(q, s.end)
  }

  function FirstAfter(q: seq<Seg>, end: int): (i: nat)
    ensures i <= |q|
    ensures forall j :: 0 <= j < i ==> q[j].start < end
    ensures i < |q| ==> end <= q[i].start
  {
    if q == [] || end <= q[0].start then 0 else 1 + FirstAfter(q[1..], end)
  }

  function Insert(q: seq<Seg>, s: Seg): seq<Seg> {
    var i := InsertPos(q, s); q[..i] + [s] + q[i..]
  }

  /** How many segments from the head follow each other without a gap. */
  function RunLength(q: seq<Seg>): (n: nat)
    ensures n <= |q| && (q != [] ==> n > 0)
    ensures forall j :: 0 < j < n ==> q[j - 1].end >= q[j].start
    ensures 0 < n < |q| ==> q[n - 1].end < q[n].start
  {
    if q == [] then 0
    else if |q| > 1 && q[0].end >= q[1].start then 1 + RunLength(q[1..])
    else 1
  }

  function AllFlags(q: seq<Seg>): bv8 {
    if q == [] then 0 else AllFlags(q[..|q| - 1]) | q[|q| - 1].flags
  }

  /** Hand over the gap-free run at the head, unless a hole precedes it; the flags are those of the run. */
  function Deliver(st: State): (State, bv8) {
    if st.queue == [] || st.queue[0].start > st.rcvNxt then (st, 0)
    else
      var n := RunLength(st.queue);
      (State(st.queue[n - 1].end, st.queue[n..]), AllFlags(st.queue[..n]))
  }

  function Add(st: State, s: Seg): (State, bv8) {
    Deliver(st.(queue := Insert(st.queue, s)))
  }

  /** The in-order case of recv that does not touch the queue: a FIN takes one number of its own. */
  function FastPath(st: State, len: nat, flags: bv8): (State, bv8) {
    (st.(rcvNxt := st.rcvNxt + len + if flags & TH_FIN != 0 then 1 else 0), flags & TH_FIN)
  }

  /** The data part of recv: trim what was seen before, then the fast path or the queue. The queue is
      given the moved start but the untrimmed length of the packet. */
  function Receive(st: State, seqno: int, len: nat, flags: bv8): State {
    var over := st.rcvNxt - seqno;
    var seen := over > len || (over == len && flags & TH_FIN == 0);
    var fin := if over > 0 && seen then false else flags & TH_FIN != 0;
    var todrop := if over <= 0 then 0 else if seen then len else over;
    var start := seqno + todrop;
    if len - todrop > 0 || fin then
      var (st', got) :=
        if start == st.rcvNxt && st.queue == [] then FastPath(st, len - todrop, if fin then TH_FIN else 0)
        else Add(st, Seg(start, start + len, flags));
      if got & TH_FIN != 0 then st'.(queue := []) else st'
    else st
  }

  // ---------- segments that do not overlap except by repetition ----------

  predicate Covers(s: Seg, b: int) { s.start <= b < s.end }

  /** Some segment of the list brought byte b. */
  predicate Covered(segs: seq<Seg>, b: int) {
    exists i :: 0 <= i < |segs| && Covers(segs[i], b)
  }

  predicate Clean(s: Seg, t: Seg) {
    s.end <= t.start || t.end <= s.start || (s.start == t.start && s.end == t.end)
  }

  /** Data segments from isn on, pairwise disjoint or repeated, none of them a FIN. */
  predicate CleanStream(isn: int, segs: seq<Seg>) {
    && (forall i :: 0 <= i < |segs| ==> isn <= segs[i].start < segs[i].end && segs[i].flags & TH_FIN == 0)
    && (forall i, j :: 0 <= i < |segs| && 0 <= j < |segs| ==> Clean(segs[i], segs[j]))
  }

  /** Disjoint or repeated as well, with any flags; one that carries no byte stands at the very end. */
  predicate Orderly(isn: int, segs: seq<Seg>) {
    && (forall i :: 0 <= i < |segs| ==> isn <= segs[i].start <= segs[i].end)
    && (forall i, j :: 0 <= i < |segs| && 0 <= j < |segs| ==> Clean(segs[i], segs[j]))
    && (forall i, j :: 0 <= i < |segs| && 0 <= j < |segs| && segs[i].start == segs[i].end ==>
          segs[j].end <= segs[i].end)
  }

  predicate Sorted(q: seq<Seg>) {
    forall i, j :: 0 <= i < j < |q| ==> q[i].start <= q[j].start
  }

  predicate Among(q: seq<Seg>, segs: seq<Seg>) {
    forall i :: 0 <= i < |q| ==> q[i] in segs
  }

  /** Everything that holds after the segments have arrived. */
  predicate Inv(isn: int, segs: seq<Seg>, st: State) {
    && isn <= st.rcvNxt
    && Sorted(st.queue) && Among(st.queue, segs)
    && (forall i :: 0 <= i < |st.queue| ==> st.rcvNxt < st.queue[i].start)
    && (forall i :: 0 <= i < |segs| ==> segs[i].end <= st.rcvNxt || segs[i] in st.queue)
    && (forall b :: isn <= b < st.rcvNxt ==> Covered(segs, b))
  }

  lemma InsertSorted(isn: int, segs: seq<Seg>, q: seq<Seg>, s: Seg)
    requires Orderly(isn, segs) && Among(q, segs) && s in segs && Sorted(q)
    ensures Sorted(Insert(q, s)) && Among(Insert(q, s), segs)
    ensures forall x :: x in Insert(q, s) <==> x in q || x == s
  {
    hide Orderly, Sorted;
    var i := InsertPos(q, s);
    forall j | 0 <= j < i ensures q[j].start <= s.start { BeforePos(isn, segs, q, s, j); }
    Forward(isn, segs, s);
    forall j | i <= j < |q| ensures s.start <= q[j].start { assert s.end <= q[i].start; SortedPair(q, i, j); }
    SortedInsert(q, s, i);
  }

  lemma BeforePos(isn: int, segs: seq<Seg>, q: seq<Seg>, s: Seg, j: nat)
    requires Orderly(isn, segs) && Among(q, segs) && s in segs && Sorted(q) && j < InsertPos(q, s)
    ensures q[j].start <= s.start
  {
    assert q[j] in segs && q[|q| - 1] in segs;
    assert Clean(q[j], s) && q[j].start <= q[|q| - 1].start;
  }

  lemma SortedPair(q: seq<Seg>, i: nat, j: nat)
    requires Sorted(q) && i <= j < |q|
    ensures q[i].start <= q[j].start
  {
  }

  lemma SortedInsert(q: seq<Seg>, s: Seg, i: nat)
    requires Sorted(q) && i <= |q|
    requires (forall j :: 0 <= j < i ==> q[j].start <= s.start) && (forall j :: i <= j < |q| ==> s.start <= q[j].start)
    ensures Sorted(q[..i] + [s] + q[i..])
  {
  }

  /** A gap-free run of clean segments from rcvNxt on covers every byte up to its end. */
  lemma {:induction false} RunCovers(isn: int, segs: seq<Seg>, q: seq<Seg>, n: nat, b: int)
    requires Orderly(isn, segs) && Among(q, segs) && Sorted(q) && 0 < n <= RunLength(q)
    ensures forall j :: 0 <= j < n ==> q[j].end <= q[n - 1].end
    ensures q[0].start <= b < q[n - 1].end ==> Covered(segs, b)
  {
    assert q[n - 1] in segs;
    if n > 1 {
      RunCovers(isn, segs, q, n - 1, b);
      assert q[n - 2] in segs;
      assert Clean(q[n - 2], q[n - 1]);
    }
    if q[n - 1].start <= b < q[n - 1].end {
      var k :| 0 <= k < |segs| && segs[k] == q[n - 1];
      assert Covers(segs[k], b);
    }
  }

  lemma Forward(isn: int, all: seq<Seg>, s: Seg)
    requires Orderly(isn, all) && s in all
    ensures isn <= s.start <= s.end
  {
  }

  /** A queue with everything that is still outstanding, whose head is next in order, can be delivered. */
  lemma DeliverKeeps(isn: int, all: seq<Seg>, st: State)
    requires Orderly(isn, all) && isn <= st.rcvNxt && st.queue != []
    requires Sorted(st.queue) && Among(st.queue, all) && st.queue[0].start == st.rcvNxt
    requires forall i :: 0 <= i < |all| ==> all[i].end <= st.rcvNxt || all[i] in st.queue
    requires forall b :: isn <= b < st.rcvNxt ==> Covered(all, b)
    ensures Inv(isn, all, Deliver(st).0)
  {
    hide Orderly, Covered, AllFlags, Sorted, RunLength;
    var q := st.queue;
    var n := RunLength(q);
    RunCovers(isn, all, q, n, isn);
    Forward(isn, all, q[n - 1]);
    assert st.rcvNxt <= q[n - 1].end by { assert Sorted(q); SortedFrom(q, n - 1); }
    forall b | isn <= b < q[n - 1].end ensures Covered(all, b) {
      if b >= st.rcvNxt { RunCovers(isn, all, q, n, b); }
    }
    RestWaits(q, n);
    DeliveredOrQueued(all, q, n, st.rcvNxt);
    forall i | 0 <= i < |q[n..]| ensures q[n..][i] in all { assert q[n..][i] == q[n + i]; }
  }

  lemma SortedFrom(q: seq<Seg>, i: nat)
    requires Sorted(q) && i < |q|
    ensures q[0].start <= q[i].start
  {
  }

  lemma RestWaits(q: seq<Seg>, n: nat)
    requires Sorted(q) && q != [] && n == RunLength(q)
    ensures Sorted(q[n..]) && forall i :: 0 <= i < |q[n..]| ==> q[n - 1].end < q[n..][i].start
  {
    forall i | 0 <= i < |q[n..]| ensures q[n - 1].end < q[n..][i].start {
      assert q[n].start <= q[n + i].start;
    }
  }

  lemma DeliveredOrQueued(all: seq<Seg>, q: seq<Seg>, n: nat, rcvNxt: int)
    requires 0 < n <= |q| && rcvNxt <= q[n - 1].end
    requires forall j :: 0 <= j < n ==> q[j].end <= q[n - 1].end
    requires forall i :: 0 <= i < |all| ==> all[i].end <= rcvNxt || all[i] in q
    ensures forall i :: 0 <= i < |all| ==> all[i].end <= q[n - 1].end || all[i] in q[n..]
  {
    forall i | 0 <= i < |all| && all[i] in q ensures all[i].end <= q[n - 1].end || all[i] in q[n..] {
      var j :| 0 <= j < |q| && q[j] == all[i];
      if j >= n { assert q[n..][j - n] == all[i]; }
    }
  }

  lemma AddKeeps(isn: int, segs: seq<Seg>, st: State, s: Seg)
    requires Orderly(isn, segs + [s]) && Inv(isn, segs, st) && s.start >= st.rcvNxt
    ensures Inv(isn, segs + [s], Add(st, s).0)
  {
    hide Insert, Deliver, Covered, Orderly, Sorted;
    var all := segs + [s];
    var q := Insert(st.queue, s);
    assert Among(st.queue, all);
    InsertSorted(isn, all, st.queue, s);
    assert forall i :: 0 <= i < |q| ==> q[i] in st.queue || q[i] == s;
    assert s in q;
    forall i | 0 <= i < |all| ensures all[i].end <= st.rcvNxt || all[i] in q {}
    forall b | isn <= b < st.rcvNxt ensures Covered(all, b) { CoveredMore(segs, s, b); }
    if q[0].start > st.rcvNxt {
      HoldKeeps(isn, all, st.(queue := q));
    } else {
      assert q[0] in st.queue || q[0] == s;
      DeliverKeeps(isn, all, st.(queue := q));
    }
  }

  lemma HoldKeeps(isn: int, all: seq<Seg>, st: State)
    requires isn <= st.rcvNxt && st.queue != [] && Sorted(st.queue) && Among(st.queue, all)
    requires st.queue[0].start > st.rcvNxt
    requires forall i :: 0 <= i < |all| ==> all[i].end <= st.rcvNxt || all[i] in st.queue
    requires forall b :: isn <= b < st.rcvNxt ==> Covered(all, b)
    ensures Inv(isn, all, Deliver(st).0)
  {
  }

  lemma CoveredMore(segs: seq<Seg>, s: Seg, b: int)
    requires Covered(segs, b)
    ensures Covered(segs + [s], b)
  {
    var i :| 0 <= i < |segs| && Covers(segs[i], b);
    assert (segs + [s])[i] == segs[i];
  }

  /** A segment that starts before rcvNxt is a repetition of one delivered before. */
  lemma OldIsRepeated(isn: int, segs: seq<Seg>, st: State, s: Seg)
    requires Orderly(isn, segs + [s]) && Inv(isn, segs, st) && s.start < st.rcvNxt
    ensures s.end <= st.rcvNxt
  {
    var all := segs + [s];
    assert all[|segs|] == s;
    assert Covered(segs, s.start);
    var i :| 0 <= i < |segs| && Covers(segs[i], s.start);
    assert all[i] == segs[i] && Clean(all[i], all[|segs|]);
  }

  lemma OldKeeps(isn: int, segs: seq<Seg>, st: State, s: Seg)
    requires Inv(isn, segs, st) && s.end <= st.rcvNxt
    ensures Inv(isn, segs + [s], st)
  {
    hide Covered, Sorted;
    var all := segs + [s];
    forall b | isn <= b < st.rcvNxt ensures Covered(all, b) { CoveredMore(segs, s, b); }
    assert forall i :: 0 <= i < |segs| ==> all[i] == segs[i];
    assert Among(st.queue, all);
  }

  lemma ReceiveKeeps(isn: int, segs: seq<Seg>, st: State, s: Seg)
    requires CleanStream(isn, segs + [s]) && Inv(isn, segs, st)
    requires s.start < s.end
    ensures Inv(isn, segs + [s], Receive(st, s.start, s.end - s.start, s.flags))
  {
    hide Covered, Sorted, Add, FastPath;
    var all := segs + [s];
    var len := s.end - s.start;
    assert all[|segs|] == s;
    assert s.flags & TH_FIN == 0;
    assert Orderly(isn, all);
    if s.start < st.rcvNxt {
      OldIsRepeated(isn, segs, st, s);
      OldKeeps(isn, segs, st, s);
      assert Receive(st, s.start, len, s.flags) == st;
    } else {
      assert s == Seg(s.start, s.start + len, s.flags);
      AddKeeps(isn, segs, st, s);
      if s.start == st.rcvNxt && st.queue == [] {
        FastPathAgrees(st, len, s.flags);
        FastPathFlags(st, len, s.flags);
      } else {
        assert forall i :: 0 <= i < |st.queue| ==> st.queue[i] in all;
        NoFin(isn, all, st, s);
      }
    }
  }

  lemma FastPathFlags(st: State, len: nat, flags: bv8)
    requires flags & TH_FIN == 0
    ensures FastPath(st, len, flags) == FastPath(st, len, 0) && FastPath(st, len, 0).1 == 0
  {
    assert (0 as bv8) & TH_FIN == 0;
  }

  /** The fast path leads where the queue would have led exactly when the packet is not a FIN. */
  lemma FastPathAgrees(st: State, len: nat, flags: bv8)
    requires st.queue == []
    ensures FastPath(st, len, flags).0 == Add(st, Seg(st.rcvNxt, st.rcvNxt + len, flags)).0 <==> flags & TH_FIN == 0
  {
    var s := Seg(st.rcvNxt, st.rcvNxt + len, flags);
    assert Insert([], s) == [s];
  }

  lemma {:induction false} FlagsWithoutFin(q: seq<Seg>)
    requires forall i :: 0 <= i < |q| ==> q[i].flags & TH_FIN == 0
    ensures AllFlags(q) & TH_FIN == 0
  {
    if q != [] {
      FlagsWithoutFin(q[..|q| - 1]);
      OrWithout(AllFlags(q[..|q| - 1]), q[|q| - 1].flags);
    }
  }

  lemma OrWithout(a: bv8, b: bv8)
    requires a & TH_FIN == 0 && b & TH_FIN == 0
    ensures (a | b) & TH_FIN == 0
  {
  }

  lemma PlainFlags(isn: int, segs: seq<Seg>, s: Seg)
    requires CleanStream(isn, segs) && s in segs
    ensures s.flags & TH_FIN == 0
  {
  }

  lemma NoFin(isn: int, segs: seq<Seg>, st: State, s: Seg)
    requires CleanStream(isn, segs) && s in segs && Among(st.queue, segs)
    ensures Add(st, s).1 & TH_FIN == 0
  {
    hide CleanStream, RunLength;
    var q := Insert(st.queue, s);
    var run := q[..RunLength(q)];
    forall i | 0 <= i < |run| ensures run[i].flags & TH_FIN == 0 {
      assert run[i] == q[i] && (q[i] in st.queue || q[i] == s);
      PlainFlags(isn, segs, q[i]);
    }
    FlagsWithoutFin(run);
  }

  // ---------- whole connections ----------

  function Len(s: Seg): nat { if s.end < s.start then 0 else s.end - s.start }

  function ReceiveAll(isn: int, segs: seq<Seg>): State {
    if segs == [] then State(isn, [])
    else
      var s := segs[|segs| - 1];
      Receive(ReceiveAll(isn, segs[..|segs| - 1]), s.start, Len(s), s.flags)
  }

  lemma CleanPart(isn: int, segs: seq<Seg>, m: nat)
    requires CleanStream(isn, segs) && m < |segs|
    ensures CleanStream(isn, segs[..m]) && isn <= segs[m].start < segs[m].end
  {
    hide Clean;
    forall i, j | 0 <= i < m && 0 <= j < m ensures Clean(segs[..m][i], segs[..m][j]) {
      assert Clean(segs[i], segs[j]);
    }
  }

  lemma {:induction false} AlwaysInv(isn: int, segs: seq<Seg>)
    requires CleanStream(isn, segs)
    ensures Inv(isn, segs, ReceiveAll(isn, segs))
  {
    hide Inv, Receive, CleanStream;
    if segs == [] {
      StartInv(isn);
    } else {
      var m := |segs| - 1;
      CleanPart(isn, segs, m);
      assert segs == segs[..m] + [segs[m]];
      AlwaysInv(isn, segs[..m]);
      ReceiveKeeps(isn, segs[..m], ReceiveAll(isn, segs[..m]), segs[m]);
    }
  }

  lemma StartInv(isn: int)
    ensures Inv(isn, [], State(isn, []))
  {
  }

  /** The acknowledged number is the first byte not yet received, and the bytes received are exactly
      those delivered in order plus those queued. */
  lemma DeliversPrefix(isn: int, segs: seq<Seg>)
    requires CleanStream(isn, segs)
    ensures var st := ReceiveAll(isn, segs);
      && isn <= st.rcvNxt && !Covered(segs, st.rcvNxt)
      && forall b :: Covered(segs, b) <==> (isn <= b < st.rcvNxt || Covered(st.queue, b))
  {
    AlwaysInv(isn, segs);
    var st := ReceiveAll(isn, segs);
    forall b | Covered(segs, b) ensures isn <= b && b != st.rcvNxt && (b < st.rcvNxt || Covered(st.queue, b)) {
      var i :| 0 <= i < |segs| && Covers(segs[i], b);
      if segs[i] in st.queue { var j :| 0 <= j < |st.queue| && st.queue[j] == segs[i]; }
    }
    forall b | Covered(st.queue, b) ensures Covered(segs, b) {
      var j :| 0 <= j < |st.queue| && Covers(st.queue[j], b);
      assert st.queue[j] in segs;
    }
  }

  /** The order of arrival and repetitions make no difference to what has been delivered. */
  lemma OrderDoesNotMatter(isn: int, segs: seq<Seg>, segs': seq<Seg>)
    requires CleanStream(isn, segs) && CleanStream(isn, segs')
    requires forall b :: Covered(segs, b) <==> Covered(segs', b)
    ensures ReceiveAll(isn, segs).rcvNxt == ReceiveAll(isn, segs').rcvNxt
  {
    DeliversPrefix(isn, segs);
    DeliversPrefix(isn, segs');
  }

  /** rcvNxt never moves backwards. */
  lemma NeverBack(isn: int, segs: seq<Seg>, more: seq<Seg>)
    requires CleanStream(isn, segs + more)
    ensures ReceiveAll(isn, segs).rcvNxt <= ReceiveAll(isn, segs + more).rcvNxt
  {
    var all := segs + more;
    assert forall i :: 0 <= i < |segs| ==> all[i] == segs[i];
    DeliversPrefix(isn, segs);
    DeliversPrefix(isn, all);
    var n, n' := ReceiveAll(isn, segs).rcvNxt, ReceiveAll(isn, all).rcvNxt;
    forall b | isn <= b < n ensures Covered(all, b) {
      assert Covered(segs, b);
      var i :| 0 <= i < |segs| && Covers(segs[i], b);
      assert Covers(all[i], b);
    }
  }
}
