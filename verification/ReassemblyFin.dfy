/** The end of a connection: what a FIN does to the acknowledged number, whenever it comes. */
module ReassemblyFin {
  import opened Reassembly

  // ---------- one FIN packet ----------

  /** A FIN whose bytes up to its own number are all that is missing: it takes one number beyond them. */
  lemma FinInOrder(st: State, seqno: int, len: nat, flags: bv8)
    requires flags & TH_FIN != 0 && st.queue == [] && seqno <= st.rcvNxt <= seqno + len
    ensures Receive(st, seqno, len, flags) == State(seqno + len + 1, [])
  {
    assert TH_FIN & TH_FIN != 0;
  }

  /** A FIN whose number has been acknowledged changes nothing, whatever waits. */
  lemma FinRepeated(st: State, seqno: int, len: nat, flags: bv8)
    requires seqno + len < st.rcvNxt
    ensures Receive(st, seqno, len, flags) == st
  {
  }

  /** A FIN that comes early waits with its bytes, and takes no number. */
  lemma FinEarly(st: State, seqno: int, len: nat, flags: bv8)
    requires st.rcvNxt < seqno && forall i :: 0 <= i < |st.queue| ==> st.rcvNxt < st.queue[i].start
    requires len > 0 || flags & TH_FIN != 0
    ensures var s := Seg(seqno, seqno + len, flags); var st' := Receive(st, seqno, len, flags);
      && st'.rcvNxt == st.rcvNxt
      && exists i :: 0 <= i <= |st.queue| && st'.queue == st.queue[..i] + [s] + st.queue[i..]
  {
    hide Add;
    var s := Seg(seqno, seqno + len, flags);
    var i := InsertPos(st.queue, s);
    Early(st, s);
    assert Receive(st, seqno, len, flags) == Add(st, s).0;
    assert 0 <= i <= |st.queue| && Add(st, s).0.queue == st.queue[..i] + [s] + st.queue[i..];
  }

  lemma Early(st: State, s: Seg)
    requires st.rcvNxt < s.start && forall i :: 0 <= i < |st.queue| ==> st.rcvNxt < st.queue[i].start
    ensures var i := InsertPos(st.queue, s);
      Add(st, s) == (State(st.rcvNxt, st.queue[..i] + [s] + st.queue[i..]), 0)
    ensures (0 as bv8) & TH_FIN == 0
  {
    hide InsertPos;
  }

  // ---------- a stream that ends with a FIN ----------

  /** Data as in a clean stream, and the last segment f with the FIN, which may carry bytes of its own or none. */
  predicate FinStream(isn: int, segs: seq<Seg>, f: Seg) {
    && f.flags & TH_FIN != 0 && isn <= f.start <= f.end
    && (forall i :: 0 <= i < |segs| ==>
          segs[i] == f || (segs[i].flags & TH_FIN == 0 && isn <= segs[i].start < segs[i].end <= f.end))
    && (forall i, j :: 0 <= i < |segs| && 0 <= j < |segs| ==> Clean(segs[i], segs[j]))
    && (forall i :: 0 <= i < |segs| ==> Clean(segs[i], f))
  }

  /** Every byte before f has come. */
  predicate Complete(isn: int, segs: seq<Seg>, f: Seg) {
    forall b :: isn <= b < f.start ==> Covered(segs, b)
  }

  /** The FIN has come when every byte before it had. */
  predicate Closes(isn: int, segs: seq<Seg>, f: Seg) {
    exists k :: 0 <= k < |segs| && segs[k] == f && Complete(isn, segs[..k], f)
  }

  predicate FinInv(isn: int, segs: seq<Seg>, f: Seg, st: State) {
    st == State(f.end + 1, []) || (st.rcvNxt <= f.end && Inv(isn, segs, st))
  }

  lemma FinOrderly(isn: int, segs: seq<Seg>, f: Seg)
    requires FinStream(isn, segs, f)
    ensures Orderly(isn, segs)
    ensures forall i :: 0 <= i < |segs| ==> segs[i].start <= segs[i].end <= f.end
  {
  }

  lemma FinPart(isn: int, segs: seq<Seg>, f: Seg, m: nat)
    requires FinStream(isn, segs, f) && m <= |segs|
    ensures FinStream(isn, segs[..m], f)
  {
    forall i, j | 0 <= i < m && 0 <= j < m ensures Clean(segs[..m][i], segs[..m][j]) {
      assert Clean(segs[i], segs[j]);
    }
    forall i | 0 <= i < m ensures Clean(segs[..m][i], f) { assert Clean(segs[i], f); }
  }

  /** The acknowledged number of an open stream never passes its end. */
  lemma NotBeyond(isn: int, segs: seq<Seg>, f: Seg, st: State)
    requires FinStream(isn, segs, f) && Inv(isn, segs, st)
    ensures st.rcvNxt <= f.end
  {
    assert !Covered(segs, f.end);
  }

  lemma NothingBehind(isn: int, segs: seq<Seg>, f: Seg, q: seq<Seg>)
    requires FinStream(isn, segs, f) && Among(q, segs)
    ensures q != [] ==> q[0].start <= f.start
  {
    assert forall i :: 0 <= i < |segs| ==> Clean(segs[i], f) && segs[i].start <= f.start;
  }

  /** Once everything before f has been delivered nothing waits. */
  lemma NothingWaits(isn: int, segs: seq<Seg>, f: Seg, st: State)
    requires FinStream(isn, segs, f) && Inv(isn, segs, st) && st.rcvNxt >= f.start
    ensures st.queue == []
  {
    NothingBehind(isn, segs, f, st.queue);
  }

  /** The next byte has not come, the ones before have. */
  lemma FirstOut(isn: int, segs: seq<Seg>, st: State)
    requires Inv(isn, segs, st)
    ensures !Covered(segs, st.rcvNxt) && forall b :: isn <= b < st.rcvNxt ==> Covered(segs, b)
  {
    forall i | 0 <= i < |segs| ensures !Covers(segs[i], st.rcvNxt) {
      if segs[i] in st.queue { var j :| 0 <= j < |st.queue| && st.queue[j] == segs[i]; }
    }
  }

  lemma CompleteIff(isn: int, segs: seq<Seg>, f: Seg, st: State)
    requires Inv(isn, segs, st)
    ensures Complete(isn, segs, f) <==> st.rcvNxt >= f.start
  {
    hide Inv, Covered;
    FirstOut(isn, segs, st);
    assert isn <= st.rcvNxt by { IsnFirst(isn, segs, st); }
  }

  lemma IsnFirst(isn: int, segs: seq<Seg>, st: State)
    requires Inv(isn, segs, st)
    ensures isn <= st.rcvNxt && forall i :: 0 <= i < |st.queue| ==> st.rcvNxt < st.queue[i].start
  {
  }

  lemma DataStep(isn: int, segs: seq<Seg>, f: Seg, st: State, s: Seg)
    requires FinStream(isn, segs + [s], f) && FinStream(isn, segs, f) && Inv(isn, segs, st)
    requires s.flags & TH_FIN == 0 && s.start < s.end
    ensures Inv(isn, segs + [s], Receive(st, s.start, Len(s), s.flags))
  {
    hide FinStream, Inv, Insert, Deliver, FastPath, Orderly, Add;
    var all := segs + [s];
    FinOrderly(isn, all, f);
    if s.start < st.rcvNxt {
      OldIsRepeated(isn, segs, st, s);
      OldKeeps(isn, segs, st, s);
      assert Receive(st, s.start, Len(s), s.flags) == st;
    } else {
      assert s == Seg(s.start, s.start + Len(s), s.flags);
      AddKeeps(isn, segs, st, s);
      if s.start == st.rcvNxt && st.queue == [] {
        FastPathAgrees(st, Len(s), s.flags);
        FastPathFlags(st, Len(s), s.flags);
      } else if Add(st, s).1 & TH_FIN != 0 {
        FinDelivered(isn, segs, f, st, s);
      }
    }
  }

  /** When the run that is delivered brings the FIN, nothing is left in the queue for clear to take away. */
  lemma FinDelivered(isn: int, segs: seq<Seg>, f: Seg, st: State, s: Seg)
    requires FinStream(isn, segs + [s], f) && Inv(isn, segs, st)
    requires s.flags & TH_FIN == 0 && Inv(isn, segs + [s], Add(st, s).0) && Add(st, s).1 & TH_FIN != 0
    ensures Add(st, s).0.queue == []
  {
    hide FinStream, Inv, Covered, RunLength, Sorted, Orderly, AllFlags;
    var all := segs + [s];
    var q := Insert(st.queue, s);
    var n := RunLength(q);
    FinOrderly(isn, all, f);
    QueuedAmong(isn, segs, st);
    assert Among(st.queue, all);
    InsertSorted(isn, all, st.queue, s);
    assert (0 as bv8) & TH_FIN == 0;
    assert q != [] && Add(st, s) == (State(q[n - 1].end, q[n..]), AllFlags(q[..n]));
    if forall i :: 0 <= i < n ==> q[..n][i].flags & TH_FIN == 0 {
      FlagsWithoutFin(q[..n]);
      assert false;
    }
    var i :| 0 <= i < n && q[..n][i].flags & TH_FIN != 0;
    assert q[i] in all;
    OnlyFin(isn, all, f, q[i]);
    RunCovers(isn, all, q, n, isn);
    NothingWaits(isn, all, f, Add(st, s).0);
  }

  lemma QueuedAmong(isn: int, segs: seq<Seg>, st: State)
    requires Inv(isn, segs, st)
    ensures Among(st.queue, segs) && Sorted(st.queue)
  {
  }

  lemma OnlyFin(isn: int, segs: seq<Seg>, f: Seg, x: Seg)
    requires FinStream(isn, segs, f) && x in segs && x.flags & TH_FIN != 0
    ensures x == f && f.start <= f.end
  {
  }

  lemma FinStep(isn: int, segs: seq<Seg>, f: Seg, st: State)
    requires FinStream(isn, segs + [f], f) && FinStream(isn, segs, f) && Inv(isn, segs, st) && st.rcvNxt <= f.end
    ensures var st' := Receive(st, f.start, Len(f), f.flags);
      if st.rcvNxt >= f.start then st' == State(f.end + 1, [])
      else st'.rcvNxt <= f.end && Inv(isn, segs + [f], st')
  {
    hide FinStream, Inv, Insert, Deliver, Orderly;
    FinOrderly(isn, segs + [f], f);
    FinFlag(isn, segs, f);
    assert f == Seg(f.start, f.start + Len(f), f.flags);
    if st.rcvNxt >= f.start {
      NothingWaits(isn, segs, f, st);
      FinInOrder(st, f.start, Len(f), f.flags);
    } else {
      AddKeeps(isn, segs, st, f);
      IsnFirst(isn, segs, st);
      Early(st, f);
      NotBeyond(isn, segs + [f], f, Add(st, f).0);
    }
  }

  lemma FinFlag(isn: int, segs: seq<Seg>, f: Seg)
    requires FinStream(isn, segs, f)
    ensures f.flags & TH_FIN != 0 && f.start <= f.end
  {
  }

  /** One more arrival: the stream stays closed, or is closed now exactly if a FIN comes to a complete stream. */
  lemma ArrivalStep(isn: int, segs: seq<Seg>, f: Seg, st: State, s: Seg)
    requires FinStream(isn, segs + [s], f) && FinStream(isn, segs, f) && FinInv(isn, segs, f, st)
    ensures var st' := Receive(st, s.start, Len(s), s.flags);
      && FinInv(isn, segs + [s], f, st')
      && (st'.rcvNxt > f.end <==> st.rcvNxt > f.end || (s == f && Complete(isn, segs, f)))
  {
    hide Inv, Receive, Orderly, Complete;
    FinOrderly(isn, segs + [s], f);
    assert (segs + [s])[|segs|] == s;
    if st.rcvNxt > f.end {
      FinRepeated(st, s.start, Len(s), s.flags);
    } else {
      CompleteIff(isn, segs, f, st);
      if s == f {
        FinStep(isn, segs, f, st);
      } else {
        DataStep(isn, segs, f, st, s);
        NotBeyond(isn, segs + [s], f, Receive(st, s.start, Len(s), s.flags));
      }
    }
  }

  lemma ClosesMore(isn: int, segs: seq<Seg>, f: Seg)
    requires segs != []
    ensures var m := |segs| - 1;
      Closes(isn, segs, f) <==> Closes(isn, segs[..m], f) || (segs[m] == f && Complete(isn, segs[..m], f))
  {
    hide Complete;
    var m := |segs| - 1;
    if Closes(isn, segs, f) {
      var k :| 0 <= k < |segs| && segs[k] == f && Complete(isn, segs[..k], f);
      if k < m { assert segs[..m][k] == f && segs[..m][..k] == segs[..k]; }
    }
    if Closes(isn, segs[..m], f) {
      var k :| 0 <= k < m && segs[..m][k] == f && Complete(isn, segs[..m][..k], f);
      assert segs[..m][..k] == segs[..k] && segs[k] == f;
    }
  }

  lemma {:induction false} FinRuns(isn: int, segs: seq<Seg>, f: Seg)
    requires FinStream(isn, segs, f)
    ensures FinInv(isn, segs, f, ReceiveAll(isn, segs))
    ensures ReceiveAll(isn, segs).rcvNxt > f.end <==> Closes(isn, segs, f)
  {
    hide Receive, FinInv, Closes, Complete;
    if segs == [] {
      NotYetClosed(isn, f);
    } else {
      var m := |segs| - 1;
      assert segs == segs[..m] + [segs[m]];
      FinPart(isn, segs, f, m);
      FinRuns(isn, segs[..m], f);
      ArrivalStep(isn, segs[..m], f, ReceiveAll(isn, segs[..m]), segs[m]);
      ClosesMore(isn, segs, f);
    }
  }

  lemma NotYetClosed(isn: int, f: Seg)
    requires isn <= f.start <= f.end
    ensures FinInv(isn, [], f, State(isn, [])) && !Closes(isn, [], f)
  {
    StartInv(isn);
  }

  /** Whatever the order and the repetitions, the number of the FIN is acknowledged exactly when the FIN, or a
      repetition of it, comes after all bytes before it; then nothing waits any more. Until then the acknowledged
      number is the first byte that has not come. */
  lemma FinIff(isn: int, segs: seq<Seg>, f: Seg)
    requires FinStream(isn, segs, f)
    ensures var st := ReceiveAll(isn, segs);
      if Closes(isn, segs, f) then st == State(f.end + 1, [])
      else
        && st.rcvNxt <= f.end && !Covered(segs, st.rcvNxt)
        && forall b :: isn <= b < st.rcvNxt ==> Covered(segs, b)
  {
    hide Inv, Receive, FinStream, Closes, Covered, ReceiveAll;
    FinRuns(isn, segs, f);
    var st := ReceiveAll(isn, segs);
    if st.rcvNxt <= f.end { FirstOut(isn, segs, st); }
  }

  /** A FIN with bytes 15-19 comes before bytes 10-14: its bytes are delivered, its number is not acknowledged;
      the repetition of the FIN is. */
  lemma FinComesEarly()
    ensures ReceiveAll(10, [Seg(15, 20, TH_FIN), Seg(10, 15, 0)]) == State(20, [])
    ensures ReceiveAll(10, [Seg(15, 20, TH_FIN), Seg(10, 15, 0), Seg(15, 20, TH_FIN)]) == State(21, [])
  {
    hide Receive;
    var f, s := Seg(15, 20, TH_FIN), Seg(10, 15, 0);
    assert [f, s, f][..2] == [f, s] && [f, s][..1] == [f] && [f][..0] == [];
    FinWaits();
    FinFollows();
    assert TH_FIN & TH_FIN != 0;
    FinInOrder(State(20, []), 15, 5, TH_FIN);
    assert ReceiveAll(10, [f]) == Receive(ReceiveAll(10, []), 15, 5, TH_FIN);
    assert ReceiveAll(10, [f, s]) == Receive(ReceiveAll(10, [f]), 10, 5, 0);
    assert ReceiveAll(10, [f, s, f]) == Receive(ReceiveAll(10, [f, s]), 15, 5, TH_FIN);
  }

  lemma FinWaits()
    ensures Receive(State(10, []), 15, 5, TH_FIN) == State(10, [Seg(15, 20, TH_FIN)])
  {
    hide Add, Receive;
    var st, s := State(10, []), Seg(15, 20, TH_FIN);
    assert TH_FIN & TH_FIN != 0;
    FinEarly(st, 15, 5, TH_FIN);
    assert st.queue[..0] + [s] + st.queue[0..] == [s];
  }

  lemma FinFollows()
    ensures Receive(State(10, [Seg(15, 20, TH_FIN)]), 10, 5, 0) == State(20, [])
  {
    var f, s := Seg(15, 20, TH_FIN), Seg(10, 15, 0);
    assert Insert([f], s) == [s, f];
    assert [s, f][1..] == [f] && RunLength([f]) == 1 && RunLength([s, f]) == 2;
    assert [s, f][2..] == [];
  }
}
