/**
 What the shared-memory reader gives up. Against a writer without gaps: the catch-up skips exactly what
 is overwritten, an undisturbed call delivers the oldest number there is, and an overrun during the call
 is the one case in which numbers are dropped that are still in the ring.
 */
module ShmDrops {
  import opened Machine
  import opened ShmRing

  /** A writer that publishes every number after its first. */
  ghost predicate Gapless(history: seq<int>)
  {
    IncreasingWriter(history) && forall i :: 0 <= i < |history| ==> history[i] == history[0] + i
  }

  /** After the first n numbers, number k is still in its slot. */
  predicate InRing(history: seq<int>, n: nat, k: int)
    requires n <= |history| && forall i :: 0 <= i < |history| ==> 0 <= history[i] < NO_SEQUENCE
  {
    StampOf(history, n, Slot(k)) == k
  }

  /** The ring holds exactly the last numbers stamped, as many as it has slots. */
  lemma {:induction false} InRingIff(history: seq<int>, n: nat, k: int)
    requires Gapless(history) && n <= |history| && 0 <= k < NO_SEQUENCE
    ensures InRing(history, n, k) <==> n > 0 && history[0] <= k <= history[n - 1] && history[n - 1] - k < 8192
    decreases n
  {
    if n > 0 {
      var last := history[n - 1];
      if Slot(last) == Slot(k) {
        SameSlot(last, k);
      } else {
        InRingIff(history, n - 1, k);
        if last - k == 8192 {
          NextTurn(k);
        }
      }
    }
  }

  lemma SameSlot(j: int, k: int)
    requires Slot(j) == Slot(k)
    ensures j == k || j - k >= 8192 || k - j >= 8192
  {
  }

  lemma NextTurn(k: int)
    ensures Slot(k + 8192) == Slot(k)
  {
  }

  /** Where the reader looks after catching up: its own next number, or the oldest one the ring still holds. */
  function From(next: int, published: int): int {
    if next < published - 8191 then published - 8191 else next
  }

  /** The catch-up skips, and counts, exactly the numbers that are no longer in the ring. */
  lemma CatchUpSkips(history: seq<int>, r: Reader, n: nat)
    requires Gapless(history) && 0 < n <= |history| && r.next >= 0
    ensures var published := history[n - 1];
            var c := CatchUp(r, published);
            && c.next == From(r.next, published) && c.dropped - r.dropped == c.next - r.next
            && (forall k :: r.next <= k < c.next ==> !InRing(history, n, k))
            && (forall k :: c.next <= k <= published && history[0] <= k ==> InRing(history, n, k))
  {
    var published := history[n - 1];
    forall k | r.next <= k <= published
      ensures InRing(history, n, k) <==> history[0] <= k && published - k < 8192
    {
      InRingIff(history, n, k);
    }
  }

  /**
   A call during which nothing is stamped delivers the least number, from the reader's next one on, that is
   still in the ring, and drops exactly the smaller ones. A reader behind the writer's first number, with
   nothing overwritten yet, waits for it and delivers nothing.
   */
  lemma UndisturbedRead(history: seq<int>, r: Reader, n: nat)
    requires Gapless(history) && 0 < n <= |history| && 0 <= r.next <= history[n - 1]
    ensures var o := TryRead(r, LoadsAt(history, r, Moments(n, n, n)));
            if r.next < history[0] && history[n - 1] - history[0] < 8191 then
              o == Outcome(CatchUp(r, history[n - 1]), None)
            else
              && o.delivered.Some? && r.next <= o.delivered.value <= history[n - 1]
              && InRing(history, n, o.delivered.value)
              && (forall k :: r.next <= k < o.delivered.value ==> !InRing(history, n, k))
              && o.reader == Reader(o.delivered.value + 1, r.dropped + (o.delivered.value - r.next))
  {
    hide CatchUp, Slot;
    var published := history[n - 1];
    CatchUpSkips(history, r, n);
    var from := From(r.next, published);
    if from < history[0] {
      Unstamped(history, n, from);
    } else {
      assert InRing(history, n, from);
    }
  }

  /** A slot in which nothing has been stamped since the writer began. */
  lemma {:induction false} Unstamped(history: seq<int>, n: nat, k: int)
    requires Gapless(history) && 0 < n <= |history| && 0 <= k < history[0] && history[n - 1] < k + 8192
    ensures StampOf(history, n, Slot(k)) == NO_SEQUENCE
    decreases n
  {
    if Slot(history[n - 1]) == Slot(k) {
      SameSlot(history[n - 1], k);
    }
    if n > 1 {
      Unstamped(history, n - 1, k);
    }
  }

  /** The call drops a number that the ring still holds when it ends. */
  ghost predicate DropsIntact(history: seq<int>, t: Moments, r: Reader, o: Outcome)
    requires InOrder(history, t) && forall i :: 0 <= i < |history| ==> 0 <= history[i] < NO_SEQUENCE
  {
    exists k :: r.next <= k < o.reader.next && o.delivered != Some(k) && InRing(history, t.after, k)
  }

  /**
   At whatever moments the loads happen: a call drops numbers that are still in the ring exactly when the
   slot it wanted is overwritten after the published number was read, unless by the end of the call the
   writer has gone on so far that everything up to there is gone.
   */
  lemma DropsIntactIff(history: seq<int>, r: Reader, t: Moments)
    requires Gapless(history) && InOrder(history, t) && t.published > 0
    requires history[0] <= r.next <= history[t.published - 1]
    ensures var o := TryRead(r, LoadsAt(history, r, t));
            DropsIntact(history, t, r, o) <==>
              && o.delivered == None && o.reader.next > From(r.next, history[t.published - 1])
              && history[t.after - 1] - o.reader.next < 8191
  {
    hide CatchUp, Slot, StampOf;
    var published, last := history[t.published - 1], history[t.after - 1];
    var l := LoadsAt(history, r, t);
    var o := TryRead(r, l);
    CatchUpSkips(history, r, t.published);
    var from := From(r.next, published);
    WantedStamp(history, t, from);
    forall k | r.next <= k <= last
      ensures InRing(history, t.after, k) <==> last - k < 8192
    {
      InRingIff(history, t.after, k);
    }
    if o.delivered == None && o.reader.next > from && last - o.reader.next < 8191 {
      assert InRing(history, t.after, o.reader.next - 1);
    }
  }

  /** What the two stamp loads see in the slot of a number that was stamped before: that number or a later one. */
  lemma WantedStamp(history: seq<int>, t: Moments, k: int)
    requires Gapless(history) && InOrder(history, t) && t.published > 0 && history[0] <= k <= history[t.published - 1]
    requires InRing(history, t.published, k)
    ensures var before, after := StampOf(history, t.before, Slot(k)), StampOf(history, t.after, Slot(k));
            k <= before <= after <= history[t.after - 1] && before <= history[t.before - 1] < NO_SEQUENCE
  {
    StampsGrow(history, t.published, t.before, Slot(k));
    StampsGrow(history, t.before, t.after, Slot(k));
    StampsGrow(history, t.after, t.after, Slot(k));
  }

  /**
   Such an overrun is real: the reader at 0 sees 8191 published, then 8192 is stamped over number 0. The
   call drops 0 to 8191, of which all but the first are still in the ring.
   */
  lemma OverrunExample()
    ensures var history, t := seq(8193, i requires 0 <= i < 8193 => i), Moments(8192, 8193, 8193);
            && Gapless(history) && InOrder(history, t)
            && TryRead(Reader(0, 0), LoadsAt(history, Reader(0, 0), t)) == Outcome(Reader(8192, 8192), None)
            && forall k :: 1 <= k <= 8192 ==> InRing(history, 8193, k)
  {
    hide StampOf;
    var history := seq(8193, i requires 0 <= i < 8193 => i);
    assert history[8192] == 8192 && history[8191] == 8191;
    InRingIff(history, 8193, 8192);
    NextTurn(0);
    forall k | 1 <= k <= 8192
      ensures InRing(history, 8193, k)
    {
      InRingIff(history, 8193, k);
    }
  }

  /** Attaching at the latest number waits for the next one; attaching at the oldest starts where the ring does. */
  lemma AttachStarts(history: seq<int>, n: nat)
    requires Gapless(history) && 0 < n <= |history|
    ensures Attach(NO_SEQUENCE, true) == Attach(NO_SEQUENCE, false) == Reader(0, 0)
    ensures Attach(history[n - 1], true) == Reader(history[n - 1] + 1, 0)
    ensures var r := Attach(history[n - 1], false);
            && r.dropped == 0 && 0 <= r.next <= history[n - 1]
            && (forall k :: 0 <= k < r.next ==> !InRing(history, n, k))
            && (forall k :: r.next <= k <= history[n - 1] && history[0] <= k ==> InRing(history, n, k))
  {
    hide StampOf, Slot;
    forall k | 0 <= k <= history[n - 1]
      ensures InRing(history, n, k) <==> history[0] <= k && history[n - 1] - k < 8192
    {
      InRingIff(history, n, k);
    }
  }

  // ---- An idle writer ----

  function Repeated(n: nat, calls: nat): seq<Moments> {
    seq(calls, _ => Moments(n, n, n))
  }

  /** While the writer rests, every call delivers the next number of the ring, until all have been delivered. */
  lemma {:induction false} IdleWriterDrains(history: seq<int>, r: Reader, n: nat, calls: nat)
    requires Gapless(history) && 0 < n <= |history| && history[0] <= r.next <= history[n - 1]
    requires calls <= history[n - 1] + 1 - From(r.next, history[n - 1])
    ensures var from := From(r.next, history[n - 1]);
            var s := Follow(history, r, Repeated(n, calls));
            && |s.delivered| == calls && (forall i :: 0 <= i < calls ==> s.delivered[i] == from + i)
            && (calls > 0 ==> s.reader == Reader(from + calls, r.dropped + (from - r.next)))
            && (calls == 0 ==> s.reader == r)
    decreases calls
  {
    hide TryRead, StampOf, LoadsAt;
    if calls > 0 {
      IdleWriterDrains(history, r, n, calls - 1);
      assert Repeated(n, calls)[..calls - 1] == Repeated(n, calls - 1);
      var before := Follow(history, r, Repeated(n, calls - 1));
      UndisturbedRead(history, before.reader, n);
      var from := From(before.reader.next, history[n - 1]);
      LeastInRing(history, before.reader, n);
    }
  }

  /** The least number still in the ring is where the catch-up stops. */
  lemma LeastInRing(history: seq<int>, r: Reader, n: nat)
    requires Gapless(history) && 0 < n <= |history| && history[0] <= r.next <= history[n - 1]
    ensures InRing(history, n, From(r.next, history[n - 1]))
    ensures forall k :: r.next <= k < From(r.next, history[n - 1]) ==> !InRing(history, n, k)
  {
    CatchUpSkips(history, r, n);
  }
}
