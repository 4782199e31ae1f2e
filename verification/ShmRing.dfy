/** The shared-memory sequence ring: the reader's accounting against any writer. */
module ShmRing {
  import opened Machine

  const CAPACITY: nat := 8192
  const NO_SEQUENCE: int := U64_MAX

  function Slot(sequence: int): (slot: nat)
    ensures slot < CAPACITY
  {
    sequence % CAPACITY
  }

  function Oldest(published: int): int {
    if published >= CAPACITY - 1 then published - (CAPACITY - 1) else 0
  }

  datatype Reader = Reader(next: int, dropped: int)

  /** The three loads of one try_read, in order; each may see a different moment of the writer. */
  datatype Loads = Loads(published: U64, before: U64, after: U64)

  datatype Outcome = Outcome(reader: Reader, delivered: Option<int>)

  /** A reader attached to a ring whose latest number is `published`. */
  function Attach(published: U64, latest: bool): Reader {
    Reader(if published == NO_SEQUENCE then 0 else if latest then published + 1 else Oldest(published), 0)
  }

  /** Skip what is certainly overwritten. */
  function CatchUp(r: Reader, published: int): Reader {
    var oldest := Oldest(published);
    if r.next < oldest then Reader(oldest, r.dropped + (oldest - r.next)) else r
  }

  /** One try_read as a function of what its loads see. */
  function TryRead(r: Reader, l: Loads): Outcome {
    if l.published == NO_SEQUENCE || r.next > l.published then Outcome(r, None)
    else
      var c := CatchUp(r, l.published);
      if l.before != c.next then
        Outcome(if l.before > c.next && l.before != NO_SEQUENCE then Reader(l.before, c.dropped + (l.before - c.next))
                else c, None)
      else if l.after != l.before then
        Outcome(Reader(if l.after == NO_SEQUENCE then c.next + 1 else l.after,
                       c.dropped + if l.after > c.next then l.after - c.next else 1), None)
      else
        Outcome(Reader(c.next + 1, c.dropped), Some(c.next))
  }

  /** Every number passed is either delivered or counted as dropped. */
  predicate Accounts(r: Reader, o: Outcome) {
    o.reader.next - r.next == (o.reader.dropped - r.dropped) + if o.delivered.Some? then 1 else 0
  }

  /** The slot's number was replaced, during the copy, by a smaller one or by none. */
  predicate Rewound(r: Reader, l: Loads) {
    && l.published != NO_SEQUENCE && r.next <= l.published && l.before == CatchUp(r, l.published).next
    && l.after != l.before
    && (l.after < l.before || (l.after == NO_SEQUENCE && l.before != NO_SEQUENCE - 1))
  }

  /** The accounting of one call fails exactly when the slot's number was rewound under the copy. */
  lemma AccountsIff(r: Reader, l: Loads)
    ensures Accounts(r, TryRead(r, l)) <==> !Rewound(r, l)
  {
  }

  /** A writer with increasing numbers never rewinds a slot: what the second load sees is no older. */
  predicate Increasing(l: Loads) {
    l.before != NO_SEQUENCE ==> l.before <= l.after < NO_SEQUENCE
  }

  datatype Session = Session(reader: Reader, delivered: seq<int>)

  /** One call against an increasing writer: exact accounting, and the reader never goes back. */
  lemma StepAccounts(r: Reader, l: Loads)
    requires Increasing(l) && r.next <= NO_SEQUENCE
    ensures var o := TryRead(r, l);
            && Accounts(r, o) && r.next <= o.reader.next <= NO_SEQUENCE && r.dropped <= o.reader.dropped
            && (o.delivered.Some? ==> r.next <= o.delivered.value < o.reader.next)
  {
  }

  // ---- Writers ----

  /**
   The numbers a writer publishes in its life, in order. It stamps a number's slot before it publishes
   the number, so at any moment it has stamped as many numbers as it has published, or one more.
   */
  ghost predicate IncreasingWriter(history: seq<int>)
  {
    && (forall i :: 0 <= i < |history| ==> 0 <= history[i] < NO_SEQUENCE)
    && (forall i, j :: 0 <= i < j < |history| ==> history[i] < history[j])
  }

  /** The stamp of a slot after the first n numbers. */
  function StampOf(history: seq<int>, n: nat, slot: nat): U64
    requires n <= |history| && forall i :: 0 <= i < |history| ==> 0 <= history[i] < NO_SEQUENCE
  {
    if n == 0 then NO_SEQUENCE
    else if Slot(history[n - 1]) == slot then history[n - 1]
    else StampOf(history, n - 1, slot)
  }

  lemma {:induction false} StampsGrow(history: seq<int>, m: nat, n: nat, slot: nat)
    requires IncreasingWriter(history) && m <= n <= |history|
    ensures || StampOf(history, n, slot) == NO_SEQUENCE
            || exists i :: 0 <= i < n && StampOf(history, n, slot) == history[i]
    ensures StampOf(history, m, slot) != NO_SEQUENCE ==>
              StampOf(history, m, slot) <= StampOf(history, n, slot) < NO_SEQUENCE
    decreases n
  {
    if m < n {
      StampsGrow(history, m, n - 1, slot);
    } else if n > 0 {
      StampsGrow(history, n - 1, n - 1, slot);
    }
  }

  /** How many numbers are published at the reader's first load, and stamped at the other two. */
  datatype Moments = Moments(published: nat, before: nat, after: nat)

  predicate InOrder(history: seq<int>, t: Moments) {
    t.published <= t.before <= t.after <= |history|
  }

  /** What one try_read loads from this writer; the reader looks at the slot of the number it wants. */
  function LoadsAt(history: seq<int>, r: Reader, t: Moments): Loads
    requires InOrder(history, t) && forall i :: 0 <= i < |history| ==> 0 <= history[i] < NO_SEQUENCE
  {
    var published := if t.published == 0 then NO_SEQUENCE else history[t.published - 1];
    var slot := Slot(CatchUp(r, published).next);
    Loads(published, StampOf(history, t.before, slot), StampOf(history, t.after, slot))
  }

  /** No moment of the loads can make an increasing writer look as if it had rewound a slot. */
  lemma WriterNeverRewinds(history: seq<int>, r: Reader, t: Moments)
    requires IncreasingWriter(history) && InOrder(history, t)
    ensures Increasing(LoadsAt(history, r, t))
  {
    var published := if t.published == 0 then NO_SEQUENCE else history[t.published - 1];
    StampsGrow(history, t.before, t.after, Slot(CatchUp(r, published).next));
  }

  function Follow(history: seq<int>, r: Reader, times: seq<Moments>): Session
    requires IncreasingWriter(history) && forall i :: 0 <= i < |times| ==> InOrder(history, times[i])
    decreases |times|
  {
    if times == [] then Session(r, [])
    else
      var before := Follow(history, r, times[..|times| - 1]);
      var o := TryRead(before.reader, LoadsAt(history, before.reader, times[|times| - 1]));
      Session(o.reader, before.delivered + if o.delivered.Some? then [o.delivered.value] else [])
  }

  /**
   Against any increasing writer, at whatever moments the reader's loads happen and however far the
   writer runs ahead: the numbers passed are those delivered plus those counted as dropped, and the
   delivered numbers strictly increase.
   */
  lemma {:induction false} FollowAccounts(history: seq<int>, r: Reader, times: seq<Moments>)
    requires IncreasingWriter(history) && r.next <= NO_SEQUENCE
    requires forall i :: 0 <= i < |times| ==> InOrder(history, times[i])
    ensures var s := Follow(history, r, times);
            && s.reader.next - r.next == |s.delivered| + (s.reader.dropped - r.dropped)
            && r.dropped <= s.reader.dropped && r.next <= s.reader.next <= NO_SEQUENCE
            && (forall i :: 0 <= i < |s.delivered| ==> r.next <= s.delivered[i] < s.reader.next)
            && (forall i, j :: 0 <= i < j < |s.delivered| ==> s.delivered[i] < s.delivered[j])
    decreases |times|
  {
    if times != [] {
      FollowAccounts(history, r, times[..|times| - 1]);
      var before := Follow(history, r, times[..|times| - 1]);
      WriterNeverRewinds(history, before.reader, times[|times| - 1]);
      StepAccounts(before.reader, LoadsAt(history, before.reader, times[|times| - 1]));
    }
  }

  /**
   A writer that starts over does break the accounting. The reader attaches at the latest number 8196;
   then 8197 is published and, while the reader copies it, 5 is stamped over it in the same slot. The
   reader goes back to 5 and counts one drop.
   */
  lemma RewoundExample()
    ensures var history, r, t := [8196, 8197, 5], Attach(8196, true), Moments(2, 2, 3);
            && InOrder(history, t) && r == Reader(8197, 0)
            && var l := LoadsAt(history, r, t);
               && l == Loads(8197, 8197, 5) && Rewound(r, l)
               && TryRead(r, l) == Outcome(Reader(5, 1), None) && !Accounts(r, TryRead(r, l))
  {
    var history := [8196, 8197, 5];
    assert StampOf(history, 2, 5) == 8197 && StampOf(history, 3, 5) == 5;
  }
}
