/**
 The three-thread hand-off: a publishing loop held back by the consumed counter, the shared-memory
 reader, and the book thread behind the single-producer ring. Every shared load, store and word copy
 is its own step.
 */
module Level2 {
  import opened ShmRing
  import Spsc

  type Item = Spsc.Item

  datatype ShmSlot = ShmSlot(sequence: int, words: Item)

  datatype Writer = Waiting | Copying(done: nat) | Announcing

  datatype Stage =
    | Attaching
    | Polling
    | Checking
    | Loading(copy: Item)
    | Pushing(item: Item)
    | Confirming

  datatype State = State(slots: seq<ShmSlot>, published: int, consumed: nat,
                         writer: Writer, sequence: nat, reader: Reader, stage: Stage, ring: Spsc.Ring)

  /** The items to hand over, their width in words, and how far past the consumed count the writer may go. */
  datatype Setup = Setup(source: seq<Item>, width: nat, wait: nat)

  /** The bound of the publishing loop. */
  const WAIT: nat := CAPACITY - 1

  /** One step of one of the three threads. */
  datatype Action =
    | WaitForRoom
    | CopyWord
    | Stamp
    | Announce
    | AttachReader
    | Poll
    | Check
    | LoadWord
    | Recheck
    | PushStep(push: Spsc.Action)
    | Confirm
    | BookStep(pop: Spsc.Action)

  /** Types and ranges, kept by every step whatever the wait. */
  predicate Shaped(s: State, c: Setup) {
    && |s.slots| == CAPACITY && (forall i :: 0 <= i < |s.slots| ==> |s.slots[i].words| == c.width)
    && |c.source| < NO_SEQUENCE && (forall k :: 0 <= k < |c.source| ==> |c.source[k]| == c.width)
    && (forall i :: 0 <= i < |s.slots| ==> InRange(s.slots[i].sequence, c)) && InRange(s.published, c)
    && 0 <= s.reader.next <= |c.source| && s.sequence <= |c.source| && Spsc.Shaped(s.ring, c.width)
    && (s.writer.Copying? ==> s.writer.done <= c.width) && (s.writer != Waiting ==> s.sequence < |c.source|)
    && (s.stage.Loading? ==> |s.stage.copy| <= c.width) && (s.stage.Pushing? ==> |s.stage.item| == c.width)
    && (s.stage.Checking? || s.stage.Loading? ==> s.reader.next < |c.source|)
  }

  predicate InRange(sequence: int, c: Setup) {
    sequence == NO_SEQUENCE || 0 <= sequence < |c.source|
  }

  predicate Enabled(s: State, c: Setup, a: Action) {
    match a
    case WaitForRoom => s.writer.Waiting? && s.sequence < |c.source|
    case CopyWord => s.writer.Copying? && s.writer.done < c.width
    case Stamp => s.writer.Copying? && s.writer.done == c.width
    case Announce => s.writer.Announcing?
    case AttachReader => s.stage.Attaching?
    case Poll => s.stage.Polling? && s.reader.next < |c.source|
    case Check => s.stage.Checking?
    case LoadWord => s.stage.Loading? && |s.stage.copy| < c.width
    case Recheck => s.stage.Loading? && |s.stage.copy| == c.width
    case PushStep(push) =>
      s.stage.Pushing? && Spsc.Enabled(s.ring, c.width, push)
      && (push == Spsc.TryPush(s.stage.item) || push.FillWord? || push.Publish?)
    case Confirm => s.stage.Confirming?
    case BookStep(pop) => (pop.TryPop? || pop.ReadWord? || pop.Release?) && Spsc.Enabled(s.ring, c.width, pop)
  }

  /** The publishing loop. */
  function WriterStep(s: State, c: Setup, a: Action): State
    requires Shaped(s, c) && Enabled(s, c, a) && (a.WaitForRoom? || a.CopyWord? || a.Stamp? || a.Announce?)
  {
    var i := Slot(s.sequence);
    match a
    case WaitForRoom => if s.sequence >= s.consumed + c.wait then s else s.(writer := Copying(0))
    case CopyWord =>
      var n := s.writer.done;
      s.(slots := s.slots[i := s.slots[i].(words := s.slots[i].words[n := c.source[s.sequence][n]])],
         writer := Copying(n + 1))
    case Stamp => s.(slots := s.slots[i := s.slots[i].(sequence := s.sequence)], writer := Announcing)
    case Announce => s.(published := s.sequence, sequence := s.sequence + 1, writer := Waiting)
  }

  /** The shared-memory reader thread: try_read in pieces, then the push loop, then the consumed counter. */
  function ReaderStep(s: State, c: Setup, a: Action): State
    requires Shaped(s, c) && Enabled(s, c, a)
    requires a.AttachReader? || a.Poll? || a.Check? || a.LoadWord? || a.Recheck? || a.PushStep? || a.Confirm?
  {
    var r := s.reader;
    match a
    case AttachReader => s.(reader := Attach(s.published, false), stage := Polling)
    case Poll =>
      if s.published == NO_SEQUENCE || r.next > s.published then s
      else s.(reader := CatchUp(r, s.published), stage := Checking)
    case Check =>
      var before := s.slots[Slot(r.next)].sequence;
      if before == r.next then s.(stage := Loading([]))
      else if before > r.next && before != NO_SEQUENCE then
        s.(reader := Reader(before, r.dropped + (before - r.next)), stage := Polling)
      else s.(stage := Polling)
    case LoadWord =>
      s.(stage := Loading(s.stage.copy + [s.slots[Slot(r.next)].words[|s.stage.copy|]]))
    case Recheck =>
      var after := s.slots[Slot(r.next)].sequence;
      if after == r.next then s.(reader := Reader(r.next + 1, r.dropped), stage := Pushing(s.stage.copy))
      else
        s.(reader := Reader(if after == NO_SEQUENCE then r.next + 1 else after,
                            r.dropped + if after > r.next then after - r.next else 1), stage := Polling)
    case PushStep(push) =>
      s.(ring := Spsc.Step(s.ring, c.width, push), stage := if push.Publish? then Confirming else s.stage)
    case Confirm => s.(consumed := r.next, stage := Polling)
  }

  function Step(s: State, c: Setup, a: Action): State
    requires Shaped(s, c) && Enabled(s, c, a)
  {
    if a.BookStep? then s.(ring := Spsc.Step(s.ring, c.width, a.pop))
    else if a.WaitForRoom? || a.CopyWord? || a.Stamp? || a.Announce? then WriterStep(s, c, a)
    else ReaderStep(s, c, a)
  }

  /** Not yet confirmed numbers sit intact in their slots; the writer is within the wait. */
  ghost predicate SlotsOK(s: State, c: Setup)
  {
    && |s.slots| == CAPACITY && s.sequence <= |c.source| && s.consumed <= s.sequence <= s.consumed + c.wait
    && (s.writer != Waiting ==> s.sequence < |c.source| && s.sequence < s.consumed + c.wait)
    && s.published == (if s.sequence == 0 then NO_SEQUENCE else s.sequence - 1)
    && (forall k :: s.consumed <= k < s.sequence ==> s.slots[Slot(k)] == ShmSlot(k, c.source[k]))
  }

  ghost predicate WriterOK(s: State, c: Setup)
    requires |s.slots| == CAPACITY && s.sequence <= |c.source|
  {
    && (s.writer.Copying? ==>
          s.sequence < |c.source| && s.writer.done <= |c.source[s.sequence]| == |s.slots[Slot(s.sequence)].words|
          && s.slots[Slot(s.sequence)].words[..s.writer.done] == c.source[s.sequence][..s.writer.done])
    && (s.writer.Announcing? ==>
          s.sequence < |c.source| && s.slots[Slot(s.sequence)] == ShmSlot(s.sequence, c.source[s.sequence]))
  }

  /** The reader is at most one item past the confirmed count, drops nothing, and copies what was written. */
  ghost predicate ReaderOK(s: State, c: Setup)
  {
    var next := s.reader.next;
    && s.reader.dropped == 0 && next <= s.sequence <= |c.source|
    && next == s.consumed + (if s.stage.Pushing? || s.stage.Confirming? then 1 else 0)
    && (s.stage.Attaching? ==> s.consumed == 0)
    && (s.stage.Checking? || s.stage.Loading? ==> next < s.sequence)
    && (s.stage.Loading? ==> s.stage.copy <= c.source[next])
    && (s.stage.Pushing? ==> s.stage.item == c.source[next - 1])
  }

  /** The ring has been sent exactly the first items of the source. */
  ghost predicate RingOK(s: State, c: Setup)
  {
    && Spsc.Inv(s.ring, c.width)
    && |s.ring.sent| == s.consumed + (if s.stage.Confirming? then 1 else 0) <= |c.source|
    && s.ring.sent == c.source[..|s.ring.sent|]
    && (s.ring.producer.Filling? ==> s.stage.Pushing? && s.ring.producer.value == s.stage.item)
  }

  ghost predicate Inv(s: State, c: Setup)
  {
    Shaped(s, c) && SlotsOK(s, c) && WriterOK(s, c) && ReaderOK(s, c) && RingOK(s, c)
    && c.wait <= CAPACITY
  }

  /** The writer's slot is none of those that hold numbers not yet confirmed. */
  lemma CopyKeeps(s: State, c: Setup)
    requires Inv(s, c) && Enabled(s, c, CopyWord)
    ensures Inv(WriterStep(s, c, CopyWord), c)
  {
    hide Spsc.Inv, Spsc.Shaped, RingOK, ReaderOK;
    var s' := WriterStep(s, c, CopyWord);
    SameRest(s, s', c);
  }

  lemma StampKeeps(s: State, c: Setup)
    requires Inv(s, c) && Enabled(s, c, Stamp)
    ensures Inv(WriterStep(s, c, Stamp), c)
  {
    hide Spsc.Inv, Spsc.Shaped, RingOK, ReaderOK;
    var s' := WriterStep(s, c, Stamp);
    SameRest(s, s', c);
  }

  lemma SameRest(s: State, s': State, c: Setup)
    requires ReaderOK(s, c) && RingOK(s, c)
    requires s' == s.(slots := s'.slots, writer := s'.writer)
    ensures ReaderOK(s', c) && RingOK(s', c)
  {
  }

  lemma WriterKeeps(s: State, c: Setup, a: Action)
    requires Inv(s, c) && Enabled(s, c, a)
    requires a.WaitForRoom? || a.CopyWord? || a.Stamp? || a.Announce?
    ensures Inv(WriterStep(s, c, a), c)
  {
    hide Spsc.Inv, Spsc.Shaped;
    if a.CopyWord? {
      CopyKeeps(s, c);
    } else if a.Stamp? {
      StampKeeps(s, c);
    }
  }

  /**
   The reader may attach before, between or after the first publications: no more than the wait allows
   can have been published by then, so it starts at number zero all the same.
   */
  lemma AttachKeeps(s: State, c: Setup)
    requires Inv(s, c) && s.stage.Attaching?
    ensures s.sequence <= c.wait && Attach(s.published, false) == Reader(0, 0)
    ensures Inv(ReaderStep(s, c, AttachReader), c)
  {
    hide Spsc.Inv, Spsc.Shaped;
  }

  lemma PollKeeps(s: State, c: Setup)
    requires Inv(s, c) && Enabled(s, c, Poll)
    ensures Inv(ReaderStep(s, c, Poll), c)
    ensures s.published != NO_SEQUENCE ==> CatchUp(s.reader, s.published) == s.reader
  {
    hide Spsc.Inv, Spsc.Shaped;
  }

  /** The slot the reader looks at is the one it wants, before, during and after the copy. */
  lemma ReadKeeps(s: State, c: Setup, a: Action)
    requires Inv(s, c) && Enabled(s, c, a) && (a.Check? || a.LoadWord? || a.Recheck?)
    ensures Inv(ReaderStep(s, c, a), c)
    ensures s.slots[Slot(s.reader.next)] == ShmSlot(s.reader.next, c.source[s.reader.next])
  {
    hide Spsc.Inv, Spsc.Shaped;
    assert s.slots[Slot(s.reader.next)] == ShmSlot(s.reader.next, c.source[s.reader.next]);
  }

  lemma SameShm(s: State, s': State, c: Setup)
    requires SlotsOK(s, c) && WriterOK(s, c)
    requires s' == s.(reader := s'.reader, stage := s'.stage, ring := s'.ring)
    ensures SlotsOK(s', c) && WriterOK(s', c)
  {
  }

  lemma RingShaped(r: Spsc.Ring, width: nat)
    requires Spsc.Inv(r, width)
    ensures Spsc.Shaped(r, width)
  {
  }

  lemma PushKeeps(s: State, c: Setup, push: Spsc.Action)
    requires Inv(s, c) && Enabled(s, c, PushStep(push))
    ensures Inv(ReaderStep(s, c, PushStep(push)), c)
  {
    hide Spsc.Inv, Spsc.Shaped, SlotsOK, WriterOK;
    var s' := ReaderStep(s, c, PushStep(push));
    Spsc.StepKeeps(s.ring, c.width, push);
    RingShaped(s'.ring, c.width);
    SameShm(s, s', c);
    if push.Publish? {
      assert c.source[..|s'.ring.sent|] == c.source[..|s.ring.sent|] + [c.source[|s.ring.sent|]];
    }
  }

  lemma BookKeeps(s: State, c: Setup, pop: Spsc.Action)
    requires Inv(s, c) && Enabled(s, c, BookStep(pop))
    ensures Inv(s.(ring := Spsc.Step(s.ring, c.width, pop)), c)
  {
    hide Spsc.Inv, Spsc.Shaped, SlotsOK, WriterOK;
    var s' := s.(ring := Spsc.Step(s.ring, c.width, pop));
    Spsc.StepKeeps(s.ring, c.width, pop);
    RingShaped(s'.ring, c.width);
    SameShm(s, s', c);
  }

  lemma ConfirmKeeps(s: State, c: Setup)
    requires Inv(s, c) && Enabled(s, c, Confirm)
    ensures Inv(ReaderStep(s, c, Confirm), c)
  {
    hide Spsc.Inv, Spsc.Shaped;
  }

  /** Every step of every thread keeps the hand-off's invariant. */
  lemma StepKeeps(s: State, c: Setup, a: Action)
    requires Inv(s, c) && Enabled(s, c, a)
    ensures Inv(Step(s, c, a), c)
  {
    hide Inv, WriterStep, ReaderStep;
    InvShaped(s, c);
    match a {
      case WaitForRoom => WriterKeeps(s, c, a);
      case CopyWord => WriterKeeps(s, c, a);
      case Stamp => WriterKeeps(s, c, a);
      case Announce => WriterKeeps(s, c, a);
      case AttachReader => AttachKeeps(s, c);
      case Poll => PollKeeps(s, c);
      case Check => ReadKeeps(s, c, a);
      case LoadWord => ReadKeeps(s, c, a);
      case Recheck => ReadKeeps(s, c, a);
      case PushStep(push) => PushKeeps(s, c, push);
      case Confirm => ConfirmKeeps(s, c);
      case BookStep(pop) => BookKeeps(s, c, pop);
    }
  }

  lemma InvShaped(s: State, c: Setup)
    requires Inv(s, c)
    ensures Shaped(s, c)
  {
  }

  /**
   The reader's pieces are one try_read: polling in one state, checking the stamp in a second and checking
   it again in a third move the reader exactly as try_read does on what these three loads see.
   */
  lemma PiecesAreTryRead(s1: State, s2: State, s3: State, c: Setup)
    requires Shaped(s1, c) && Enabled(s1, c, Poll) && s1.published != NO_SEQUENCE && s1.reader.next <= s1.published
    requires Shaped(s2, c) && s2.stage == Checking && s2.reader == ReaderStep(s1, c, Poll).reader
    requires Shaped(s3, c) && Enabled(s3, c, Recheck) && s3.reader == s2.reader
    ensures var slot := Slot(s2.reader.next);
            var before, after := s2.slots[slot].sequence, s3.slots[slot].sequence;
            var o := TryRead(s1.reader, Loads(s1.published, before, after));
            && ReaderStep(s1, c, Poll).stage == Checking
            && (before != s2.reader.next ==>
                  && ReaderStep(s2, c, Check).reader == o.reader && ReaderStep(s2, c, Check).stage == Polling
                  && !o.delivered.Some?)
            && (before == s2.reader.next ==>
                  && ReaderStep(s2, c, Check) == s2.(stage := Loading([]))
                  && ReaderStep(s3, c, Recheck).reader == o.reader
                  && (ReaderStep(s3, c, Recheck).stage == Pushing(s3.stage.copy) <==> o.delivered.Some?))
  {
    hide Spsc.Shaped;
  }

  lemma WriterShaped(s: State, c: Setup, a: Action)
    requires Shaped(s, c) && Enabled(s, c, a) && (a.WaitForRoom? || a.CopyWord? || a.Stamp? || a.Announce?)
    ensures Shaped(WriterStep(s, c, a), c)
  {
    hide Spsc.Shaped;
  }

  lemma ReaderShaped(s: State, c: Setup, a: Action)
    requires Shaped(s, c) && Enabled(s, c, a)
    requires a.AttachReader? || a.Poll? || a.Check? || a.LoadWord? || a.Recheck? || a.PushStep? || a.Confirm?
    ensures Shaped(ReaderStep(s, c, a), c)
  {
    hide Spsc.Shaped, Spsc.Step, Spsc.Enabled;
    if a.PushStep? {
      Spsc.StepShaped(s.ring, c.width, a.push);
    } else if a.Check? || a.Recheck? {
      assert InRange(s.slots[Slot(s.reader.next)].sequence, c);
    }
  }

  /** Whatever the wait, every step stays within types and ranges. */
  lemma StepShaped(s: State, c: Setup, a: Action)
    requires Shaped(s, c) && Enabled(s, c, a)
    ensures Shaped(Step(s, c, a), c)
  {
    hide WriterStep, ReaderStep, Spsc.Shaped, Spsc.Step;
    if a.BookStep? {
      Spsc.StepShaped(s.ring, c.width, a.pop);
    } else if a.WaitForRoom? || a.CopyWord? || a.Stamp? || a.Announce? {
      WriterShaped(s, c, a);
    } else {
      ReaderShaped(s, c, a);
    }
  }

  /** Any interleaving of the three threads: each scheduled step is taken if it is possible then. */
  ghost function Interleave(s: State, c: Setup, schedule: seq<Action>): State
    requires Shaped(s, c)
    decreases |schedule|
  {
    if schedule == [] then s
    else if Enabled(s, c, schedule[0]) then
      StepShaped(s, c, schedule[0]);
      Interleave(Step(s, c, schedule[0]), c, schedule[1..])
    else Interleave(s, c, schedule[1..])
  }

  /** Before anything runs: nothing published, and the reader not yet attached. */
  ghost predicate Initial(s: State, c: Setup)
  {
    && Shaped(s, c) && (forall i :: 0 <= i < |s.slots| ==> s.slots[i].sequence == NO_SEQUENCE)
    && s.published == NO_SEQUENCE && s.consumed == s.sequence == 0 && s.writer == Waiting
    && s.reader == Reader(0, 0) && s.stage == Attaching && Spsc.Initial(s.ring, c.width)
  }

  lemma InitialHolds(s: State, c: Setup)
    requires Initial(s, c) && c.wait <= CAPACITY
    ensures Inv(s, c)
  {
    Spsc.InitialHolds(s.ring, c.width);
  }

  /**
   The back-pressure theorem. With a wait of at most the capacity, under every interleaving: the reader never drops a
   number, what it has copied of an item is what was written, and the book thread has received exactly
   the first items of the source, in order; when the ring is drained and everything is confirmed, all.
   */
  lemma {:induction false} BookReceivesSource(s: State, c: Setup, schedule: seq<Action>)
    requires Inv(s, c)
    ensures var s' := Interleave(s, c, schedule);
            && Inv(s', c) && s'.reader.dropped == 0
            && s'.ring.received <= c.source && s.ring.received <= s'.ring.received
            && (s'.stage.Loading? ==> s'.stage.copy <= c.source[s'.reader.next])
            && (s'.consumed == |c.source| && s'.ring.published == s'.ring.tail ==> s'.ring.received == c.source)
    decreases |schedule|
  {
    hide Step, Interleave, Inv;
    InvShaped(s, c);
    if schedule == [] {
      Received(s, c);
      InterleaveDone(s, c);
    } else {
      InterleaveNext(s, c, schedule);
      if Enabled(s, c, schedule[0]) {
        StepKeeps(s, c, schedule[0]);
        ReceivedGrows(s, c, schedule[0]);
        BookReceivesSource(Step(s, c, schedule[0]), c, schedule[1..]);
      } else {
        BookReceivesSource(s, c, schedule[1..]);
      }
    }
  }

  lemma InterleaveDone(s: State, c: Setup)
    requires Shaped(s, c)
    ensures Interleave(s, c, []) == s
  {
  }

  lemma InterleaveNext(s: State, c: Setup, schedule: seq<Action>)
    requires Shaped(s, c) && schedule != []
    ensures if Enabled(s, c, schedule[0]) then
              Shaped(Step(s, c, schedule[0]), c)
              && Interleave(s, c, schedule) == Interleave(Step(s, c, schedule[0]), c, schedule[1..])
            else Interleave(s, c, schedule) == Interleave(s, c, schedule[1..])
  {
    if Enabled(s, c, schedule[0]) {
      StepShaped(s, c, schedule[0]);
    }
  }

  lemma Received(s: State, c: Setup)
    requires Inv(s, c)
    ensures s.reader.dropped == 0 && s.ring.received <= c.source
    ensures s.stage.Loading? ==> 0 <= s.reader.next < |c.source| && s.stage.copy <= c.source[s.reader.next]
    ensures s.consumed == |c.source| && s.ring.published == s.ring.tail ==> s.ring.received == c.source
  {
    Spsc.GivesUpIff(s.ring, c.width);
    if s.consumed == |c.source| && s.ring.published == s.ring.tail {
      assert s.ring.sent == c.source[..|s.ring.sent|];
      assert c.source[..|c.source|] == c.source;
    }
  }

  lemma ReceivedGrows(s: State, c: Setup, a: Action)
    requires Inv(s, c) && Enabled(s, c, a)
    ensures s.ring.received <= Step(s, c, a).ring.received
  {
  }

  // ---- The exact wait ----

  /** An item handed on is the source's item of its number, and so is everything sent and received. */
  ghost predicate Intact(s: State, c: Setup)
  {
    && (s.stage.Pushing? ==> 0 < s.reader.next <= |c.source| && s.stage.item == c.source[s.reader.next - 1])
    && s.ring.sent <= c.source && s.ring.received <= c.source
  }

  /** No run of any source from the start ever hands on a torn item. */
  ghost predicate AlwaysIntact(wait: nat)
  {
    forall s, c, schedule :: Initial(s, c) && c.wait == wait ==> Intact(Interleave(s, c, schedule), c)
  }

  lemma InvIntact(s: State, c: Setup)
    requires Inv(s, c)
    ensures Intact(s, c)
  {
    Spsc.InvShaped(s.ring, c.width);
  }

  lemma {:induction false} InterleaveAdds(s: State, c: Setup, a: seq<Action>, b: seq<Action>)
    requires Shaped(s, c)
    ensures Shaped(Interleave(s, c, a), c) && Interleave(s, c, a + b) == Interleave(Interleave(s, c, a), c, b)
    decreases |a|
  {
    hide Step, Shaped;
    if a == [] {
      assert a + b == b;
      InterleaveDone(s, c);
    } else {
      assert (a + b)[1..] == a[1..] + b;
      InterleaveNext(s, c, a);
      InterleaveNext(s, c, a + b);
      InterleaveAdds(if Enabled(s, c, a[0]) then Step(s, c, a[0]) else s, c, a[1..], b);
    }
  }

  /** One turn of the publishing loop for two-word items. */
  const PUBLISH: seq<Action> := [WaitForRoom, CopyWord, CopyWord, Stamp, Announce]

  ghost function Published(s: State, c: Setup): State
    requires s.sequence < |c.source| && |s.slots| == CAPACITY
  {
    s.(slots := s.slots[Slot(s.sequence) := ShmSlot(s.sequence, c.source[s.sequence])],
       published := s.sequence, sequence := s.sequence + 1)
  }

  /** Both words of the writer's item, before it is stamped. */
  ghost function Overwritten(s: State, c: Setup): State
    requires s.sequence < |c.source| && |s.slots| == CAPACITY
  {
    var i := Slot(s.sequence);
    s.(slots := s.slots[i := ShmSlot(s.slots[i].sequence, c.source[s.sequence])], writer := Copying(2))
  }

  lemma CopyTurn(s: State, c: Setup)
    requires Shaped(s, c) && c.width == 2 && s.writer == Waiting && s.sequence < |c.source|
    requires s.sequence < s.consumed + c.wait
    ensures Interleave(s, c, [WaitForRoom, CopyWord, CopyWord]) == Overwritten(s, c) && Shaped(Overwritten(s, c), c)
  {
    hide Spsc.Shaped;
    var i := Slot(s.sequence);
    var s1 := WriterStep(s, c, WaitForRoom);
    InterleaveNext(s, c, [WaitForRoom, CopyWord, CopyWord]);
    assert [WaitForRoom, CopyWord, CopyWord][1..] == [CopyWord, CopyWord];
    InterleaveNext(s1, c, [CopyWord, CopyWord]);
    var s2 := WriterStep(s1, c, CopyWord);
    assert [CopyWord, CopyWord][1..] == [CopyWord];
    InterleaveNext(s2, c, [CopyWord]);
    var s3 := WriterStep(s2, c, CopyWord);
    assert [CopyWord][1..] == [];
    InterleaveDone(s3, c);
    assert s3.slots[i].words == c.source[s.sequence];
  }

  lemma PublishTurn(s: State, c: Setup)
    requires Shaped(s, c) && c.width == 2 && s.writer == Waiting && s.sequence < |c.source|
    requires s.sequence < s.consumed + c.wait
    ensures Interleave(s, c, PUBLISH) == Published(s, c) && Shaped(Published(s, c), c)
  {
    hide Spsc.Shaped;
    CopyTurn(s, c);
    assert PUBLISH == [WaitForRoom, CopyWord, CopyWord] + [Stamp, Announce];
    InterleaveAdds(s, c, [WaitForRoom, CopyWord, CopyWord], [Stamp, Announce]);
    var s3 := Overwritten(s, c);
    InterleaveNext(s3, c, [Stamp, Announce]);
    var s4 := WriterStep(s3, c, Stamp);
    assert [Stamp, Announce][1..] == [Announce];
    InterleaveNext(s4, c, [Announce]);
    var s5 := WriterStep(s4, c, Announce);
    assert [Announce][1..] == [];
    InterleaveDone(s5, c);
    StepShaped(s4, c, Announce);
  }

  function PublishAll(n: nat): seq<Action> {
    if n == 0 then [] else PublishAll(n - 1) + PUBLISH
  }

  /** The first n numbers published while nobody has read any. */
  ghost predicate Ahead(s: State, c: Setup, n: nat, s0: State)
  {
    && Shaped(s, c) && s == s0.(slots := s.slots, published := s.published, sequence := n)
    && s.published == (if n == 0 then NO_SEQUENCE else n - 1)
    && forall k :: 0 <= k < n && k < |c.source| && k < |s.slots| ==> s.slots[k] == ShmSlot(k, c.source[k])
  }

  lemma {:induction false} PublishRun(s0: State, c: Setup, n: nat)
    requires Initial(s0, c) && c.width == 2 && n <= |c.source| && n <= CAPACITY && n <= c.wait
    ensures Ahead(Interleave(s0, c, PublishAll(n)), c, n, s0)
  {
    hide Spsc.Shaped, Spsc.Initial;
    if n == 0 {
      InterleaveDone(s0, c);
    } else {
      PublishRun(s0, c, n - 1);
      InterleaveAdds(s0, c, PublishAll(n - 1), PUBLISH);
      PublishTurn(Interleave(s0, c, PublishAll(n - 1)), c);
    }
  }

  /** Attach at number zero, check its slot and copy the first word; then the rest after an overwrite. */
  lemma ReaderHalf(s: State, c: Setup)
    requires Shaped(s, c) && c.width == 2 && s.stage == Attaching && s.published == CAPACITY - 1 && |c.source| > 0
    requires s.slots[0] == ShmSlot(0, c.source[0])
    ensures Interleave(s, c, [AttachReader, Poll, Check, LoadWord])
            == s.(reader := Reader(0, 0), stage := Loading([c.source[0][0]]))
    ensures Shaped(s.(reader := Reader(0, 0), stage := Loading([c.source[0][0]])), c)
  {
    hide Spsc.Shaped;
    var s1 := ReaderStep(s, c, AttachReader);
    InterleaveNext(s, c, [AttachReader, Poll, Check, LoadWord]);
    assert [AttachReader, Poll, Check, LoadWord][1..] == [Poll, Check, LoadWord];
    var s2 := ReaderStep(s1, c, Poll);
    InterleaveNext(s1, c, [Poll, Check, LoadWord]);
    assert [Poll, Check, LoadWord][1..] == [Check, LoadWord];
    var s3 := ReaderStep(s2, c, Check);
    InterleaveNext(s2, c, [Check, LoadWord]);
    assert [Check, LoadWord][1..] == [LoadWord];
    var s4 := ReaderStep(s3, c, LoadWord);
    InterleaveNext(s3, c, [LoadWord]);
    assert [LoadWord][1..] == [];
    InterleaveDone(s4, c);
    StepShaped(s3, c, LoadWord);
  }

  lemma ReaderRest(s: State, c: Setup)
    requires Shaped(s, c) && c.width == 2 && s.reader == Reader(0, 0) && s.slots[0].sequence == 0
    requires s.stage.Loading? && |s.stage.copy| == 1
    ensures Interleave(s, c, [LoadWord, Recheck])
            == s.(reader := Reader(1, 0), stage := Pushing(s.stage.copy + [s.slots[0].words[1]]))
  {
    hide Spsc.Shaped;
    var s1 := ReaderStep(s, c, LoadWord);
    InterleaveNext(s, c, [LoadWord, Recheck]);
    assert [LoadWord, Recheck][1..] == [Recheck];
    var s2 := ReaderStep(s1, c, Recheck);
    InterleaveNext(s1, c, [Recheck]);
    assert [Recheck][1..] == [];
    InterleaveDone(s2, c);
  }

  /**
   The run that tears: a whole capacity is published, the reader attaches and copies the first word of
   item zero, the writer overwrites both words before stamping, and the reader copies the second word.
   Both stamp checks pass.
   */
  const TEAR: seq<Action> :=
    PublishAll(CAPACITY) + [AttachReader, Poll, Check, LoadWord] + [WaitForRoom, CopyWord, CopyWord]
    + [LoadWord, Recheck]

  lemma TornRun(s0: State, c: Setup)
    requires Initial(s0, c) && c.width == 2 && |c.source| > CAPACITY && c.wait > CAPACITY
    ensures var s := Interleave(s0, c, TEAR);
            s.stage == Pushing([c.source[0][0], c.source[CAPACITY][1]]) && s.reader == Reader(1, 0)
  {
    hide Spsc.Shaped, Spsc.Initial;
    var part0, part1, part2, part3 :=
      PublishAll(CAPACITY), [AttachReader, Poll, Check, LoadWord], [WaitForRoom, CopyWord, CopyWord],
      [LoadWord, Recheck];
    PublishRun(s0, c, CAPACITY);
    InterleaveAdds(s0, c, part0 + part1 + part2, part3);
    InterleaveAdds(s0, c, part0 + part1, part2);
    InterleaveAdds(s0, c, part0, part1);
    var s1 := Interleave(s0, c, part0);
    ReaderHalf(s1, c);
    var s2 := s1.(reader := Reader(0, 0), stage := Loading([c.source[0][0]]));
    CopyTurn(s2, c);
    var s3 := Overwritten(s2, c);
    ReaderRest(s3, c);
  }

  lemma TearableSetup(wait: nat) returns (s: State, c: Setup)
    ensures Initial(s, c) && c.wait == wait && c.width == 2 && |c.source| > CAPACITY
    ensures c.source[0][1] != c.source[CAPACITY][1]
  {
    c := Setup(seq(CAPACITY + 1, i => [i, i]), 2, wait);
    var slots := seq(CAPACITY, _ => ShmSlot(NO_SEQUENCE, [0, 0]));
    var ring := Spsc.Ring([[0, 0], [0, 0]], 0, 0, 0, Spsc.ProducerIdle, Spsc.ConsumerIdle, [], []);
    s := State(slots, NO_SEQUENCE, 0, Waiting, 0, Reader(0, 0), Attaching, ring);
  }

  /**
   The wait is exactly right up to the capacity: no run hands on a torn item if and only if the writer
   is never more than a capacity past the confirmed count. The code's bound is one below that.
   */
  lemma WaitExact(wait: nat)
    ensures AlwaysIntact(wait) <==> wait <= CAPACITY
  {
    hide Intact;
    if wait <= CAPACITY {
      forall s, c, schedule | Initial(s, c) && c.wait == wait
        ensures Intact(Interleave(s, c, schedule), c)
      {
        InitialHolds(s, c);
        BookReceivesSource(s, c, schedule);
        InvIntact(Interleave(s, c, schedule), c);
      }
    } else {
      var s, c := TearableSetup(wait);
      TornRun(s, c);
      NotIntact(Interleave(s, c, TEAR), c);
    }
  }

  /** The publishing loop's own bound is safe, with one number to spare. */
  lemma LoopIsIntact()
    ensures AlwaysIntact(WAIT) && AlwaysIntact(WAIT + 1) && !AlwaysIntact(WAIT + 2)
  {
    WaitExact(WAIT);
    WaitExact(WAIT + 1);
    WaitExact(WAIT + 2);
  }

  lemma NotIntact(s: State, c: Setup)
    requires |c.source| > CAPACITY && |c.source[0]| == |c.source[CAPACITY]| == 2
    requires c.source[0][1] != c.source[CAPACITY][1]
    requires s.stage == Pushing([c.source[0][0], c.source[CAPACITY][1]]) && s.reader == Reader(1, 0)
    ensures !Intact(s, c)
  {
    assert s.stage.item[1] != c.source[0][1];
  }

  /** No deadlock: until the book thread has everything, some thread can take a step that changes the state. */
  lemma NeverStuck(s: State, c: Setup) returns (a: Action)
    requires Inv(s, c) && c.wait > 0 && s.ring.received != c.source
    ensures Enabled(s, c, a) && Step(s, c, a) != s
  {
    var r := s.ring;
    Spsc.GivesUpIff(r, c.width);
    if r.consumer.Reading? {
      a := BookStep(if |r.consumer.copy| < c.width then Spsc.ReadWord else Spsc.Release);
    } else if r.tail != r.published {
      a := BookStep(Spsc.TryPop);
    } else if s.stage.Pushing? {
      a := PushStep(if r.producer.ProducerIdle? then Spsc.TryPush(s.stage.item)
                    else if r.producer.done < c.width then Spsc.FillWord else Spsc.Publish);
    } else if s.stage.Confirming? {
      a := Confirm;
    } else if s.stage.Attaching? {
      a := AttachReader;
    } else {
      a := ReaderOrWriterMoves(s, c);
    }
  }

  lemma ReaderOrWriterMoves(s: State, c: Setup) returns (a: Action)
    requires Inv(s, c) && c.wait > 0 && s.ring.received != c.source && |s.ring.received| == |s.ring.sent|
    requires s.stage.Polling? || s.stage.Checking? || s.stage.Loading?
    ensures Enabled(s, c, a) && Step(s, c, a) != s
  {
    if s.stage.Checking? {
      assert s.slots[Slot(s.reader.next)] == ShmSlot(s.reader.next, c.source[s.reader.next]);
      a := Check;
    } else if s.stage.Loading? {
      a := if |s.stage.copy| < c.width then LoadWord else Recheck;
    } else {
      assert c.source[..|c.source|] == c.source;
      assert s.ring.received == c.source[..s.reader.next];
      if s.reader.next < s.sequence {
        a := Poll;
      } else {
        a := if s.writer.Waiting? then WaitForRoom else if s.writer.Announcing? then Announce
             else if s.writer.done < c.width then CopyWord else Stamp;
      }
    }
  }
}
