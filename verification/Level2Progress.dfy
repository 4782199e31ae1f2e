/** The hand-off cannot run in circles: every step that changes anything is one step nearer to the end. */
module Level2Progress {
  import opened Level2
  import Spsc

  /** Steps of k whole items at `unit` steps each. */
  function Turns(k: nat, unit: nat): nat {
    if k == 0 then 0 else Turns(k - 1, unit) + unit
  }

  lemma {:induction false} TurnsGrow(j: nat, k: nat, unit: nat)
    requires j <= k
    ensures Turns(j, unit) <= Turns(k, unit)
  {
    if j < k {
      TurnsGrow(j, k - 1, unit);
    }
  }

  function WriterUnit(width: nat): nat {
    width + 3
  }

  function ReaderUnit(width: nat): nat {
    2 * width + 6
  }

  function BookUnit(width: nat): nat {
    width + 2
  }

  /** How far the writer is with its item. */
  function WriterPart(w: Writer, width: nat): nat {
    match w
    case Waiting => 0
    case Copying(done) => 1 + done
    case Announcing => width + 2
  }

  /** How far the reader is with its item, from the poll to the confirmation. */
  function ReaderPart(s: State, width: nat): nat {
    match s.stage
    case Attaching => 0
    case Polling => 0
    case Checking => 1
    case Loading(copy) => 2 + |copy|
    case Pushing(_) => width + 3 + if s.ring.producer.Filling? then 1 + s.ring.producer.done else 0
    case Confirming => 2 * width + 5
  }

  function BookPart(consumer: Spsc.Consumer): nat {
    if consumer.Reading? then 1 + |consumer.copy| else 0
  }

  /** Steps taken so far, counted from the state alone. */
  function Taken(s: State, width: nat): nat {
    Turns(s.sequence, WriterUnit(width)) + WriterPart(s.writer, width)
    + Turns(s.consumed, ReaderUnit(width)) + ReaderPart(s, width) + (if s.stage.Attaching? then 0 else 1)
    + Turns(|s.ring.received|, BookUnit(width)) + BookPart(s.ring.consumer)
  }

  /** Steps of a complete hand-over. */
  function Whole(c: Setup): nat {
    Turns(|c.source|, WriterUnit(c.width)) + Turns(|c.source|, ReaderUnit(c.width)) + 1
    + Turns(|c.source|, BookUnit(c.width))
  }

  lemma PartFits(k: nat, n: nat, part: nat, unit: nat)
    requires k <= n && part <= unit && (part > 0 ==> k < n)
    ensures Turns(k, unit) + part <= Turns(n, unit)
  {
    TurnsGrow(k, n, unit);
    if part > 0 {
      TurnsGrow(k + 1, n, unit);
    }
  }

  lemma NeverTooMany(s: State, c: Setup)
    requires Inv(s, c)
    ensures Taken(s, c.width) <= Whole(c)
  {
    hide Turns, SlotsOK, WriterOK, Spsc.SlotOf;
    InRanges(s, c);
    PartFits(s.sequence, |c.source|, WriterPart(s.writer, c.width), WriterUnit(c.width));
    PartFits(s.consumed, |c.source|, ReaderPart(s, c.width), ReaderUnit(c.width));
    PartFits(|s.ring.received|, |c.source|, BookPart(s.ring.consumer), BookUnit(c.width));
  }

  lemma InRanges(s: State, c: Setup)
    requires Inv(s, c)
    ensures Shaped(s, c) && s.consumed <= s.sequence <= |c.source| && (s.writer != Waiting ==> s.sequence < |c.source|)
    ensures s.ring.consumer.Reading? ==> |s.ring.received| < |s.ring.sent|
    ensures |s.ring.received| <= |s.ring.sent| <= |c.source|
    ensures !s.stage.Attaching? && !s.stage.Polling? ==> s.consumed < |c.source|
    ensures s.ring.producer.Filling? ==> s.stage.Pushing? && s.ring.producer.done <= c.width
    ensures s.ring.consumer.Reading? ==> |s.ring.consumer.copy| <= c.width
  {
  }

  /** What is left to do. */
  ghost function Measure(s: State, c: Setup): nat
    requires Inv(s, c)
  {
    NeverTooMany(s, c);
    Whole(c) - Taken(s, c.width)
  }

  lemma WriterCounts(s: State, c: Setup, a: Action)
    requires Inv(s, c) && Enabled(s, c, a) && (a.WaitForRoom? || a.CopyWord? || a.Stamp? || a.Announce?)
    requires Step(s, c, a) != s
    ensures Taken(Step(s, c, a), c.width) == Taken(s, c.width) + 1
  {
    hide SlotsOK, WriterOK, RingOK, ReaderOK, Spsc.Inv, Spsc.Shaped, Spsc.Step, Spsc.Enabled, ReaderStep;
  }

  lemma ReaderCounts(s: State, c: Setup, a: Action)
    requires Inv(s, c) && Enabled(s, c, a)
    requires a.AttachReader? || a.Poll? || a.Check? || a.LoadWord? || a.Recheck? || a.Confirm?
    requires Step(s, c, a) != s
    ensures Taken(Step(s, c, a), c.width) == Taken(s, c.width) + 1
  {
    hide SlotsOK, WriterOK, RingOK, Spsc.Inv, Spsc.Shaped, Spsc.Step, Spsc.Enabled, WriterStep;
    InRanges(s, c);
    if a.Poll? {
      PollKeeps(s, c);
    } else if a.Check? || a.Recheck? {
      ReadKeeps(s, c, a);
    } else if a.AttachReader? {
      AttachKeeps(s, c);
    }
  }

  lemma RingCounts(s: State, c: Setup, a: Action)
    requires Inv(s, c) && Enabled(s, c, a) && (a.PushStep? || a.BookStep?) && Step(s, c, a) != s
    ensures Taken(Step(s, c, a), c.width) == Taken(s, c.width) + 1
  {
    hide SlotsOK, WriterOK, RingOK, Spsc.Inv, WriterStep;
    InRanges(s, c);
  }

  /** Every step that changes the state is exactly one of the steps of the hand-over. */
  lemma StepCounts(s: State, c: Setup, a: Action)
    requires Inv(s, c) && Enabled(s, c, a) && Step(s, c, a) != s
    ensures Taken(Step(s, c, a), c.width) == Taken(s, c.width) + 1
  {
    hide Inv, Step, Taken, Enabled;
    if a.PushStep? || a.BookStep? {
      RingCounts(s, c, a);
    } else if a.WaitForRoom? || a.CopyWord? || a.Stamp? || a.Announce? {
      WriterCounts(s, c, a);
    } else {
      ReaderCounts(s, c, a);
    }
  }

  lemma MeasureDrops(s: State, c: Setup, a: Action)
    requires Inv(s, c) && Enabled(s, c, a) && Step(s, c, a) != s
    ensures Inv(Step(s, c, a), c) && Measure(Step(s, c, a), c) == Measure(s, c) - 1
  {
    hide Inv, Step, Taken, Whole;
    InvShaped(s, c);
    StepKeeps(s, c, a);
    StepCounts(s, c, a);
  }

  /** The steps of a schedule that change the state. */
  ghost function Effective(s: State, c: Setup, schedule: seq<Action>): nat
    requires Shaped(s, c)
    decreases |schedule|
  {
    if schedule == [] then 0
    else if Enabled(s, c, schedule[0]) then
      StepShaped(s, c, schedule[0]);
      var s' := Step(s, c, schedule[0]);
      (if s' == s then 0 else 1) + Effective(s', c, schedule[1..])
    else Effective(s, c, schedule[1..])
  }

  /** No livelock: the effective steps of any run and what is then left add up to what was left before. */
  lemma {:induction false} EffectiveCounts(s: State, c: Setup, schedule: seq<Action>)
    requires Inv(s, c)
    ensures Shaped(s, c) && Inv(Interleave(s, c, schedule), c)
    ensures Effective(s, c, schedule) + Measure(Interleave(s, c, schedule), c) == Measure(s, c)
    decreases |schedule|
  {
    hide Inv, Step, Measure, Enabled;
    InvShaped(s, c);
    if schedule != [] {
      if Enabled(s, c, schedule[0]) {
        StepKeeps(s, c, schedule[0]);
        if Step(s, c, schedule[0]) != s {
          MeasureDrops(s, c, schedule[0]);
        }
        EffectiveCounts(Step(s, c, schedule[0]), c, schedule[1..]);
      } else {
        EffectiveCounts(s, c, schedule[1..]);
      }
    }
  }

  /**
   Delivery: while anything is missing at the book some step is effective, and a run that has taken all
   the effective steps that were left has delivered the whole source.
   */
  lemma EffectiveRunsDeliver(s: State, c: Setup, schedule: seq<Action>)
    requires Inv(s, c) && c.wait > 0
    ensures Shaped(s, c) && Effective(s, c, schedule) <= Measure(s, c)
    ensures Effective(s, c, schedule) == Measure(s, c) ==> Interleave(s, c, schedule).ring.received == c.source
  {
    hide Inv, Step, Measure, Enabled, Effective, Interleave;
    EffectiveCounts(s, c, schedule);
    var s' := Interleave(s, c, schedule);
    if Effective(s, c, schedule) == Measure(s, c) && s'.ring.received != c.source {
      var a := NeverStuck(s', c);
      InvShaped(s', c);
      MeasureDrops(s', c, a);
    }
  }

  /** From every reachable state some schedule finishes the hand-over, all of its steps effective. */
  lemma {:induction false} Finishes(s: State, c: Setup) returns (schedule: seq<Action>)
    requires Inv(s, c) && c.wait > 0
    ensures Shaped(s, c) && Interleave(s, c, schedule).ring.received == c.source
    ensures Effective(s, c, schedule) == |schedule| <= Measure(s, c)
    decreases Measure(s, c)
  {
    hide Inv, Step, Measure, Enabled;
    InvShaped(s, c);
    if s.ring.received == c.source {
      schedule := [];
    } else {
      var a := NeverStuck(s, c);
      MeasureDrops(s, c, a);
      var rest := Finishes(Step(s, c, a), c);
      schedule := [a] + rest;
      assert schedule[1..] == rest;
    }
  }
}
