/**
 The single-producer single-consumer ring as interleaved atomic steps. Items are copied word by word,
 so an item that is overwritten while it is read would show.
 */
module Spsc {
  type Word = nat
  type Item = seq<Word>

  datatype Producer =
    | ProducerIdle
    | Filling(value: Item, done: nat)

  datatype Consumer =
    | ConsumerIdle
    | Reading(copy: Item)

  /**
   `head` and `published` are written by the producer, `tail` by the consumer. `sent` and `received`
   are the items published and popped so far.
   */
  datatype Ring = Ring(buffer: seq<Item>, head: nat, published: nat, tail: nat,
                       producer: Producer, consumer: Consumer, sent: seq<Item>, received: seq<Item>)

  datatype Action =
    | TryPush(value: Item)
    | FillWord
    | Publish
    | TryPop
    | ReadWord
    | Release

  /** Incrementing and masking with a power-of-two capacity. */
  function After(slot: nat, capacity: nat): nat {
    if slot + 1 == capacity then 0 else slot + 1
  }

  /** Ring slot of the k-th item. */
  function SlotOf(k: nat, capacity: nat): (slot: nat)
    requires capacity > 0
    ensures slot < capacity
  {
    if k == 0 then 0 else After(SlotOf(k - 1, capacity), capacity)
  }

  predicate Shaped(r: Ring, width: nat) {
    && |r.buffer| >= 2 && r.head < |r.buffer| && r.published < |r.buffer| && r.tail < |r.buffer|
    && (forall i :: 0 <= i < |r.buffer| ==> |r.buffer[i]| == width)
    && (r.producer.Filling? ==> |r.producer.value| == width && r.producer.done <= width)
    && (r.consumer.Reading? ==> |r.consumer.copy| <= width)
  }

  /** The step is possible: the pieces of try_push and try_pop run in their order. */
  predicate Enabled(r: Ring, width: nat, a: Action) {
    match a
    case TryPush(value) => r.producer.ProducerIdle? && |value| == width
    case FillWord => r.producer.Filling? && r.producer.done < width
    case Publish => r.producer.Filling? && r.producer.done == width
    case TryPop => r.consumer.ConsumerIdle?
    case ReadWord => r.consumer.Reading? && |r.consumer.copy| < width
    case Release => r.consumer.Reading? && |r.consumer.copy| == width
  }

  /** One atomic step; try_push and try_pop give up when the load shows a full or an empty ring. */
  function Step(r: Ring, width: nat, a: Action): Ring
    requires Shaped(r, width) && Enabled(r, width, a)
  {
    var capacity := |r.buffer|;
    match a
    case TryPush(value) => if After(r.head, capacity) == r.tail then r else r.(producer := Filling(value, 0))
    case FillWord =>
      var p := r.producer;
      r.(buffer := r.buffer[r.head := r.buffer[r.head][p.done := p.value[p.done]]], producer := p.(done := p.done + 1))
    case Publish =>
      r.(head := After(r.head, capacity), published := After(r.head, capacity), producer := ProducerIdle,
         sent := r.sent + [r.producer.value])
    case TryPop => if r.tail == r.published then r else r.(consumer := Reading([]))
    case ReadWord =>
      var c := r.consumer;
      r.(consumer := Reading(c.copy + [r.buffer[r.tail][|c.copy|]]))
    case Release =>
      r.(tail := After(r.tail, capacity), consumer := ConsumerIdle, received := r.received + [r.consumer.copy])
  }

  lemma StepShaped(r: Ring, width: nat, a: Action)
    requires Shaped(r, width) && Enabled(r, width, a)
    ensures Shaped(Step(r, width, a), width)
  {
  }

  /** Two items fewer than a capacity apart never share a slot. */
  lemma {:induction false} SlotsApart(j: nat, k: nat, capacity: nat)
    requires j < k < j + capacity
    ensures SlotOf(j, capacity) != SlotOf(k, capacity)
    ensures SlotOf(k, capacity) == if SlotOf(j, capacity) + (k - j) < capacity then SlotOf(j, capacity) + (k - j)
                                   else SlotOf(j, capacity) + (k - j) - capacity
  {
    if k > j + 1 {
      SlotsApart(j, k - 1, capacity);
    }
  }

  lemma FullTurn(j: nat, capacity: nat)
    requires capacity >= 2
    ensures After(SlotOf(j + capacity - 1, capacity), capacity) == SlotOf(j, capacity)
  {
    SlotsApart(j, j + capacity - 1, capacity);
  }

  /** The next item of the producer is being filled in, word by word, outside the unread slots. */
  ghost predicate FillOK(r: Ring)
    requires 0 < |r.buffer|
  {
    r.producer.Filling? ==>
      && |r.sent| - |r.received| < |r.buffer| - 1
      && r.head < |r.buffer| && r.producer.done <= |r.producer.value| == |r.buffer[r.head]|
      && r.buffer[r.head][..r.producer.done] == r.producer.value[..r.producer.done]
  }

  /** The consumer's copy so far is the beginning of the item it is reading. */
  ghost predicate ReadOK(r: Ring)
  {
    r.consumer.Reading? ==> |r.received| < |r.sent| && r.consumer.copy <= r.sent[|r.received|]
  }

  /** At most capacity - 1 items are in flight, all intact in their slots, and what was popped was pushed, in order. */
  ghost predicate Inv(r: Ring, width: nat)
  {
    && Shaped(r, width)
    && r.head == r.published == SlotOf(|r.sent|, |r.buffer|) && r.tail == SlotOf(|r.received|, |r.buffer|)
    && |r.received| <= |r.sent| <= |r.received| + |r.buffer| - 1
    && r.received == r.sent[..|r.received|]
    && (forall k :: |r.received| <= k < |r.sent| ==> r.buffer[SlotOf(k, |r.buffer|)] == r.sent[k])
    && (forall k :: 0 <= k < |r.sent| ==> |r.sent[k]| == width)
    && FillOK(r) && ReadOK(r)
  }

  ghost predicate Initial(r: Ring, width: nat)
  {
    Shaped(r, width) && r.head == r.published == r.tail == 0 && r.producer.ProducerIdle?
    && r.consumer.ConsumerIdle? && r.sent == r.received == []
  }

  /** A push gives up exactly when capacity - 1 items are unread at the moment it looks; a pop when none is. */
  lemma GivesUpIff(r: Ring, width: nat)
    requires Inv(r, width)
    ensures After(r.head, |r.buffer|) == r.tail <==> |r.sent| - |r.received| == |r.buffer| - 1
    ensures r.tail == r.published <==> |r.sent| == |r.received|
  {
    var capacity, i, j := |r.buffer|, |r.received|, |r.sent|;
    if j - i == capacity - 1 {
      FullTurn(i, capacity);
    } else {
      assert SlotOf(j + 1, capacity) == After(SlotOf(j, capacity), capacity);
      SlotsApart(i, j + 1, capacity);
    }
    if i < j {
      SlotsApart(i, j, capacity);
    }
  }

  lemma FillKeeps(r: Ring, width: nat)
    requires Inv(r, width) && Enabled(r, width, FillWord)
    ensures Inv(Step(r, width, FillWord), width)
  {
    var capacity := |r.buffer|;
    var r' := Step(r, width, FillWord);
    forall k | |r.received| <= k < |r.sent|
      ensures r'.buffer[SlotOf(k, capacity)] == r.sent[k]
    {
      SlotsApart(k, |r.sent|, capacity);
    }
  }

  lemma PublishKeeps(r: Ring, width: nat)
    requires Inv(r, width) && Enabled(r, width, Publish)
    ensures Inv(Step(r, width, Publish), width)
  {
    var r' := Step(r, width, Publish);
    assert SlotOf(|r'.sent|, |r.buffer|) == After(SlotOf(|r.sent|, |r.buffer|), |r.buffer|);
    assert r.buffer[r.head] == r.producer.value;
  }

  lemma ReleaseKeeps(r: Ring, width: nat)
    requires Inv(r, width) && Enabled(r, width, Release)
    ensures Inv(Step(r, width, Release), width)
  {
    var r' := Step(r, width, Release);
    assert SlotOf(|r'.received|, |r.buffer|) == After(SlotOf(|r.received|, |r.buffer|), |r.buffer|);
    assert r.consumer.copy == r.sent[|r.received|];
  }

  lemma LookKeeps(r: Ring, width: nat, a: Action)
    requires Inv(r, width) && Enabled(r, width, a) && (a.TryPush? || a.TryPop?)
    ensures Inv(Step(r, width, a), width)
  {
    hide SlotOf;
    GivesUpIff(r, width);
  }

  lemma ReadKeeps(r: Ring, width: nat)
    requires Inv(r, width) && Enabled(r, width, ReadWord)
    ensures Inv(Step(r, width, ReadWord), width)
  {
    hide SlotOf;
  }

  /** Every step of either side keeps the ring's invariant. */
  lemma StepKeeps(r: Ring, width: nat, a: Action)
    requires Inv(r, width) && Enabled(r, width, a)
    ensures Inv(Step(r, width, a), width)
  {
    hide Inv, Step;
    InvShaped(r, width);
    match a {
      case TryPush(_) => LookKeeps(r, width, a);
      case FillWord => FillKeeps(r, width);
      case Publish => PublishKeeps(r, width);
      case TryPop => LookKeeps(r, width, a);
      case ReadWord => ReadKeeps(r, width);
      case Release => ReleaseKeeps(r, width);
    }
  }

  lemma InvShaped(r: Ring, width: nat)
    requires Inv(r, width)
    ensures Shaped(r, width) && r.received <= r.sent && |r.sent| - |r.received| <= |r.buffer| - 1
  {
  }

  /** A step only adds to what has been pushed and popped. */
  lemma StepGrows(r: Ring, width: nat, a: Action)
    requires Shaped(r, width) && Enabled(r, width, a)
    ensures var r' := Step(r, width, a); r.sent <= r'.sent && r.received <= r'.received && |r'.buffer| == |r.buffer|
  {
  }

  /** Any interleaving: each action of the schedule is taken if it is possible then. */
  ghost function Interleave(r: Ring, width: nat, schedule: seq<Action>): Ring
    requires Inv(r, width)
    decreases |schedule|
  {
    if schedule == [] then r
    else if Enabled(r, width, schedule[0]) then
      StepKeeps(r, width, schedule[0]);
      Interleave(Step(r, width, schedule[0]), width, schedule[1..])
    else Interleave(r, width, schedule[1..])
  }

  /** Under every interleaving the popped items are a prefix of the pushed ones, untorn. */
  lemma {:induction false} EveryInterleavingIsFifo(r: Ring, width: nat, schedule: seq<Action>)
    requires Inv(r, width)
    ensures var r' := Interleave(r, width, schedule);
            && Inv(r', width) && r'.received <= r'.sent && r.sent <= r'.sent && r.received <= r'.received
            && |r'.sent| - |r'.received| <= |r'.buffer| - 1 && |r'.buffer| == |r.buffer|
    decreases |schedule|
  {
    hide Inv, Step;
    InvShaped(r, width);
    if schedule != [] {
      if Enabled(r, width, schedule[0]) {
        StepKeeps(r, width, schedule[0]);
        StepGrows(r, width, schedule[0]);
        EveryInterleavingIsFifo(Step(r, width, schedule[0]), width, schedule[1..]);
      } else {
        EveryInterleavingIsFifo(r, width, schedule[1..]);
      }
    }
  }

  lemma InitialHolds(r: Ring, width: nat)
    requires Initial(r, width)
    ensures Inv(r, width)
  {
  }
}
