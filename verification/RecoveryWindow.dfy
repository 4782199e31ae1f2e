/** The bounded reorder window over a fixed array of slots, proved against the window on values. */
module RecoveryWindows {
  import opened Collections
  import opened Machine
  import opened MoldUdp64
  import opened Recovery
  import opened RecoveryLaws

  datatype Slot = Slot(bytes: Bytes, first: int, count: int, occupied: bool)

  const BLANK: Slot := Slot([], 0, 0, false)

  /** These bytes are this datagram. */
  ghost predicate Encodes(packet: Bytes, d: Datagram)
  {
    |packet| >= HEADER_BYTES && HeaderOf(packet) == d.header && Carries(packet, d.messages)
  }

  /** The datagram in a packet, if the parser accepts it. */
  ghost function Decode(packet: Bytes): (r: Option<Datagram>)
    ensures r.Some? ==> Encodes(packet, r.value)
    ensures r == None <==> !exists messages :: Carries(packet, messages)
  {
    if messages :| Carries(packet, messages) then Some(Datagram(HeaderOf(packet), messages)) else None
  }

  lemma DecodeIs(packet: Bytes, d: Datagram)
    requires Encodes(packet, d)
    ensures Decode(packet) == Some(d) && |packet| == SizeOf(d) && Parsed(d)
  {
    CarriesUnique(packet, d.messages, Decode(packet).value.messages);
    BlocksMeasured(d.messages);
  }

  lemma {:induction false} BlocksMeasured(messages: seq<Bytes>)
    ensures |Frames(messages)| == BlockBytes(messages)
  {
    if messages != [] {
      BlocksMeasured(messages[..|messages| - 1]);
    }
  }

  ghost predicate InSlot(s: Slot, d: Datagram)
  {
    Encodes(s.bytes, d) && Kind(d.header).Data? && s.first == d.header.first && s.count == d.header.count
  }

  /** First numbers of the occupied ones among the first n slots. */
  ghost function Firsts(ss: seq<Slot>, n: nat): set<int>
    requires n <= |ss|
  {
    if n == 0 then {} else Firsts(ss, n - 1) + if ss[n - 1].occupied then {ss[n - 1].first} else {}
  }

  lemma {:induction false} FirstsMember(ss: seq<Slot>, n: nat, f: int) returns (i: nat)
    requires n <= |ss| && f in Firsts(ss, n)
    ensures i < n && ss[i].occupied && ss[i].first == f
  {
    if ss[n - 1].occupied && ss[n - 1].first == f {
      i := n - 1;
    } else {
      i := FirstsMember(ss, n - 1, f);
    }
  }

  ghost predicate DistinctFirsts(ss: seq<Slot>)
  {
    forall i, j :: 0 <= i < j < |ss| && ss[i].occupied && ss[j].occupied ==> ss[i].first != ss[j].first
  }

  /** The occupied slots hold exactly the buffered datagrams, one slot each. */
  ghost predicate SlotsTied(ss: seq<Slot>, pending: map<int, Datagram>)
  {
    && (forall i :: 0 <= i < |ss| && ss[i].occupied ==> ss[i].first in pending && InSlot(ss[i], pending[ss[i].first]))
    && DistinctFirsts(ss) && Firsts(ss, |ss|) == pending.Keys
  }

  lemma NotBefore(ss: seq<Slot>, n: nat)
    requires DistinctFirsts(ss) && n < |ss|
    ensures ss[n].occupied ==> ss[n].first !in Firsts(ss, n)
  {
    if ss[n].occupied && ss[n].first in Firsts(ss, n) {
      var i := FirstsMember(ss, n, ss[n].first);
      assert false;
    }
  }

  lemma {:induction false} PrefixCount(ss: seq<Slot>, n: nat)
    requires DistinctFirsts(ss) && n <= |ss|
    ensures |Firsts(ss, n)| <= n && ((forall i :: 0 <= i < n ==> ss[i].occupied) <==> |Firsts(ss, n)| == n)
  {
    if n > 0 {
      PrefixCount(ss, n - 1);
      NotBefore(ss, n - 1);
      var before := Firsts(ss, n - 1);
      assert Firsts(ss, n) == before + if ss[n - 1].occupied then {ss[n - 1].first} else {};
      assert |Firsts(ss, n)| == |before| + if ss[n - 1].occupied then 1 else 0;
    }
  }

  /** There is a free slot exactly when fewer datagrams are buffered than there are slots. */
  lemma FreeSlotIff(ss: seq<Slot>, pending: map<int, Datagram>)
    requires SlotsTied(ss, pending)
    ensures |pending| <= |ss| && ((forall i :: 0 <= i < |ss| ==> ss[i].occupied) <==> |pending| == |ss|)
  {
    PrefixCount(ss, |ss|);
    assert |pending| == |pending.Keys|;
  }

  lemma {:induction false} FirstsUpdate(ss: seq<Slot>, i: nat, s: Slot, n: nat)
    requires i < |ss| && n <= |ss| && DistinctFirsts(ss) && (s.occupied ==> !ss[i].occupied)
    ensures var other := if ss[i].occupied && i < n then {ss[i].first} else {};
            var own := if s.occupied && i < n then {s.first} else {};
            Firsts(ss[i := s], n) == Firsts(ss, n) - other + own
  {
    if n > 0 {
      FirstsUpdate(ss, i, s, n - 1);
      if i == n - 1 && ss[i].occupied && ss[i].first in Firsts(ss, n - 1) {
        var k := FirstsMember(ss, n - 1, ss[i].first);
        assert false;
      }
    }
  }

  lemma StoreTied(ss: seq<Slot>, pending: map<int, Datagram>, i: nat, s: Slot, d: Datagram)
    requires SlotsTied(ss, pending) && i < |ss| && !ss[i].occupied
    requires s.occupied && InSlot(s, d) && s.first !in pending
    ensures SlotsTied(ss[i := s], pending[s.first := d]) && |pending[s.first := d]| == |pending| + 1
  {
    hide InSlot, Firsts;
    FirstsUpdate(ss, i, s, |ss|);
    assert pending[s.first := d].Keys == pending.Keys + {s.first};
  }

  lemma FreeTied(ss: seq<Slot>, pending: map<int, Datagram>, i: nat, s: Slot)
    requires SlotsTied(ss, pending) && i < |ss| && ss[i].occupied && !s.occupied
    ensures SlotsTied(ss[i := s], pending - {ss[i].first})
  {
    hide InSlot;
    FirstsUpdate(ss, i, s, |ss|);
  }

  /** Numbers announced by the high-water mark and by the first n slots. */
  ghost function KnownPrefix(ss: seq<Slot>, highWater: int, next: int, n: nat): set<int>
    requires n <= |ss|
  {
    (if highWater == 0 then {} else {highWater})
    + set i | 0 <= i < n && ss[i].occupied && ss[i].first > next :: ss[i].first
  }

  ghost predicate LeastOf(known: set<int>, e: int)
  {
    if known == {} then e == 0 else e in known && e != 0 && forall n :: n in known ==> e <= n
  }

  lemma KnownStep(ss: seq<Slot>, highWater: int, next: int, n: nat, e: int)
    requires n < |ss| && 0 <= next && LeastOf(KnownPrefix(ss, highWater, next, n), e)
    ensures var s := ss[n];
            LeastOf(KnownPrefix(ss, highWater, next, n + 1),
                    if !s.occupied || s.first <= next then e else if e == 0 || s.first < e then s.first else e)
  {
    var before, after := KnownPrefix(ss, highWater, next, n), KnownPrefix(ss, highWater, next, n + 1);
    if ss[n].occupied && ss[n].first > next {
      assert after == before + {ss[n].first};
    } else {
      assert after == before;
    }
  }

  lemma KnownAll(ss: seq<Slot>, w: Window, e: int)
    requires SlotsTied(ss, w.pending) && LeastOf(KnownPrefix(ss, w.highWater, w.next, |ss|), e)
    ensures Target(w) == if w.pendingEnd == None then e
                         else if e == 0 || w.pendingEnd.value < e then w.pendingEnd.value else e
  {
    hide InSlot, Target, Firsts;
    var known := KnownPrefix(ss, w.highWater, w.next, |ss|);
    AheadInSlots(ss, w);
    assert Known(w) == known + if w.pendingEnd.Some? then {w.pendingEnd.value} else {};
    TargetIs(w, if w.pendingEnd == None then e else if e == 0 || w.pendingEnd.value < e then w.pendingEnd.value else e);
  }

  lemma AheadInSlots(ss: seq<Slot>, w: Window)
    requires SlotsTied(ss, w.pending)
    ensures (set f | f in w.pending && f > w.next)
            == set i | 0 <= i < |ss| && ss[i].occupied && ss[i].first > w.next :: ss[i].first
  {
    hide InSlot;
    forall f | f in w.pending && f > w.next
      ensures f in set i | 0 <= i < |ss| && ss[i].occupied && ss[i].first > w.next :: ss[i].first
    {
      var i := FirstsMember(ss, |ss|, f);
    }
  }

  predicate SlotHolds(s: Slot, n: int) {
    s.occupied && s.first <= n < s.first + s.count
  }

  /** The candidate is the ready slot that starts last among the first n. */
  ghost predicate Candidate(ss: seq<Slot>, next: int, n: nat, c: Option<nat>)
    requires n <= |ss|
  {
    && (c.Some? ==> c.value < n && SlotHolds(ss[c.value], next))
    && forall i :: 0 <= i < n && SlotHolds(ss[i], next) ==> c.Some? && ss[i].first <= ss[c.value].first
  }

  lemma CandidatePicks(ss: seq<Slot>, w: Window, c: Option<nat>)
    requires SlotsTied(ss, w.pending) && Candidate(ss, w.next, |ss|, c)
    ensures Pick(w) == if c == None then None else Some(ss[c.value].first)
  {
    forall f | f in w.pending && Holds(w.pending[f], w.next)
      ensures c.Some? && f <= ss[c.value].first
    {
      var i := FirstsMember(ss, |ss|, f);
      assert InSlot(ss[i], w.pending[f]);
      assert SlotHolds(ss[i], w.next);
    }
    if c.Some? {
      assert InSlot(ss[c.value], w.pending[ss[c.value].first]);
      PickIs(w, ss[c.value].first);
    }
  }

  lemma VisitsAreTail(d: Datagram, from: int, visits: seq<Visit>, skip: nat, log: seq<Output>)
    requires WellSized(d) && Holds(d, from) && visits == Numbered(d.header.first, d.messages)
    requires skip == from - d.header.first
    requires |log| == |visits| - skip
    requires forall i :: 0 <= i < |log| ==> log[i] == Message(visits[skip + i].sequence, visits[skip + i].message)
    ensures log == Tail(d, from)
  {
    forall i | 0 <= i < |log|
      ensures log[i] == Tail(d, from)[i]
    {
      assert visits[skip + i] == Visit(from + i, Content(d, from + i));
    }
  }

  lemma PickHolds(w: Window, f: int)
    requires IsPick(w, f)
    ensures Holds(w.pending[f], w.next)
  {
  }

  /** One pass of the drain loop on values. */
  lemma DrainPass(w: Window)
    requires Sound(w)
    ensures Pick(w) == None ==> Recovery.Drain(w) == (w, [])
    ensures Pick(w).Some? ==>
              var f := Pick(w).value;
              && f in w.pending && IsPick(w, f) && Sound(Take(w, f)) && |(w.pending - {f})| < |w.pending|
              && WellSized(w.pending[f]) && Holds(w.pending[f], w.next)
              && var rest := Recovery.Drain(Take(w, f));
                 Recovery.Drain(w) == (rest.0, Tail(w.pending[f], w.next) + rest.1)
  {
    hide Tail;
    if Pick(w).Some? {
      var f := Pick(w).value;
      assert Stored(w, f);
      TakeSound(w, f);
      Smaller(w.pending, f);
    }
  }

  class RecoveryWindow {
    const maxDatagramBytes: nat
    const slots: array<Slot>
    const tracker: SequenceTracker
    var occupied: nat
    var gapHighWater: int
    var pendingEnd: int
    var hasPendingEnd: bool
    var requestOutstanding: bool
    ghost var pending: map<int, Datagram>

    ghost function Model(): Window
      reads this, tracker
    {
      Window(tracker.initialized, tracker.session, tracker.next, pending, gapHighWater,
             if hasPendingEnd then Some(pendingEnd) else None, requestOutstanding)
    }

    ghost predicate Tied()
      reads this, slots
    {
      SlotsTied(slots[..], pending) && occupied == |pending| && slots.Length > 0
    }

    ghost predicate Valid()
      reads this, tracker, slots
    {
      Tied() && Quiet(Model())
    }

    constructor (reorderSlots: nat, maxDatagramBytes: nat)
      requires reorderSlots > 0 && maxDatagramBytes >= HEADER_BYTES
      ensures Valid() && Model() == EMPTY_WINDOW && fresh(slots) && fresh(tracker)
      ensures slots.Length == reorderSlots && this.maxDatagramBytes == maxDatagramBytes
    {
      this.maxDatagramBytes := maxDatagramBytes;
      slots := new Slot[reorderSlots](_ => BLANK);
      tracker := new SequenceTracker();
      occupied, gapHighWater, pendingEnd, hasPendingEnd, requestOutstanding := 0, 0, 0, false, false;
      pending := map[];
      new;
      NoneOccupied(slots[..], |slots[..]|);
    }

    lemma IsQuiet()
      requires Valid()
      ensures Quiet(Model())
    {
    }

    /** Lowest number known to lie ahead, or zero. */
    method EarliestFutureSequence() returns (earliest: int)
      requires Tied() && Sound(Model())
      ensures earliest == Target(Model())
    {
      hide SlotsTied, Target;
      earliest := gapHighWater;
      ghost var ss := slots[..];
      for i := 0 to slots.Length
        invariant LeastOf(KnownPrefix(ss, gapHighWater, tracker.next, i), earliest)
      {
        KnownStep(ss, gapHighWater, tracker.next, i, earliest);
        var slot := slots[i];
        if slot.occupied && slot.first > tracker.next {
          earliest := if earliest == 0 || slot.first < earliest then slot.first else earliest;
        }
      }
      KnownAll(ss, Model(), earliest);
      if hasPendingEnd {
        earliest := if earliest == 0 || pendingEnd < earliest then pendingEnd else earliest;
      }
    }

    method IssueRequest() returns (log: seq<Output>)
      requires Tied() && Sound(Model())
      modifies this`requestOutstanding
      ensures Tied() && (Model(), log) == Ask(old(Model()))
    {
      hide SlotsTied, Target;
      var expected := tracker.next;
      var target := EarliestFutureSequence();
      if requestOutstanding || target <= expected {
        return [];
      }
      var distance := target - expected;
      var count := if distance < END_OF_SESSION - 1 then distance else END_OF_SESSION - 1;
      requestOutstanding := true;
      log := [Request(tracker.session, expected, count)];
    }

    method Store(packet: Bytes, h: Header, ghost d: Datagram) returns (status: Status)
      requires Tied() && Encodes(packet, d) && h == d.header && Kind(h).Data?
      modifies this`occupied, this`pending, slots
      ensures Tied() && (Model(), status) == Recovery.Store(old(Model()), slots.Length, maxDatagramBytes, d)
    {
      hide Carries, SizeOf, Stored, HeaderOf;
      DecodeIs(packet, d);
      var size := |packet|;
      if size > maxDatagramBytes || size > U16_MAX {
        return DatagramTooLarge;
      }
      ghost var ss := slots[..];
      for i := 0 to slots.Length
        invariant forall k :: 0 <= k < i && ss[k].occupied ==> ss[k].first != h.first
      {
        if slots[i].occupied && slots[i].first == h.first {
          return Duplicated;
        }
      }
      if h.first in pending {
        var i := FirstsMember(ss, |ss|, h.first);
        assert false;
      }
      for i := 0 to slots.Length
        invariant forall k :: 0 <= k < i ==> ss[k].occupied
        invariant slots[..] == ss && occupied == old(occupied) && pending == old(pending)
      {
        if !slots[i].occupied {
          FreeSlotIff(ss, pending);
          var slot := Slot(packet, h.first, h.count, true);
          StoreTied(ss, pending, i, slot, d);
          slots[i] := slot;
          assert slots[..] == ss[i := slot];
          pending := pending[h.first := d];
          occupied := occupied + 1;
          return BufferedGap;
        }
      }
      FreeSlotIff(ss, pending);
      return ReorderWindowFull;
    }

    /** Hand the unseen messages of a validated packet on and move past it. */
    method Process(packet: Bytes, h: Header, decision: Decision, ghost d: Datagram) returns (log: seq<Output>)
      requires Encodes(packet, d) && h == d.header && WellSized(d) && Holds(d, tracker.next) && End(d) <= U64_MAX
      requires decision == Judge(tracker.next, h)
      modifies tracker`next
      ensures tracker.next == End(d) && log == Tail(d, old(tracker.next))
    {
      JudgeBySpan(tracker.next, h);
      var parsed, visits := Parse(packet);
      assert Carries(packet, d.messages);
      log := [];
      for index := 0 to |visits|
        invariant |log| == if index < decision.skip then 0 else index - decision.skip
        invariant forall i :: 0 <= i < |log| ==>
                    log[i] == Message(visits[decision.skip + i].sequence, visits[decision.skip + i].message)
      {
        if index >= decision.skip {
          log := log + [Message(visits[index].sequence, visits[index].message)];
        }
      }
      VisitsAreTail(d, tracker.next, visits, decision.skip, log);
      tracker.Commit(h, decision);
    }

    method NextBufferedSlot() returns (candidate: Option<nat>)
      requires Tied()
      ensures candidate.Some? ==> candidate.value < slots.Length && slots[candidate.value].occupied
      ensures Pick(Model()) == if candidate == None then None else Some(slots[candidate.value].first)
    {
      hide SlotsTied, Pick;
      candidate := None;
      var expected := tracker.next;
      for i := 0 to slots.Length
        invariant Candidate(slots[..], expected, i, candidate)
      {
        var slot := slots[i];
        if slot.occupied {
          var end := slot.first + slot.count;
          if slot.first <= expected < end && (candidate == None || slot.first > slots[candidate.value].first) {
            candidate := Some(i);
          }
        }
      }
      CandidatePicks(slots[..], Model(), candidate);
    }

    /** Process and free the slot that holds the next number. */
    method TakeSlot(i: nat) returns (log: seq<Output>)
      requires Tied() && Sound(Model()) && tracker.initialized
      requires i < slots.Length && slots[i].occupied && Pick(Model()) == Some(slots[i].first)
      modifies this`occupied, this`pending, this`requestOutstanding, tracker, slots
      ensures Tied() && Sound(Model()) && tracker.initialized
      ensures Model() == Take(old(Model()), old(slots[i].first)) && IsPick(old(Model()), old(slots[i].first))
      ensures log == Tail(old(pending)[old(slots[i].first)], old(tracker.next))
    {
      hide Carries, SizeOf, Pick, Numbered, Tail, SpanEnd, IsPick, HeaderOf, Firsts, DistinctFirsts;
      var slot := slots[i];
      ghost var d, w := pending[slot.first], Model();
      assert Stored(w, slot.first) && IsPick(w, slot.first) && InSlot(slot, d);
      PickHolds(w, slot.first);
      TakeSound(w, slot.first);
      FreeTied(slots[..], pending, i, slot.(occupied := false));
      Smaller(pending, slot.first);
      var h := HeaderOf(slot.bytes);
      var decision := tracker.Inspect(h);
      log := Process(slot.bytes, h, decision, d);
      ghost var ss := slots[..];
      slots[i] := slot.(occupied := false);
      assert slots[..] == ss[i := slot.(occupied := false)];
      occupied := occupied - 1;
      pending := pending - {slot.first};
      requestOutstanding := false;
    }

    method DrainSlots() returns (log: seq<Output>)
      requires Tied() && Sound(Model()) && tracker.initialized
      modifies this`occupied, this`pending, this`requestOutstanding, tracker, slots
      ensures Tied() && Sound(Model()) && tracker.initialized
      ensures (Model(), log) == Recovery.Drain(old(Model()))
    {
      hide SlotsTied, Sound, Pick, Tail, Recovery.Drain, IsPick, Holds;
      log := [];
      var slot: Option<nat> := NextBufferedSlot();
      while slot.Some?
        invariant Tied() && Sound(Model()) && tracker.initialized
        invariant slot.Some? ==> slot.value < slots.Length && slots[slot.value].occupied
        invariant Pick(Model()) == if slot == None then None else Some(slots[slot.value].first)
        invariant Recovery.Drain(Model()).0 == Recovery.Drain(old(Model())).0
        invariant log + Recovery.Drain(Model()).1 == Recovery.Drain(old(Model())).1
        decreases |pending|
      {
        ghost var w := Model();
        DrainPass(w);
        var more := TakeSlot(slot.value);
        assert log + (more + Recovery.Drain(Model()).1) == log + more + Recovery.Drain(Model()).1;
        log := log + more;
        slot := NextBufferedSlot();
      }
      DrainPass(Model());
      assert log + [] == log;
    }

    method Drain() returns (log: seq<Output>)
      requires Tied() && Sound(Model()) && tracker.initialized
      modifies this`occupied, this`pending, this`requestOutstanding, this`gapHighWater, this`hasPendingEnd, tracker
      modifies slots
      ensures Tied()
      ensures var drained := Recovery.Drain(old(Model()));
              Sound(drained.0) && (Model(), log) == (Settle(drained.0).0, drained.1 + Settle(drained.0).1)
    {
      hide SlotsTied, Recovery.Drain, Ask;
      log := DrainSlots();
      ghost var w := Model();
      var end: seq<Output> := [];
      if hasPendingEnd && pendingEnd == tracker.next {
        end := [Control(EndOfSession, pendingEnd)];
        hasPendingEnd := false;
      }
      if tracker.next >= gapHighWater {
        gapHighWater := 0;
      }
      assert Sound(Model()) by {
        Remarked(w, Model());
      }
      var asked := IssueRequest();
      log := log + (end + asked);
    }

    /** One datagram in: its status and the callbacks it makes, in order. */
    method Ingest(packet: Bytes) returns (status: Status, log: seq<Output>)
      requires Valid()
      modifies this, tracker, slots
      ensures Valid()
      ensures Step(Model(), status, log) == Recovery.Ingest(old(Model()), slots.Length, maxDatagramBytes,
                                                            Decode(packet))
    {
      hide SlotsTied, Quiet, Sound, Recovery.Drain, Ahead, Advance, HeaderOf;
      var validation, unused := Parse(packet);
      if validation.error != NoError {
        return Malformed, [];
      }
      var h := validation.header.value;
      ghost var d := Decode(packet).value;
      DecodeIs(packet, d);
      QuietSound(Model());
      IngestKeeps(Model(), slots.Length, maxDatagramBytes, Some(d));
      var decision := tracker.Inspect(h);
      if decision.state.SessionMismatch? {
        return WrongSession, [];
      }
      if decision.state.Overflow? {
        return NumberOverflow, [];
      }
      if decision.state.Duplicate? {
        return Duplicated, [];
      }
      JudgeBySpan(tracker.next, h);
      if decision.state.Gap? {
        status, log := Buffer(packet, h, d);
        return;
      }
      if Kind(h).Heartbeat? {
        return HeartbeatSeen, [Control(Heartbeat, h.first)];
      }
      if Kind(h).EndOfSession? {
        return EndSeen, [Control(EndOfSession, h.first)];
      }
      log := Deliver(packet, h, decision, d);
      status := Processed;
    }

    /** A data packet that holds the next number. */
    method Deliver(packet: Bytes, h: Header, decision: Decision, ghost d: Datagram) returns (log: seq<Output>)
      requires Tied() && Sound(Model()) && tracker.initialized && Encodes(packet, d) && h == d.header
      requires WellSized(d) && Holds(d, tracker.next) && End(d) <= U64_MAX && decision == Judge(tracker.next, h)
      modifies this`occupied, this`pending, this`requestOutstanding, this`gapHighWater, this`hasPendingEnd, tracker
      modifies slots
      ensures Tied() && Step(Model(), Processed, log) == Advance(old(Model()), d)
    {
      hide SlotsTied, Sound, Recovery.Drain, Settle, Tail, Encodes;
      ghost var w := Model();
      log := Process(packet, h, decision, d);
      requestOutstanding := false;
      SoundNext(w);
      Restamped(w, End(d), false);
      assert Model() == w.(next := End(d), outstanding := false);
      var more := Drain();
      ghost var drained := Recovery.Drain(w.(next := End(d), outstanding := false));
      assert log + (drained.1 + Settle(drained.0).1) == log + drained.1 + Settle(drained.0).1;
      log := log + more;
    }

    /** A packet beyond the next number. */
    method Buffer(packet: Bytes, h: Header, ghost d: Datagram) returns (status: Status, log: seq<Output>)
      requires Tied() && Quiet(Model()) && Encodes(packet, d) && h == d.header && Parsed(d)
      requires tracker.initialized && h.session == tracker.session && h.first > tracker.next
      requires (Kind(h).Data? ==> End(d) <= U64_MAX)
      modifies this`occupied, this`pending, this`requestOutstanding, this`gapHighWater, this`hasPendingEnd
      modifies this`pendingEnd, slots
      ensures Tied() && Step(Model(), status, log) == Ahead(old(Model()), slots.Length, maxDatagramBytes, d)
    {
      hide SlotsTied, Ask, Carries, SizeOf, Encodes;
      ghost var w := Model();
      gapHighWater := if gapHighWater < h.first then h.first else gapHighWater;
      Remarked(w, Model());
      if Kind(h).Data? {
        status := Store(packet, h, d);
        if status != BufferedGap {
          return status, [];
        }
        StoreKeeps(w.(highWater := gapHighWater), d);
      } else if Kind(h).EndOfSession? {
        pendingEnd := h.first;
        hasPendingEnd := true;
        Remarked(w, Model());
      }
      log := IssueRequest();
      status := BufferedGap;
    }
  }

  lemma {:induction false} NoneOccupied(ss: seq<Slot>, n: nat)
    requires n <= |ss| && forall i :: 0 <= i < |ss| ==> !ss[i].occupied
    ensures Firsts(ss, n) == {}
  {
    if n > 0 {
      NoneOccupied(ss, n - 1);
    }
  }

  lemma SoundNext(w: Window)
    requires Sound(w)
    ensures 0 <= w.next <= U64_MAX
  {
  }

  lemma QuietSound(w: Window)
    requires Quiet(w)
    ensures Sound(w) && (!w.initialized ==> w == EMPTY_WINDOW)
    ensures forall h :: Sound(Primed(w, h))
  {
    forall h
      ensures Sound(Primed(w, h))
    {
      assert forall f :: f in w.pending ==> w.initialized;
    }
  }

  lemma Remarked(w: Window, w': Window)
    requires Sound(w) && w' == w.(highWater := w'.highWater, pendingEnd := w'.pendingEnd)
    ensures Sound(w')
  {
    assert forall f :: f in w.pending ==> Stored(w, f) && Stored(w', f);
  }
}
