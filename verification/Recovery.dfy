/**
 What the recovery window does, on values: datagrams held by first sequence, the next number to
 deliver, and the ordered log of callbacks one call makes.
 */
module Recovery {
  import opened Collections
  import opened Machine
  import opened MoldUdp64

  datatype Datagram = Datagram(header: Header, messages: seq<Bytes>)

  datatype Status =
    | Processed | BufferedGap | Duplicated | HeartbeatSeen | EndSeen | Malformed
    | WrongSession | DatagramTooLarge | ReorderWindowFull | NumberOverflow

  datatype Output =
    | Message(sequence: int, message: Bytes)
    | Request(session: Bytes, first: int, count: int)
    | Control(kind: PacketKind, sequence: int)

  datatype Window = Window(
    initialized: bool, session: Bytes, next: int,
    pending: map<int, Datagram>, highWater: int, pendingEnd: Option<int>, outstanding: bool)

  datatype Step = Step(window: Window, status: Status, log: seq<Output>)

  const EMPTY_WINDOW: Window := Window(false, [], 0, map[], 0, None, false)

  function End(d: Datagram): int {
    SpanEnd(d.header)
  }

  function SizeOf(d: Datagram): nat {
    HEADER_BYTES + BlockBytes(d.messages)
  }

  function BlockBytes(messages: seq<Bytes>): nat {
    if messages == [] then 0 else BlockBytes(messages[..|messages| - 1]) + 2 + |messages[|messages| - 1]|
  }

  predicate Holds(d: Datagram, n: int) {
    d.header.first <= n < End(d)
  }

  /** What a datagram says about one of its numbers. */
  function Content(d: Datagram, n: int): Bytes
    requires Holds(d, n) && |d.messages| == End(d) - d.header.first
  {
    d.messages[n - d.header.first]
  }

  /** Messages of a datagram from number `from` on, as callbacks. */
  ghost function Tail(d: Datagram, from: int): (log: seq<Output>)
    requires Holds(d, from) && |d.messages| == End(d) - d.header.first
    ensures |log| == End(d) - from
  {
    seq(End(d) - from, i requires 0 <= i < End(d) - from => Message(from + i, Content(d, from + i)))
  }

  /** A buffered datagram: a data packet of this session under its own first number. */
  ghost predicate Stored(w: Window, f: int)
    requires f in w.pending
  {
    var d := w.pending[f];
    && d.header.first == f && Kind(d.header).Data? && d.header.session == w.session
    && |d.messages| == d.header.count && End(d) <= U64_MAX
  }

  ghost predicate Sound(w: Window)
  {
    && 0 <= w.next <= U64_MAX
    && (forall f :: f in w.pending ==> Stored(w, f))
  }

  /** The datagram that drain takes next: it holds the next number and starts last among those. */
  ghost predicate IsPick(w: Window, f: int)
  {
    && f in w.pending && Holds(w.pending[f], w.next)
    && forall g :: g in w.pending && Holds(w.pending[g], w.next) ==> g <= f
  }

  ghost function Take(w: Window, f: int): Window
    requires f in w.pending
  {
    w.(next := End(w.pending[f]), pending := w.pending - {f}, outstanding := false)
  }

  /** No buffered datagram holds the next number. */
  ghost predicate NothingReady(w: Window)
  {
    forall f :: f in w.pending ==> !Holds(w.pending[f], w.next)
  }

  lemma AMember(s: set<int>) returns (x: int)
    requires s != {}
    ensures x in s
  {
    if forall y :: y !in s {
      assert false;
    }
    x :| x in s;
  }

  lemma {:induction false} Greatest(s: set<int>)
    requires s != {}
    ensures exists m :: m in s && forall n :: n in s ==> n <= m
  {
    var x := AMember(s);
    if s != {x} {
      Greatest(s - {x});
      var m :| m in s - {x} && forall n :: n in s - {x} ==> n <= m;
      assert forall n :: n in s ==> n == x || n in s - {x};
      assert (if x > m then x else m) in s;
    }
  }

  ghost function Pick(w: Window): (r: Option<int>)
    ensures r == None <==> NothingReady(w)
    ensures r.Some? ==> IsPick(w, r.value)
  {
    if NothingReady(w) then None else
      var ready := set f | f in w.pending && Holds(w.pending[f], w.next);
      assert ready != {} by {
        var f :| f in w.pending && Holds(w.pending[f], w.next);
        assert f in ready;
      }
      Greatest(ready);
      var m :| m in ready && forall n :: n in ready ==> n <= m;
      assert forall g :: g in w.pending && Holds(w.pending[g], w.next) ==> g in ready;
      Some(m)
  }

  lemma PickIs(w: Window, f: int)
    requires IsPick(w, f)
    ensures Pick(w) == Some(f)
  {
    assert IsPick(w, Pick(w).value);
  }

  /** Deliver buffered datagrams for as long as one holds the next number. */
  ghost function Drain(w: Window): (Window, seq<Output>)
    requires Sound(w)
    decreases |w.pending|
  {
    if Pick(w) == None then (w, [])
    else
      var f := Pick(w).value;
      Smaller(w.pending, f);
      assert Stored(w, f);
      TakeSound(w, f);
      var rest := Drain(Take(w, f));
      (rest.0, Tail(w.pending[f], w.next) + rest.1)
  }

  lemma TakeSound(w: Window, f: int)
    requires Sound(w) && IsPick(w, f)
    ensures Sound(Take(w, f))
  {
    assert Stored(w, f);
    assert forall g :: g in Take(w, f).pending ==> Stored(w, g) && Stored(Take(w, f), g);
  }

  /** The nearest known number ahead: announced, buffered, or an end of session; zero when none. */
  ghost predicate IsTarget(w: Window, target: int)
  {
    var known := Known(w);
    if known == {} then target == 0 else target in known && forall n :: n in known ==> target <= n
  }

  ghost function Known(w: Window): set<int>
  {
    (if w.highWater == 0 then {} else {w.highWater})
    + (set f | f in w.pending && f > w.next)
    + (if w.pendingEnd.Some? then {w.pendingEnd.value} else {})
  }

  lemma {:induction false} Least(s: set<int>)
    requires s != {}
    ensures exists m :: m in s && forall n :: n in s ==> m <= n
  {
    var x := AMember(s);
    if s != {x} {
      Least(s - {x});
      var m :| m in s - {x} && forall n :: n in s - {x} ==> m <= n;
      assert forall n :: n in s ==> n == x || n in s - {x};
      assert (if x < m then x else m) in s;
    }
  }

  ghost function Target(w: Window): (target: int)
    ensures IsTarget(w, target)
  {
    if Known(w) == {} then 0 else
      Least(Known(w));
      var m :| m in Known(w) && forall n :: n in Known(w) ==> m <= n;
      m
  }

  lemma TargetIs(w: Window, target: int)
    requires IsTarget(w, target)
    ensures Target(w) == target
  {
  }

  /** Ask once for the numbers up to the nearest known one. */
  ghost function Ask(w: Window): (Window, seq<Output>) {
    var target := Target(w);
    if w.outstanding || target <= w.next then (w, [])
    else
      var distance := target - w.next;
      (w.(outstanding := true), [Request(w.session, w.next, if distance < 0xFFFE then distance else 0xFFFE)])
  }

  /** After draining: signal an end of session that is now due, retire the gap, ask again. */
  ghost function Settle(w: Window): (Window, seq<Output>) {
    var due := w.pendingEnd == Some(w.next);
    var w1 := if due then w.(pendingEnd := None) else w;
    var w2 := if w1.next >= w1.highWater then w1.(highWater := 0) else w1;
    var asked := Ask(w2);
    (asked.0, (if due then [Control(EndOfSession, w.next)] else []) + asked.1)
  }

  ghost function Store(w: Window, slots: nat, bytes: nat, d: Datagram): (Window, Status) {
    if SizeOf(d) > bytes || SizeOf(d) > U16_MAX then (w, DatagramTooLarge)
    else if d.header.first in w.pending then (w, Duplicated)
    else if |w.pending| >= slots then (w, ReorderWindowFull)
    else (w.(pending := w.pending[d.header.first := d]), BufferedGap)
  }

  /** A packet beyond the next number: note it, hold its data, ask for what is missing. */
  ghost function Ahead(w: Window, slots: nat, bytes: nat, d: Datagram): Step {
    var noted := w.(highWater := if w.highWater < d.header.first then d.header.first else w.highWater);
    var (held, status) :=
      if Kind(d.header).Data? then Store(noted, slots, bytes, d)
      else if Kind(d.header).EndOfSession? then (noted.(pendingEnd := Some(d.header.first)), BufferedGap)
      else (noted, BufferedGap);
    if status != BufferedGap then Step(held, status, []) else
      var asked := Ask(held);
      Step(asked.0, BufferedGap, asked.1)
  }

  /** A data packet that holds the next number: deliver the new part, then whatever was waiting. */
  ghost function Advance(w: Window, d: Datagram): Step
    requires Sound(w) && Kind(d.header).Data? && Holds(d, w.next) && |d.messages| == d.header.count && End(d) <= U64_MAX
  {
    var drained := Drain(w.(next := End(d), outstanding := false));
    var settled := Settle(drained.0);
    Step(settled.0, Processed, Tail(d, w.next) + drained.1 + settled.1)
  }

  ghost function Primed(w: Window, h: Header): Window {
    if w.initialized then w else w.(initialized := true, session := h.session, next := h.first)
  }

  /** A parsed datagram, as the parser reports it. */
  ghost predicate Parsed(d: Datagram)
  {
    if Kind(d.header).Data? then |d.messages| == d.header.count else d.messages == []
  }

  /** One call of ingest; None is a datagram the parser refuses. */
  ghost function Ingest(w: Window, slots: nat, bytes: nat, arrival: Option<Datagram>): Step
    requires Sound(w) && (!w.initialized ==> w.pending == map[])
    requires arrival.Some? ==> Parsed(arrival.value)
  {
    if arrival == None then Step(w, Malformed, []) else
      var d, w1 := arrival.value, Primed(w, arrival.value.header);
      if w1.session != d.header.session then Step(w1, WrongSession, [])
      else match Judge(w1.next, d.header).state
        case Overflow => Step(w1, NumberOverflow, [])
        case Duplicate => Step(w1, Duplicated, [])
        case Gap => Ahead(w1, slots, bytes, d)
        case _ =>
          if Kind(d.header).Heartbeat? then Step(w1, HeartbeatSeen, [Control(Heartbeat, d.header.first)])
          else if Kind(d.header).EndOfSession? then Step(w1, EndSeen, [Control(EndOfSession, d.header.first)])
          else Advance(w1, d)
  }
}
