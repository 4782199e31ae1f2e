/**
 When the arrival order matters at all. Datagrams may share a first number here: then the first of them
 to arrive ahead of the stream keeps the others out.
 */
module RecoveryOrder {
  import opened Machine
  import opened MoldUdp64
  import opened Recovery
  import opened RecoveryLaws
  import opened RecoveryConfluence

  /** Every datagram of the set arrives, perhaps more than once, and no other data packet of the session does. */
  ghost predicate Complete(ds: set<Datagram>, session: Bytes, arrivals: seq<Option<Datagram>>)
  {
    AllDrawn(ds, session, arrivals) && forall d :: d in ds ==> Some(d) in arrivals
  }

  /** What is left when only the shortest datagram of each first number beyond the start is kept. */
  ghost predicate Remains(ds: set<Datagram>, start: int, d: Datagram)
  {
    d in ds && (d.header.first <= start || forall e :: e in ds && e.header.first == d.header.first ==> End(d) <= End(e))
  }

  ghost function Shortest(ds: set<Datagram>, start: int): set<Datagram> {
    set d | d in ds && Remains(ds, start, d)
  }

  /** The condition, on the set alone: keeping only the shortest ones opens no earlier hole. */
  ghost predicate SameReach(ds: set<Datagram>, start: int)
  {
    exists n :: LeastUncovered(ds, start, n) && LeastUncovered(Shortest(ds, start), start, n)
  }

  ghost predicate OrderIrrelevant(ds: set<Datagram>, session: Bytes, start: U64, slots: nat, bytes: nat)
    requires Quiet(Seeded(session, start))
  {
    forall a, b :: Complete(ds, session, a) && Complete(ds, session, b) ==>
      Run(Seed(session, start), slots, bytes, a).delivered == Run(Seed(session, start), slots, bytes, b).delivered
  }

  lemma {:induction false} UncoveredExists(ds: set<Datagram>, start: int) returns (n: int)
    ensures LeastUncovered(ds, start, n)
    decreases |ds|
  {
    if Covered(ds, start) {
      var d :| d in ds && Holds(d, start);
      n := UncoveredExists(ds - {d}, End(d));
      forall k | start <= k < n
        ensures Covered(ds, k)
      {
        if k < End(d) {
          assert Holds(d, k);
        } else {
          assert Covered(ds - {d}, k);
        }
      }
      assert forall e :: e in ds && e != d ==> e in ds - {d};
    } else {
      n := start;
    }
  }

  lemma {:induction false} ShortestExists(ds: set<Datagram>, d: Datagram) returns (e: Datagram)
    requires d in ds
    ensures e in ds && e.header.first == d.header.first
    ensures forall x :: x in ds && x.header.first == d.header.first ==> End(e) <= End(x)
    decreases |ds|
  {
    if x :| x in ds && x.header.first == d.header.first && End(x) < End(d) {
      e := ShortestExists(ds - {d}, x);
      assert forall y :: y in ds && y != d ==> y in ds - {d};
    } else {
      e := d;
    }
  }

  // ---- Every outcome lies between two bounds ----

  lemma CoverGrows(a: set<Datagram>, b: set<Datagram>, n: int)
    requires a <= b && Covered(a, n)
    ensures Covered(b, n)
  {
    var d :| d in a && Holds(d, n);
    assert d in b;
  }

  lemma NotBeyond(h: History, start: int, ds: set<Datagram>, high: int)
    requires Faithful(h, start) && h.accepted <= ds && LeastUncovered(ds, start, high)
    ensures h.window.next <= high
  {
    hide Covered, Faithful;
    NextIsLeastUncovered(h, start);
    if high < h.window.next {
      CoverGrows(h.accepted, ds, high);
    }
  }

  /** A number that the shortest datagrams hold, and that is not passed, is held by an accepted one. */
  lemma StillCovered(h: History, start: int, ds: set<Datagram>, session: Bytes, arrivals: seq<Option<Datagram>>, n: int)
    requires Progress(h, start, ds, session, arrivals) && Complete(ds, session, arrivals)
    requires n >= h.window.next && Covered(Shortest(ds, start), n)
    ensures Covered(h.accepted, n)
  {
    hide Faithful;
    var k :| k in Shortest(ds, start) && Holds(k, n);
    assert Some(k) in arrivals;
    var i :| 0 <= i < |arrivals| && arrivals[i] == Some(k);
    assert Arrived(h, start, k);
    if k !in h.accepted {
      var e :| e in h.accepted && e.header.first == k.header.first;
      assert e in ds && End(k) <= End(e);
      assert Holds(e, n);
    }
  }

  lemma NotBefore(h: History, start: int, ds: set<Datagram>, session: Bytes, arrivals: seq<Option<Datagram>>, low: int)
    requires Progress(h, start, ds, session, arrivals) && Complete(ds, session, arrivals)
    requires LeastUncovered(Shortest(ds, start), start, low)
    ensures low <= h.window.next
  {
    hide Covered, Faithful, Complete;
    NextIsLeastUncovered(h, start);
    if h.window.next < low {
      StillCovered(h, start, ds, session, arrivals, h.window.next);
    }
  }

  // ---- Both bounds are reached ----

  lemma RunSnoc(h: History, slots: nat, bytes: nat, before: seq<Option<Datagram>>, arrival: Option<Datagram>)
    requires Quiet(h.window) && AllParsed(before) && (arrival.Some? ==> Parsed(arrival.value))
    ensures AllParsed(before + [arrival]) && Quiet(Run(h, slots, bytes, before).window)
    ensures Run(h, slots, bytes, before + [arrival]) == Extended(Run(h, slots, bytes, before), slots, bytes, arrival)
  {
    IngestRuns(h, slots, bytes, before);
    assert (before + [arrival])[..|before|] == before;
  }

  function Arrivals(q: seq<Datagram>): seq<Option<Datagram>> {
    seq(|q|, i requires 0 <= i < |q| => Some(q[i]))
  }

  lemma {:induction false} Enumerate(ds: set<Datagram>) returns (q: seq<Datagram>)
    ensures forall d :: d in q <==> d in ds
    decreases |ds|
  {
    if ds == {} {
      q := [];
    } else {
      var d :| d in ds;
      q := Enumerate(ds - {d});
      q := q + [d];
    }
  }

  /** A window of the session that has run so far on datagrams of the set. */
  ghost predicate Ran(session: Bytes, start: U64, slots: nat, bytes: nat, ds: set<Datagram>,
                      arrivals: seq<Option<Datagram>>)
  {
    && AllDrawn(ds, session, arrivals) && |ds| <= slots && (forall d :: d in ds ==> Fits(d, session, bytes))
    && Quiet(Seeded(session, start)) && AllParsed(arrivals)
  }

  ghost function After(session: Bytes, start: U64, slots: nat, bytes: nat, ds: set<Datagram>,
                       arrivals: seq<Option<Datagram>>): History
    requires Ran(session, start, slots, bytes, ds, arrivals)
  {
    Run(Seed(session, start), slots, bytes, arrivals)
  }

  lemma RanOn(session: Bytes, start: U64, slots: nat, bytes: nat, ds: set<Datagram>, before: seq<Option<Datagram>>,
              d: Datagram)
    requires Ran(session, start, slots, bytes, ds, before) && d in ds
    ensures Ran(session, start, slots, bytes, ds, before + [Some(d)])
    ensures Progress(After(session, start, slots, bytes, ds, before), start, ds, session, before)
    ensures Quiet(After(session, start, slots, bytes, ds, before).window) && Parsed(d)
    ensures var h := After(session, start, slots, bytes, ds, before);
            After(session, start, slots, bytes, ds, before + [Some(d)]) == Extended(h, slots, bytes, Some(d))
            && h.window.next <= Extended(h, slots, bytes, Some(d)).window.next
            && Extended(h, slots, bytes, Some(d)).accepted <= h.accepted + {d}
  {
    hide Ingest, Progress;
    RunProgress(session, start, slots, bytes, ds, before);
    var h := After(session, start, slots, bytes, ds, before);
    ProgressFaithful(h, start, ds, session, before);
    assert Fits(d, session, bytes);
    RunSnoc(Seed(session, start), slots, bytes, before, Some(d));
    StepKeepsSession(h, start, slots, bytes, ds, session, Some(d));
  }

  lemma ProgressFaithful(h: History, start: int, ds: set<Datagram>, session: Bytes, arrivals: seq<Option<Datagram>>)
    requires Progress(h, start, ds, session, arrivals)
    ensures Faithful(h, start) && h.window.session == session && h.accepted <= ds && h.window.initialized
  {
  }

  lemma HoldingAdvances(h: History, start: int, slots: nat, bytes: nat, d: Datagram)
    requires Faithful(h, start) && Fits(d, h.window.session, bytes) && Holds(d, h.window.next)
    ensures Extended(h, slots, bytes, Some(d)).window.next > h.window.next
  {
    hide Advance;
    JudgeBySpan(h.window.next, d.header);
    AdvanceKeeps(h.window, d);
  }

  /** From anywhere, sending whatever holds the next number climbs to the highest possible outcome. */
  lemma {:induction false} Climb(session: Bytes, start: U64, slots: nat, bytes: nat, ds: set<Datagram>, high: int,
                                 before: seq<Option<Datagram>>) returns (all: seq<Option<Datagram>>)
    requires Ran(session, start, slots, bytes, ds, before) && LeastUncovered(ds, start, high)
    ensures Ran(session, start, slots, bytes, ds, all)
    ensures After(session, start, slots, bytes, ds, all).window.next == high
    decreases high - After(session, start, slots, bytes, ds, before).window.next
  {
    var h := After(session, start, slots, bytes, ds, before);
    RunProgress(session, start, slots, bytes, ds, before);
    NotBeyond(h, start, ds, high);
    StartBefore(h, start);
    if h.window.next == high {
      all := before;
    } else {
      assert Covered(ds, h.window.next);
      var d :| d in ds && Holds(d, h.window.next);
      RanOn(session, start, slots, bytes, ds, before, d);
      HoldingAdvances(h, start, slots, bytes, d);
      RunProgress(session, start, slots, bytes, ds, before + [Some(d)]);
      NotBeyond(After(session, start, slots, bytes, ds, before + [Some(d)]), start, ds, high);
      all := Climb(session, start, slots, bytes, ds, high, before + [Some(d)]);
    }
  }

  /** Sending more datagrams of the set never goes back. */
  lemma {:induction false} SendOn(session: Bytes, start: U64, slots: nat, bytes: nat, ds: set<Datagram>,
                                  before: seq<Option<Datagram>>, q: seq<Datagram>)
    requires Ran(session, start, slots, bytes, ds, before) && forall d :: d in q ==> d in ds
    ensures var all := before + Arrivals(q);
            && Ran(session, start, slots, bytes, ds, all)
            && (After(session, start, slots, bytes, ds, before).window.next
                <= After(session, start, slots, bytes, ds, all).window.next)
            && forall d :: d in After(session, start, slots, bytes, ds, all).accepted ==>
                 d in After(session, start, slots, bytes, ds, before).accepted || d in q
    decreases |q|
  {
    hide Ran, Extended, Progress;
    if q == [] {
      assert before + Arrivals(q) == before;
    } else {
      var n := |q| - 1;
      SendOn(session, start, slots, bytes, ds, before, q[..n]);
      RanOn(session, start, slots, bytes, ds, before + Arrivals(q[..n]), q[n]);
      assert before + Arrivals(q) == before + Arrivals(q[..n]) + [Some(q[n])];
    }
  }

  /** The window after datagrams beyond the start only: nothing moved, and those first numbers are taken. */
  ghost predicate Stuck(h: History, start: int, kept: set<Datagram>, firsts: set<int>)
  {
    h.window.next == start && h.accepted <= kept && forall f :: f in firsts ==> f in h.window.pending
  }

  lemma FarArrival(h: History, start: int, slots: nat, bytes: nat, ds: set<Datagram>, kept: set<Datagram>,
                   firsts: set<int>, d: Datagram)
    requires Faithful(h, start) && h.accepted <= ds && d in ds && |ds| <= slots && Fits(d, h.window.session, bytes)
    requires Stuck(h, start, kept, firsts) && d.header.first > start && (d in kept || d.header.first in firsts)
    ensures Stuck(Extended(h, slots, bytes, Some(d)), start, kept, firsts + {d.header.first})
  {
    hide Target, Ask, SizeOf, Spell, InOrderFrom, Sound, NothingReady, Marks, Asked;
    JudgeBySpan(h.window.next, d.header);
    AheadKeeps(h.window, slots, bytes, d);
    if d.header.first !in h.window.pending {
      NeverFull(h, start, ds, d);
    }
  }

  lemma {:induction false} FarRun(session: Bytes, start: U64, slots: nat, bytes: nat, ds: set<Datagram>,
                                  before: seq<Option<Datagram>>, kept: set<Datagram>, firsts: set<int>,
                                  q: seq<Datagram>)
    requires Ran(session, start, slots, bytes, ds, before)
    requires Stuck(After(session, start, slots, bytes, ds, before), start, kept, firsts)
    requires forall d :: d in q ==> d in ds && d.header.first > start && (d in kept || d.header.first in firsts)
    ensures var all := before + Arrivals(q);
            && Ran(session, start, slots, bytes, ds, all)
            && Stuck(After(session, start, slots, bytes, ds, all), start, kept,
                     firsts + set d | d in q :: d.header.first)
    decreases |q|
  {
    hide Ran, Extended, Progress, Faithful;
    if q == [] {
      assert before + Arrivals(q) == before;
    } else {
      var n := |q| - 1;
      FarRun(session, start, slots, bytes, ds, before, kept, firsts, q[..n]);
      var some := before + Arrivals(q[..n]);
      RanOn(session, start, slots, bytes, ds, some, q[n]);
      var h := After(session, start, slots, bytes, ds, some);
      ProgressFaithful(h, start, ds, session, some);
      var taken := firsts + set d | d in q[..n] :: d.header.first;
      RanFits(session, start, slots, bytes, ds, some, q[n]);
      FarArrival(h, start, slots, bytes, ds, kept, taken, q[n]);
      assert before + Arrivals(q) == some + [Some(q[n])];
    }
  }

  lemma RanFits(session: Bytes, start: U64, slots: nat, bytes: nat, ds: set<Datagram>, arrivals: seq<Option<Datagram>>,
                d: Datagram)
    requires Ran(session, start, slots, bytes, ds, arrivals) && d in ds
    ensures Fits(d, session, bytes) && |ds| <= slots
  {
  }

  lemma RanNothing(session: Bytes, start: U64, slots: nat, bytes: nat, ds: set<Datagram>)
    requires |ds| <= slots && forall d :: d in ds ==> Fits(d, session, bytes)
    ensures Ran(session, start, slots, bytes, ds, [])
    ensures After(session, start, slots, bytes, ds, []) == Seed(session, start)
  {
    SeedFaithful(session, start);
  }

  /** The worst order: first the shortest datagrams beyond the start, then those they keep out, then the rest. */
  lemma LowRun(session: Bytes, start: U64, slots: nat, bytes: nat, ds: set<Datagram>, low: int)
    returns (all: seq<Option<Datagram>>)
    requires |ds| <= slots && forall d :: d in ds ==> Fits(d, session, bytes)
    requires LeastUncovered(Shortest(ds, start), start, low)
    ensures Complete(ds, session, all) && Ran(session, start, slots, bytes, ds, all)
    ensures After(session, start, slots, bytes, ds, all).window.next == low
  {
    hide Ran, After, Progress, LeastUncovered;
    var kept := Shortest(ds, start);
    var far := Enumerate(set d | d in kept && d.header.first > start);
    var out := Enumerate(ds - kept);
    var rest := Enumerate(kept);
    RanNothing(session, start, slots, bytes, ds);
    FarRun(session, start, slots, bytes, ds, [], kept, {}, far);
    var firsts := {} + set d | d in far :: d.header.first;
    forall d | d in out
      ensures d in ds && d.header.first > start && d.header.first in firsts
    {
      var e := ShortestExists(ds, d);
      assert e in kept && e in far;
    }
    var one := [] + Arrivals(far);
    FarRun(session, start, slots, bytes, ds, one, kept, firsts, out);
    var two := one + Arrivals(out);
    SendOn(session, start, slots, bytes, ds, two, rest);
    all := two + Arrivals(rest);
    AllArrive(ds, two, out, rest, one);
    RanComplete(session, start, slots, bytes, ds, all);
    Outcome(session, start, slots, bytes, ds, kept, all, low);
  }

  lemma AllArrive(ds: set<Datagram>, two: seq<Option<Datagram>>, out: seq<Datagram>, rest: seq<Datagram>,
                  one: seq<Option<Datagram>>)
    requires two == one + Arrivals(out) && forall d :: d in ds ==> d in out || d in rest
    ensures forall d :: d in ds ==> Some(d) in two + Arrivals(rest)
  {
    forall d | d in ds
      ensures Some(d) in two + Arrivals(rest)
    {
      if d in out {
        var i :| 0 <= i < |out| && out[i] == d;
        assert Arrivals(out)[i] == Some(d);
        assert (two + Arrivals(rest))[|one| + i] == Some(d);
      } else {
        var i :| 0 <= i < |rest| && rest[i] == d;
        assert (two + Arrivals(rest))[|two| + i] == Some(d);
      }
    }
  }

  lemma RanComplete(session: Bytes, start: U64, slots: nat, bytes: nat, ds: set<Datagram>, all: seq<Option<Datagram>>)
    requires Ran(session, start, slots, bytes, ds, all) && forall d :: d in ds ==> Some(d) in all
    ensures Complete(ds, session, all)
    ensures Progress(After(session, start, slots, bytes, ds, all), start, ds, session, all)
  {
    RunProgress(session, start, slots, bytes, ds, all);
  }

  lemma Outcome(session: Bytes, start: U64, slots: nat, bytes: nat, ds: set<Datagram>, kept: set<Datagram>,
                all: seq<Option<Datagram>>, low: int)
    requires Ran(session, start, slots, bytes, ds, all) && Complete(ds, session, all) && kept == Shortest(ds, start)
    requires Progress(After(session, start, slots, bytes, ds, all), start, ds, session, all)
    requires LeastUncovered(kept, start, low) && After(session, start, slots, bytes, ds, all).accepted <= kept
    ensures After(session, start, slots, bytes, ds, all).window.next == low
  {
    hide LeastUncovered, Run, Ran;
    var h := After(session, start, slots, bytes, ds, all);
    NotBefore(h, start, ds, session, all, low);
    NotBeyond(h, start, kept, low);
  }

  /** The best order: climb first, then send everything. */
  lemma HighRun(session: Bytes, start: U64, slots: nat, bytes: nat, ds: set<Datagram>, high: int)
    returns (all: seq<Option<Datagram>>)
    requires |ds| <= slots && forall d :: d in ds ==> Fits(d, session, bytes)
    requires LeastUncovered(ds, start, high)
    ensures Complete(ds, session, all) && Ran(session, start, slots, bytes, ds, all)
    ensures After(session, start, slots, bytes, ds, all).window.next == high
  {
    hide Ran, After, Progress, LeastUncovered;
    RanNothing(session, start, slots, bytes, ds);
    var before := Climb(session, start, slots, bytes, ds, high, []);
    var q := Enumerate(ds);
    SendOn(session, start, slots, bytes, ds, before, q);
    all := before + Arrivals(q);
    assert Arrivals([]) == [];
    AllArrive(ds, before, [], q, before);
    RanComplete(session, start, slots, bytes, ds, all);
    var h := After(session, start, slots, bytes, ds, all);
    ProgressFaithful(h, start, ds, session, all);
    NotBeyond(h, start, ds, high);
  }

  lemma SameNumberSameStream(ds: set<Datagram>, start: int, a: History, b: History)
    requires Consistent(ds) && Faithful(a, start) && Faithful(b, start) && a.accepted <= ds && b.accepted <= ds
    requires a.window.next == b.window.next
    ensures a.delivered == b.delivered
  {
    MoreAccepted(a.accepted, ds, start, a.window.next, a.delivered);
    MoreAccepted(b.accepted, ds, start, b.window.next, b.delivered);
    forall i | 0 <= i < |a.delivered|
      ensures a.delivered[i] == b.delivered[i]
    {
      assert Says(ds, start + i, a.delivered[i].message) && Says(ds, start + i, b.delivered[i].message);
    }
  }

  lemma DeliveredCount(h: History, start: int)
    requires Faithful(h, start)
    ensures |h.delivered| == h.window.next - start
  {
  }

  lemma CompleteRan(session: Bytes, start: U64, slots: nat, bytes: nat, ds: set<Datagram>, all: seq<Option<Datagram>>)
    requires Complete(ds, session, all) && |ds| <= slots && forall d :: d in ds ==> Fits(d, session, bytes)
    ensures Ran(session, start, slots, bytes, ds, all)
    ensures Progress(After(session, start, slots, bytes, ds, all), start, ds, session, all)
  {
    RunProgress(session, start, slots, bytes, ds, all);
  }

  /**
   The exact condition. For datagrams that fit, do not contradict each other and are no more than the
   slots, every complete arrival order delivers the same messages if and only if keeping only the
   shortest datagram of each first number beyond the start opens no earlier hole.
   */
  lemma OrderIrrelevantIff(session: Bytes, start: U64, slots: nat, bytes: nat, ds: set<Datagram>)
    requires Consistent(ds) && |ds| <= slots && forall d :: d in ds ==> Fits(d, session, bytes)
    ensures Quiet(Seeded(session, start))
    ensures OrderIrrelevant(ds, session, start, slots, bytes) <==> SameReach(ds, start)
  {
    SeedFaithful(session, start);
    var low := UncoveredExists(Shortest(ds, start), start);
    var high := UncoveredExists(ds, start);
    ReachIff(ds, start, low, high);
    if low == high {
      forall a, b | Complete(ds, session, a) && Complete(ds, session, b)
        ensures var seed := Seed(session, start);
                Run(seed, slots, bytes, a).delivered == Run(seed, slots, bytes, b).delivered
      {
        Settled(session, start, slots, bytes, ds, a, low);
        Settled(session, start, slots, bytes, ds, b, low);
        SameNumberSameStream(ds, start, After(session, start, slots, bytes, ds, a),
                             After(session, start, slots, bytes, ds, b));
      }
    } else {
      var a := LowRun(session, start, slots, bytes, ds, low);
      var b := HighRun(session, start, slots, bytes, ds, high);
      CompleteRan(session, start, slots, bytes, ds, a);
      CompleteRan(session, start, slots, bytes, ds, b);
      DeliveredCount(After(session, start, slots, bytes, ds, a), start);
      DeliveredCount(After(session, start, slots, bytes, ds, b), start);
    }
  }

  lemma ReachIff(ds: set<Datagram>, start: int, low: int, high: int)
    requires LeastUncovered(Shortest(ds, start), start, low) && LeastUncovered(ds, start, high)
    ensures SameReach(ds, start) <==> low == high
  {
    if SameReach(ds, start) {
      var n :| LeastUncovered(ds, start, n) && LeastUncovered(Shortest(ds, start), start, n);
      UncoveredUnique(ds, start, n, high);
      UncoveredUnique(Shortest(ds, start), start, n, low);
    }
  }

  lemma UncoveredUnique(ds: set<Datagram>, start: int, m: int, n: int)
    requires LeastUncovered(ds, start, m) && LeastUncovered(ds, start, n)
    ensures m == n
  {
    if m < n {
      assert false;
    } else if n < m {
      assert false;
    }
  }

  lemma Settled(session: Bytes, start: U64, slots: nat, bytes: nat, ds: set<Datagram>, a: seq<Option<Datagram>>, n: int)
    requires Complete(ds, session, a) && |ds| <= slots && forall d :: d in ds ==> Fits(d, session, bytes)
    requires LeastUncovered(ds, start, n) && LeastUncovered(Shortest(ds, start), start, n)
    ensures Ran(session, start, slots, bytes, ds, a)
    ensures var h := After(session, start, slots, bytes, ds, a);
            Faithful(h, start) && h.accepted <= ds && h.window.next == n
  {
    CompleteRan(session, start, slots, bytes, ds, a);
    var h := After(session, start, slots, bytes, ds, a);
    NotBefore(h, start, ds, session, a, n);
    NotBeyond(h, start, ds, n);
  }
}
