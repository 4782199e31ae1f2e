/**
 Linear probing on a cyclic array with backshift deletion: the algorithm shared by
 FixedHashTable and FixedOrderIndex. Key zero marks an empty entry. The hash is arbitrary.
 */
module Probing {
  import opened Collections

  datatype Entry<V> = Entry(key: nat, value: V)

  /** Cyclic distance walked from slot `a` forward to slot `b` in a ring of `n` slots. */
  ghost function Dist(a: nat, b: nat, n: nat): (d: nat)
    requires a < n && b < n
  {
    if a <= b then b - a else b - a + n
  }

  /** The slot after `slot`. */
  ghost function Next(slot: nat, n: nat): (next: nat)
    requires slot < n
    ensures next < n
  {
    if slot + 1 == n then 0 else slot + 1
  }

  /** Unsigned subtraction masked by a power-of-two capacity is the cyclic distance. */
  method MaskedDistance(a: nat, b: nat, n: nat) returns (d: nat)
    requires a < n && b < n
    ensures d == Dist(a, b, n)
  {
    assert b < a ==> b - a == (-1) * n + (b - a + n);
    d := (b - a) % n;
  }

  /** Incrementing and masking wraps at the capacity. */
  method MaskedNext(slot: nat, n: nat) returns (next: nat)
    requires slot < n
    ensures next == Next(slot, n)
  {
    next := (slot + 1) % n;
  }

  lemma StepDistance(a: nat, b: nat, n: nat)
    requires a < n && b < n
    ensures Dist(a, b, n) + 1 < n ==> Dist(a, Next(b, n), n) == Dist(a, b, n) + 1
    ensures Dist(a, b, n) + 1 == n ==> Next(b, n) == a
  {
  }

  /** `bucket` maps every key to a slot: any bucket, masked by the capacity. */
  ghost predicate InRange(bucket: nat -> nat, n: nat)
  {
    forall k :: bucket(k) < n
  }

  /** No empty entry lies between the home bucket of the key in slot `s` and `s` itself. */
  ghost predicate Unbroken<V>(es: seq<Entry<V>>, bucket: nat -> nat, s: nat)
    requires s < |es| && InRange(bucket, |es|)
  {
    var h := bucket(es[s].key);
    forall t :: 0 <= t < |es| && Dist(h, t, |es|) <= Dist(h, s, |es|) ==> es[t].key != 0
  }

  ghost predicate Reachable<V>(es: seq<Entry<V>>, bucket: nat -> nat)
    requires InRange(bucket, |es|)
  {
    forall s :: 0 <= s < |es| && es[s].key != 0 ==> Unbroken(es, bucket, s)
  }

  /** `where` is the inverse of the key column: every key sits in exactly one slot. */
  ghost predicate Indexed<V>(es: seq<Entry<V>>, where: map<nat, nat>)
  {
    && (forall k :: k in where ==> k != 0 && where[k] < |es| && es[where[k]].key == k)
    && (forall s :: 0 <= s < |es| && es[s].key != 0 ==> es[s].key in where && where[es[s].key] == s)
  }

  ghost predicate HasEmpty<V>(es: seq<Entry<V>>)
  {
    exists e :: 0 <= e < |es| && es[e].key == 0
  }

  ghost function Contents<V>(es: seq<Entry<V>>, where: map<nat, nat>): map<nat, V>
    requires Indexed(es, where)
  {
    map k | k in where :: es[where[k]].value
  }

  /** Pigeonhole: fewer keys than slots leaves an empty slot for the erase scan to stop at. */
  lemma FewKeysLeaveEmpty<V>(es: seq<Entry<V>>, where: map<nat, nat>)
    requires Indexed(es, where) && |where| < |es|
    ensures HasEmpty(es)
  {
    if !HasEmpty(es) {
      KeysOfPrefix(es, where, |es|);
      var keys := set s | 0 <= s < |es| :: es[s].key;
      assert keys <= where.Keys;
      CardinalityMonotone(keys, where.Keys);
    }
  }

  lemma {:induction false} KeysOfPrefix<V>(es: seq<Entry<V>>, where: map<nat, nat>, n: nat)
    requires Indexed(es, where) && n <= |es|
    requires forall s :: 0 <= s < |es| ==> es[s].key != 0
    ensures |set s | 0 <= s < n :: es[s].key| == n
  {
    if n > 0 {
      KeysOfPrefix(es, where, n - 1);
      var small := set s | 0 <= s < n - 1 :: es[s].key;
      assert (set s | 0 <= s < n :: es[s].key) == small + {es[n - 1].key};
      assert es[n - 1].key !in small;
    }
  }

  /** Every slot a probe for `key` visits before `slot` is occupied. */
  ghost predicate OpenPath<V>(es: seq<Entry<V>>, bucket: nat -> nat, key: nat, slot: nat)
    requires slot < |es| && InRange(bucket, |es|)
  {
    var h := bucket(key);
    forall t :: 0 <= t < |es| && Dist(h, t, |es|) < Dist(h, slot, |es|) ==> es[t].key != 0
  }

  /** Probe for `key`; stops at its slot, or at the first empty slot, or after a full turn. */
  method Probe<V>(entries: array<Entry<V>>, bucket: nat -> nat, key: nat, ghost where: map<nat, nat>)
    returns (slot: nat, found: bool, free: bool)
    requires InRange(bucket, entries.Length) && key != 0
    requires Reachable(entries[..], bucket) && Indexed(entries[..], where)
    ensures found ==> slot < entries.Length && entries[slot].key == key && !free
    ensures found <==> key in where
    ensures free ==> slot < entries.Length && entries[slot].key == 0
    ensures free ==> OpenPath(entries[..], bucket, key, slot)
    ensures !found && !free ==> forall t :: 0 <= t < entries.Length ==> entries[t].key != 0
  {
    var n := entries.Length;
    var home := bucket(key);
    slot := home;
    var probe := 0;
    while probe < n
      invariant 0 <= probe <= n && slot < n
      invariant probe < n ==> Dist(home, slot, n) == probe
      invariant forall t :: 0 <= t < n && Dist(home, t, n) < probe ==> entries[t].key != 0 && entries[t].key != key
    {
      if entries[slot].key == key {
        return slot, true, false;
      }
      if entries[slot].key == 0 {
        assert entries[..][slot].key == 0;
        return slot, false, true;
      }
      StepDistance(home, slot, n);
      slot := MaskedNext(slot, n);
      probe := probe + 1;
    }
    return slot, false, false;
  }

  /** Storing a new key in the first empty slot of its probe path keeps the table sound. */
  lemma StoreKeeps<V>(es: seq<Entry<V>>, bucket: nat -> nat, where: map<nat, nat>, slot: nat, e: Entry<V>)
    requires InRange(bucket, |es|) && Reachable(es, bucket) && Indexed(es, where)
    requires slot < |es| && es[slot].key == 0 && e.key != 0 && e.key !in where
    requires OpenPath(es, bucket, e.key, slot)
    ensures Reachable(es[slot := e], bucket) && Indexed(es[slot := e], where[e.key := slot])
    ensures Contents(es[slot := e], where[e.key := slot]) == Contents(es, where)[e.key := e.value]
  {
    hide Reachable, Unbroken, OpenPath;
    StorePaths(es, bucket, slot, e);
  }

  lemma StorePaths<V>(es: seq<Entry<V>>, bucket: nat -> nat, slot: nat, e: Entry<V>)
    requires InRange(bucket, |es|) && Reachable(es, bucket)
    requires slot < |es| && es[slot].key == 0 && e.key != 0
    requires OpenPath(es, bucket, e.key, slot)
    ensures Reachable(es[slot := e], bucket)
  {
    var es' := es[slot := e];
    forall s | 0 <= s < |es'| && es'[s].key != 0
      ensures Unbroken(es', bucket, s)
    {
      if s != slot {
        assert Unbroken(es, bucket, s);
      }
    }
  }

  /** Overwriting a stored value touches neither the keys nor the probe paths. */
  lemma AssignKeeps<V>(es: seq<Entry<V>>, bucket: nat -> nat, where: map<nat, nat>, slot: nat, value: V)
    requires InRange(bucket, |es|) && Reachable(es, bucket) && Indexed(es, where)
    requires slot < |es| && es[slot].key != 0
    ensures var es' := es[slot := Entry(es[slot].key, value)];
            && Reachable(es', bucket) && Indexed(es', where)
            && Contents(es', where) == Contents(es, where)[es[slot].key := value]
  {
    var es' := es[slot := Entry(es[slot].key, value)];
    forall s | 0 <= s < |es'| && es'[s].key != 0
      ensures Unbroken(es', bucket, s)
    {
      assert Unbroken(es, bucket, s);
    }
  }

  /**
   What the erase scan knows: `hole` still holds a stale entry that is about to be overwritten,
   `rest` is what the table shall contain, `w` says where, and only entries at or after `scan`
   can have `hole` on their probe path.
   */
  ghost predicate Scanning<V>(es: seq<Entry<V>>, bucket: nat -> nat, w: map<nat, nat>, rest: map<nat, V>,
                              hole: nat, scan: nat)
    requires InRange(bucket, |es|) && hole < |es| && scan < |es|
  {
    && es[hole].key != 0 && Placed(es, w, rest, hole) && Located(es, w, hole)
    && Paths(es, bucket, hole) && Beyond(es, bucket, hole, scan)
  }

  ghost predicate Placed<V>(es: seq<Entry<V>>, w: map<nat, nat>, rest: map<nat, V>, hole: nat)
  {
    w.Keys == rest.Keys && forall k :: k in w ==> k != 0 && w[k] < |es| && w[k] != hole && es[w[k]] == Entry(k, rest[k])
  }

  ghost predicate Located<V>(es: seq<Entry<V>>, w: map<nat, nat>, hole: nat)
  {
    forall s :: 0 <= s < |es| && s != hole && es[s].key != 0 ==> es[s].key in w && w[es[s].key] == s
  }

  ghost predicate Paths<V>(es: seq<Entry<V>>, bucket: nat -> nat, hole: nat)
    requires InRange(bucket, |es|)
  {
    forall s :: 0 <= s < |es| && s != hole && es[s].key != 0 ==> Unbroken(es, bucket, s)
  }

  ghost predicate Beyond<V>(es: seq<Entry<V>>, bucket: nat -> nat, hole: nat, scan: nat)
    requires InRange(bucket, |es|) && hole < |es| && scan < |es|
  {
    forall s :: 0 <= s < |es| && s != hole && es[s].key != 0
                && Dist(bucket(es[s].key), hole, |es|) < Dist(bucket(es[s].key), s, |es|)
                ==> Dist(hole, scan, |es|) <= Dist(hole, s, |es|)
  }

  lemma ScanStarts<V>(es: seq<Entry<V>>, bucket: nat -> nat, where: map<nat, nat>, hole: nat, e: nat)
    requires InRange(bucket, |es|) && hole < |es| && e < |es| && es[hole].key != 0 && es[e].key == 0
    requires Reachable(es, bucket) && Indexed(es, where)
    ensures Scanning(es, bucket, where - {es[hole].key}, Contents(es, where) - {es[hole].key}, hole, Next(hole, |es|))
    ensures Next(hole, |es|) != hole && Dist(hole, Next(hole, |es|), |es|) <= Dist(hole, e, |es|)
  {
    StepDistance(hole, hole, |es|);
  }

  lemma ScanSkips<V>(es: seq<Entry<V>>, bucket: nat -> nat, w: map<nat, nat>, rest: map<nat, V>,
                     hole: nat, scan: nat, e: nat)
    requires InRange(bucket, |es|) && hole < |es| && scan < |es| && e < |es| && scan != hole
    requires Scanning(es, bucket, w, rest, hole, scan) && es[scan].key != 0 && es[e].key == 0
    requires Dist(hole, scan, |es|) <= Dist(hole, e, |es|)
    requires Dist(bucket(es[scan].key), hole, |es|)
             >= Dist(bucket(es[scan].key), scan, |es|)
    ensures var next := Next(scan, |es|);
            && Scanning(es, bucket, w, rest, hole, next) && next != hole
            && Dist(hole, next, |es|) <= Dist(hole, e, |es|) && Dist(next, e, |es|) < Dist(scan, e, |es|)
  {
    StepDistance(hole, scan, |es|);
    assert scan != e;
  }

  lemma MovePaths<V>(es: seq<Entry<V>>, bucket: nat -> nat, hole: nat, scan: nat)
    requires InRange(bucket, |es|) && hole < |es| && scan < |es| && scan != hole
    requires es[hole].key != 0 && es[scan].key != 0 && Paths(es, bucket, hole)
    requires Dist(bucket(es[scan].key), hole, |es|) < Dist(bucket(es[scan].key), scan, |es|)
    ensures Paths(es[hole := es[scan]], bucket, scan)
  {
    var es' := es[hole := es[scan]];
    forall s | 0 <= s < |es| && s != scan && es'[s].key != 0
      ensures Unbroken(es', bucket, s)
    {
      assert Unbroken(es, bucket, if s == hole then scan else s);
    }
  }

  lemma MoveBeyond<V>(es: seq<Entry<V>>, bucket: nat -> nat, hole: nat, scan: nat)
    requires InRange(bucket, |es|) && hole < |es| && scan < |es| && scan != hole && Next(scan, |es|) != hole
    requires es[hole].key != 0 && es[scan].key != 0
    requires Beyond(es, bucket, hole, scan)
    requires Dist(bucket(es[scan].key), hole, |es|) < Dist(bucket(es[scan].key), scan, |es|)
    ensures Next(scan, |es|) != scan ==> Beyond(es[hole := es[scan]], bucket, scan, Next(scan, |es|))
  {
    var n, es' := |es|, es[hole := es[scan]];
    var next := Next(scan, n);
    StepDistance(scan, scan, n);
    if next != scan {
      forall s | 0 <= s < n && s != scan && es'[s].key != 0
                 && Dist(bucket(es'[s].key), scan, n) < Dist(bucket(es'[s].key), s, n)
        ensures Dist(scan, next, n) <= Dist(scan, s, n)
      {
      }
    }
  }

  lemma MovePlaced<V>(es: seq<Entry<V>>, w: map<nat, nat>, rest: map<nat, V>, hole: nat, scan: nat)
    requires hole < |es| && scan < |es| && scan != hole && es[scan].key != 0
    requires Placed(es, w, rest, hole) && Located(es, w, hole)
    ensures var es', w' := es[hole := es[scan]], w[es[scan].key := hole];
            Placed(es', w', rest, scan) && Located(es', w', scan)
  {
    assert es[scan].key in w;
    assert w[es[scan].key := hole].Keys == w.Keys;
  }

  lemma ScanMoves<V>(es: seq<Entry<V>>, bucket: nat -> nat, w: map<nat, nat>, rest: map<nat, V>,
                     hole: nat, scan: nat, e: nat)
    requires InRange(bucket, |es|) && hole < |es| && scan < |es| && e < |es| && scan != hole
    requires Scanning(es, bucket, w, rest, hole, scan) && es[scan].key != 0 && es[e].key == 0
    requires Dist(hole, scan, |es|) <= Dist(hole, e, |es|)
    requires Dist(bucket(es[scan].key), hole, |es|)
             < Dist(bucket(es[scan].key), scan, |es|)
    ensures var es' := es[hole := es[scan]];
            var next := Next(scan, |es|);
            && Scanning(es', bucket, w[es[scan].key := hole], rest, scan, next)
            && next != scan && es'[e].key == 0
            && Dist(scan, next, |es|) <= Dist(scan, e, |es|) && Dist(next, e, |es|) < Dist(scan, e, |es|)
  {
    hide Placed, Located, Paths, Beyond;
    StepDistance(scan, scan, |es|);
    assert scan != e && hole != e;
    MovePaths(es, bucket, hole, scan);
    MovePlaced(es, w, rest, hole, scan);
    MoveBeyond(es, bucket, hole, scan);
  }

  lemma ScanEnds<V>(es: seq<Entry<V>>, bucket: nat -> nat, w: map<nat, nat>, rest: map<nat, V>,
                    hole: nat, scan: nat, blank: V)
    requires InRange(bucket, |es|) && hole < |es| && scan < |es| && scan != hole
    requires Scanning(es, bucket, w, rest, hole, scan) && es[scan].key == 0
    ensures var es' := es[hole := Entry(0, blank)];
            Reachable(es', bucket) && Indexed(es', w) && Contents(es', w) == rest
  {
    var n := |es|;
    var es' := es[hole := Entry(0, blank)];
    forall s | 0 <= s < n && es'[s].key != 0
      ensures Unbroken(es', bucket, s)
    {
      assert Unbroken(es, bucket, s);
      var h := bucket(es[s].key);
      if Dist(h, hole, n) < Dist(h, s, n) {
        assert false;
      }
    }
  }

  /**
   Remove the entry in slot `first` and close the gap by moving later entries of the cluster back
   whenever that brings them no further than their home bucket.
   */
  method Backshift<V>(entries: array<Entry<V>>, bucket: nat -> nat, first: nat, blank: V, ghost where: map<nat, nat>)
    returns (ghost w: map<nat, nat>)
    requires InRange(bucket, entries.Length) && first < entries.Length && entries[first].key != 0
    requires Reachable(entries[..], bucket) && Indexed(entries[..], where) && HasEmpty(entries[..])
    modifies entries
    ensures Reachable(entries[..], bucket) && Indexed(entries[..], w)
    ensures Contents(entries[..], w) == Contents(old(entries[..]), where) - {old(entries[first].key)}
  {
    var n := entries.Length;
    var hole: nat := first;
    ghost var es := entries[..];
    ghost var e: nat :| e < n && es[e].key == 0;
    w := where - {es[first].key};
    ghost var rest := Contents(es, where) - {es[first].key};
    var scan: nat := MaskedNext(hole, n);
    ScanStarts(es, bucket, where, hole, e);
    while entries[scan].key != 0
      invariant hole < n && scan < n && scan != hole && entries[..] == es
      invariant es[e].key == 0 && Dist(hole, scan, n) <= Dist(hole, e, n)
      invariant Scanning(es, bucket, w, rest, hole, scan)
      decreases Dist(scan, e, n)
    {
      var home := bucket(entries[scan].key);
      var holeDistance := MaskedDistance(home, hole, n);
      var scanDistance := MaskedDistance(home, scan, n);
      if holeDistance < scanDistance {
        ScanMoves(es, bucket, w, rest, hole, scan, e);
        w := w[entries[scan].key := hole];
        es := es[hole := es[scan]];
        entries[hole] := entries[scan];
        hole := scan;
      } else {
        ScanSkips(es, bucket, w, rest, hole, scan, e);
      }
      scan := MaskedNext(scan, n);
    }
    ScanEnds(es, bucket, w, rest, hole, scan, blank);
    entries[hole] := Entry(0, blank);
    assert entries[..] == es[hole := Entry(0, blank)];
  }
}
