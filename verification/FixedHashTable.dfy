/** The bounded open-addressing table of the adapter and the pipeline, refined to a finite map. */
module FixedHashTables {
  import opened Collections
  import opened Machine
  import opened Probing

  datatype InsertResult = Inserted | Duplicate | Full | InvalidKey

  function Pow2(n: nat): nat {
    if n == 0 then 1 else 2 * Pow2(n - 1)
  }

  ghost predicate PowerOfTwo(n: nat)
  {
    exists e: nat :: n == Pow2(e)
  }

  /** Doubling a power of two never jumps over a larger one. */
  lemma {:induction false} Pow2Order(a: nat, b: nat)
    requires a <= b
    ensures Pow2(a) <= Pow2(b) && (a < b ==> 2 * Pow2(a) <= Pow2(b))
    decreases b - a
  {
    if a < b {
      Pow2Order(a, b - 1);
    }
  }

  lemma Pow2Byte(n: nat)
    ensures Pow2(n + 8) == 256 * Pow2(n)
  {
    assert Pow2(n + 2) == 4 * Pow2(n);
    assert Pow2(n + 4) == 4 * Pow2(n + 2);
    assert Pow2(n + 6) == 4 * Pow2(n + 4);
  }

  lemma LowByte()
    ensures Pow2(7) == 128
  {
    assert Pow2(4) == 16;
  }

  lemma TopBit()
    ensures Pow2(63) == 0x8000_0000_0000_0000
  {
    hide Pow2;
    LowByte();
    Pow2Byte(7);
    Pow2Byte(15);
    Pow2Byte(23);
    Pow2Byte(31);
    Pow2Byte(39);
    Pow2Byte(47);
    Pow2Byte(55);
  }

  lemma BelowTop(e: nat)
    requires Pow2(e) <= U64_MAX / 2
    ensures e < 63 && Pow2(e + 1) == 2 * Pow2(e) <= 0x8000_0000_0000_0000
  {
    TopBit();
    if e >= 63 {
      Pow2Order(63, e);
    } else {
      Pow2Order(e, 63);
    }
  }

  /** Smallest doubling of 8 that holds twice the request; None models bad_array_new_length. */
  method RoundedCapacity(maximum: U64) returns (r: Option<nat>)
    ensures r.Some? <==> 0 < maximum <= 0x4000_0000_0000_0000
    ensures r.Some? ==> PowerOfTwo(r.value) && 8 <= r.value && 2 * maximum <= r.value
    ensures r.Some? && 8 < r.value ==> r.value < 4 * maximum
  {
    if maximum == 0 || maximum > U64_MAX / 2 {
      return None;
    }
    var capacity := 8;
    ghost var e: nat := 3;
    while capacity < maximum * 2
      invariant capacity == Pow2(e) && 8 <= capacity <= 0x8000_0000_0000_0000
      invariant 8 < capacity ==> capacity < 4 * maximum
    {
      if capacity > U64_MAX / 2 {
        return None;
      }
      BelowTop(e);
      capacity, e := capacity * 2, e + 1;
    }
    return Some(capacity);
  }

  class FixedHashTable<V(0)> {
    const bucket: nat -> nat
    const maximumEntries: nat
    const entries: array<Entry<V>>
    var size: nat
    ghost var Contents: map<nat, V>
    ghost var where: map<nat, nat>

    ghost predicate Valid()
      reads this, entries
    {
      && InRange(bucket, entries.Length) && maximumEntries < entries.Length
      && Reachable(entries[..], bucket) && Indexed(entries[..], where)
      && Contents == Probing.Contents(entries[..], where)
      && size == |Contents| <= maximumEntries
    }

    constructor (maximum: U64, hash: nat -> nat)
      requires 0 < maximum <= 0x4000_0000_0000_0000
      ensures Valid() && Contents == map[] && maximumEntries == maximum && fresh(entries)
    {
      var blank: V := *;
      var rounded := RoundedCapacity(maximum);
      var capacity := rounded.value;
      bucket := k => hash(k) % capacity;
      maximumEntries := maximum;
      entries := new Entry<V>[capacity](_ => Entry(0, blank));
      size, Contents, where := 0, map[], map[];
    }

    /** Slot of `key`, or the capacity when absent. */
    method FindSlot(key: nat) returns (slot: nat)
      requires Valid()
      ensures slot == if key in Contents then where[key] else entries.Length
      ensures key in Contents ==> slot < entries.Length && entries[slot] == Entry(key, Contents[key])
    {
      if key == 0 {
        return entries.Length;
      }
      var found, free;
      slot, found, free := Probe(entries, bucket, key, where);
      if !found {
        slot := entries.Length;
      }
    }

    method Find(key: nat) returns (r: Option<V>)
      requires Valid()
      ensures r == if key in Contents then Some(Contents[key]) else None
    {
      var slot := FindSlot(key);
      r := if slot == entries.Length then None else Some(entries[slot].value);
    }

    method Insert(key: nat, value: V) returns (r: InsertResult)
      requires Valid()
      modifies this, entries
      ensures Valid()
      ensures r == if key == 0 then InvalidKey
                   else if key in old(Contents) then Duplicate
                   else if |old(Contents)| == maximumEntries then Full
                   else Inserted
      ensures Contents == if r.Inserted? then old(Contents)[key := value] else old(Contents)
    {
      if key == 0 {
        return InvalidKey;
      }
      if size == maximumEntries {
        var known := Find(key);
        return if known == None then Full else Duplicate;
      }
      var slot, found, free := Probe(entries, bucket, key, where);
      if found {
        return Duplicate;
      }
      if free {
        StoreKeeps(entries[..], bucket, where, slot, Entry(key, value));
        ghost var es := entries[..];
        entries[slot] := Entry(key, value);
        assert entries[..] == es[slot := Entry(key, value)];
        size := size + 1;
        where := where[key := slot];
        Contents := Contents[key := value];
        return Inserted;
      }
      assert where.Keys == Contents.Keys;
      FewKeysLeaveEmpty(entries[..], where);
      return Full;
    }

    /** Overwrite the value of a present key through the pointer that find() returns. */
    method Assign(key: nat, value: V)
      requires Valid() && key in Contents
      modifies this`Contents, entries
      ensures Valid() && Contents == old(Contents)[key := value]
    {
      var slot := FindSlot(key);
      ghost var es := entries[..];
      entries[slot] := Entry(key, value);
      assert entries[..] == es[slot := Entry(key, value)];
      AssignKeeps(es, bucket, where, slot, value);
      assert Contents.Keys + {key} == Contents.Keys;
      Contents := Contents[key := value];
    }

    /** Take out the key of an occupied slot. */
    method EraseAt(key: nat, slot: nat)
      requires Valid() && key in Contents && slot < entries.Length && entries[slot].key == key && key != 0
      modifies this`where, this`Contents, this`size, entries
      ensures Valid() && Contents == old(Contents) - {key}
    {
      hide Reachable, Unbroken, HasEmpty;
      var blank: V := *;
      assert where.Keys == Contents.Keys;
      FewKeysLeaveEmpty(entries[..], where);
      Smaller(Contents, key);
      ghost var rest := Contents - {key};
      where := Backshift(entries, bucket, slot, blank, where);
      Contents, size := rest, size - 1;
    }

    method Erase(key: nat) returns (ok: bool)
      requires Valid()
      modifies this, entries
      ensures Valid()
      ensures ok <==> key in old(Contents)
      ensures Contents == old(Contents) - {key}
    {
      hide Reachable, Unbroken, HasEmpty;
      var slot := FindSlot(key);
      if slot == entries.Length {
        assert Contents == Contents - {key};
        return false;
      }
      EraseAt(key, slot);
      return true;
    }
  }
}
