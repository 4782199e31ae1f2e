/** The id index of the dense book: an open-addressing map from order id to node index. */
module FixedOrderIndexes {
  import opened Machine
  import opened Probing
  import opened FixedHashTables

  class FixedOrderIndex {
    const bucket: nat -> nat
    const entries: array<Entry<nat>>
    ghost var Contents: map<nat, nat>
    ghost var where: map<nat, nat>

    ghost predicate Valid()
      reads this, entries
    {
      && InRange(bucket, entries.Length)
      && Reachable(entries[..], bucket) && Indexed(entries[..], where)
      && Contents == Probing.Contents(entries[..], where)
    }

    /** The table has at least four slots per order, so it is never more than a quarter full. */
    constructor (orders: U32, hash: nat -> nat)
      ensures Valid() && Contents == map[] && fresh(entries)
      ensures 8 <= entries.Length && 4 * orders <= entries.Length && PowerOfTwo(entries.Length)
    {
      var capacity := RoundedCapacity(orders);
      bucket := k => hash(k) % capacity;
      entries := new Entry<nat>[capacity](_ => Entry(0, 0));
      Contents, where := map[], map[];
    }

    static method RoundedCapacity(orders: U32) returns (result: nat)
      ensures PowerOfTwo(result) && 8 <= result && 4 * orders <= result
    {
      result := 8;
      ghost var e: nat := 3;
      while result < orders * 4
        invariant result == Pow2(e) && 8 <= result
      {
        result, e := result * 2, e + 1;
      }
    }

    /** False when the key is already present, is the reserved zero, or the table is full. */
    method Insert(key: nat, value: nat) returns (ok: bool)
      requires Valid()
      modifies this, entries
      ensures Valid()
      ensures ok ==> key != 0 && key !in old(Contents) && Contents == old(Contents)[key := value]
      ensures !ok ==> Contents == old(Contents)
      ensures key != 0 && key !in old(Contents) && |old(Contents)| < entries.Length ==> ok
    {
      if key == 0 {
        return false;
      }
      var slot, found, free := Probe(entries, bucket, key, where);
      if free {
        StoreKeeps(entries[..], bucket, where, slot, Entry(key, value));
        ghost var es := entries[..];
        entries[slot] := Entry(key, value);
        assert entries[..] == es[slot := Entry(key, value)];
        where := where[key := slot];
        Contents := Contents[key := value];
        return true;
      }
      if !found && |Contents| < entries.Length {
        assert where.Keys == Contents.Keys;
        FewKeysLeaveEmpty(entries[..], where);
      }
      return false;
    }

    /** The stored node, or INVALID; the all-ones key is never found. */
    method Find(key: nat) returns (value: nat)
      requires Valid()
      ensures value == if key in Contents && key != U64_MAX then Contents[key] else INVALID
    {
      if key == 0 || key == U64_MAX {
        return INVALID;
      }
      var slot, found, free := Probe(entries, bucket, key, where);
      value := if found then entries[slot].value else INVALID;
    }

    /** Erasing needs a free slot to stop at, which every caller's load factor guarantees. */
    method Erase(key: nat) returns (ok: bool)
      requires Valid() && |Contents| < entries.Length
      modifies this, entries
      ensures Valid()
      ensures ok <==> key in old(Contents)
      ensures Contents == old(Contents) - {key}
    {
      var slot, found, free := 0, false, false;
      if key != 0 {
        slot, found, free := Probe(entries, bucket, key, where);
      }
      if !found {
        assert Contents == Contents - {key};
        return false;
      }
      assert HasEmpty(entries[..]) by {
        assert where.Keys == Contents.Keys;
        FewKeysLeaveEmpty(entries[..], where);
      }
      where := Backshift(entries, bucket, slot, 0, where);
      Contents := Contents - {key};
      return true;
    }
  }
}
