/** The table as the program updates it: an entry array written in place and a counter. */
module HashTableObject {
  import opened Wrappers
  import opened Cyclic
  import opened HashTable

  class OpenTable<K(==)> {
    const hash: K -> nat
    var entries: array<Slot<K>>
    var count: nat

    ghost function View(): (t: Table<K>)
      reads this, entries
    {
      Table(entries[..], count)
    }

    constructor (hash: K -> nat, size: nat)
      ensures this.hash == hash && fresh(entries) && entries.Length == size && count == 0
      ensures View() == EmptyTable(size)
    {
      this.hash := hash;
      entries := new Slot<K>[size](_ => Empty);
      count := 0;
    }

    /** Returns false when the probing assertion fails; the table is then untouched. A successful
        call has moved past at most `entries.Length - 1` slots. */
    method Put(key: K, value: int) returns (ok: bool, probes: nat)
      requires 0 < entries.Length
      modifies this`count, entries
      ensures var r := HashTable.Put(old(View()), hash, key, value);
              if ok then r.Some? && View() == r.value else r == None && View() == old(View())
      ensures ok ==> probes == ProbeDistance(old(entries[..]), Home(hash, key, entries.Length), key, 0)
      ensures ok ==> probes <= entries.Length - 1
    {
      var n := entries.Length;
      var index := hash(key) % n;
      ghost var s := entries[..];
      probes := 0;
      if entries[index].Empty? {
        entries[index] := Entry(key, value);
        count := count + 1;
        return true, 0;
      }
      var i := index;
      while entries[i].Entry? && entries[i].key != key
        invariant 0 <= probes < n && 0 <= i < n && i == Wrap(index, probes, n)
        invariant entries[..] == s && count == old(count)
        invariant ProbeDistance(s, index, key, 0) == ProbeDistance(s, index, key, probes)
        decreases n - probes
      {
        assert s[i] == entries[i];
        probes := probes + 1;
        if probes >= n {
          return false, probes;
        }
        NextSlot(index, probes - 1, n);
        i := (i + 1) % n;
      }
      assert s[i] == entries[i];
      if entries[i].Empty? {
        count := count + 1;
      }
      entries[i] := Entry(key, value);
      assert entries[..] == s[i := Entry(key, value)];
      ok := true;
    }

    /** The counter is a size_t. In a one-slot table holding another key the search comes back to that slot
        until the counter wraps around to zero, which is less than the one entry there is. */
    method Get(key: K) returns (r: Lookup)
      requires 0 < entries.Length
      requires Valid(View(), hash)
      ensures r == HashTable.Get(View(), hash, key)
    {
      var n := entries.Length;
      var index := hash(key) % n;
      if entries[index].Empty? {
        return Missing;
      }
      CountIsPositive(View(), index);
      var probes := 0;
      while true
        invariant 0 <= index < n && 0 <= probes < SIZE_MODULUS
        invariant probes == 0 ==> index == Home(hash, key, n) && entries[index].Entry?
        invariant probes > 0 ==> count == 1 && !Holds(entries[Home(hash, key, n)], key) && entries[Home(hash, key, n)].Entry?
        invariant probes > 0 ==> if n == 1 then index == 0 else probes == 1 && entries[index].Empty?
        decreases SIZE_MODULUS - probes
      {
        if entries[index].Empty? {
          return NullKey;
        }
        if entries[index].key == key {
          return Found(entries[index].value);
        }
        probes := (probes + 1) % SIZE_MODULUS;
        if probes < count {
          return Missing;
        }
        if n > 1 { OneEntryOnly(View(), index, (index + 1) % n); }
        index := (index + 1) % n;
      }
    }
  }

  const SIZE_MODULUS := 0x1_0000_0000_0000_0000

  function EmptyTable<K>(size: nat): (t: Table<K>)
    ensures |t.slots| == size && t.count == 0 && forall i :: 0 <= i < size ==> t.slots[i] == Empty
  {
    Table(seq(size, _ => Empty), 0)
  }

  lemma CountIsPositive<K>(t: Table<K>, i: nat)
    requires t.count == Sum(OccupiedBits(t.slots)) && i < |t.slots| && t.slots[i].Entry?
    ensures 0 < t.count
  {
    var b := OccupiedBits(t.slots);
    SumUpdate(b, i, 0);
    SumBounded(b[i := 0], 0);
  }

  lemma OneEntryOnly<K>(t: Table<K>, i: nat, j: nat)
    requires t.count == Sum(OccupiedBits(t.slots)) && t.count == 1
    requires i < |t.slots| && j < |t.slots| && i != j && t.slots[i].Entry?
    ensures t.slots[j].Empty?
  {
    var b := OccupiedBits(t.slots);
    SumUpdate(b, i, 0);
    if t.slots[j].Entry? {
      SumUpdate(b[i := 0], j, 0);
      SumBounded(b[i := 0][j := 0], 0);
    }
  }
}
