/** The open-addressing table: linear probing, no deletion, no resizing. Keys are compared by
    value, and the hash may be any function. */
module HashTable {
  import opened Wrappers
  import opened Cyclic
  import opened Probing

  /** An entry whose key pointer is NULL is `Empty`. */
  datatype Slot<+K> = Empty | Entry(key: K, value: int)

  datatype Table<+K> = Table(slots: seq<Slot<K>>, count: nat)

  /** What `get` can end with. `NullKey` is the string comparison reading the NULL key of an empty slot. */
  datatype Lookup = Found(value: int) | Missing | NullKey

  function Home<K>(hash: K -> nat, k: K, n: nat): (h: nat)
    requires 0 < n
    ensures h < n
  {
    hash(k) % n
  }

  predicate Holds<K(==)>(slot: Slot<K>, k: K) {
    slot.Entry? && slot.key == k
  }

  /** Probes made from slot `h`, at or after probe `j`, until a slot is empty or holds `k`;
      the number of slots if every one holds another key. */
  function ProbeDistance<K(==)>(s: seq<Slot<K>>, h: nat, k: K, j: nat): (r: nat)
    requires h < |s| && j <= |s|
    ensures j <= r <= |s|
    ensures forall m :: j <= m < r ==> s[Wrap(h, m, |s|)].Entry? && s[Wrap(h, m, |s|)].key != k
    ensures r < |s| ==> s[Wrap(h, r, |s|)].Empty? || s[Wrap(h, r, |s|)].key == k
    decreases |s| - j
  {
    if j == |s| || s[Wrap(h, j, |s|)].Empty? || s[Wrap(h, j, |s|)].key == k then j
    else ProbeDistance(s, h, k, j + 1)
  }

  /** The table after a `put`; `None` when the probing assertion fails and the program aborts. */
  function Put<K(==)>(t: Table<K>, hash: K -> nat, k: K, v: int): (r: Option<Table<K>>)
    requires 0 < |t.slots|
  {
    var n := |t.slots|;
    var h := Home(hash, k, n);
    var d := ProbeDistance(t.slots, h, k, 0);
    if d == n then None
    else
      var i := Wrap(h, d, n);
      Some(Table(t.slots[i := Entry(k, v)], t.count + if t.slots[i].Empty? then 1 else 0))
  }

  /** `get` as the program decides it: only the home slot is ever examined, unless the table holds a
      single entry, and then the next slot's NULL key is read, if there is a next slot. */
  function Get<K(==)>(t: Table<K>, hash: K -> nat, k: K): (r: Lookup)
    requires 0 < |t.slots|
  {
    var slot := t.slots[Home(hash, k, |t.slots|)];
    if slot.Empty? then Missing
    else if slot.key == k then Found(slot.value)
    else if t.count == 1 && |t.slots| > 1 then NullKey
    else Missing
  }

  // ---------------------------------------------------------------- sums over slots

  function Sum(a: seq<int>): int {
    if a == [] then 0 else Sum(a[..|a| - 1]) + a[|a| - 1]
  }

  lemma {:induction false} SumUpdate(a: seq<int>, i: nat, v: int)
    requires i < |a|
    ensures Sum(a[i := v]) == Sum(a) - a[i] + v
  {
    var last := |a| - 1;
    if i == last {
      assert a[i := v][..last] == a[..last];
    } else {
      SumUpdate(a[..last], i, v);
      assert a[i := v][..last] == a[..last][i := v];
    }
  }

  lemma {:induction false} SumBounded(a: seq<int>, i: nat)
    requires i < |a| && forall j :: 0 <= j < |a| ==> 0 <= a[j] <= 1
    ensures 0 <= Sum(a) <= |a|
    ensures Sum(a) < |a| <==> exists j :: 0 <= j < |a| && a[j] == 0
  {
    var last := |a| - 1;
    if last > 0 {
      SumBounded(a[..last], 0);
      if j :| 0 <= j < last && a[j] == 0 { assert a[..last][j] == 0; }
    }
  }

  function OccupiedBits<K>(s: seq<Slot<K>>): (b: seq<int>)
    ensures |b| == |s| && forall i :: 0 <= i < |s| ==> b[i] == if s[i].Entry? then 1 else 0
  {
    seq(|s|, i requires 0 <= i < |s| => if s[i].Entry? then 1 else 0)
  }

  function Displacements<K>(s: seq<Slot<K>>, hash: K -> nat): (b: seq<int>)
    requires 0 < |s|
    ensures |b| == |s|
    ensures forall i :: 0 <= i < |s| ==>
              b[i] == if s[i].Entry? then Distance(Home(hash, s[i].key, |s|), i, |s|) else 0
  {
    seq(|s|, i requires 0 <= i < |s| =>
      if s[i].Entry? then Distance(Home(hash, s[i].key, |s|), i, |s|) else 0)
  }

  function Occupied<K>(s: seq<Slot<K>>): (b: seq<bool>)
    ensures |b| == |s| && forall i :: 0 <= i < |s| ==> b[i] == s[i].Entry?
  {
    seq(|s|, i requires 0 <= i < |s| => s[i].Entry?)
  }

  // ---------------------------------------------------------------- the invariant

  ghost predicate DistinctKeys<K>(s: seq<Slot<K>>) {
    forall i, j :: 0 <= i < j < |s| && s[i].Entry? && s[j].Entry? ==> s[i].key != s[j].key
  }

  /** No empty slot lies cyclically between a key's home and its slot. */
  ghost predicate Chained<K>(s: seq<Slot<K>>, hash: K -> nat)
    requires 0 < |s|
  {
    forall i, m :: 0 <= i < |s| && s[i].Entry? && 0 <= m < Distance(Home(hash, s[i].key, |s|), i, |s|)
      ==> s[Wrap(Home(hash, s[i].key, |s|), m, |s|)].Entry?
  }

  ghost predicate Valid<K>(t: Table<K>, hash: K -> nat) {
    && 0 < |t.slots|
    && t.count == Sum(OccupiedBits(t.slots))
    && DistinctKeys(t.slots)
    && Chained(t.slots, hash)
  }

  /** The map a table stands for. */
  ghost function Contents<K>(s: seq<Slot<K>>): (m: map<K, int>)
    requires DistinctKeys(s)
  {
    map i | 0 <= i < |s| && s[i].Entry? :: s[i].key := s[i].value
  }

  lemma FullWhenNoneFree<K>(t: Table<K>, hash: K -> nat, h: nat)
    requires Valid(t, hash) && h < |t.slots|
    ensures t.count == |t.slots| <==> FreeDistance(Occupied(t.slots), h, 0) == |t.slots|
  {
    var s, n, b := t.slots, |t.slots|, OccupiedBits(t.slots);
    SumBounded(b, 0);
    var f := FreeDistance(Occupied(s), h, 0);
    if f < n {
      assert b[Wrap(h, f, n)] == 0;
    } else {
      forall i | 0 <= i < n ensures b[i] != 0 {
        assert Occupied(s)[Wrap(h, Distance(h, i, n), n)];
      }
    }
  }

  /** Probing for a key that the table holds stops at the key's own slot. */
  lemma ProbeFindsKey<K>(t: Table<K>, hash: K -> nat, i: nat)
    requires Valid(t, hash) && i < |t.slots| && t.slots[i].Entry?
    ensures var h := Home(hash, t.slots[i].key, |t.slots|);
            ProbeDistance(t.slots, h, t.slots[i].key, 0) == Distance(h, i, |t.slots|)
  {
  }

  /** Probing for any other key stops at the first free slot. */
  lemma ProbeFindsFree<K>(s: seq<Slot<K>>, h: nat, k: K)
    requires h < |s| && forall i :: 0 <= i < |s| && s[i].Entry? ==> s[i].key != k
    ensures ProbeDistance(s, h, k, 0) == FreeDistance(Occupied(s), h, 0)
  {
  }

  lemma ProbeFinds<K>(t: Table<K>, hash: K -> nat, k: K)
    requires Valid(t, hash)
    ensures
      var n := |t.slots|;
      var h := Home(hash, k, n);
      var d := ProbeDistance(t.slots, h, k, 0);
      && (d == n <==> t.count == n && k !in Contents(t.slots))
      && (d < n ==> (t.slots[Wrap(h, d, n)].Empty? <==> k !in Contents(t.slots)))
      && (k !in Contents(t.slots) ==> d == FreeDistance(Occupied(t.slots), h, 0))
  {
    var s, n := t.slots, |t.slots|;
    if k in Contents(s) {
      var i :| 0 <= i < n && s[i].Entry? && s[i].key == k;
      ProbeFindsKey(t, hash, i);
    } else {
      forall i | 0 <= i < n && s[i].Entry? ensures s[i].key != k {
        assert s[i].key in Contents(s);
      }
      ProbeFindsFree(s, Home(hash, k, n), k);
      FullWhenNoneFree(t, hash, Home(hash, k, n));
    }
  }

  /** Writing `k` where probing for it stops keeps keys distinct and every chain unbroken. */
  lemma WriteKeepsChains<K>(s: seq<Slot<K>>, hash: K -> nat, k: K, v: int, d: nat)
    requires 0 < |s| && DistinctKeys(s) && Chained(s, hash)
    requires d < |s| && d == ProbeDistance(s, Home(hash, k, |s|), k, 0)
    requires s[Wrap(Home(hash, k, |s|), d, |s|)].Empty? <==> k !in Contents(s)
    ensures var s' := s[Wrap(Home(hash, k, |s|), d, |s|) := Entry(k, v)];
            DistinctKeys(s') && Chained(s', hash)
  {
    var n, h := |s|, Home(hash, k, |s|);
    var i := Wrap(h, d, n);
    var s' := s[i := Entry(k, v)];
    forall j | 0 <= j < n && s[j].Entry? ensures s[j].key in Contents(s) {}
    assert DistinctKeys(s');
    assert Distance(h, i, n) == d;
    forall j, m | 0 <= j < n && s'[j].Entry? && 0 <= m < Distance(Home(hash, s'[j].key, n), j, n)
      ensures s'[Wrap(Home(hash, s'[j].key, n), m, n)].Entry?
    {
      if j != i { assert s'[j] == s[j]; }
    }
  }

  lemma WriteUpdatesContents<K>(s: seq<Slot<K>>, i: nat, k: K, v: int)
    requires i < |s| && DistinctKeys(s) && DistinctKeys(s[i := Entry(k, v)])
    requires s[i].Empty? || s[i].key == k
    ensures Contents(s[i := Entry(k, v)]) == Contents(s)[k := v]
  {
    var s' := s[i := Entry(k, v)];
    assert s'[i].key == k;
    forall q ensures q in Contents(s') <==> q in Contents(s)[k := v] {
      if q in Contents(s) && q != k {
        var j :| 0 <= j < |s| && s[j].Entry? && s[j].key == q;
        assert s'[j] == s[j];
      }
    }
  }

  /** `put` keeps the invariant, turns the map `m` into `m[k := v]`, and aborts exactly when the
      table is full and the key absent. */
  lemma PutRefinesMapUpdate<K>(t: Table<K>, hash: K -> nat, k: K, v: int)
    requires Valid(t, hash)
    ensures
      var r := Put(t, hash, k, v);
      && (r == None <==> t.count == |t.slots| && k !in Contents(t.slots))
      && (r.Some? ==>
            && |r.value.slots| == |t.slots|
            && Valid(r.value, hash)
            && Contents(r.value.slots) == Contents(t.slots)[k := v]
            && r.value.count == t.count + if k in Contents(t.slots) then 0 else 1)
  {
    ProbeFinds(t, hash, k);
    var s, n := t.slots, |t.slots|;
    var h := Home(hash, k, n);
    var d := ProbeDistance(s, h, k, 0);
    if d < n {
      var i := Wrap(h, d, n);
      WriteKeepsChains(s, hash, k, v, d);
      WriteUpdatesContents(s, i, k, v);
      assert OccupiedBits(s[i := Entry(k, v)]) == OccupiedBits(s)[i := 1];
      SumUpdate(OccupiedBits(s), i, 1);
    }
  }

  /** A new key takes the first free slot after its home, as `Probing.Insert` does; a known key moves nothing. */
  lemma PutLaysOut<K>(t: Table<K>, hash: K -> nat, k: K, v: int)
    requires Valid(t, hash) && Put(t, hash, k, v).Some?
    ensures
      var s, s' := t.slots, Put(t, hash, k, v).value.slots;
      && |s'| == |s|
      && (k in Contents(s) ==> Occupied(s') == Occupied(s) && Sum(Displacements(s', hash)) == Sum(Displacements(s, hash)))
      && (k !in Contents(s) ==>
            var d := FreeDistance(Occupied(s), Home(hash, k, |s|), 0);
            && d < |s|
            && Occupied(s') == Occupied(s)[Wrap(Home(hash, k, |s|), d, |s|) := true]
            && Sum(Displacements(s', hash)) == Sum(Displacements(s, hash)) + d)
  {
    ProbeFinds(t, hash, k);
    var s, n, h := t.slots, |t.slots|, Home(hash, k, |t.slots|);
    WriteLaysOut(s, hash, k, v, ProbeDistance(s, h, k, 0));
  }

  lemma WriteLaysOut<K>(s: seq<Slot<K>>, hash: K -> nat, k: K, v: int, d: nat)
    requires d < |s|
    requires var slot := s[Wrap(Home(hash, k, |s|), d, |s|)]; slot.Empty? || slot.key == k
    ensures var i := Wrap(Home(hash, k, |s|), d, |s|);
            var s' := s[i := Entry(k, v)];
            && Occupied(s') == Occupied(s)[i := true]
            && Sum(Displacements(s', hash)) == Sum(Displacements(s, hash)) + if s[i].Empty? then d else 0
  {
    var n, h := |s|, Home(hash, k, |s|);
    var i := Wrap(h, d, n);
    var s' := s[i := Entry(k, v)];
    assert Distance(h, i, n) == d;
    assert Displacements(s', hash) == Displacements(s, hash)[i := d];
    SumUpdate(Displacements(s, hash), i, d);
  }
}
