/** The tables that runs of `put` reach: the invariant is exact up to how a full table was filled. */
module HashTableReach {
  import opened Wrappers
  import opened Cyclic
  import opened HashTable
  import opened HashTableObject
  import opened HashTableRuns

  ghost predicate Reaches<K(!new)>(t: Table<K>, hash: K -> nat, ops: seq<Op<K>>) {
    0 < |t.slots| && Run(|t.slots|, hash, ops) == Some(t)
  }

  /** The entries at most `m` steps behind slot `f`. */
  function UpTo<K>(s: seq<Slot<K>>, f: nat, m: nat): (p: seq<Slot<K>>)
    requires f < |s|
    ensures |p| == |s|
    ensures forall i :: 0 <= i < |s| ==> p[i] == if Distance(f, i, |s|) <= m then s[i] else Empty
  {
    seq(|s|, i requires 0 <= i < |s| => if Distance(f, i, |s|) <= m then s[i] else Empty)
  }

  /** Seen from a home `h` that is nearer to slot `i` than slot `f` is, the way to `i` leads past slots behind
      `f` only; from any other home it leads past `f`. */
  lemma WayTo(f: nat, h: nat, i: nat, n: nat)
    requires f < n && h < n && i < n
    ensures Distance(f, i, n) <= Distance(h, i, n) ==> Wrap(h, Distance(h, i, n) - Distance(f, i, n), n) == f
    ensures Distance(h, i, n) < Distance(f, i, n) ==>
              forall j :: 0 <= j <= Distance(h, i, n) ==>
                Distance(f, Wrap(h, j, n), n) == Distance(f, i, n) - Distance(h, i, n) + j
  {
  }

  /** Once everything between a free slot and slot `i` is in place, probing for the key of slot `i` ends at `i`. */
  lemma ProbeEndsAtSlot<K>(t: Table<K>, hash: K -> nat, f: nat, i: nat)
    requires Valid(t, hash) && f < |t.slots| && i < |t.slots| && t.slots[f].Empty? && t.slots[i].Entry?
    ensures var n, k := |t.slots|, t.slots[i].key;
            var h := Home(hash, k, n);
            Distance(f, i, n) > 0 && ProbeDistance(UpTo(t.slots, f, Distance(f, i, n) - 1), h, k, 0) == Distance(h, i, n)
  {
    var n, k := |t.slots|, t.slots[i].key;
    var h := Home(hash, k, n);
    var m := Distance(f, i, n) - 1;
    var d := Distance(h, i, n);
    WayTo(f, h, i, n);
    assert d <= m;
    var p := UpTo(t.slots, f, m);
    forall j | 0 <= j < d ensures p[Wrap(h, j, n)].Entry? && p[Wrap(h, j, n)].key != k {
      assert Distance(f, Wrap(h, j, n), n) <= m;
      assert t.slots[Wrap(h, j, n)].Entry?;
    }
    assert p[Wrap(h, d, n)].Empty?;
    var r := ProbeDistance(p, h, k, 0);
  }

  lemma NothingPlaced<K(!new)>(s: seq<Slot<K>>, f: nat)
    requires f < |s| && s[f].Empty?
    ensures UpTo(s, f, 0) == EmptyTable<K>(|s|).slots
  {
  }

  lemma AllPlaced<K>(s: seq<Slot<K>>, f: nat)
    requires f < |s|
    ensures UpTo(s, f, |s| - 1) == s
  {
  }

  lemma OneMorePlaced<K>(s: seq<Slot<K>>, f: nat, m: nat)
    requires f < |s| && m + 1 < |s|
    ensures UpTo(s, f, m + 1) == UpTo(s, f, m)[Wrap(f, m + 1, |s|) := s[Wrap(f, m + 1, |s|)]]
  {
  }

  /** Putting the entries in cyclic order from behind a free slot rebuilds the slots. */
  lemma {:induction false} Rebuild<K(!new)>(t: Table<K>, hash: K -> nat, f: nat, m: nat) returns (ops: seq<Op<K>>)
    requires Valid(t, hash) && f < |t.slots| && t.slots[f].Empty? && m < |t.slots|
    ensures Run(|t.slots|, hash, ops).Some? && Run(|t.slots|, hash, ops).value.slots == UpTo(t.slots, f, m)
    decreases m
  {
    if m == 0 {
      ops := [];
      NothingPlaced(t.slots, f);
    } else {
      ops := Rebuild(t, hash, f, m - 1);
      var i := Wrap(f, m, |t.slots|);
      OneMorePlaced(t.slots, f, m - 1);
      if t.slots[i].Empty? {
        assert UpTo(t.slots, f, m) == UpTo(t.slots, f, m - 1);
      } else {
        var op := Op(t.slots[i].key, t.slots[i].value);
        PlaceNext(t, hash, f, i, Run(|t.slots|, hash, ops).value);
        RunOneMore(|t.slots|, hash, ops, op);
        ops := ops + [op];
      }
    }
  }

  lemma PlaceNext<K(!new)>(t: Table<K>, hash: K -> nat, f: nat, i: nat, before: Table<K>)
    requires Valid(t, hash) && f < |t.slots| && i < |t.slots| && t.slots[f].Empty? && t.slots[i].Entry?
    requires Distance(f, i, |t.slots|) > 0 && before.slots == UpTo(t.slots, f, Distance(f, i, |t.slots|) - 1)
    ensures var r := Put(before, hash, t.slots[i].key, t.slots[i].value);
            r.Some? && r.value.slots == before.slots[i := t.slots[i]]
  {
    ProbeEndsAtSlot(t, hash, f, i);
  }

  lemma RunOneMore<K(!new)>(n: nat, hash: K -> nat, ops: seq<Op<K>>, op: Op<K>)
    requires 0 < n && Run(n, hash, ops).Some?
    ensures Run(n, hash, ops + [op]) == Put(Run(n, hash, ops).value, hash, op.key, op.value)
  {
    assert (ops + [op])[..|ops|] == ops;
  }

  /** Every valid table with a free slot is the table of a run. */
  lemma ReachableWithFreeSlot<K(!new)>(t: Table<K>, hash: K -> nat, f: nat) returns (ops: seq<Op<K>>)
    requires Valid(t, hash) && f < |t.slots| && t.slots[f].Empty?
    ensures Reaches(t, hash, ops)
  {
    ops := Rebuild(t, hash, f, |t.slots| - 1);
    AllPlaced(t.slots, f);
    RunRefinesMap(|t.slots|, hash, ops);
  }

  /** The table without the entry of slot `i`. */
  function Without<K>(t: Table<K>, i: nat): Table<K>
    requires i < |t.slots| && 0 < t.count
  {
    Table(t.slots[i := Empty], t.count - 1)
  }

  /** Some entry could have come last: without it every chain is still unbroken. */
  ghost predicate HasLast<K(!new)>(s: seq<Slot<K>>, hash: K -> nat)
    requires 0 < |s|
  {
    exists i :: 0 <= i < |s| && s[i].Entry? && Chained(s[i := Empty], hash)
  }

  ghost predicate HasFree<K>(s: seq<Slot<K>>) { exists f :: 0 <= f < |s| && s[f].Empty? }

  lemma WithoutIsValid<K>(t: Table<K>, hash: K -> nat, i: nat)
    requires Valid(t, hash) && i < |t.slots| && t.slots[i].Entry? && Chained(t.slots[i := Empty], hash)
    ensures 0 < t.count && Valid(Without(t, i), hash)
  {
    CountIsPositive(t, i);
    SumUpdate(OccupiedBits(t.slots), i, 0);
    assert OccupiedBits(t.slots[i := Empty]) == OccupiedBits(t.slots)[i := 0];
    var s := t.slots[i := Empty];
    assert forall j :: 0 <= j < |s| && s[j].Entry? ==> s[j] == t.slots[j];
  }

  /** In a full table the entry that could have come last is found by probing past all others. */
  lemma PutBack<K(!new)>(t: Table<K>, hash: K -> nat, i: nat)
    requires Valid(t, hash) && !HasFree(t.slots) && i < |t.slots| && 0 < t.count
    ensures t.slots[i].Entry? && Put(Without(t, i), hash, t.slots[i].key, t.slots[i].value) == Some(t)
  {
    var s, n := t.slots, |t.slots|;
    assert s[i].Entry?;
    var k := s[i].key;
    var h := Home(hash, k, n);
    var d := Distance(h, i, n);
    var s' := s[i := Empty];
    forall j | 0 <= j < n && j != i ensures s'[j].Entry? && s'[j].key != k {
      assert !s[j].Empty?;
    }
    assert Wrap(h, d, n) == i;
    forall j | 0 <= j < d ensures Wrap(h, j, n) != i {}
    var r := ProbeDistance(s', h, k, 0);
    assert r == d;
    assert s'[i := s[i]] == s;
  }

  lemma ReachableWhenFull<K(!new)>(t: Table<K>, hash: K -> nat) returns (ops: seq<Op<K>>)
    requires Valid(t, hash) && !HasFree(t.slots) && HasLast(t.slots, hash)
    ensures Reaches(t, hash, ops)
  {
    var i :| 0 <= i < |t.slots| && t.slots[i].Entry? && Chained(t.slots[i := Empty], hash);
    WithoutIsValid(t, hash, i);
    ops := ReachableWithFreeSlot(Without(t, i), hash, i);
    RunOneMore(|t.slots|, hash, ops, Op(t.slots[i].key, t.slots[i].value));
    PutBack(t, hash, i);
    ops := ops + [Op(t.slots[i].key, t.slots[i].value)];
  }

  /** Chains depend on the keys only. */
  lemma ChainsIgnoreValues<K>(s: seq<Slot<K>>, i: nat, v: int, j: nat, hash: K -> nat)
    requires i < |s| && j < |s| && s[i].Entry? && Chained(s[j := Empty], hash)
    ensures Chained(s[i := Entry(s[i].key, v)][j := Empty], hash)
  {
    var a, b := s[j := Empty], s[i := Entry(s[i].key, v)][j := Empty];
    assert forall c :: 0 <= c < |s| ==> (a[c].Entry? <==> b[c].Entry?) && (a[c].Entry? ==> a[c].key == b[c].key);
  }

  lemma PutKeepsLast<K(!new)>(t: Table<K>, hash: K -> nat, k: K, v: int)
    requires Valid(t, hash) && (HasFree(t.slots) || HasLast(t.slots, hash))
    requires Put(t, hash, k, v).Some?
    ensures var s := Put(t, hash, k, v).value.slots; 0 < |s| && (HasFree(s) || HasLast(s, hash))
  {
    var s, n := t.slots, |t.slots|;
    var h := Home(hash, k, n);
    var i := Wrap(h, ProbeDistance(s, h, k, 0), n);
    var s' := s[i := Entry(k, v)];
    if s[i].Empty? {
      assert s'[i := Empty] == s;
      assert s'[i].Entry? && Chained(s'[i := Empty], hash);
    } else if f :| 0 <= f < n && s[f].Empty? {
      assert s'[f].Empty?;
    } else {
      var j :| 0 <= j < n && s[j].Entry? && Chained(s[j := Empty], hash);
      ChainsIgnoreValues(s, i, v, j, hash);
      assert s'[j].Entry? && Chained(s'[j := Empty], hash);
    }
  }

  lemma {:induction false} RunHasLast<K(!new)>(n: nat, hash: K -> nat, ops: seq<Op<K>>)
    requires 0 < n && Run(n, hash, ops).Some?
    ensures var s := Run(n, hash, ops).value.slots; 0 < |s| && (HasFree(s) || HasLast(s, hash))
  {
    if ops == [] {
      assert EmptyTable<K>(n).slots[0].Empty?;
    } else {
      var last := |ops| - 1;
      RunHasLast(n, hash, ops[..last]);
      RunRefinesMap(n, hash, ops[..last]);
      PutKeepsLast(Run(n, hash, ops[..last]).value, hash, ops[last].key, ops[last].value);
    }
  }

  /** Exactly which tables runs reach: the valid ones that have a free slot or an entry that could have come
      last. */
  lemma ReachableIff<K(!new)>(t: Table<K>, hash: K -> nat)
    ensures (exists ops :: Reaches(t, hash, ops)) <==> Valid(t, hash) && (HasFree(t.slots) || HasLast(t.slots, hash))
  {
    if ops :| Reaches(t, hash, ops) {
      RunRefinesMap(|t.slots|, hash, ops);
      RunHasLast(|t.slots|, hash, ops);
    }
    if Valid(t, hash) && (HasFree(t.slots) || HasLast(t.slots, hash)) {
      var ops: seq<Op<K>>;
      if f :| 0 <= f < |t.slots| && t.slots[f].Empty? {
        ops := ReachableWithFreeSlot(t, hash, f);
      } else {
        ops := ReachableWhenFull(t, hash);
      }
    }
  }

  lemma BrokenChain<K>(s: seq<Slot<K>>, hash: K -> nat, i: nat)
    requires i < |s| && s[i].Entry? && s[Home(hash, s[i].key, |s|)].Empty?
    ensures !Chained(s, hash)
  {
    var h := Home(hash, s[i].key, |s|);
    assert 0 < Distance(h, i, |s|) && s[Wrap(Home(hash, s[i].key, |s|), 0, |s|)].Empty?;
  }

  /** A valid table that no run reaches: two slots, and each key in the other's home. */
  lemma CrossedHomes<K(!new)>(a: K, b: K, hash: K -> nat, ops: seq<Op<K>>)
    requires a != b && Home(hash, a, 2) == 0 && Home(hash, b, 2) == 1
    ensures var t := Table([Entry(b, 0), Entry(a, 0)], 2);
            Valid(t, hash) && !Reaches(t, hash, ops)
  {
    var s: seq<Slot<K>> := [Entry(b, 0), Entry(a, 0)];
    var bits := OccupiedBits(s);
    assert bits == [1, 1] && bits[..1] == [1] && bits[..1][..0] == [];
    assert Sum([1]) == 1;
    BrokenChain(s[0 := Empty], hash, 1);
    BrokenChain(s[1 := Empty], hash, 0);
    ReachableIff(Table(s, 2), hash);
  }
}
