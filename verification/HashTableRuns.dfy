/** Whole runs of `put` calls from an empty table. */
module HashTableRuns {
  import opened Wrappers
  import opened Probing
  import opened HashTable
  import opened HashTableObject

  datatype Op<+K> = Op(key: K, value: int)

  /** The table after a run of puts; `None` once the program has aborted. */
  function Run<K(==,!new)>(n: nat, hash: K -> nat, ops: seq<Op<K>>): (r: Option<Table<K>>)
    requires 0 < n
    ensures r.Some? ==> |r.value.slots| == n
  {
    if ops == [] then Some(EmptyTable(n))
    else
      var last := |ops| - 1;
      match Run(n, hash, ops[..last])
      case None => None
      case Some(t) => Put(t, hash, ops[last].key, ops[last].value)
  }

  /** The reference: a map that remembers the last value put for each key. */
  function LastWrites<K(==)>(ops: seq<Op<K>>): (m: map<K, int>) {
    if ops == [] then map[]
    else LastWrites(ops[..|ops| - 1])[ops[|ops| - 1].key := ops[|ops| - 1].value]
  }

  /** The keys of a run in the order of their first put. */
  function FirstPuts<K(==,!new)>(ops: seq<Op<K>>): (ks: seq<K>)
    ensures forall i, j :: 0 <= i < j < |ks| ==> ks[i] != ks[j]
    ensures forall k :: k in ks <==> k in LastWrites(ops)
  {
    if ops == [] then []
    else
      var last := |ops| - 1;
      var before := FirstPuts(ops[..last]);
      if ops[last].key in before then before else before + [ops[last].key]
  }

  lemma EmptyIsValid<K(!new)>(n: nat, hash: K -> nat)
    requires 0 < n
    ensures Valid(EmptyTable<K>(n), hash) && Contents(EmptyTable<K>(n).slots) == map[]
    ensures Sum(Displacements(EmptyTable<K>(n).slots, hash)) == 0
  {
    var s := EmptyTable<K>(n).slots;
    SumOfZeros(OccupiedBits(s));
    SumOfZeros(Displacements(s, hash));
  }

  lemma {:induction false} SumOfZeros(a: seq<int>)
    requires forall i :: 0 <= i < |a| ==> a[i] == 0
    ensures Sum(a) == 0
  {
    if a != [] { SumOfZeros(a[..|a| - 1]); }
  }

  lemma RefinementStep<K(!new)>(t: Table<K>, n: nat, hash: K -> nat, m: map<K, int>, k: K, v: int)
    requires Valid(t, hash) && |t.slots| == n && Contents(t.slots) == m && t.count == |m| <= n
    ensures var r := Put(t, hash, k, v);
            && (r.Some? <==> |m[k := v]| <= n)
            && (r.Some? ==> |r.value.slots| == n && Valid(r.value, hash) &&
                            Contents(r.value.slots) == m[k := v] && r.value.count == |m[k := v]|)
  {
    PutRefinesMapUpdate(t, hash, k, v);
    UpdateSize(m, k, v);
  }

  lemma UpdateSize<K>(m: map<K, int>, k: K, v: int)
    ensures |m[k := v]| == |m| + if k in m then 0 else 1
  {
  }

  /** Every run refines the reference map, and aborts exactly when it puts more distinct keys than
      there are slots. */
  lemma {:induction false} RunRefinesMap<K(!new)>(n: nat, hash: K -> nat, ops: seq<Op<K>>)
    requires 0 < n
    ensures Run(n, hash, ops).Some? <==> |LastWrites(ops)| <= n
    ensures Run(n, hash, ops).Some? ==> Refines(Run(n, hash, ops).value, hash, LastWrites(ops))
  {
    if ops == [] {
      EmptyIsValid(n, hash);
    } else {
      var last := |ops| - 1;
      RunRefinesMap(n, hash, ops[..last]);
      UpdateSize(LastWrites(ops[..last]), ops[last].key, ops[last].value);
      if Run(n, hash, ops[..last]).Some? {
        RefinementStep(Run(n, hash, ops[..last]).value, n, hash, LastWrites(ops[..last]), ops[last].key, ops[last].value);
      }
    }
  }

  /** A table in good order that stands for the map `m`. */
  ghost predicate Refines<K(!new)>(t: Table<K>, hash: K -> nat, m: map<K, int>) {
    Valid(t, hash) && Contents(t.slots) == m && t.count == |m|
  }

  function HomeOf<K(!new)>(hash: K -> nat, n: nat): (home: K -> nat)
    requires 0 < n
    ensures forall k :: home(k) == Home(hash, k, n)
  {
    k => Home(hash, k, n)
  }

  function FreshLayout(n: nat): Layout {
    Layout(seq(n, _ => false), 0, true)
  }

  /** The layout `l` describes the slots `s`. */
  ghost predicate Describes<K>(l: Layout, s: seq<Slot<K>>, hash: K -> nat)
    requires 0 < |s|
  {
    l.fits && l.occ == Occupied(s) && l.displacement == Sum(Displacements(s, hash))
  }

  lemma LayoutStep<K(!new)>(l: Layout, t: Table<K>, hash: K -> nat, k: K, v: int)
    requires Valid(t, hash) && Put(t, hash, k, v).Some? && Describes(l, t.slots, hash)
    ensures var s' := Put(t, hash, k, v).value.slots;
            && (k in Contents(t.slots) ==> Describes(l, s', hash))
            && (k !in Contents(t.slots) ==> Describes(Insert(l, Home(hash, k, |t.slots|)), s', hash))
  {
    PutLaysOut(t, hash, k, v);
  }

  lemma InsertLast<K(!new)>(l: Layout, home: K -> nat, ks: seq<K>, k: K)
    requires HomesInRange(home, |l.occ|)
    ensures InsertAll(l, home, ks + [k]) == Insert(InsertAll(l, home, ks), home(k))
  {
    var all := ks + [k];
    InTwoBatches(l, home, all, |ks|);
    assert all[..|ks|] == ks && all[|ks|..] == [k];
    InsertOne(InsertAll(l, home, ks), home, k);
  }

  /** The layout of a run depends only on the order of first puts. */
  lemma {:induction false} RunFollowsFirstPuts<K(!new)>(n: nat, hash: K -> nat, ops: seq<Op<K>>)
    requires 0 < n && Run(n, hash, ops).Some?
    ensures Describes(InsertAll(FreshLayout(n), HomeOf(hash, n), FirstPuts(ops)), Run(n, hash, ops).value.slots, hash)
  {
    if ops == [] {
      EmptyIsValid(n, hash);
    } else {
      var last := |ops| - 1;
      var before, k := FirstPuts(ops[..last]), ops[last].key;
      var l, t := InsertAll(FreshLayout(n), HomeOf(hash, n), before), Run(n, hash, ops[..last]).value;
      RunFollowsFirstPuts(n, hash, ops[..last]);
      RunRefinesMap(n, hash, ops[..last]);
      LayoutStep(l, t, hash, k, ops[last].value);
      if k !in before { InsertLast(FreshLayout(n), HomeOf(hash, n), before, k); }
    }
  }

  lemma InsertOne<K(!new)>(l: Layout, home: K -> nat, k: K)
    requires HomesInRange(home, |l.occ|)
    ensures InsertAll(l, home, [k]) == Insert(l, home(k))
  {
  }

  lemma {:induction false} DistinctMultiset<K(!new)>(ks: seq<K>, k: K)
    requires forall i, j :: 0 <= i < j < |ks| ==> ks[i] != ks[j]
    ensures multiset(ks)[k] == if k in ks then 1 else 0
  {
    if ks != [] {
      var last := |ks| - 1;
      DistinctMultiset(ks[..last], k);
      assert ks == ks[..last] + [ks[last]];
    }
  }

  lemma SameKeysArePermuted<K(!new)>(ks: seq<K>, ks': seq<K>)
    requires forall i, j :: 0 <= i < j < |ks| ==> ks[i] != ks[j]
    requires forall i, j :: 0 <= i < j < |ks'| ==> ks'[i] != ks'[j]
    requires forall k :: k in ks <==> k in ks'
    ensures multiset(ks) == multiset(ks')
  {
    forall k ensures multiset(ks)[k] == multiset(ks')[k] {
      DistinctMultiset(ks, k);
      DistinctMultiset(ks', k);
    }
  }

  /** Order independence: two runs that put the same set of keys, in any orders, with any values and
      any repetitions, fill the same slots and have the same total displacement from home. */
  lemma LayoutIsOrderIndependent<K(!new)>(n: nat, hash: K -> nat, ops: seq<Op<K>>, ops': seq<Op<K>>)
    requires 0 < n && Run(n, hash, ops).Some?
    requires LastWrites(ops).Keys == LastWrites(ops').Keys
    ensures Run(n, hash, ops').Some?
    ensures var s, s' := Run(n, hash, ops).value.slots, Run(n, hash, ops').value.slots;
            Occupied(s) == Occupied(s') && Sum(Displacements(s, hash)) == Sum(Displacements(s', hash))
  {
    assert Run(n, hash, ops').Some? by {
      RunRefinesMap(n, hash, ops);
      RunRefinesMap(n, hash, ops');
      assert |LastWrites(ops)| == |LastWrites(ops).Keys| && |LastWrites(ops')| == |LastWrites(ops').Keys|;
    }
    SameKeysArePermuted(FirstPuts(ops), FirstPuts(ops'));
    RunFollowsFirstPuts(n, hash, ops);
    RunFollowsFirstPuts(n, hash, ops');
    OrderDoesNotMatter(FreshLayout(n), HomeOf(hash, n), FirstPuts(ops), FirstPuts(ops'));
  }

  // ---------------------------------------------------------------- what get can reach

  /** The call at which `k` is first put. */
  ghost function FirstPutAt<K(!new)>(ops: seq<Op<K>>, k: K): (i: nat)
    requires k in LastWrites(ops)
    ensures i < |ops| && ops[i].key == k
    ensures k !in LastWrites(ops[..i])
  {
    var last := |ops| - 1;
    if k in LastWrites(ops[..last]) then
      var i := FirstPutAt(ops[..last], k);
      assert ops[..last][..i] == ops[..i];
      i
    else last
  }

  /** A key never changes its slot. */
  lemma {:induction false} KeysStay<K(!new)>(n: nat, hash: K -> nat, ops: seq<Op<K>>, j: nat, i: nat)
    requires 0 < n && Run(n, hash, ops).Some? && j <= |ops| && i < n
    ensures Run(n, hash, ops[..j]).Some?
    ensures var before, after := Run(n, hash, ops[..j]).value.slots[i], Run(n, hash, ops).value.slots[i];
            before.Entry? ==> after.Entry? && after.key == before.key
    decreases |ops|
  {
    if j == |ops| {
      assert ops[..j] == ops;
    } else {
      var last := |ops| - 1;
      assert ops[..last][..j] == ops[..j];
      KeysStay(n, hash, ops[..last], j, i);
    }
  }

  /** A key sits in its home slot exactly when that slot was free at the key's first put. */
  lemma HomeWasFree<K(!new)>(n: nat, hash: K -> nat, ops: seq<Op<K>>, k: K)
    requires 0 < n && Run(n, hash, ops).Some? && k in LastWrites(ops)
    ensures var first := Run(n, hash, ops[..FirstPutAt(ops, k)]);
            && first.Some?
            && (Holds(Run(n, hash, ops).value.slots[Home(hash, k, n)], k) <==> first.value.slots[Home(hash, k, n)].Empty?)
  {
    var h, i := Home(hash, k, n), FirstPutAt(ops, k);
    KeysStay(n, hash, ops, i, h);
    KeysStay(n, hash, ops, i + 1, h);
    assert ops[..i + 1][..i] == ops[..i];
    RunRefinesMap(n, hash, ops[..i]);
    FirstPutSlot(Run(n, hash, ops[..i]).value, hash, k, ops[i].value);
  }

  lemma FirstPutSlot<K(!new)>(t: Table<K>, hash: K -> nat, k: K, v: int)
    requires Valid(t, hash) && k !in Contents(t.slots) && Put(t, hash, k, v).Some?
    ensures var h := Home(hash, k, |t.slots|);
            && |Put(t, hash, k, v).value.slots| == |t.slots|
            && (t.slots[h].Empty? ==> Put(t, hash, k, v).value.slots[h] == Entry(k, v))
            && (t.slots[h].Entry? ==> t.slots[h].key != k)
  {
  }

  /** After any run that leaves two or more keys, `get(k)` succeeds exactly when `k` sits in its home
      slot, that is, when that slot was free at `k`'s first put, and then gives the last value put. */
  lemma GetReach<K(!new)>(n: nat, hash: K -> nat, ops: seq<Op<K>>, k: K)
    requires 0 < n && Run(n, hash, ops).Some? && |LastWrites(ops)| >= 2
    ensures var t := Run(n, hash, ops).value;
            var r := Get(t, hash, k);
            && (r.Found? <==> Holds(t.slots[hash(k) % n], k))
            && (!r.Found? ==> r == Missing)
            && (r.Found? ==> k in LastWrites(ops) && r.value == LastWrites(ops)[k])
            && (r.Found? <==> k in LastWrites(ops) &&
                              Run(n, hash, ops[..FirstPutAt(ops, k)]).Some? &&
                              Run(n, hash, ops[..FirstPutAt(ops, k)]).value.slots[hash(k) % n].Empty?)
  {
    RunRefinesMap(n, hash, ops);
    var t := Run(n, hash, ops).value;
    var h := Home(hash, k, n);
    if Holds(t.slots[h], k) {
      assert k in Contents(t.slots) && Contents(t.slots)[k] == t.slots[h].value;
    }
    if k in LastWrites(ops) {
      HomeWasFree(n, hash, ops, k);
    }
  }

  /** When `get` says what the reference map says: exactly when `k` sits in its home slot, or is absent and
      its home slot does not hold the single entry of a larger table. */
  lemma GetAgreesWithMapIff<K(!new)>(n: nat, hash: K -> nat, ops: seq<Op<K>>, k: K)
    requires 0 < n && Run(n, hash, ops).Some?
    ensures var t := Run(n, hash, ops).value;
            var home := t.slots[Home(hash, k, n)];
            var reference := if k in LastWrites(ops) then Found(LastWrites(ops)[k]) else Missing;
            Get(t, hash, k) == reference <==>
              Holds(home, k) || (k !in LastWrites(ops) && (home.Entry? ==> t.count != 1 || n == 1))
  {
    RunRefinesMap(n, hash, ops);
    var t := Run(n, hash, ops).value;
    var h := Home(hash, k, n);
    if t.slots[h].Entry? {
      assert t.slots[h].key in Contents(t.slots) && Contents(t.slots)[t.slots[h].key] == t.slots[h].value;
    }
  }

  /** No two keys of the map share a home. */
  ghost predicate HomesApart<K(!new)>(m: map<K, int>, hash: K -> nat, n: nat)
    requires 0 < n
  {
    forall a, b :: a in m && b in m && hash(a) % n == hash(b) % n ==> a == b
  }

  /** A new key whose home no other key shares sits down there. */
  lemma SitsAtHome<K(!new)>(t: Table<K>, hash: K -> nat, k: K, v: int)
    requires Valid(t, hash) && HomesApart(Contents(t.slots)[k := v], hash, |t.slots|)
    requires forall i :: 0 <= i < |t.slots| && t.slots[i].Entry? ==> i == hash(t.slots[i].key) % |t.slots|
    ensures var h := hash(k) % |t.slots|;
            Put(t, hash, k, v).Some? && Put(t, hash, k, v).value.slots == t.slots[h := Entry(k, v)]
  {
    var h := Home(hash, k, |t.slots|);
    if t.slots[h].Entry? {
      assert t.slots[h].key in Contents(t.slots)[k := v] && k in Contents(t.slots)[k := v];
    }
    var d := ProbeDistance(t.slots, h, k, 0);
  }

  lemma {:induction false} AllAtHome<K(!new)>(n: nat, hash: K -> nat, ops: seq<Op<K>>)
    requires 0 < n && HomesApart(LastWrites(ops), hash, n) && Run(n, hash, ops).Some?
    ensures var s := Run(n, hash, ops).value.slots;
            forall i :: 0 <= i < n && s[i].Entry? ==> i == hash(s[i].key) % n
  {
    if ops != [] {
      var last := |ops| - 1;
      AllAtHome(n, hash, ops[..last]);
      RunRefinesMap(n, hash, ops[..last]);
      SitsAtHome(Run(n, hash, ops[..last]).value, hash, ops[last].key, ops[last].value);
    }
  }

  /** When no two keys share a home, `get` finds every key with the last value put. */
  lemma KeysApartAreFound<K(!new)>(n: nat, hash: K -> nat, ops: seq<Op<K>>, k: K)
    requires 0 < n && HomesApart(LastWrites(ops), hash, n) && Run(n, hash, ops).Some? && k in LastWrites(ops)
    ensures Get(Run(n, hash, ops).value, hash, k) == Found(LastWrites(ops)[k])
  {
    AllAtHome(n, hash, ops);
    RunRefinesMap(n, hash, ops);
    var s := Run(n, hash, ops).value.slots;
    var i :| 0 <= i < n && s[i].Entry? && s[i].key == k;
    assert Contents(s)[s[i].key] == s[i].value;
  }

  /** After a run of puts of one key only, `get` finds it; for another key with the same home it reads the NULL
      key of the next slot, if there is one. */
  lemma GetOfOneEntry<K(!new)>(n: nat, hash: K -> nat, ops: seq<Op<K>>, only: K, k: K)
    requires 0 < n && LastWrites(ops).Keys == {only} && Run(n, hash, ops).Some?
    ensures Get(Run(n, hash, ops).value, hash, k) ==
              if k == only then Found(LastWrites(ops)[only])
              else if hash(k) % n == hash(only) % n && n > 1 then NullKey
              else Missing
  {
    RunRefinesMap(n, hash, ops);
    AllAtHome(n, hash, ops);
    KeysApartAreFound(n, hash, ops, only);
    var t := Run(n, hash, ops).value;
    assert |LastWrites(ops)| == |LastWrites(ops).Keys|;
    var h := hash(k) % n;
    if t.slots[h].Entry? {
      assert t.slots[h].key in Contents(t.slots);
    }
  }

  /** `get` loses keys: with two slots and both keys at home 0, the second key put is not found. */
  lemma GetLosesAKey()
    ensures var ops := [Op("a", 1), Op("b", 2)];
            && Run(2, (k: string) => 0, ops).Some?
            && "b" in LastWrites(ops)
            && Get(Run(2, (k: string) => 0, ops).value, (k: string) => 0, "b") == Missing
  {
    var hash := (k: string) => 0;
    var ops := [Op("a", 1), Op("b", 2)];
    assert ops[..1] == [Op("a", 1)];
    TwoKeys("a", 1, "b", 2);
    RunRefinesMap(2, hash, ops);
    OnlyKeyIsHome(2, hash, "a", 1);
    KeysStay(2, hash, ops, 1, 0);
    assert ("a")[0] != ("b")[0];
  }

  lemma TwoKeys<K(!new)>(a: K, v: int, b: K, w: int)
    requires a != b
    ensures LastWrites([Op(a, v), Op(b, w)]) == map[a := v, b := w]
    ensures |LastWrites([Op(a, v), Op(b, w)])| == 2
  {
    var ops := [Op(a, v), Op(b, w)];
    assert ops[..1] == [Op(a, v)] && [Op(a, v)][..0] == [];
    assert LastWrites([Op(a, v)]) == map[a := v];
    assert map[a := v, b := w].Keys == {a, b};
  }

  lemma OnlyKeyIsHome<K(!new)>(n: nat, hash: K -> nat, k: K, v: int)
    requires 0 < n
    ensures Run(n, hash, [Op(k, v)]).Some?
    ensures Run(n, hash, [Op(k, v)]).value.slots[Home(hash, k, n)] == Entry(k, v)
  {
  }
}
