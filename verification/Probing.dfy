/** Linear probing over a table of slots, independent of what the slots hold:
    which free slot an insertion takes,
    and how a whole list of insertions lays the table out. */
module Probing {

  import opened Cyclic
  import Permutations

  /** The number of probes to the first free slot at or after probe `j`; `|occ|` if there is none. */
  function FreeDistance(occ: seq<bool>, h: nat, j: nat): (r: nat)
    requires h < |occ| && j <= |occ|
    ensures j <= r <= |occ|
    ensures forall m :: j <= m < r ==> occ[Wrap(h, m, |occ|)]
    ensures r < |occ| ==> !occ[Wrap(h, r, |occ|)]
    decreases |occ| - j
  {
    if j == |occ| || !occ[Wrap(h, j, |occ|)] then j else FreeDistance(occ, h, j + 1)
  }

  lemma FreeDistanceIs(occ: seq<bool>, h: nat, r: nat)
    requires h < |occ| && r < |occ|
    requires forall m :: 0 <= m < r ==> occ[Wrap(h, m, |occ|)]
    requires !occ[Wrap(h, r, |occ|)]
    ensures FreeDistance(occ, h, 0) == r
  {
  }

  /** A free slot anywhere is found from every home. */
  lemma FreeSlotIsReached(occ: seq<bool>, h: nat, i: nat)
    requires h < |occ| && i < |occ| && !occ[i]
    ensures FreeDistance(occ, h, 0) <= Distance(h, i, |occ|)
  {
  }

  /** Which slots are taken, how far keys sit from their homes in total, and whether
      every insertion so far found a free slot. */
  datatype Layout = Layout(occ: seq<bool>, displacement: nat, fits: bool)

  function Insert(l: Layout, h: nat): (l': Layout)
    requires h < |l.occ|
    ensures |l'.occ| == |l.occ|
    ensures l'.fits ==> l.fits
  {
    var d := FreeDistance(l.occ, h, 0);
    if d == |l.occ| then l.(fits := false)
    else l.(occ := l.occ[Wrap(h, d, |l.occ|) := true], displacement := l.displacement + d)
  }

  ghost predicate HomesInRange<K(!new)>(home: K -> nat, n: nat) {
    forall k :: home(k) < n
  }

  function InsertAll<K(!new)>(l: Layout, home: K -> nat, ks: seq<K>): (l': Layout)
    requires HomesInRange(home, |l.occ|)
    ensures |l'.occ| == |l.occ|
    ensures l'.fits ==> l.fits
    decreases |ks|
  {
    if ks == [] then l else InsertAll(Insert(l, home(ks[0])), home, ks[1..])
  }

  /** The two homes `a` and `b` reach the same first free slot: whoever comes second continues
      from there, so only the sum of the two displacements is fixed. */
  lemma SecondComerContinues(occ: seq<bool>, a: nat, b: nat)
    requires a < |occ| && b < |occ|
    requires FreeDistance(occ, a, 0) < |occ| && FreeDistance(occ, b, 0) < |occ|
    requires Wrap(a, FreeDistance(occ, a, 0), |occ|) == Wrap(b, FreeDistance(occ, b, 0), |occ|)
    ensures
      var n := |occ|;
      var x := Wrap(a, FreeDistance(occ, a, 0), n);
      var occ' := occ[x := true];
      var da := FreeDistance(occ', a, 0);
      var db := FreeDistance(occ', b, 0);
      (da == n <==> db == n) &&
      (da < n ==> Wrap(a, da, n) == Wrap(b, db, n) &&
                  FreeDistance(occ, a, 0) + db == FreeDistance(occ, b, 0) + da)
  {
    var n := |occ|;
    var x := Wrap(a, FreeDistance(occ, a, 0), n);
    var occ' := occ[x := true];
    if FreeDistance(occ', a, 0) < n { NextFreeIsShared(occ, a, b); }
    if FreeDistance(occ', b, 0) < n { NextFreeIsShared(occ, b, a); }
  }

  lemma NextFreeIsShared(occ: seq<bool>, a: nat, b: nat)
    requires a < |occ| && b < |occ|
    requires FreeDistance(occ, a, 0) < |occ| && FreeDistance(occ, b, 0) < |occ|
    requires Wrap(a, FreeDistance(occ, a, 0), |occ|) == Wrap(b, FreeDistance(occ, b, 0), |occ|)
    requires FreeDistance(occ[Wrap(a, FreeDistance(occ, a, 0), |occ|) := true], a, 0) < |occ|
    ensures
      var occ' := occ[Wrap(a, FreeDistance(occ, a, 0), |occ|) := true];
      var da := FreeDistance(occ', a, 0);
      var db := da - FreeDistance(occ, a, 0) + FreeDistance(occ, b, 0);
      db == FreeDistance(occ', b, 0) && db < |occ| && Wrap(b, db, |occ|) == Wrap(a, da, |occ|)
  {
    var fa, fb := FreeDistance(occ, a, 0), FreeDistance(occ, b, 0);
    var occ' := occ[Wrap(a, fa, |occ|) := true];
    var da := FreeDistance(occ', a, 0);
    AllTakenUpTo(occ, a, fa, b, fb, da);
    FreeDistanceIs(occ', b, da - fa + fb);
  }

  /** With `x` the slot `fa` probes from `a` and `fb` from `b`: if `x` and everything before it from
      both homes is taken, the way past `x` is the same from `a` and from `b`. */
  lemma AllTakenUpTo(occ: seq<bool>, a: nat, fa: nat, b: nat, fb: nat, da: nat)
    requires a < |occ| && b < |occ| && fa < |occ| && fb < |occ| && da < |occ|
    requires Wrap(a, fa, |occ|) == Wrap(b, fb, |occ|)
    requires forall m :: 0 <= m < fa ==> occ[Wrap(a, m, |occ|)]
    requires forall m :: 0 <= m < fb ==> occ[Wrap(b, m, |occ|)]
    requires var occ' := occ[Wrap(a, fa, |occ|) := true];
             !occ'[Wrap(a, da, |occ|)] && forall m :: 0 <= m < da ==> occ'[Wrap(a, m, |occ|)]
    ensures 0 <= da - fa + fb < |occ|
    ensures var occ' := occ[Wrap(a, fa, |occ|) := true];
            var db := da - fa + fb;
            Wrap(b, db, |occ|) == Wrap(a, da, |occ|) &&
            forall m :: 0 <= m < db ==> occ'[Wrap(b, m, |occ|)]
  {
    var n := |occ|;
    var db := da - fa + fb;
    assert fa < da;
    // the free slot does not lie between b and x
    var m := if db < n then 0 else db - n;
    assert 0 <= m < fb ==> Wrap(b, m, n) != Wrap(a, da, n);
    var occ' := occ[Wrap(a, fa, n) := true];
    forall m | 0 <= m < db ensures occ'[Wrap(b, m, n)] {
      if fb <= m { assert Wrap(a, m - fb + fa, n) == Wrap(b, m, n); }
    }
  }

  /** Two insertions commute: same taken slots, same total displacement. */
  lemma InsertionsCommute(l: Layout, a: nat, b: nat)
    requires a < |l.occ| && b < |l.occ|
    requires Insert(Insert(l, a), b).fits
    ensures Insert(Insert(l, a), b) == Insert(Insert(l, b), a)
  {
    var x := Wrap(a, FreeDistance(l.occ, a, 0), |l.occ|);
    FreeSlotIsReached(l.occ, b, x);
    if x == Wrap(b, FreeDistance(l.occ, b, 0), |l.occ|) {
      OneComesSecond(l, a, b);
    } else {
      BothStayFirst(l, a, b);
    }
  }

  lemma OneComesSecond(l: Layout, a: nat, b: nat)
    requires a < |l.occ| && b < |l.occ| && Insert(Insert(l, a), b).fits
    requires FreeDistance(l.occ, a, 0) < |l.occ| && FreeDistance(l.occ, b, 0) < |l.occ|
    requires Wrap(a, FreeDistance(l.occ, a, 0), |l.occ|) == Wrap(b, FreeDistance(l.occ, b, 0), |l.occ|)
    ensures Insert(Insert(l, a), b) == Insert(Insert(l, b), a)
  {
    SecondComerContinues(l.occ, a, b);
    InsertIs(l, a, FreeDistance(l.occ, a, 0));
    InsertIs(l, b, FreeDistance(l.occ, b, 0));
  }

  lemma BothStayFirst(l: Layout, a: nat, b: nat)
    requires a < |l.occ| && b < |l.occ|
    requires FreeDistance(l.occ, a, 0) < |l.occ| && FreeDistance(l.occ, b, 0) < |l.occ|
    requires Wrap(a, FreeDistance(l.occ, a, 0), |l.occ|) != Wrap(b, FreeDistance(l.occ, b, 0), |l.occ|)
    ensures Insert(Insert(l, a), b) == Insert(Insert(l, b), a)
  {
    var fa, fb := FreeDistance(l.occ, a, 0), FreeDistance(l.occ, b, 0);
    var x, y := Wrap(a, fa, |l.occ|), Wrap(b, fb, |l.occ|);
    StillFirst(l.occ, a, fa, y);
    StillFirst(l.occ, b, fb, x);
    InsertIs(l, a, fa);
    InsertIs(l, b, fb);
    InsertIs(Insert(l, a), b, fb);
    InsertIs(Insert(l, b), a, fa);
    assert l.occ[x := true][y := true] == l.occ[y := true][x := true];
  }

  lemma InsertIs(l: Layout, h: nat, d: nat)
    requires h < |l.occ| && d == FreeDistance(l.occ, h, 0) && d < |l.occ|
    ensures Insert(l, h) == Layout(l.occ[Wrap(h, d, |l.occ|) := true], l.displacement + d, l.fits)
  {
  }

  /** Taking a slot other than the first free one does not move the first free one. */
  lemma StillFirst(occ: seq<bool>, h: nat, f: nat, y: nat)
    requires h < |occ| && y < |occ| && f < |occ|
    requires f == FreeDistance(occ, h, 0) && y != Wrap(h, f, |occ|)
    ensures FreeDistance(occ[y := true], h, 0) == f
  {
  }

  /** Insertions can be done in two batches. */
  lemma {:induction false} InTwoBatches<K(!new)>(l: Layout, home: K -> nat, ks: seq<K>, i: nat)
    requires HomesInRange(home, |l.occ|) && i <= |ks|
    ensures InsertAll(l, home, ks) == InsertAll(InsertAll(l, home, ks[..i]), home, ks[i..])
    decreases i
  {
    if i == 0 {
      assert ks[0..] == ks;
    } else {
      InTwoBatches(Insert(l, home(ks[0])), home, ks[1..], i - 1);
      assert ks[..i][1..] == ks[1..][..i - 1];
      assert ks[1..][i - 1..] == ks[i..];
    }
  }

  /** Moving one insertion to the front of the list changes nothing. */
  lemma {:induction false} MoveToFront<K(!new)>(l: Layout, home: K -> nat, ks: seq<K>, i: nat)
    requires HomesInRange(home, |l.occ|) && i < |ks|
    requires InsertAll(l, home, ks).fits
    ensures InsertAll(l, home, ks) == InsertAll(Insert(l, home(ks[i])), home, ks[..i] + ks[i + 1..])
    decreases i
  {
    var rest := ks[..i] + ks[i + 1..];
    if i == 0 {
      assert rest == ks[1..];
    } else {
      var l0 := Insert(l, home(ks[0]));
      MoveToFront(l0, home, ks[1..], i - 1);
      var tail := ks[1..][..i - 1] + ks[1..][i..];
      assert rest == [ks[0]] + tail;
      assert ks[1..][i - 1] == ks[i];
      InsertionsCommute(l, home(ks[0]), home(ks[i]));
      assert rest[1..] == tail;
    }
  }

  /** Any two orders of the same insertions give the same layout. */
  lemma {:induction false} OrderDoesNotMatter<K(!new)>(l: Layout, home: K -> nat, ks: seq<K>, ks': seq<K>)
    requires HomesInRange(home, |l.occ|)
    requires multiset(ks) == multiset(ks')
    requires InsertAll(l, home, ks).fits
    ensures InsertAll(l, home, ks) == InsertAll(l, home, ks')
    decreases |ks'|
  {
    Permutations.SameLength(ks, ks');
    if ks' == [] {
    } else {
      var i := Permutations.MemberOf(ks, ks');
      MoveToFront(l, home, ks, i);
      Permutations.RestOf(ks, ks', i);
      OrderDoesNotMatter(Insert(l, home(ks[i])), home, ks[..i] + ks[i + 1..], ks'[1..]);
    }
  }
}
