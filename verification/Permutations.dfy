/** Two orders of the same elements, taken apart one element at a time. */
module Permutations {

  /** The first element of one order is somewhere in the other... */
  lemma MemberOf<T>(xs: seq<T>, ys: seq<T>) returns (i: nat)
    requires multiset(xs) == multiset(ys) && ys != []
    ensures i < |xs| && xs[i] == ys[0]
  {
    assert ys[0] in multiset(ys);
    i :| 0 <= i < |xs| && xs[i] == ys[0];
  }

  /** ... and taking it out of both leaves two orders of the rest. */
  lemma RestOf<T>(xs: seq<T>, ys: seq<T>, i: nat)
    requires multiset(xs) == multiset(ys) && ys != [] && i < |xs| && xs[i] == ys[0]
    ensures multiset(xs[..i] + xs[i + 1..]) == multiset(ys[1..])
  {
    assert xs == xs[..i] + [xs[i]] + xs[i + 1..];
    assert ys == [ys[0]] + ys[1..];
    assert multiset(xs[..i] + xs[i + 1..]) == multiset(xs) - multiset{xs[i]};
    assert multiset(ys[1..]) == multiset(ys) - multiset{xs[i]};
  }

  lemma SameLength<T>(xs: seq<T>, ys: seq<T>)
    requires multiset(xs) == multiset(ys)
    ensures |xs| == |ys|
  {
    assert |multiset(xs)| == |xs| && |multiset(ys)| == |ys|;
  }
}
