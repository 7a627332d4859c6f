/** Positions on a ring of `n` slots, stepped by `i = (i + 1) % n`. */
module Cyclic {

  /** The slot reached from slot `h` after `j` steps of `i = (i + 1) % n`. */
  function Wrap(h: nat, j: nat, n: nat): (i: nat)
    requires h < n && j <= n
    ensures i < n
  {
    if h + j < n then h + j else h + j - n
  }

  lemma NextSlot(h: nat, j: nat, n: nat)
    requires h < n && j < n
    ensures (Wrap(h, j, n) + 1) % n == Wrap(h, j + 1, n)
  {
  }

  /** How many steps lead from slot `h` to slot `i`. */
  function Distance(h: nat, i: nat, n: nat): (d: nat)
    requires h < n && i < n
    ensures d < n && Wrap(h, d, n) == i
  {
    if h <= i then i - h else i + n - h
  }
}
