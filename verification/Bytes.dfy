/** Bytes, and their bitwise operations as arithmetic. */
module Bytes {

  type byte = b: int | 0 <= b < 256

  function Pow2(w: nat): (r: nat)
    ensures r >= 1
  {
    if w == 0 then 1 else 2 * Pow2(w - 1)
  }

  /** Whether bit `order` of a number is set; bit 0 is the least significant. */
  predicate BitIsSet(num: nat, order: nat) {
    if order == 0 then num % 2 == 1 else BitIsSet(num / 2, order - 1)
  }

  datatype BitOp = BitAnd | BitOr | BitXor

  function OpBit(op: BitOp, p: nat, q: nat): (r: nat)
    ensures r <= 1
  {
    match op
    case BitAnd => if p == 1 && q == 1 then 1 else 0
    case BitOr => if p == 1 || q == 1 then 1 else 0
    case BitXor => if p != q then 1 else 0
  }

  /** A bitwise operation on the low `w` bits of two numbers. */
  function OpBits(op: BitOp, a: nat, b: nat, w: nat): (r: nat)
    ensures r < Pow2(w)
  {
    if w == 0 then 0 else OpBit(op, a % 2, b % 2) + 2 * OpBits(op, a / 2, b / 2, w - 1)
  }

  function OpBytes(op: BitOp, a: byte, b: byte): byte {
    assert Pow2(8) == 256;
    OpBits(op, a, b, 8)
  }

  function AndBytes(a: byte, b: byte): byte { OpBytes(BitAnd, a, b) }

  function OrBytes(a: byte, b: byte): byte { OpBytes(BitOr, a, b) }

  function XorBytes(a: byte, b: byte): byte { OpBytes(BitXor, a, b) }

  // ---------------------------------------------------------------- bits as quotients

  lemma QuotientIs(b: nat, d: nat, q: nat, r: nat)
    requires b == q * d + r && r < d
    ensures b / d == q
  {
    var p := b / d;
    MultiplesApart(p, q, d);
    MultiplesApart(q, p, d);
  }

  lemma MultiplesApart(p: nat, q: nat, d: nat)
    ensures p < q ==> p * d + d <= q * d
  {
    if p < q { NotNegative(q - p - 1, d); }
  }

  lemma NotNegative(a: nat, b: nat)
    ensures a * b >= 0
  {
  }

  lemma HalveFirst(b: nat, p: nat)
    requires p >= 1
    ensures b / 2 / p == b / (2 * p)
  {
    var q := b / 2 / p;
    var r := b / 2 - q * p;
    assert b == q * (2 * p) + (2 * r + b % 2);
    QuotientIs(b, 2 * p, q, 2 * r + b % 2);
  }

  /** A bit is a digit of the binary expansion. */
  lemma {:induction false} BitIsDigit(b: nat, k: nat)
    ensures BitIsSet(b, k) <==> b / Pow2(k) % 2 == 1
  {
    if k > 0 {
      BitIsDigit(b / 2, k - 1);
      HalveFirst(b, Pow2(k - 1));
    }
  }

  // ---------------------------------------------------------------- the operations bit by bit

  lemma PartsSplit(c: nat, y: nat)
    requires c <= 1
    ensures (c + 2 * y) / 2 == y && (c + 2 * y) % 2 == c
  {
  }

  lemma OpUnfolds(op: BitOp, a: nat, b: nat, w: nat)
    requires w > 0
    ensures OpBits(op, a, b, w) == OpBit(op, a % 2, b % 2) + 2 * OpBits(op, a / 2, b / 2, w - 1)
  {
  }

  lemma FirstBit(c: nat, y: nat, k: nat)
    requires c <= 1
    ensures BitIsSet(c + 2 * y, k) == if k == 0 then c == 1 else BitIsSet(y, k - 1)
  {
    PartsSplit(c, y);
  }

  /** Bit `k` of the result depends on bit `k` of the operands only. */
  lemma {:induction false} OpBitsAt(op: BitOp, a: nat, b: nat, w: nat, k: nat)
    requires k < w
    ensures BitIsSet(OpBits(op, a, b, w), k) ==
              match op
              case BitAnd => BitIsSet(a, k) && BitIsSet(b, k)
              case BitOr => BitIsSet(a, k) || BitIsSet(b, k)
              case BitXor => BitIsSet(a, k) != BitIsSet(b, k)
  {
    OpUnfolds(op, a, b, w);
    FirstBit(OpBit(op, a % 2, b % 2), OpBits(op, a / 2, b / 2, w - 1), k);
    if k > 0 { OpBitsAt(op, a / 2, b / 2, w - 1, k - 1); }
  }

  lemma {:induction false} XorCommutes(a: nat, b: nat, w: nat)
    ensures OpBits(BitXor, a, b, w) == OpBits(BitXor, b, a, w)
  {
    if w > 0 { XorCommutes(a / 2, b / 2, w - 1); }
  }

  lemma XorBitCancels(p: nat, q: nat)
    requires p <= 1 && q <= 1
    ensures OpBit(BitXor, OpBit(BitXor, p, q), q) == p
  {
  }

  lemma HalfIsSmaller(a: nat, w: nat)
    requires a < Pow2(w) && w > 0
    ensures a / 2 < Pow2(w - 1)
  {
  }

  lemma XorOfParts(c: nat, y: nat, b: nat, w: nat)
    requires c <= 1 && w > 0
    ensures OpBits(BitXor, c + 2 * y, b, w) == OpBit(BitXor, c, b % 2) + 2 * OpBits(BitXor, y, b / 2, w - 1)
  {
    PartsSplit(c, y);
    OpUnfolds(BitXor, c + 2 * y, b, w);
  }

  lemma XorCancelsStep(a: nat, b: nat, w: nat)
    requires w > 0 && OpBits(BitXor, OpBits(BitXor, a / 2, b / 2, w - 1), b / 2, w - 1) == a / 2
    ensures OpBits(BitXor, OpBits(BitXor, a, b, w), b, w) == a
  {
    var c, y := OpBit(BitXor, a % 2, b % 2), OpBits(BitXor, a / 2, b / 2, w - 1);
    OpUnfolds(BitXor, a, b, w);
    XorOfParts(c, y, b, w);
    XorBitCancels(a % 2, b % 2);
    HalvesJoin(a);
    Replace((p, q, v) => OpBits(BitXor, p, q, v), OpBits(BitXor, a, b, w), c + 2 * y, b, w, a);
  }

  lemma HalvesJoin(a: nat)
    ensures a % 2 + 2 * (a / 2) == a
  {
  }

  lemma Replace(f: (nat, nat, nat) -> nat, x: nat, y: nat, b: nat, w: nat, r: nat)
    requires x == y && f(y, b, w) == r
    ensures f(x, b, w) == r
  {
  }

  lemma {:induction false} XorCancels(a: nat, b: nat, w: nat)
    requires a < Pow2(w)
    ensures OpBits(BitXor, OpBits(BitXor, a, b, w), b, w) == a
  {
    if w > 0 {
      HalfIsSmaller(a, w);
      XorCancels(a / 2, b / 2, w - 1);
      XorCancelsStep(a, b, w);
    }
  }
}
