/** The 32-bit FNV-1a hash that supplies a key's home slot. */
module Fnv {
  import opened Bytes

  const MODULUS := 0x1_0000_0000
  const OFFSET_BASIS := 2166136261
  const PRIME := 16777619

  type uint32 = h: int | 0 <= h < 0x1_0000_0000

  /** `h ^ b`: only the low eight bits change. */
  function XorLow(h: uint32, b: byte): uint32 {
    h - h % 256 + XorBytes(h % 256, b)
  }

  function Step(h: uint32, b: byte): uint32 {
    Multiply(XorLow(h, b))
  }

  function Multiply(x: uint32): uint32 { x * PRIME % MODULUS }

  function Hash(key: seq<byte>): uint32 {
    if key == [] then OFFSET_BASIS else Step(Hash(key[..|key| - 1]), key[|key| - 1])
  }

  method HashFnv1a32(key: seq<byte>) returns (hash: uint32)
    ensures hash == Hash(key)
  {
    hash := OFFSET_BASIS;
    for i := 0 to |key|
      invariant hash == Hash(key[..i])
    {
      assert key[..i + 1][..i] == key[..i];
      hash := XorLow(hash, key[i]);
      hash := Multiply(hash);
    }
    assert key[..|key|] == key;
  }

  /** The prime is odd, so multiplying by it modulo 2^32 loses nothing: 899433627 is its inverse. */
  lemma MultiplyIsInjective(x: uint32, y: uint32)
    requires x * PRIME % MODULUS == y * PRIME % MODULUS
    ensures x == y
  {
    var p, q := x * PRIME / MODULUS, y * PRIME / MODULUS;
    assert (x - y) * PRIME == (p - q) * MODULUS;
    assert PRIME * 899433627 == 1 + 3513497 * MODULUS;
    assert x - y == MODULUS * ((p - q) * 899433627 - (x - y) * 3513497);
  }

  /** With equal results of one step, the states agree exactly when the bytes do. */
  lemma StepIsInjective(h: uint32, b: byte, h': uint32, b': byte)
    requires Step(h, b) == Step(h', b')
    ensures h == h' <==> b == b'
  {
    MultiplyIsInjective(XorLow(h, b), XorLow(h', b'));
    LowByteOfXor(h, b);
    LowByteOfXor(h', b');
    assert Pow2(8) == 256;
    XorCancels(h % 256, b, 8);
    XorCancels(h' % 256, b', 8);
    XorCancels(b, h % 256, 8);
    XorCancels(b', h' % 256, 8);
    XorCommutes(h % 256, b, 8);
    XorCommutes(h' % 256, b', 8);
  }

  lemma LowByteOfXor(h: uint32, b: byte)
    ensures XorLow(h, b) % 256 == XorBytes(h % 256, b) && XorLow(h, b) / 256 == h / 256
  {
  }

  /** Keys of one length that differ in exactly one byte never share a hash. */
  lemma {:induction false} OneByteChangesTheHash(s: seq<byte>, t: seq<byte>, i: nat)
    requires |s| == |t| && i < |s| && s[i] != t[i]
    requires forall j :: 0 <= j < |s| && j != i ==> s[j] == t[j]
    ensures Hash(s) != Hash(t)
  {
    var last := |s| - 1;
    if i == last {
      assert s[..last] == t[..last];
    } else {
      OneByteChangesTheHash(s[..last], t[..last], i);
    }
    if Hash(s) == Hash(t) {
      StepIsInjective(Hash(s[..last]), s[last], Hash(t[..last]), t[last]);
    }
  }

  /** The number whose binary digits, the least significant first, are given. */
  function FromBits(bits: seq<bool>): nat {
    if bits == [] then 0 else (if bits[0] then 1 else 0) + 2 * FromBits(bits[1..])
  }

  lemma {:induction false} XorOfBits(a: seq<bool>, b: seq<bool>, c: seq<bool>)
    requires |a| == |b| == |c| && forall k :: 0 <= k < |a| ==> c[k] == (a[k] != b[k])
    ensures OpBits(BitXor, FromBits(a), FromBits(b), |a|) == FromBits(c)
  {
    if a != [] {
      XorOfBits(a[1..], b[1..], c[1..]);
      FirstOfBits(a);
      FirstOfBits(b);
      FirstOfBits(c);
      XorOneMore(Bit(a, 0), FromBits(a[1..]), Bit(b, 0), FromBits(b[1..]), |a|, Bit(c, 0), FromBits(c[1..]));
    }
  }

  lemma XorOneMore(p: nat, x: nat, q: nat, y: nat, w: nat, r: nat, z: nat)
    requires p <= 1 && q <= 1 && w > 0 && r == (if p != q then 1 else 0) && OpBits(BitXor, x, y, w - 1) == z
    ensures OpBits(BitXor, p + 2 * x, q + 2 * y, w) == r + 2 * z
  {
    XorStep(p, x, q, y, w);
  }

  lemma FirstOfBits(bits: seq<bool>)
    requires bits != []
    ensures FromBits(bits) == Bit(bits, 0) + 2 * FromBits(bits[1..])
  {
  }

  lemma XorStep(p: nat, x: nat, q: nat, y: nat, w: nat)
    requires p <= 1 && q <= 1 && w > 0
    ensures OpBits(BitXor, p + 2 * x, q + 2 * y, w) == (if p != q then 1 else 0) + 2 * OpBits(BitXor, x, y, w - 1)
  {
    PartsSplit(p, x);
    PartsSplit(q, y);
    OpUnfolds(BitXor, p + 2 * x, q + 2 * y, w);
  }

  /** The last eight bits of a state, exclusive-or those of a byte. */
  lemma XorLowIs(h: uint32, b: byte, high: nat, bits: seq<bool>, bits': seq<bool>, bits'': seq<bool>)
    requires |bits| == |bits'| == |bits''| == 8 && forall k :: 0 <= k < 8 ==> bits''[k] == (bits[k] != bits'[k])
    requires h == high * 256 + FromBits(bits) && FromBits(bits) < 256 && b == FromBits(bits')
    ensures XorLow(h, b) == high * 256 + FromBits(bits'')
  {
    XorOfBits(bits, bits', bits'');
    LowByte(high, FromBits(bits));
  }

  lemma LowByte(high: nat, low: nat)
    requires low < 256
    ensures (high * 256 + low) % 256 == low
  {
  }

  lemma HashOfOne(key: seq<byte>, x: uint32, h: uint32)
    requires |key| == 1 && XorLow(OFFSET_BASIS, key[0]) == x && Multiply(x) == h
    ensures Hash(key) == h
  {
  }

  lemma MultiplyIs(x: uint32, h: uint32)
    requires x * 16777619 % 0x1_0000_0000 == h
    ensures Multiply(x) == h
  {
  }

  /** The bits of 0xC5, of 0x61 and of their exclusive or 0xA4. */
  lemma XorLowOfA(h: uint32, b: byte)
    requires h == 0x811C9DC5 && b == 97
    ensures XorLow(h, b) == 0x811C9DA4
  {
    var bits := Binary(true, true, false, false, false, true, false, true);
    var bits' := Binary(false, true, true, false, false, false, false, true);
    var bits'' := Binary(true, false, true, false, false, true, false, false);
    XorLowIs(h, b, 0x811C9D, bits, bits', bits'');
  }

  /** A byte from its binary digits, the most significant first. */
  lemma Binary(b7: bool, b6: bool, b5: bool, b4: bool, b3: bool, b2: bool, b1: bool, b0: bool) returns (bits: seq<bool>)
    ensures |bits| == 8 && bits[0] == b0 && bits[1] == b1 && bits[2] == b2 && bits[3] == b3
    ensures bits[4] == b4 && bits[5] == b5 && bits[6] == b6 && bits[7] == b7
    ensures FromBits(bits) == (if b0 then 1 else 0) + (if b1 then 2 else 0) + (if b2 then 4 else 0) + (if b3 then 8 else 0) +
              (if b4 then 16 else 0) + (if b5 then 32 else 0) + (if b6 then 64 else 0) + (if b7 then 128 else 0)
  {
    bits := [b0, b1, b2, b3, b4, b5, b6, b7];
    EightBits(bits);
  }

  lemma EightBits(bits: seq<bool>)
    requires |bits| == 8
    ensures FromBits(bits) == Bit(bits, 0) + 2 * Bit(bits, 1) + 4 * Bit(bits, 2) + 8 * Bit(bits, 3) +
                              16 * Bit(bits, 4) + 32 * Bit(bits, 5) + 64 * Bit(bits, 6) + 128 * Bit(bits, 7)
  {
    FourBits(bits);
    FourBits(bits[4..]);
    assert bits[4..][4..] == [];
  }

  function Bit(bits: seq<bool>, k: nat): nat
    requires k < |bits|
  {
    if bits[k] then 1 else 0
  }

  lemma FourBits(bits: seq<bool>)
    requires |bits| >= 4
    ensures FromBits(bits) ==
              Bit(bits, 0) + 2 * Bit(bits, 1) + 4 * Bit(bits, 2) + 8 * Bit(bits, 3) + 16 * FromBits(bits[4..])
  {
    assert bits[1..][1..] == bits[2..] && bits[2..][1..] == bits[3..] && bits[3..][1..] == bits[4..];
    assert FromBits(bits[1..]) == Bit(bits, 1) + 2 * FromBits(bits[2..]);
    assert FromBits(bits[2..]) == Bit(bits, 2) + 2 * FromBits(bits[3..]);
    assert FromBits(bits[3..]) == Bit(bits, 3) + 2 * FromBits(bits[4..]);
  }

  /** What the loop makes of the letter a: the state after the exclusive or, and after the multiplication. */
  lemma LetterA(h: uint32, b: byte) returns (x: uint32, h': uint32)
    requires h == 0x811C9DC5 && b == 97
    ensures XorLow(h, b) == x && Multiply(x) == h' && h' == 0xE40C292C
  {
    x, h' := 0x811C9DA4, 0xE40C292C;
    XorLowOfA(h, b);
    MultipliedA();
  }

  lemma MultipliedA()
    ensures Multiply(0x811C9DA4) == 0xE40C292C
  {
    MultiplyIs(0x811C9DA4, 0xE40C292C);
  }

  /** Published values: the empty key, and the letter a in ASCII. */
  lemma PublishedValues(key: seq<byte>)
    ensures key == [] ==> Hash(key) == 0x811C9DC5
    ensures key == [97] ==> Hash(key) == 0xE40C292C
  {
    if key == [97] {
      var x, h := LetterA(OFFSET_BASIS, key[0]);
      HashOfOne(key, x, h);
    }
  }
}
