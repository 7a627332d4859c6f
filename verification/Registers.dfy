/** What the arithmetic instructions mean for the numbers they work on. */
module Registers {
  import opened Bytes
  import opened Wrappers
  import opened Words
  import opened Cpu
  import opened CpuRuns

  /** No register but `x` and VF differs. */
  predicate OnlyFlagAnd(s: State, s': State, x: nibble)
    requires |s.v| == 16 && |s'.v| == 16
  {
    forall r :: 0 <= r < 16 && r != x && r != VF ==> s'.v[r] == s.v[r]
  }

  /** The instruction has a register and VF as its results, and does not use VF as an operand. */
  predicate IsFlagged(instr: Instr) {
    instr.AddReg? || instr.SubReg? || instr.SubFrom? || instr.ShiftRight? || instr.ShiftLeft?
  }

  /** The top bit is the one worth 128. */
  lemma TopBit(b: byte)
    ensures BitIsSet(b, 7) <==> b >= 128
  {
    BitIsDigit(b, 7);
    assert Pow2(7) == 128;
  }

  lemma SetFlaggedIs(s: State, flag: bool, x: nibble, value: byte)
    requires |s.v| == 16 && x != VF
    ensures var s' := SetFlagged(s, flag, x, value);
            && |s'.v| == 16 && OnlyFlagAnd(s, s', x)
            && s'.v[VF] == (if flag then 1 else 0) && s'.v[x] == value
  {
  }

  lemma ShiftRightIs(s: State, x: nibble, input: Input)
    requires Valid(s) && ExecArith(s, ShiftRight(x), input).Ok?
    ensures IsExact(s, ExecArith(s, ShiftRight(x), input).state, ShiftRight(x))
  {
  }

  lemma ShiftLeftIs(s: State, x: nibble, input: Input)
    requires Valid(s) && ExecArith(s, ShiftLeft(x), input).Ok?
    ensures IsExact(s, ExecArith(s, ShiftLeft(x), input).state, ShiftLeft(x))
  {
    TopBit(s.v[x]);
    SetFlaggedIs(s, BitIsSet(s.v[x], 7), x, Wrap8(s.v[x] as int * 2));
  }

  lemma AddIs(s: State, x: nibble, y: nibble, input: Input)
    requires Valid(s) && ExecArith(s, AddReg(x, y), input).Ok?
    ensures IsExact(s, ExecArith(s, AddReg(x, y), input).state, AddReg(x, y))
  {
  }

  lemma SubRegIs(s: State, x: nibble, y: nibble, input: Input)
    requires Valid(s) && ExecArith(s, SubReg(x, y), input).Ok?
    ensures IsExact(s, ExecArith(s, SubReg(x, y), input).state, SubReg(x, y))
  {
    WrapIsDifference(s.v[x], s.v[y]);
    SetFlaggedIs(s, s.v[x] > s.v[y], x, Wrap8(s.v[x] as int - s.v[y] as int));
  }

  lemma SubFromIs(s: State, x: nibble, y: nibble, input: Input)
    requires Valid(s) && ExecArith(s, SubFrom(x, y), input).Ok?
    ensures IsExact(s, ExecArith(s, SubFrom(x, y), input).state, SubFrom(x, y))
  {
    WrapIsDifference(s.v[y], s.v[x]);
    SetFlaggedIs(s, s.v[y] > s.v[x], x, Wrap8(s.v[y] as int - s.v[x] as int));
  }

  lemma WrapIsDifference(a: byte, b: byte)
    ensures IsDifference(a, b, Wrap8(a as int - b as int), if a > b then 1 else 0)
  {
  }

  /** What a flag-setting instruction leaves behind. */
  predicate IsExact(s: State, s': State, instr: Instr)
    requires |s.v| == 16 && IsFlagged(instr)
  {
    && |s'.v| == 16 && instr.x != VF && OnlyFlagAnd(s, s', instr.x)
    && s'.v[VF] <= 1 && FlagCompletes(s, s', instr)
  }

  /** With its flag, the eight-bit result gives the exact result: the flag is the carry of an addition and
      the bit shifted out; after a subtraction it tells whether the difference is positive. */
  predicate FlagCompletes(s: State, s': State, instr: Instr)
    requires |s.v| == 16 && |s'.v| == 16
  {
    match instr
    case AddReg(x, y) => s'.v[VF] as int * 256 + s'.v[x] as int == s.v[x] as int + s.v[y] as int
    case SubReg(x, y) => IsDifference(s.v[x], s.v[y], s'.v[x], s'.v[VF])
    case SubFrom(x, y) => IsDifference(s.v[y], s.v[x], s'.v[x], s'.v[VF])
    case ShiftRight(x) => s'.v[x] as int * 2 + s'.v[VF] as int == s.v[x] as int
    case ShiftLeft(x) => s'.v[VF] as int * 256 + s'.v[x] as int == s.v[x] as int * 2
    case _ => true
  }

  /** `d` is `a - b` modulo 256, and `flag` is 1 exactly for a positive difference; of 0 both are 0. */
  predicate IsDifference(a: byte, b: byte, d: byte, flag: byte) {
    && (flag == 1 ==> a as int - b as int == d && d > 0)
    && (flag != 1 ==> a as int - b as int == (if d == 0 then 0 else d as int - 256))
  }

  /** Every step at a flag-setting instruction computes the exact result in Vx and VF. */
  lemma FlaggedResultsAreExact(s: State, input: Input, s': State)
    requires StepsTo(s, input, s') && Current(s).Some? && IsFlagged(Current(s).value)
    ensures IsExact(s, s', Current(s).value)
  {
    StepIs(s, input);
    var t, instr := Advance(UpdateTimers(s, input)), Current(s).value;
    if instr.AddReg? {
      AddIs(t, instr.x, instr.y, input);
    } else if instr.SubReg? {
      SubRegIs(t, instr.x, instr.y, input);
    } else if instr.SubFrom? {
      SubFromIs(t, instr.x, instr.y, input);
    } else if instr.ShiftRight? {
      ShiftRightIs(t, instr.x, input);
    } else {
      ShiftLeftIs(t, instr.x, input);
    }
    SameRegisters(s, t, s', instr);
  }

  lemma SameRegisters(s: State, t: State, s': State, instr: Instr)
    requires |s.v| == 16 && s.v == t.v && IsFlagged(instr) && IsExact(t, s', instr)
    ensures IsExact(s, s', instr)
  {
  }

  /** FX33 stores three decimal digits, and they spell Vx. */
  lemma BcdSpellsTheNumber(s: State, input: Input, s': State, x: nibble)
    requires StepsTo(s, input, s') && Current(s) == Some(StoreBcd(x))
    ensures s.i + 3 <= MEMORY_SIZE == |s'.mem|
    ensures Spells(s'.mem[s.i], s'.mem[s.i + 1], s'.mem[s.i + 2], s.v[x])
  {
    BcdStep(s, input, s', x);
    DigitsSpell(s.v[x]);
  }

  predicate Spells(hundreds: int, tens: int, ones: int, number: int) {
    && 0 <= hundreds <= 9 && 0 <= tens <= 9 && 0 <= ones <= 9
    && hundreds * 100 + tens * 10 + ones == number
  }

  lemma BcdStep(s: State, input: Input, s': State, x: nibble)
    requires StepsTo(s, input, s') && Current(s) == Some(StoreBcd(x))
    ensures s.i + 3 <= MEMORY_SIZE == |s'.mem|
    ensures forall k :: 0 <= k < 3 ==> s'.mem[s.i + k] == Digits(s.v[x])[k]
  {
    StepIs(s, input);
    forall k | 0 <= k < 3 ensures s'.mem[s.i + k] == Digits(s.v[x])[k] {
      OverwriteAt(s.mem, s.i, Digits(s.v[x]), s.i + k);
    }
  }

  lemma DigitsSpell(b: byte)
    ensures Spells(Digits(b)[0], Digits(b)[1], Digits(b)[2], b)
  {
  }

  lemma XorStep(s: State, input: Input, s': State, x: nibble, y: nibble)
    requires StepsTo(s, input, s') && Current(s) == Some(Xor(x, y))
    ensures |s'.v| == 16 && s'.v == s.v[x := XorBytes(s.v[x], s.v[y])]
  {
    StepIs(s, input);
  }

  lemma XorTwice(a: byte, b: byte)
    ensures XorBytes(b, XorBytes(a, b)) == a && XorBytes(XorBytes(a, b), a) == b
  {
    assert Pow2(8) == 256;
    XorCancels(a, b, 8);
    XorCancels(b, a, 8);
    XorCommutes(a, b, 8);
    XorCommutes(b, XorBytes(a, b), 8);
  }

  /** Three exclusive-or steps in a row exchange two registers. */
  lemma XorSwap(s0: State, s1: State, s2: State, s3: State, a: Input, b: Input, c: Input, x: nibble, y: nibble)
    requires x != y
    requires StepsTo(s0, a, s1) && Current(s0) == Some(Xor(x, y))
    requires StepsTo(s1, b, s2) && Current(s1) == Some(Xor(y, x))
    requires StepsTo(s2, c, s3) && Current(s2) == Some(Xor(x, y))
    ensures |s3.v| == 16 && s3.v == s0.v[x := s0.v[y]][y := s0.v[x]]
  {
    XorStep(s0, a, s1, x, y);
    XorStep(s1, b, s2, y, x);
    XorStep(s2, c, s3, x, y);
    XorTwice(s0.v[x], s0.v[y]);
  }
}
