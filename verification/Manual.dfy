/** What every instruction word does to the machine, in numbers: written from the word's four hexadecimal digits
    k, x, y, n, without the functions that decode and execute it. `s` has its `pc` at the word. */
module Manual {
  import opened Bytes
  import opened Wrappers
  import opened Words
  import opened Display
  import opened Cpu

  // ---------------------------------------------------------------- what it may come to

  /** The machine is at `pc` and otherwise unchanged. */
  ghost predicate ComesTo(s: State, pc: int, r: Outcome) {
    0 <= pc < 65536 && r == Ok(s.(pc := pc))
  }

  /** The next instruction is two bytes on, and is skipped if the condition holds. */
  ghost predicate SkipsIf(s: State, condition: bool, r: Outcome) {
    ComesTo(s, if condition then s.pc + 4 else s.pc + 2, r)
  }

  /** Vx holds `value`; nothing else is changed. */
  ghost predicate Loads(s: State, x: nibble, value: int, r: Outcome)
    requires Valid(s) && s.pc < 4095
  {
    0 <= value < 256 && r == Ok(s.(pc := s.pc + 2, v := s.v[x := value]))
  }

  /** Vx holds `value` and VF holds `flag`; an operand VF is refused. */
  ghost predicate LoadsFlagged(s: State, x: nibble, refused: bool, value: int, flag: int, r: Outcome)
    requires Valid(s) && s.pc < 4095
  {
    if refused then r == Halt
    else 0 <= value < 256 && 0 <= flag < 256 && r == Ok(s.(pc := s.pc + 2, v := s.v[15 := flag][x := value]))
  }

  /** Vx is replaced by a byte whose bits are `bits(k)`. */
  ghost predicate LoadsBits(s: State, x: nibble, bits: nat -> bool, r: Outcome)
    requires Valid(s) && s.pc < 4095
  {
    && r.Ok? && |r.state.v| == 16 && r == Ok(s.(pc := s.pc + 2, v := s.v[x := r.state.v[x]]))
    && forall k: nat :: k < 8 ==> IsBit(r.state.v[x], k, bits(k))
  }

  function BothBits(a: nat, b: nat): nat -> bool { (k: nat) => a / Pow2(k) % 2 == 1 && b / Pow2(k) % 2 == 1 }

  function EitherBit(a: nat, b: nat): nat -> bool { (k: nat) => a / Pow2(k) % 2 == 1 || b / Pow2(k) % 2 == 1 }

  function OneBit(a: nat, b: nat): nat -> bool { (k: nat) => (a / Pow2(k) % 2 == 1) != (b / Pow2(k) % 2 == 1) }

  ghost predicate IsBit(b: byte, k: nat, on: bool) { (b / Pow2(k) % 2 == 1) == on }

  /** The address behind the word goes on the stack of at most twelve. */
  ghost predicate Calls(s: State, nnn: int, r: Outcome)
    requires Valid(s) && s.pc < 4095
  {
    if s.sp >= 12 then r == Halt
    else 0 <= nnn < 4096 && r == Ok(s.(pc := nnn, stack := s.stack[s.sp := s.pc + 2], sp := s.sp + 1))
  }

  /** I holds `value`. */
  ghost predicate LoadsI(s: State, value: int, r: Outcome)
    requires s.pc < 4095
  {
    0 <= value < 65536 && r == Ok(s.(pc := s.pc + 2, i := value))
  }

  // ---------------------------------------------------------------- digit by digit

  ghost predicate Means0(s: State, x: nibble, y: nibble, n: nibble, r: Outcome)
    requires Valid(s) && s.pc < 4095
  {
    if x == 0 && y == 0 && n == 0 then r == Halt
    else if x == 0 && y == 0xE && n == 0 then
      r.Ok? && r == Ok(s.(pc := s.pc + 2, screen := r.state.screen)) && forall c :: 0 <= c < 2048 ==> !r.state.screen[c]
    else if x == 0 && y == 0xE && n == 0xE then
      if s.sp == 0 then r == Halt else r == Ok(s.(pc := s.stack[s.sp - 1], sp := s.sp - 1))
    else Calls(s, x * 256 + y * 16 + n, r)
  }

  ghost predicate Means8(s: State, x: nibble, y: nibble, n: nibble, r: Outcome)
    requires Valid(s) && s.pc < 4095
  {
    var a: int, b: int := s.v[x], s.v[y];
    if n == 0 then Loads(s, x, b, r)
    else if n == 1 then LoadsBits(s, x, EitherBit(a, b), r)
    else if n == 2 then LoadsBits(s, x, BothBits(a, b), r)
    else if n == 3 then LoadsBits(s, x, OneBit(a, b), r)
    else if n == 4 then LoadsFlagged(s, x, x == 15 || y == 15, (a + b) % 256, if a + b > 255 then 1 else 0, r)
    else if n == 5 then LoadsFlagged(s, x, x == 15 || y == 15, (a - b) % 256, if a > b then 1 else 0, r)
    else if n == 6 then LoadsFlagged(s, x, x == 15, a / 2, a % 2, r)
    else if n == 7 then LoadsFlagged(s, x, x == 15 || y == 15, (b - a) % 256, if b > a then 1 else 0, r)
    else if n == 14 then LoadsFlagged(s, x, x == 15, a * 2 % 256, a / 128, r)
    else r == Halt
  }

  /** A sprite of `n` rows with its upper left corner at (left, top) covers the pixel. */
  ghost predicate Covered(s: State, left: byte, top: byte, n: nibble, column: int, row: int) {
    (column - left) % 64 < 8 && (row - top) % 32 < n
  }

  /** The sprite bit over a covered pixel. */
  ghost predicate BitOver(s: State, left: byte, top: byte, n: nibble, column: int, row: int)
    requires Valid(s) && (n > 0 ==> s.i + n <= 4096) && Covered(s, left, top, n, column, row)
  {
    s.mem[s.i + (row - top) % 32] / Pow2(7 - (column - left) % 64) % 2 == 1
  }

  /** Each covered pixel is flipped by its sprite bit, and VF tells whether a zero bit met a lit pixel. */
  ghost predicate Draws(s: State, left: byte, top: byte, n: nibble, r: Outcome)
    requires Valid(s) && s.pc < 4095
  {
    if n > 0 && s.i + n > 4096 then r == OutOfRange
    else
      && r.Ok? && |r.state.v| == 16 && r.state.v[15] <= 1
      && r == Ok(s.(pc := s.pc + 2, screen := r.state.screen, v := s.v[15 := r.state.v[15]]))
      && (forall column, row :: 0 <= column < 64 && 0 <= row < 32 ==> FlippedByBit(s, left, top, n, column, row, r.state.screen))
      && (r.state.v[15] == 1 <==> exists column, row :: 0 <= column < 64 && 0 <= row < 32 && ZeroOverLit(s, left, top, n, column, row))
  }

  ghost predicate FlippedByBit(s: State, left: byte, top: byte, n: nibble, column: int, row: int, screen: Screen)
    requires Valid(s) && (n > 0 ==> s.i + n <= 4096) && 0 <= column < 64 && 0 <= row < 32
  {
    screen[column * 32 + row] ==
      (s.screen[column * 32 + row] != (Covered(s, left, top, n, column, row) && BitOver(s, left, top, n, column, row)))
  }

  ghost predicate ZeroOverLit(s: State, left: byte, top: byte, n: nibble, column: int, row: int)
    requires Valid(s) && (n > 0 ==> s.i + n <= 4096) && 0 <= column < 64 && 0 <= row < 32
  {
    s.screen[column * 32 + row] && Covered(s, left, top, n, column, row) && !BitOver(s, left, top, n, column, row)
  }

  ghost predicate MeansE(s: State, x: nibble, y: nibble, n: nibble, input: Input, r: Outcome)
    requires Valid(s) && s.pc < 4095
  {
    if y == 9 && n == 14 then (if s.v[x] > 15 then r == OutOfRange else SkipsIf(s, s.v[x] in input.keys, r))
    else if y == 10 && n == 1 then (if s.v[x] > 15 then r == OutOfRange else SkipsIf(s, s.v[x] !in input.keys, r))
    else r == Halt
  }

  /** `key` is the least of the sixteen keys that is held. */
  ghost predicate IsLeastKey(keys: set<nat>, key: nat) {
    key < 16 && key in keys && forall k: nat :: k < key ==> k !in keys
  }

  ghost predicate WaitsForKey(s: State, x: nibble, input: Input, r: Outcome)
    requires Valid(s) && s.pc < 4095
  {
    && (forall key: nat :: IsLeastKey(input.keys, key) ==> Loads(s, x, key, r))
    && ((forall key: nat :: key < 16 ==> key !in input.keys) ==> ComesTo(s, s.pc, r))
  }

  function DecimalDigits(b: int): nat -> int {
    (k: nat) => if k == 0 then b / 100 else if k == 1 then b / 10 % 10 else b % 10
  }

  function Registers(v: seq<byte>): nat -> int { (k: nat) => if k < |v| then v[k] else 0 }

  /** The `count` cells from I on hold `values`; no other cell is changed. */
  ghost predicate Stores(s: State, count: nat, values: nat -> int, r: Outcome)
    requires Valid(s) && s.pc < 4095
  {
    if s.i + count > 4096 then r == OutOfRange
    else
      && r.Ok? && |r.state.mem| == 4096 && r == Ok(s.(pc := s.pc + 2, mem := r.state.mem))
      && forall c: nat :: c < 4096 ==> r.state.mem[c] == if s.i <= c < s.i + count then values(c - s.i) else s.mem[c]
  }

  /** V0 to Vx hold the bytes from I on; no other register is changed. */
  ghost predicate LoadsBlock(s: State, x: nibble, r: Outcome)
    requires Valid(s) && s.pc < 4095
  {
    if s.i + x + 1 > 4096 then r == OutOfRange
    else
      && r.Ok? && |r.state.v| == 16 && r == Ok(s.(pc := s.pc + 2, v := r.state.v))
      && forall k: nat :: k < 16 ==> r.state.v[k] == if k <= x then s.mem[s.i + k] else s.v[k]
  }

  ghost predicate MeansF(s: State, x: nibble, y: nibble, n: nibble, input: Input, r: Outcome)
    requires Valid(s) && s.pc < 4095
  {
    if y == 0 && n == 7 then Loads(s, x, s.delay, r)
    else if y == 0 && n == 10 then WaitsForKey(s, x, input, r)
    else if y == 1 && n == 5 then r == Ok(s.(pc := s.pc + 2, delay := s.v[x]))
    else if y == 1 && n == 8 then r == Ok(s.(pc := s.pc + 2, sound := s.v[x]))
    else if y == 1 && n == 14 then LoadsI(s, (s.i as int + s.v[x] as int) % 65536, r)
    else if y == 2 && n == 9 then LoadsI(s, s.v[x] as int * 5, r)
    else if y == 3 && n == 3 then
      Stores(s, 3, DecimalDigits(s.v[x]), r)
    else if y == 5 && n == 5 then Stores(s, x + 1, Registers(s.v), r)
    else if y == 6 && n == 5 then LoadsBlock(s, x, r)
    else r == Halt
  }

  /** What the word kxyn does. */
  ghost predicate Means(k: nibble, x: nibble, y: nibble, n: nibble, s: State, input: Input, r: Outcome)
    requires Valid(s) && s.pc < 4095
  {
    if k == 0 then Means0(s, x, y, n, r)
    else if k == 1 then ComesTo(s, x * 256 + y * 16 + n, r)
    else if k == 2 then Calls(s, x * 256 + y * 16 + n, r)
    else if k == 3 then SkipsIf(s, s.v[x] == y * 16 + n, r)
    else if k == 4 then SkipsIf(s, s.v[x] != y * 16 + n, r)
    else if k == 5 then (if n == 0 then SkipsIf(s, s.v[x] == s.v[y], r) else r == Halt)
    else if k == 6 then Loads(s, x, y * 16 + n, r)
    else if k == 7 then Loads(s, x, (s.v[x] as int + (y * 16 + n)) % 256, r)
    else if k == 8 then Means8(s, x, y, n, r)
    else if k == 9 then (if n == 0 then SkipsIf(s, s.v[x] != s.v[y], r) else r == Halt)
    else if k == 10 then LoadsI(s, x * 256 + y * 16 + n, r)
    else if k == 11 then ComesTo(s, x * 256 + y * 16 + n + s.v[0], r)
    else if k == 12 then
      LoadsBits(s, x, BothBits(input.random, y * 16 + n), r)
    else if k == 13 then Draws(s, s.v[x], s.v[y], n, r)
    else if k == 14 then MeansE(s, x, y, n, input, r)
    else MeansF(s, x, y, n, input, r)
  }

  /** The timers have lost their missed ticks, and stop at zero. */
  function Ticked(s: State, input: Input): State {
    s.(delay := if s.delay > input.delayTicks then s.delay - input.delayTicks else 0,
       sound := if s.sound > input.soundTicks then s.sound - input.soundTicks else 0)
  }

  // ---------------------------------------------------------------- the machine follows the manual

  /** The word at `pc`, executed. */
  function Executed(op: Opcode, s: State, input: Input): (r: Outcome)
    requires Valid(s)
  {
    if op == Opcode(0, 0, 0, 0) then Halt
    else
      match Dispatch(op)
      case None => Halt
      case Some(instr) => Exec(Advance(s), instr, input)
  }

  ghost predicate Follows(op: Opcode, s: State, input: Input)
    requires Valid(s) && s.pc < 4095
  {
    Means(op.kind, op.x, op.y, op.n, s, input, Executed(op, s, input))
  }

  lemma SystemFollows(op: Opcode, s: State, input: Input)
    requires Valid(s) && s.pc < 4095 && op.kind == 0
    ensures Follows(op, s, input)
  {
  }

  lemma GotoFollows(op: Opcode, s: State, input: Input)
    requires Valid(s) && s.pc < 4095 && op.kind == 1
    ensures Follows(op, s, input)
  {
  }

  lemma CallFollows(op: Opcode, s: State, input: Input)
    requires Valid(s) && s.pc < 4095 && op.kind == 2
    ensures Follows(op, s, input)
  {
  }

  lemma ConstantSkipFollows(op: Opcode, s: State, input: Input)
    requires Valid(s) && s.pc < 4095 && (op.kind == 3 || op.kind == 4)
    ensures Follows(op, s, input)
  {
  }

  lemma EqualSkipFollows(op: Opcode, s: State, input: Input)
    requires Valid(s) && s.pc < 4095 && op.kind == 5
    ensures Follows(op, s, input)
  {
  }

  lemma UnequalSkipFollows(op: Opcode, s: State, input: Input)
    requires Valid(s) && s.pc < 4095 && op.kind == 9
    ensures Follows(op, s, input)
  {
  }

  lemma SetFollows(op: Opcode, s: State, input: Input)
    requires Valid(s) && s.pc < 4095 && op.kind == 6
    ensures Follows(op, s, input)
  {
  }

  lemma AddFollows(op: Opcode, s: State, input: Input)
    requires Valid(s) && s.pc < 4095 && op.kind == 7
    ensures Follows(op, s, input)
  {
  }

  lemma IndexFollows(op: Opcode, s: State, input: Input)
    requires Valid(s) && s.pc < 4095 && op.kind == 10
    ensures Follows(op, s, input)
  {
  }

  lemma OffsetJumpFollows(op: Opcode, s: State, input: Input)
    requires Valid(s) && s.pc < 4095 && op.kind == 11
    ensures Follows(op, s, input)
  {
  }

  lemma BitsLoad(s: State, x: nibble, value: byte, bits: nat -> bool, r: Outcome)
    requires Valid(s) && s.pc < 4095 && r == Ok(s.(pc := s.pc + 2, v := s.v[x := value]))
    requires forall k: nat :: k < 8 ==> IsBit(value, k, bits(k))
    ensures LoadsBits(s, x, bits, r)
  {
  }

  lemma OpInBits(op: BitOp, a: byte, b: byte, k: nat)
    requires k < 8
    ensures IsBit(OpBytes(op, a, b), k,
              match op
              case BitAnd => BothBits(a, b)(k)
              case BitOr => EitherBit(a, b)(k)
              case BitXor => OneBit(a, b)(k))
  {
    BitIsDigit(a, k);
    BitIsDigit(b, k);
    BitIsDigit(OpBytes(op, a, b), k);
    OpBitsAt(op, a, b, 8, k);
  }

  lemma AndLoads(s: State, x: nibble, a: byte, b: byte, r: Outcome)
    requires Valid(s) && s.pc < 4095 && r == Ok(s.(pc := s.pc + 2, v := s.v[x := AndBytes(a, b)]))
    ensures LoadsBits(s, x, BothBits(a, b), r)
  {
    forall k: nat | k < 8 ensures IsBit(AndBytes(a, b), k, BothBits(a, b)(k)) { OpInBits(BitAnd, a, b, k); }
    BitsLoad(s, x, AndBytes(a, b), BothBits(a, b), r);
  }

  lemma OrLoads(s: State, x: nibble, a: byte, b: byte, r: Outcome)
    requires Valid(s) && s.pc < 4095 && r == Ok(s.(pc := s.pc + 2, v := s.v[x := OrBytes(a, b)]))
    ensures LoadsBits(s, x, EitherBit(a, b), r)
  {
    forall k: nat | k < 8 ensures IsBit(OrBytes(a, b), k, EitherBit(a, b)(k)) { OpInBits(BitOr, a, b, k); }
    BitsLoad(s, x, OrBytes(a, b), EitherBit(a, b), r);
  }

  lemma XorLoads(s: State, x: nibble, a: byte, b: byte, r: Outcome)
    requires Valid(s) && s.pc < 4095 && r == Ok(s.(pc := s.pc + 2, v := s.v[x := XorBytes(a, b)]))
    ensures LoadsBits(s, x, OneBit(a, b), r)
  {
    forall k: nat | k < 8 ensures IsBit(XorBytes(a, b), k, OneBit(a, b)(k)) { OpInBits(BitXor, a, b, k); }
    BitsLoad(s, x, XorBytes(a, b), OneBit(a, b), r);
  }

  lemma ArithIs(op: Opcode, s: State, input: Input, instr: Instr)
    requires Valid(s) && op != Opcode(0, 0, 0, 0) && Dispatch(op) == Some(instr)
    requires !IsFlow(instr) && !IsDevice(instr) && !IsMemory(instr)
    ensures Executed(op, s, input) == ExecArith(Advance(s), instr, input)
  {
  }

  lemma RandomIs(s: State, x: nibble, kk: byte, input: Input)
    requires Valid(s) && s.pc < 4095
    ensures ExecArith(Advance(s), Cpu.Random(x, kk), input) ==
              Ok(s.(pc := s.pc + 2, v := s.v[x := AndBytes(input.random, kk)]))
  {
  }

  lemma RandomFollows(op: Opcode, s: State, input: Input)
    requires Valid(s) && s.pc < 4095 && op.kind == 12
    ensures Follows(op, s, input)
  {
    ArithIs(op, s, input, Cpu.Random(op.x, op.Kk()));
    RandomIs(s, op.x, op.Kk(), input);
    AndLoads(s, op.x, input.random, op.Kk(), Executed(op, s, input));
  }

  lemma CopyFollows(op: Opcode, s: State, input: Input)
    requires Valid(s) && s.pc < 4095 && op.kind == 8 && op.n == 0
    ensures Follows(op, s, input)
  {
  }

  lemma OrIs(s: State, x: nibble, y: nibble, input: Input)
    requires Valid(s) && s.pc < 4095
    ensures ExecArith(Advance(s), Or(x, y), input) == Ok(s.(pc := s.pc + 2, v := s.v[x := OrBytes(s.v[x], s.v[y])]))
  {
  }

  lemma OrFollows(op: Opcode, s: State, input: Input)
    requires Valid(s) && s.pc < 4095 && op.kind == 8 && op.n == 1
    ensures Follows(op, s, input)
  {
    OrIs(s, op.x, op.y, input);
    ArithIs(op, s, input, Or(op.x, op.y));
    OrLoads(s, op.x, s.v[op.x], s.v[op.y], Executed(op, s, input));
  }

  lemma AndIs(s: State, x: nibble, y: nibble, input: Input)
    requires Valid(s) && s.pc < 4095
    ensures ExecArith(Advance(s), And(x, y), input) == Ok(s.(pc := s.pc + 2, v := s.v[x := AndBytes(s.v[x], s.v[y])]))
  {
  }

  lemma AndFollows(op: Opcode, s: State, input: Input)
    requires Valid(s) && s.pc < 4095 && op.kind == 8 && op.n == 2
    ensures Follows(op, s, input)
  {
    AndIs(s, op.x, op.y, input);
    ArithIs(op, s, input, And(op.x, op.y));
    AndLoads(s, op.x, s.v[op.x], s.v[op.y], Executed(op, s, input));
  }

  lemma XorIs(s: State, x: nibble, y: nibble, input: Input)
    requires Valid(s) && s.pc < 4095
    ensures ExecArith(Advance(s), Xor(x, y), input) == Ok(s.(pc := s.pc + 2, v := s.v[x := XorBytes(s.v[x], s.v[y])]))
  {
  }

  lemma XorFollows(op: Opcode, s: State, input: Input)
    requires Valid(s) && s.pc < 4095 && op.kind == 8 && op.n == 3
    ensures Follows(op, s, input)
  {
    XorIs(s, op.x, op.y, input);
    ArithIs(op, s, input, Xor(op.x, op.y));
    XorLoads(s, op.x, s.v[op.x], s.v[op.y], Executed(op, s, input));
  }

  lemma SumIs(s: State, x: nibble, y: nibble, input: Input)
    requires Valid(s) && s.pc < 4095
    ensures LoadsFlagged(s, x, x == 15 || y == 15, (s.v[x] as int + s.v[y] as int) % 256, if s.v[x] as int + s.v[y] as int > 255 then 1 else 0, ExecArith(Advance(s), AddReg(x, y), input))
  {
  }

  lemma SumFollows(op: Opcode, s: State, input: Input)
    requires Valid(s) && s.pc < 4095 && op.kind == 8 && op.n == 4
    ensures Follows(op, s, input)
  {
    ArithIs(op, s, input, AddReg(op.x, op.y));
    SumIs(s, op.x, op.y, input);
  }

  lemma DifferenceIs(s: State, x: nibble, y: nibble, input: Input)
    requires Valid(s) && s.pc < 4095
    ensures LoadsFlagged(s, x, x == 15 || y == 15, (s.v[x] as int - s.v[y] as int) % 256, if s.v[x] as int > s.v[y] as int then 1 else 0, ExecArith(Advance(s), SubReg(x, y), input))
  {
  }

  lemma DifferenceFollows(op: Opcode, s: State, input: Input)
    requires Valid(s) && s.pc < 4095 && op.kind == 8 && op.n == 5
    ensures Follows(op, s, input)
  {
    ArithIs(op, s, input, SubReg(op.x, op.y));
    DifferenceIs(s, op.x, op.y, input);
  }

  lemma ReverseIs(s: State, x: nibble, y: nibble, input: Input)
    requires Valid(s) && s.pc < 4095
    ensures LoadsFlagged(s, x, x == 15 || y == 15, (s.v[y] as int - s.v[x] as int) % 256, if s.v[y] as int > s.v[x] as int then 1 else 0, ExecArith(Advance(s), SubFrom(x, y), input))
  {
  }

  lemma ReverseFollows(op: Opcode, s: State, input: Input)
    requires Valid(s) && s.pc < 4095 && op.kind == 8 && op.n == 7
    ensures Follows(op, s, input)
  {
    ArithIs(op, s, input, SubFrom(op.x, op.y));
    ReverseIs(s, op.x, op.y, input);
  }

  lemma RightShiftIs(s: State, x: nibble, input: Input)
    requires Valid(s) && s.pc < 4095
    ensures LoadsFlagged(s, x, x == 15, s.v[x] as int / 2, s.v[x] as int % 2, ExecArith(Advance(s), ShiftRight(x), input))
  {
    TopBitIsQuotient(s.v[x]);
  }

  lemma RightShiftFollows(op: Opcode, s: State, input: Input)
    requires Valid(s) && s.pc < 4095 && op.kind == 8 && op.n == 6
    ensures Follows(op, s, input)
  {
    ArithIs(op, s, input, ShiftRight(op.x));
    RightShiftIs(s, op.x, input);
  }

  lemma LeftShiftIs(s: State, x: nibble, input: Input)
    requires Valid(s) && s.pc < 4095
    ensures LoadsFlagged(s, x, x == 15, s.v[x] as int * 2 % 256, s.v[x] as int / 128, ExecArith(Advance(s), ShiftLeft(x), input))
  {
    TopBitIsQuotient(s.v[x]);
  }

  lemma LeftShiftFollows(op: Opcode, s: State, input: Input)
    requires Valid(s) && s.pc < 4095 && op.kind == 8 && op.n == 14
    ensures Follows(op, s, input)
  {
    ArithIs(op, s, input, ShiftLeft(op.x));
    LeftShiftIs(s, op.x, input);
  }

  lemma NoEightFollows(op: Opcode, s: State, input: Input)
    requires Valid(s) && s.pc < 4095 && op.kind == 8 && op.n > 7 && op.n != 14
    ensures Follows(op, s, input)
  {
  }

  lemma TopBitIsQuotient(b: byte)
    ensures b / 128 == if BitIsSet(b, 7) then 1 else 0
    ensures b % 2 == if BitIsSet(b, 0) then 1 else 0
  {
    BitIsDigit(b, 7);
    assert Pow2(7) == 128;
  }

  // ---------------------------------------------------------------- keys, timers and memory

  lemma KeyFollows(op: Opcode, s: State, input: Input)
    requires Valid(s) && s.pc < 4095 && op.kind == 14
    ensures Follows(op, s, input)
  {
    if op.y == 9 && op.n == 14 {
      DeviceIs(op, s, input, SkipIfKey(op.x));
    } else if op.y == 10 && op.n == 1 {
      DeviceIs(op, s, input, SkipIfNoKey(op.x));
    }
  }

  lemma LeastKeyIs(keys: set<nat>, key: nat)
    requires IsLeastKey(keys, key)
    ensures LeastKey(keys, 0) == key
  {
  }

  lemma WaitComesTo(s: State, x: nibble, input: Input)
    requires Valid(s) && s.pc < 4095
    ensures WaitsForKey(s, x, input, ExecDevice(Advance(s), WaitKey(x), input))
  {
    forall key: nat | IsLeastKey(input.keys, key) ensures Loads(s, x, key, ExecDevice(Advance(s), WaitKey(x), input)) {
      LeastKeyIs(input.keys, key);
    }
  }

  lemma DeviceIs(op: Opcode, s: State, input: Input, instr: Instr)
    requires Valid(s) && op != Opcode(0, 0, 0, 0) && Dispatch(op) == Some(instr) && IsDevice(instr)
    ensures Executed(op, s, input) == ExecDevice(Advance(s), instr, input)
  {
  }

  lemma MemoryIs(op: Opcode, s: State, input: Input, instr: Instr)
    requires Valid(s) && op != Opcode(0, 0, 0, 0) && Dispatch(op) == Some(instr) && IsMemory(instr)
    ensures Executed(op, s, input) == ExecMemory(Advance(s), instr)
  {
  }

  lemma WaitFollows(op: Opcode, s: State, input: Input)
    requires Valid(s) && s.pc < 4095 && op.kind == 15 && op.y == 0
    ensures Follows(op, s, input)
  {
    if op.n == 10 {
      DeviceIs(op, s, input, WaitKey(op.x));
      WaitComesTo(s, op.x, input);
    }
  }

  lemma TimerFollows(op: Opcode, s: State, input: Input)
    requires Valid(s) && s.pc < 4095 && op.kind == 15 && op.y == 1 && op.n != 14
    ensures Follows(op, s, input)
  {
  }

  lemma AddIndexFollows(op: Opcode, s: State, input: Input)
    requires Valid(s) && s.pc < 4095 && op.kind == 15 && op.y == 1 && op.n == 14
    ensures Follows(op, s, input)
  {
    MemoryIs(op, s, input, AddI(op.x));
  }

  lemma FontFollows(op: Opcode, s: State, input: Input)
    requires Valid(s) && s.pc < 4095 && op.kind == 15 && op.y == 2
    ensures Follows(op, s, input)
  {
    if op.n == 9 { MemoryIs(op, s, input, FontI(op.x)); }
  }

  lemma OverwriteStores(s: State, items: seq<byte>, values: nat -> int, r: Outcome)
    requires Valid(s) && s.pc < 4095
    requires forall k: nat :: k < |items| ==> items[k] == values(k)
    requires r == if s.i + |items| > 4096 then OutOfRange else Ok(s.(pc := s.pc + 2, mem := Overwrite(s.mem, s.i, items)))
    ensures Stores(s, |items|, values, r)
  {
  }

  lemma DigitsAreDecimal(b: byte)
    ensures forall k: nat :: k < 3 ==> Digits(b)[k] == DecimalDigits(b)(k)
  {
    TensDigit(b);
    var ds, f := Digits(b), DecimalDigits(b);
    assert ds[0] == f(0) && ds[1] == f(1) && ds[2] == f(2);
  }

  lemma TensDigit(b: byte)
    ensures b % 1000 / 100 == b / 100 && b % 100 / 10 == b / 10 % 10
  {
    assert b as int % 100 == b - b / 100 * 100;
    assert b / 10 == b / 100 * 10 + b % 100 / 10;
  }

  lemma BcdFollows(op: Opcode, s: State, input: Input)
    requires Valid(s) && s.pc < 4095 && op.kind == 15 && op.y == 3
    ensures Follows(op, s, input)
  {
    if op.n == 3 {
      MemoryIs(op, s, input, StoreBcd(op.x));
      DigitsAreDecimal(s.v[op.x]);
      OverwriteStores(s, Digits(s.v[op.x]), DecimalDigits(s.v[op.x]), Executed(op, s, input));
    }
  }

  lemma DumpFollows(op: Opcode, s: State, input: Input)
    requires Valid(s) && s.pc < 4095 && op.kind == 15 && op.y == 5
    ensures Follows(op, s, input)
  {
    if op.n == 5 {
      MemoryIs(op, s, input, StoreRegs(op.x));
      OverwriteStores(s, s.v[..op.x + 1], Registers(s.v), Executed(op, s, input));
    }
  }

  lemma LoadIsBlock(s: State, x: nibble)
    requires Valid(s) && s.pc < 4095
    ensures LoadsBlock(s, x, ExecMemory(Advance(s), LoadRegs(x)))
  {
  }

  lemma BlockFollows(op: Opcode, s: State, input: Input)
    requires Valid(s) && s.pc < 4095 && op.kind == 15 && op.y == 6
    ensures Follows(op, s, input)
  {
    if op.n == 5 {
      MemoryIs(op, s, input, LoadRegs(op.x));
      LoadIsBlock(s, op.x);
    }
  }

  lemma OtherFollows(op: Opcode, s: State, input: Input)
    requires Valid(s) && s.pc < 4095 && op.kind == 15 && (op.y == 4 || op.y > 6)
    ensures Follows(op, s, input)
  {
  }

  // ---------------------------------------------------------------- drawing

  lemma DrawFlips(s: State, left: byte, top: byte, n: nibble, column: nat, row: nat)
    requires Valid(s) && (n > 0 ==> s.i + n <= 4096) && column < 64 && row < 32
    ensures FlippedByBit(s, left, top, n, column, row, DrawSprite(s.screen, left, top, SpriteAt(s, n)).screen)
  {
    PixelInNumbers(s.screen, left, top, SpriteAt(s, n), column, row);
  }

  lemma ZeroOver(s: State, left: byte, top: byte, n: nibble, column: nat, row: nat)
    requires Valid(s) && (n > 0 ==> s.i + n <= 4096) && column < 64 && row < 32
    ensures ZeroOverLit(s, left, top, n, column, row) <==> ZeroOverPixel(s.screen, left, top, SpriteAt(s, n), column, row)
  {
  }

  lemma DrawFlags(s: State, left: byte, top: byte, n: nibble)
    requires Valid(s) && (n > 0 ==> s.i + n <= 4096)
    ensures DrawSprite(s.screen, left, top, SpriteAt(s, n)).erased <==>
              exists column, row :: 0 <= column < 64 && 0 <= row < 32 && ZeroOverLit(s, left, top, n, column, row)
  {
    FlagInNumbers(s.screen, left, top, SpriteAt(s, n));
    forall column: nat, row: nat | column < 64 && row < 32
      ensures ZeroOverLit(s, left, top, n, column, row) <==> ZeroOverPixel(s.screen, left, top, SpriteAt(s, n), column, row)
    {
      ZeroOver(s, left, top, n, column, row);
    }
  }

  lemma DrawIs(s: State, x: nibble, y: nibble, n: nibble)
    requires Valid(s) && s.pc < 4095
    ensures Draws(s, s.v[x], s.v[y], n, ExecDraw(Advance(s), x, y, n))
  {
    if n == 0 || s.i + n <= 4096 {
      DrawFlags(s, s.v[x], s.v[y], n);
      forall column, row | 0 <= column < 64 && 0 <= row < 32
        ensures FlippedByBit(s, s.v[x], s.v[y], n, column, row, DrawSprite(s.screen, s.v[x], s.v[y], SpriteAt(s, n)).screen)
      {
        DrawFlips(s, s.v[x], s.v[y], n, column, row);
      }
    }
  }

  lemma DrawFollows(op: Opcode, s: State, input: Input)
    requires Valid(s) && s.pc < 4095 && op.kind == 13
    ensures Follows(op, s, input)
  {
    DeviceIs(op, s, input, DrawAt(op.x, op.y, op.n));
    DrawIs(s, op.x, op.y, op.n);
  }

  // ---------------------------------------------------------------- all words

  lemma EightFollows(op: Opcode, s: State, input: Input)
    requires Valid(s) && s.pc < 4095 && op.kind == 8
    ensures Follows(op, s, input)
  {
    match op.n
    case 0 => CopyFollows(op, s, input);
    case 1 => OrFollows(op, s, input);
    case 2 => AndFollows(op, s, input);
    case 3 => XorFollows(op, s, input);
    case 4 => SumFollows(op, s, input);
    case 5 => DifferenceFollows(op, s, input);
    case 6 => RightShiftFollows(op, s, input);
    case 7 => ReverseFollows(op, s, input);
    case 14 => LeftShiftFollows(op, s, input);
    case _ => NoEightFollows(op, s, input);
  }

  lemma FifteenFollows(op: Opcode, s: State, input: Input)
    requires Valid(s) && s.pc < 4095 && op.kind == 15
    ensures Follows(op, s, input)
  {
    match op.y
    case 0 => WaitFollows(op, s, input);
    case 1 => if op.n == 14 { AddIndexFollows(op, s, input); } else { TimerFollows(op, s, input); }
    case 2 => FontFollows(op, s, input);
    case 3 => BcdFollows(op, s, input);
    case 5 => DumpFollows(op, s, input);
    case 6 => BlockFollows(op, s, input);
    case _ => OtherFollows(op, s, input);
  }

  lemma WordFollows(op: Opcode, s: State, input: Input)
    requires Valid(s) && s.pc < 4095
    ensures Follows(op, s, input)
  {
    match op.kind
    case 0 => SystemFollows(op, s, input);
    case 1 => GotoFollows(op, s, input);
    case 2 => CallFollows(op, s, input);
    case 3 => ConstantSkipFollows(op, s, input);
    case 4 => ConstantSkipFollows(op, s, input);
    case 5 => EqualSkipFollows(op, s, input);
    case 6 => SetFollows(op, s, input);
    case 7 => AddFollows(op, s, input);
    case 8 => EightFollows(op, s, input);
    case 9 => UnequalSkipFollows(op, s, input);
    case 10 => IndexFollows(op, s, input);
    case 11 => OffsetJumpFollows(op, s, input);
    case 12 => RandomFollows(op, s, input);
    case 13 => DrawFollows(op, s, input);
    case 14 => KeyFollows(op, s, input);
    case _ => FifteenFollows(op, s, input);
  }

  lemma TickedIs(s: State, input: Input)
    ensures UpdateTimers(s, input) == Ticked(s, input)
  {
  }

  lemma FetchedWord(s: State, t: State, input: Input)
    requires Valid(s) && s.pc < 4095 && t == UpdateTimers(s, input)
    ensures Step(s, input) == Executed(Fetch(s), t, input)
  {
    FetchIgnoresTimers(s, t);
    CpuStepIsExecuted(t, input);
  }

  lemma FetchIgnoresTimers(s: State, t: State)
    requires Valid(s) && s.pc < 4095 && Valid(t) && t.pc == s.pc && t.mem == s.mem
    ensures Fetch(t) == Fetch(s)
  {
  }

  lemma CpuStepIsExecuted(t: State, input: Input)
    requires Valid(t) && t.pc < 4095
    ensures CpuStep(t, input) == Executed(Fetch(t), t, input)
  {
  }

  /** What the manual says of the word at `pc`. */
  ghost predicate WordMeans(s: State, t: State, input: Input, r: Outcome)
    requires Valid(s) && s.pc < 4095 && Valid(t) && t.pc == s.pc
  {
    var w := s.mem[s.pc] as int * 256 + s.mem[s.pc + 1] as int;
    Means(w / 4096, w / 256 % 16, w / 16 % 16, w % 16, t, input, r)
  }

  lemma WordOfOpcode(s: State, t: State, input: Input, r: Outcome)
    requires Valid(s) && s.pc < 4095 && Valid(t) && t.pc == s.pc
    requires var op := Fetch(s); Means(op.kind, op.x, op.y, op.n, t, input, r)
    ensures WordMeans(s, t, input, r)
  {
    DigitsOfWord(Fetch(s));
  }

  /** Every step of the machine does what the manual says of the word at `pc`: its effect on everything but the
      timers, which lose their missed ticks, or the way it stops. */
  lemma StepFollowsManual(s: State, input: Input)
    requires Valid(s)
    ensures s.pc >= 4096 ==> Step(s, input) == Halt
    ensures s.pc == 4095 ==> Step(s, input) == OutOfRange
    ensures s.pc < 4095 ==> WordMeans(s, Ticked(s, input), input, Step(s, input))
  {
    if s.pc < 4095 {
      TickedIs(s, input);
      WordFollows(Fetch(s), Ticked(s, input), input);
      FetchedWord(s, Ticked(s, input), input);
      WordOfOpcode(s, Ticked(s, input), input, Step(s, input));
    }
  }
}
