/** One step of the CHIP-8 machine, as a function of its state and inputs. */
module Cpu {
  import opened Bytes
  import opened Wrappers
  import opened Words
  import opened Display

  const MEMORY_SIZE := 4096
  const PROGRAM_START := 0x200
  const STACK_CAPACITY := 12
  const VF: nibble := 15

  /** `pc`, `i` and stack entries are 16 bits wide; `sp` counts the stacked entries. */
  datatype State = State(mem: seq<byte>, v: seq<byte>, pc: address, i: address, stack: seq<address>, sp: nat,
                         screen: Screen, delay: byte, sound: byte)

  predicate Valid(s: State) {
    |s.mem| == MEMORY_SIZE && |s.v| == 16 && |s.stack| == STACK_CAPACITY && s.sp <= STACK_CAPACITY
  }

  /** What the outside world supplies to one step: the keys held down, a random byte, and how many 60 Hz
      ticks each timer has missed. */
  datatype Input = Input(keys: set<nat>, random: byte, delayTicks: nat, soundTicks: nat)

  /** `Halt` is an exit with an error; `OutOfRange` an access beyond an array. */
  datatype Outcome = Ok(state: State) | Halt | OutOfRange

  datatype Instr =
    | Clear | Return | CallNative(nnn: address) | Goto(nnn: address) | Call(nnn: address)
    | SkipIfEq(x: nibble, kk: byte) | SkipIfNe(x: nibble, kk: byte) | SkipIfEqReg(x: nibble, y: nibble)
    | Set(x: nibble, kk: byte) | Add(x: nibble, kk: byte)
    | Copy(x: nibble, y: nibble) | Or(x: nibble, y: nibble) | And(x: nibble, y: nibble) | Xor(x: nibble, y: nibble)
    | AddReg(x: nibble, y: nibble) | SubReg(x: nibble, y: nibble) | ShiftRight(x: nibble)
    | SubFrom(x: nibble, y: nibble) | ShiftLeft(x: nibble) | SkipIfNeReg(x: nibble, y: nibble)
    | SetI(nnn: address) | GotoV0(nnn: address) | Random(x: nibble, kk: byte)
    | DrawAt(x: nibble, y: nibble, n: nibble) | SkipIfKey(x: nibble) | SkipIfNoKey(x: nibble)
    | GetDelay(x: nibble) | WaitKey(x: nibble) | SetDelay(x: nibble) | SetSound(x: nibble)
    | AddI(x: nibble) | FontI(x: nibble) | StoreBcd(x: nibble) | StoreRegs(x: nibble) | LoadRegs(x: nibble)

  /** Which routine executes a word; `None` is the unsupported opcode the program exits on. */
  function Dispatch(op: Opcode): Option<Instr> {
    if op == Opcode(0, 0, 0xE, 0) then Some(Clear)
    else if op == Opcode(0, 0, 0xE, 0xE) then Some(Return)
    else if op.kind == 0 then Some(CallNative(op.Nnn()))
    else if op.kind == 1 then Some(Goto(op.Nnn()))
    else if op.kind == 2 then Some(Call(op.Nnn()))
    else if op.kind == 3 then Some(SkipIfEq(op.x, op.Kk()))
    else if op.kind == 4 then Some(SkipIfNe(op.x, op.Kk()))
    else if op.kind == 5 && op.n == 0 then Some(SkipIfEqReg(op.x, op.y))
    else if op.kind == 6 then Some(Set(op.x, op.Kk()))
    else if op.kind == 7 then Some(Add(op.x, op.Kk()))
    else if op.kind == 8 && op.n == 0 then Some(Copy(op.x, op.y))
    else if op.kind == 8 && op.n == 1 then Some(Or(op.x, op.y))
    else if op.kind == 8 && op.n == 2 then Some(And(op.x, op.y))
    else if op.kind == 8 && op.n == 3 then Some(Xor(op.x, op.y))
    else if op.kind == 8 && op.n == 4 then Some(AddReg(op.x, op.y))
    else if op.kind == 8 && op.n == 5 then Some(SubReg(op.x, op.y))
    else if op.kind == 8 && op.n == 6 then Some(ShiftRight(op.x))
    else if op.kind == 8 && op.n == 7 then Some(SubFrom(op.x, op.y))
    else if op.kind == 8 && op.n == 0xE then Some(ShiftLeft(op.x))
    else if op.kind == 9 && op.n == 0 then Some(SkipIfNeReg(op.x, op.y))
    else if op.kind == 0xA then Some(SetI(op.Nnn()))
    else if op.kind == 0xB then Some(GotoV0(op.Nnn()))
    else if op.kind == 0xC then Some(Random(op.x, op.Kk()))
    else if op.kind == 0xD then Some(DrawAt(op.x, op.y, op.n))
    else if op.kind == 0xE && op.y == 9 && op.n == 0xE then Some(SkipIfKey(op.x))
    else if op.kind == 0xE && op.y == 0xA && op.n == 1 then Some(SkipIfNoKey(op.x))
    else if op.kind == 0xF && op.y == 0 && op.n == 7 then Some(GetDelay(op.x))
    else if op.kind == 0xF && op.y == 0 && op.n == 0xA then Some(WaitKey(op.x))
    else if op.kind == 0xF && op.y == 1 && op.n == 5 then Some(SetDelay(op.x))
    else if op.kind == 0xF && op.y == 1 && op.n == 8 then Some(SetSound(op.x))
    else if op.kind == 0xF && op.y == 1 && op.n == 0xE then Some(AddI(op.x))
    else if op.kind == 0xF && op.y == 2 && op.n == 9 then Some(FontI(op.x))
    else if op.kind == 0xF && op.y == 3 && op.n == 3 then Some(StoreBcd(op.x))
    else if op.kind == 0xF && op.y == 5 && op.n == 5 then Some(StoreRegs(op.x))
    else if op.kind == 0xF && op.y == 6 && op.n == 5 then Some(LoadRegs(op.x))
    else None
  }

  function Advance(s: State): State { s.(pc := (s.pc + 2) % 0x1_0000) }

  /** Register arithmetic, kept to eight bits. */
  function Wrap8(value: int): byte { value % 256 }

  function SkipWhen(s: State, condition: bool): State { if condition then Advance(s) else s }

  function SetV(s: State, x: nibble, value: byte): State
    requires |s.v| == 16
  {
    s.(v := s.v[x := value])
  }

  /** VF is written before Vx. */
  function SetFlagged(s: State, flag: bool, x: nibble, value: byte): State
    requires |s.v| == 16
  {
    SetV(SetV(s, VF, if flag then 1 else 0), x, value)
  }

  function Push(s: State, target: address): Outcome
    requires Valid(s)
  {
    if s.sp >= STACK_CAPACITY then Halt
    else Ok(s.(stack := s.stack[s.sp := s.pc], sp := s.sp + 1, pc := target))
  }

  function Overwrite<T>(s: seq<T>, at: nat, items: seq<T>): (r: seq<T>)
    requires at + |items| <= |s|
    ensures |r| == |s|
  {
    s[..at] + items + s[at + |items|..]
  }

  lemma OverwriteIs<T>(s: seq<T>, at: nat, items: seq<T>, r: seq<T>)
    requires at + |items| <= |s| == |r|
    requires forall k :: 0 <= k < |r| ==> r[k] == if at <= k < at + |items| then items[k - at] else s[k]
    ensures r == Overwrite(s, at, items)
  {
  }

  /** The least key at or above `k` that is held down; 16 if none. */
  function LeastKey(keys: set<nat>, k: nat): (least: nat)
    requires k <= 16
    ensures k <= least <= 16
    ensures least < 16 ==> least in keys
    ensures forall j :: k <= j < least ==> j !in keys
    decreases 16 - k
  {
    if k == 16 || k in keys then k else LeastKey(keys, k + 1)
  }

  function ExecFlow(s: State, instr: Instr): Outcome
    requires Valid(s)
  {
    match instr
    case Return => if s.sp == 0 then Halt else Ok(s.(sp := s.sp - 1, pc := s.stack[s.sp - 1]))
    case CallNative(nnn) => Push(s, nnn)
    case Goto(nnn) => Ok(s.(pc := nnn))
    case Call(nnn) => Push(s, nnn)
    case SkipIfEq(x, kk) => Ok(SkipWhen(s, s.v[x] == kk))
    case SkipIfNe(x, kk) => Ok(SkipWhen(s, s.v[x] != kk))
    case SkipIfEqReg(x, y) => Ok(SkipWhen(s, s.v[x] == s.v[y]))
    case SkipIfNeReg(x, y) => Ok(SkipWhen(s, s.v[x] != s.v[y]))
    case GotoV0(nnn) => Ok(s.(pc := (nnn + s.v[0]) % 0x1_0000))
    case _ => Halt
  }

  function ExecArith(s: State, instr: Instr, input: Input): Outcome
    requires Valid(s)
  {
    match instr
    case Set(x, kk) => Ok(SetV(s, x, kk))
    case Add(x, kk) => Ok(SetV(s, x, Wrap8(s.v[x] as int + kk as int)))
    case Copy(x, y) => Ok(SetV(s, x, s.v[y]))
    case Or(x, y) => Ok(SetV(s, x, OrBytes(s.v[x], s.v[y])))
    case And(x, y) => Ok(SetV(s, x, AndBytes(s.v[x], s.v[y])))
    case Xor(x, y) => Ok(SetV(s, x, XorBytes(s.v[x], s.v[y])))
    case AddReg(x, y) =>
      if x == VF || y == VF then Halt
      else Ok(SetFlagged(s, s.v[x] as int + s.v[y] as int > 255, x, Wrap8(s.v[x] as int + s.v[y] as int)))
    case SubReg(x, y) =>
      if x == VF || y == VF then Halt
      else Ok(SetFlagged(s, s.v[x] > s.v[y], x, Wrap8(s.v[x] as int - s.v[y] as int)))
    case ShiftRight(x) =>
      if x == VF then Halt else Ok(SetFlagged(s, BitIsSet(s.v[x], 0), x, s.v[x] / 2))
    case SubFrom(x, y) =>
      if x == VF || y == VF then Halt
      else Ok(SetFlagged(s, s.v[y] > s.v[x], x, Wrap8(s.v[y] as int - s.v[x] as int)))
    case ShiftLeft(x) =>
      if x == VF then Halt else Ok(SetFlagged(s, BitIsSet(s.v[x], 7), x, Wrap8(s.v[x] as int * 2)))
    case Random(x, kk) => Ok(SetV(s, x, AndBytes(input.random, kk)))
    case _ => Halt
  }

  /** The bytes at I that a drawing of `n` rows shows; a drawing of no rows reads nothing. */
  function SpriteAt(s: State, n: nibble): (sprite: seq<byte>)
    requires Valid(s) && (n > 0 ==> s.i + n <= MEMORY_SIZE)
    ensures |sprite| == n
  {
    if n == 0 then [] else s.mem[s.i..s.i + n]
  }

  function ExecDraw(s: State, x: nibble, y: nibble, n: nibble): Outcome
    requires Valid(s)
  {
    if n > 0 && s.i + n > MEMORY_SIZE then OutOfRange
    else
      var d := DrawSprite(s.screen, s.v[x], s.v[y], SpriteAt(s, n));
      Ok(SetV(s.(screen := d.screen), VF, if d.erased then 1 else 0))
  }

  function ExecDevice(s: State, instr: Instr, input: Input): Outcome
    requires Valid(s)
  {
    match instr
    case Clear => Ok(s.(screen := Blank()))
    case DrawAt(x, y, n) => ExecDraw(s, x, y, n)
    case SkipIfKey(x) => if s.v[x] >= 16 then OutOfRange else Ok(SkipWhen(s, s.v[x] in input.keys))
    case SkipIfNoKey(x) => if s.v[x] >= 16 then OutOfRange else Ok(SkipWhen(s, s.v[x] !in input.keys))
    case GetDelay(x) => Ok(SetV(s, x, s.delay))
    case WaitKey(x) =>
      if LeastKey(input.keys, 0) < 16 then Ok(SetV(s, x, LeastKey(input.keys, 0)))
      else Ok(s.(pc := (s.pc - 2) % 0x1_0000))
    case SetDelay(x) => Ok(s.(delay := s.v[x]))
    case SetSound(x) => Ok(s.(sound := s.v[x]))
    case _ => Halt
  }

  function Digits(b: byte): (ds: seq<byte>) {
    [b % 1000 / 100, b % 100 / 10, b % 10]
  }

  const GLYPH_SIZE := 5

  /** Where the glyph of a digit is stored; the font starts at address 0. */
  function FontAddress(digit: int): address
    requires 0 <= digit < 256
  {
    digit * GLYPH_SIZE
  }

  function ExecMemory(s: State, instr: Instr): Outcome
    requires Valid(s)
  {
    match instr
    case SetI(nnn) => Ok(s.(i := nnn))
    case AddI(x) => Ok(s.(i := (s.i + s.v[x]) % 0x1_0000))
    case FontI(x) => Ok(s.(i := FontAddress(s.v[x])))
    case StoreBcd(x) =>
      if s.i + 3 > MEMORY_SIZE then OutOfRange else Ok(s.(mem := Overwrite(s.mem, s.i, Digits(s.v[x]))))
    case StoreRegs(x) =>
      if s.i + x + 1 > MEMORY_SIZE then OutOfRange else Ok(s.(mem := Overwrite(s.mem, s.i, s.v[..x + 1])))
    case LoadRegs(x) =>
      if s.i + x + 1 > MEMORY_SIZE then OutOfRange else Ok(s.(v := Overwrite(s.v, 0, s.mem[s.i..s.i + x + 1])))
    case _ => Halt
  }

  predicate IsFlow(instr: Instr) {
    instr.Return? || instr.CallNative? || instr.Goto? || instr.Call? || instr.SkipIfEq? || instr.SkipIfNe? ||
    instr.SkipIfEqReg? || instr.SkipIfNeReg? || instr.GotoV0?
  }

  predicate IsDevice(instr: Instr) {
    instr.Clear? || instr.DrawAt? || instr.SkipIfKey? || instr.SkipIfNoKey? || instr.GetDelay? || instr.WaitKey? ||
    instr.SetDelay? || instr.SetSound?
  }

  predicate IsMemory(instr: Instr) {
    instr.SetI? || instr.AddI? || instr.FontI? || instr.StoreBcd? || instr.StoreRegs? || instr.LoadRegs?
  }

  /** The effect of an instruction on a state whose `pc` already points behind it. */
  function Exec(s: State, instr: Instr, input: Input): Outcome
    requires Valid(s)
  {
    if IsFlow(instr) then ExecFlow(s, instr)
    else if IsDevice(instr) then ExecDevice(s, instr, input)
    else if IsMemory(instr) then ExecMemory(s, instr)
    else ExecArith(s, instr, input)
  }

  function Fetch(s: State): Opcode
    requires Valid(s) && s.pc < MEMORY_SIZE - 1
  {
    OpcodeFromBytes(s.mem[s.pc], s.mem[s.pc + 1])
  }

  /** Fetch, advance, decode and execute. */
  function CpuStep(s: State, input: Input): Outcome
    requires Valid(s)
  {
    if s.pc >= MEMORY_SIZE then Halt
    else if s.pc == MEMORY_SIZE - 1 then OutOfRange
    else
      var op := Fetch(s);
      if op == Opcode(0, 0, 0, 0) then Halt
      else
        match Dispatch(op)
        case None => Halt
        case Some(instr) => Exec(Advance(s), instr, input)
  }

  function Tick(value: byte, ticks: nat): byte { if value >= ticks then value - ticks else 0 }

  function UpdateTimers(s: State, input: Input): State {
    s.(delay := Tick(s.delay, input.delayTicks), sound := Tick(s.sound, input.soundTicks))
  }

  /** One turn of the machine's main loop: the timers catch up, then the CPU executes one instruction. */
  function Step(s: State, input: Input): Outcome
    requires Valid(s)
  {
    CpuStep(UpdateTimers(s, input), input)
  }

  // ---------------------------------------------------------------- what each family leaves alone

  lemma FlowFrame(s: State, instr: Instr)
    requires Valid(s) && ExecFlow(s, instr).Ok?
    ensures var s' := ExecFlow(s, instr).state;
            Valid(s') && s' == s.(pc := s'.pc, stack := s'.stack, sp := s'.sp)
  {
  }

  lemma ArithFrame(s: State, instr: Instr, input: Input)
    requires Valid(s) && ExecArith(s, instr, input).Ok?
    ensures var s' := ExecArith(s, instr, input).state;
            Valid(s') && s' == s.(v := s'.v)
  {
  }

  lemma DeviceFrame(s: State, instr: Instr, input: Input)
    requires Valid(s) && ExecDevice(s, instr, input).Ok?
    ensures var s' := ExecDevice(s, instr, input).state;
            Valid(s') && s' == s.(v := s'.v, pc := s'.pc, screen := s'.screen, delay := s'.delay, sound := s'.sound)
  {
  }

  lemma MemoryFrame(s: State, instr: Instr)
    requires Valid(s) && ExecMemory(s, instr).Ok?
    ensures var s' := ExecMemory(s, instr).state;
            Valid(s') && s' == s.(mem := s'.mem, i := s'.i, v := s'.v)
  {
  }

  /** The instruction a state is about to execute. */
  function Current(s: State): Option<Instr>
    requires Valid(s)
  {
    if s.pc >= MEMORY_SIZE - 1 || Fetch(s) == Opcode(0, 0, 0, 0) then None else Dispatch(Fetch(s))
  }

  /** A successful step executes its instruction on the state with the timers updated and `pc` advanced. */
  lemma StepIs(s: State, input: Input)
    requires Valid(s) && Step(s, input).Ok?
    ensures Current(s).Some?
    ensures Step(s, input) == Exec(Advance(UpdateTimers(s, input)), Current(s).value, input)
  {
    CurrentIgnoresTimers(s, UpdateTimers(s, input));
    CpuStepIs(UpdateTimers(s, input), input);
  }

  /** Equal except for the timers. */
  predicate SameButTimers(s: State, t: State) {
    t == s.(delay := t.delay, sound := t.sound)
  }

  /** Timers do not influence which instruction comes next. */
  lemma CurrentIgnoresTimers(s: State, t: State)
    requires Valid(s) && SameButTimers(s, t)
    ensures Valid(t) && Current(t) == Current(s)
  {
    if s.pc < MEMORY_SIZE - 1 { assert Fetch(t) == Fetch(s); }
  }

  lemma CpuStepExecutes(s: State, input: Input)
    requires Valid(s) && Current(s).Some?
    ensures CpuStep(s, input) == Exec(Advance(s), Current(s).value, input)
  {
  }

  lemma CpuStepIs(s: State, input: Input)
    requires Valid(s) && CpuStep(s, input).Ok?
    ensures Current(s).Some? && CpuStep(s, input) == Exec(Advance(s), Current(s).value, input)
  {
  }

  lemma MemoryStepIs(s: State, input: Input)
    requires Valid(s) && Step(s, input).Ok? && Current(s).Some? && IsMemory(Current(s).value)
    ensures Step(s, input) == ExecMemory(Advance(UpdateTimers(s, input)), Current(s).value)
  {
    StepIs(s, input);
  }

  lemma DeviceStepIs(s: State, input: Input)
    requires Valid(s) && Step(s, input).Ok? && Current(s).Some? && IsDevice(Current(s).value)
    ensures Step(s, input) == ExecDevice(Advance(UpdateTimers(s, input)), Current(s).value, input)
  {
    StepIs(s, input);
  }

  lemma StepKeepsValid(s: State, input: Input)
    requires Valid(s) && Step(s, input).Ok?
    ensures Valid(Step(s, input).state)
  {
    StepIs(s, input);
    ExecKeepsValid(Advance(UpdateTimers(s, input)), Current(s).value, input);
  }

  lemma ExecKeepsValid(s: State, instr: Instr, input: Input)
    requires Valid(s) && Exec(s, instr, input).Ok?
    ensures Valid(Exec(s, instr, input).state)
  {
    if IsFlow(instr) {
      FlowFrame(s, instr);
    } else if IsDevice(instr) {
      DeviceFrame(s, instr, input);
    } else if IsMemory(instr) {
      MemoryFrame(s, instr);
    } else {
      ArithFrame(s, instr, input);
    }
  }
}
