/** The CHIP-8 machine as the program updates it: memory, registers, stack and screen are buffers
    written in place. Every method is proved against the step functions of module `Cpu`. */
module Machine {
  import opened Bytes
  import opened Words
  import opened Display
  import opened Cpu
  import opened Boot

  datatype Status = Running | Halted | OutOfBounds

  /** `status` and the state reached are what the step function says. */
  predicate Agrees(status: Status, state: State, outcome: Outcome) {
    match outcome
    case Ok(s) => status == Running && state == s
    case Halt => status == Halted
    case OutOfRange => status == OutOfBounds
  }

  lemma WrapsAlike(x: byte, off: nat)
    ensures (x % WIDTH + off) % WIDTH == (x + off) % WIDTH
  {
  }

  lemma NextRow(y: byte, row: nat)
    ensures ((y + row) % HEIGHT + 1) % HEIGHT == (y + row + 1) % HEIGHT
  {
  }

  /** Scans the keys in ascending order. */
  method GetPressedKey(keys: set<nat>) returns (pressed: bool, key: nat)
    ensures pressed == (LeastKey(keys, 0) < 16)
    ensures pressed ==> key == LeastKey(keys, 0)
  {
    var k := 0;
    while k < 16
      invariant 0 <= k <= 16 && LeastKey(keys, 0) == LeastKey(keys, k)
    {
      if k in keys {
        return true, k;
      }
      k := k + 1;
    }
    return false, 0;
  }

  /** Copies `n` bytes of one buffer to another, one at a time. */
  method CopyBytes(src: array<byte>, from: nat, dst: array<byte>, to: nat, n: nat)
    requires src != dst && from + n <= src.Length && to + n <= dst.Length
    modifies dst
    ensures dst[..] == Overwrite(old(dst[..]), to, src[from..from + n])
  {
    var k := 0;
    while k < n
      invariant 0 <= k <= n
      invariant forall a :: 0 <= a < dst.Length ==> dst[a] == if to <= a < to + k then src[from + a - to] else old(dst[a])
    {
      dst[to + k] := src[from + k];
      k := k + 1;
    }
    OverwriteIs(old(dst[..]), to, src[from..from + n], dst[..]);
  }

  /** Clears memory and copies the font to its start. */
  method MemoryInit(mem: array<byte>)
    requires mem.Length == MEMORY_SIZE
    modifies mem
    ensures mem[..] == BootMemory([])
  {
    forall a | 0 <= a < MEMORY_SIZE { mem[a] := 0; }
    FontHasEightyBytes();
    for k := 0 to FONT_SIZE
      invariant forall a :: 0 <= a < MEMORY_SIZE ==> mem[a] == if a < k then FONT[a] else 0
    {
      mem[k] := FONT[k];
    }
  }

  class Chip8 {
    const memory: array<byte>
    const registers: array<byte>
    const stack: array<address>
    const buffer: array<bool>
    var pc: address
    var i: address
    var stackCount: nat
    var delay: byte
    var sound: byte

    ghost predicate Ready()
      reads this
    {
      && memory.Length == MEMORY_SIZE && registers.Length == 16 && memory != registers
      && stack.Length == STACK_CAPACITY && buffer.Length == 2048 && stackCount <= STACK_CAPACITY
    }

    ghost function View(): (s: State)
      requires Ready()
      reads this, memory, registers, stack, buffer
      ensures Valid(s)
    {
      State(memory[..], registers[..], pc, i, stack[..], stackCount, buffer[..], delay, sound)
    }

    /** Clears memory, copies the font in and resets the CPU. */
    constructor ()
      ensures Ready() && fresh(memory) && fresh(registers) && fresh(stack) && fresh(buffer)
      ensures View() == BootState([])
    {
      memory := new byte[MEMORY_SIZE](_ => 0);
      registers := new byte[16](_ => 0);
      stack := new address[STACK_CAPACITY](_ => 0);
      buffer := new bool[2048](_ => false);
      pc, i, stackCount, delay, sound := PROGRAM_START, PROGRAM_START, 0, 0, 0;
      new;
      MemoryInit(memory);
    }

    /** Clears program memory and copies a program in; one that does not fit ends the program. */
    method LoadRom(rom: seq<byte>) returns (status: Status)
      requires Ready()
      modifies memory
      ensures Ready()
      ensures if |rom| > PROGRAM_MAX_SIZE then status == Halted && memory[..] == old(memory[..])
              else status == Running && memory[..] ==
                     old(memory[..PROGRAM_START]) + rom + Zeros(PROGRAM_MAX_SIZE - |rom|)
    {
      if |rom| > PROGRAM_MAX_SIZE {
        return Halted;
      }
      for a := PROGRAM_START to MEMORY_SIZE
        invariant memory[..PROGRAM_START] == old(memory[..PROGRAM_START])
        invariant forall b :: PROGRAM_START <= b < a ==> memory[b] == 0
      {
        memory[a] := 0;
      }
      for k := 0 to |rom|
        invariant memory[..PROGRAM_START + k] == old(memory[..PROGRAM_START]) + rom[..k]
        invariant forall b :: PROGRAM_START + k <= b < MEMORY_SIZE ==> memory[b] == 0
      {
        memory[PROGRAM_START + k] := rom[k];
        assert memory[..PROGRAM_START + k + 1] == memory[..PROGRAM_START + k] + [rom[k]];
      }
      assert memory[PROGRAM_START + |rom|..] == Zeros(PROGRAM_MAX_SIZE - |rom|);
      assert memory[..] == memory[..PROGRAM_START + |rom|] + memory[PROGRAM_START + |rom|..];
      status := Running;
    }

    /** XORs one sprite byte onto the screen, from its highest bit on. */
    method DrawRow(x: byte, y: byte, pixelX: nat, pixelY: nat, spriteByte: byte, erased: bool,
                   ghost sprite: seq<byte>, ghost row: nat) returns (erased': bool)
      requires Ready() && row < |sprite| && sprite[row] == spriteByte
      requires pixelX == x % WIDTH && pixelY == (y + row) % HEIGHT
      modifies buffer
      ensures DrawFrom(Drawn(buffer[..], erased'), x, y, sprite, row + 1, 0) ==
                DrawFrom(Drawn(old(buffer[..]), erased), x, y, sprite, row, 0)
    {
      var offsetX, bit := 0, 7;
      erased' := erased;
      while bit >= 0
        invariant 0 <= offsetX <= 8 && bit == 7 - offsetX
        invariant DrawFrom(Drawn(old(buffer[..]), erased), x, y, sprite, row, 0) ==
                    DrawFrom(Drawn(buffer[..], erased'), x, y, sprite, row, offsetX)
      {
        ghost var before := Drawn(buffer[..], erased');
        var newPixel := BitIsSet(spriteByte, bit);
        WrapsAlike(x, offsetX);
        var cell := (pixelX + offsetX) % WIDTH * HEIGHT + pixelY;
        if buffer[cell] && !newPixel {
          erased' := true;
        }
        buffer[cell] := buffer[cell] != newPixel;
        assert Drawn(buffer[..], erased') == DrawBit(before, CellAt(x, y, row, offsetX), SpriteBit(sprite, row, offsetX));
        bit := bit - 1;
        offsetX := offsetX + 1;
      }
    }

    /** XORs the bytes at `at` onto the screen, row by row. */
    method DisplayDrawSprite(x: byte, y: byte, at: nat, len: nat) returns (erased: bool)
      requires Ready() && (len > 0 ==> at + len <= MEMORY_SIZE)
      modifies buffer
      ensures var sprite := if len == 0 then [] else memory[at..at + len];
              Drawn(buffer[..], erased) == DrawSprite(old(buffer[..]), x, y, sprite)
    {
      ghost var sprite := if len == 0 then [] else memory[at..at + len];
      ghost var goal := DrawSprite(buffer[..], x, y, sprite);
      var pixelX, pixelY := x % WIDTH, y % HEIGHT;
      erased := false;
      var row := 0;
      while row < len
        invariant 0 <= row <= len && pixelY == (y + row) % HEIGHT
        invariant goal == DrawFrom(Drawn(buffer[..], erased), x, y, sprite, row, 0)
      {
        var spriteByte := memory[at + row];
        assert sprite[row] == spriteByte;
        erased := DrawRow(x, y, pixelX, pixelY, spriteByte, erased, sprite, row);
        NextRow(y, row);
        row := row + 1;
        pixelY := (pixelY + 1) % HEIGHT;
      }
    }

    method StackPush(target: address) returns (status: Status)
      requires Ready()
      modifies this`pc, this`stackCount, stack
      ensures Ready() && Agrees(status, View(), Push(old(View()), target))
    {
      if stackCount >= STACK_CAPACITY {
        return Halted;
      }
      stack[stackCount] := pc;
      stackCount := stackCount + 1;
      pc := target;
      status := Running;
    }

    method ExecFlow(instr: Instr) returns (status: Status)
      requires Ready() && IsFlow(instr)
      modifies this`pc, this`stackCount, stack
      ensures Ready() && Agrees(status, View(), Cpu.ExecFlow(old(View()), instr))
    {
      status := Running;
      match instr {
        case Return =>
          if stackCount == 0 {
            return Halted;
          }
          stackCount := stackCount - 1;
          pc := stack[stackCount];
        case CallNative(nnn) => status := StackPush(nnn);
        case Goto(nnn) => pc := nnn;
        case Call(nnn) => status := StackPush(nnn);
        case SkipIfEq(x, kk) => SkipWhen(registers[x] == kk);
        case SkipIfNe(x, kk) => SkipWhen(registers[x] != kk);
        case SkipIfEqReg(x, y) => SkipWhen(registers[x] == registers[y]);
        case SkipIfNeReg(x, y) => SkipWhen(registers[x] != registers[y]);
        case GotoV0(nnn) => pc := (nnn as int + registers[0] as int) % 0x1_0000;
      }
    }

    method SkipWhen(condition: bool)
      requires Ready()
      modifies this`pc
      ensures Ready() && View() == Cpu.SkipWhen(old(View()), condition)
    {
      if condition {
        pc := (pc as int + 2) % 0x1_0000;
      }
    }

    /** The flag goes to VF before the result goes to Vx. */
    method SetFlagged(flag: bool, x: nibble, value: byte)
      requires Ready()
      modifies registers
      ensures Ready() && View() == Cpu.SetFlagged(old(View()), flag, x, value)
    {
      registers[VF] := if flag then 1 else 0;
      registers[x] := value;
    }

    /** The operations that set a flag refuse VF as an operand. */
    method ExecFlagged(instr: Instr, ghost input: Input) returns (status: Status)
      requires Ready() && (instr.AddReg? || instr.SubReg? || instr.SubFrom?)
      modifies registers
      ensures Ready() && Agrees(status, View(), Cpu.ExecArith(old(View()), instr, input))
    {
      status := Running;
      match instr {
        case AddReg(x, y) =>
          if x == VF || y == VF {
            return Halted;
          }
          var sum := registers[x] as int + registers[y] as int;
          SetFlagged(sum > 255, x, Wrap8(sum));
        case SubReg(x, y) =>
          if x == VF || y == VF {
            return Halted;
          }
          SetFlagged(registers[x] > registers[y], x, Wrap8(registers[x] as int - registers[y] as int));
        case SubFrom(x, y) =>
          if x == VF || y == VF {
            return Halted;
          }
          SetFlagged(registers[y] > registers[x], x, Wrap8(registers[y] as int - registers[x] as int));
      }
    }

    method ExecShift(instr: Instr, ghost input: Input) returns (status: Status)
      requires Ready() && (instr.ShiftRight? || instr.ShiftLeft?)
      modifies registers
      ensures Ready() && Agrees(status, View(), Cpu.ExecArith(old(View()), instr, input))
    {
      status := Running;
      match instr {
        case ShiftRight(x) =>
          if x == VF {
            return Halted;
          }
          SetFlagged(BitIsSet(registers[x], 0), x, registers[x] / 2);
        case ShiftLeft(x) =>
          if x == VF {
            return Halted;
          }
          SetFlagged(BitIsSet(registers[x], 7), x, Wrap8(registers[x] as int * 2));
      }
    }

    method ExecArith(instr: Instr, input: Input) returns (status: Status)
      requires Ready() && !IsFlow(instr) && !IsDevice(instr) && !IsMemory(instr)
      modifies registers
      ensures Ready() && Agrees(status, View(), Cpu.ExecArith(old(View()), instr, input))
    {
      status := Running;
      match instr {
        case Set(x, kk) => registers[x] := kk;
        case Add(x, kk) => registers[x] := Wrap8(registers[x] as int + kk as int);
        case Copy(x, y) => registers[x] := registers[y];
        case Or(x, y) => registers[x] := OrBytes(registers[x], registers[y]);
        case And(x, y) => registers[x] := AndBytes(registers[x], registers[y]);
        case Xor(x, y) => registers[x] := XorBytes(registers[x], registers[y]);
        case Random(x, kk) => registers[x] := AndBytes(input.random, kk);
        case AddReg(_, _) => status := ExecFlagged(instr, input);
        case SubReg(_, _) => status := ExecFlagged(instr, input);
        case SubFrom(_, _) => status := ExecFlagged(instr, input);
        case ShiftRight(_) => status := ExecShift(instr, input);
        case ShiftLeft(_) => status := ExecShift(instr, input);
      }
    }

    method ExecDraw(x: nibble, y: nibble, n: nibble) returns (status: Status)
      requires Ready()
      modifies registers, buffer
      ensures Ready() && Agrees(status, View(), Cpu.ExecDraw(old(View()), x, y, n))
    {
      if n > 0 && i as int + n as int > MEMORY_SIZE {
        return OutOfBounds;
      }
      var erased := DisplayDrawSprite(registers[x], registers[y], i, n);
      registers[VF] := if erased then 1 else 0;
      status := Running;
    }

    method DisplayClear()
      requires Ready()
      modifies buffer
      ensures Ready() && View() == old(View()).(screen := Blank())
    {
      forall c | 0 <= c < buffer.Length { buffer[c] := false; }
      assert buffer[..] == Blank();
    }

    /** Key values beyond 15 index past the key map. */
    method ExecKeySkip(x: nibble, input: Input, whenDown: bool) returns (status: Status)
      requires Ready()
      modifies this`pc
      ensures Ready() && Agrees(status, View(),
                Cpu.ExecDevice(old(View()), if whenDown then SkipIfKey(x) else SkipIfNoKey(x), input))
    {
      if registers[x] >= 16 {
        return OutOfBounds;
      }
      SkipWhen((registers[x] in input.keys) == whenDown);
      status := Running;
    }

    /** With no key down the program counter goes back, so the instruction is executed again. */
    method ExecWaitKey(x: nibble, input: Input)
      requires Ready()
      modifies this`pc, registers
      ensures Ready() && Ok(View()) == Cpu.ExecDevice(old(View()), WaitKey(x), input)
    {
      var pressed, key := GetPressedKey(input.keys);
      if pressed {
        registers[x] := key;
      } else {
        pc := (pc as int - 2) % 0x1_0000;
      }
    }

    method ExecDevice(instr: Instr, input: Input) returns (status: Status)
      requires Ready() && IsDevice(instr)
      modifies this`pc, this`delay, this`sound, registers, buffer
      ensures Ready() && Agrees(status, View(), Cpu.ExecDevice(old(View()), instr, input))
    {
      status := Running;
      match instr {
        case Clear =>
          DisplayClear();
        case DrawAt(x, y, n) => status := ExecDraw(x, y, n);
        case SkipIfKey(x) => status := ExecKeySkip(x, input, true);
        case SkipIfNoKey(x) => status := ExecKeySkip(x, input, false);
        case WaitKey(x) => ExecWaitKey(x, input);
        case GetDelay(_) => ExecTimer(instr, input);
        case SetDelay(_) => ExecTimer(instr, input);
        case SetSound(_) => ExecTimer(instr, input);
      }
    }

    method ExecTimer(instr: Instr, ghost input: Input)
      requires Ready() && (instr.GetDelay? || instr.SetDelay? || instr.SetSound?)
      modifies this`delay, this`sound, registers
      ensures Ready() && Ok(View()) == Cpu.ExecDevice(old(View()), instr, input)
    {
      match instr {
        case GetDelay(x) => registers[x] := delay;
        case SetDelay(x) => delay := registers[x];
        case SetSound(x) => sound := registers[x];
      }
    }

    /** Copies V0 to Vx to memory from I on. */
    method RegDump(x: nibble) returns (status: Status)
      requires Ready()
      modifies memory
      ensures Ready() && Agrees(status, View(), Cpu.ExecMemory(old(View()), StoreRegs(x)))
    {
      if i as int + x as int + 1 > MEMORY_SIZE {
        return OutOfBounds;
      }
      CopyBytes(registers, 0, memory, i, x + 1);
      status := Running;
    }

    /** Copies memory from I on to V0 to Vx. */
    method RegLoad(x: nibble) returns (status: Status)
      requires Ready()
      modifies registers
      ensures Ready() && Agrees(status, View(), Cpu.ExecMemory(old(View()), LoadRegs(x)))
    {
      if i as int + x as int + 1 > MEMORY_SIZE {
        return OutOfBounds;
      }
      CopyBytes(memory, i, registers, 0, x + 1);
      status := Running;
    }

    /** Hundreds, tens and ones. */
    method SetBcd(x: nibble) returns (status: Status)
      requires Ready()
      modifies memory
      ensures Ready() && Agrees(status, View(), Cpu.ExecMemory(old(View()), StoreBcd(x)))
    {
      if i as int + 3 > MEMORY_SIZE {
        return OutOfBounds;
      }
      memory[i] := registers[x] % 1000 / 100;
      memory[i + 1] := registers[x] % 100 / 10;
      memory[i + 2] := registers[x] % 10;
      OverwriteIs(old(memory[..]), i, Digits(registers[x]), memory[..]);
      status := Running;
    }

    method ExecMemory(instr: Instr) returns (status: Status)
      requires Ready() && IsMemory(instr)
      modifies this`i, memory, registers
      ensures Ready() && Agrees(status, View(), Cpu.ExecMemory(old(View()), instr))
    {
      status := Running;
      match instr {
        case SetI(nnn) => i := nnn;
        case AddI(x) => i := (i as int + registers[x] as int) % 0x1_0000;
        case FontI(x) => i := FontAddress(registers[x]);
        case StoreBcd(x) => status := SetBcd(x);
        case StoreRegs(x) => status := RegDump(x);
        case LoadRegs(x) => status := RegLoad(x);
      }
    }

    method DecodeAndExec(op: Opcode, input: Input) returns (status: Status)
      requires Ready()
      modifies this, memory, registers, stack, buffer
      ensures Ready()
      ensures Agrees(status, View(),
                match Dispatch(op) case None => Halt case Some(instr) => Exec(old(View()), instr, input))
    {
      match Dispatch(op) {
        case None => status := Halted;
        case Some(instr) =>
          if IsFlow(instr) {
            status := ExecFlow(instr);
          } else if IsDevice(instr) {
            status := ExecDevice(instr, input);
          } else if IsMemory(instr) {
            status := ExecMemory(instr);
          } else {
            status := ExecArith(instr, input);
          }
      }
    }

    method CpuStep(input: Input) returns (status: Status)
      requires Ready()
      modifies this, memory, registers, stack, buffer
      ensures Ready() && Agrees(status, View(), Cpu.CpuStep(old(View()), input))
    {
      if pc >= MEMORY_SIZE {
        return Halted;
      }
      if pc == MEMORY_SIZE - 1 {
        return OutOfBounds;
      }
      var op := OpcodeFromBytes(memory[pc], memory[pc + 1]);
      if op == Opcode(0, 0, 0, 0) {
        return Halted;
      }
      pc := (pc as int + 2) % 0x1_0000;
      status := DecodeAndExec(op, input);
    }

    /** One tick at a time, down to zero. */
    method TickDown(value: byte, ticks: nat) returns (v: byte)
      ensures v == Tick(value, ticks)
    {
      v := value;
      var left := ticks;
      while left > 0
        invariant Tick(v, left) == Tick(value, ticks)
      {
        left := left - 1;
        if v > 0 {
          v := v - 1;
        }
      }
    }

    /** One turn of the main loop. */
    method Turn(input: Input) returns (status: Status)
      requires Ready()
      modifies this, memory, registers, stack, buffer
      ensures Ready() && Agrees(status, View(), Step(old(View()), input))
    {
      delay := TickDown(delay, input.delayTicks);
      sound := TickDown(sound, input.soundTicks);
      status := CpuStep(input);
    }
  }
}
