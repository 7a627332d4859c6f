/** Properties of whole runs of the CHIP-8 machine. */
module CpuRuns {
  import opened Bytes
  import opened Wrappers
  import opened Words
  import opened Display
  import opened Cpu
  import opened Boot
  import opened CallStack

  predicate StepsTo(s: State, input: Input, s': State) {
    Valid(s) && Step(s, input) == Ok(s')
  }

  /** `ss` are the states of a run of successful steps under the inputs `ins`. */
  ghost predicate IsRun(ss: seq<State>, ins: seq<Input>) {
    && |ss| == |ins| + 1 && Valid(ss[0])
    && forall k :: 0 <= k < |ins| ==> StepsTo(ss[k], ins[k], ss[k + 1])
  }

  /** Every state of a run is in order; in particular the stack never holds more than twelve entries. */
  lemma RunStaysValid(ss: seq<State>, ins: seq<Input>, k: nat)
    requires IsRun(ss, ins) && k < |ss|
    ensures Valid(ss[k]) && ss[k].sp <= 12
  {
    if k > 0 {
      assert StepsTo(ss[k - 1], ins[k - 1], ss[k - 1 + 1]);
      StepKeepsValid(ss[k - 1], ins[k - 1]);
    }
  }

  // ---------------------------------------------------------------- calls and returns

  /** 2NNN and 0NNN are calls, 00EE is the return. */
  function EventOf(s: State): Event
    requires Valid(s)
  {
    match Current(s)
    case Some(Call(_)) => CallEvent
    case Some(CallNative(_)) => CallEvent
    case Some(Return) => ReturnEvent
    case _ => OtherEvent
  }

  function FrameOf(s: State): Frame { Frame(s.pc, s.stack, s.sp) }

  lemma FlowStack(s: State, instr: Instr)
    requires Valid(s) && ExecFlow(s, instr).Ok?
    ensures var s' := ExecFlow(s, instr).state;
            && ((instr.Call? || instr.CallNative?) ==>
                  s.sp < 12 && s'.sp == s.sp + 1 && s'.stack == s.stack[s.sp := s.pc])
            && (instr.Return? ==> s.sp > 0 && s'.sp == s.sp - 1 && s'.stack == s.stack && s'.pc == s.stack[s.sp - 1])
            && (!instr.Call? && !instr.CallNative? && !instr.Return? ==> s'.sp == s.sp && s'.stack == s.stack)
  {
  }

  lemma StepMovesStack(s: State, input: Input, s': State)
    requires StepsTo(s, input, s')
    ensures Moves(FrameOf(s), EventOf(s), FrameOf(s'))
  {
    StepIs(s, input);
    var t, instr := Advance(UpdateTimers(s, input)), Current(s).value;
    if IsFlow(instr) {
      FlowStack(t, instr);
    } else if IsDevice(instr) {
      DeviceFrame(t, instr, input);
    } else if IsMemory(instr) {
      MemoryFrame(t, instr);
    } else {
      ArithFrame(t, instr, input);
    }
  }

  ghost function Frames(ss: seq<State>): (fs: seq<Frame>)
    ensures |fs| == |ss| && forall k :: 0 <= k < |ss| ==> fs[k] == FrameOf(ss[k])
  {
    seq(|ss|, k requires 0 <= k < |ss| => FrameOf(ss[k]))
  }

  /** The events of a run, one for each step. */
  ghost function Events(ss: seq<State>, n: nat): (es: seq<Event>)
    requires n <= |ss| && forall k :: 0 <= k < |ss| ==> Valid(ss[k])
    ensures |es| == n && forall k :: 0 <= k < n ==> es[k] == EventOf(ss[k])
  {
    seq(n, k requires 0 <= k < n => EventOf(ss[k]))
  }

  lemma RunIsTrace(ss: seq<State>, ins: seq<Input>)
    requires IsRun(ss, ins)
    ensures forall k :: 0 <= k < |ss| ==> Valid(ss[k])
    ensures IsTrace(Frames(ss), Events(ss, |ins|))
  {
    forall k | 0 <= k < |ss| ensures Valid(ss[k]) { RunStaysValid(ss, ins, k); }
    var fs, es := Frames(ss), Events(ss, |ins|);
    forall k | 0 <= k < |ins| ensures Moves(fs[k], es[k], fs[k + 1]) {
      StepMovesStack(ss[k], ins[k], ss[k + 1]);
    }
  }

  /** Calls are well bracketed: after a call at depth d, the step that first brings the depth back to d
      is a return, it resumes behind the call, and the entries below d are the same all the way. */
  lemma CallsAreBracketed(ss: seq<State>, ins: seq<Input>, i: nat, j: nat)
    requires IsRun(ss, ins) && i < j < |ss| && Valid(ss[i]) && EventOf(ss[i]) == CallEvent
    requires ss[j].sp == ss[i].sp && forall k :: i < k < j ==> ss[k].sp != ss[i].sp
    ensures Valid(ss[j - 1]) && EventOf(ss[j - 1]) == ReturnEvent && ss[j].pc == ss[i].pc + 2
    ensures forall k :: i <= k <= j ==> Valid(ss[k]) && ss[k].stack[..ss[i].sp] == ss[i].stack[..ss[i].sp]
  {
    RunIsTrace(ss, ins);
    var fs := Frames(ss);
    Bracketed(fs, Events(ss, |ins|), i, j);
    forall k | i <= k <= j ensures ss[k].stack[..ss[i].sp] == ss[i].stack[..ss[i].sp] {
      assert fs[k].stack[..fs[i].sp] == fs[i].stack[..fs[i].sp];
    }
  }

  /** From an empty stack on, the stacked entries are exactly the addresses behind the calls that have not
      been returned from. */
  lemma StackHoldsPendingCalls(ss: seq<State>, ins: seq<Input>)
    requires IsRun(ss, ins) && ss[0].sp == 0
    ensures forall k :: 0 <= k < |ss| ==> Valid(ss[k])
    ensures var s, pcs := ss[|ins|], seq(|ss|, k requires 0 <= k < |ss| => ss[k].pc);
            Valid(s) && s.stack[..s.sp] == Pending(pcs, Events(ss, |ins|))
  {
    RunIsTrace(ss, ins);
    StackIsPending(Frames(ss), Events(ss, |ins|), seq(|ss|, k requires 0 <= k < |ss| => ss[k].pc));
  }

  // ---------------------------------------------------------------- memory

  /** Whether the step from `s` writes cell `a`: only FX33 and FX55 write memory. */
  predicate Writes(s: State, a: nat)
    requires Valid(s)
  {
    match Current(s)
    case Some(StoreBcd(_)) => s.i <= a < s.i + 3
    case Some(StoreRegs(x)) => s.i <= a <= s.i + x
    case _ => false
  }

  /** The step from `s` leaves cell `a` alone. */
  predicate Spares(s: State, a: nat) { Valid(s) && !Writes(s, a) }

  /** No step from state `i` up to state `j` writes a cell from `lo` up to `hi`. */
  ghost predicate Untouched(ss: seq<State>, i: nat, j: nat, lo: nat, hi: nat)
    requires j <= |ss|
  {
    forall k, a :: i <= k < j && lo <= a < hi ==> Spares(ss[k], a)
  }

  lemma OverwriteAt<T>(s: seq<T>, at: nat, items: seq<T>, k: nat)
    requires at + |items| <= |s| && k < |s|
    ensures Overwrite(s, at, items)[k] == if at <= k < at + |items| then items[k - at] else s[k]
  {
  }

  lemma StepMemory(s: State, input: Input, s': State, a: nat)
    requires StepsTo(s, input, s') && a < MEMORY_SIZE && Spares(s, a)
    ensures |s'.mem| == MEMORY_SIZE && s'.mem[a] == s.mem[a]
  {
    StepIs(s, input);
    StepKeepsValid(s, input);
    var t, instr := Advance(UpdateTimers(s, input)), Current(s).value;
    if IsFlow(instr) {
      FlowFrame(t, instr);
    } else if IsDevice(instr) {
      DeviceFrame(t, instr, input);
    } else if IsMemory(instr) {
      if instr.StoreBcd? { OverwriteAt(t.mem, t.i, Digits(t.v[instr.x]), a); }
      if instr.StoreRegs? { OverwriteAt(t.mem, t.i, t.v[..instr.x + 1], a); }
    } else {
      ArithFrame(t, instr, input);
    }
  }

  lemma {:induction false} ConstantAlong(values: seq<int>, i: nat, j: nat)
    requires i <= j < |values| && forall k :: i <= k < j ==> values[k] == values[k + 1]
    ensures values[i] == values[j]
    decreases j
  {
    if i < j { ConstantAlong(values, i, j - 1); }
  }

  /** A cell no step writes keeps its byte. */
  lemma RunMemory(ss: seq<State>, ins: seq<Input>, i: nat, j: nat, a: nat)
    requires IsRun(ss, ins) && i <= j < |ss| && a < MEMORY_SIZE
    requires forall k :: i <= k < j ==> Spares(ss[k], a)
    ensures |ss[i].mem| == |ss[j].mem| == MEMORY_SIZE && ss[j].mem[a] == ss[i].mem[a]
  {
    forall k | 0 <= k < |ss| ensures |ss[k].mem| == MEMORY_SIZE { RunStaysValid(ss, ins, k); }
    var cells := seq(|ss|, k requires 0 <= k < |ss| => ss[k].mem[a]);
    forall k | i <= k < j ensures cells[k] == cells[k + 1] {
      StepMemory(ss[k], ins[k], ss[k + 1], a);
    }
    ConstantAlong(cells, i, j);
  }

  lemma StoreIs(s: State, x: nibble, k: nat)
    requires Valid(s) && ExecMemory(s, StoreRegs(x)).Ok? && k <= x
    ensures var s' := ExecMemory(s, StoreRegs(x)).state;
            |s'.mem| == MEMORY_SIZE && s.i + k < MEMORY_SIZE && s'.mem[s.i + k] == s.v[k]
  {
    OverwriteAt(s.mem, s.i, s.v[..x + 1], s.i + k);
  }

  lemma LoadIs(s: State, x: nibble, k: nat)
    requires Valid(s) && ExecMemory(s, LoadRegs(x)).Ok? && k < 16
    ensures var s' := ExecMemory(s, LoadRegs(x)).state;
            |s'.v| == 16 && s.i + x < MEMORY_SIZE && s'.v[k] == if k <= x then s.mem[s.i + k] else s.v[k]
  {
    OverwriteAt(s.v, 0, s.mem[s.i..s.i + x + 1], k);
  }

  lemma StoreStep(s: State, input: Input, s': State, x: nibble, k: nat)
    requires StepsTo(s, input, s') && Current(s) == Some(StoreRegs(x)) && k <= x
    ensures |s'.mem| == MEMORY_SIZE && s.i + k < MEMORY_SIZE && s'.mem[s.i + k] == s.v[k]
  {
    MemoryStepIs(s, input);
    StoreIs(Advance(UpdateTimers(s, input)), x, k);
  }

  lemma LoadStep(s: State, input: Input, s': State, x: nibble, k: nat)
    requires StepsTo(s, input, s') && Current(s) == Some(LoadRegs(x)) && k < 16
    ensures |s'.v| == 16 && s.i + x < MEMORY_SIZE
    ensures s'.v[k] == if k <= x then s.mem[s.i + k] else s.v[k]
  {
    MemoryStepIs(s, input);
    LoadIs(Advance(UpdateTimers(s, input)), x, k);
  }

  /** FX55 and a later FX65 with the same I and x restore V0 to Vx, whatever ran in between, as long as
      it did not write the cells saved. */
  lemma SaveAndRestore(ss: seq<State>, ins: seq<Input>, i: nat, j: nat, x: nibble, k: nat)
    requires IsRun(ss, ins) && i < j < |ins|
    requires Valid(ss[i]) && Current(ss[i]) == Some(StoreRegs(x))
    requires Valid(ss[j]) && Current(ss[j]) == Some(LoadRegs(x)) && ss[j].i == ss[i].i
    requires Untouched(ss, i + 1, j, ss[i].i, ss[i].i + x + 1)
    requires k <= x
    ensures Valid(ss[j + 1]) && ss[j + 1].v[k] == ss[i].v[k]
  {
    RunStaysValid(ss, ins, j + 1);
    var a := ss[i].i + k;
    StoreStep(ss[i], ins[i], ss[i + 1], x, k);
    RunMemory(ss, ins, i + 1, j, a);
    LoadStep(ss[j], ins[j], ss[j + 1], x, k);
  }

  // ---------------------------------------------------------------- the font

  /** Until a step writes below address 80, the font is in place. */
  lemma FontIsKept(rom: seq<byte>, ss: seq<State>, ins: seq<Input>, j: nat)
    requires |rom| <= PROGRAM_MAX_SIZE && IsRun(ss, ins) && ss[0] == BootState(rom) && j < |ss|
    requires Untouched(ss, 0, j, 0, FONT_SIZE)
    ensures |ss[j].mem| == MEMORY_SIZE && ss[j].mem[..FONT_SIZE] == FONT
  {
    FontHasEightyBytes();
    RunStaysValid(ss, ins, j);
    forall a | 0 <= a < FONT_SIZE ensures ss[j].mem[a] == FONT[a] {
      RunMemory(ss, ins, 0, j, a);
      assert ss[0].mem[a] == ss[0].mem[..FONT_SIZE][a];
    }
  }

  lemma FontStep(s: State, input: Input, s': State, x: nibble)
    requires StepsTo(s, input, s') && Current(s) == Some(FontI(x))
    ensures s'.i == s.v[x] * GLYPH_SIZE
  {
    MemoryStepIs(s, input);
  }

  lemma DrawIs(s: State, x: nibble, y: nibble, n: nibble, s': State)
    requires Valid(s) && ExecDraw(s, x, y, n) == Ok(s')
    ensures n > 0 ==> s.i + n <= MEMORY_SIZE
    ensures var d := DrawSprite(s.screen, s.v[x], s.v[y], SpriteAt(s, n));
            |s'.v| == 16 && s'.screen == d.screen && s'.v[VF] == if d.erased then 1 else 0
  {
  }

  /** A drawing step shows the bytes at I and reports the flag in VF. */
  lemma DrawStepIs(s: State, input: Input, s': State, x: nibble, y: nibble, n: nibble)
    requires StepsTo(s, input, s') && Current(s) == Some(DrawAt(x, y, n))
    ensures n > 0 ==> s.i + n <= MEMORY_SIZE
    ensures var d := DrawSprite(s.screen, s.v[x], s.v[y], SpriteAt(s, n));
            |s'.v| == 16 && s'.screen == d.screen && s'.v[VF] == if d.erased then 1 else 0
  {
    DeviceStepIs(s, input);
    DrawIs(Advance(UpdateTimers(s, input)), x, y, n, s');
  }

  /** FX29 with Vx < 16 and then DXY5 with I untouched XOR in exactly the glyph of Vx. */
  lemma DigitsAreDrawn(rom: seq<byte>, ss: seq<State>, ins: seq<Input>, i: nat, j: nat, x: nibble, a: nibble, b: nibble)
    requires |rom| <= PROGRAM_MAX_SIZE && IsRun(ss, ins) && ss[0] == BootState(rom) && i < j < |ins|
    requires Untouched(ss, 0, j, 0, FONT_SIZE)
    requires Valid(ss[i]) && Current(ss[i]) == Some(FontI(x)) && ss[i].v[x] < 16
    requires Valid(ss[j]) && Current(ss[j]) == Some(DrawAt(a, b, 5)) && ss[j].i == ss[i + 1].i
    ensures ss[j + 1].screen == DrawSprite(ss[j].screen, ss[j].v[a], ss[j].v[b], Glyph(ss[i].v[x])).screen
  {
    FontHasEightyBytes();
    FontStep(ss[i], ins[i], ss[i + 1], x);
    FontIsKept(rom, ss, ins, j);
    DrawStepIs(ss[j], ins[j], ss[j + 1], a, b, 5);
    var at := ss[j].i;
    assert ss[j].mem[at..at + 5] == ss[j].mem[..FONT_SIZE][at..at + 5] == FONT[at..at + 5];
  }

  /** At every drawing step VF tells whether a zero bit covered a lit pixel. */
  lemma DrawFlag(s: State, input: Input, s': State, x: nibble, y: nibble, n: nibble)
    requires StepsTo(s, input, s') && Current(s) == Some(DrawAt(x, y, n))
    ensures n > 0 ==> s.i + n <= MEMORY_SIZE
    ensures |s'.v| == 16
    ensures s'.v[VF] == 1 <==> CoversLit(s.screen, s.v[x], s.v[y], SpriteAt(s, n), 0, 0, false)
  {
    DrawStepIs(s, input, s', x, y, n);
    FlagIsZeroOverLit(s.screen, s.v[x], s.v[y], SpriteAt(s, n));
  }

  // ---------------------------------------------------------------- waiting for a key

  /** The outcome of a run under the given inputs. */
  function RunFrom(s: State, ins: seq<Input>): (r: Outcome)
    requires Valid(s)
    decreases |ins|
  {
    if ins == [] then Ok(s)
    else
      match Step(s, ins[0])
      case Ok(s') => StepKeepsValid(s, ins[0]); RunFrom(s', ins[1..])
      case stopped => stopped
  }

  predicate NoKey(input: Input) { LeastKey(input.keys, 0) == 16 }

  lemma WaitStep(s: State, input: Input, x: nibble)
    requires Valid(s) && Current(s) == Some(WaitKey(x))
    ensures StepsTo(s, input, AfterWait(s, input, x))
  {
    var t := UpdateTimers(s, input);
    CurrentIgnoresTimers(s, t);
    CpuStepExecutes(t, input);
    WaitIs(t, input, x);
  }

  lemma WaitIs(t: State, input: Input, x: nibble)
    requires Valid(t) && t.pc < MEMORY_SIZE
    ensures ExecDevice(Advance(t), WaitKey(x), input) == Ok(Waited(t, input, x))
  {
  }

  /** What an input does to a state that waits for a key, timers aside: nothing while no key is held; else
      the least key goes into Vx and the program moves on. */
  function Waited(s: State, input: Input, x: nibble): State
    requires Valid(s) && s.pc < MEMORY_SIZE
  {
    if NoKey(input) then s else s.(v := s.v[x := LeastKey(input.keys, 0)], pc := s.pc + 2)
  }

  /** The state after one step at a WaitKey. */
  function AfterWait(s: State, input: Input, x: nibble): State
    requires Valid(s) && s.pc < MEMORY_SIZE
  {
    Waited(UpdateTimers(s, input), input, x)
  }

  lemma WaitedTimers(s: State, t: State, input: Input, x: nibble, r: State)
    requires Valid(s) && s.pc < MEMORY_SIZE && SameButTimers(s, t) && SameButTimers(Waited(t, input, x), r)
    ensures SameButTimers(Waited(s, input, x), r)
  {
  }

  /** Waiting for a key is a stutter: however long no key is held, only the timers move; and the first
      input with a key puts the least key into Vx and moves on. */
  lemma {:induction false} WaitingStutters(s: State, ins: seq<Input>, x: nibble)
    requires Valid(s) && Current(s) == Some(WaitKey(x)) && ins != []
    requires forall k :: 0 <= k < |ins| - 1 ==> NoKey(ins[k])
    ensures EndsAsWaited(s, ins, x)
    decreases |ins|
  {
    if |ins| == 1 {
      WaitingOnce(s, ins, x);
    } else {
      var t := UpdateTimers(s, ins[0]);
      WaitingMore(s, ins, x);
      WaitingStutters(t, ins[1..], x);
      StutterOn(s, ins, x, t);
    }
  }

  /** The run succeeds, and timers aside only its last input has an effect. */
  predicate EndsAsWaited(s: State, ins: seq<Input>, x: nibble)
    requires Valid(s) && s.pc < MEMORY_SIZE && ins != []
  {
    RunFrom(s, ins).Ok? && SameButTimers(Waited(s, ins[|ins| - 1], x), RunFrom(s, ins).state)
  }

  lemma StutterOn(s: State, ins: seq<Input>, x: nibble, t: State)
    requires Valid(s) && s.pc < MEMORY_SIZE && |ins| > 1 && Valid(t) && SameButTimers(s, t)
    requires RunFrom(s, ins) == RunFrom(t, ins[1..]) && EndsAsWaited(t, ins[1..], x)
    ensures EndsAsWaited(s, ins, x)
  {
    WaitedTimers(s, t, ins[|ins| - 1], x, RunFrom(t, ins[1..]).state);
  }

  lemma WaitingMore(s: State, ins: seq<Input>, x: nibble)
    requires Valid(s) && Current(s) == Some(WaitKey(x)) && |ins| > 1 && NoKey(ins[0])
    ensures var t := UpdateTimers(s, ins[0]);
            && Valid(t) && Current(t) == Current(s) && SameButTimers(s, t)
            && RunFrom(s, ins) == RunFrom(t, ins[1..])
  {
    var t := UpdateTimers(s, ins[0]);
    WaitStep(s, ins[0], x);
    RunFirst(s, ins, t);
    CurrentIgnoresTimers(s, t);
  }

  lemma WaitingOnce(s: State, ins: seq<Input>, x: nibble)
    requires Valid(s) && Current(s) == Some(WaitKey(x)) && |ins| == 1
    ensures RunFrom(s, ins) == Ok(AfterWait(s, ins[0], x))
  {
    WaitStep(s, ins[0], x);
    RunOne(s, ins, AfterWait(s, ins[0], x));
  }

  lemma RunOne(s: State, ins: seq<Input>, s': State)
    requires |ins| == 1 && StepsTo(s, ins[0], s')
    ensures RunFrom(s, ins) == Ok(s')
  {
    RunFirst(s, ins, s');
    RunOfNothing(s', ins[1..]);
  }

  lemma RunOfNothing(s: State, ins: seq<Input>)
    requires Valid(s) && ins == []
    ensures RunFrom(s, ins) == Ok(s)
  {
  }

  lemma RunFirst(s: State, ins: seq<Input>, s': State)
    requires ins != [] && StepsTo(s, ins[0], s')
    ensures Valid(s') && RunFrom(s, ins) == RunFrom(s', ins[1..])
  {
    StepKeepsValid(s, ins[0]);
  }
}
