/** What the screen shows in a whole run: the drawings since the last clear. */
module ScreenRuns {
  import opened Bytes
  import opened Wrappers
  import opened Display
  import opened Cpu
  import opened Boot
  import opened CpuRuns

  /** What the step from `s` draws: nothing, or one sprite. */
  function DrawnBy(s: State): (ds: seq<Drawing>) {
    if !Valid(s) then []
    else
      match Current(s)
      case Some(DrawAt(x, y, n)) =>
        if n > 0 && s.i + n > MEMORY_SIZE then [] else [Drawing(s.v[x], s.v[y], SpriteAt(s, n))]
      case _ => []
  }

  predicate KeepsScreen(s: State) { Valid(s) && Current(s) != Some(Clear) }

  /** What each step of a run draws. */
  function DrawnBySteps(ss: seq<State>): (dss: seq<seq<Drawing>>)
    ensures |dss| == |ss| && forall k :: 0 <= k < |ss| ==> dss[k] == DrawnBy(ss[k])
  {
    seq(|ss|, k requires 0 <= k < |ss| => DrawnBy(ss[k]))
  }

  /** The lists from `i` up to `j`, joined. */
  function Joined(dss: seq<seq<Drawing>>, i: nat, j: nat): (ds: seq<Drawing>)
    requires i <= j <= |dss|
    decreases j
  {
    if i == j then [] else Joined(dss, i, j - 1) + dss[j - 1]
  }

  /** Everything drawn from state `i` up to state `j`, in order. */
  function DrawnAlong(ss: seq<State>, i: nat, j: nat): (ds: seq<Drawing>)
    requires i <= j <= |ss|
  {
    Joined(DrawnBySteps(ss), i, j)
  }

  lemma {:induction false} DrawnInTurn(screens: seq<Screen>, dss: seq<seq<Drawing>>, i: nat, j: nat)
    requires i <= j < |screens| == |dss|
    requires forall k :: i <= k < j ==> screens[k + 1] == DrawAll(screens[k], dss[k])
    ensures screens[j] == DrawAll(screens[i], Joined(dss, i, j))
    decreases j
  {
    if i < j {
      DrawnInTurn(screens, dss, i, j - 1);
      DrawInTwoParts(screens[i], Joined(dss, i, j - 1), dss[j - 1]);
      assert screens[j - 1 + 1] == DrawAll(screens[j - 1], dss[j - 1]);
    }
  }

  lemma {:induction false} DrawInTwoParts(screen: Screen, a: seq<Drawing>, b: seq<Drawing>)
    ensures DrawAll(screen, a + b) == DrawAll(DrawAll(screen, a), b)
    decreases |a|
  {
    if a == [] {
      assert a + b == b;
    } else {
      assert (a + b)[1..] == a[1..] + b;
      DrawInTwoParts(Draw(screen, a[0]), a[1..], b);
    }
  }

  lemma DrawOne(screen: Screen, d: Drawing)
    ensures DrawAll(screen, [d]) == Draw(screen, d)
  {
  }

  lemma OtherStepScreen(s: State, input: Input, s': State)
    requires StepsTo(s, input, s') && Current(s).Some? && !Current(s).value.DrawAt? && !Current(s).value.Clear?
    ensures s'.screen == s.screen
  {
    StepIs(s, input);
    var t, instr := Advance(UpdateTimers(s, input)), Current(s).value;
    if IsFlow(instr) {
      FlowFrame(t, instr);
    } else if IsDevice(instr) {
    } else if IsMemory(instr) {
      MemoryFrame(t, instr);
    } else {
      ArithFrame(t, instr, input);
    }
  }

  lemma StepScreen(s: State, input: Input, s': State)
    requires StepsTo(s, input, s') && KeepsScreen(s)
    ensures s'.screen == DrawAll(s.screen, DrawnBy(s))
  {
    StepIs(s, input);
    match Current(s).value {
      case DrawAt(x, y, n) =>
        DrawStepIs(s, input, s', x, y, n);
        DrawOne(s.screen, Drawing(s.v[x], s.v[y], SpriteAt(s, n)));
      case _ => OtherStepScreen(s, input, s');
    }
  }

  lemma ScreenIsDrawn(ss: seq<State>, ins: seq<Input>, i: nat, j: nat)
    requires IsRun(ss, ins) && i <= j < |ss| && forall k :: i <= k < j ==> KeepsScreen(ss[k])
    ensures ss[j].screen == DrawAll(ss[i].screen, DrawnAlong(ss, i, j))
  {
    var screens := seq(|ss|, k requires 0 <= k < |ss| => ss[k].screen);
    var dss := DrawnBySteps(ss);
    forall k | i <= k < j ensures screens[k + 1] == DrawAll(screens[k], dss[k]) {
      StepScreen(ss[k], ins[k], ss[k + 1]);
    }
    DrawnInTurn(screens, dss, i, j);
  }

  lemma ClearStep(s: State, input: Input, s': State)
    requires StepsTo(s, input, s') && Current(s) == Some(Clear)
    ensures s'.screen == Blank()
  {
    DeviceStepIs(s, input);
  }

  lemma ScreenSinceClear(ss: seq<State>, ins: seq<Input>, i: nat, j: nat)
    requires IsRun(ss, ins) && i < j < |ss|
    requires Valid(ss[i]) && Current(ss[i]) == Some(Clear)
    requires forall k :: i < k < j ==> KeepsScreen(ss[k])
    ensures ss[j].screen == DrawAll(Blank(), DrawnAlong(ss, i + 1, j))
  {
    ClearStep(ss[i], ins[i], ss[i + 1]);
    ScreenIsDrawn(ss, ins, i + 1, j);
  }

  /** Before the first clear after a start, a pixel is lit exactly when an odd number of set sprite bits have
      landed on it since the start... */
  lemma PixelIsParitySinceBoot(rom: seq<byte>, ss: seq<State>, ins: seq<Input>, j: nat, c: nat)
    requires |rom| <= PROGRAM_MAX_SIZE && IsRun(ss, ins) && ss[0] == BootState(rom) && j < |ss| && c < 2048
    requires forall k :: 0 <= k < j ==> KeepsScreen(ss[k])
    ensures ss[j].screen[c] <==> Odd(TotalHits(DrawnAlong(ss, 0, j), c))
  {
    ScreenIsDrawn(ss, ins, 0, j);
    LitIffOddHits(DrawnAlong(ss, 0, j), c);
  }

  /** ... and after a clear, when an odd number have landed on it since the last clear. */
  lemma PixelIsParitySinceClear(ss: seq<State>, ins: seq<Input>, i: nat, j: nat, c: nat)
    requires IsRun(ss, ins) && i < j < |ss| && c < 2048
    requires Valid(ss[i]) && Current(ss[i]) == Some(Clear)
    requires forall k :: i < k < j ==> KeepsScreen(ss[k])
    ensures ss[j].screen[c] <==> Odd(TotalHits(DrawnAlong(ss, i + 1, j), c))
  {
    ScreenSinceClear(ss, ins, i, j);
    LitIffOddHits(DrawnAlong(ss, i + 1, j), c);
  }
}
