/** The printed line of every instruction, and why a line tells the instruction. */
module Disassembler {
  import opened Bytes
  import opened Wrappers
  import opened Words
  import opened Cpu

  function HexDigit(n: nibble): (c: char)
    ensures HexValue(c) == n
    ensures '0' <= c <= '9' <==> n < 10
  {
    if n < 10 then (n + '0' as int) as char else (n - 10 + 'A' as int) as char
  }

  /** A register number in decimal, behind a V. */
  function Reg(x: nibble): string {
    if x < 10 then ['V', HexDigit(x)] else ['V', '1', HexDigit(x - 10)]
  }

  function Hex2(b: byte): string { ['0', 'x', HexDigit(b / 16), HexDigit(b % 16)] }

  function Hex4(a: address): string {
    ['0', 'x', HexDigit(a / 4096), HexDigit(a / 256 % 16), HexDigit(a / 16 % 16), HexDigit(a % 16)]
  }

  /** The line printed for a word; `None` where the disassembler reports an unsupported opcode. */
  function Line(op: Opcode): Option<string> {
    if op == Opcode(0, 0, 0xE, 0) then Some("Clear the screen\n")
    else if op == Opcode(0, 0, 0xE, 0xE) then Some("Return from a subroutine\n")
    else if op.kind == 0 then Some("Call machine code at address " + (Hex4(op.Nnn()) + "\n"))
    else if op.kind == 1 then Some("goto " + (Hex4(op.Nnn()) + "\n"))
    else if op.kind == 2 then Some("Call subroutine at address " + (Hex4(op.Nnn()) + "\n"))
    else if op.kind == 3 then Some("if (" + (Reg(op.x) + (" == " + (Hex2(op.Kk()) + ")\n"))))
    else if op.kind == 4 then Some("if (" + (Reg(op.x) + (" != " + (Hex2(op.Kk()) + ")\n"))))
    else if op.kind == 5 && op.n == 0 then Some("skip next if (" + (Reg(op.x) + (" == " + (Reg(op.y) + ")\n"))))
    else if op.kind == 6 then Some(Reg(op.x) + (" = " + (Hex2(op.Kk()) + "\n")))
    else if op.kind == 7 then Some(Reg(op.x) + (" += " + (Hex2(op.Kk()) + "\n")))
    else if op.kind == 8 && op.n == 0 then Some(Reg(op.x) + (" = " + (Reg(op.y) + "\n")))
    else if op.kind == 8 && op.n == 1 then Some(Reg(op.x) + (" |= " + (Reg(op.y) + "\n")))
    else if op.kind == 8 && op.n == 2 then Some(Reg(op.x) + (" &= " + (Reg(op.y) + "\n")))
    else if op.kind == 8 && op.n == 3 then Some(Reg(op.x) + (" ^= " + (Reg(op.y) + "\n")))
    else if op.kind == 8 && op.n == 4 then Some(Reg(op.x) + (" += " + (Reg(op.y) + "\n")))
    else if op.kind == 8 && op.n == 5 then Some(Reg(op.x) + (" -= " + (Reg(op.y) + "\n")))
    else if op.kind == 8 && op.n == 6 then Some(Reg(op.x) + " >>= 1\n")
    else if op.kind == 8 && op.n == 7 then Some(Reg(op.x) + (" = " + (Reg(op.y) + (" - " + (Reg(op.x) + "\n")))))
    else if op.kind == 8 && op.n == 0xE then Some(Reg(op.x) + " <<= 1\n")
    else if op.kind == 9 && op.n == 0 then Some("if (" + (Reg(op.x) + (" != " + (Reg(op.y) + ")\n"))))
    else if op.kind == 0xA then Some("I = " + (Hex4(op.Nnn()) + "\n"))
    else if op.kind == 0xB then Some("PC = V0 + " + (Hex4(op.Nnn()) + "\n"))
    else if op.kind == 0xC then Some(Reg(op.x) + (" = rand() & " + (Hex2(op.Kk()) + "\n")))
    else if op.kind == 0xD then Some("draw(" + (Reg(op.x) + (", " + (Reg(op.y) + (", " + (Hex2(op.n) + ")\n"))))))
    else if op.kind == 0xE && op.y == 9 && op.n == 0xE then Some("if (key() == " + (Reg(op.x) + ")\n"))
    else if op.kind == 0xE && op.y == 0xA && op.n == 1 then Some("if (key() != " + (Reg(op.x) + ")\n"))
    else if op.kind == 0xF && op.y == 0 && op.n == 7 then Some(Reg(op.x) + " = get_delay()\n")
    else if op.kind == 0xF && op.y == 0 && op.n == 0xA then Some(Reg(op.x) + " = get_key()\n")
    else if op.kind == 0xF && op.y == 1 && op.n == 5 then Some("delay_timer(" + (Reg(op.x) + ")\n"))
    else if op.kind == 0xF && op.y == 1 && op.n == 8 then Some("sound_timer(" + (Reg(op.x) + ")\n"))
    else if op.kind == 0xF && op.y == 1 && op.n == 0xE then Some("I += " + (Reg(op.x) + "\n"))
    else if op.kind == 0xF && op.y == 2 && op.n == 9 then Some("I = sprite_addr[" + (Reg(op.x) + "]\n"))
    else if op.kind == 0xF && op.y == 3 && op.n == 3 then Some("set_bcd(" + (Reg(op.x) + ")\n"))
    else if op.kind == 0xF && op.y == 5 && op.n == 5 then Some("reg_dump(" + (Reg(op.x) + ", &I)\n"))
    else if op.kind == 0xF && op.y == 6 && op.n == 5 then Some("reg_load(" + (Reg(op.x) + ", &I)\n"))
    else None
  }

  // ---------------------------------------------------------------- reading a line back

  function At(s: string, k: nat): char { if k < |s| then s[k] else '?' }

  function HexValue(c: char): nibble {
    if '0' <= c <= '9' then c as int - '0' as int
    else if 'A' <= c <= 'F' then c as int - 'A' as int + 10
    else 0
  }

  function Drop(s: string, k: nat): string { if k <= |s| then s[k..] else "" }

  /** Splits a register number off the front of a line: the number and what follows. */
  function TakeReg(s: string): (r: (nibble, string)) {
    if '0' <= At(s, 2) <= '9' then ((10 + HexValue(At(s, 2))) % 16, Drop(s, 3)) else (HexValue(At(s, 1)), Drop(s, 2))
  }

  function Hex2At(s: string, k: nat): byte { HexValue(At(s, k + 2)) * 16 + HexValue(At(s, k + 3)) }

  function Hex4At(s: string, k: nat): address {
    HexValue(At(s, k + 2)) * 4096 + HexValue(At(s, k + 3)) * 256 + HexValue(At(s, k + 4)) * 16 + HexValue(At(s, k + 5))
  }

  /** The instruction on a line that starts with the register `x`; `t` is what follows. */
  function ReadAssignment(x: nibble, t: string): Instr {
    match At(t, 1)
    case '=' =>
      if At(t, 3) == '0' then Set(x, Hex2At(t, 3))
      else if At(t, 3) == 'r' then Random(x, Hex2At(t, 12))
      else if At(t, 3) == 'g' then (if At(t, 7) == 'd' then GetDelay(x) else WaitKey(x))
      else
        var (y, u) := TakeReg(Drop(t, 3));
        if At(u, 0) == '\n' then Copy(x, y) else SubFrom(x, y)
    case '+' => if At(t, 4) == '0' then Add(x, Hex2At(t, 4)) else AddReg(x, TakeReg(Drop(t, 4)).0)
    case '|' => Or(x, TakeReg(Drop(t, 4)).0)
    case '&' => And(x, TakeReg(Drop(t, 4)).0)
    case '^' => Xor(x, TakeReg(Drop(t, 4)).0)
    case '-' => SubReg(x, TakeReg(Drop(t, 4)).0)
    case '>' => ShiftRight(x)
    case _ => ShiftLeft(x)
  }

  function ReadIf(s: string): Instr {
    if At(s, 4) == 'V' then
      var (x, t) := TakeReg(Drop(s, 4));
      if At(t, 1) == '=' then SkipIfEq(x, Hex2At(t, 4))
      else if At(t, 4) == 'V' then SkipIfNeReg(x, TakeReg(Drop(t, 4)).0)
      else SkipIfNe(x, Hex2At(t, 4))
    else if At(s, 10) == '=' then SkipIfKey(TakeReg(Drop(s, 13)).0)
    else SkipIfNoKey(TakeReg(Drop(s, 13)).0)
  }

  /** The instruction that a printed line names. */
  function Read(s: string): Instr {
    match At(s, 0)
    case 'C' =>
      if At(s, 1) == 'l' then Clear
      else if At(s, 5) == 'm' then CallNative(Hex4At(s, 29))
      else Call(Hex4At(s, 27))
    case 'R' => Return
    case 'g' => Goto(Hex4At(s, 5))
    case 'i' => ReadIf(s)
    case 's' =>
      if At(s, 1) == 'k' then
        var (x, t) := TakeReg(Drop(s, 14));
        SkipIfEqReg(x, TakeReg(Drop(t, 4)).0)
      else if At(s, 1) == 'o' then SetSound(TakeReg(Drop(s, 12)).0)
      else StoreBcd(TakeReg(Drop(s, 8)).0)
    case 'd' =>
      if At(s, 1) == 'r' then
        var (x, t) := TakeReg(Drop(s, 5));
        var (y, u) := TakeReg(Drop(t, 2));
        DrawAt(x, y, HexValue(At(u, 5)))
      else SetDelay(TakeReg(Drop(s, 12)).0)
    case 'r' => if At(s, 4) == 'd' then StoreRegs(TakeReg(Drop(s, 9)).0) else LoadRegs(TakeReg(Drop(s, 9)).0)
    case 'P' => GotoV0(Hex4At(s, 10))
    case 'I' =>
      if At(s, 2) == '+' then AddI(TakeReg(Drop(s, 5)).0)
      else if At(s, 4) == '0' then SetI(Hex4At(s, 4))
      else FontI(TakeReg(Drop(s, 16)).0)
    case _ =>
      var (x, t) := TakeReg(s);
      ReadAssignment(x, t)
  }

  /** A register followed by something other than a digit splits off... */
  lemma TakeRegTakes(x: nibble, t: string)
    requires t != "" && !('0' <= t[0] <= '9')
    ensures TakeReg(Reg(x) + t) == (x, t) && At(Reg(x) + t, 0) == 'V'
  {
    assert Drop(Reg(x) + t, |Reg(x)|) == t;
  }

  /** ... also behind a fixed text. */
  lemma RegBehind(pre: string, x: nibble, t: string)
    requires t != "" && !('0' <= t[0] <= '9')
    ensures TakeReg(Drop(pre + (Reg(x) + t), |pre|)) == (x, t)
  {
    DropDrops(pre, Reg(x) + t);
    TakeRegTakes(x, t);
  }

  lemma DropDrops(a: string, t: string)
    ensures Drop(a + t, |a|) == t
  {
  }

  /** The characters of a text that starts with `a`. */
  lemma StartsWith(a: string, t: string)
    ensures forall k :: 0 <= k < |a| ==> At(a + t, k) == a[k]
    ensures t != "" ==> At(a + t, |a|) == t[0]
  {
  }

  lemma Hex4Reads(pre: string, a: address, post: string)
    ensures Hex4At(pre + (Hex4(a) + post), |pre|) == a
    ensures At(pre + (Hex4(a) + post), |pre|) == '0'
  {
    FourDigits(a);
    var s := pre + (Hex4(a) + post);
    assert At(s, |pre| + 2) == HexDigit(a / 4096) && At(s, |pre| + 3) == HexDigit(a / 256 % 16);
    assert At(s, |pre| + 4) == HexDigit(a / 16 % 16) && At(s, |pre| + 5) == HexDigit(a % 16);
  }

  lemma FourDigits(a: address)
    ensures a / 4096 * 4096 + a / 256 % 16 * 256 + a / 16 % 16 * 16 + a % 16 == a
  {
    assert a / 256 == a / 4096 * 16 + a / 256 % 16;
    assert a / 16 == a / 256 * 16 + a / 16 % 16;
  }

  lemma Hex2Reads(pre: string, b: byte, post: string)
    ensures Hex2At(pre + (Hex2(b) + post), |pre|) == b
    ensures At(pre + (Hex2(b) + post), |pre|) == '0'
  {
    var s := pre + (Hex2(b) + post);
    assert At(s, |pre| + 2) == HexDigit(b / 16) && At(s, |pre| + 3) == HexDigit(b % 16);
  }

  // ---------------------------------------------------------------- shapes of line, told by few characters

  lemma ReadsCall(s: string, a: address)
    requires At(s, 0) == 'C' && At(s, 1) != 'l' && Hex4At(s, if At(s, 5) == 'm' then 29 else 27) == a
    ensures Read(s) == if At(s, 5) == 'm' then CallNative(a) else Call(a)
  {
  }

  lemma ReadsAddress(s: string, a: address)
    requires (At(s, 0) == 'g' && Hex4At(s, 5) == a) || (At(s, 0) == 'P' && Hex4At(s, 10) == a) ||
             (At(s, 0) == 'I' && At(s, 2) != '+' && At(s, 4) == '0' && Hex4At(s, 4) == a)
    ensures Read(s) == match At(s, 0) case 'g' => Goto(a) case 'P' => GotoV0(a) case _ => SetI(a)
  {
  }

  lemma ReadsCompare(s: string, x: nibble, t: string)
    requires At(s, 0) == 'i' && At(s, 4) == 'V' && TakeReg(Drop(s, 4)) == (x, t)
    ensures Read(s) ==
              if At(t, 1) == '=' then SkipIfEq(x, Hex2At(t, 4))
              else if At(t, 4) == 'V' then SkipIfNeReg(x, TakeReg(Drop(t, 4)).0)
              else SkipIfNe(x, Hex2At(t, 4))
  {
  }

  lemma ReadsKey(s: string, x: nibble)
    requires At(s, 0) == 'i' && At(s, 4) != 'V' && TakeReg(Drop(s, 13)).0 == x
    ensures Read(s) == if At(s, 10) == '=' then SkipIfKey(x) else SkipIfNoKey(x)
  {
  }

  lemma ReadsSkipNext(s: string, x: nibble, t: string)
    requires At(s, 0) == 's' && At(s, 1) == 'k' && TakeReg(Drop(s, 14)) == (x, t)
    ensures Read(s) == SkipIfEqReg(x, TakeReg(Drop(t, 4)).0)
  {
  }

  lemma ReadsDraw(s: string, x: nibble, t: string, y: nibble, u: string)
    requires At(s, 0) == 'd' && At(s, 1) == 'r' && TakeReg(Drop(s, 5)) == (x, t) && TakeReg(Drop(t, 2)) == (y, u)
    ensures Read(s) == DrawAt(x, y, HexValue(At(u, 5)))
  {
  }

  lemma ReadsTimer(s: string, x: nibble)
    requires (At(s, 0) == 'd' && At(s, 1) == 'e') || (At(s, 0) == 's' && At(s, 1) == 'o')
    requires TakeReg(Drop(s, 12)).0 == x
    ensures Read(s) == if At(s, 0) == 'd' then SetDelay(x) else SetSound(x)
  {
  }

  lemma ReadsBcd(s: string, x: nibble)
    requires At(s, 0) == 's' && At(s, 1) == 'e' && TakeReg(Drop(s, 8)).0 == x
    ensures Read(s) == StoreBcd(x)
  {
  }

  lemma ReadsIndex(s: string, x: nibble)
    requires At(s, 0) == 'I' && (if At(s, 2) == '+' then TakeReg(Drop(s, 5)).0 == x
                                 else At(s, 4) == 's' && TakeReg(Drop(s, 16)).0 == x)
    ensures Read(s) == if At(s, 2) == '+' then AddI(x) else FontI(x)
  {
  }

  lemma ReadsBlock(s: string, x: nibble)
    requires At(s, 0) == 'r' && TakeReg(Drop(s, 9)).0 == x
    ensures Read(s) == if At(s, 4) == 'd' then StoreRegs(x) else LoadRegs(x)
  {
  }

  /** A line that starts with a register is read by its tail. */
  lemma AssignmentReads(x: nibble, t: string)
    requires t != "" && t[0] == ' '
    ensures Read(Reg(x) + t) == ReadAssignment(x, t)
  {
    TakeRegTakes(x, t);
    ReadsAssignment(Reg(x) + t, x, t);
  }

  lemma ReadsAssignment(s: string, x: nibble, t: string)
    requires At(s, 0) == 'V' && TakeReg(s) == (x, t)
    ensures Read(s) == ReadAssignment(x, t)
  {
  }

  // ---------------------------------------------------------------- the printed lines

  lemma NativeLine(a: address)
    ensures Read("Call machine code at address " + (Hex4(a) + "\n")) == CallNative(a)
  {
    StartsWith("Call machine code at address ", Hex4(a) + "\n");
    Hex4Reads("Call machine code at address ", a, "\n");
    ReadsCall("Call machine code at address " + (Hex4(a) + "\n"), a);
  }

  lemma CallLine(a: address)
    ensures Read("Call subroutine at address " + (Hex4(a) + "\n")) == Call(a)
  {
    StartsWith("Call subroutine at address ", Hex4(a) + "\n");
    Hex4Reads("Call subroutine at address ", a, "\n");
    ReadsCall("Call subroutine at address " + (Hex4(a) + "\n"), a);
  }

  /** The three lines that end in an address behind `pre`. */
  lemma AddressLine(pre: string, a: address)
    requires pre in {"goto ", "I = ", "PC = V0 + "}
    ensures Read(pre + (Hex4(a) + "\n")) == if pre[0] == 'g' then Goto(a) else if pre[0] == 'I' then SetI(a) else GotoV0(a)
  {
    StartsWith(pre, Hex4(a) + "\n");
    Hex4Reads(pre, a, "\n");
    ReadsAddress(pre + (Hex4(a) + "\n"), a);
  }

  lemma CompareLine(x: nibble, kk: byte, comparison: string)
    requires comparison in {" == ", " != "}
    ensures Read("if (" + (Reg(x) + (comparison + (Hex2(kk) + ")\n")))) ==
              if comparison[1] == '=' then SkipIfEq(x, kk) else SkipIfNe(x, kk)
  {
    var t := comparison + (Hex2(kk) + ")\n");
    TakeRegTakes(x, t);
    StartsWith("if (", Reg(x) + t);
    RegBehind("if (", x, t);
    StartsWith(comparison, Hex2(kk) + ")\n");
    Hex2Reads(comparison, kk, ")\n");
    ReadsCompare("if (" + (Reg(x) + t), x, t);
  }

  lemma CompareRegLine(x: nibble, y: nibble)
    ensures Read("if (" + (Reg(x) + (" != " + (Reg(y) + ")\n")))) == SkipIfNeReg(x, y)
  {
    var t := " != " + (Reg(y) + ")\n");
    TakeRegTakes(x, t);
    StartsWith("if (", Reg(x) + t);
    RegBehind("if (", x, t);
    TakeRegTakes(y, ")\n");
    StartsWith(" != ", Reg(y) + ")\n");
    RegBehind(" != ", y, ")\n");
    ReadsCompare("if (" + (Reg(x) + t), x, t);
  }

  lemma SkipNextLine(x: nibble, y: nibble)
    ensures Read("skip next if (" + (Reg(x) + (" == " + (Reg(y) + ")\n")))) == SkipIfEqReg(x, y)
  {
    var t := " == " + (Reg(y) + ")\n");
    StartsWith("skip next if (", Reg(x) + t);
    RegBehind("skip next if (", x, t);
    RegBehind(" == ", y, ")\n");
    ReadsSkipNext("skip next if (" + (Reg(x) + t), x, t);
  }

  lemma DrawLine(x: nibble, y: nibble, n: nibble)
    ensures Read("draw(" + (Reg(x) + (", " + (Reg(y) + (", " + (Hex2(n) + ")\n")))))) == DrawAt(x, y, n)
  {
    var u := ", " + (Hex2(n) + ")\n");
    var t := ", " + (Reg(y) + u);
    StartsWith("draw(", Reg(x) + t);
    RegBehind("draw(", x, t);
    RegBehind(", ", y, u);
    assert At(u, 5) == HexDigit(n);
    ReadsDraw("draw(" + (Reg(x) + t), x, t, y, u);
  }

  lemma KeyLine(x: nibble, pre: string)
    requires pre in {"if (key() == ", "if (key() != "}
    ensures Read(pre + (Reg(x) + ")\n")) == if pre[10] == '=' then SkipIfKey(x) else SkipIfNoKey(x)
  {
    StartsWith(pre, Reg(x) + ")\n");
    RegBehind(pre, x, ")\n");
    ReadsKey(pre + (Reg(x) + ")\n"), x);
  }

  lemma TimerLine(x: nibble, pre: string)
    requires pre in {"delay_timer(", "sound_timer("}
    ensures Read(pre + (Reg(x) + ")\n")) == if pre[0] == 'd' then SetDelay(x) else SetSound(x)
  {
    StartsWith(pre, Reg(x) + ")\n");
    RegBehind(pre, x, ")\n");
    ReadsTimer(pre + (Reg(x) + ")\n"), x);
  }

  lemma BcdLine(x: nibble)
    ensures Read("set_bcd(" + (Reg(x) + ")\n")) == StoreBcd(x)
  {
    StartsWith("set_bcd(", Reg(x) + ")\n");
    RegBehind("set_bcd(", x, ")\n");
    ReadsBcd("set_bcd(" + (Reg(x) + ")\n"), x);
  }

  lemma AddIndexLine(x: nibble)
    ensures Read("I += " + (Reg(x) + "\n")) == AddI(x)
  {
    StartsWith("I += ", Reg(x) + "\n");
    RegBehind("I += ", x, "\n");
    ReadsIndex("I += " + (Reg(x) + "\n"), x);
  }

  lemma FontLine(x: nibble)
    ensures Read("I = sprite_addr[" + (Reg(x) + "]\n")) == FontI(x)
  {
    StartsWith("I = sprite_addr[", Reg(x) + "]\n");
    RegBehind("I = sprite_addr[", x, "]\n");
    ReadsIndex("I = sprite_addr[" + (Reg(x) + "]\n"), x);
  }

  lemma BlockLine(x: nibble, pre: string)
    requires pre in {"reg_dump(", "reg_load("}
    ensures Read(pre + (Reg(x) + ", &I)\n")) == if pre[4] == 'd' then StoreRegs(x) else LoadRegs(x)
  {
    StartsWith(pre, Reg(x) + ", &I)\n");
    RegBehind(pre, x, ", &I)\n");
    ReadsBlock(pre + (Reg(x) + ", &I)\n"), x);
  }

  /** The lines of the form Vx = constant, Vx += constant and Vx = rand() & constant. */
  lemma ConstantLine(x: nibble, kk: byte, operator: string)
    requires operator in {" = ", " += ", " = rand() & "}
    ensures Read(Reg(x) + (operator + (Hex2(kk) + "\n"))) ==
              if |operator| == 3 then Set(x, kk) else if |operator| == 4 then Add(x, kk) else Random(x, kk)
  {
    AssignmentReads(x, operator + (Hex2(kk) + "\n"));
    StartsWith(operator, Hex2(kk) + "\n");
    Hex2Reads(operator, kk, "\n");
  }

  lemma CopyLine(x: nibble, y: nibble)
    ensures Read(Reg(x) + (" = " + (Reg(y) + "\n"))) == Copy(x, y)
  {
    AssignmentReads(x, " = " + (Reg(y) + "\n"));
    TakeRegTakes(y, "\n");
    StartsWith(" = ", Reg(y) + "\n");
    RegBehind(" = ", y, "\n");
  }

  lemma SubFromLine(x: nibble, y: nibble)
    ensures Read(Reg(x) + (" = " + (Reg(y) + (" - " + (Reg(x) + "\n"))))) == SubFrom(x, y)
  {
    var u := " - " + (Reg(x) + "\n");
    AssignmentReads(x, " = " + (Reg(y) + u));
    TakeRegTakes(y, u);
    StartsWith(" = ", Reg(y) + u);
    RegBehind(" = ", y, u);
  }

  /** Lines of the form Vx op= Vy. */
  lemma OperatorLine(x: nibble, y: nibble, operator: string)
    requires |operator| == 4 && operator[0] == ' ' && operator[1] in {'|', '&', '^', '+', '-'}
    ensures Read(Reg(x) + (operator + (Reg(y) + "\n"))) ==
              match operator[1]
              case '|' => Or(x, y)
              case '&' => And(x, y)
              case '^' => Xor(x, y)
              case '+' => AddReg(x, y)
              case _ => SubReg(x, y)
  {
    AssignmentReads(x, operator + (Reg(y) + "\n"));
    TakeRegTakes(y, "\n");
    StartsWith(operator, Reg(y) + "\n");
    RegBehind(operator, y, "\n");
  }

  /** Lines whose text behind the register is fixed. */
  lemma FixedLine(x: nibble, t: string)
    requires t in {" >>= 1\n", " <<= 1\n", " = get_delay()\n", " = get_key()\n"}
    ensures Read(Reg(x) + t) ==
              if t[1] == '>' then ShiftRight(x) else if t[1] == '<' then ShiftLeft(x)
              else if t[7] == 'd' then GetDelay(x) else WaitKey(x)
  {
    AssignmentReads(x, t);
  }

  // ---------------------------------------------------------------- all words

  /** The printed line, read back, is the instruction the CPU dispatches; and there is a line exactly when
      there is an instruction. */
  predicate ReadsBack(op: Opcode) {
    match Line(op)
    case None => Dispatch(op) == None
    case Some(line) => Dispatch(op) == Some(Read(line))
  }

  lemma SystemReadsBack(op: Opcode)
    requires op.kind == 0
    ensures ReadsBack(op)
  {
    if op != Opcode(0, 0, 0xE, 0) && op != Opcode(0, 0, 0xE, 0xE) { NativeLine(op.Nnn()); }
  }

  lemma CallReadsBack(op: Opcode)
    requires op.kind == 2
    ensures ReadsBack(op)
  {
    CallLine(op.Nnn());
  }

  lemma AddressesReadBack(op: Opcode)
    requires op.kind == 1 || op.kind == 0xA || op.kind == 0xB
    ensures ReadsBack(op)
  {
    AddressLine(if op.kind == 1 then "goto " else if op.kind == 0xA then "I = " else "PC = V0 + ", op.Nnn());
  }

  lemma ComparesReadBack(op: Opcode)
    requires op.kind == 3 || op.kind == 4
    ensures ReadsBack(op)
  {
    CompareLine(op.x, op.Kk(), if op.kind == 3 then " == " else " != ");
  }

  lemma SkipNextReadsBack(op: Opcode)
    requires op.kind == 5
    ensures ReadsBack(op)
  {
    if op.n == 0 {
      SkipNextMeets(op);
      SkipNextLine(op.x, op.y);
    }
  }

  lemma SkipNextMeets(op: Opcode)
    requires op.kind == 5 && op.n == 0
    ensures Line(op) == Some("skip next if (" + (Reg(op.x) + (" == " + (Reg(op.y) + ")\n"))))
    ensures Dispatch(op) == Some(SkipIfEqReg(op.x, op.y))
  {
  }

  lemma RegCompareReadsBack(op: Opcode)
    requires op.kind == 9
    ensures ReadsBack(op)
  {
    if op.n == 0 {
      RegCompareMeets(op);
      CompareRegLine(op.x, op.y);
    }
  }

  lemma RegCompareMeets(op: Opcode)
    requires op.kind == 9 && op.n == 0
    ensures Line(op) == Some("if (" + (Reg(op.x) + (" != " + (Reg(op.y) + ")\n"))))
    ensures Dispatch(op) == Some(SkipIfNeReg(op.x, op.y))
  {
  }

  lemma ConstantsReadBack(op: Opcode)
    requires op.kind == 6 || op.kind == 7 || op.kind == 0xC
    ensures ReadsBack(op)
  {
    ConstantLine(op.x, op.Kk(), if op.kind == 6 then " = " else if op.kind == 7 then " += " else " = rand() & ");
  }

  lemma OperatorsReadBack(op: Opcode)
    requires op.kind == 8 && 1 <= op.n <= 5
    ensures ReadsBack(op)
  {
    var operators := [" |= ", " &= ", " ^= ", " += ", " -= "];
    OperatorLine(op.x, op.y, operators[op.n - 1]);
  }

  lemma CopiesReadBack(op: Opcode)
    requires op.kind == 8 && (op.n == 0 || op.n == 7)
    ensures ReadsBack(op)
  {
    if op.n == 0 { CopyLine(op.x, op.y); } else { SubFromLine(op.x, op.y); }
  }

  lemma ShiftsReadBack(op: Opcode)
    requires op.kind == 8 && op.n > 5 && op.n != 7
    ensures ReadsBack(op)
  {
    FixedLine(op.x, if op.n == 6 then " >>= 1\n" else " <<= 1\n");
  }

  lemma DrawsReadBack(op: Opcode)
    requires op.kind == 0xD
    ensures ReadsBack(op)
  {
    DrawsMeet(op);
    DrawLine(op.x, op.y, op.n);
  }

  lemma DrawsMeet(op: Opcode)
    requires op.kind == 0xD
    ensures Line(op) == Some("draw(" + (Reg(op.x) + (", " + (Reg(op.y) + (", " + (Hex2(op.n) + ")\n"))))))
    ensures Dispatch(op) == Some(DrawAt(op.x, op.y, op.n))
  {
  }

  lemma KeysReadBack(op: Opcode)
    requires op.kind == 0xE
    ensures ReadsBack(op)
  {
    KeyLine(op.x, if op.y == 9 then "if (key() == " else "if (key() != ");
  }

  lemma WaitsReadBack(op: Opcode)
    requires op.kind == 0xF && op.y == 0
    ensures ReadsBack(op)
  {
    FixedLine(op.x, if op.n == 7 then " = get_delay()\n" else " = get_key()\n");
  }

  lemma TimersReadBack(op: Opcode)
    requires op.kind == 0xF && op.y == 1 && op.n != 0xE
    ensures ReadsBack(op)
  {
    TimerLine(op.x, if op.n == 5 then "delay_timer(" else "sound_timer(");
  }

  lemma AddIndexReadsBack(op: Opcode)
    requires op.kind == 0xF && op.y == 1 && op.n == 0xE
    ensures ReadsBack(op)
  {
    AddIndexLine(op.x);
  }

  lemma FontReadsBack(op: Opcode)
    requires op.kind == 0xF && op.y == 2
    ensures ReadsBack(op)
  {
    FontLine(op.x);
  }

  lemma BcdReadsBack(op: Opcode)
    requires op.kind == 0xF && op.y == 3
    ensures ReadsBack(op)
  {
    BcdLine(op.x);
  }

  lemma BlocksReadBack(op: Opcode)
    requires op.kind == 0xF && op.y > 3
    ensures ReadsBack(op)
  {
    BlockLine(op.x, if op.y == 5 then "reg_dump(" else "reg_load(");
  }

  lemma LinesReadBack(op: Opcode)
    ensures ReadsBack(op)
  {
    match op.kind
    case 0 => SystemReadsBack(op);
    case 1 => AddressesReadBack(op);
    case 2 => CallReadsBack(op);
    case 3 => ComparesReadBack(op);
    case 4 => ComparesReadBack(op);
    case 5 => SkipNextReadsBack(op);
    case 6 => ConstantsReadBack(op);
    case 7 => ConstantsReadBack(op);
    case 8 =>
      if 1 <= op.n <= 5 { OperatorsReadBack(op); }
      else if op.n == 0 || op.n == 7 { CopiesReadBack(op); }
      else { ShiftsReadBack(op); }
    case 9 => RegCompareReadsBack(op);
    case 10 => AddressesReadBack(op);
    case 11 => AddressesReadBack(op);
    case 12 => ConstantsReadBack(op);
    case 13 => DrawsReadBack(op);
    case 14 => KeysReadBack(op);
    case _ =>
      if op.y == 0 { WaitsReadBack(op); }
      else if op.y == 1 && op.n != 0xE { TimersReadBack(op); }
      else if op.y == 1 { AddIndexReadsBack(op); }
      else if op.y == 2 { FontReadsBack(op); }
      else if op.y == 3 { BcdReadsBack(op); }
      else { BlocksReadBack(op); }
  }

  /** The disassembler accepts exactly the words the CPU dispatches. */
  lemma AcceptsWhatIsDispatched(op: Opcode)
    ensures Line(op).Some? <==> Dispatch(op).Some?
  {
  }

  /** The shifts ignore their third digit; this clears it. */
  function Canonical(op: Opcode): Opcode {
    if op.kind == 8 && (op.n == 6 || op.n == 0xE) then op.(y := 0) else op
  }

  function WithAddress(kind: nibble, nnn: address): Opcode { Opcode(kind, nnn / 256 % 16, nnn / 16 % 16, nnn % 16) }

  function WithConstant(kind: nibble, x: nibble, kk: byte): Opcode { Opcode(kind, x, kk / 16, kk % 16) }

  /** The word of an instruction. */
  function Assemble(i: Instr): Opcode {
    match i
    case Clear => Opcode(0, 0, 0xE, 0)
    case Return => Opcode(0, 0, 0xE, 0xE)
    case CallNative(nnn) => WithAddress(0, nnn)
    case Goto(nnn) => WithAddress(1, nnn)
    case Call(nnn) => WithAddress(2, nnn)
    case SkipIfEq(x, kk) => WithConstant(3, x, kk)
    case SkipIfNe(x, kk) => WithConstant(4, x, kk)
    case SkipIfEqReg(x, y) => Opcode(5, x, y, 0)
    case Set(x, kk) => WithConstant(6, x, kk)
    case Add(x, kk) => WithConstant(7, x, kk)
    case Copy(x, y) => Opcode(8, x, y, 0)
    case Or(x, y) => Opcode(8, x, y, 1)
    case And(x, y) => Opcode(8, x, y, 2)
    case Xor(x, y) => Opcode(8, x, y, 3)
    case AddReg(x, y) => Opcode(8, x, y, 4)
    case SubReg(x, y) => Opcode(8, x, y, 5)
    case ShiftRight(x) => Opcode(8, x, 0, 6)
    case SubFrom(x, y) => Opcode(8, x, y, 7)
    case ShiftLeft(x) => Opcode(8, x, 0, 0xE)
    case SkipIfNeReg(x, y) => Opcode(9, x, y, 0)
    case SetI(nnn) => WithAddress(0xA, nnn)
    case GotoV0(nnn) => WithAddress(0xB, nnn)
    case Random(x, kk) => WithConstant(0xC, x, kk)
    case DrawAt(x, y, n) => Opcode(0xD, x, y, n)
    case SkipIfKey(x) => Opcode(0xE, x, 9, 0xE)
    case SkipIfNoKey(x) => Opcode(0xE, x, 0xA, 1)
    case GetDelay(x) => Opcode(0xF, x, 0, 7)
    case WaitKey(x) => Opcode(0xF, x, 0, 0xA)
    case SetDelay(x) => Opcode(0xF, x, 1, 5)
    case SetSound(x) => Opcode(0xF, x, 1, 8)
    case AddI(x) => Opcode(0xF, x, 1, 0xE)
    case FontI(x) => Opcode(0xF, x, 2, 9)
    case StoreBcd(x) => Opcode(0xF, x, 3, 3)
    case StoreRegs(x) => Opcode(0xF, x, 5, 5)
    case LoadRegs(x) => Opcode(0xF, x, 6, 5)
  }

  lemma FieldsSplit(op: Opcode)
    ensures WithAddress(op.kind, op.Nnn()) == op && WithConstant(op.kind, op.x, op.Kk()) == op
  {
    DigitsOfWord(Opcode(0, op.x, op.y, op.n));
    assert Opcode(0, op.x, op.y, op.n).Word() == op.Nnn();
    TwoDigits(op.y, op.n);
  }

  lemma TwoDigits(high: nibble, low: nibble)
    ensures (high * 16 + low) / 16 == high && (high * 16 + low) % 16 == low
  {
  }

  /** Assembling what was decoded gives the word back, up to the ignored digit. */
  lemma AssembleUndoesDispatch(op: Opcode)
    requires Dispatch(op).Some?
    ensures Assemble(Dispatch(op).value) == Canonical(op)
  {
    FieldsSplit(op);
    if op.kind < 8 { AssembleLow(op); } else if 8 < op.kind < 0xF { AssembleHigh(op); } else { AssembleEightAndFifteen(op); }
  }

  lemma AssembleLow(op: Opcode)
    requires Dispatch(op).Some? && op.kind < 8
    requires WithAddress(op.kind, op.Nnn()) == op && WithConstant(op.kind, op.x, op.Kk()) == op
    ensures Assemble(Dispatch(op).value) == Canonical(op)
  {
  }

  lemma AssembleHigh(op: Opcode)
    requires Dispatch(op).Some? && 8 < op.kind < 0xF
    requires WithAddress(op.kind, op.Nnn()) == op && WithConstant(op.kind, op.x, op.Kk()) == op
    ensures Assemble(Dispatch(op).value) == Canonical(op)
  {
  }

  lemma AssembleEightAndFifteen(op: Opcode)
    requires Dispatch(op).Some? && (op.kind == 8 || op.kind == 0xF)
    ensures Assemble(Dispatch(op).value) == Canonical(op)
  {
  }

  lemma DispatchTellsOpcode(a: Opcode, b: Opcode)
    requires Dispatch(a).Some?
    ensures Dispatch(a) == Dispatch(b) <==> Canonical(a) == Canonical(b)
  {
    AssembleUndoesDispatch(a);
    if Dispatch(b).Some? { AssembleUndoesDispatch(b); }
    DispatchIgnoresDigit(a);
    DispatchIgnoresDigit(b);
  }

  lemma DispatchIgnoresDigit(op: Opcode)
    ensures Dispatch(op) == Dispatch(Canonical(op))
  {
  }

  /** Two words print the same line exactly when they are the same but for the ignored digit... */
  lemma LinesTellOpcodes(a: Opcode, b: Opcode)
    requires Line(a).Some?
    ensures Line(a) == Line(b) <==> Canonical(a) == Canonical(b)
  {
    LinesReadBack(a);
    LinesReadBack(b);
    DispatchTellsOpcode(a, b);
    LineIgnoresDigit(a);
    LineIgnoresDigit(b);
  }

  lemma LineIgnoresDigit(op: Opcode)
    ensures Line(op) == Line(Canonical(op))
  {
  }

  /** ... and then they have the same effect on every state and input. */
  lemma SameLineSameEffect(a: Opcode, b: Opcode, s: State, input: Input)
    requires Line(a).Some? && Line(a) == Line(b) && Valid(s)
    ensures Dispatch(a).Some? && Dispatch(b).Some?
    ensures Exec(s, Dispatch(a).value, input) == Exec(s, Dispatch(b).value, input)
  {
    LinesReadBack(a);
    LinesReadBack(b);
  }

  // ---------------------------------------------------------------- one printed line of each shape

  lemma RegisterNames()
    ensures Reg(0) == "V0" && Reg(1) == "V1" && Reg(2) == "V2" && Reg(3) == "V3" && Reg(4) == "V4" && Reg(5) == "V5"
    ensures Reg(6) == "V6" && Reg(7) == "V7" && Reg(8) == "V8" && Reg(9) == "V9" && Reg(10) == "V10" && Reg(11) == "V11"
    ensures Reg(12) == "V12" && Reg(13) == "V13" && Reg(14) == "V14" && Reg(15) == "V15"
  {
  }

  lemma SystemLines()
    ensures Line(Opcode(0, 0, 0xE, 0)) == Some("Clear the screen\n")
    ensures Line(Opcode(0, 0, 0xE, 0xE)) == Some("Return from a subroutine\n")
    ensures Line(Opcode(0, 1, 2, 3)) == Some("Call machine code at address " + ("0x0123" + "\n"))
  {
  }

  lemma TransferLines()
    ensures Line(Opcode(1, 2, 0xA, 0xF)) == Some("goto " + ("0x02AF" + "\n"))
    ensures Line(Opcode(2, 0xF, 0, 9)) == Some("Call subroutine at address " + ("0x0F09" + "\n"))
  {
  }

  lemma SkipLines()
    ensures Line(Opcode(3, 4, 0xB, 0)) == Some("if (" + ("V4" + (" == " + ("0xB0" + ")\n"))))
    ensures Line(Opcode(4, 0xF, 0, 7)) == Some("if (" + ("V15" + (" != " + ("0x07" + ")\n"))))
    ensures Line(Opcode(5, 1, 2, 0)) == Some("skip next if (" + ("V1" + (" == " + ("V2" + ")\n"))))
    ensures Line(Opcode(6, 0xA, 5, 0xC)) == Some("V10" + (" = " + ("0x5C" + "\n")))
  {
  }

  lemma AddLines()
    ensures Line(Opcode(7, 0, 0xF, 0xF)) == Some("V0" + (" += " + ("0xFF" + "\n")))
    ensures Line(Opcode(8, 1, 2, 0)) == Some("V1" + (" = " + ("V2" + "\n")))
    ensures Line(Opcode(8, 3, 0xB, 1)) == Some("V3" + (" |= " + ("V11" + "\n")))
  {
  }

  lemma OperatorLines()
    ensures Line(Opcode(8, 4, 5, 2)) == Some("V4" + (" &= " + ("V5" + "\n")))
    ensures Line(Opcode(8, 6, 7, 3)) == Some("V6" + (" ^= " + ("V7" + "\n")))
    ensures Line(Opcode(8, 8, 9, 4)) == Some("V8" + (" += " + ("V9" + "\n")))
  {
  }

  lemma DifferenceLines()
    ensures Line(Opcode(8, 1, 2, 5)) == Some("V1" + (" -= " + ("V2" + "\n")))
    ensures Line(Opcode(8, 1, 2, 6)) == Some("V1" + " >>= 1\n")
    ensures Line(Opcode(8, 1, 2, 7)) == Some("V1" + (" = " + ("V2" + (" - " + ("V1" + "\n")))))
  {
  }

  lemma ShiftLines()
    ensures Line(Opcode(8, 0xE, 0, 0xE)) == Some("V14" + " <<= 1\n")
    ensures Line(Opcode(9, 1, 2, 0)) == Some("if (" + ("V1" + (" != " + ("V2" + ")\n"))))
    ensures Line(Opcode(0xA, 2, 0xE, 4)) == Some("I = " + ("0x02E4" + "\n"))
  {
  }

  lemma DrawLines()
    ensures Line(Opcode(0xB, 3, 0, 0)) == Some("PC = V0 + " + ("0x0300" + "\n"))
    ensures Line(Opcode(0xC, 5, 0, 0xF)) == Some("V5" + (" = rand() & " + ("0x0F" + "\n")))
    ensures Line(Opcode(0xD, 0, 1, 5)) == Some("draw(" + ("V0" + (", " + ("V1" + (", " + ("0x05" + ")\n"))))))
  {
  }

  lemma KeyLines()
    ensures Line(Opcode(0xE, 3, 9, 0xE)) == Some("if (key() == " + ("V3" + ")\n"))
    ensures Line(Opcode(0xE, 3, 0xA, 1)) == Some("if (key() != " + ("V3" + ")\n"))
    ensures Line(Opcode(0xF, 2, 0, 7)) == Some("V2" + " = get_delay()\n")
  {
  }

  lemma TimerLines()
    ensures Line(Opcode(0xF, 2, 0, 0xA)) == Some("V2" + " = get_key()\n")
    ensures Line(Opcode(0xF, 2, 1, 5)) == Some("delay_timer(" + ("V2" + ")\n"))
    ensures Line(Opcode(0xF, 2, 1, 8)) == Some("sound_timer(" + ("V2" + ")\n"))
  {
  }

  lemma IndexLines()
    ensures Line(Opcode(0xF, 2, 1, 0xE)) == Some("I += " + ("V2" + "\n"))
    ensures Line(Opcode(0xF, 2, 2, 9)) == Some("I = sprite_addr[" + ("V2" + "]\n"))
    ensures Line(Opcode(0xF, 2, 3, 3)) == Some("set_bcd(" + ("V2" + ")\n"))
  {
  }

  lemma BlockLines()
    ensures Line(Opcode(0xF, 2, 5, 5)) == Some("reg_dump(" + ("V2" + ", &I)\n"))
    ensures Line(Opcode(0xF, 2, 6, 5)) == Some("reg_load(" + ("V2" + ", &I)\n"))
  {
  }
}
