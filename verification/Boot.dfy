/** The machine before its first step: the font in low memory and a program loaded behind it. */
module Boot {
  import opened Bytes
  import opened Display
  import opened Cpu

  /** Sixteen glyphs of five rows each, for the digits 0 to F. */
  const FONT: seq<byte> :=
    [0xF0, 0x90, 0x90, 0x90, 0xF0] +
    [0x20, 0x60, 0x20, 0x20, 0x70] +
    [0xF0, 0x10, 0xF0, 0x80, 0xF0] +
    [0xF0, 0x10, 0xF0, 0x10, 0xF0] +
    [0x90, 0x90, 0xF0, 0x10, 0x10] +
    [0xF0, 0x80, 0xF0, 0x10, 0xF0] +
    [0xF0, 0x80, 0xF0, 0x90, 0xF0] +
    [0xF0, 0x10, 0x20, 0x40, 0x40] +
    [0xF0, 0x90, 0xF0, 0x90, 0xF0] +
    [0xF0, 0x90, 0xF0, 0x10, 0xF0] +
    [0xF0, 0x90, 0xF0, 0x90, 0x90] +
    [0xE0, 0x90, 0xE0, 0x90, 0xE0] +
    [0xF0, 0x80, 0x80, 0x80, 0xF0] +
    [0xE0, 0x90, 0x90, 0x90, 0xE0] +
    [0xF0, 0x80, 0xF0, 0x80, 0xF0] +
    [0xF0, 0x80, 0xF0, 0x80, 0x80]

  const FONT_SIZE := 80
  const PROGRAM_MAX_SIZE := MEMORY_SIZE - PROGRAM_START

  lemma FontHasEightyBytes()
    ensures |FONT| == FONT_SIZE
  {
  }

  function Glyph(digit: nat): (rows: seq<byte>)
    requires digit < 16
    ensures |rows| == GLYPH_SIZE
  {
    FontHasEightyBytes();
    FONT[digit * GLYPH_SIZE..digit * GLYPH_SIZE + GLYPH_SIZE]
  }

  function Zeros(n: nat): (s: seq<byte>)
    ensures |s| == n && forall i :: 0 <= i < n ==> s[i] == 0
  {
    seq(n, _ => 0)
  }

  function BootMemory(rom: seq<byte>): (mem: seq<byte>)
    requires |rom| <= PROGRAM_MAX_SIZE
    ensures |mem| == MEMORY_SIZE && mem[..FONT_SIZE] == FONT
    ensures mem[PROGRAM_START..PROGRAM_START + |rom|] == rom
  {
    FontHasEightyBytes();
    FONT + Zeros(PROGRAM_START - FONT_SIZE) + rom + Zeros(PROGRAM_MAX_SIZE - |rom|)
  }

  /** Clearing program memory and copying a program in makes booted memory hold it. */
  lemma LoadedMemory(rom: seq<byte>)
    requires |rom| <= PROGRAM_MAX_SIZE
    ensures BootMemory([])[..PROGRAM_START] + rom + Zeros(PROGRAM_MAX_SIZE - |rom|) == BootMemory(rom)
  {
  }

  function BootState(rom: seq<byte>): (s: State)
    requires |rom| <= PROGRAM_MAX_SIZE
    ensures Valid(s)
  {
    State(BootMemory(rom), Zeros(16), PROGRAM_START, PROGRAM_START, Zeros(STACK_CAPACITY), 0, Blank(), 0, 0)
  }

  // ---------------------------------------------------------------- the font in pictures

  /** The rows of a digit, four pixels wide. */
  function Picture(digit: nat): (rows: seq<string>)
    requires digit < 16
    ensures |rows| == 5
  {
    match digit
    case 0 => ["****", "*  *", "*  *", "*  *", "****"]
    case 1 => ["  * ", " ** ", "  * ", "  * ", " ***"]
    case 2 => ["****", "   *", "****", "*   ", "****"]
    case 3 => ["****", "   *", "****", "   *", "****"]
    case 4 => ["*  *", "*  *", "****", "   *", "   *"]
    case 5 => ["****", "*   ", "****", "   *", "****"]
    case 6 => ["****", "*   ", "****", "*  *", "****"]
    case 7 => ["****", "   *", "  * ", " *  ", " *  "]
    case 8 => ["****", "*  *", "****", "*  *", "****"]
    case 9 => ["****", "*  *", "****", "   *", "****"]
    case 10 => ["****", "*  *", "****", "*  *", "*  *"]
    case 11 => ["*** ", "*  *", "*** ", "*  *", "*** "]
    case 12 => ["****", "*   ", "*   ", "*   ", "****"]
    case 13 => ["*** ", "*  *", "*  *", "*  *", "*** "]
    case 14 => ["****", "*   ", "****", "*   ", "****"]
    case _ => ["****", "*   ", "****", "*   ", "*   "]
  }

  function Dot(c: char): int { if c == '*' then 1 else 0 }

  /** The byte whose four leftmost bits are the row. */
  function RowByte(row: string): int
    requires |row| == 4
  {
    Dot(row[0]) * 128 + Dot(row[1]) * 64 + Dot(row[2]) * 32 + Dot(row[3]) * 16
  }

  lemma SliceAt(s: seq<byte>, at: nat, n: nat, r: nat)
    requires at + n <= |s| && r < n
    ensures s[at..at + n][r] == s[at + r]
  {
  }

  lemma GlyphRow(digit: nat, r: nat)
    requires digit < 16 && r < 5
    ensures |FONT| == 80 && Glyph(digit)[r] == FONT[digit * 5 + r]
  {
    FontHasEightyBytes();
    SliceAt(FONT, digit * 5, 5, r);
  }

  /** The glyphs are the pictures of the digits. */
  lemma GlyphShowsDigit(digit: nat, r: nat)
    requires digit < 16 && r < 5
    ensures |Picture(digit)[r]| == 4 && Glyph(digit)[r] == RowByte(Picture(digit)[r])
  {
    GlyphRow(digit, r);
    FirstRow(digit);
    SecondRow(digit);
    ThirdRow(digit);
    FourthRow(digit);
    FifthRow(digit);
    RowOfFive(FONT, Picture(digit), digit * 5, r);
  }

  lemma RowOfFive(font: seq<byte>, rows: seq<string>, at: nat, r: nat)
    requires |rows| == 5 && at + 5 <= |font| && r < 5
    requires |rows[0]| == |rows[1]| == |rows[2]| == |rows[3]| == |rows[4]| == 4
    requires font[at] == RowByte(rows[0]) && font[at + 1] == RowByte(rows[1]) && font[at + 2] == RowByte(rows[2])
    requires font[at + 3] == RowByte(rows[3]) && font[at + 4] == RowByte(rows[4])
    ensures |rows[r]| == 4 && font[at + r] == RowByte(rows[r])
  {
  }

  lemma FirstRow(digit: nat)
    requires digit < 16
    ensures |Picture(digit)[0]| == 4 && FONT[digit * 5] == RowByte(Picture(digit)[0])
  {
    if digit < 8 { FirstRowLow(digit); } else { FirstRowHigh(digit); }
  }

  lemma FirstRowLow(digit: nat)
    requires digit < 8
    ensures |Picture(digit)[0]| == 4 && FONT[digit * 5] == RowByte(Picture(digit)[0])
  {
    match digit
    case 0 => assert FONT[0] == RowByte(Picture(0)[0]);
    case 1 => assert FONT[5] == RowByte(Picture(1)[0]);
    case 2 => assert FONT[10] == RowByte(Picture(2)[0]);
    case 3 => assert FONT[15] == RowByte(Picture(3)[0]);
    case 4 => assert FONT[20] == RowByte(Picture(4)[0]);
    case 5 => assert FONT[25] == RowByte(Picture(5)[0]);
    case 6 => assert FONT[30] == RowByte(Picture(6)[0]);
    case _ => assert FONT[35] == RowByte(Picture(7)[0]);
  }

  lemma FirstRowHigh(digit: nat)
    requires 8 <= digit < 16
    ensures |Picture(digit)[0]| == 4 && FONT[digit * 5] == RowByte(Picture(digit)[0])
  {
    match digit
    case 8 => assert FONT[40] == RowByte(Picture(8)[0]);
    case 9 => assert FONT[45] == RowByte(Picture(9)[0]);
    case 10 => assert FONT[50] == RowByte(Picture(10)[0]);
    case 11 => assert FONT[55] == RowByte(Picture(11)[0]);
    case 12 => assert FONT[60] == RowByte(Picture(12)[0]);
    case 13 => assert FONT[65] == RowByte(Picture(13)[0]);
    case 14 => assert FONT[70] == RowByte(Picture(14)[0]);
    case _ => assert FONT[75] == RowByte(Picture(15)[0]);
  }

  lemma SecondRow(digit: nat)
    requires digit < 16
    ensures |Picture(digit)[1]| == 4 && FONT[digit * 5 + 1] == RowByte(Picture(digit)[1])
  {
    if digit < 8 { SecondRowLow(digit); } else { SecondRowHigh(digit); }
  }

  lemma SecondRowLow(digit: nat)
    requires digit < 8
    ensures |Picture(digit)[1]| == 4 && FONT[digit * 5 + 1] == RowByte(Picture(digit)[1])
  {
    match digit
    case 0 => assert FONT[1] == RowByte(Picture(0)[1]);
    case 1 => assert FONT[6] == RowByte(Picture(1)[1]);
    case 2 => assert FONT[11] == RowByte(Picture(2)[1]);
    case 3 => assert FONT[16] == RowByte(Picture(3)[1]);
    case 4 => assert FONT[21] == RowByte(Picture(4)[1]);
    case 5 => assert FONT[26] == RowByte(Picture(5)[1]);
    case 6 => assert FONT[31] == RowByte(Picture(6)[1]);
    case _ => assert FONT[36] == RowByte(Picture(7)[1]);
  }

  lemma SecondRowHigh(digit: nat)
    requires 8 <= digit < 16
    ensures |Picture(digit)[1]| == 4 && FONT[digit * 5 + 1] == RowByte(Picture(digit)[1])
  {
    match digit
    case 8 => assert FONT[41] == RowByte(Picture(8)[1]);
    case 9 => assert FONT[46] == RowByte(Picture(9)[1]);
    case 10 => assert FONT[51] == RowByte(Picture(10)[1]);
    case 11 => assert FONT[56] == RowByte(Picture(11)[1]);
    case 12 => assert FONT[61] == RowByte(Picture(12)[1]);
    case 13 => assert FONT[66] == RowByte(Picture(13)[1]);
    case 14 => assert FONT[71] == RowByte(Picture(14)[1]);
    case _ => assert FONT[76] == RowByte(Picture(15)[1]);
  }

  lemma ThirdRow(digit: nat)
    requires digit < 16
    ensures |Picture(digit)[2]| == 4 && FONT[digit * 5 + 2] == RowByte(Picture(digit)[2])
  {
    if digit < 8 { ThirdRowLow(digit); } else { ThirdRowHigh(digit); }
  }

  lemma ThirdRowLow(digit: nat)
    requires digit < 8
    ensures |Picture(digit)[2]| == 4 && FONT[digit * 5 + 2] == RowByte(Picture(digit)[2])
  {
    match digit
    case 0 => assert FONT[2] == RowByte(Picture(0)[2]);
    case 1 => assert FONT[7] == RowByte(Picture(1)[2]);
    case 2 => assert FONT[12] == RowByte(Picture(2)[2]);
    case 3 => assert FONT[17] == RowByte(Picture(3)[2]);
    case 4 => assert FONT[22] == RowByte(Picture(4)[2]);
    case 5 => assert FONT[27] == RowByte(Picture(5)[2]);
    case 6 => assert FONT[32] == RowByte(Picture(6)[2]);
    case _ => assert FONT[37] == RowByte(Picture(7)[2]);
  }

  lemma ThirdRowHigh(digit: nat)
    requires 8 <= digit < 16
    ensures |Picture(digit)[2]| == 4 && FONT[digit * 5 + 2] == RowByte(Picture(digit)[2])
  {
    match digit
    case 8 => assert FONT[42] == RowByte(Picture(8)[2]);
    case 9 => assert FONT[47] == RowByte(Picture(9)[2]);
    case 10 => assert FONT[52] == RowByte(Picture(10)[2]);
    case 11 => assert FONT[57] == RowByte(Picture(11)[2]);
    case 12 => assert FONT[62] == RowByte(Picture(12)[2]);
    case 13 => assert FONT[67] == RowByte(Picture(13)[2]);
    case 14 => assert FONT[72] == RowByte(Picture(14)[2]);
    case _ => assert FONT[77] == RowByte(Picture(15)[2]);
  }

  lemma FourthRow(digit: nat)
    requires digit < 16
    ensures |Picture(digit)[3]| == 4 && FONT[digit * 5 + 3] == RowByte(Picture(digit)[3])
  {
    if digit < 8 { FourthRowLow(digit); } else { FourthRowHigh(digit); }
  }

  lemma FourthRowLow(digit: nat)
    requires digit < 8
    ensures |Picture(digit)[3]| == 4 && FONT[digit * 5 + 3] == RowByte(Picture(digit)[3])
  {
    match digit
    case 0 => assert FONT[3] == RowByte(Picture(0)[3]);
    case 1 => assert FONT[8] == RowByte(Picture(1)[3]);
    case 2 => assert FONT[13] == RowByte(Picture(2)[3]);
    case 3 => assert FONT[18] == RowByte(Picture(3)[3]);
    case 4 => assert FONT[23] == RowByte(Picture(4)[3]);
    case 5 => assert FONT[28] == RowByte(Picture(5)[3]);
    case 6 => assert FONT[33] == RowByte(Picture(6)[3]);
    case _ => assert FONT[38] == RowByte(Picture(7)[3]);
  }

  lemma FourthRowHigh(digit: nat)
    requires 8 <= digit < 16
    ensures |Picture(digit)[3]| == 4 && FONT[digit * 5 + 3] == RowByte(Picture(digit)[3])
  {
    match digit
    case 8 => assert FONT[43] == RowByte(Picture(8)[3]);
    case 9 => assert FONT[48] == RowByte(Picture(9)[3]);
    case 10 => assert FONT[53] == RowByte(Picture(10)[3]);
    case 11 => assert FONT[58] == RowByte(Picture(11)[3]);
    case 12 => assert FONT[63] == RowByte(Picture(12)[3]);
    case 13 => assert FONT[68] == RowByte(Picture(13)[3]);
    case 14 => assert FONT[73] == RowByte(Picture(14)[3]);
    case _ => assert FONT[78] == RowByte(Picture(15)[3]);
  }

  lemma FifthRow(digit: nat)
    requires digit < 16
    ensures |Picture(digit)[4]| == 4 && FONT[digit * 5 + 4] == RowByte(Picture(digit)[4])
  {
    if digit < 8 { FifthRowLow(digit); } else { FifthRowHigh(digit); }
  }

  lemma FifthRowLow(digit: nat)
    requires digit < 8
    ensures |Picture(digit)[4]| == 4 && FONT[digit * 5 + 4] == RowByte(Picture(digit)[4])
  {
    match digit
    case 0 => assert FONT[4] == RowByte(Picture(0)[4]);
    case 1 => assert FONT[9] == RowByte(Picture(1)[4]);
    case 2 => assert FONT[14] == RowByte(Picture(2)[4]);
    case 3 => assert FONT[19] == RowByte(Picture(3)[4]);
    case 4 => assert FONT[24] == RowByte(Picture(4)[4]);
    case 5 => assert FONT[29] == RowByte(Picture(5)[4]);
    case 6 => assert FONT[34] == RowByte(Picture(6)[4]);
    case _ => assert FONT[39] == RowByte(Picture(7)[4]);
  }

  lemma FifthRowHigh(digit: nat)
    requires 8 <= digit < 16
    ensures |Picture(digit)[4]| == 4 && FONT[digit * 5 + 4] == RowByte(Picture(digit)[4])
  {
    match digit
    case 8 => assert FONT[44] == RowByte(Picture(8)[4]);
    case 9 => assert FONT[49] == RowByte(Picture(9)[4]);
    case 10 => assert FONT[54] == RowByte(Picture(10)[4]);
    case 11 => assert FONT[59] == RowByte(Picture(11)[4]);
    case 12 => assert FONT[64] == RowByte(Picture(12)[4]);
    case 13 => assert FONT[69] == RowByte(Picture(13)[4]);
    case 14 => assert FONT[74] == RowByte(Picture(14)[4]);
    case _ => assert FONT[79] == RowByte(Picture(15)[4]);
  }

  /** Where booted memory holds what, and where the machine starts. */
  lemma BootInNumbers(rom: seq<byte>, k: nat)
    requires |rom| <= 3584
    ensures var s := BootState(rom);
            && |s.mem| == 4096 && s.pc == 512 && s.sp == 0 && |s.stack| == 12 && |s.v| == 16
            && (k < |rom| ==> s.mem[512 + k] == rom[k])
            && (|rom| <= k < 3584 ==> s.mem[512 + k] == 0)
            && (80 <= k < 512 ==> s.mem[k] == 0)
            && (k < 80 ==> s.mem[k] == FONT[k])
  {
    FontHasEightyBytes();
  }
}
