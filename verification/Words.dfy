/** Bytes, addresses and opcodes of the CHIP-8 machine. */
module Words {
  import opened Bytes

  type address = a: int | 0 <= a < 0x1_0000
  type nibble = n: int | 0 <= n < 16

  /** A 16-bit instruction word as its four hexadecimal digits, the most significant first; every mask
      and shift the program applies to a word selects whole digits. */
  datatype Opcode = Opcode(kind: nibble, x: nibble, y: nibble, n: nibble) {
    function Word(): (w: address) {
      kind * 4096 + x * 256 + y * 16 + n
    }

    /** The low twelve bits. */
    function Nnn(): (a: address)
      ensures a < 4096
    {
      x * 256 + y * 16 + n
    }

    /** The low eight bits. */
    function Kk(): byte { y * 16 + n }
  }

  /** The word stored big-endian in two bytes. */
  function OpcodeFromBytes(high: byte, low: byte): (op: Opcode)
    ensures op.Word() == high * 256 + low
  {
    Opcode(high / 16, high % 16, low / 16, low % 16)
  }

  /** The digits are what the program's masks and shifts select. */
  lemma DigitsOfWord(op: Opcode)
    ensures op.kind == op.Word() / 4096
    ensures op.x == op.Word() / 256 % 16
    ensures op.y == op.Word() / 16 % 16
    ensures op.n == op.Word() % 16
  {
    assert op.Word() / 256 == op.kind * 16 + op.x;
    assert op.Word() / 16 == op.kind * 256 + op.x * 16 + op.y;
  }
}
