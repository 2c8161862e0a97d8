/**
  Words, registers, memory and condition codes of the emulated MC68030.

  A 32-bit quantity is an integer in [0, 2^32); every place where the emulator relies on wrap-around
  goes through Wrap or Low.  Instruction words stay bit-vectors, because they are only ever taken
  apart by masks and shifts.
*/
module Machine {
  type u8 = x: int | 0 <= x < 0x100
  type u16 = x: int | 0 <= x < 0x1_0000
  type u32 = x: int | 0 <= x < 0x1_0000_0000

  /** Operand size in bytes. */
  type Size = n: int | n == 1 || n == 2 || n == 4 witness 4

  type Reg = r: int | 0 <= r < 8
  type Regs = s: seq<u32> | |s| == 8 witness [0, 0, 0, 0, 0, 0, 0, 0]

  datatype Option<+T> = None | Some(value: T)

  function Modulus(n: Size): int {
    if n == 1 then 0x100 else if n == 2 then 0x1_0000 else 0x1_0000_0000
  }

  /** Conversion of any integer to uint32_t. */
  function Wrap(v: int): u32 {
    v % 0x1_0000_0000
  }

  /** The low n bytes of a register. */
  function Low(v: u32, n: Size): u32 {
    v % Modulus(n)
  }

  /** Replaces the low n bytes of a register, keeping the rest. */
  function Merge(dst: u32, v: u32, n: Size): u32 {
    dst - dst % Modulus(n) + v % Modulus(n)
  }

  /** The most significant bit of an n-byte value. */
  predicate Sign(v: int, n: Size) {
    2 * v >= Modulus(n)
  }

  /** Two's complement reading of an n-byte value. */
  function Signed(v: int, n: Size): int {
    if Sign(v, n) then v - Modulus(n) else v
  }

  function SignExtend(v: u32, n: Size): u32 {
    Wrap(Signed(Low(v, n), n))
  }

  // ----- Fields of an instruction word -----

  function Bits2to0(w: bv16): bv3 { (w & 7) as bv3 }
  function Bits5to3(w: bv16): bv3 { ((w >> 3) & 7) as bv3 }
  function Bits8to6(w: bv16): bv3 { ((w >> 6) & 7) as bv3 }
  function Bits11to9(w: bv16): bv3 { ((w >> 9) & 7) as bv3 }
  function Bits14to12(w: bv16): bv3 { ((w >> 12) & 7) as bv3 }

  /** The low byte of an instruction word as a signed displacement or immediate. */
  function Disp8(w: bv16): int {
    var b := ((w & 0xFF) as bv8) as int;
    if b < 128 then b else b - 256
  }

  /** An instruction word as a signed 16-bit displacement. */
  function Disp16(w: bv16): int {
    var b := w as int;
    if b < 0x8000 then b else b - 0x1_0000
  }

  // ----- Condition codes -----

  /** The CCR byte: X is bit 4, N bit 3, Z bit 2, V bit 1, C bit 0; rest is bits 7 to 5. */
  datatype Ccr = Ccr(x: bool, n: bool, z: bool, v: bool, c: bool, rest: int)

  /** Equality of the five architectural flags. */
  predicate SameFlags(a: Ccr, b: Ccr) {
    SameNzvc(a, b) && a.x == b.x
  }

  predicate SameNzvc(a: Ccr, b: Ccr) {
    a.n == b.n && a.z == b.z && a.v == b.v && a.c == b.c
  }

  // ----- Memory -----

  /** Byte-addressed memory; addresses wrap at 2^32. */
  type Memory = u32 -> u8

  function ReadWord(m: Memory, a: u32): u16 {
    m(a) * 0x100 + m(Wrap(a + 1))
  }

  function ReadLong(m: Memory, a: u32): u32 {
    ReadWord(m, a) * 0x1_0000 + ReadWord(m, Wrap(a + 2))
  }

  function Read(m: Memory, a: u32, n: Size): u32 {
    if n == 1 then m(a) else if n == 2 then ReadWord(m, a) else ReadLong(m, a)
  }

  function WriteByte(m: Memory, a: u32, v: u8): Memory {
    (x: u32) => if x == a then v else m(x)
  }

  function WriteWord(m: Memory, a: u32, v: u16): Memory {
    WriteByte(WriteByte(m, a, v / 0x100), Wrap(a + 1), v % 0x100)
  }

  function WriteLong(m: Memory, a: u32, v: u32): Memory {
    WriteWord(WriteWord(m, a, v / 0x1_0000), Wrap(a + 2), v % 0x1_0000)
  }

  function Write(m: Memory, a: u32, v: u32, n: Size): Memory {
    if n == 1 then WriteByte(m, a, v % 0x100)
    else if n == 2 then WriteWord(m, a, v % 0x1_0000)
    else WriteLong(m, a, v)
  }

  /** Distance from b up to a, modulo 2^32. */
  function Above(a: u32, b: u32): u32 {
    Wrap(a - b)
  }

  lemma ReadAfterWrite(m: Memory, a: u32, v: u32, n: Size)
    ensures Read(Write(m, a, v, n), a, n) == Low(v, n)
  {
    if n == 4 {
      var hi, lo := v / 0x1_0000, v % 0x1_0000;
      var m1 := WriteWord(m, a, hi);
      WordAfterWrite(m, a, hi);
      WordAfterWrite(m1, Wrap(a + 2), lo);
      WordKept(m1, a, lo);
      hide WriteWord, ReadWord, Wrap;
    }
  }

  lemma WordAfterWrite(m: Memory, a: u32, v: u16)
    ensures ReadWord(WriteWord(m, a, v), a) == v
  {
  }

  lemma WordKept(m: Memory, a: u32, v: u16)
    ensures ReadWord(WriteWord(m, Wrap(a + 2), v), a) == ReadWord(m, a)
  {
  }

  /** A write leaves every byte outside [a, a + n) alone. */
  lemma WriteFrame(m: Memory, a: u32, v: u32, n: Size, x: u32)
    requires Above(x, a) >= n
    ensures Write(m, a, v, n)(x) == m(x)
  {
  }

  lemma AboveOffset(a: u32, k: u32)
    ensures Above(Wrap(a + k), a) == k
  {
  }

  lemma WrapWrap(a: int, k: int)
    ensures Wrap(Wrap(a) + k) == Wrap(a + k)
  {
  }

  lemma ReadFrame(m1: Memory, m2: Memory, a: u32, n: Size)
    requires forall x: u32 :: Above(x, a) < n ==> m1(x) == m2(x)
    ensures Read(m1, a, n) == Read(m2, a, n)
  {
    AboveOffset(a, 0);
    AboveOffset(a, 1);
    AboveOffset(a, 2);
    AboveOffset(a, 3);
    WrapWrap(a + 2, 1);
    assert m1(a) == m2(a);
    if n > 1 {
      assert m1(Wrap(a + 1)) == m2(Wrap(a + 1));
    }
    if n > 2 {
      assert m1(Wrap(a + 2)) == m2(Wrap(a + 2));
      assert m1(Wrap(a + 3)) == m2(Wrap(a + 3));
    }
  }

  // ----- Processor state -----

  /** What a program can observe: registers, PC, CCR and the data memory it sees. */
  datatype State = State(D: Regs, A: Regs, pc: u32, ccr: Ccr, mem: Memory)
}
