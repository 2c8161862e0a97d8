/** The bytes that saved FPU registers occupy in memory. */
module FpuImage {
  import opened Machine
  import opened Bits
  import opened EffectiveAddress
  import opened FpuFormat
  import opened FpuMemory
  import opened FpuMove
  import opened FpuLaws

  // ----- Bytes -----

  /** The n bytes from a on as one number, first byte most significant. */
  function BigEndian(mem: Memory, a: u32, n: nat): nat {
    if n == 0 then 0 else BigEndian(mem, a, n - 1) * 0x100 + mem(Wrap(a + n - 1))
  }

  lemma FourBytes(mem: Memory, a: u32)
    ensures BigEndian(mem, a, 1) == mem(Wrap(a + 0))
    ensures BigEndian(mem, a, 2) == mem(Wrap(a + 0)) * 0x100 + mem(Wrap(a + 1))
    ensures BigEndian(mem, a, 4)
         == ((mem(Wrap(a + 0)) * 0x100 + mem(Wrap(a + 1))) * 0x100 + mem(Wrap(a + 2))) * 0x100 + mem(Wrap(a + 3))
  {
    hide Wrap;
    assert BigEndian(mem, a, 0) == 0;
    assert BigEndian(mem, a, 3) == BigEndian(mem, a, 2) * 0x100 + mem(Wrap(a + 2));
  }

  /** Memory accesses of every size are big-endian. */
  lemma AccessesAreBigEndian(mem: Memory, a: u32, n: Size, v: u32)
    ensures Read(mem, a, n) == BigEndian(mem, a, n)
    ensures BigEndian(Write(mem, a, v, n), a, n) == v % Modulus(n)
  {
    ReadsBigEndian(mem, a, n);
    ReadsBigEndian(Write(mem, a, v, n), a, n);
    ReadAfterWrite(mem, a, v, n);
    hide BigEndian, Read, Write;
  }

  lemma ReadsBigEndian(mem: Memory, a: u32, n: Size)
    ensures Read(mem, a, n) == BigEndian(mem, a, n)
  {
    FourBytes(mem, a);
    WrapWrap(a + 2, 1);
    FpuMemory.WrapNone(a);
    hide Wrap, BigEndian;
  }

  lemma EightBytes(mem: Memory, a: u32)
    ensures BigEndian(mem, a, 8) == ReadLong(mem, a) * 0x1_0000_0000 + ReadLong(mem, Wrap(a + 4))
  {
    hide Wrap, ReadLong, BigEndian;
    LongReads(mem, a);
    LongReads(mem, Wrap(a + 4));
    ReadsBigEndian(mem, a, 4);
    ReadsBigEndian(mem, Wrap(a + 4), 4);
    FourBytes(mem, Wrap(a + 4));
    WrapWrap(a + 4, 0);
    WrapWrap(a + 4, 1);
    WrapWrap(a + 4, 2);
    WrapWrap(a + 4, 3);
    OneByteMore(mem, a, 4);
    OneByteMore(mem, a, 5);
    OneByteMore(mem, a, 6);
    OneByteMore(mem, a, 7);
  }

  lemma OneByteMore(mem: Memory, a: u32, n: nat)
    ensures BigEndian(mem, a, n + 1) == BigEndian(mem, a, n) * 0x100 + mem(Wrap(a + n))
  {
  }

  lemma TwoBytes(mem: Memory, a: u32)
    ensures BigEndian(mem, a, 2) == ReadLong(mem, a) / 0x1_0000
    ensures BigEndian(mem, Wrap(a + 2), 2) == ReadLong(mem, a) % 0x1_0000
  {
    ReadsBigEndian(mem, a, 2);
    ReadsBigEndian(mem, Wrap(a + 2), 2);
    hide Wrap, BigEndian, ReadWord;
  }

  // ----- The image of one register -----

  /** Sign and biased exponent: infinities and NaNs have all exponent bits set, zeros none. */
  function Head(d: Double): int {
    (if d.sign then 0x8000 else 0)
    + (if d.exp == 0x7FF then 0x7FFF else if d.exp == 0 && d.frac == 0 then 0 else d.exp + 15360)
  }

  /** The 64-bit significand with its leading bit. */
  function Significance(d: Double): int {
    if d.exp == 0x7FF then (if d.frac == 0 then 0x8000_0000_0000_0000 else 0xFFFF_FFFF_FFFF_FFFF)
    else if d.exp == 0 && d.frac == 0 then 0
    else 0x8000_0000_0000_0000 + d.frac * 0x800
  }

  /** Twelve bytes: head, two bytes of padding, significand. */
  ghost predicate Holds(mem: Memory, a: u32, d: Double) {
    && BigEndian(mem, a, 2) == Head(d)
    && BigEndian(mem, Wrap(a + 2), 2) == 0
    && BigEndian(mem, Wrap(a + 4), 8) == Significance(d)
  }

  lemma Fields(d: Double)
    ensures var x := ToExtended(d);
            && x.sign == d.sign && FirstWord(x) == Head(d) * 0x1_0000 && x.mantissa == Significance(d)
  {
  }

  /** What a save leaves in memory for each register, byte by byte. */
  lemma WritesImage(mem: Memory, a: u32, d: Double)
    ensures Holds(WriteExtended(mem, a, d), a, d)
  {
    hide ToExtended, FirstWord, Head, Significance, BigEndian, Wrap, ReadLong, WriteWords;
    var x, m := ToExtended(d), WriteExtended(mem, a, d);
    Fields(d);
    WordsBack(mem, a, FirstWord(x), x.mantissa / 0x1_0000_0000, x.mantissa % 0x1_0000_0000);
    LongReads(m, a);
    LongReads(m, Wrap(a + 4));
    LongReads(m, Wrap(a + 8));
    TwoBytes(m, a);
    EightBytes(m, Wrap(a + 4));
    WrapWrap(a + 4, 4);
  }

  lemma LongReads(m: Memory, a: u32)
    ensures Read(m, a, 4) == ReadLong(m, a)
  {
  }

  /** Any memory that holds the image of a normal number or a zero is read as that number, whatever the padding. */
  lemma ReadsImage(mem: Memory, a: u32, d: Double)
    requires d.IsNormal() || d.IsZero()
    requires BigEndian(mem, a, 2) == Head(d) && BigEndian(mem, Wrap(a + 4), 8) == Significance(d)
    ensures ReadExtended(mem, a) == d
  {
    hide BigEndian, Wrap, ReadLong, ToExtended, FromExtended;
    TwoBytes(mem, a);
    EightBytes(mem, Wrap(a + 4));
    WrapWrap(a + 4, 4);
    SameFields(d, ReadLong(mem, a), ReadLong(mem, Wrap(a + 4)), ReadLong(mem, Wrap(a + 8)));
    SurvivesExactly(d);
  }

  lemma SameFields(d: Double, w0: u32, hi: u32, lo: u32)
    requires w0 / 0x1_0000 == Head(d) && hi * 0x1_0000_0000 + lo == Significance(d)
    ensures FromWords(w0, hi, lo) == ToExtended(d)
  {
    HeadSplits(w0);
  }

  lemma HeadSplits(w0: u32)
    ensures w0 / 0x8000_0000 == w0 / 0x1_0000 / 0x8000
  {
  }

  // ----- The image of a list of registers -----

  lemma {:induction false} BytesKept(m1: Memory, m2: Memory, a: u32, k: nat, n: nat)
    requires k + n <= 12 && forall x: u32 :: Above(x, a) < 12 ==> m1(x) == m2(x)
    ensures BigEndian(m1, Wrap(a + k), n) == BigEndian(m2, Wrap(a + k), n)
  {
    hide Above, Wrap;
    if n > 0 {
      BytesKept(m1, m2, a, k, n - 1);
      ByteKept(m1, m2, a, k, n - 1);
    }
  }

  lemma ByteKept(m1: Memory, m2: Memory, a: u32, k: nat, i: nat)
    requires k + i < 12 && forall x: u32 :: Above(x, a) < 12 ==> m1(x) == m2(x)
    ensures m1(Wrap(Wrap(a + k) + i)) == m2(Wrap(Wrap(a + k) + i))
  {
    hide Above, Wrap;
    WrapWrap(a + k, i);
    AboveOffset(a, k + i);
  }

  /** Writes below a leave the image at a alone. */
  lemma ImageKept(m: Memory, mem: Memory, a: u32, n: nat, d: Double)
    requires n + 12 <= 0x1_0000_0000 && SameOutside(m, mem, Wrap(a - n), n) && Holds(mem, a, d)
    ensures Holds(m, a, d)
  {
    hide Above, Wrap, BigEndian, Head, Significance;
    forall x: u32 | Above(x, a) < 12
      ensures m(x) == mem(x)
    {
      AboveLow(x, a, n);
    }
    FpuMemory.WrapNone(a);
    BytesKept(m, mem, a, 0, 2);
    BytesKept(m, mem, a, 2, 2);
    BytesKept(m, mem, a, 4, 8);
  }

  lemma {:induction false} BackwardsLength(regs: seq<Reg>)
    ensures |Backwards(regs)| == |regs|
  {
    if regs != [] {
      BackwardsLength(regs[1..]);
    }
  }

  /** After a save downwards, the registers lie upwards from the final address in the opposite order. */
  lemma {:induction false} SaveDownImage(mem: Memory, addr: u32, fp: FpRegs, regs: seq<Reg>, j: nat)
    requires 12 * |regs| <= 0x1_0000_0000 && j < |regs|
    ensures var t := SaveDown(mem, addr, fp, regs);
            |Backwards(regs)| == |regs| && Holds(t.mem, Wrap(t.addr + 12 * j), fp[Backwards(regs)[j]])
    decreases |regs|
  {
    hide WriteExtended, Holds, SameOutside, Wrap;
    var a, rest, d, n := Wrap(addr - 12), regs[1..], fp[regs[0]], |regs| - 1;
    var m1 := WriteExtended(mem, a, d);
    var t := SaveDown(m1, a, fp, rest);
    BackwardsLength(regs);
    BackwardsLength(rest);
    SaveDownFrame(m1, a, fp, rest);
    if j < n {
      SaveDownImage(m1, a, fp, rest, j);
    } else {
      UpAgain(a, 12 * n);
      WritesImage(mem, a, d);
      ImageKept(t.mem, m1, a, 12 * n, d);
    }
  }

  lemma UpAgain(a: u32, n: nat)
    ensures Wrap(Wrap(a - n) + n) == a
  {
  }

  /** After a save upwards, they lie in order from the start address. */
  lemma {:induction false} SaveUpImage(mem: Memory, addr: u32, fp: FpRegs, regs: seq<Reg>, j: nat)
    requires 12 * |regs| <= 0x1_0000_0000 && j < |regs|
    ensures Holds(SaveUp(mem, addr, fp, regs).mem, Wrap(addr + 12 * j), fp[regs[j]])
    decreases |regs|
  {
    hide WriteExtended, Holds, SameOutside, Wrap;
    var rest, d, next := regs[1..], fp[regs[0]], Wrap(addr + 12);
    var m1 := WriteExtended(mem, addr, d);
    if j > 0 {
      SaveUpImage(m1, next, fp, rest, j - 1);
      WrapWrap(addr + 12, 12 * (j - 1));
    } else {
      FpuMemory.WrapNone(addr);
      WritesImage(mem, addr, d);
      SaveUpFrame(m1, next, fp, rest);
      ImageBelow(SaveUp(m1, next, fp, rest).mem, m1, addr, 12 * |rest|, d);
    }
  }

  lemma ImageBelow(m: Memory, mem: Memory, a: u32, n: nat, d: Double)
    requires n + 12 <= 0x1_0000_0000 && SameOutside(m, mem, Wrap(a + 12), n) && Holds(mem, a, d)
    ensures Holds(m, a, d)
  {
    hide Above, Wrap, BigEndian, Head, Significance;
    forall x: u32 | Above(x, a) < 12
      ensures m(x) == mem(x)
    {
      AboveAt(a, 12, x);
    }
    FpuMemory.WrapNone(a);
    BytesKept(m, mem, a, 0, 2);
    BytesKept(m, mem, a, 2, 2);
    BytesKept(m, mem, a, 4, 8);
  }

  // ----- FMOVEM to memory -----

  /** regs are the registers that the reversed list m selects, in ascending order. */
  predicate SelectedUp(regs: seq<Reg>, m: u8) {
    && (forall i, j | 0 <= i < j < |regs| :: regs[i] < regs[j])
    && (forall r: Reg :: r in regs <==> Bit(m, 7 - r))
  }

  lemma {:induction false} AscendingSorted(m: u8, n: nat)
    requires n <= 8
    ensures var regs := Ascending(m, n);
            && |regs| <= n && (forall i :: 0 <= i < |regs| ==> regs[i] < n)
            && forall i, j | 0 <= i < j < |regs| :: regs[i] < regs[j]
  {
    hide Bit;
    if n > 0 {
      AscendingSorted(m, n - 1);
    }
  }

  lemma SelectedInOrder(m: u8) returns (regs: seq<Reg>)
    ensures SelectedUp(regs, m) && regs == Backwards(Listed(m, true, 0)) && |regs| == |Listed(m, true, 0)| <= 8
  {
    hide Bit, Listed;
    OppositeOf(m);
    var m' := Mirrored(m, 8);
    NaturalList(m, m');
    regs := Ascending(m', 8);
    AscendingSorted(m', 8);
    BackwardsLength(Listed(m, true, 0));
    forall r: Reg
      ensures r in regs <==> Bit(m, 7 - r)
    {
      AscendingMembers(m', 8, r);
    }
  }

  /**
    After FMOVEM to -(An), An has moved down twelve bytes for each selected register, and the j-th
    lowest of them lies at An + 12 j.
  */
  lemma FmovemImage(
      env: Env, s: State, fp: FpRegs, listMode: bv2, list: u8, dyn: Reg, reg: bv3) returns (regs: seq<Reg>)
    requires listMode != 3
    ensures Decode(4, reg).Some? && SelectedUp(regs, RegisterList(s, listMode, list, dyn))
    ensures var s1 := Saves(env, s, fp, listMode, list, dyn, 4, reg);
            && s1.A == s.A[reg as int := Wrap(s.A[reg as int] - 12 * |regs|)]
            && forall j: nat :: j < |regs| ==> Holds(s1.mem, Wrap(s1.A[reg as int] + 12 * j), fp[regs[j]])
  {
    hide SaveDown, Holds, Listed, Wrap, Bit, RegisterList, SelectedUp;
    var m := RegisterList(s, listMode, list, dyn);
    regs := SelectedInOrder(m);
    var list' := Listed(m, true, 0);
    SaveDownFrame(s.mem, s.A[reg as int], fp, list');
    forall j: nat | j < |regs|
      ensures var t := SaveDown(s.mem, s.A[reg as int], fp, list'); Holds(t.mem, Wrap(t.addr + 12 * j), fp[regs[j]])
    {
      SaveDownImage(s.mem, s.A[reg as int], fp, list', j);
    }
  }

  // ----- Control registers and FSAVE frames -----

  /** The selected control registers, lowest address first. */
  function ControlList(c: Control, sel: bv3): seq<u32> {
    (if sel & 4 != 0 then [c.fpcr] else []) + (if sel & 2 != 0 then [c.fpsr] else []) + (if sel & 1 != 0 then [c.fpiar] else [])
  }

  lemma PushedAt(s: Saved, v: u32, k: nat)
    requires k <= 8
    ensures var p := PushLong(s, v);
            && Read(p.mem, p.addr, 4) == v && Wrap(p.addr + 4 + k) == Wrap(s.addr + k)
            && Read(p.mem, Wrap(s.addr + k), 4) == Read(s.mem, Wrap(s.addr + k), 4)
  {
    hide Read, Wrap, Above, PushLong;
    PushTop(s, v);
    AboveOffset(s.addr, k);
    PushKeeps(s, v, Wrap(s.addr + k));
    WrapWrap(PushLong(s, v).addr + 4, k);
  }

  /** FMOVEM of control registers to -(An): FPCR lowest, then FPSR, then FPIAR, of those selected. */
  lemma ControlImage(mem: Memory, addr: u32, c: Control, sel: bv3)
    ensures var s := SaveControl(mem, addr, c, sel);
            && s.addr == Wrap(addr - 4 * |ControlList(c, sel)|)
            && forall j: nat :: j < |ControlList(c, sel)| ==> Read(s.mem, Wrap(s.addr + 4 * j), 4) == ControlList(c, sel)[j]
  {
    hide Read, Wrap, PushLong;
    var s0 := Saved(mem, addr);
    var s1 := if sel & 1 != 0 then PushLong(s0, c.fpiar) else s0;
    var s2 := if sel & 2 != 0 then PushLong(s1, c.fpsr) else s1;
    var s3 := if sel & 4 != 0 then PushLong(s2, c.fpcr) else s2;
    FpuMemory.WrapNone(s1.addr);
    FpuMemory.WrapNone(s2.addr);
    FpuMemory.WrapNone(s3.addr);
    PushedAt(s0, c.fpiar, 0);
    PushedAt(s1, c.fpsr, 0);
    PushedAt(s2, c.fpcr, 0);
    PushedAt(s2, c.fpcr, 4);
    Downs(s0, c.fpiar);
    Downs(s1, c.fpsr);
    Downs(s2, c.fpcr);
    DownTwice(addr, 4);
    DownTwice(addr, 8);
  }

  lemma Downs(s: Saved, v: u32)
    ensures PushLong(s, v).addr == Wrap(s.addr - 4)
  {
  }

  lemma DownTwice(a: u32, k: nat)
    ensures Wrap(Wrap(a - k) - 4) == Wrap(a - (k + 4)) && Wrap(a - 0) == a
  {
  }

  /** The frame that FSAVE writes: version 1F and size 38 (hexadecimal) in the first long, then 56 zero bytes. */
  lemma {:induction false} FrameImage(mem: Memory, addr: u32, n: nat, k: nat)
    requires 4 <= n <= FRAME_SIZE && n % 4 == 0 && k < n && k % 4 == 0
    ensures Read(Frame(mem, addr, n), Wrap(addr + k), 4) == if k == 0 then 0x1F38_0000 else 0
  {
    hide Read, Write, Wrap, Above;
    FpuMemory.WrapNone(addr);
    if n < 8 {
      ReadAfterWrite(mem, addr, FRAME_HEADER, 4);
      LowLong(FRAME_HEADER);
    } else {
      var last := Wrap(addr + n - 4);
      if k == n - 4 {
        ReadAfterWrite(Frame(mem, addr, n - 4), last, 0, 4);
        LowLong(0);
      } else {
        FrameImage(mem, addr, n - 4, k);
        ApartBy(addr, k, n - 4);
        LongKept(Frame(mem, addr, n - 4), Wrap(addr + k), last, 0);
      }
    }
  }

  lemma ApartBy(a: u32, j: nat, k: nat)
    requires j + 4 <= k <= FRAME_SIZE
    ensures Above(Wrap(a + k), Wrap(a + j)) >= 4 && Above(Wrap(a + j), Wrap(a + k)) >= 4
  {
    hide Above, Wrap;
    var b := Wrap(a + j);
    WrapWrap(a + j, k - j);
    AboveOffset(b, k - j);
    AboveAt(b, k - j, b);
    AboveSelf(b);
  }
}
