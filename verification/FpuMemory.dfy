/** FPU registers in memory: what FMOVEM saves, it restores. */
module FpuMemory {
  import opened Machine
  import opened Bits
  import opened FpuFormat

  type FpRegs = s: seq<Double> | |s| == 8 witness seq(8, _ => Double(false, 0, 0))

  // ----- One register -----

  function FirstWord(x: Extended): u32
    requires x.exponent < 0x8000
  {
    (if x.sign then 0x8000_0000 else 0) + x.exponent * 0x1_0000
  }

  /** The words at a, a + 4 and a + 8 as an extended number; the low half of the first is padding. */
  function FromWords(w0: u32, hi: u32, lo: u32): Extended {
    Extended(w0 / 0x8000_0000 == 1, w0 / 0x1_0000 % 0x8000, hi * 0x1_0000_0000 + lo)
  }

  function ReadExtended(mem: Memory, a: u32): Double {
    FromExtended(FromWords(ReadLong(mem, a), ReadLong(mem, Wrap(a + 4)), ReadLong(mem, Wrap(a + 8))))
  }

  function WriteWords(mem: Memory, a: u32, w0: u32, hi: u32, lo: u32): Memory {
    Write(Write(Write(mem, a, w0, 4), Wrap(a + 4), hi, 4), Wrap(a + 8), lo, 4)
  }

  function WriteExtended(mem: Memory, a: u32, d: Double): Memory {
    var x := ToExtended(d);
    WriteWords(mem, a, FirstWord(x), x.mantissa / 0x1_0000_0000, x.mantissa % 0x1_0000_0000)
  }

  /** What becomes of a register that is saved and restored. */
  function Through(d: Double): Double {
    FromExtended(ToExtended(d))
  }

  lemma AboveAt(a: u32, k: u32, x: u32)
    ensures Above(x, a) >= k ==> Above(x, Wrap(a + k)) == Above(x, a) - k
    ensures Above(x, a) < k ==> Above(x, Wrap(a + k)) == Above(x, a) - k + 0x1_0000_0000
  {
  }

  lemma LongKept(mem: Memory, a: u32, b: u32, v: u32)
    requires Above(b, a) >= 4 && Above(a, b) >= 4
    ensures Read(Write(mem, b, v, 4), a, 4) == Read(mem, a, 4)
  {
    hide Read, Write;
    var m := Write(mem, b, v, 4);
    forall x: u32 | Above(x, a) < 4
      ensures m(x) == mem(x)
    {
      Separate(a, b, x);
      WriteFrame(mem, b, v, 4, x);
    }
    ReadFrame(m, mem, a, 4);
  }

  lemma Separate(a: u32, b: u32, x: u32)
    requires Above(b, a) >= 4 && Above(a, b) >= 4 && Above(x, a) < 4
    ensures Above(x, b) >= 4
  {
  }

  lemma Apart(a: u32)
    ensures Above(Wrap(a + 4), a) == 4 && Above(a, Wrap(a + 4)) == 0xFFFF_FFFC
    ensures Above(Wrap(a + 8), a) == 8 && Above(a, Wrap(a + 8)) == 0xFFFF_FFF8
    ensures Above(Wrap(a + 8), Wrap(a + 4)) == 4 && Above(Wrap(a + 4), Wrap(a + 8)) == 0xFFFF_FFFC
  {
  }

  lemma WordsBack(mem: Memory, a: u32, w0: u32, hi: u32, lo: u32)
    ensures var m := WriteWords(mem, a, w0, hi, lo);
            && Read(m, a, 4) == w0 && Read(m, Wrap(a + 4), 4) == hi && Read(m, Wrap(a + 8), 4) == lo
  {
    var m1 := Write(mem, a, w0, 4);
    var m2 := Write(m1, Wrap(a + 4), hi, 4);
    Apart(a);
    ReadAfterWrite(mem, a, w0, 4);
    ReadAfterWrite(m1, Wrap(a + 4), hi, 4);
    ReadAfterWrite(m2, Wrap(a + 8), lo, 4);
    LongKept(m1, a, Wrap(a + 4), hi);
    LongKept(m2, a, Wrap(a + 8), lo);
    LongKept(m2, Wrap(a + 4), Wrap(a + 8), lo);
    LowLong(w0);
    LowLong(hi);
    LowLong(lo);
    hide Read, Write, Wrap, Above, Low;
  }

  lemma LowLong(v: u32)
    ensures Low(v, 4) == v
  {
  }

  lemma FirstWordBack(x: Extended)
    requires x.exponent < 0x8000 && x.mantissa < 2 * TWO_63
    ensures FromWords(FirstWord(x), x.mantissa / 0x1_0000_0000, x.mantissa % 0x1_0000_0000) == x
  {
  }

  lemma ReadWritten(mem: Memory, a: u32, d: Double)
    ensures ReadExtended(WriteExtended(mem, a, d), a) == Through(d)
  {
    var x := ToExtended(d);
    WordsBack(mem, a, FirstWord(x), x.mantissa / 0x1_0000_0000, x.mantissa % 0x1_0000_0000);
    FirstWordBack(x);
    hide ToExtended, FromExtended, FirstWord, FromWords, WriteWords, ReadLong, Wrap;
  }

  lemma ExtendedFrame(mem: Memory, a: u32, d: Double, x: u32)
    requires Above(x, a) >= 12
    ensures WriteExtended(mem, a, d)(x) == mem(x)
  {
    var e := ToExtended(d);
    var hi, lo := e.mantissa / 0x1_0000_0000, e.mantissa % 0x1_0000_0000;
    var m1 := Write(mem, a, FirstWord(e), 4);
    var m2 := Write(m1, Wrap(a + 4), hi, 4);
    AboveAt(a, 4, x);
    AboveAt(a, 8, x);
    WriteFrame(mem, a, FirstWord(e), 4, x);
    WriteFrame(m1, Wrap(a + 4), hi, 4, x);
    WriteFrame(m2, Wrap(a + 8), lo, 4, x);
    hide Write, Wrap, Above, FirstWord, ToExtended;
  }

  lemma ReadExtendedFrame(m1: Memory, m2: Memory, a: u32)
    requires forall x: u32 :: Above(x, a) < 12 ==> m1(x) == m2(x)
    ensures ReadExtended(m1, a) == ReadExtended(m2, a)
  {
    hide FromExtended, FromWords, ReadLong, Above, Wrap;
    WrapNone(a);
    LongWithin(m1, m2, a, 0);
    LongWithin(m1, m2, a, 4);
    LongWithin(m1, m2, a, 8);
  }

  lemma WrapNone(a: u32)
    ensures Wrap(a + 0) == a
  {
  }

  lemma LongWithin(m1: Memory, m2: Memory, a: u32, k: u32)
    requires k <= 8 && forall x: u32 :: Above(x, a) < 12 ==> m1(x) == m2(x)
    ensures ReadLong(m1, Wrap(a + k)) == ReadLong(m2, Wrap(a + k))
  {
    forall x: u32 | Above(x, Wrap(a + k)) < 4
      ensures m1(x) == m2(x)
    {
      AboveAt(a, k, x);
    }
    hide Wrap, Above, ReadLong;
    ReadFrame(m1, m2, Wrap(a + k), 4);
  }

  // ----- Lists of registers -----

  datatype Saved = Saved(mem: Memory, addr: u32)

  /** The order of -(An): each register goes twelve bytes below the one before it. */
  function SaveDown(mem: Memory, addr: u32, fp: FpRegs, regs: seq<Reg>): Saved
    decreases |regs|
  {
    if regs == [] then Saved(mem, addr)
    else
      var a := Wrap(addr - 12);
      SaveDown(WriteExtended(mem, a, fp[regs[0]]), a, fp, regs[1..])
  }

  /** The order of all other addressing modes. */
  function SaveUp(mem: Memory, addr: u32, fp: FpRegs, regs: seq<Reg>): Saved
    decreases |regs|
  {
    if regs == [] then Saved(mem, addr)
    else SaveUp(WriteExtended(mem, addr, fp[regs[0]]), Wrap(addr + 12), fp, regs[1..])
  }

  datatype Restored = Restored(fp: FpRegs, addr: u32)

  function RestoreUp(mem: Memory, addr: u32, fp: FpRegs, regs: seq<Reg>): Restored
    decreases |regs|
  {
    if regs == [] then Restored(fp, addr)
    else RestoreUp(mem, Wrap(addr + 12), fp[regs[0] := ReadExtended(mem, addr)], regs[1..])
  }

  function Backwards(regs: seq<Reg>): seq<Reg> {
    if regs == [] then [] else Backwards(regs[1..]) + [regs[0]]
  }

  lemma {:induction false} RestoreSnoc(mem: Memory, addr: u32, fp: FpRegs, regs: seq<Reg>, last: Reg)
    ensures var r := RestoreUp(mem, addr, fp, regs);
            RestoreUp(mem, addr, fp, regs + [last])
            == Restored(r.fp[last := ReadExtended(mem, r.addr)], Wrap(r.addr + 12))
    decreases |regs|
  {
    hide ReadExtended, Wrap;
    if regs == [] {
      assert [last][1..] == [];
    } else {
      assert (regs + [last])[1..] == regs[1..] + [last];
      RestoreSnoc(mem, Wrap(addr + 12), fp[regs[0] := ReadExtended(mem, addr)], regs[1..], last);
    }
  }

  /** Selected registers hold what was saved, as it survives the format; the others are left alone. */
  predicate Recovered(r: FpRegs, fp: FpRegs, clobbered: FpRegs, regs: seq<Reg>) {
    forall i: Reg :: r[i] == if i in regs then Through(fp[i]) else clobbered[i]
  }

  ghost predicate SameOutside(m: Memory, mem: Memory, low: u32, n: nat) {
    forall x: u32 :: Above(x, low) >= n ==> m(x) == mem(x)
  }

  /** The twelve bytes from a on are not among the n bytes below a. */
  lemma KeepsAbove(m: Memory, mem: Memory, a: u32, n: nat)
    requires n + 12 <= 0x1_0000_0000 && SameOutside(m, mem, Wrap(a - n), n)
    ensures ReadExtended(m, a) == ReadExtended(mem, a)
  {
    forall x: u32 | Above(x, a) < 12
      ensures m(x) == mem(x)
    {
      AboveLow(x, a, n);
    }
    hide ReadExtended, Above, Wrap;
    ReadExtendedFrame(m, mem, a);
  }

  lemma AboveLow(x: u32, a: u32, n: nat)
    requires n + 12 <= 0x1_0000_0000 && Above(x, a) < 12
    ensures Above(x, Wrap(a - n)) >= n
  {
  }

  lemma Lower(addr: u32, n: nat)
    ensures Wrap(Wrap(addr - 12) - n) == Wrap(addr - (n + 12))
    ensures Wrap(Wrap(addr - 12) + 12) == addr
  {
  }

  lemma BelowBoth(x: u32, addr: u32, n: nat)
    requires n + 12 <= 0x1_0000_0000 && Above(x, Wrap(addr - (n + 12))) >= n + 12
    ensures Above(x, Wrap(addr - 12)) >= 12 && Above(x, Wrap(addr - (n + 12))) >= n
  {
    var low := Wrap(addr - (n + 12));
    LowPlus(addr, n);
    AboveAt(low, n, x);
  }

  lemma LowPlus(addr: u32, n: nat)
    requires n < 0x1_0000_0000
    ensures Wrap(Wrap(addr - (n + 12)) + n) == Wrap(addr - 12)
  {
  }

  /** One more register below: everything outside the larger region is still untouched. */
  lemma GrowDown(m: Memory, mem: Memory, addr: u32, d: Double, n: nat)
    requires n + 12 <= 0x1_0000_0000
    requires SameOutside(m, WriteExtended(mem, Wrap(addr - 12), d), Wrap(addr - (n + 12)), n)
    ensures SameOutside(m, mem, Wrap(addr - (n + 12)), n + 12)
  {
    hide WriteExtended, Above, Wrap;
    forall x: u32 | Above(x, Wrap(addr - (n + 12))) >= n + 12
      ensures m(x) == mem(x)
    {
      BelowBoth(x, addr, n);
      ExtendedFrame(mem, Wrap(addr - 12), d, x);
    }
  }

  lemma {:induction false} SaveDownFrame(mem: Memory, addr: u32, fp: FpRegs, regs: seq<Reg>)
    requires 12 * |regs| <= 0x1_0000_0000
    ensures var t := SaveDown(mem, addr, fp, regs);
            t.addr == Wrap(addr - 12 * |regs|) && SameOutside(t.mem, mem, t.addr, 12 * |regs|)
    decreases |regs|
  {
    hide WriteExtended, SameOutside, Wrap;
    if regs == [] {
      Nothing(mem, addr);
    } else {
      var a := Wrap(addr - 12);
      var n := 12 * |regs[1..]|;
      SaveDownFrame(WriteExtended(mem, a, fp[regs[0]]), a, fp, regs[1..]);
      Lower(addr, n);
      GrowDown(SaveDown(mem, addr, fp, regs).mem, mem, addr, fp[regs[0]], n);
    }
  }

  lemma Nothing(mem: Memory, addr: u32)
    ensures Wrap(addr - 0) == addr && SameOutside(mem, mem, addr, 0)
  {
  }

  /**
    Registers saved below an address and restored upwards in the opposite order come back, the
    address ends where it started, and memory changes only in between.
  */
  lemma {:induction false} RestoreUndoesSaveDown(
      mem: Memory, addr: u32, fp: FpRegs, clobbered: FpRegs, regs: seq<Reg>)
    requires 12 * |regs| <= 0x1_0000_0000
    ensures var t := SaveDown(mem, addr, fp, regs);
            var r := RestoreUp(t.mem, t.addr, clobbered, Backwards(regs));
            r.addr == addr && Recovered(r.fp, fp, clobbered, regs)
    decreases |regs|
  {
    hide WriteExtended, ReadExtended, SameOutside, Wrap, Through;
    if regs != [] {
      var a, rest, d := Wrap(addr - 12), regs[1..], fp[regs[0]];
      var m1 := WriteExtended(mem, a, d);
      var t := SaveDown(m1, a, fp, rest);
      RestoreUndoesSaveDown(m1, a, fp, clobbered, rest);
      RestoreSnoc(t.mem, t.addr, clobbered, Backwards(rest), regs[0]);
      SaveDownFrame(m1, a, fp, rest);
      KeepsAbove(t.mem, m1, a, 12 * |rest|);
      ReadWritten(mem, a, d);
      Lower(addr, 0);
      RecoveredOneMore(RestoreUp(t.mem, t.addr, clobbered, Backwards(rest)).fp, fp, clobbered, regs);
    }
  }

  lemma RecoveredOneMore(r: FpRegs, fp: FpRegs, clobbered: FpRegs, regs: seq<Reg>)
    requires regs != [] && Recovered(r, fp, clobbered, regs[1..])
    ensures Recovered(r[regs[0] := Through(fp[regs[0]])], fp, clobbered, regs)
  {
  }

  lemma GrowUp(m: Memory, mem: Memory, addr: u32, d: Double, n: nat)
    requires n + 12 <= 0x1_0000_0000 && SameOutside(m, WriteExtended(mem, addr, d), Wrap(addr + 12), n)
    ensures SameOutside(m, mem, addr, n + 12)
    ensures ReadExtended(m, addr) == Through(d)
  {
    hide WriteExtended, ReadExtended, Above, Wrap, Through;
    forall x: u32 | Above(x, addr) >= n + 12
      ensures m(x) == mem(x)
    {
      AboveAt(addr, 12, x);
      ExtendedFrame(mem, addr, d, x);
    }
    forall x: u32 | Above(x, addr) < 12
      ensures m(x) == WriteExtended(mem, addr, d)(x)
    {
      AboveAt(addr, 12, x);
    }
    ReadExtendedFrame(m, WriteExtended(mem, addr, d), addr);
    ReadWritten(mem, addr, d);
  }

  lemma {:induction false} SaveUpFrame(mem: Memory, addr: u32, fp: FpRegs, regs: seq<Reg>)
    requires 12 * |regs| <= 0x1_0000_0000
    ensures SameOutside(SaveUp(mem, addr, fp, regs).mem, mem, addr, 12 * |regs|)
    decreases |regs|
  {
    hide WriteExtended, SameOutside, Wrap;
    if regs == [] {
      Nothing(mem, addr);
    } else {
      SaveUpFrame(WriteExtended(mem, addr, fp[regs[0]]), Wrap(addr + 12), fp, regs[1..]);
      GrowUp(SaveUp(mem, addr, fp, regs).mem, mem, addr, fp[regs[0]], 12 * |regs[1..]|);
    }
  }

  /** Saved upwards and restored upwards from the same address in the same order. */
  lemma {:induction false} RestoreUndoesSaveUp(
      mem: Memory, addr: u32, fp: FpRegs, clobbered: FpRegs, regs: seq<Reg>)
    requires 12 * |regs| <= 0x1_0000_0000
    ensures Recovered(RestoreUp(SaveUp(mem, addr, fp, regs).mem, addr, clobbered, regs).fp, fp, clobbered, regs)
    decreases |regs|
  {
    hide WriteExtended, ReadExtended, SameOutside, Wrap, Through;
    if regs != [] {
      var rest, d, next := regs[1..], fp[regs[0]], Wrap(addr + 12);
      var m1 := WriteExtended(mem, addr, d);
      SaveUpFrame(m1, next, fp, rest);
      GrowUp(SaveUp(m1, next, fp, rest).mem, mem, addr, d, 12 * |rest|);
      RestoreUndoesSaveUp(m1, next, fp, clobbered[regs[0] := Through(d)], rest);
      assert regs == [regs[0]] + rest;
    }
  }
}
