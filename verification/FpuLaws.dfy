/** Round trips of FMOVEM and of FSAVE with FRESTORE. */
module FpuLaws {
  import opened Machine
  import opened Bits
  import opened EffectiveAddress
  import opened FpuFormat
  import opened FpuMemory
  import opened FpuMove

  // ----- Lists read from the other end -----

  /** The last n bits of m in opposite order. */
  function Mirrored(m: nat, n: nat): (r: nat)
    ensures r < Pow2(n)
  {
    if n == 0 then 0 else m % 2 * Pow2(n - 1) + Mirrored(m / 2, n - 1)
  }

  lemma {:induction false} MirroredBit(m: nat, n: nat, i: nat)
    requires i < n
    ensures Bit(Mirrored(m, n), i) == Bit(m, n - 1 - i)
  {
    var top, rest := m % 2, Mirrored(m / 2, n - 1);
    if i == n - 1 {
      DivModUnique(Mirrored(m, n), Pow2(n - 1), top, rest);
      assert Pow2(0) == 1;
    } else {
      MirroredBit(m / 2, n - 1, i);
      HigherBits(rest, top * Pow2(n - 2 - i), i);
      Pow2Sum(n - 2 - i, i + 1);
      TimesAssoc(top, Pow2(n - 2 - i), Pow2(i + 1));
      HalfBit(m, n - 1 - i);
    }
  }

  lemma TimesAssoc(a: int, b: int, c: int)
    ensures a * b * c == a * (b * c)
  {
  }

  /** Adding a multiple of 2^(i+1) does not change bit i. */
  lemma HigherBits(v: nat, q: nat, i: nat)
    ensures Bit(v + q * Pow2(i + 1), i) == Bit(v, i)
  {
    var p := Pow2(i);
    var w := v + q * Pow2(i + 1);
    assert Pow2(i + 1) == 2 * p;
    Regroup(v, q, p);
    DivModUnique(w, p, v / p + 2 * q, v % p);
  }

  lemma Regroup(v: nat, q: nat, p: nat)
    requires p > 0
    ensures v + q * (2 * p) == p * (v / p + 2 * q) + v % p
  {
  }

  lemma HalfBit(m: nat, k: nat)
    requires k > 0
    ensures Bit(m, k) == Bit(m / 2, k - 1)
  {
    var p := Pow2(k - 1);
    var q, r := m / 2 / p, m / 2 % p;
    assert m / 2 == p * q + r && m == 2 * (m / 2) + m % 2;
    assert m == 2 * p * q + (2 * r + m % 2);
    DivModUnique(m, 2 * p, q, 2 * r + m % 2);
  }

  /** m' is the list m written in opposite bit order. */
  predicate Opposite(m: u8, m': u8) {
    forall i: nat :: i < 8 ==> Bit(m', i) == Bit(m, 7 - i)
  }

  lemma OppositeOf(m: u8)
    ensures Mirrored(m, 8) < 0x100 && Opposite(m, Mirrored(m, 8))
  {
    Pow2Values();
    forall i: nat | i < 8
      ensures Bit(Mirrored(m, 8), i) == Bit(m, 7 - i)
    {
      MirroredBit(m, 8, i);
    }
  }

  /** The registers below n that bits 0 to n - 1 select, in ascending order. */
  function Ascending(m: u8, n: nat): seq<Reg>
    requires n <= 8
  {
    if n == 0 then [] else Ascending(m, n - 1) + if Bit(m, n - 1) then [n - 1] else []
  }

  lemma {:induction false} ListedAscending(m: u8, n: nat)
    requires n <= 8
    ensures Listed(m, false, 0) == Ascending(m, n) + Listed(m, false, n)
  {
    hide Bit, Listed, Ascending;
    AscendingUnfold(m, n);
    if n > 0 {
      ListedAscending(m, n - 1);
      ListedUnfold(m, false, n - 1);
      var next, rest := Ascending(m, n), Listed(m, false, n);
      if Bit(m, n - 1) {
        assert Listed(m, false, n - 1) == [n - 1] + rest;
      }
    }
  }

  lemma AscendingUnfold(m: u8, n: nat)
    requires n <= 8
    ensures Ascending(m, n) == if n == 0 then [] else Ascending(m, n - 1) + if Bit(m, n - 1) then [n - 1] else []
  {
  }

  lemma {:induction false} BackwardsListed(m: u8, m': u8, i: nat)
    requires i <= 8 && Opposite(m, m')
    ensures Backwards(Listed(m, true, i)) == Ascending(m', 8 - i)
    decreases 8 - i
  {
    hide Bit;
    if i < 8 {
      BackwardsListed(m, m', i + 1);
      ListedUnfold(m, true, i);
      assert Bit(m', 7 - i) == Bit(m, 7 - (7 - i));
    }
  }

  lemma {:induction false} AscendingMembers(m: u8, n: nat, r: Reg)
    requires n <= 8
    ensures r in Ascending(m, n) <==> r < n && Bit(m, r)
  {
    hide Bit;
    if n > 0 {
      AscendingMembers(m, n - 1, r);
    }
  }

  lemma {:induction false} BackwardsMembers(regs: seq<Reg>, r: Reg)
    ensures r in Backwards(regs) <==> r in regs
  {
    if regs != [] {
      BackwardsMembers(regs[1..], r);
      assert regs == [regs[0]] + regs[1..];
    }
  }

  // ----- FMOVEM -----

  /** The state r and registers fp' after restoring the list m in state s1, for a save of fp in state s. */
  ghost predicate RoundTripped(
      s: State, s1: State, r: State, fp': FpRegs, fp: FpRegs, clobbered: FpRegs, m: u8, reg: Reg) {
    && r == s.(mem := s1.mem)
    && SameOutside(s1.mem, s.mem, s1.A[reg], Above(s.A[reg], s1.A[reg]))
    && (forall i: Reg :: fp'[i] == if Bit(m, i) then Through(fp[i]) else clobbered[i])
    && ((forall i: Reg :: Bit(m, i) ==> fp'[i] == fp[i]) <==> forall i: Reg :: Bit(m, i) ==> Survives(fp[i]))
  }

  /**
    Saving a list through -(An) in its predecrement order, losing all registers, and restoring the
    same registers through (An)+ in postincrement order: exactly the selected registers come back,
    the others are as they were before the restore, and An is where it was.  The selected registers
    come back unchanged if and only if all of them survive the format.
  */
  lemma FmovemRoundTrip(
      env: Env, s: State, fp: FpRegs, clobbered: FpRegs,
      saveMode: bv2, saveList: u8, saveDyn: Reg, restoreMode: bv2, restoreList: u8, restoreDyn: Reg, reg: bv3)
    requires saveMode != 3 && (restoreMode == 2 || restoreMode == 3)
    requires Opposite(RegisterList(s, saveMode, saveList, saveDyn), RegisterList(s, restoreMode, restoreList, restoreDyn))
    ensures Decode(4, reg).Some? && Decode(3, reg).Some?
    ensures var s1 := Saves(env, s, fp, saveMode, saveList, saveDyn, 4, reg);
            var r := Restores(env, s1, clobbered, restoreMode, restoreList, restoreDyn, 3, reg);
            RoundTripped(s, s1, r.s, r.fp, fp, clobbered, RegisterList(s, restoreMode, restoreList, restoreDyn), reg as int)
  {
    hide SaveDown, RestoreUp, Bit, Through, SameOutside, Survives, Listed, Wrap, Above, Opposite;
    var m, m' := RegisterList(s, saveMode, saveList, saveDyn), RegisterList(s, restoreMode, restoreList, restoreDyn);
    var regs, addr := Listed(m, true, 0), s.A[reg as int];
    RestoreUndoesSaveDown(s.mem, addr, fp, clobbered, regs);
    SaveDownFrame(s.mem, addr, fp, regs);
    BackAgain(addr, 12 * |regs|);
    NaturalList(m, m');
    var r := RestoreUp(SaveDown(s.mem, addr, fp, regs).mem, SaveDown(s.mem, addr, fp, regs).addr, clobbered, Listed(m', false, 0));
    forall i: Reg
      ensures i in regs <==> Bit(m', i)
      ensures Through(fp[i]) == fp[i] <==> Survives(fp[i])
    {
      AscendingMembers(m', 8, i);
      BackwardsMembers(regs, i);
      ThroughSurvives(fp[i]);
    }
  }

  /**
    Through (An) itself the same list in the same mode restores what it saved, in every list mode, and
    neither instruction moves An.
  */
  lemma FmovemInPlace(
      env: Env, s: State, fp: FpRegs, clobbered: FpRegs, listMode: bv2, list: u8, dyn: Reg, reg: bv3)
    ensures Decode(2, reg).Some?
    ensures var s1 := Saves(env, s, fp, listMode, list, dyn, 2, reg);
            var r := Restores(env, s1, clobbered, listMode, list, dyn, 2, reg);
            r.s == s1 == s.(mem := s1.mem)
            && Recovered(r.fp, fp, clobbered, Listed(RegisterList(s, listMode, list, dyn), Reversed(listMode, 2), 0))
  {
    hide SaveUp, RestoreUp, Listed, Through;
    var regs := Listed(RegisterList(s, listMode, list, dyn), Reversed(listMode, 2), 0);
    RestoreUndoesSaveUp(s.mem, s.A[reg as int], fp, clobbered, regs);
  }

  lemma ThroughSurvives(d: Double)
    ensures Through(d) == d <==> Survives(d)
  {
    SurvivesExactly(d);
    hide ToExtended, FromExtended;
  }

  lemma NaturalList(m: u8, m': u8)
    requires Opposite(m, m')
    ensures Backwards(Listed(m, true, 0)) == Listed(m', false, 0) == Ascending(m', 8)
  {
    hide Bit, Opposite;
    BackwardsListed(m, m', 0);
    ListedAscending(m', 8);
    ListedUnfold(m', false, 0);
  }

  lemma BackAgain(addr: u32, n: nat)
    requires n < 0x1_0000_0000
    ensures Above(addr, Wrap(addr - n)) == n
  {
  }

  // ----- Control registers -----

  predicate KeepsSelected(l: Control, c: Control, clobbered: Control, sel: bv3) {
    && l.fpcr == (if sel & 4 != 0 then c.fpcr else clobbered.fpcr)
    && l.fpsr == (if sel & 2 != 0 then c.fpsr else clobbered.fpsr)
    && l.fpiar == (if sel & 1 != 0 then c.fpiar else clobbered.fpiar)
  }

  lemma PushTop(s: Saved, v: u32)
    ensures var p := PushLong(s, v); Read(p.mem, p.addr, 4) == v && Wrap(p.addr + 4) == s.addr
  {
    var addr: int := s.addr;
    ReadAfterWrite(s.mem, Wrap(addr - 4), v, 4);
    LowLong(v);
    Four(s.addr);
    hide Read, Write, Wrap, Low;
  }

  lemma Four(a: u32)
    ensures Wrap(Wrap(a - 4) + 4) == a && Above(a, Wrap(a - 4)) == 4
    ensures forall b: u32 :: Above(b, a) <= 8 ==> Above(b, Wrap(a - 4)) >= 4 && Above(Wrap(a - 4), b) >= 4
  {
  }

  /** What lies on the stack stays there. */
  lemma PushKeeps(s: Saved, v: u32, b: u32)
    requires Above(b, s.addr) <= 8
    ensures Read(PushLong(s, v).mem, b, 4) == Read(s.mem, b, 4)
    ensures Above(b, PushLong(s, v).addr) <= Above(b, s.addr) + 4
  {
    Four(s.addr);
    AboveAt(PushLong(s, v).addr, 4, b);
    var addr: int := s.addr;
    LongKept(s.mem, b, Wrap(addr - 4), v);
    hide Read, Write, Wrap;
  }

  /** Whatever control registers are selected, they come back through the same stack, and An with them. */
  lemma ControlRoundTrip(mem: Memory, addr: u32, c: Control, clobbered: Control, sel: bv3)
    ensures var s := SaveControl(mem, addr, c, sel);
            var l := LoadControl(s.mem, s.addr, clobbered, sel);
            l.addr == addr && KeepsSelected(l.c, c, clobbered, sel)
  {
    hide Read, Wrap, Above, PushLong;
    var s0 := Saved(mem, addr);
    var s1 := if sel & 1 != 0 then PushLong(s0, c.fpiar) else s0;
    var s2 := if sel & 2 != 0 then PushLong(s1, c.fpsr) else s1;
    PushTop(s0, c.fpiar);
    PushTop(s1, c.fpsr);
    PushTop(s2, c.fpcr);
    AboveSelf(s1.addr);
    AboveSelf(s2.addr);
    PushKeeps(s1, c.fpsr, s1.addr);
    PushKeeps(s2, c.fpcr, s2.addr);
    PushKeeps(s2, c.fpcr, s1.addr);
  }

  // ----- FSAVE and FRESTORE -----

  lemma {:induction false} FrameKeepsHeader(mem: Memory, addr: u32, n: nat)
    requires 4 <= n <= FRAME_SIZE
    ensures Read(Frame(mem, addr, n), addr, 4) == FRAME_HEADER
  {
    hide Read, Write, Wrap, Above;
    if n < 8 {
      ReadAfterWrite(mem, addr, FRAME_HEADER, 4);
      LowLong(FRAME_HEADER);
    } else {
      FrameKeepsHeader(mem, addr, n - 4);
      Offset(addr, n - 4);
      LongKept(Frame(mem, addr, n - 4), addr, Wrap(addr + n - 4), 0);
    }
  }

  lemma Offset(addr: u32, k: nat)
    requires 4 <= k <= FRAME_SIZE
    ensures Above(Wrap(addr + k), addr) == k && Above(addr, Wrap(addr + k)) == 0x1_0000_0000 - k
  {
  }

  lemma AboveSelf(addr: u32)
    ensures Above(addr, addr) == 0
  {
  }

  /** The frame that FSAVE leaves makes FRESTORE keep the registers and step over exactly the frame. */
  lemma FSaveRoundTrip(mem: Memory, a: u32)
    ensures var addr := Wrap(a - FRAME_SIZE);
            var header := ReadLong(Frame(mem, addr, FRAME_SIZE), addr);
            && header / 0x100_0000 != 0
            && Wrap(addr + 4 + header / 0x1_0000 % 0x100) == a
  {
    var addr := Wrap(a - FRAME_SIZE);
    FrameKeepsHeader(mem, addr, FRAME_SIZE);
    assert ReadLong(Frame(mem, addr, FRAME_SIZE), addr) == FRAME_HEADER;
    SixtyBack(a);
    hide ReadLong, Wrap, Frame;
  }

  lemma SixtyBack(a: u32)
    ensures Wrap(Wrap(a - FRAME_SIZE) + 4 + FRAME_HEADER / 0x1_0000 % 0x100) == a
  {
  }
}
