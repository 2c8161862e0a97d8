/** FMOVEM, FSAVE and FRESTORE on the processor and FPU objects. */
module FpuMove {
  import opened Machine
  import opened Bits
  import opened EffectiveAddress
  import opened Processor
  import AddressingMethods
  import opened FpuFormat
  import opened FpuMemory

  class Fpu {
    var FP: FpRegs
    var FPCR: u32
    var FPSR: u32
    var FPIAR: u32

    constructor ()
      ensures IsReset()
    {
      FP := seq(8, _ => Double(false, 0, 0));
      FPCR, FPSR, FPIAR := 0, 0, 0;
    }

    predicate IsReset()
      reads this
    {
      (forall i: Reg :: FP[i] == Double(false, 0, 0)) && FPCR == FPSR == FPIAR == 0
    }

    method Reset()
      modifies this
      ensures IsReset()
    {
      FP := seq(8, _ => Double(false, 0, 0));
      FPCR, FPSR, FPIAR := 0, 0, 0;
    }
  }

  // ----- Register lists -----

  /** The registers that bits i to 7 of a list select, in the order in which a loop over the bits visits them. */
  function Listed(mask: u8, reversed: bool, i: nat): (regs: seq<Reg>)
    requires i <= 8
    ensures |regs| <= 8 - i
    decreases 8 - i
  {
    if i == 8 then []
    else (if Bit(mask, i) then [ListedReg(reversed, i)] else []) + Listed(mask, reversed, i + 1)
  }

  function ListedReg(reversed: bool, i: nat): Reg
    requires i < 8
  {
    if reversed then 7 - i else i
  }

  /** List modes 1 and 3 take the list from a data register. */
  function RegisterList(s: State, listMode: bv2, staticList: u8, dynReg: Reg): u8 {
    if listMode == 0 || listMode == 2 then staticList else s.D[dynReg] % 0x100
  }

  /** To memory through -(An) a static list is reversed in either mode; a dynamic one only in mode 1. */
  function Reversed(listMode: bv2, eaMode: bv3): bool {
    if eaMode == 4 then listMode != 3 else listMode == 0 || listMode == 1
  }

  lemma ListedUnfold(mask: u8, reversed: bool, i: nat)
    requires i < 8
    ensures var regs, rest := Listed(mask, reversed, i), Listed(mask, reversed, i + 1);
            if Bit(mask, i) then regs != [] && regs[0] == ListedReg(reversed, i) && regs[1..] == rest else regs == rest
    ensures Listed(mask, reversed, 8) == []
  {
  }

  // ----- The loops over the bits of a list -----

  method SaveLoopDown(cpu: Cpu, fpu: Fpu, start: u32, regList: u8, reversed: bool) returns (addr: u32)
    modifies cpu`mem
    ensures Saved(cpu.mem, addr) == old(SaveDown(cpu.mem, start, fpu.FP, Listed(regList, reversed, 0)))
  {
    hide WriteExtended, Bit, Listed;
    addr := start;
    ghost var all := SaveDown(cpu.mem, addr, fpu.FP, Listed(regList, reversed, 0));
    for i := 0 to 8
      invariant all == SaveDown(cpu.mem, addr, fpu.FP, Listed(regList, reversed, i))
    {
      ListedUnfold(regList, reversed, i);
      if Bit(regList, i) {
        var at: int := addr;
        addr := Wrap(at - 12);
        cpu.mem := WriteExtended(cpu.mem, addr, fpu.FP[ListedReg(reversed, i)]);
      }
    }
    ListedUnfold(regList, reversed, 0);
  }

  method SaveLoopUp(cpu: Cpu, fpu: Fpu, start: u32, regList: u8, reversed: bool)
    modifies cpu`mem
    ensures cpu.mem == old(SaveUp(cpu.mem, start, fpu.FP, Listed(regList, reversed, 0))).mem
  {
    hide WriteExtended, Bit, Listed;
    var addr := start;
    ghost var all := SaveUp(cpu.mem, addr, fpu.FP, Listed(regList, reversed, 0));
    for i := 0 to 8
      invariant all == SaveUp(cpu.mem, addr, fpu.FP, Listed(regList, reversed, i))
    {
      ListedUnfold(regList, reversed, i);
      if Bit(regList, i) {
        cpu.mem := WriteExtended(cpu.mem, addr, fpu.FP[ListedReg(reversed, i)]);
        var at: int := addr;
        addr := Wrap(at + 12);
      }
    }
    ListedUnfold(regList, reversed, 0);
  }

  method RestoreLoop(cpu: Cpu, fpu: Fpu, start: u32, regList: u8, reversed: bool) returns (addr: u32)
    modifies fpu`FP
    ensures Restored(fpu.FP, addr) == old(RestoreUp(cpu.mem, start, fpu.FP, Listed(regList, reversed, 0)))
  {
    hide ReadExtended, Bit, Listed;
    addr := start;
    ghost var all := RestoreUp(cpu.mem, addr, fpu.FP, Listed(regList, reversed, 0));
    for i := 0 to 8
      invariant all == RestoreUp(cpu.mem, addr, fpu.FP, Listed(regList, reversed, i))
    {
      ListedUnfold(regList, reversed, i);
      if Bit(regList, i) {
        fpu.FP := fpu.FP[ListedReg(reversed, i) := ReadExtended(cpu.mem, addr)];
        var at: int := addr;
        addr := Wrap(at + 12);
      }
    }
    ListedUnfold(regList, reversed, 0);
  }

  // ----- FMOVEM -----

  function Saves(
      env: Env, s: State, fp: FpRegs, listMode: bv2, staticList: u8, dynReg: Reg, eaMode: bv3, eaReg: bv3): State
    requires Decode(eaMode, eaReg).Some?
  {
    var regs := Listed(RegisterList(s, listMode, staticList, dynReg), Reversed(listMode, eaMode), 0);
    if eaMode == 4 then
      var r := SaveDown(s.mem, s.A[eaReg as int], fp, regs);
      s.(mem := r.mem, A := s.A[eaReg as int := r.addr])
    else
      var at := ResolveAddress(env, s, Decode(eaMode, eaReg).value, 12);
      at.s.(mem := SaveUp(at.s.mem, at.value, fp, regs).mem)
  }

  datatype RestoreResult = RestoreResult(s: State, fp: FpRegs)

  function Restores(
      env: Env, s: State, fp: FpRegs, listMode: bv2, staticList: u8, dynReg: Reg, eaMode: bv3, eaReg: bv3): RestoreResult
    requires Decode(eaMode, eaReg).Some?
  {
    var regs := Listed(RegisterList(s, listMode, staticList, dynReg), listMode == 0 || listMode == 1, 0);
    if eaMode == 3 then
      var r := RestoreUp(s.mem, s.A[eaReg as int], fp, regs);
      RestoreResult(s.(A := s.A[eaReg as int := r.addr]), r.fp)
    else
      var at := ResolveAddress(env, s, Decode(eaMode, eaReg).value, 12);
      RestoreResult(at.s, RestoreUp(at.s.mem, at.value, fp, regs).fp)
  }

  /** FMOVEM of data registers to memory. */
  method SaveList(env: Env, cpu: Cpu, fpu: Fpu, listMode: bv2, staticList: u8, dynReg: Reg, eaMode: bv3, eaReg: bv3)
    returns (ok: bool)
    modifies cpu`A, cpu`pc, cpu`mem
    ensures ok == Decode(eaMode, eaReg).Some?
    ensures !ok ==> cpu.Now() == old(cpu.Now())
    ensures ok ==> cpu.Now() == old(Saves(env, cpu.Now(), fpu.FP, listMode, staticList, dynReg, eaMode, eaReg))
  {
    hide Listed, SaveDown, SaveUp, ResolveAddress, Decode, RegisterList, Reversed;
    var o := Decode(eaMode, eaReg);
    if o.None? {
      return false;
    }
    ok := true;
    var regList := RegisterList(cpu.Now(), listMode, staticList, dynReg);
    var reversed := Reversed(listMode, eaMode);
    if eaMode == 4 {
      var addr := SaveLoopDown(cpu, fpu, cpu.A[eaReg as int], regList, reversed);
      cpu.A := cpu.A[eaReg as int := addr];
    } else {
      var addr := AddressingMethods.ResolveAddress(env, cpu, o.value, 12);
      SaveLoopUp(cpu, fpu, addr, regList, reversed);
    }
  }

  /** FMOVEM of data registers from memory. */
  method RestoreList(env: Env, cpu: Cpu, fpu: Fpu, listMode: bv2, staticList: u8, dynReg: Reg, eaMode: bv3, eaReg: bv3)
    returns (ok: bool)
    modifies cpu`A, cpu`pc, fpu`FP
    ensures ok == Decode(eaMode, eaReg).Some?
    ensures !ok ==> cpu.Now() == old(cpu.Now()) && fpu.FP == old(fpu.FP)
    ensures ok ==>
      RestoreResult(cpu.Now(), fpu.FP)
      == old(Restores(env, cpu.Now(), fpu.FP, listMode, staticList, dynReg, eaMode, eaReg))
  {
    hide Listed, RestoreUp, ResolveAddress, Decode, RegisterList;
    var o := Decode(eaMode, eaReg);
    if o.None? {
      return false;
    }
    ok := true;
    var regList := RegisterList(cpu.Now(), listMode, staticList, dynReg);
    var reversed := listMode == 0 || listMode == 1;
    if eaMode == 3 {
      var addr := RestoreLoop(cpu, fpu, cpu.A[eaReg as int], regList, reversed);
      cpu.A := cpu.A[eaReg as int := addr];
    } else {
      var addr := AddressingMethods.ResolveAddress(env, cpu, o.value, 12);
      addr := RestoreLoop(cpu, fpu, addr, regList, reversed);
    }
  }

  // ----- Control registers -----

  datatype Control = Control(fpcr: u32, fpsr: u32, fpiar: u32)

  /** -(An) writes FPIAR first and FPCR last, so that FPCR ends up lowest. */
  function SaveControl(mem: Memory, addr: u32, c: Control, sel: bv3): Saved {
    var s1 := if sel & 1 != 0 then PushLong(Saved(mem, addr), c.fpiar) else Saved(mem, addr);
    var s2 := if sel & 2 != 0 then PushLong(s1, c.fpsr) else s1;
    if sel & 4 != 0 then PushLong(s2, c.fpcr) else s2
  }

  function PushLong(s: Saved, v: u32): Saved {
    var addr: int := s.addr;
    Saved(Write(s.mem, Wrap(addr - 4), v, 4), Wrap(addr - 4))
  }

  datatype Loaded = Loaded(c: Control, addr: u32)

  function LoadControl(mem: Memory, addr: u32, c: Control, sel: bv3): Loaded {
    var l1 := if sel & 4 != 0 then Loaded(c.(fpcr := Read(mem, addr, 4)), Wrap(addr + 4)) else Loaded(c, addr);
    var l2 := if sel & 2 != 0 then Loaded(l1.c.(fpsr := Read(mem, l1.addr, 4)), Wrap(l1.addr + 4)) else l1;
    if sel & 1 != 0 then Loaded(l2.c.(fpiar := Read(mem, l2.addr, 4)), Wrap(l2.addr + 4)) else l2
  }

  method SaveControlPreDec(cpu: Cpu, fpu: Fpu, sel: bv3, reg: Reg)
    modifies cpu`A, cpu`mem
    ensures var r := old(SaveControl(cpu.mem, cpu.A[reg], Control(fpu.FPCR, fpu.FPSR, fpu.FPIAR), sel));
            cpu.mem == r.mem && cpu.A == old(cpu.A)[reg := r.addr]
  {
    hide Write, Wrap;
    var addr: int := cpu.A[reg];
    if sel & 1 != 0 {
      addr := Wrap(addr - 4);
      cpu.mem := Write(cpu.mem, addr, fpu.FPIAR, 4);
    }
    if sel & 2 != 0 {
      addr := Wrap(addr - 4);
      cpu.mem := Write(cpu.mem, addr, fpu.FPSR, 4);
    }
    if sel & 4 != 0 {
      addr := Wrap(addr - 4);
      cpu.mem := Write(cpu.mem, addr, fpu.FPCR, 4);
    }
    cpu.A := cpu.A[reg := addr];
  }

  method LoadControlPostInc(cpu: Cpu, fpu: Fpu, sel: bv3, reg: Reg)
    modifies cpu`A, fpu`FPCR, fpu`FPSR, fpu`FPIAR
    ensures var r := old(LoadControl(cpu.mem, cpu.A[reg], Control(fpu.FPCR, fpu.FPSR, fpu.FPIAR), sel));
            Control(fpu.FPCR, fpu.FPSR, fpu.FPIAR) == r.c && cpu.A == old(cpu.A)[reg := r.addr]
  {
    hide Read, Wrap;
    var addr: int := cpu.A[reg];
    if sel & 4 != 0 {
      fpu.FPCR := Read(cpu.mem, addr, 4);
      addr := Wrap(addr + 4);
    }
    if sel & 2 != 0 {
      fpu.FPSR := Read(cpu.mem, addr, 4);
      addr := Wrap(addr + 4);
    }
    if sel & 1 != 0 {
      fpu.FPIAR := Read(cpu.mem, addr, 4);
      addr := Wrap(addr + 4);
    }
    cpu.A := cpu.A[reg := addr];
  }

  // ----- FSAVE and FRESTORE -----

  const FRAME_SIZE := 60
  const FRAME_HEADER: u32 := 0x1F38_0000

  /** The frame up to offset n: the header, then zeros. */
  function Frame(mem: Memory, addr: u32, n: nat): Memory
    requires 4 <= n
  {
    if n < 8 then Write(mem, addr, FRAME_HEADER, 4) else Write(Frame(mem, addr, n - 4), Wrap(addr + n - 4), 0, 4)
  }

  method FSavePreDec(cpu: Cpu, reg: Reg)
    modifies cpu`A, cpu`mem
    ensures var addr := Wrap(old(cpu.A)[reg] - FRAME_SIZE);
            cpu.A == old(cpu.A)[reg := addr] && cpu.mem == Frame(old(cpu.mem), addr, FRAME_SIZE)
  {
    hide Write, Wrap;
    var addr: int := Wrap(cpu.A[reg] - FRAME_SIZE);
    cpu.A := cpu.A[reg := addr];
    cpu.mem := Write(cpu.mem, addr, FRAME_HEADER, 4);
    var i := 4;
    while i < FRAME_SIZE
      invariant 4 <= i <= FRAME_SIZE && i % 4 == 0 && cpu.A == old(cpu.A)[reg := addr]
      invariant cpu.mem == Frame(old(cpu.mem), addr, i)
    {
      cpu.mem := Write(cpu.mem, Wrap(addr + i), 0, 4);
      i := i + 4;
    }
  }

  /** A frame whose version byte is zero resets the FPU; any other frame is skipped. */
  method FRestorePostInc(cpu: Cpu, fpu: Fpu, reg: Reg)
    modifies cpu`A, fpu
    ensures var header := old(ReadLong(cpu.mem, cpu.A[reg]));
            var version, size := header / 0x100_0000, header / 0x1_0000 % 0x100;
            && cpu.A == old(cpu.A)[reg := Wrap(old(cpu.A)[reg] + 4 + if version == 0 then 0 else size)]
            && (version == 0 ==> fpu.IsReset())
            && (version != 0 ==> fpu.FP == old(fpu.FP) && fpu.FPCR == old(fpu.FPCR)
                                 && fpu.FPSR == old(fpu.FPSR) && fpu.FPIAR == old(fpu.FPIAR))
  {
    hide ReadLong, Wrap;
    var addr: int := cpu.A[reg];
    var header := ReadLong(cpu.mem, addr);
    var version := header / 0x100_0000;
    var fsize := header / 0x1_0000 % 0x100;
    if version == 0 {
      fpu.Reset();
      cpu.A := cpu.A[reg := Wrap(addr + 4)];
    } else {
      cpu.A := cpu.A[reg := Wrap(addr + 4 + fsize)];
    }
  }
}
