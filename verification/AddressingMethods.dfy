/** Operand addressing on the processor object, as the emulator performs it: registers and PC change in place. */
module AddressingMethods {
  import opened Machine
  import opened EffectiveAddress
  import opened Processor

  method FetchWord(env: Env, cpu: Cpu) returns (w: bv16)
    modifies cpu`pc
    ensures Fetched(w, cpu.Now()) == old(EffectiveAddress.FetchWord(env, cpu.Now()))
  {
    w := env.code(cpu.pc);
    cpu.pc := Wrap(cpu.pc + 2);
  }

  method FetchLong(env: Env, cpu: Cpu) returns (v: u32)
    modifies cpu`pc
    ensures Got(v, cpu.Now()) == old(EffectiveAddress.FetchLong(env, cpu.Now()))
  {
    var hi := FetchWord(env, cpu);
    var lo := FetchWord(env, cpu);
    v := (hi as int) * 0x1_0000 + (lo as int);
  }

  /** A displacement whose presence and width are selected by a two-bit field. */
  method FetchDisplacement(env: Env, cpu: Cpu, width: bv16) returns (v: u32)
    modifies cpu`pc
    ensures Got(v, cpu.Now()) == old(EffectiveAddress.FetchDisplacement(env, cpu.Now(), width))
  {
    v := 0;
    if width == 2 {
      var w := FetchWord(env, cpu);
      v := Wrap(Disp16(w));
    } else if width == 3 {
      v := FetchLong(env, cpu);
    }
  }

  method ResolveIndexed(env: Env, cpu: Cpu, base: u32) returns (addr: u32)
    modifies cpu`pc
    ensures Got(addr, cpu.Now()) == old(EffectiveAddress.ResolveIndexed(env, cpu.Now(), base))
  {
    hide Wrap, Disp8, Disp16, IndexValue, ReadLong, EffectiveAddress.FetchDisplacement;
    ghost var s := cpu.Now();
    var ext := FetchWord(env, cpu);
    var index := IndexValue(cpu.Now(), ext);
    SameIndex(s, cpu.Now(), ext);
    if ext & 0x0100 == 0 {
      addr := Wrap(base + Disp8(ext) + index);
      return;
    }
    var bd := FetchDisplacement(env, cpu, (ext >> 4) & 3);
    var b := if ext & 0x0080 != 0 then 0 else base;
    var idx := if ext & 0x0040 != 0 then 0 else index;
    var iis := ext & 7;
    if iis == 0 {
      addr := Wrap(b + bd + idx);
    } else if iis & 4 == 0 {
      var intermediate: int := ReadLong(cpu.mem, Wrap(b + bd + idx));
      var od := FetchDisplacement(env, cpu, iis & 3);
      addr := Wrap(intermediate + od);
    } else {
      var intermediate: int := ReadLong(cpu.mem, Wrap(b + bd));
      var od := FetchDisplacement(env, cpu, iis & 3);
      addr := Wrap(intermediate + idx + od);
    }
  }

  lemma SameIndex(s: State, t: State, ext: bv16)
    requires s.D == t.D && s.A == t.A
    ensures IndexValue(s, ext) == IndexValue(t, ext)
  {
  }

  method ResolveAddress(env: Env, cpu: Cpu, o: Operand, size: nat) returns (addr: u32)
    modifies cpu`pc, cpu`A
    ensures Got(addr, cpu.Now()) == old(EffectiveAddress.ResolveAddress(env, cpu.Now(), o, size))
  {
    hide Wrap, Disp16, EffectiveAddress.ResolveIndexed;
    addr := 0;
    match o.mode
    case Indirect =>
      addr := cpu.A[o.reg];
    case PostInc =>
      addr := cpu.A[o.reg];
      cpu.A := cpu.A[o.reg := Wrap(cpu.A[o.reg] + StepSize(o.reg, size))];
    case PreDec =>
      cpu.A := cpu.A[o.reg := Wrap(cpu.A[o.reg] - StepSize(o.reg, size))];
      addr := cpu.A[o.reg];
    case Disp =>
      var w := FetchWord(env, cpu);
      addr := Wrap(cpu.A[o.reg] + Disp16(w));
    case Index =>
      addr := ResolveIndexed(env, cpu, cpu.A[o.reg]);
    case AbsShort =>
      var w := FetchWord(env, cpu);
      addr := Wrap(Disp16(w));
    case AbsLong =>
      addr := FetchLong(env, cpu);
    case PcDisp =>
      var pc := cpu.pc;
      var w := FetchWord(env, cpu);
      addr := Wrap(pc + Disp16(w));
    case PcIndex =>
      addr := ResolveIndexed(env, cpu, cpu.pc);
    case _ =>
  }

  method ReadValue(env: Env, cpu: Cpu, o: Operand, n: Size) returns (v: u32)
    modifies cpu`pc, cpu`A
    ensures Got(v, cpu.Now()) == old(EffectiveAddress.ReadValue(env, cpu.Now(), o, n))
  {
    hide Read, Low, EffectiveAddress.ResolveAddress;
    if o.mode == DataReg {
      v := Low(cpu.D[o.reg], n);
    } else if o.mode == AddrReg {
      v := if n == 2 then Low(cpu.A[o.reg], 2) else cpu.A[o.reg];
    } else if o.mode == Immediate {
      if n == 4 {
        v := FetchLong(env, cpu);
      } else {
        var w := FetchWord(env, cpu);
        v := Low(w as int, n);
      }
    } else {
      var addr := ResolveAddress(env, cpu, o, n);
      v := Read(cpu.mem, addr, n);
    }
  }

  /** The resolved address is kept for the write that follows. */
  method ReadValueForModify(env: Env, cpu: Cpu, o: Operand, n: Size) returns (v: u32)
    modifies cpu`pc, cpu`A, cpu`rmwAddress
    ensures var m := old(ReadForModify(env, cpu.Now(), o, n));
            && v == m.value && cpu.Now() == m.s
            && cpu.rmwAddress == if o.mode == DataReg || o.mode == AddrReg then old(cpu.rmwAddress) else m.addr
  {
    hide Read, Low, EffectiveAddress.ResolveAddress;
    if o.mode == DataReg {
      v := Low(cpu.D[o.reg], n);
    } else if o.mode == AddrReg {
      v := if n == 2 then Low(cpu.A[o.reg], 2) else cpu.A[o.reg];
    } else {
      cpu.rmwAddress := ResolveAddress(env, cpu, o, n);
      v := Read(cpu.mem, cpu.rmwAddress, n);
    }
  }

  method WriteValueFromModify(cpu: Cpu, o: Operand, n: Size, v: u32)
    modifies cpu`D, cpu`A, cpu`mem
    ensures cpu.Now() == old(WriteFromModify(cpu.Now(), o, cpu.rmwAddress, n, v))
  {
    if o.mode == DataReg {
      cpu.D := cpu.D[o.reg := Merge(cpu.D[o.reg], v, n)];
    } else if o.mode == AddrReg {
      cpu.A := cpu.A[o.reg := if n == 2 then SignExtend(v, 2) else v];
    } else {
      cpu.mem := Write(cpu.mem, cpu.rmwAddress, v, n);
    }
  }

  method WriteValue(env: Env, cpu: Cpu, o: Operand, n: Size, v: u32)
    modifies cpu`pc, cpu`D, cpu`A, cpu`mem
    ensures cpu.Now() == old(EffectiveAddress.WriteValue(env, cpu.Now(), o, n, v))
  {
    hide Write, Merge, SignExtend, EffectiveAddress.ResolveAddress;
    if o.mode == DataReg {
      cpu.D := cpu.D[o.reg := Merge(cpu.D[o.reg], v, n)];
    } else if o.mode == AddrReg {
      cpu.A := cpu.A[o.reg := if n == 2 then SignExtend(v, 2) else v];
    } else {
      var addr := ResolveAddress(env, cpu, o, n);
      cpu.mem := Write(cpu.mem, addr, v, n);
    }
  }
}
