/**
  Operand addressing: decoding of the mode and register fields, address resolution, and reading and
  writing of operands through an effective address.
*/
module EffectiveAddress {
  import opened Machine

  /** The instruction word stored at every virtual address of the program. */
  datatype Env = Env(code: u32 -> bv16)

  datatype Mode =
    | DataReg
    | AddrReg
    | Indirect
    | PostInc
    | PreDec
    | Disp
    | Index
    | AbsShort
    | AbsLong
    | PcDisp
    | PcIndex
    | Immediate

  datatype Operand = Operand(mode: Mode, reg: Reg)

  /** Invalid encodings make the emulator throw. */
  function Decode(mode: bv3, reg: bv3): Option<Operand> {
    if mode == 0 then Some(Operand(DataReg, reg as int))
    else if mode == 1 then Some(Operand(AddrReg, reg as int))
    else if mode == 2 then Some(Operand(Indirect, reg as int))
    else if mode == 3 then Some(Operand(PostInc, reg as int))
    else if mode == 4 then Some(Operand(PreDec, reg as int))
    else if mode == 5 then Some(Operand(Disp, reg as int))
    else if mode == 6 then Some(Operand(Index, reg as int))
    else if reg == 0 then Some(Operand(AbsShort, 0))
    else if reg == 1 then Some(Operand(AbsLong, 0))
    else if reg == 2 then Some(Operand(PcDisp, 0))
    else if reg == 3 then Some(Operand(PcIndex, 0))
    else if reg == 4 then Some(Operand(Immediate, 0))
    else None
  }

  // ----- Instruction stream -----

  datatype Fetched = Fetched(word: bv16, s: State)

  function FetchWord(env: Env, s: State): Fetched {
    Fetched(env.code(s.pc), s.(pc := Wrap(s.pc + 2)))
  }

  /** An address or an operand value, with the state left behind by computing it. */
  datatype Got = Got(value: u32, s: State)

  function FetchLong(env: Env, s: State): Got {
    var hi := FetchWord(env, s);
    var lo := FetchWord(env, hi.s);
    Got((hi.word as int) * 0x1_0000 + (lo.word as int), lo.s)
  }

  // ----- Addresses -----

  /** Step of post-increment and pre-decrement: the stack pointer stays word aligned. */
  function StepSize(reg: Reg, size: nat): nat {
    if reg == 7 && size == 1 then 2 else size
  }

  function Scale(ext: bv16): int {
    var f := (ext >> 9) & 3;
    if f == 0 then 1 else if f == 1 then 2 else if f == 2 then 4 else 8
  }

  function IndexValue(s: State, ext: bv16): int {
    var r := Bits14to12(ext) as int;
    var v := if ext & 0x8000 != 0 then s.A[r] else s.D[r];
    (if ext & 0x0800 != 0 then Signed(v, 4) else Signed(Low(v, 2), 2)) * Scale(ext)
  }

  /** A displacement whose presence and width are selected by a two-bit field. */
  function FetchDisplacement(env: Env, s: State, width: bv16): Got {
    if width == 2 then
      var f := FetchWord(env, s);
      Got(Wrap(Disp16(f.word)), f.s)
    else if width == 3 then FetchLong(env, s)
    else Got(0, s)
  }

  function ResolveIndexed(env: Env, s: State, base: u32): Got {
    var f := FetchWord(env, s);
    var index := IndexValue(s, f.word);
    if f.word & 0x0100 == 0 then
      Got(Wrap(base + Disp8(f.word) + index), f.s)
    else
      var bd := FetchDisplacement(env, f.s, (f.word >> 4) & 3);
      var b := if f.word & 0x0080 != 0 then 0 else base;
      var idx := if f.word & 0x0040 != 0 then 0 else index;
      var iis := f.word & 7;
      if iis == 0 then Got(Wrap(b + bd.value + idx), bd.s)
      else if iis & 4 == 0 then
        var at := ReadLong(s.mem, Wrap(b + bd.value + idx));
        var od := FetchDisplacement(env, bd.s, iis & 3);
        Got(Wrap(at + od.value), od.s)
      else
        var at := ReadLong(s.mem, Wrap(b + bd.value));
        var od := FetchDisplacement(env, bd.s, iis & 3);
        Got(Wrap(at + idx + od.value), od.s)
  }

  function ResolveAddress(env: Env, s: State, o: Operand, size: nat): Got {
    match o.mode
    case Indirect => Got(s.A[o.reg], s)
    case PostInc => Got(s.A[o.reg], s.(A := s.A[o.reg := Wrap(s.A[o.reg] + StepSize(o.reg, size))]))
    case PreDec =>
      var a := Wrap(s.A[o.reg] - StepSize(o.reg, size));
      Got(a, s.(A := s.A[o.reg := a]))
    case Disp =>
      var f := FetchWord(env, s);
      Got(Wrap(s.A[o.reg] + Disp16(f.word)), f.s)
    case Index => ResolveIndexed(env, s, s.A[o.reg])
    case AbsShort =>
      var f := FetchWord(env, s);
      Got(Wrap(Disp16(f.word)), f.s)
    case AbsLong => FetchLong(env, s)
    case PcDisp =>
      var f := FetchWord(env, s);
      Got(Wrap(s.pc + Disp16(f.word)), f.s)
    case PcIndex => ResolveIndexed(env, s, s.pc)
    case DataReg | AddrReg | Immediate => Got(0, s)
  }

  // ----- Operands -----

  function ReadValue(env: Env, s: State, o: Operand, n: Size): Got {
    match o.mode
    case DataReg => Got(Low(s.D[o.reg], n), s)
    case AddrReg => Got(if n == 2 then Low(s.A[o.reg], 2) else s.A[o.reg], s)
    case Immediate =>
      if n == 4 then FetchLong(env, s)
      else
        var f := FetchWord(env, s);
        Got(Low(f.word as int, n), f.s)
    case _ =>
      var a := ResolveAddress(env, s, o, n);
      Got(Read(a.s.mem, a.value, n), a.s)
  }

  /** Writing to an address register sign-extends a word. */
  function WriteRegister(s: State, o: Operand, n: Size, v: u32): State
    requires o.mode == DataReg || o.mode == AddrReg
  {
    if o.mode == DataReg then s.(D := s.D[o.reg := Merge(s.D[o.reg], v, n)])
    else s.(A := s.A[o.reg := if n == 2 then SignExtend(v, 2) else v])
  }

  function WriteValue(env: Env, s: State, o: Operand, n: Size, v: u32): State {
    if o.mode == DataReg || o.mode == AddrReg then WriteRegister(s, o, n, v)
    else
      var a := ResolveAddress(env, s, o, n);
      a.s.(mem := Write(a.s.mem, a.value, v, n))
  }

  /** A read-modify-write read remembers the address it resolved. */
  datatype Modify = Modify(value: u32, addr: u32, s: State)

  function ReadForModify(env: Env, s: State, o: Operand, n: Size): Modify {
    if o.mode == DataReg || o.mode == AddrReg then
      Modify(ReadValue(env, s, o, n).value, 0, s)
    else
      var a := ResolveAddress(env, s, o, n);
      Modify(Read(a.s.mem, a.value, n), a.value, a.s)
  }

  function WriteFromModify(s: State, o: Operand, addr: u32, n: Size, v: u32): State {
    if o.mode == DataReg || o.mode == AddrReg then WriteRegister(s, o, n, v)
    else s.(mem := Write(s.mem, addr, v, n))
  }
}
