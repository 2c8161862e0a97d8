/** Compiled basic blocks: pre-decoded operations and their execution. */
module JitBlock {
  import opened Machine
  import opened Bits
  import opened Alu
  import opened Interpreter

  /**
    What a compilable instruction does.  The byte, word and long variants of one operation differ
    only in their size argument, and the displacement width of a branch is its wide flag.
  */
  datatype Kind =
    | Moveq
    | MoveDnDm
    | Arith(isAdd: bool, size: Size)
    | Cmp(size: Size)
    | Logical(l: LogicOp, size: Size)
    | Bcc(wide: bool)
    | Bra(wide: bool)
    | Nop
    | QuickDn(isAdd: bool, size: Size)
    | QuickAn(isAdd: bool)
    | Clr(size: Size)
    | Tst(size: Size)
    | MoveAnDn
    | MoveaDnAn
    | MoveaAnAm
    | LeftShift(arithmetic: bool)
    | Asr
    | Lsr
    | ExgDnDm
    | ExgAnAm
    | ExgDnAn
    | SwapDn
    | ExtW
    | ExtL
    | ExtbL
    | Neg(size: Size)
    | Not(size: Size)
    | LeaAn
    | LeaD16
    | LeaIndex
    | Mulu
    | Muls
    | Btst
    | LoadInd
    | LoadPostInc
    | StoreInd
    | LoadD16
    | StoreD16
    | Rts
  {
    predicate IsBranch() { Bcc? || Bra? }
    predicate IsLoad() { LoadInd? || LoadPostInc? || LoadD16? }
    predicate IsStore() { StoreInd? || StoreD16? }
    predicate TouchesMemory() { IsLoad() || IsStore() || Rts? }
    predicate IsRegister() { !IsBranch() && !TouchesMemory() }
  }

  datatype JitOp = JitOp(
    kind: Kind,
    src: Reg,
    dst: Reg,
    needsFlags: bool,
    imm: int,
    cond: bv4,
    index: Reg,
    aux: bv8,          // bit 0: index is an address register, bits 2-1: scale, bit 3: long index
    target: u32,
    fallthrough: u32,
    instrPC: u32)

  datatype Block = Block(
    physicalAddress: u32,
    count: nat,
    totalCycles: nat,
    byteLength: nat,
    fallthroughPC: u32,
    ops: seq<JitOp>,
    cumulativeCycles: seq<nat>,   // entry i is the cycle sum of operations 0 .. i-1
    registerOnly: bool)
  {
    predicate Shaped() {
      |cumulativeCycles| == |ops| + 1
    }
  }

  // ----- Register operations -----

  /** Registers and condition codes, as far as a running block changes them. */
  datatype Regfile = Regfile(D: Regs, A: Regs, ccr: Ccr)

  function SetD(r: Regfile, i: Reg, v: u32, ccr: Ccr): Regfile {
    Regfile(r.D[i := v], r.A, ccr)
  }

  function SetA(r: Regfile, i: Reg, v: u32): Regfile {
    r.(A := r.A[i := v])
  }

  /** The low part of Dn is replaced; N and Z describe it, V and C are cleared, X is kept. */
  function SetLow(r: Regfile, i: Reg, v: u32, n: Size): Regfile {
    SetD(r, i, Merge(r.D[i], v, n), KeepX(r.ccr, Low(v, n), n))
  }

  function SetResult(r: Regfile, i: Reg, a: AluResult, n: Size): Regfile {
    SetD(r, i, Merge(r.D[i], a.result, n), a.ccr)
  }

  function IndexScale(aux: bv8): int {
    var f := (aux >> 1) & 3;
    if f == 0 then 1 else if f == 1 then 2 else if f == 2 then 4 else 8
  }

  /** Base plus displacement plus scaled index; the index is shifted as an unsigned word. */
  function IndexedAddress(op: JitOp, r: Regfile): u32 {
    var raw := if op.aux & 1 != 0 then r.A[op.index] else r.D[op.index];
    var idx := if op.aux & 8 != 0 then raw else SignExtend(raw, 2);
    Wrap(r.A[op.src] + Wrap(idx * IndexScale(op.aux)) + op.imm)
  }

  /** One register operation with its flags, whether or not the operation is asked to keep them. */
  function Apply(op: JitOp, r: Regfile): Regfile {
    match op.kind
    case Moveq => SetLow(r, op.dst, Wrap(op.imm), 4)
    case MoveDnDm => SetLow(r, op.dst, r.D[op.src], 4)
    case Arith(isAdd, n) =>
      SetResult(r, op.dst, AddOrSub(isAdd, Low(r.D[op.dst], n), Low(r.D[op.src], n), r.ccr, n), n)
    case Cmp(n) =>
      r.(ccr := Sub(Low(r.D[op.dst], n), Low(r.D[op.src], n), r.ccr, n).ccr.(x := r.ccr.x))
    case Logical(l, n) =>
      SetLow(r, op.dst, LogicN(l, Low(r.D[op.dst], n), Low(r.D[op.src], n), n), n)
    case QuickDn(isAdd, n) =>
      SetResult(r, op.dst, AddOrSub(isAdd, Low(r.D[op.dst], n), Low(Wrap(op.imm), n), r.ccr, n), n)
    case QuickAn(isAdd) =>
      SetA(r, op.dst, if isAdd then Wrap(r.A[op.dst] + op.imm) else Wrap(r.A[op.dst] - op.imm))
    case Clr(n) => SetLow(r, op.dst, 0, n)
    case Tst(n) => r.(ccr := KeepX(r.ccr, Low(r.D[op.dst], n), n))
    case MoveAnDn => SetLow(r, op.dst, r.A[op.src], 4)
    case MoveaDnAn => SetA(r, op.dst, r.D[op.src])
    case MoveaAnAm => SetA(r, op.dst, r.A[op.src])
    case LeftShift(_) => SetResult(r, op.dst, ShiftLeft(r.D[op.dst], ShiftCount(op), 4), 4)
    case Asr => SetResult(r, op.dst, ArithShiftRight(r.D[op.dst], ShiftCount(op), 4), 4)
    case Lsr => SetResult(r, op.dst, LogicalShiftRight(r.D[op.dst], ShiftCount(op), 4), 4)
    case ExgDnDm => r.(D := r.D[op.src := r.D[op.dst]][op.dst := r.D[op.src]])
    case ExgAnAm => r.(A := r.A[op.src := r.A[op.dst]][op.dst := r.A[op.src]])
    case ExgDnAn => r.(D := r.D[op.src := r.A[op.dst]], A := r.A[op.dst := r.D[op.src]])
    case SwapDn => SetLow(r, op.dst, Swapped(r.D[op.dst]), 4)
    case ExtW => SetLow(r, op.dst, SignExtend(r.D[op.dst], 1), 2)
    case ExtL => SetLow(r, op.dst, SignExtend(r.D[op.dst], 2), 4)
    case ExtbL => SetLow(r, op.dst, SignExtend(r.D[op.dst], 1), 4)
    case Neg(n) => SetResult(r, op.dst, Sub(0, Low(r.D[op.dst], n), r.ccr, n), n)
    case Not(n) => SetLow(r, op.dst, Modulus(n) - 1 - Low(r.D[op.dst], n), n)
    case LeaAn => SetA(r, op.dst, r.A[op.src])
    case LeaD16 => SetA(r, op.dst, Wrap(r.A[op.src] + op.imm))
    case LeaIndex => SetA(r, op.dst, IndexedAddress(op, r))
    case Mulu => SetLow(r, op.dst, Wrap(Product(Low(r.D[op.dst], 2), Low(r.D[op.src], 2))), 4)
    case Muls =>
      SetLow(r, op.dst, Wrap(Product(Signed(Low(r.D[op.dst], 2), 2), Signed(Low(r.D[op.src], 2), 2))), 4)
    case Btst => r.(ccr := r.ccr.(z := !Bit(r.D[op.dst], r.D[op.src] % 32)))
    case _ => r
  }

  function ShiftCount(op: JitOp): nat {
    if op.imm < 0 then 0 else op.imm
  }

  /** CMP writes its flags unconditionally; every other operation only when they are needed. */
  predicate WritesFlags(op: JitOp) {
    op.needsFlags || op.kind.Cmp?
  }

  function Guarded(op: JitOp, before: Ccr, after: Ccr): Ccr {
    if WritesFlags(op) then after else before
  }

  function ApplyGuarded(op: JitOp, r: Regfile): Regfile {
    var t := Apply(op, r);
    t.(ccr := Guarded(op, r.ccr, t.ccr))
  }

  // ----- Memory operations -----

  /** The one-entry read cache: one page, and the physical memory behind it. The mask is size - 1. */
  datatype DataCache = DataCache(valid: bool, pageVA: u32, pagePA: u32, size: nat, phys: Memory)

  predicate Hit(c: DataCache, addr: u32): (h: bool)
    ensures h ==> c.size > 0
  {
    c.valid && c.size > 0 && addr - addr % c.size == c.pageVA && addr % c.size + 3 <= c.size - 1
  }

  function CachedLong(c: DataCache, addr: u32): u32
    requires c.size > 0
  {
    ReadLong(c.phys, Wrap(c.pagePA + addr % c.size))
  }

  function LoadAddress(op: JitOp, r: Regfile): u32 {
    if op.kind.LoadD16? then Wrap(r.A[op.src] + op.imm) else r.A[op.src]
  }

  /** A load whose value is known: Dm, the post-incremented An, and the flags of the value. */
  function Load(op: JitOp, r: Regfile, v: u32): Regfile {
    var addr: int := r.A[op.src];
    var a := if op.kind.LoadPostInc? then r.A[op.src := Wrap(addr + 4)] else r.A;
    Regfile(r.D[op.dst := v], a, KeepX(r.ccr, v, 4))
  }

  function LoadGuarded(op: JitOp, r: Regfile, v: u32): Regfile {
    var t := Load(op, r, v);
    t.(ccr := Guarded(op, r.ccr, t.ccr))
  }

  // ----- Execution -----

  datatype Exit = Exit(r: Regfile, nextPC: u32, executed: nat, cycles: nat)

  /** Leaving before operation i, which the interpreter has to run. */
  function Bail(b: Block, r: Regfile, i: nat): Exit
    requires b.Shaped() && i < |b.ops|
  {
    Exit(r, b.ops[i].instrPC, i, b.cumulativeCycles[i])
  }

  function ExecuteFrom(b: Block, c: DataCache, r: Regfile, i: nat): Exit
    requires b.Shaped() && i <= |b.ops|
    decreases |b.ops| - i
  {
    if i == |b.ops| then Exit(r, b.fallthroughPC, b.count, b.totalCycles)
    else
      var op := b.ops[i];
      if op.kind.Bcc? then
        Exit(r, if EvaluateCondition(op.cond, r.ccr) then op.target else op.fallthrough, b.count, b.totalCycles)
      else if op.kind.Bra? then Exit(r, op.target, b.count, b.totalCycles)
      else if op.kind.IsStore() then Bail(b, r, i)
      else if op.kind.IsLoad() then
        if Hit(c, LoadAddress(op, r)) then
          ExecuteFrom(b, c, LoadGuarded(op, r, CachedLong(c, LoadAddress(op, r))), i + 1)
        else Bail(b, r, i)
      else if op.kind.Rts? then
        if Hit(c, r.A[7]) then
          var sp: int := r.A[7];
          Exit(SetA(r, 7, Wrap(sp + 4)), CachedLong(c, sp), i + 1, b.cumulativeCycles[i + 1])
        else Bail(b, r, i)
      else ExecuteFrom(b, c, ApplyGuarded(op, r), i + 1)
  }

  function Execute(b: Block, c: DataCache, r: Regfile): Exit
    requires b.Shaped()
  {
    ExecuteFrom(b, c, r, 0)
  }
}
