/**
  The block compiler: classification of opcodes, the forward scan that delimits a basic block, the
  backward pass that decides which operations must keep their flags, and operation construction.
*/
module JitCompile {
  import opened Machine
  import opened Bits
  import opened Interpreter
  import opened JitBlock

  const MAX_BLOCK_LENGTH := 64

  // ----- Classification -----

  /** The top four opcode bits of every instruction of a kind. */
  function GroupOf(k: Kind): bv16 {
    match k
    case Moveq => 0x7000
    case MoveDnDm | MoveAnDn | MoveaDnAn | MoveaAnAm | LoadInd | LoadPostInc | StoreInd | LoadD16 | StoreD16 => 0x2000
    case Arith(isAdd, _) => if isAdd then 0xD000 else 0x9000
    case Cmp(_) => 0xB000
    case Logical(l, _) => if l == And then 0xC000 else if l == Or then 0x8000 else 0xB000
    case Bcc(_) | Bra(_) => 0x6000
    case QuickDn(_, _) | QuickAn(_) => 0x5000
    case LeftShift(_) | Asr | Lsr => 0xE000
    case ExgDnDm | ExgAnAm | ExgDnAn | Mulu | Muls => 0xC000
    case Btst => 0x0000
    case Nop | Rts | Clr(_) | Tst(_) | SwapDn | ExtW | ExtL | ExtbL | Neg(_) | Not(_) | LeaAn | LeaD16 | LeaIndex => 0x4000
  }

  function ClassifyMove(op: bv16): (k: Option<Kind>)
    ensures k.Some? ==> GroupOf(k.value) == 0x2000
  {
    var src, dst := EaMode(op), OpMode(op);
    if src == 0 && dst == 0 then Some(MoveDnDm)
    else if src == 1 && dst == 0 then Some(MoveAnDn)
    else if src == 0 && dst == 1 then Some(MoveaDnAn)
    else if src == 1 && dst == 1 then Some(MoveaAnAm)
    else if src == 2 && dst == 0 then Some(LoadInd)
    else if src == 3 && dst == 0 then Some(LoadPostInc)
    else if src == 0 && dst == 2 then Some(StoreInd)
    else if src == 5 && dst == 0 then Some(LoadD16)
    else if src == 0 && dst == 5 then Some(StoreD16)
    else None
  }

  function ClassifyGroup4(op: bv16): (k: Option<Kind>)
    ensures k.Some? ==> GroupOf(k.value) == 0x4000
  {
    var dn, sz := EaMode(op) == 0, SizeField(op);
    if op & 0xF1C0 == 0x41C0 && EaMode(op) == 2 then Some(LeaAn)
    else if op & 0xF1C0 == 0x41C0 && EaMode(op) == 5 then Some(LeaD16)
    else if op & 0xF1C0 == 0x41C0 && EaMode(op) == 6 then Some(LeaIndex)
    else if op & 0xFF00 == 0x4200 && dn && sz != 3 then Some(Clr(Size2(op)))
    else if op & 0xFF00 == 0x4A00 && dn && sz != 3 then Some(Tst(Size2(op)))
    else if op & 0xFFF8 == 0x4840 then Some(SwapDn)
    else if op & 0xFFF8 == 0x4880 then Some(ExtW)
    else if op & 0xFFF8 == 0x48C0 then Some(ExtL)
    else if op & 0xFFF8 == 0x49C0 then Some(ExtbL)
    else if op & 0xFF00 == 0x4400 && dn && sz != 3 then Some(Neg(Size2(op)))
    else if op & 0xFF00 == 0x4600 && dn && sz != 3 then Some(Not(Size2(op)))
    else None
  }

  /** Dn-to-Dn arithmetic: the operation mode is 0, 1 or 2 for byte, word and long. */
  predicate ToDn(op: bv16) {
    EaMode(op) == 0 && OpMode(op) <= 2
  }

  function ClassifyGroupC(op: bv16): (k: Option<Kind>)
    ensures k.Some? ==> GroupOf(k.value) == 0xC000
  {
    var om, ea := OpMode(op), EaMode(op);
    if ToDn(op) then Some(Logical(And, OpModeSize(om)))
    else if om == 3 && ea == 0 then Some(Mulu)
    else if om == 7 && ea == 0 then Some(Muls)
    else if om == 5 && ea == 0 then Some(ExgDnDm)
    else if om == 5 && ea == 1 then Some(ExgAnAm)
    else if om == 6 && ea == 1 then Some(ExgDnAn)
    else None
  }

  function ClassifyQuick(op: bv16): (k: Option<Kind>)
    ensures k.Some? ==> GroupOf(k.value) == 0x5000
  {
    if SizeField(op) == 3 then None
    else if EaMode(op) == 0 then Some(QuickDn(op & 0x0100 == 0, Size2(op)))
    else if EaMode(op) == 1 then Some(QuickAn(op & 0x0100 == 0))
    else None
  }

  function ClassifyShift(op: bv16): (k: Option<Kind>)
    ensures k.Some? ==> GroupOf(k.value) == 0xE000
  {
    if SizeField(op) != 2 || op & 0x0020 != 0 then None
    else
      var kind := (op >> 3) & 3;
      if kind > 1 then None
      else if op & 0x0100 != 0 then Some(LeftShift(kind == 0))
      else if kind == 0 then Some(Asr)
      else Some(Lsr)
  }

  function ClassifyBranch(op: bv16): (k: Option<Kind>)
    ensures k.Some? ==> GroupOf(k.value) == 0x6000
  {
    if Cond(op) == 1 || op & 0xFF == 0xFF then None
    else if Cond(op) == 0 then Some(Bra(op & 0xFF == 0))
    else Some(Bcc(op & 0xFF == 0))
  }

  function Classify(op: bv16): (k: Option<Kind>)
    ensures k.Some? ==> op & 0xF000 == GroupOf(k.value)
  {
    if op == 0x4E71 then Some(Nop)
    else if op == 0x4E75 then Some(Rts)
    else
      var g := op & 0xF000;
      if g == 0x7000 then (if op & 0x0100 == 0 then Some(Moveq) else None)
      else if g == 0x2000 then ClassifyMove(op)
      else if g == 0x0000 then (if op & 0x01C0 == 0x0100 && EaMode(op) == 0 then Some(Btst) else None)
      else if g == 0x4000 then ClassifyGroup4(op)
      else if g == 0xD000 then (if ToDn(op) then Some(Arith(true, OpModeSize(OpMode(op)))) else None)
      else if g == 0x9000 then (if ToDn(op) then Some(Arith(false, OpModeSize(OpMode(op)))) else None)
      else if g == 0xB000 then
        (if ToDn(op) then Some(Cmp(OpModeSize(OpMode(op))))
         else if EaMode(op) == 0 && 4 <= OpMode(op) <= 6 then Some(Logical(Eor, OpModeSize(OpMode(op))))
         else None)
      else if g == 0xC000 then ClassifyGroupC(op)
      else if g == 0x8000 then (if ToDn(op) then Some(Logical(Or, OpModeSize(OpMode(op)))) else None)
      else if g == 0x5000 then ClassifyQuick(op)
      else if g == 0xE000 then ClassifyShift(op)
      else if g == 0x6000 then ClassifyBranch(op)
      else None
  }

  // ----- Forward scan -----

  datatype Insn = Insn(opcode: bv16, ext: bv16, kind: Kind, len: nat)

  predicate TwoWords(k: Kind) {
    k.LeaD16? || k.LeaIndex? || (k.IsBranch() && k.wide) || k.LoadD16? || k.StoreD16?
  }

  /** Where a branch at byte offset total leads; displacements count from the end of the opcode word. */
  function ScannedTarget(startPC: u32, total: nat, opcode: bv16, ext: bv16, k: Kind): u32
    requires k.IsBranch()
  {
    var pcAfterFetch := Wrap(startPC + total + 2);
    Wrap(pcAfterFetch + (if k.wide then Disp16(ext) else Disp8(opcode)))
  }

  /** The instruction at physical address pa, unless it is unreadable or cannot be compiled. */
  function ScanOne(read: u32 -> Option<bv16>, pa: u32): Option<Insn> {
    match read(pa)
    case None => None
    case Some(opcode) =>
      match Classify(opcode)
      case None => None
      case Some(kind) =>
        if !TwoWords(kind) then Some(Insn(opcode, 0, kind, 2))
        else
          match read(Wrap(pa + 2))
          case None => None
          case Some(ext) =>
            if kind.LeaIndex? && ext & 0x0100 != 0 then None
            else Some(Insn(opcode, ext, kind, 4))
  }

  /** The basic block from pa on; a branch that does not go forward ends the block before itself. */
  function Scan(read: u32 -> Option<bv16>, startPC: u32, pa: u32, total: nat, room: nat): (r: seq<Insn>)
    ensures |r| <= room
    decreases room
  {
    if room == 0 then []
    else
      match ScanOne(read, pa)
      case None => []
      case Some(insn) =>
        if insn.kind.Rts? then [insn]
        else if insn.kind.IsBranch() then
          if ScannedTarget(startPC, total, insn.opcode, insn.ext, insn.kind) <= startPC then [] else [insn]
        else [insn] + Scan(read, startPC, Wrap(pa + insn.len), total + insn.len, room - 1)
  }

  function ByteLength(insns: seq<Insn>): nat {
    if insns == [] then 0 else insns[0].len + ByteLength(insns[1..])
  }

  // ----- Dead-flag elimination -----

  /** Operations that neither read nor write condition codes. */
  predicate Transparent(k: Kind) {
    k.Nop? || k.QuickAn? || k.MoveaDnAn? || k.MoveaAnAm? || k.ExgDnDm? || k.ExgAnAm? || k.ExgDnAn?
    || k.LeaAn? || k.LeaD16? || k.LeaIndex? || k.StoreInd? || k.StoreD16? || k.Rts?
  }

  /** needs[i] is the needsFlags bit of instruction i; live says whether flags matter before the first. */
  datatype Liveness = Liveness(needs: seq<bool>, live: bool)

  function LiveStep(k: Kind, after: bool): Liveness {
    if k.IsBranch() then Liveness([false], k.Bcc?)
    else if Transparent(k) then Liveness([false], after)
    else if k.Btst? then Liveness([after], after)
    else Liveness([after], false)
  }

  function FlagLiveness(insns: seq<Insn>): (r: Liveness)
    ensures |r.needs| == |insns|
  {
    if insns == [] then Liveness([], true)
    else
      var rest := FlagLiveness(insns[1..]);
      var here := LiveStep(insns[0].kind, rest.live);
      Liveness(here.needs + rest.needs, here.live)
  }

  // ----- Operation construction -----

  function Plain(k: Kind, needs: bool, instrPC: u32): JitOp {
    JitOp(k, 0, 0, needs, 0, 0, 0, 0, 0, 0, instrPC)
  }

  function IndexFlags(ext: bv16): bv8 {
    (if ext & 0x8000 != 0 then 1 else 0)
    | ((((ext >> 9) & 3) << 1) as bv8)
    | (if ext & 0x0800 != 0 then 8 else 0)
  }

  /** The operation for an instruction that starts at instrPC. */
  function BuildOp(insn: Insn, instrPC: u32, needs: bool): JitOp {
    var o := Plain(insn.kind, needs, instrPC);
    var pc := Wrap(instrPC + insn.len);
    var hi, lo := Reg9(insn.opcode), Reg0(insn.opcode);
    match insn.kind
    case Moveq => o.(dst := hi, imm := Disp8(insn.opcode))
    case MoveDnDm | Arith(_, _) | Cmp(_) | MoveAnDn | MoveaDnAn | MoveaAnAm | LeaAn | Mulu | Muls
      | LoadInd | LoadPostInc | StoreInd => o.(src := lo, dst := hi)
    case Logical(l, _) => if l == Eor then o.(src := hi, dst := lo) else o.(src := lo, dst := hi)
    case QuickDn(_, _) | QuickAn(_) | LeftShift(_) | Asr | Lsr => o.(dst := lo, imm := Quick(insn.opcode))
    case Clr(_) | Tst(_) | SwapDn | ExtW | ExtL | ExtbL | Neg(_) | Not(_) => o.(dst := lo)
    case ExgDnDm | ExgAnAm | ExgDnAn | Btst => o.(src := hi, dst := lo)
    case Bra(wide) =>
      o.(target := if wide then Wrap(Wrap(pc - 2) + Disp16(insn.ext)) else Wrap(pc + Disp8(insn.opcode)))
    case Bcc(wide) =>
      o.(cond := Cond(insn.opcode), fallthrough := pc,
         target := if wide then Wrap(Wrap(pc - 2) + Disp16(insn.ext)) else Wrap(pc + Disp8(insn.opcode)))
    case LeaD16 | LoadD16 | StoreD16 => o.(src := lo, dst := hi, imm := Disp16(insn.ext))
    case LeaIndex =>
      o.(src := lo, dst := hi, imm := Disp8(insn.ext), index := Bits14to12(insn.ext) as int, aux := IndexFlags(insn.ext))
    case Nop | Rts => o
  }

  function BuildOps(insns: seq<Insn>, needs: seq<bool>, pc: u32): (r: seq<JitOp>)
    requires |needs| == |insns|
    ensures |r| == |insns|
  {
    if insns == [] then []
    else [BuildOp(insns[0], pc, needs[0])] + BuildOps(insns[1..], needs[1..], Wrap(pc + insns[0].len))
  }

  /** Cycle sums of all prefixes, starting from acc. */
  function Cumulative(insns: seq<Insn>, cycles: bv16 -> nat, acc: nat): (r: seq<nat>)
    ensures |r| == |insns| + 1
  {
    if insns == [] then [acc] else [acc] + Cumulative(insns[1..], cycles, acc + cycles(insns[0].opcode))
  }

  predicate AllRegister(ops: seq<JitOp>) {
    forall i :: 0 <= i < |ops| ==> !ops[i].kind.TouchesMemory()
  }

  function BuildBlock(insns: seq<Insn>, startPC: u32, startPA: u32, cycles: bv16 -> nat): (b: Block)
    ensures b.Shaped() && |b.ops| == |insns|
  {
    var ops := BuildOps(insns, FlagLiveness(insns).needs, startPC);
    var cum := Cumulative(insns, cycles, 0);
    Block(startPA, |insns|, cum[|insns|], ByteLength(insns), Wrap(startPC + ByteLength(insns)), ops, cum, AllRegister(ops))
  }

  function Compile(read: u32 -> Option<bv16>, startPC: u32, startPA: u32, cycles: bv16 -> nat): Option<Block> {
    var insns := Scan(read, startPC, startPA, 0, MAX_BLOCK_LENGTH);
    if insns == [] then None else Some(BuildBlock(insns, startPC, startPA, cycles))
  }
}
