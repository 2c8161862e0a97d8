/**
  Which opcodes the compiler accepts: an assembler for the compilable instructions, and why a scan
  stops where it does.
*/
module JitAssemble {
  import opened Machine
  import opened Bits
  import opened Interpreter
  import opened JitBlock
  import opened JitCompile
  import opened JitShape

  // ----- The assembler -----

  function SizeBits(n: Size): bv16 {
    if n == 1 then 0x0000 else if n == 2 then 0x0040 else 0x0080
  }

  function TwoFields(base: bv16, hi: bv16, lo: bv16): bv16 {
    base | (hi << 9) | lo
  }

  /**
    The opcode word of an instruction, from the register or count in bits 11 to 9, the register in bits
    2 to 0, and what else the kind needs: an immediate, a condition with a displacement, or a size.
  */
  function Assemble(k: Kind, hi: bv16, lo: bv16, data: bv16): bv16 {
    match k
    case Moveq => TwoFields(0x7000, hi, data)
    case MoveDnDm => TwoFields(0x2000, hi, lo)
    case MoveAnDn => TwoFields(0x2008, hi, lo)
    case MoveaDnAn => TwoFields(0x2040, hi, lo)
    case MoveaAnAm => TwoFields(0x2048, hi, lo)
    case LoadInd => TwoFields(0x2010, hi, lo)
    case LoadPostInc => TwoFields(0x2018, hi, lo)
    case LoadD16 => TwoFields(0x2028, hi, lo)
    case StoreInd => TwoFields(0x2080, hi, lo)
    case StoreD16 => TwoFields(0x2140, hi, lo)
    case Arith(isAdd, n) => TwoFields((if isAdd then 0xD000 else 0x9000) | SizeBits(n), hi, lo)
    case Cmp(n) => TwoFields(0xB000 | SizeBits(n), hi, lo)
    case Logical(l, n) =>
      TwoFields((match l case And => 0xC000 case Or => 0x8000 case Eor => 0xB100) | SizeBits(n), hi, lo)
    case Bcc(_) => 0x6000 | data
    case Bra(_) => 0x6000 | data
    case Nop => 0x4E71
    case Rts => 0x4E75
    case QuickDn(isAdd, n) => TwoFields((if isAdd then 0x5000 else 0x5100) | SizeBits(n), hi, lo)
    case QuickAn(isAdd) => TwoFields((if isAdd then 0x5008 else 0x5108) | data, hi, lo)
    case Clr(n) => 0x4200 | SizeBits(n) | lo
    case Tst(n) => 0x4A00 | SizeBits(n) | lo
    case Neg(n) => 0x4400 | SizeBits(n) | lo
    case Not(n) => 0x4600 | SizeBits(n) | lo
    case LeftShift(arithmetic) => TwoFields(if arithmetic then 0xE180 else 0xE188, hi, lo)
    case Asr => TwoFields(0xE080, hi, lo)
    case Lsr => TwoFields(0xE088, hi, lo)
    case ExgDnDm => TwoFields(0xC140, hi, lo)
    case ExgAnAm => TwoFields(0xC148, hi, lo)
    case ExgDnAn => TwoFields(0xC188, hi, lo)
    case SwapDn => 0x4840 | lo
    case ExtW => 0x4880 | lo
    case ExtL => 0x48C0 | lo
    case ExtbL => 0x49C0 | lo
    case LeaAn => TwoFields(0x41D0, hi, lo)
    case LeaD16 => TwoFields(0x41E8, hi, lo)
    case LeaIndex => TwoFields(0x41F0, hi, lo)
    case Mulu => TwoFields(0xC0C0, hi, lo)
    case Muls => TwoFields(0xC1C0, hi, lo)
    case Btst => TwoFields(0x0100, hi, lo)
  }

  /** A displacement byte that is neither the mark of a wide nor that of a 32-bit displacement, or zero for wide. */
  predicate BranchByte(b: bv16, wide: bool) {
    (wide <==> b == 0) && b <= 0xFE
  }

  predicate Encodable(k: Kind, hi: bv16, lo: bv16, data: bv16) {
    && hi <= 7 && lo <= 7
    && (k.Moveq? ==> data <= 0xFF)
    && (k.Bcc? ==> 0x0200 <= data <= 0x0FFF && BranchByte(data & 0xFF, k.wide))
    && (k.Bra? ==> BranchByte(data, k.wide))
    && (k.QuickAn? ==> data == 0x0000 || data == 0x0040 || data == 0x0080)
  }

  // ----- Every assembled instruction is accepted -----

  lemma ByGroup(op: bv16)
    ensures op & 0xF000 == 0x2000 ==> Classify(op) == ClassifyMove(op)
    ensures op & 0xF000 == 0x6000 ==> Classify(op) == ClassifyBranch(op)
    ensures op & 0xF000 == 0x4000 && op != 0x4E71 && op != 0x4E75 ==> Classify(op) == ClassifyGroup4(op)
  {
    hide ClassifyMove, ClassifyGroup4, ClassifyGroupC, ClassifyQuick, ClassifyShift, ClassifyBranch;
  }

  lemma AcceptsMove(k: Kind, hi: bv16, lo: bv16, data: bv16)
    requires Encodable(k, hi, lo, data) && (k.MoveDnDm? || k.MoveAnDn? || k.MoveaDnAn? || k.MoveaAnAm?)
    ensures Classify(Assemble(k, hi, lo, data)) == Some(k)
  {
    hide Classify;
    ByGroup(Assemble(k, hi, lo, data));
    InGroupMove(k, hi, lo, data);
    hide ClassifyMove, Assemble, Encodable;
  }

  lemma InGroupMove(k: Kind, hi: bv16, lo: bv16, data: bv16)
    requires Encodable(k, hi, lo, data) && (k.MoveDnDm? || k.MoveAnDn? || k.MoveaDnAn? || k.MoveaAnAm?)
    ensures var op := Assemble(k, hi, lo, data); op & 0xF000 == 0x2000 && ClassifyMove(op) == Some(k)
  {
    hide Classify;
  }

  lemma AcceptsMemory(k: Kind, hi: bv16, lo: bv16, data: bv16)
    requires Encodable(k, hi, lo, data) && (k.IsLoad() || k.IsStore())
    ensures Classify(Assemble(k, hi, lo, data)) == Some(k)
  {
    hide Classify;
    ByGroup(Assemble(k, hi, lo, data));
    InGroupMemory(k, hi, lo, data);
    hide ClassifyMove, Assemble, Encodable;
  }

  lemma InGroupMemory(k: Kind, hi: bv16, lo: bv16, data: bv16)
    requires Encodable(k, hi, lo, data) && (k.IsLoad() || k.IsStore())
    ensures var op := Assemble(k, hi, lo, data); op & 0xF000 == 0x2000 && ClassifyMove(op) == Some(k)
  {
    hide Classify, Assemble, Encodable, EaMode, OpMode;
    MemoryWord(k, hi, lo, data);
  }

  function MemoryBase(k: Kind): bv16 {
    if k.LoadInd? then 0x2010 else if k.LoadPostInc? then 0x2018 else if k.LoadD16? then 0x2028
    else if k.StoreInd? then 0x2080 else 0x2140
  }

  lemma MemoryAssembles(k: Kind, hi: bv16, lo: bv16, data: bv16)
    requires k.IsLoad() || k.IsStore()
    ensures Assemble(k, hi, lo, data) == TwoFields(MemoryBase(k), hi, lo)
  {
    hide TwoFields;
  }

  lemma MemoryModes(k: Kind)
    requires k.IsLoad() || k.IsStore()
    ensures var b := MemoryBase(k);
            && b & 0xF000 == 0x2000 && b & 0x0E07 == 0
            && EaMode(b) == (if k.LoadInd? then 2 else if k.LoadPostInc? then 3 else if k.LoadD16? then 5 else 0)
            && OpMode(b) == (if k.StoreInd? then 2 else if k.StoreD16? then 5 else 0)
  {
  }

  lemma MemoryWord(k: Kind, hi: bv16, lo: bv16, data: bv16)
    requires Encodable(k, hi, lo, data) && (k.IsLoad() || k.IsStore())
    ensures var op := Assemble(k, hi, lo, data);
            && op & 0xF000 == 0x2000
            && EaMode(op) == (if k.LoadInd? then 2 else if k.LoadPostInc? then 3 else if k.LoadD16? then 5 else 0)
            && OpMode(op) == (if k.StoreInd? then 2 else if k.StoreD16? then 5 else 0)
  {
    hide EaMode, OpMode, Assemble, MemoryBase, TwoFields;
    MemoryAssembles(k, hi, lo, data);
    MemoryModes(k);
    MoveModes(MemoryBase(k), hi, lo);
  }

  lemma MoveModes(base: bv16, hi: bv16, lo: bv16)
    requires base & 0x0E07 == 0 && hi <= 7 && lo <= 7
    ensures var op := TwoFields(base, hi, lo); op & 0xF000 == base & 0xF000 && EaMode(op) == EaMode(base) && OpMode(op) == OpMode(base)
  {
  }

  lemma AcceptsArith(k: Kind, hi: bv16, lo: bv16, data: bv16)
    requires Encodable(k, hi, lo, data) && (k.Arith?)
    ensures Classify(Assemble(k, hi, lo, data)) == Some(k)
  {
    hide ClassifyMove, ClassifyGroup4, ClassifyGroupC, ClassifyQuick, ClassifyShift, ClassifyBranch;
  }

  lemma AcceptsCmp(k: Kind, hi: bv16, lo: bv16, data: bv16)
    requires Encodable(k, hi, lo, data) && (k.Cmp?)
    ensures Classify(Assemble(k, hi, lo, data)) == Some(k)
  {
    hide ClassifyMove, ClassifyGroup4, ClassifyGroupC, ClassifyQuick, ClassifyShift, ClassifyBranch;
  }

  lemma AcceptsAnd(k: Kind, hi: bv16, lo: bv16, data: bv16)
    requires Encodable(k, hi, lo, data) && (k.Logical? && k.l == And)
    ensures Classify(Assemble(k, hi, lo, data)) == Some(k)
  {
    hide ClassifyMove, ClassifyGroup4, ClassifyQuick, ClassifyShift, ClassifyBranch;
  }

  lemma AcceptsOrEor(k: Kind, hi: bv16, lo: bv16, data: bv16)
    requires Encodable(k, hi, lo, data) && (k.Logical? && k.l != And)
    ensures Classify(Assemble(k, hi, lo, data)) == Some(k)
  {
    hide ClassifyMove, ClassifyGroup4, ClassifyGroupC, ClassifyQuick, ClassifyShift, ClassifyBranch;
  }

  lemma AcceptsUnary(k: Kind, hi: bv16, lo: bv16, data: bv16)
    requires Encodable(k, hi, lo, data) && (k.Clr? || k.Tst? || k.Neg? || k.Not?)
    ensures Classify(Assemble(k, hi, lo, data)) == Some(k)
  {
    hide Classify;
    ByGroup(Assemble(k, hi, lo, data));
    InGroupUnary(k, hi, lo, data);
    hide ClassifyGroup4, Assemble, Encodable;
  }

  lemma InGroupUnary(k: Kind, hi: bv16, lo: bv16, data: bv16)
    requires Encodable(k, hi, lo, data) && (k.Clr? || k.Tst? || k.Neg? || k.Not?)
    ensures var op := Assemble(k, hi, lo, data);
            op & 0xF000 == 0x4000 && op != 0x4E71 && op != 0x4E75 && ClassifyGroup4(op) == Some(k)
  {
    hide Classify, Assemble, Encodable, EaMode, SizeField, Size2;
    UnaryWord(k, hi, lo, data);
  }

  lemma UnaryWord(k: Kind, hi: bv16, lo: bv16, data: bv16)
    requires Encodable(k, hi, lo, data) && (k.Clr? || k.Tst? || k.Neg? || k.Not?)
    ensures var op := Assemble(k, hi, lo, data);
            op & 0xFF00 == UnaryBase(k) && op & 0xF000 == 0x4000 && op & 0xF1C0 != 0x41C0
            && EaMode(op) == 0 && SizeField(op) != 3 && Size2(op) == k.size
  {
  }

  lemma AcceptsExtend(k: Kind, hi: bv16, lo: bv16, data: bv16)
    requires Encodable(k, hi, lo, data) && (k.SwapDn? || k.ExtW? || k.ExtL? || k.ExtbL?)
    ensures Classify(Assemble(k, hi, lo, data)) == Some(k)
  {
    hide Classify;
    ByGroup(Assemble(k, hi, lo, data));
    InGroupExtend(k, hi, lo, data);
    hide ClassifyGroup4, Assemble, Encodable;
  }

  lemma InGroupExtend(k: Kind, hi: bv16, lo: bv16, data: bv16)
    requires Encodable(k, hi, lo, data) && (k.SwapDn? || k.ExtW? || k.ExtL? || k.ExtbL?)
    ensures var op := Assemble(k, hi, lo, data);
            op & 0xF000 == 0x4000 && op != 0x4E71 && op != 0x4E75 && ClassifyGroup4(op) == Some(k)
  {
    hide Classify, Assemble, Encodable, EaMode;
    ExtendWord(k, hi, lo, data);
  }

  lemma ExtendWord(k: Kind, hi: bv16, lo: bv16, data: bv16)
    requires Encodable(k, hi, lo, data) && (k.SwapDn? || k.ExtW? || k.ExtL? || k.ExtbL?)
    ensures var op := Assemble(k, hi, lo, data);
            op & 0xF000 == 0x4000 && EaMode(op) == 0 && op & 0xFFF8 == if k.SwapDn? then 0x4840 else if k.ExtW? then 0x4880 else if k.ExtL? then 0x48C0 else 0x49C0
  {
  }

  lemma AcceptsLea(k: Kind, hi: bv16, lo: bv16, data: bv16)
    requires Encodable(k, hi, lo, data) && (k.LeaAn? || k.LeaD16? || k.LeaIndex?)
    ensures Classify(Assemble(k, hi, lo, data)) == Some(k)
  {
    hide Classify;
    ByGroup(Assemble(k, hi, lo, data));
    InGroupLea(k, hi, lo, data);
    hide ClassifyGroup4, Assemble, Encodable;
  }

  lemma InGroupLea(k: Kind, hi: bv16, lo: bv16, data: bv16)
    requires Encodable(k, hi, lo, data) && (k.LeaAn? || k.LeaD16? || k.LeaIndex?)
    ensures var op := Assemble(k, hi, lo, data);
            op & 0xF000 == 0x4000 && op != 0x4E71 && op != 0x4E75 && ClassifyGroup4(op) == Some(k)
  {
    hide Classify, Assemble, Encodable, EaMode;
    LeaWord(k, hi, lo, data);
  }

  lemma LeaWord(k: Kind, hi: bv16, lo: bv16, data: bv16)
    requires Encodable(k, hi, lo, data) && (k.LeaAn? || k.LeaD16? || k.LeaIndex?)
    ensures var op := Assemble(k, hi, lo, data);
            op & 0xF000 == 0x4000 && op & 0xF1C0 == 0x41C0 && EaMode(op) == if k.LeaAn? then 2 else if k.LeaD16? then 5 else 6
  {
  }

  lemma AcceptsNopRts(k: Kind, hi: bv16, lo: bv16, data: bv16)
    requires Encodable(k, hi, lo, data) && (k.Nop? || k.Rts?)
    ensures Classify(Assemble(k, hi, lo, data)) == Some(k)
  {
    hide ClassifyMove, ClassifyGroupC, ClassifyQuick, ClassifyShift, ClassifyBranch;
  }

  lemma AcceptsBranch(k: Kind, hi: bv16, lo: bv16, data: bv16)
    requires Encodable(k, hi, lo, data) && (k.IsBranch())
    ensures Classify(Assemble(k, hi, lo, data)) == Some(k)
  {
    hide ClassifyMove, ClassifyGroup4, ClassifyGroupC, ClassifyQuick, ClassifyShift;
    BranchFields(data);
  }

  lemma BranchFields(data: bv16)
    requires data <= 0x0FFF
    ensures (0x6000 | data) & 0xF000 == 0x6000 && (0x6000 | data) & 0xFF == data & 0xFF
    ensures Cond(0x6000 | data) == Cond(data) && (0x6000 | data) != 0x4E71 && (0x6000 | data) != 0x4E75
    ensures data <= 0xFF ==> Cond(data) == 0 && data & 0xFF == data
    ensures data >= 0x0200 ==> Cond(data) != 0 && Cond(data) != 1
  {
    hide TwoFields;
  }

  lemma AcceptsExgMul(k: Kind, hi: bv16, lo: bv16, data: bv16)
    requires Encodable(k, hi, lo, data) && (k.ExgDnDm? || k.ExgAnAm? || k.ExgDnAn? || k.Mulu? || k.Muls?)
    ensures Classify(Assemble(k, hi, lo, data)) == Some(k)
  {
    hide ClassifyMove, ClassifyGroup4, ClassifyQuick, ClassifyShift, ClassifyBranch;
  }

  lemma AcceptsQuick(k: Kind, hi: bv16, lo: bv16, data: bv16)
    requires Encodable(k, hi, lo, data) && (k.QuickDn? || k.QuickAn?)
    ensures Classify(Assemble(k, hi, lo, data)) == Some(k)
  {
    hide ClassifyMove, ClassifyGroup4, ClassifyGroupC, ClassifyShift, ClassifyBranch;
  }

  lemma AcceptsShift(k: Kind, hi: bv16, lo: bv16, data: bv16)
    requires Encodable(k, hi, lo, data) && (k.LeftShift? || k.Asr? || k.Lsr?)
    ensures Classify(Assemble(k, hi, lo, data)) == Some(k)
  {
    hide ClassifyMove, ClassifyGroup4, ClassifyGroupC, ClassifyQuick, ClassifyBranch;
  }

  lemma AcceptsMoveqBtst(k: Kind, hi: bv16, lo: bv16, data: bv16)
    requires Encodable(k, hi, lo, data) && (k.Moveq? || k.Btst?)
    ensures Classify(Assemble(k, hi, lo, data)) == Some(k)
  {
    hide ClassifyMove, ClassifyGroup4, ClassifyGroupC, ClassifyQuick, ClassifyShift, ClassifyBranch;
  }

  lemma Accepts(k: Kind, hi: bv16, lo: bv16, data: bv16)
    requires Encodable(k, hi, lo, data)
    ensures Classify(Assemble(k, hi, lo, data)) == Some(k)
  {
    hide Classify, Assemble, Encodable;
    match k
    case MoveDnDm | MoveAnDn | MoveaDnAn | MoveaAnAm => AcceptsMove(k, hi, lo, data);
    case LoadInd | LoadPostInc | LoadD16 | StoreInd | StoreD16 => AcceptsMemory(k, hi, lo, data);
    case Arith(_, _) => AcceptsArith(k, hi, lo, data);
    case Cmp(_) => AcceptsCmp(k, hi, lo, data);
    case Logical(l, _) =>
      if l == And { AcceptsAnd(k, hi, lo, data); } else { AcceptsOrEor(k, hi, lo, data); }
    case Clr(_) | Tst(_) | Neg(_) | Not(_) => AcceptsUnary(k, hi, lo, data);
    case SwapDn | ExtW | ExtL | ExtbL => AcceptsExtend(k, hi, lo, data);
    case LeaAn | LeaD16 | LeaIndex => AcceptsLea(k, hi, lo, data);
    case Nop | Rts => AcceptsNopRts(k, hi, lo, data);
    case Bcc(_) | Bra(_) => AcceptsBranch(k, hi, lo, data);
    case ExgDnDm | ExgAnAm | ExgDnAn | Mulu | Muls => AcceptsExgMul(k, hi, lo, data);
    case QuickDn(_, _) | QuickAn(_) => AcceptsQuick(k, hi, lo, data);
    case LeftShift(_) | Asr | Lsr => AcceptsShift(k, hi, lo, data);
    case Moveq | Btst => AcceptsMoveqBtst(k, hi, lo, data);
  }

  // ----- Nothing else is -----

  function HiField(op: bv16): bv16 { (op >> 9) & 7 }
  function LoField(op: bv16): bv16 { op & 7 }

  function DataField(op: bv16, k: Kind): bv16 {
    if k.Moveq? || k.Bra? then op & 0xFF else if k.Bcc? then op & 0x0FFF else if k.QuickAn? then op & 0x00C0 else 0
  }

  predicate AssembledAs(op: bv16, k: Kind) {
    && Encodable(k, HiField(op), LoField(op), DataField(op, k))
    && op == Assemble(k, HiField(op), LoField(op), DataField(op, k))
  }

  lemma FromMove(op: bv16, k: Kind)
    requires Classify(op) == Some(k) && GroupOf(k) == 0x2000
    ensures op & 0xF000 == 0x2000 && ClassifyMove(op) == Some(k)
  {
    ByGroup(op);
    hide ClassifyMove, ClassifyGroup4, ClassifyGroupC, ClassifyQuick, ClassifyShift, ClassifyBranch;
  }

  lemma FromGroup4(op: bv16, k: Kind)
    requires Classify(op) == Some(k) && GroupOf(k) == 0x4000 && !k.Nop? && !k.Rts?
    ensures op & 0xF000 == 0x4000 && ClassifyGroup4(op) == Some(k)
  {
    ByGroup(op);
    hide ClassifyMove, ClassifyGroup4, ClassifyGroupC, ClassifyQuick, ClassifyShift, ClassifyBranch;
  }

  lemma OnlyMove(op: bv16, k: Kind)
    requires Classify(op) == Some(k) && (k.MoveDnDm? || k.MoveAnDn? || k.MoveaDnAn? || k.MoveaAnAm?)
    ensures AssembledAs(op, k)
  {
    hide AssembledAs;
    FromMove(op, k);
    hide Classify, ClassifyMove;
    GroupMove(op, k);
  }

  lemma GroupMove(op: bv16, k: Kind)
    requires ClassifyMove(op) == Some(k) && op & 0xF000 == 0x2000 && (k.MoveDnDm? || k.MoveAnDn? || k.MoveaDnAn? || k.MoveaAnAm?)
    ensures AssembledAs(op, k)
  {
    hide Classify;
  }

  lemma OnlyMemory(op: bv16, k: Kind)
    requires Classify(op) == Some(k) && (k.IsLoad() || k.IsStore())
    ensures AssembledAs(op, k)
  {
    hide AssembledAs;
    FromMove(op, k);
    hide Classify, ClassifyMove;
    GroupMemory(op, k);
  }

  lemma GroupMemory(op: bv16, k: Kind)
    requires ClassifyMove(op) == Some(k) && op & 0xF000 == 0x2000 && (k.IsLoad() || k.IsStore())
    ensures AssembledAs(op, k)
  {
    hide Classify;
  }

  lemma OnlyArith(op: bv16, k: Kind)
    requires Classify(op) == Some(k) && (k.Arith?)
    ensures AssembledAs(op, k)
  {
    hide ClassifyMove, ClassifyGroup4, ClassifyGroupC, ClassifyQuick, ClassifyShift, ClassifyBranch;
  }

  lemma OnlyCmp(op: bv16, k: Kind)
    requires Classify(op) == Some(k) && (k.Cmp?)
    ensures AssembledAs(op, k)
  {
    hide ClassifyMove, ClassifyGroup4, ClassifyGroupC, ClassifyQuick, ClassifyShift, ClassifyBranch;
  }

  lemma OnlyAnd(op: bv16, k: Kind)
    requires Classify(op) == Some(k) && (k.Logical? && k.l == And)
    ensures AssembledAs(op, k)
  {
    hide ClassifyMove, ClassifyGroup4, ClassifyQuick, ClassifyShift, ClassifyBranch;
  }

  lemma OnlyOrEor(op: bv16, k: Kind)
    requires Classify(op) == Some(k) && (k.Logical? && k.l != And)
    ensures AssembledAs(op, k)
  {
    hide ClassifyMove, ClassifyGroup4, ClassifyGroupC, ClassifyQuick, ClassifyShift, ClassifyBranch;
  }

  lemma OnlyUnary(op: bv16, k: Kind)
    requires Classify(op) == Some(k) && (k.Clr? || k.Tst? || k.Neg? || k.Not?)
    ensures AssembledAs(op, k)
  {
    hide AssembledAs;
    FromGroup4(op, k);
    hide Classify, ClassifyGroup4;
    GroupUnary(op, k);
  }

  lemma GroupUnary(op: bv16, k: Kind)
    requires ClassifyGroup4(op) == Some(k) && op & 0xF000 == 0x4000 && (k.Clr? || k.Tst? || k.Neg? || k.Not?)
    ensures AssembledAs(op, k)
  {
    UnaryMask(op, k);
    hide ClassifyGroup4;
    UnaryFromMask(op, k);
    hide AssembledAs;
  }

  function UnaryBase(k: Kind): bv16 {
    if k.Clr? then 0x4200 else if k.Tst? then 0x4A00 else if k.Neg? then 0x4400 else 0x4600
  }

  lemma UnaryMask(op: bv16, k: Kind)
    requires ClassifyGroup4(op) == Some(k) && (k.Clr? || k.Tst? || k.Neg? || k.Not?)
    ensures op & 0xFF00 == UnaryBase(k) && EaMode(op) == 0 && SizeField(op) != 3 && k.size == Size2(op)
  {
    hide EaMode, SizeField, Size2;
  }

  lemma UnaryFromMask(op: bv16, k: Kind)
    requires k.Clr? || k.Tst? || k.Neg? || k.Not?
    requires op & 0xFF00 == UnaryBase(k) && EaMode(op) == 0 && SizeField(op) != 3 && k.size == Size2(op)
    ensures AssembledAs(op, k)
  {
    SizesAgree(op);
    hide Size2, SizeBits;
    UnaryParts(op, UnaryBase(k), SizeBits(k.size));
  }

  lemma SizesAgree(op: bv16)
    requires SizeField(op) != 3
    ensures SizeBits(Size2(op)) == op & 0x00C0
  {
  }

  lemma UnaryParts(op: bv16, base: bv16, size: bv16)
    requires op & 0xFF00 == base && EaMode(op) == 0 && size == op & 0x00C0
    ensures op == base | size | (op & 7)
  {
  }

  lemma OnlyExtend(op: bv16, k: Kind)
    requires Classify(op) == Some(k) && (k.SwapDn? || k.ExtW? || k.ExtL? || k.ExtbL?)
    ensures AssembledAs(op, k)
  {
    hide AssembledAs;
    FromGroup4(op, k);
    hide Classify, ClassifyGroup4;
    GroupExtend(op, k);
  }

  lemma GroupExtend(op: bv16, k: Kind)
    requires ClassifyGroup4(op) == Some(k) && op & 0xF000 == 0x4000 && (k.SwapDn? || k.ExtW? || k.ExtL? || k.ExtbL?)
    ensures AssembledAs(op, k)
  {
    ExtendMask(op, k);
    hide ClassifyGroup4;
    ExtendFromMask(op, k);
    hide AssembledAs;
  }

  lemma ExtendMask(op: bv16, k: Kind)
    requires ClassifyGroup4(op) == Some(k) && (k.SwapDn? || k.ExtW? || k.ExtL? || k.ExtbL?)
    ensures op & 0xFFF8 == if k.SwapDn? then 0x4840 else if k.ExtW? then 0x4880 else if k.ExtL? then 0x48C0 else 0x49C0
  {
    hide EaMode, SizeField, Size2;
  }

  lemma ExtendFromMask(op: bv16, k: Kind)
    requires k.SwapDn? || k.ExtW? || k.ExtL? || k.ExtbL?
    requires op & 0xFFF8 == if k.SwapDn? then 0x4840 else if k.ExtW? then 0x4880 else if k.ExtL? then 0x48C0 else 0x49C0
    ensures AssembledAs(op, k)
  {
  }

  lemma OnlyLea(op: bv16, k: Kind)
    requires Classify(op) == Some(k) && (k.LeaAn? || k.LeaD16? || k.LeaIndex?)
    ensures AssembledAs(op, k)
  {
    hide AssembledAs;
    FromGroup4(op, k);
    hide Classify, ClassifyGroup4;
    GroupLea(op, k);
  }

  lemma GroupLea(op: bv16, k: Kind)
    requires ClassifyGroup4(op) == Some(k) && op & 0xF000 == 0x4000 && (k.LeaAn? || k.LeaD16? || k.LeaIndex?)
    ensures AssembledAs(op, k)
  {
    LeaMask(op, k);
    hide ClassifyGroup4;
    LeaFromMask(op, k);
    hide AssembledAs;
  }

  lemma LeaMask(op: bv16, k: Kind)
    requires ClassifyGroup4(op) == Some(k) && (k.LeaAn? || k.LeaD16? || k.LeaIndex?)
    ensures op & 0xF1C0 == 0x41C0 && EaMode(op) == if k.LeaAn? then 2 else if k.LeaD16? then 5 else 6
  {
    hide EaMode, SizeField, Size2;
  }

  lemma LeaFromMask(op: bv16, k: Kind)
    requires k.LeaAn? || k.LeaD16? || k.LeaIndex?
    requires op & 0xF1C0 == 0x41C0 && EaMode(op) == if k.LeaAn? then 2 else if k.LeaD16? then 5 else 6
    ensures AssembledAs(op, k)
  {
  }

  lemma OnlyNopRts(op: bv16, k: Kind)
    requires Classify(op) == Some(k) && (k.Nop? || k.Rts?)
    ensures AssembledAs(op, k)
  {
    NopRtsWord(op, k);
    hide Classify;
  }

  lemma NopRtsWord(op: bv16, k: Kind)
    requires Classify(op) == Some(k) && (k.Nop? || k.Rts?)
    ensures op == if k.Nop? then 0x4E71 else 0x4E75
  {
    if op == 0x4E71 || op == 0x4E75 {
      assert Classify(0x4E71) == Some(Nop) && Classify(0x4E75) == Some(Rts);
    } else {
      assert op & 0xF000 == 0x4000;
      ByGroup(op);
      Group4NoNop(op);
    }
    hide Classify;
  }

  lemma Group4NoNop(op: bv16)
    ensures ClassifyGroup4(op).Some? ==> !ClassifyGroup4(op).value.Nop? && !ClassifyGroup4(op).value.Rts?
  {
    hide EaMode, SizeField, Size2;
  }

  lemma OnlyBranch(op: bv16, k: Kind)
    requires Classify(op) == Some(k) && k.IsBranch()
    ensures AssembledAs(op, k)
  {
    hide AssembledAs;
    FromBranch(op, k);
    hide Classify;
    GroupBranch(op, k);
    hide ClassifyBranch;
  }

  lemma FromBranch(op: bv16, k: Kind)
    requires Classify(op) == Some(k) && k.IsBranch()
    ensures op & 0xF000 == 0x6000 && ClassifyBranch(op) == Some(k)
  {
    ByGroup(op);
    hide ClassifyMove, ClassifyGroup4, ClassifyGroupC, ClassifyQuick, ClassifyShift, ClassifyBranch;
  }

  lemma GroupBranch(op: bv16, k: Kind)
    requires ClassifyBranch(op) == Some(k) && op & 0xF000 == 0x6000 && k.IsBranch()
    ensures AssembledAs(op, k)
  {
    hide Classify, Cond, HiField, LoField, DataField, BranchByte;
    BranchData(op);
    DataIs(op, k);
    WhichBranch(op, k);
  }

  lemma WhichBranch(op: bv16, k: Kind)
    requires ClassifyBranch(op) == Some(k)
    ensures k.Bra? ==> Cond(op) == 0
    ensures k.Bcc? ==> Cond(op) != 0 && Cond(op) != 1
    ensures BranchByte(op & 0xFF, k.wide)
  {
    hide Cond;
    assert op & 0xFF != 0xFF ==> op & 0xFF <= 0xFE;
  }

  lemma DataIs(op: bv16, k: Kind)
    requires k.IsBranch()
    ensures DataField(op, k) == if k.Bra? then op & 0xFF else op & 0x0FFF
  {
  }

  lemma BranchData(op: bv16)
    requires op & 0xF000 == 0x6000
    ensures op == 0x6000 | (op & 0x0FFF) && (op & 0x0FFF) & 0xFF == op & 0xFF && op & 0xFF <= 0xFF
    ensures Cond(op) == 0 ==> op == 0x6000 | (op & 0xFF)
    ensures Cond(op) != 0 && Cond(op) != 1 ==> 0x0200 <= op & 0x0FFF <= 0x0FFF
    ensures HiField(op) <= 7 && LoField(op) <= 7
    ensures op & 0xFF != 0xFF ==> op & 0xFF <= 0xFE
  {
  }

  lemma OnlyExgMul(op: bv16, k: Kind)
    requires Classify(op) == Some(k) && (k.ExgDnDm? || k.ExgAnAm? || k.ExgDnAn? || k.Mulu? || k.Muls?)
    ensures AssembledAs(op, k)
  {
    hide ClassifyMove, ClassifyGroup4, ClassifyQuick, ClassifyShift, ClassifyBranch;
  }

  lemma OnlyQuick(op: bv16, k: Kind)
    requires Classify(op) == Some(k) && (k.QuickDn? || k.QuickAn?)
    ensures AssembledAs(op, k)
  {
    hide ClassifyMove, ClassifyGroup4, ClassifyGroupC, ClassifyShift, ClassifyBranch;
  }

  lemma OnlyShift(op: bv16, k: Kind)
    requires Classify(op) == Some(k) && (k.LeftShift? || k.Asr? || k.Lsr?)
    ensures AssembledAs(op, k)
  {
    hide ClassifyMove, ClassifyGroup4, ClassifyGroupC, ClassifyQuick, ClassifyBranch;
  }

  lemma OnlyMoveqBtst(op: bv16, k: Kind)
    requires Classify(op) == Some(k) && (k.Moveq? || k.Btst?)
    ensures AssembledAs(op, k)
  {
    hide ClassifyMove, ClassifyGroup4, ClassifyGroupC, ClassifyQuick, ClassifyShift, ClassifyBranch;
  }

  lemma Only(op: bv16, k: Kind)
    requires Classify(op) == Some(k)
    ensures AssembledAs(op, k)
  {
    hide Classify, AssembledAs;
    match k
    case MoveDnDm | MoveAnDn | MoveaDnAn | MoveaAnAm => OnlyMove(op, k);
    case LoadInd | LoadPostInc | LoadD16 | StoreInd | StoreD16 => OnlyMemory(op, k);
    case Arith(_, _) => OnlyArith(op, k);
    case Cmp(_) => OnlyCmp(op, k);
    case Logical(l, _) =>
      if l == And { OnlyAnd(op, k); } else { OnlyOrEor(op, k); }
    case Clr(_) | Tst(_) | Neg(_) | Not(_) => OnlyUnary(op, k);
    case SwapDn | ExtW | ExtL | ExtbL => OnlyExtend(op, k);
    case LeaAn | LeaD16 | LeaIndex => OnlyLea(op, k);
    case Nop | Rts => OnlyNopRts(op, k);
    case Bcc(_) | Bra(_) => OnlyBranch(op, k);
    case ExgDnDm | ExgAnAm | ExgDnAn | Mulu | Muls => OnlyExgMul(op, k);
    case QuickDn(_, _) | QuickAn(_) => OnlyQuick(op, k);
    case LeftShift(_) | Asr | Lsr => OnlyShift(op, k);
    case Moveq | Btst => OnlyMoveqBtst(op, k);
  }

  // ----- The range of the assembler -----

  /** No instruction of any kind assembles to op. */
  ghost predicate OutsideRange(op: bv16) {
    forall k: Kind, hi: bv16, lo: bv16, data: bv16 :: Encodable(k, hi, lo, data) ==> Assemble(k, hi, lo, data) != op
  }

  /** The compiler accepts exactly the opcodes that the assembler can produce. */
  lemma AcceptedExactly(op: bv16)
    ensures Classify(op).None? <==> OutsideRange(op)
    ensures forall k: Kind :: Classify(op) == Some(k) <==> AssembledAs(op, k)
  {
    hide Classify, Assemble, Encodable;
    forall k: Kind
      ensures Classify(op) == Some(k) <==> AssembledAs(op, k)
    {
      if Classify(op) == Some(k) {
        Only(op, k);
      }
      if AssembledAs(op, k) {
        Accepts(k, HiField(op), LoField(op), DataField(op, k));
      }
    }
    forall k: Kind, hi: bv16, lo: bv16, data: bv16 | Encodable(k, hi, lo, data)
      ensures Classify(Assemble(k, hi, lo, data)).Some?
    {
      Accepts(k, hi, lo, data);
    }
  }

  // ----- Why a scan stops -----

  /** The instruction at pa, total bytes into a block, cannot be part of it. */
  ghost predicate Blocked(read: u32 -> Option<bv16>, startPC: u32, total: nat, pa: u32) {
    match read(pa)
    case None => true
    case Some(op) =>
      OutsideRange(op) ||
      exists k: Kind :: AssembledAs(op, k) && CannotJoin(k, op, read(Wrap(pa + 2)), startPC, total)
  }

  /** Its second word is unreadable, or it is a full-format LEA, or a branch that does not go forward. */
  predicate CannotJoin(k: Kind, op: bv16, ext: Option<bv16>, startPC: u32, total: nat) {
    || (TwoWords(k) && ext.None?)
    || (k.LeaIndex? && ext.Some? && ext.value & 0x0100 != 0)
    || (k.IsBranch() && (k.wide ==> ext.Some?)
        && ScannedTarget(startPC, total, op, if k.wide then ext.value else 0, k) <= startPC)
  }

  lemma BlockedExactly(read: u32 -> Option<bv16>, startPC: u32, total: nat, pa: u32)
    ensures Blocked(read, startPC, total, pa) <==>
      (var next := ScanOne(read, pa);
       next.None? || (next.value.kind.IsBranch()
                      && ScannedTarget(startPC, total, next.value.opcode, next.value.ext, next.value.kind) <= startPC))
  {
    hide Classify, Assemble, Encodable, AssembledAs, OutsideRange, ScannedTarget;
    if read(pa).Some? {
      AcceptedExactly(read(pa).value);
      if Classify(read(pa).value).Some? {
        WideBranches(Classify(read(pa).value).value);
      }
    }
  }

  lemma WideBranches(k: Kind)
    ensures k.IsBranch() ==> TwoWords(k) == k.wide && !k.LeaIndex?
  {
  }

  /** The scan goes on until the block is full, has ended, or meets an instruction that cannot join. */
  lemma {:induction false} ScanIsMaximal(read: u32 -> Option<bv16>, startPC: u32, pa: u32, total: nat, room: nat)
    ensures var insns := Scan(read, startPC, pa, total, room);
            var end := ByteLength(insns);
            || |insns| == room
            || (insns != [] && (insns[|insns| - 1].kind.IsBranch() || insns[|insns| - 1].kind.Rts?))
            || Blocked(read, startPC, total + end, Wrap(pa + end))
    decreases room
  {
    hide Scan, ScanOne, ScannedTarget, Blocked, Wrap;
    ScanNothing(read, startPC, pa, total, room);
    var insns := Scan(read, startPC, pa, total, room);
    BlockedExactly(read, startPC, total, pa);
    WrapZero(pa);
    if insns != [] {
      var first := insns[0];
      ScanCons(read, startPC, pa, total, room);
      if !first.kind.IsBranch() && !first.kind.Rts? {
        ScanIsMaximal(read, startPC, Wrap(pa + first.len), total + first.len, room - 1);
        WrapWrap(pa + first.len, ByteLength(insns[1..]));
      }
    }
  }

  lemma ScanNothing(read: u32 -> Option<bv16>, startPC: u32, pa: u32, total: nat, room: nat)
    ensures Scan(read, startPC, pa, total, room) == [] ==>
      || room == 0 || ScanOne(read, pa).None?
      || (var next := ScanOne(read, pa).value;
          next.kind.IsBranch() && ScannedTarget(startPC, total, next.opcode, next.ext, next.kind) <= startPC)
  {
    hide ScanOne, ScannedTarget;
  }

  lemma WrapZero(pa: u32)
    ensures Wrap(pa + 0) == pa
  {
  }

  /** Compilation fails exactly when the very first instruction cannot be compiled. */
  lemma CompilesExactly(read: u32 -> Option<bv16>, startPC: u32, startPA: u32, cycles: bv16 -> nat)
    ensures Compile(read, startPC, startPA, cycles).None? <==> Blocked(read, startPC, 0, startPA)
  {
    hide ScanOne, ScannedTarget, Blocked, BuildBlock;
    BlockedExactly(read, startPC, 0, startPA);
    assert MAX_BLOCK_LENGTH > 0;
  }

  /** A compiled block that is not full and does not end by itself is followed by what cannot join it. */
  lemma BlocksAreMaximal(read: u32 -> Option<bv16>, startPC: u32, startPA: u32, cycles: bv16 -> nat)
    requires Compile(read, startPC, startPA, cycles).Some?
    ensures var b := Compile(read, startPC, startPA, cycles).value;
            && 0 < b.count == |b.ops|
            && (b.count == MAX_BLOCK_LENGTH || b.ops[b.count - 1].kind.IsBranch() || b.ops[b.count - 1].kind.Rts?
                || Blocked(read, startPC, b.byteLength, Wrap(startPA + b.byteLength)))
  {
    hide Compile, Scan, Blocked, OpOf, WellScanned, BuildBlock;
    var insns := CompiledForm(read, startPC, startPA, cycles);
    var b := Compile(read, startPC, startPA, cycles).value;
    ScanIsMaximal(read, startPC, startPA, 0, MAX_BLOCK_LENGTH);
    OpFacts(b, insns, startPC, cycles, |insns| - 1);
  }

  // ----- Fields of assembled opcodes -----

  predicate NamesHi(k: Kind) {
    !k.IsBranch() && !k.Nop? && !k.Rts? && !k.Clr? && !k.Tst? && !k.Neg? && !k.Not?
    && !k.SwapDn? && !k.ExtW? && !k.ExtL? && !k.ExtbL?
  }

  predicate NamesLo(k: Kind) {
    !k.IsBranch() && !k.Nop? && !k.Rts? && !k.Moveq?
  }

  function SignedByte(b: bv16): int {
    var v := (b & 0xFF) as int;
    if v < 128 then v else v - 256
  }

  /** Registers, counts, immediates and conditions are read back from where the assembler put them. */
  lemma FieldsReadBack(k: Kind, hi: bv16, lo: bv16, data: bv16)
    requires Encodable(k, hi, lo, data)
    ensures var op := Assemble(k, hi, lo, data);
            && (NamesHi(k) ==> Reg9(op) == hi as int && Quick(op) == if hi == 0 then 8 else hi as int)
            && (NamesLo(k) ==> Reg0(op) == lo as int)
            && (k.Moveq? || k.IsBranch() ==> Disp8(op) == SignedByte(data))
            && (k.Bcc? ==> Cond(op) as int == (data >> 8) as int)
  {
    if NamesHi(k) {
      HiReadBack(k, hi, lo, data);
    }
    if NamesLo(k) {
      LoReadBack(k, hi, lo, data);
    }
    if k.Moveq? || k.IsBranch() {
      ByteReadBack(k, hi, lo, data);
    }
    hide Assemble, Encodable, Reg9, Reg0, Quick, Disp8, Cond, SignedByte;
  }

  lemma HiReadBack(k: Kind, hi: bv16, lo: bv16, data: bv16)
    requires Encodable(k, hi, lo, data) && NamesHi(k)
    ensures var op := Assemble(k, hi, lo, data);
            Reg9(op) == hi as int && Quick(op) == if hi == 0 then 8 else hi as int
  {
    var op := Assemble(k, hi, lo, data);
    HiBits(k, hi, lo, data);
    SmallField(hi);
    hide Assemble;
  }

  lemma HiBits(k: Kind, hi: bv16, lo: bv16, data: bv16)
    requires Encodable(k, hi, lo, data) && NamesHi(k)
    ensures (Assemble(k, hi, lo, data) >> 9) & 7 == hi
  {
    if k.Moveq? || k.QuickAn? {
      HiBitsData(k, hi, lo, data);
    } else {
      var base := TwoFieldsOf(k, hi, lo, data);
      HiOfTwo(base, hi, lo);
    }
    hide Assemble, Encodable, TwoFields;
  }

  lemma HiBitsData(k: Kind, hi: bv16, lo: bv16, data: bv16)
    requires Encodable(k, hi, lo, data) && (k.Moveq? || k.QuickAn?)
    ensures (Assemble(k, hi, lo, data) >> 9) & 7 == hi
  {
  }

  /** The constant part leaves both register fields free. */
  lemma TwoFieldsOf(k: Kind, hi: bv16, lo: bv16, data: bv16) returns (base: bv16)
    requires NamesHi(k) && !k.Moveq? && !k.QuickAn?
    ensures base & 0x0E07 == 0 && Assemble(k, hi, lo, data) == TwoFields(base, hi, lo)
  {
    base := Assemble(k, 0, 0, data);
    NoFields(base);
    hide TwoFields;
    ConstantPart(k, hi, lo, data);
  }

  lemma NoFields(base: bv16)
    ensures TwoFields(base, 0, 0) == base
  {
  }

  lemma ConstantPart(k: Kind, hi: bv16, lo: bv16, data: bv16)
    requires NamesHi(k) && !k.Moveq? && !k.QuickAn?
    ensures var base := Assemble(k, 0, 0, data); base & 0x0E07 == 0 && Assemble(k, hi, lo, data) == TwoFields(base, hi, lo)
  {
    if k.Arith? || k.Cmp? || k.Logical? || k.QuickDn? {
      ConstantSized(k, hi, lo, data);
    } else {
      ConstantUnsized(k, hi, lo, data);
    }
    hide Assemble, TwoFields;
  }

  lemma ConstantSized(k: Kind, hi: bv16, lo: bv16, data: bv16)
    requires k.Arith? || k.Cmp? || k.Logical? || k.QuickDn?
    ensures var base := Assemble(k, 0, 0, data); base & 0x0E07 == 0 && Assemble(k, hi, lo, data) == TwoFields(base, hi, lo)
  {
    forall b: bv16
      ensures TwoFields(b, 0, 0) == b
    {
      NoFields(b);
    }
    hide TwoFields;
  }

  lemma ConstantUnsized(k: Kind, hi: bv16, lo: bv16, data: bv16)
    requires NamesHi(k) && !k.Moveq? && !k.QuickAn? && !k.Arith? && !k.Cmp? && !k.Logical? && !k.QuickDn?
    ensures var base := Assemble(k, 0, 0, data); base & 0x0E07 == 0 && Assemble(k, hi, lo, data) == TwoFields(base, hi, lo)
  {
    forall b: bv16
      ensures TwoFields(b, 0, 0) == b
    {
      NoFields(b);
    }
    hide TwoFields;
  }

  lemma HiOfTwo(base: bv16, hi: bv16, lo: bv16)
    requires base & 0x0E07 == 0 && hi <= 7 && lo <= 7
    ensures (TwoFields(base, hi, lo) >> 9) & 7 == hi && TwoFields(base, hi, lo) & 7 == lo
  {
  }

  lemma SmallField(f: bv16)
    requires f <= 7
    ensures (f as bv3) as int == f as int
  {
  }

  lemma LoReadBack(k: Kind, hi: bv16, lo: bv16, data: bv16)
    requires Encodable(k, hi, lo, data) && NamesLo(k)
    ensures Reg0(Assemble(k, hi, lo, data)) == lo as int
  {
    LoBits(k, hi, lo, data);
    SmallField(lo);
    hide Assemble;
  }

  lemma LoBits(k: Kind, hi: bv16, lo: bv16, data: bv16)
    requires Encodable(k, hi, lo, data) && NamesLo(k)
    ensures Assemble(k, hi, lo, data) & 7 == lo
  {
  }

  lemma ByteReadBack(k: Kind, hi: bv16, lo: bv16, data: bv16)
    requires Encodable(k, hi, lo, data) && (k.Moveq? || k.IsBranch())
    ensures var op := Assemble(k, hi, lo, data);
            Disp8(op) == SignedByte(data) && (k.Bcc? ==> Cond(op) as int == (data >> 8) as int)
  {
    ByteBits(k, hi, lo, data);
    SmallByte(data & 0xFF);
    if k.Bcc? {
      SmallCond(data);
    }
    hide Assemble;
  }

  lemma ByteBits(k: Kind, hi: bv16, lo: bv16, data: bv16)
    requires Encodable(k, hi, lo, data) && (k.Moveq? || k.IsBranch())
    ensures var op := Assemble(k, hi, lo, data);
            op & 0xFF == data & 0xFF && (k.Bcc? ==> (op >> 8) & 0xF == data >> 8 && data >> 8 <= 15)
  {
  }

  lemma SmallByte(b: bv16)
    requires b <= 0xFF
    ensures (b as bv8) as int == b as int
  {
  }

  lemma SmallCond(data: bv16)
    requires data >> 8 <= 15
    ensures ((data >> 8) as bv4) as int == (data >> 8) as int
  {
  }
}
