/** Decoding refines interpretation: a built operation does what the interpreter does at its opcode. */
module JitDecode {
  import opened Machine
  import opened Bits
  import opened Alu
  import opened EffectiveAddress
  import opened Interpreter
  import opened JitBlock
  import opened JitCompile

  /** The instruction that the scan found is the one the interpreter fetches at pc. */
  predicate Encodes(env: Env, pc: u32, insn: Insn) {
    && env.code(pc) == insn.opcode
    && Classify(insn.opcode) == Some(insn.kind)
    && insn.len == (if TwoWords(insn.kind) then 4 else 2)
    && (TwoWords(insn.kind) ==> env.code(Wrap(pc + 2)) == insn.ext)
    && (insn.kind.LeaIndex? ==> insn.ext & 0x0100 == 0)
  }

  function RegsOf(s: State): Regfile {
    Regfile(s.D, s.A, s.ccr)
  }

  predicate SameRegs(a: Regfile, b: Regfile) {
    a.D == b.D && a.A == b.A && SameFlags(a.ccr, b.ccr)
  }

  /** The step succeeds with registers r and the five flags of r, at pc, without touching memory. */
  ghost predicate Lands(t: Option<State>, r: Regfile, pc: u32, mem: Memory) {
    t.Some? && SameRegs(RegsOf(t.value), r) && t.value.pc == pc && t.value.mem == mem
  }

  /** What the interpreter makes of an encoded register instruction, next to what the block does. */
  ghost predicate Refines(env: Env, s: State, insn: Insn, needs: bool) {
    Lands(Step(env, s), Apply(BuildOp(insn, s.pc, needs), RegsOf(s)), Wrap(s.pc + insn.len), s.mem)
  }

  function Fetch(s: State): State {
    s.(pc := Wrap(s.pc + 2))
  }

  // ----- Words -----

  lemma Longs(x: u32, v: u32)
    ensures Low(v, 4) == v && Merge(x, v, 4) == v
  {
  }

  lemma LowLow(v: u32, n: Size)
    ensures Low(Low(v, n), n) == Low(v, n) < Modulus(n)
  {
  }

  lemma MergeLow(x: u32, v: u32, n: Size)
    ensures Merge(x, Low(v, n), n) == Merge(x, v, n)
  {
  }

  lemma NotLow(v: u32, n: Size)
    ensures Low(0xFFFF_FFFF - Low(v, n), n) == Modulus(n) - 1 - Low(v, n)
    ensures Modulus(n) - 1 - Low(v, n) >= 0
  {
  }

  // ----- Group 7: MOVEQ -----

  lemma MoveqRefines(env: Env, s: State, insn: Insn, needs: bool)
    requires Encodes(env, s.pc, insn) && insn.kind.Moveq?
    ensures Refines(env, s, insn, needs)
  {
    hide GroupHandler, FastRts, FastBcc8, FastArith, FastMoveDnDm;
    hide ClassifyMove, ClassifyGroup4, ClassifyGroupC, ClassifyQuick, ClassifyShift, ClassifyBranch;
    Longs(s.D[Reg9(insn.opcode)], Wrap(Disp8(insn.opcode)));
  }

  // ----- Groups 9 and D: ADD and SUB -----

  lemma ArithOpcode(op: bv16, isAdd: bool, n: Size)
    requires Classify(op) == Some(Arith(isAdd, n))
    ensures op & 0xF000 == (if isAdd then 0xD000 else 0x9000)
    ensures ToDn(op) && n == OpModeSize(OpMode(op))
  {
  }

  lemma ArithDispatch(env: Env, s: State, op: bv16, isAdd: bool)
    requires op & 0xF000 == (if isAdd then 0xD000 else 0x9000)
    requires ToDn(op)
    ensures Dispatch(env, s, op) == if OpMode(op) == 2 then Some(FastArith(s, op)) else DecodeAddSub(env, s, op, isAdd)
  {
    hide FastArith, DecodeAddSub, FastMoveq, FastRts, FastBcc8, FastMoveDnDm;
  }

  lemma ArithEffect(env: Env, s: State, op: bv16, isAdd: bool)
    requires ToDn(op)
    ensures var n := OpModeSize(OpMode(op));
            var r := AddOrSub(isAdd, Low(s.D[Reg9(op)], n), Low(s.D[Reg0(op)], n), s.ccr, n);
            DecodeAddSub(env, s, op, isAdd) == Some(WriteD(s, Reg9(op), r.result, n).(ccr := r.ccr))
  {
    hide AddOrSub;
    LowLow(s.D[Reg0(op)], OpModeSize(OpMode(op)));
  }

  lemma FastAddSub(s: State, op: bv16, isAdd: bool)
    requires op & 0xF000 == (if isAdd then 0xD000 else 0x9000)
    ensures var r := AddOrSub(isAdd, s.D[Reg9(op)], s.D[Reg0(op)], s.ccr, 4);
            FastArith(s, op) == s.(D := s.D[Reg9(op) := r.result], ccr := r.ccr)
  {
  }

  lemma ArithApply(insn: Insn, pc: u32, needs: bool, r: Regfile)
    requires insn.kind.Arith?
    ensures var n, x, y := insn.kind.size, Reg9(insn.opcode), Reg0(insn.opcode);
            var a := AddOrSub(insn.kind.isAdd, Low(r.D[x], n), Low(r.D[y], n), r.ccr, n);
            Apply(BuildOp(insn, pc, needs), r) == Regfile(r.D[x := Merge(r.D[x], a.result, n)], r.A, a.ccr)
  {
  }

  /** The specialised handler and the group decoder agree, so one formula covers all sizes. */
  lemma ArithStep(env: Env, s: State, op: bv16, isAdd: bool)
    requires op & 0xF000 == (if isAdd then 0xD000 else 0x9000) && ToDn(op)
    ensures var n := OpModeSize(OpMode(op));
            var r := AddOrSub(isAdd, Low(s.D[Reg9(op)], n), Low(s.D[Reg0(op)], n), s.ccr, n);
            Dispatch(env, s, op) == Some(WriteD(s, Reg9(op), r.result, n).(ccr := r.ccr))
  {
    hide Dispatch, DecodeAddSub, FastArith, AddOrSub, Merge, Low, Reg9, Reg0, EaMode;
    ArithDispatch(env, s, op, isAdd);
    ArithEffect(env, s, op, isAdd);
    FastAddSub(s, op, isAdd);
    var d, v := s.D[Reg9(op)], s.D[Reg0(op)];
    Longs(d, d);
    Longs(d, v);
    Longs(d, AddOrSub(isAdd, d, v, s.ccr, 4).result);
  }

  lemma ArithRefines(env: Env, s: State, insn: Insn, needs: bool)
    requires Encodes(env, s.pc, insn) && insn.kind.Arith?
    ensures Refines(env, s, insn, needs)
  {
    hide Classify, Dispatch, AddOrSub, Merge, Low, Apply, BuildOp, Reg9, Reg0, OpMode, EaMode, OpModeSize;
    ArithOpcode(insn.opcode, insn.kind.isAdd, insn.kind.size);
    ArithStep(env, Fetch(s), insn.opcode, insn.kind.isAdd);
    ArithApply(insn, s.pc, needs, RegsOf(s));
  }

  // ----- Group B: CMP and EOR -----

  lemma CmpOpcode(op: bv16, n: Size)
    requires Classify(op) == Some(Cmp(n))
    ensures op & 0xF000 == 0xB000 && ToDn(op) && n == OpModeSize(OpMode(op))
  {
  }

  lemma CmpDispatch(env: Env, s: State, op: bv16)
    requires op & 0xF000 == 0xB000 && EaMode(op) == 0
    ensures Dispatch(env, s, op) == if OpMode(op) == 2 then Some(FastArith(s, op)) else DecodeGroupB(env, s, op)
  {
    hide FastArith, DecodeGroupB, FastMoveq, FastRts, FastBcc8, FastMoveDnDm;
  }

  lemma CmpEffect(env: Env, s: State, op: bv16)
    requires ToDn(op)
    ensures var n := OpModeSize(OpMode(op));
            var r := Sub(Low(s.D[Reg9(op)], n), Low(s.D[Reg0(op)], n), s.ccr, n);
            DecodeGroupB(env, s, op) == Some(s.(ccr := UpdateNzvc(s.ccr, r.ccr)))
  {
    hide Sub;
    LowLow(s.D[Reg0(op)], OpModeSize(OpMode(op)));
  }

  lemma CmpStep(env: Env, s: State, op: bv16)
    requires op & 0xF000 == 0xB000 && ToDn(op)
    ensures var n := OpModeSize(OpMode(op));
            var r := Sub(Low(s.D[Reg9(op)], n), Low(s.D[Reg0(op)], n), s.ccr, n);
            Dispatch(env, s, op) == Some(s.(ccr := UpdateNzvc(s.ccr, r.ccr)))
  {
    hide Dispatch, DecodeGroupB, Sub, Low, Reg9, Reg0;
    CmpDispatch(env, s, op);
    CmpEffect(env, s, op);
    Longs(0, s.D[Reg9(op)]);
    Longs(0, s.D[Reg0(op)]);
  }

  lemma CmpApply(insn: Insn, pc: u32, needs: bool, r: Regfile)
    requires insn.kind.Cmp?
    ensures var n, x, y := insn.kind.size, Reg9(insn.opcode), Reg0(insn.opcode);
            var a := Sub(Low(r.D[x], n), Low(r.D[y], n), r.ccr, n);
            Apply(BuildOp(insn, pc, needs), r) == r.(ccr := a.ccr.(x := r.ccr.x))
  {
  }

  lemma CmpRefines(env: Env, s: State, insn: Insn, needs: bool)
    requires Encodes(env, s.pc, insn) && insn.kind.Cmp?
    ensures Refines(env, s, insn, needs)
  {
    hide Classify, Dispatch, Sub, Low, Apply, BuildOp, Reg9, Reg0, OpMode, EaMode, OpModeSize;
    CmpOpcode(insn.opcode, insn.kind.size);
    CmpStep(env, Fetch(s), insn.opcode);
    CmpApply(insn, s.pc, needs, RegsOf(s));
  }

  // ----- AND, OR and EOR -----

  /** The operands of a register logical instruction: EOR reads and writes the low register field. */
  predicate LogicalOpcode(op: bv16, l: LogicOp) {
    && EaMode(op) == 0
    && op & 0xF000 == (if l == And then 0xC000 else if l == Or then 0x8000 else 0xB000)
    && (if l == Eor then 4 <= OpMode(op) <= 6 else OpMode(op) <= 2)
  }

  lemma LogicalClassified(op: bv16, l: LogicOp, n: Size)
    requires Classify(op) == Some(Logical(l, n))
    ensures LogicalOpcode(op, l) && n == OpModeSize(OpMode(op))
  {
  }

  lemma LogicalDispatch(env: Env, s: State, op: bv16, l: LogicOp)
    requires LogicalOpcode(op, l)
    ensures Dispatch(env, s, op) == DecodeLogic(env, s, op, l)
  {
    hide FastArith, DecodeLogic, FastMoveq, FastRts, FastBcc8, FastMoveDnDm;
  }

  function LogicalResult(s: State, op: bv16, l: LogicOp): State {
    var n := OpModeSize(OpMode(op));
    var dst, src := if l == Eor then Reg0(op) else Reg9(op), if l == Eor then Reg9(op) else Reg0(op);
    var v := LogicN(l, Low(s.D[dst], n), Low(s.D[src], n), n);
    SetLogicFlags(WriteD(s, dst, v, n), v, n)
  }

  lemma LogicalEffect(env: Env, s: State, op: bv16, l: LogicOp)
    requires LogicalOpcode(op, l)
    ensures DecodeLogic(env, s, op, l) == Some(LogicalResult(s, op, l))
  {
    hide LogicN, Merge, Low, NzFlags;
    var n := OpModeSize(OpMode(op));
    var dst, src := if l == Eor then Reg0(op) else Reg9(op), if l == Eor then Reg9(op) else Reg0(op);
    var a, b := s.D[dst], s.D[src];
    LowLow(a, n);
    LowLow(b, n);
    LogicLow(l, a, Low(b, n), n);
    LogicLow(l, Low(a, n), b, n);
    var v := LogicN(l, Low(a, n), Low(b, n), n);
    LogicalLow(v, n);
    MergeLow(a, LogicN(l, a, Low(b, n), 4), n);
    MergeLow(a, LogicN(l, Low(a, n), b, 4), n);
  }

  lemma LogicalLow(v: u32, n: Size)
    requires v < Modulus(n)
    ensures Low(v, n) == v
  {
  }

  lemma LogicalApply(insn: Insn, pc: u32, needs: bool, r: Regfile)
    requires insn.kind.Logical?
    ensures var op, l, n := insn.opcode, insn.kind.l, insn.kind.size;
            var dst, src := if l == Eor then Reg0(op) else Reg9(op), if l == Eor then Reg9(op) else Reg0(op);
            var v := LogicN(l, Low(r.D[dst], n), Low(r.D[src], n), n);
            Apply(BuildOp(insn, pc, needs), r) == Regfile(r.D[dst := Merge(r.D[dst], v, n)], r.A, KeepX(r.ccr, Low(v, n), n))
  {
  }

  lemma LogicalRefines(env: Env, s: State, insn: Insn, needs: bool)
    requires Encodes(env, s.pc, insn) && insn.kind.Logical?
    ensures Refines(env, s, insn, needs)
  {
    hide Classify, Dispatch, DecodeLogic, LogicN, Merge, Low, Apply, BuildOp;
    LogicalApply(insn, s.pc, needs, RegsOf(s));
    LogicalClassified(insn.opcode, insn.kind.l, insn.kind.size);
    LogicalDispatch(env, Fetch(s), insn.opcode, insn.kind.l);
    LogicalEffect(env, Fetch(s), insn.opcode, insn.kind.l);
  }

  // ----- Group 2: MOVE.L and MOVEA.L between registers -----

  lemma MoveOpcode(op: bv16)
    requires Classify(op).Some? && GroupOf(Classify(op).value) == 0x2000
    ensures op & 0xF000 == 0x2000 && Classify(op) == ClassifyMove(op)
  {
  }

  lemma MoveDispatch(env: Env, s: State, op: bv16)
    requires op & 0xF000 == 0x2000
    ensures Dispatch(env, s, op)
         == if EaMode(op) == 0 && OpMode(op) == 0 then Some(FastMoveDnDm(s, op)) else DecodeMove(env, s, op, 4)
  {
    hide FastArith, DecodeMove, FastMoveq, FastRts, FastBcc8, FastMoveDnDm;
  }

  function MoveResult(s: State, op: bv16): State
    requires EaMode(op) <= 1 && OpMode(op) <= 1
  {
    var v := if EaMode(op) == 0 then s.D[Reg0(op)] else s.A[Reg0(op)];
    if OpMode(op) == 1 then s.(A := s.A[Reg9(op) := v])
    else SetLogicFlags(s.(D := s.D[Reg9(op) := v]), v, 4)
  }

  lemma MoveEffect(env: Env, s: State, op: bv16)
    requires EaMode(op) <= 1 && OpMode(op) <= 1
    ensures DecodeMove(env, s, op, 4) == Some(MoveResult(s, op))
  {
    hide SetLogicFlags, Low, Merge;
    Longs(s.D[Reg9(op)], s.D[Reg0(op)]);
    Longs(s.D[Reg9(op)], s.A[Reg0(op)]);
  }

  lemma MoveKind(op: bv16, k: Kind)
    requires ClassifyMove(op) == Some(k) && (k.MoveDnDm? || k.MoveAnDn? || k.MoveaDnAn? || k.MoveaAnAm?)
    ensures EaMode(op) == (if k.MoveDnDm? || k.MoveaDnAn? then 0 else 1)
    ensures OpMode(op) == (if k.MoveDnDm? || k.MoveAnDn? then 0 else 1)
  {
  }

  lemma MoveApply(insn: Insn, pc: u32, needs: bool, r: Regfile)
    requires insn.kind.MoveDnDm? || insn.kind.MoveAnDn? || insn.kind.MoveaDnAn? || insn.kind.MoveaAnAm?
    ensures var k, x, y := insn.kind, Reg9(insn.opcode), Reg0(insn.opcode);
            var v := if k.MoveDnDm? || k.MoveaDnAn? then r.D[y] else r.A[y];
            Apply(BuildOp(insn, pc, needs), r) ==
            if k.MoveDnDm? || k.MoveAnDn? then Regfile(r.D[x := v], r.A, KeepX(r.ccr, v, 4))
            else r.(A := r.A[x := v])
  {
    hide Low, Merge, KeepX, Reg9, Reg0;
    var x, y := Reg9(insn.opcode), Reg0(insn.opcode);
    Longs(r.D[x], r.D[y]);
    Longs(r.D[x], r.A[y]);
  }

  lemma MoveStep(env: Env, s: State, op: bv16)
    requires op & 0xF000 == 0x2000 && EaMode(op) <= 1 && OpMode(op) <= 1
    ensures Dispatch(env, s, op).Some?
    ensures var t, r := Dispatch(env, s, op).value, MoveResult(s, op);
            t.(ccr := r.ccr) == r && SameFlags(t.ccr, r.ccr)
  {
    hide Dispatch, DecodeMove, Low, Reg9, Reg0;
    MoveDispatch(env, s, op);
    MoveEffect(env, s, op);
    Longs(0, s.D[Reg0(op)]);
  }

  lemma MoveRefines(env: Env, s: State, insn: Insn, needs: bool)
    requires Encodes(env, s.pc, insn)
    requires insn.kind.MoveDnDm? || insn.kind.MoveAnDn? || insn.kind.MoveaDnAn? || insn.kind.MoveaAnAm?
    ensures Refines(env, s, insn, needs)
  {
    hide Classify, ClassifyMove, Dispatch, Apply, BuildOp, Low, Reg9, Reg0, EaMode, OpMode;
    MoveOpcode(insn.opcode);
    MoveKind(insn.opcode, insn.kind);
    MoveStep(env, Fetch(s), insn.opcode);
    MoveApply(insn, s.pc, needs, RegsOf(s));
    Longs(0, s.D[Reg0(insn.opcode)]);
    Longs(0, s.A[Reg0(insn.opcode)]);
  }

  // ----- Group 0: BTST -----

  lemma BtstRefines(env: Env, s: State, insn: Insn, needs: bool)
    requires Encodes(env, s.pc, insn) && insn.kind.Btst?
    ensures Refines(env, s, insn, needs)
  {
    var op := insn.opcode;
    BtstOpcode(op);
    BtstEffect(env, Fetch(s), op);
    hide Classify, Dispatch, Bit;
  }

  lemma BtstOpcode(op: bv16)
    requires Classify(op) == Some(Btst)
    ensures op & 0xF1C0 == 0x0100 && EaMode(op) == 0
  {
  }

  lemma BtstEffect(env: Env, s: State, op: bv16)
    requires op & 0xF1C0 == 0x0100 && EaMode(op) == 0
    ensures Dispatch(env, s, op) == Some(s.(ccr := s.ccr.(z := !Bit(s.D[Reg0(op)], s.D[Reg9(op)] % 32))))
  {
    hide FastArith, FastMoveq, FastRts, FastBcc8, FastMoveDnDm, Bit;
  }

  // ----- Group 5: ADDQ and SUBQ -----

  lemma QuickOpcode(op: bv16)
    requires Classify(op).Some? && GroupOf(Classify(op).value) == 0x5000
    ensures op & 0xF000 == 0x5000 && Classify(op) == ClassifyQuick(op)
  {
  }

  lemma QuickDispatch(env: Env, s: State, op: bv16)
    requires op & 0xF000 == 0x5000
    ensures Dispatch(env, s, op) == DecodeGroup5(env, s, op)
  {
    hide FastArith, DecodeGroup5, FastMoveq, FastRts, FastBcc8, FastMoveDnDm;
  }

  lemma QuickEffect(env: Env, s: State, op: bv16)
    requires SizeField(op) != 3 && EaMode(op) == 0
    ensures var n := Size2(op);
            var r := AddOrSub(op & 0x0100 == 0, Low(s.D[Reg0(op)], n), Quick(op), s.ccr, n);
            DecodeGroup5(env, s, op) == Some(WriteD(s, Reg0(op), r.result, n).(ccr := r.ccr))
  {
    hide Add, Sub, Quick;
    LowLow(s.D[Reg0(op)], Size2(op));
  }

  lemma QuickRange(op: bv16, n: Size)
    ensures Low(Wrap(Quick(op)), n) == Quick(op)
  {
  }

  lemma QuickApply(insn: Insn, pc: u32, needs: bool, r: Regfile)
    requires insn.kind.QuickDn?
    ensures var n, x := insn.kind.size, Reg0(insn.opcode);
            var a := AddOrSub(insn.kind.isAdd, Low(r.D[x], n), Quick(insn.opcode), r.ccr, n);
            Apply(BuildOp(insn, pc, needs), r) == Regfile(r.D[x := Merge(r.D[x], a.result, n)], r.A, a.ccr)
  {
    QuickRange(insn.opcode, insn.kind.size);
    hide AddOrSub, Merge, Quick, Low, Wrap, Reg9, Reg0;
  }

  lemma QuickDnRefines(env: Env, s: State, insn: Insn, needs: bool)
    requires Encodes(env, s.pc, insn) && insn.kind.QuickDn?
    ensures Refines(env, s, insn, needs)
  {
    hide Classify, Dispatch, DecodeGroup5, AddOrSub, Merge, Low, Apply, BuildOp, Quick, Reg0;
    QuickOpcode(insn.opcode);
    QuickDispatch(env, Fetch(s), insn.opcode);
    QuickEffect(env, Fetch(s), insn.opcode);
    QuickApply(insn, s.pc, needs, RegsOf(s));
  }

  lemma QuickAnRefines(env: Env, s: State, insn: Insn, needs: bool)
    requires Encodes(env, s.pc, insn) && insn.kind.QuickAn?
    ensures Refines(env, s, insn, needs)
  {
    hide Classify, Dispatch, AddOrSub, Merge, Low, Quick, ReadForModify, WriteFromModify;
    QuickOpcode(insn.opcode);
    QuickDispatch(env, Fetch(s), insn.opcode);
  }

  // ----- Group C: multiply and exchange -----

  lemma GroupCOpcode(op: bv16)
    requires Classify(op).Some? && GroupOf(Classify(op).value) == 0xC000
    ensures op & 0xF000 == 0xC000 && Classify(op) == ClassifyGroupC(op)
  {
  }

  lemma GroupCDispatch(env: Env, s: State, op: bv16)
    requires op & 0xF000 == 0xC000
    ensures Dispatch(env, s, op) == DecodeGroupC(env, s, op)
  {
    hide FastArith, DecodeGroupC, FastMoveq, FastRts, FastBcc8, FastMoveDnDm;
  }

  lemma ExgRefines(env: Env, s: State, insn: Insn, needs: bool)
    requires Encodes(env, s.pc, insn) && (insn.kind.ExgDnDm? || insn.kind.ExgAnAm? || insn.kind.ExgDnAn?)
    ensures Refines(env, s, insn, needs)
  {
    hide Classify, Dispatch, DecodeMul, DecodeLogic, Reg9, Reg0, Wrap, Disp8, Disp16, Quick, Cond, IndexFlags;
    hide Low, Merge, Sub, AddOrSub, LogicN, Product, Swapped, SignExtend, SetLow, SetResult, IndexedAddress, ShiftCount;
    GroupCOpcode(insn.opcode);
    GroupCDispatch(env, Fetch(s), insn.opcode);
  }

  lemma ProductBound(a: int, b: int, h: int)
    requires h >= 0
    requires -h <= a <= h && -h <= b <= h
    ensures -(h * h) <= Product(a, b) <= h * h
    ensures a >= 0 && b >= 0 ==> Product(a, b) >= 0
  {
    assert (h - a) * (h - b) >= 0 && (h + a) * (h + b) >= 0;
    assert (h - a) * (h + b) >= 0 && (h + a) * (h - b) >= 0;
  }

  /** V never gets set by a 16-bit multiplication. */
  lemma MulFlags(d: u32, v: u32)
    requires d < 0x1_0000 && v < 0x1_0000
    ensures var p := Product(d, v); MulUnsigned(d, v) == AluResult(Wrap(p), NzFlags(Wrap(p), 4))
    ensures var p := Product(Signed(d, 2), Signed(v, 2));
            MulSigned(Signed(d, 2), Signed(v, 2)) == AluResult(Wrap(p), NzFlags(Wrap(p), 4))
  {
    ProductBound(d, v, 0xFFFF);
    ProductBound(Signed(d, 2), Signed(v, 2), 0x8000);
    hide Wrap, NzFlags, Product;
  }

  function MulResult(s: State, op: bv16): State {
    var d, v := Low(s.D[Reg9(op)], 2), Low(s.D[Reg0(op)], 2);
    var r := if OpMode(op) == 3 then MulUnsigned(d, v) else MulSigned(Signed(d, 2), Signed(v, 2));
    s.(D := s.D[Reg9(op) := r.result], ccr := UpdateNzvc(s.ccr, r.ccr))
  }

  lemma MulEffect(env: Env, s: State, op: bv16)
    requires EaMode(op) == 0 && (OpMode(op) == 3 || OpMode(op) == 7)
    ensures DecodeGroupC(env, s, op) == Some(MulResult(s, op))
  {
    hide MulUnsigned, MulSigned;
    LowLow(s.D[Reg0(op)], 2);
    hide Low;
  }

  lemma MulKind(op: bv16, k: Kind)
    requires ClassifyGroupC(op) == Some(k) && (k.Mulu? || k.Muls?)
    ensures EaMode(op) == 0 && OpMode(op) == (if k.Mulu? then 3 else 7)
  {
  }

  lemma MulApply(insn: Insn, pc: u32, needs: bool, r: Regfile)
    requires insn.kind.Mulu? || insn.kind.Muls?
    ensures var x := Reg9(insn.opcode);
            var d, v := Low(r.D[x], 2), Low(r.D[Reg0(insn.opcode)], 2);
            var p := if insn.kind.Mulu? then Wrap(Product(d, v)) else Wrap(Product(Signed(d, 2), Signed(v, 2)));
            Apply(BuildOp(insn, pc, needs), r) == Regfile(r.D[x := p], r.A, KeepX(r.ccr, p, 4))
  {
    var x := Reg9(insn.opcode);
    var d, v := Low(r.D[x], 2), Low(r.D[Reg0(insn.opcode)], 2);
    var p := if insn.kind.Mulu? then Wrap(Product(d, v)) else Wrap(Product(Signed(d, 2), Signed(v, 2)));
    hide Low, Wrap, Signed, Merge, KeepX, Product, Reg9, Reg0, Sub, AddOrSub, LogicN, Swapped, SignExtend;
    hide Disp8, Disp16, Quick, Cond, IndexFlags, IndexedAddress, ShiftCount, Bit, SetResult, Modulus;
    Longs(r.D[x], p);
  }

  lemma MulRefines(env: Env, s: State, insn: Insn, needs: bool)
    requires Encodes(env, s.pc, insn) && (insn.kind.Mulu? || insn.kind.Muls?)
    ensures Refines(env, s, insn, needs)
  {
    hide Classify, ClassifyGroupC, Dispatch, DecodeGroupC, MulUnsigned, MulSigned, Product, Apply, BuildOp;
    hide Low, Wrap, Signed, Reg9, Reg0, EaMode, OpMode;
    var op := insn.opcode;
    LowLow(s.D[Reg9(op)], 2);
    LowLow(s.D[Reg0(op)], 2);
    MulFlags(Low(s.D[Reg9(op)], 2), Low(s.D[Reg0(op)], 2));
    GroupCOpcode(op);
    MulKind(op, insn.kind);
    GroupCDispatch(env, Fetch(s), op);
    MulEffect(env, Fetch(s), op);
    MulApply(insn, s.pc, needs, RegsOf(s));
  }

  // ----- Group E: shifts -----

  lemma ShiftOpcode(op: bv16)
    requires Classify(op).Some? && GroupOf(Classify(op).value) == 0xE000
    ensures op & 0xF000 == 0xE000 && Classify(op) == ClassifyShift(op)
  {
  }

  lemma ShiftDispatch(env: Env, s: State, op: bv16)
    requires op & 0xF000 == 0xE000
    ensures Dispatch(env, s, op) == DecodeGroupE(s, op)
  {
    hide FastArith, DecodeGroupE, FastMoveq, FastRts, FastBcc8, FastMoveDnDm;
  }

  lemma ShiftRefines(env: Env, s: State, insn: Insn, needs: bool)
    requires Encodes(env, s.pc, insn) && (insn.kind.LeftShift? || insn.kind.Asr? || insn.kind.Lsr?)
    ensures Refines(env, s, insn, needs)
  {
    Longs(0, s.D[Reg0(insn.opcode)]);
    hide Classify, Dispatch, ShiftLeft, ArithShiftRight, LogicalShiftRight, Merge, Low;
    hide RotateLeft, RotateRight, RotateLeftX, RotateRightX;
    ShiftOpcode(insn.opcode);
    ShiftDispatch(env, Fetch(s), insn.opcode);
  }

  // ----- Group 4: single-operand instructions and LEA -----

  lemma Group4Opcode(op: bv16)
    requires Classify(op).Some? && GroupOf(Classify(op).value) == 0x4000
    ensures op & 0xF000 == 0x4000
    ensures Classify(op).value.Rts? <==> op == 0x4E75
    ensures Classify(op).value.Nop? <==> op == 0x4E71
    ensures !Classify(op).value.Rts? && !Classify(op).value.Nop? ==> Classify(op) == ClassifyGroup4(op)
  {
    hide ClassifyMove, ClassifyGroupC, ClassifyQuick, ClassifyShift, ClassifyBranch;
  }

  lemma Group4Dispatch(env: Env, s: State, op: bv16)
    requires op & 0xF000 == 0x4000
    ensures Dispatch(env, s, op) == DecodeGroup4(env, s, op)
  {
    hide FastArith, DecodeClr, DecodeNeg, DecodeNot, DecodeTst, DecodeLea, ExtWord, ExtLong, ExtByteLong;
    hide FastMoveq, FastRts, FastBcc8, FastMoveDnDm, SetLogicFlags, Swapped;
  }

  lemma NopRefines(env: Env, s: State, insn: Insn, needs: bool)
    requires Encodes(env, s.pc, insn) && insn.kind.Nop?
    ensures Refines(env, s, insn, needs)
  {
    Group4Opcode(insn.opcode);
    hide Classify, Dispatch;
    hide DecodeClr, DecodeNeg, DecodeNot, DecodeTst, DecodeLea, ExtWord, ExtLong, ExtByteLong, SetLogicFlags, Swapped;
    Group4Dispatch(env, Fetch(s), insn.opcode);
  }

  /** The group 4 decoder reaches the handler that the classification names. */
  lemma Group4Handler(env: Env, s: State, op: bv16)
    requires op & 0xF000 == 0x4000 && op != 0x4E75 && op != 0x4E71 && ClassifyGroup4(op).Some?
    ensures var k, t := ClassifyGroup4(op).value, DecodeGroup4(env, s, op);
            && (k.Clr? ==> t == DecodeClr(env, s, op))
            && (k.Tst? ==> t == DecodeTst(env, s, op))
            && (k.Neg? ==> t == DecodeNeg(env, s, op))
            && (k.Not? ==> t == DecodeNot(env, s, op))
            && (k.ExtW? ==> t == Some(ExtWord(s, Reg0(op))))
            && (k.ExtL? ==> t == Some(ExtLong(s, Reg0(op))))
            && (k.ExtbL? ==> t == Some(ExtByteLong(s, Reg0(op))))
            && (k.LeaAn? || k.LeaD16? || k.LeaIndex? ==> t == DecodeLea(env, s, op))
            && (k.SwapDn? ==> var v := Swapped(s.D[Reg0(op)]);
                              t == Some(SetLogicFlags(s.(D := s.D[Reg0(op) := v]), v, 4)))
  {
    hide DecodeClr, DecodeNeg, DecodeNot, DecodeTst, DecodeLea, ExtWord, ExtLong, ExtByteLong, SetLogicFlags, Swapped;
  }

  /** Group 4 instructions on a data register have operand mode 0 and the size that was classified. */
  lemma Group4Operand(op: bv16, k: Kind)
    requires ClassifyGroup4(op) == Some(k) && (k.Clr? || k.Tst? || k.Neg? || k.Not?)
    ensures EaMode(op) == 0 && k.size == Size2(op)
  {
  }

  lemma ClrEffect(env: Env, s: State, op: bv16)
    requires EaMode(op) == 0
    ensures DecodeClr(env, s, op) == Some(WriteD(s, Reg0(op), 0, Size2(op)).(ccr := KeepX(s.ccr, 0, 4)))
  {
  }

  lemma TstEffect(env: Env, s: State, op: bv16)
    requires EaMode(op) == 0
    ensures DecodeTst(env, s, op) == Some(SetLogicFlags(s, Low(s.D[Reg0(op)], Size2(op)), Size2(op)))
  {
  }

  lemma NegEffect(env: Env, s: State, op: bv16)
    requires EaMode(op) == 0
    ensures var n := Size2(op);
            var r := Sub(0, Low(s.D[Reg0(op)], n), s.ccr, n);
            DecodeNeg(env, s, op) == Some(WriteD(s, Reg0(op), r.result, n).(ccr := r.ccr))
  {
    LowLow(s.D[Reg0(op)], Size2(op));
    hide Sub, Low, Merge, Size2;
  }

  lemma NotEffect(env: Env, s: State, op: bv16)
    requires EaMode(op) == 0
    ensures var n := Size2(op);
            var r := 0xFFFF_FFFF - Low(s.D[Reg0(op)], n);
            DecodeNot(env, s, op) == Some(SetLogicFlags(WriteD(s, Reg0(op), r, n), r, n))
  {
  }

  lemma ZeroNz(n: Size, ccr: Ccr)
    ensures Low(0, n) == 0 && SameFlags(KeepX(ccr, 0, n), KeepX(ccr, 0, 4))
  {
  }

  lemma UnaryApply(insn: Insn, pc: u32, needs: bool, r: Regfile)
    requires insn.kind.Clr? || insn.kind.Tst? || insn.kind.Neg? || insn.kind.Not?
    ensures var k, n, x := insn.kind, insn.kind.size, Reg0(insn.opcode);
            var v := Low(r.D[x], n);
            var t := Apply(BuildOp(insn, pc, needs), r);
            && (k.Clr? ==> t == SetLow(r, x, 0, n))
            && (k.Tst? ==> t == r.(ccr := KeepX(r.ccr, v, n)))
            && (k.Neg? ==> t == SetResult(r, x, Sub(0, v, r.ccr, n), n))
            && (k.Not? ==> Modulus(n) - 1 - v >= 0 && t == SetLow(r, x, Modulus(n) - 1 - v, n))
  {
    hide Sub, Low, Merge, KeepX, Reg0, Reg9, SetLow, SetResult, AddOrSub, LogicN, Product, Swapped, SignExtend, Signed;
    hide Modulus, Disp8, Disp16, Quick, Cond, IndexFlags, Wrap, IndexedAddress, ShiftCount, Bit;
    NotLow(r.D[Reg0(insn.opcode)], insn.kind.size);
  }

  lemma UnaryRefines(env: Env, s: State, insn: Insn, needs: bool)
    requires Encodes(env, s.pc, insn)
    requires insn.kind.Clr? || insn.kind.Tst? || insn.kind.Neg? || insn.kind.Not?
    ensures Refines(env, s, insn, needs)
  {
    hide Classify, ClassifyGroup4, Dispatch, DecodeGroup4, DecodeClr, DecodeTst, DecodeNeg, DecodeNot;
    hide Sub, Low, Merge, Apply, BuildOp, Reg0, EaMode, Size2, Modulus;
    var op, s1, n := insn.opcode, Fetch(s), insn.kind.size;
    var v := s.D[Reg0(op)];
    Group4Opcode(op);
    Group4Dispatch(env, s1, op);
    Group4Handler(env, s1, op);
    Group4Operand(op, insn.kind);
    UnaryApply(insn, s.pc, needs, RegsOf(s));
    LowLow(v, n);
    if insn.kind.Clr? {
      ClrEffect(env, s1, op);
      ZeroNz(n, s.ccr);
    } else if insn.kind.Tst? {
      TstEffect(env, s1, op);
    } else if insn.kind.Neg? {
      NegEffect(env, s1, op);
    } else {
      NotEffect(env, s1, op);
      NotLow(v, n);
      MergeLow(v, 0xFFFF_FFFF - Low(v, n), n);
      LowLow(0xFFFF_FFFF - Low(v, n), n);
    }
  }

  lemma ExtApply(insn: Insn, pc: u32, needs: bool, r: Regfile)
    requires insn.kind.SwapDn? || insn.kind.ExtW? || insn.kind.ExtL? || insn.kind.ExtbL?
    ensures var k, x := insn.kind, Reg0(insn.opcode);
            var v := r.D[x];
            Apply(BuildOp(insn, pc, needs), r) ==
            if k.SwapDn? then SetLow(r, x, Swapped(v), 4)
            else if k.ExtW? then SetLow(r, x, SignExtend(v, 1), 2)
            else SetLow(r, x, SignExtend(v, if k.ExtL? then 2 else 1), 4)
  {
    hide SetLow, Reg0;
  }

  lemma ExtWordLow(x: u32, v: u32)
    ensures Low(v % 0x1_0000, 2) == Low(v, 2) && Merge(x, v % 0x1_0000, 2) == Merge(x, v, 2)
  {
  }

  lemma ExtRefines(env: Env, s: State, insn: Insn, needs: bool)
    requires Encodes(env, s.pc, insn)
    requires insn.kind.SwapDn? || insn.kind.ExtW? || insn.kind.ExtL? || insn.kind.ExtbL?
    ensures Refines(env, s, insn, needs)
  {
    hide Classify, ClassifyGroup4, Dispatch, DecodeGroup4, Low, Merge, Apply, BuildOp, Reg0, Swapped, SignExtend;
    var op, s1 := insn.opcode, Fetch(s);
    var v := s.D[Reg0(op)];
    Group4Opcode(op);
    Group4Dispatch(env, s1, op);
    Group4Handler(env, s1, op);
    ExtApply(insn, s.pc, needs, RegsOf(s));
    Longs(v, Swapped(v));
    Longs(v, SignExtend(v, 1));
    Longs(v, SignExtend(v, 2));
    ExtWordLow(v, SignExtend(v, 1));
  }

  // ----- LEA -----

  lemma LeaOperand(op: bv16, k: Kind)
    requires ClassifyGroup4(op) == Some(k) && (k.LeaAn? || k.LeaD16? || k.LeaIndex?)
    ensures EaMode(op) == if k.LeaAn? then 2 else if k.LeaD16? then 5 else 6
  {
  }

  /** The brief extension word: d8(An,Xn) is base + displacement + scaled index. */
  lemma LeaEffect(env: Env, s: State, op: bv16)
    requires EaMode(op) == 2 || EaMode(op) == 5 || (EaMode(op) == 6 && env.code(s.pc) & 0x0100 == 0)
    ensures var ext, base := env.code(s.pc), s.A[Reg0(op)];
            DecodeLea(env, s, op) == Some(
              if EaMode(op) == 2 then s.(A := s.A[Reg9(op) := base])
              else if EaMode(op) == 5 then Fetch(s).(A := s.A[Reg9(op) := Wrap(base + Disp16(ext))])
              else Fetch(s).(A := s.A[Reg9(op) := Wrap(base + Disp8(ext) + IndexValue(s, ext))]))
  {
    hide IndexValue, Disp16, Disp8;
  }

  /** Packing the extension word into a byte loses none of the three index fields. */
  lemma IndexFlagsUnpack(ext: bv16)
    ensures (IndexFlags(ext) & 1 != 0) == (ext & 0x8000 != 0)
    ensures (IndexFlags(ext) & 8 != 0) == (ext & 0x0800 != 0)
    ensures IndexScale(IndexFlags(ext)) == Scale(ext)
  {
  }

  /** Scaling the wrapped unsigned index agrees, modulo 2^32, with scaling the signed one. */
  lemma ScaledIndex(base: int, d: int, v: u32, k: int)
    requires k == 1 || k == 2 || k == 4 || k == 8
    ensures Wrap(base + d + Signed(v, 4) * k) == Wrap(base + Wrap(v * k) + d)
    ensures Wrap(base + d + Signed(Low(v, 2), 2) * k) == Wrap(base + Wrap(SignExtend(v, 2) * k) + d)
  {
    WrapScaled(base, d, Signed(v, 4), v, k);
    WrapScaled(base, d, Signed(Low(v, 2), 2), SignExtend(v, 2), k);
  }

  lemma WrapScaled(base: int, d: int, a: int, b: u32, k: int)
    requires k == 1 || k == 2 || k == 4 || k == 8
    requires Wrap(a) == b
    ensures Wrap(base + d + a * k) == Wrap(base + Wrap(b * k) + d)
  {
    var q := a / 0x1_0000_0000;
    assert a == b + q * 0x1_0000_0000;
    var r := b * k / 0x1_0000_0000;
    assert b * k == Wrap(b * k) + r * 0x1_0000_0000;
    assert a * k == b * k + q * k * 0x1_0000_0000;
    WrapShift(base + Wrap(b * k) + d, r + q * k);
  }

  lemma WrapShift(a: int, q: int)
    ensures Wrap(a + q * 0x1_0000_0000) == Wrap(a)
  {
  }

  lemma LeaIndexAddress(op: bv16, ext: bv16, s: State, o: JitOp)
    requires o.src == Reg0(op) && o.imm == Disp8(ext) && o.index == Bits14to12(ext) as int && o.aux == IndexFlags(ext)
    ensures Wrap(s.A[Reg0(op)] + Disp8(ext) + IndexValue(s, ext)) == IndexedAddress(o, RegsOf(s))
  {
    hide IndexFlags, IndexScale, Disp8, Wrap, SignExtend, Signed, Low, Reg0;
    IndexFlagsUnpack(ext);
    assert Scale(ext) in {1, 2, 4, 8};
    var v := if ext & 0x8000 != 0 then s.A[Bits14to12(ext) as int] else s.D[Bits14to12(ext) as int];
    ScaledIndex(s.A[Reg0(op)], Disp8(ext), v, Scale(ext));
    hide Scale;
  }

  lemma LeaApply(insn: Insn, pc: u32, needs: bool, r: Regfile)
    requires insn.kind.LeaAn? || insn.kind.LeaD16? || insn.kind.LeaIndex?
    ensures var k, o := insn.kind, BuildOp(insn, pc, needs);
            var base := r.A[Reg0(insn.opcode)];
            Apply(o, r) == r.(A := r.A[Reg9(insn.opcode) :=
              if k.LeaAn? then base
              else if k.LeaD16? then Wrap(base + Disp16(insn.ext))
              else IndexedAddress(o, r)])
  {
    hide IndexedAddress, Wrap, Disp16, Reg9, Reg0;
  }

  lemma LeaRefines(env: Env, s: State, insn: Insn, needs: bool)
    requires Encodes(env, s.pc, insn) && (insn.kind.LeaAn? || insn.kind.LeaD16? || insn.kind.LeaIndex?)
    ensures Refines(env, s, insn, needs)
  {
    hide Classify, ClassifyGroup4, Dispatch, DecodeGroup4, DecodeLea, Apply, IndexedAddress;
    hide Disp16, Disp8, Reg9, Reg0, EaMode, IndexValue, IndexFlags;
    var op, s1 := insn.opcode, Fetch(s);
    Group4Opcode(op);
    Group4Dispatch(env, s1, op);
    Group4Handler(env, s1, op);
    LeaOperand(op, insn.kind);
    LeaEffect(env, s1, op);
    LeaApply(insn, s.pc, needs, RegsOf(s));
    if insn.kind.LeaIndex? {
      LeaIndexAddress(op, insn.ext, s1, BuildOp(insn, s.pc, needs));
    }
    WrapWrap(s.pc + 2, 2);
  }

  // ----- All register operations -----

  /** A built register operation does what the interpreter does, up to the unused CCR bits. */
  lemma RegisterRefines(env: Env, s: State, insn: Insn, needs: bool)
    requires Encodes(env, s.pc, insn) && insn.kind.IsRegister()
    ensures Refines(env, s, insn, needs)
  {
    hide Refines, Encodes;
    match insn.kind
    case Moveq => MoveqRefines(env, s, insn, needs);
    case Arith(_, _) => ArithRefines(env, s, insn, needs);
    case Cmp(_) => CmpRefines(env, s, insn, needs);
    case Logical(_, _) => LogicalRefines(env, s, insn, needs);
    case Btst => BtstRefines(env, s, insn, needs);
    case QuickDn(_, _) => QuickDnRefines(env, s, insn, needs);
    case QuickAn(_) => QuickAnRefines(env, s, insn, needs);
    case MoveDnDm | MoveAnDn | MoveaDnAn | MoveaAnAm => MoveRefines(env, s, insn, needs);
    case ExgDnDm | ExgAnAm | ExgDnAn => ExgRefines(env, s, insn, needs);
    case Mulu | Muls => MulRefines(env, s, insn, needs);
    case LeftShift(_) | Asr | Lsr => ShiftRefines(env, s, insn, needs);
    case Nop => NopRefines(env, s, insn, needs);
    case Clr(_) | Tst(_) | Neg(_) | Not(_) => UnaryRefines(env, s, insn, needs);
    case SwapDn | ExtW | ExtL | ExtbL => ExtRefines(env, s, insn, needs);
    case LeaAn | LeaD16 | LeaIndex => LeaRefines(env, s, insn, needs);
  }

  // ----- Branches, loads, stores and RTS -----

  lemma BranchOpcode(op: bv16, k: Kind)
    requires Classify(op) == Some(k) && k.IsBranch()
    ensures op & 0xF000 == 0x6000 && k.wide == (op & 0xFF == 0) && op & 0xFF != 0xFF
    ensures Cond(op) != 1 && k.Bra? == (Cond(op) == 0)
  {
  }

  function BranchResult(env: Env, s: State, op: bv16): State {
    var after := if op & 0xFF == 0 then Fetch(s) else s;
    var target := Wrap(s.pc + (if op & 0xFF == 0 then Disp16(env.code(s.pc)) else Disp8(op)));
    if EvaluateCondition(Cond(op), s.ccr) then s.(pc := target) else after
  }

  lemma DispKinds(op: bv16)
    ensures (Disp8(op) == 0) == (op & 0xFF == 0)
    ensures (Disp8(op) == -1) == (op & 0xFF == 0xFF)
  {
  }

  lemma BranchEffect(env: Env, s: State, op: bv16)
    requires op & 0xF000 == 0x6000 && op & 0xFF != 0xFF && Cond(op) != 1
    ensures Dispatch(env, s, op) == Some(BranchResult(env, s, op))
  {
    DispKinds(op);
    WrapSum(s.pc, Disp8(op));
    WrapSum(s.pc, Disp16(env.code(s.pc)));
    hide Disp8, Disp16, Wrap, EvaluateCondition, FastArith, FastMoveq, FastRts, FastMoveDnDm;
    CondZero(s.ccr);
  }

  lemma CondZero(f: Ccr)
    ensures EvaluateCondition(0, f)
  {
  }

  lemma WrapSum(a: int, d: int)
    ensures Wrap(a + Wrap(d)) == Wrap(a + d)
  {
  }

  lemma BranchBuilt(insn: Insn, pc: u32, needs: bool)
    requires insn.kind.IsBranch() && insn.len == (if insn.kind.wide then 4 else 2)
    ensures var o := BuildOp(insn, pc, needs);
            && o.kind == insn.kind && o.instrPC == pc
            && (insn.kind.Bcc? ==> o.cond == Cond(insn.opcode) && o.fallthrough == Wrap(pc + insn.len))
            && o.target == Wrap(Wrap(pc + 2) + (if insn.kind.wide then Disp16(insn.ext) else Disp8(insn.opcode)))
  {
    WrapWrap(pc + 4, -2);
    hide Disp16, Disp8, Cond, Wrap, Reg9, Reg0;
  }

  /** Both branch forms: the stored target and fall-through are where the interpreter goes. */
  lemma BranchRefines(env: Env, s: State, insn: Insn, needs: bool)
    requires Encodes(env, s.pc, insn) && insn.kind.IsBranch()
    ensures var o := BuildOp(insn, s.pc, needs);
            Step(env, s) == Some(s.(pc :=
              if insn.kind.Bra? || EvaluateCondition(o.cond, s.ccr) then o.target else Wrap(s.pc + insn.len)))
            && (insn.kind.Bcc? ==> o.fallthrough == Wrap(s.pc + insn.len))
  {
    hide Classify, Dispatch, BuildOp, EvaluateCondition, Disp8, Disp16, Wrap, Cond;
    BranchOpcode(insn.opcode, insn.kind);
    BranchEffect(env, Fetch(s), insn.opcode);
    BranchBuilt(insn, s.pc, needs);
    CondZero(s.ccr);
    WrapWrap(s.pc + 2, 2);
  }

  /** The target stored in the operation is the one the scan compared with the block start. */
  lemma TargetAgrees(insn: Insn, startPC: u32, total: nat, needs: bool)
    requires insn.kind.IsBranch() && insn.len == (if insn.kind.wide then 4 else 2)
    ensures BuildOp(insn, Wrap(startPC + total), needs).target
         == ScannedTarget(startPC, total, insn.opcode, insn.ext, insn.kind)
  {
    BranchBuilt(insn, Wrap(startPC + total), needs);
    WrapWrap(startPC + total, 2);
    hide BuildOp, Disp8, Disp16, Wrap;
  }

  // ----- Loads, stores and RTS -----

  lemma MemoryOpcode(op: bv16, k: Kind)
    requires ClassifyMove(op) == Some(k) && (k.IsLoad() || k.IsStore())
    ensures EaMode(op) == if k.LoadInd? then 2 else if k.LoadPostInc? then 3 else if k.LoadD16? then 5 else 0
    ensures OpMode(op) == if k.StoreInd? then 2 else if k.StoreD16? then 5 else 0
  {
  }

  lemma LoadEffect(env: Env, s: State, op: bv16)
    requires OpMode(op) == 0 && (EaMode(op) == 2 || EaMode(op) == 3 || EaMode(op) == 5)
    ensures var base: int := s.A[Reg0(op)];
            var addr := if EaMode(op) == 5 then Wrap(base + Disp16(env.code(s.pc))) else base;
            var v := ReadLong(s.mem, addr);
            var t := if EaMode(op) == 5 then Fetch(s) else s;
            var a := if EaMode(op) == 3 then s.A[Reg0(op) := Wrap(base + 4)] else s.A;
            DecodeMove(env, s, op, 4) == Some(SetLogicFlags(t.(D := s.D[Reg9(op) := v], A := a), v, 4))
  {
    hide SetLogicFlags, Low, Merge, Disp16, ReadLong;
    var base: int := s.A[Reg0(op)];
    var addr := if EaMode(op) == 5 then Wrap(base + Disp16(env.code(s.pc))) else base;
    Longs(s.D[Reg9(op)], ReadLong(s.mem, addr));
  }

  lemma LoadApply(insn: Insn, pc: u32, needs: bool, r: Regfile, v: u32)
    requires insn.kind.IsLoad()
    ensures var o, x, y := BuildOp(insn, pc, needs), Reg9(insn.opcode), Reg0(insn.opcode);
            var base: int := r.A[y];
            && LoadAddress(o, r) == (if insn.kind.LoadD16? then Wrap(base + Disp16(insn.ext)) else base)
            && Load(o, r, v) == Regfile(r.D[x := v],
                                        if insn.kind.LoadPostInc? then r.A[y := Wrap(base + 4)] else r.A,
                                        KeepX(r.ccr, v, 4))
  {
    hide KeepX, Disp16, Reg9, Reg0, Wrap;
  }

  /** The interpreter's load reads the address the block computes and has the block's effect. */
  lemma LoadRefines(env: Env, s: State, insn: Insn, needs: bool)
    requires Encodes(env, s.pc, insn) && insn.kind.IsLoad()
    ensures var o := BuildOp(insn, s.pc, needs);
            Lands(Step(env, s), Load(o, RegsOf(s), ReadLong(s.mem, LoadAddress(o, RegsOf(s)))),
                  Wrap(s.pc + insn.len), s.mem)
  {
    hide Classify, ClassifyMove, Dispatch, DecodeMove, BuildOp, Load, LoadAddress;
    hide Low, Disp16, Reg9, Reg0, EaMode, OpMode, ReadLong;
    var o := BuildOp(insn, s.pc, needs);
    var v := ReadLong(s.mem, LoadAddress(o, RegsOf(s)));
    MoveOpcode(insn.opcode);
    MemoryOpcode(insn.opcode, insn.kind);
    MoveDispatch(env, Fetch(s), insn.opcode);
    LoadEffect(env, Fetch(s), insn.opcode);
    LoadApply(insn, s.pc, needs, RegsOf(s), v);
    WrapWrap(s.pc + 2, 2);
    Longs(0, v);
  }

  lemma StoreEffect(env: Env, s: State, op: bv16)
    requires EaMode(op) == 0 && (OpMode(op) == 2 || OpMode(op) == 5)
    ensures var v := s.D[Reg0(op)];
            var t := if OpMode(op) == 5 then Fetch(s) else s;
            var addr := if OpMode(op) == 5 then Wrap(s.A[Reg9(op)] + Disp16(env.code(s.pc))) else s.A[Reg9(op)];
            DecodeMove(env, s, op, 4) == Some(SetLogicFlags(t.(mem := Write(s.mem, addr, v, 4)), v, 4))
  {
    hide SetLogicFlags, Merge, Disp16, Write;
    Longs(0, s.D[Reg0(op)]);
    hide Low;
  }

  lemma StoreStep(env: Env, s: State, insn: Insn)
    requires Encodes(env, s.pc, insn) && insn.kind.IsStore()
    ensures var v := s.D[Reg0(insn.opcode)];
            var base: int := s.A[Reg9(insn.opcode)];
            var addr := if insn.kind.StoreD16? then Wrap(base + Disp16(insn.ext)) else base;
            Step(env, s) == Some(s.(pc := Wrap(s.pc + insn.len), mem := Write(s.mem, addr, v, 4),
                                    ccr := UpdateNzvc(s.ccr, NzFlags(v, 4))))
  {
    hide Classify, ClassifyMove, Dispatch, DecodeMove, Low, Disp16, Reg9, Reg0, EaMode, OpMode, Write;
    MoveOpcode(insn.opcode);
    MemoryOpcode(insn.opcode, insn.kind);
    MoveDispatch(env, Fetch(s), insn.opcode);
    StoreEffect(env, Fetch(s), insn.opcode);
    WrapWrap(s.pc + 2, 2);
    Longs(0, s.D[Reg0(insn.opcode)]);
  }

  lemma RtsRefines(env: Env, s: State, insn: Insn)
    requires Encodes(env, s.pc, insn) && insn.kind.Rts?
    ensures Step(env, s) == Some(FastRts(s))
  {
    Group4Opcode(insn.opcode);
    hide Classify, GroupHandler, FastMoveq, FastMoveDnDm, FastArith, FastBcc8, ReadLong;
  }
}
