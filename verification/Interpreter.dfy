/**
  The instruction interpreter: one step fetches an opcode, looks up its handler and executes it.

  Instructions that no compiled block can contain (exceptions, system control, division, bit fields,
  MOVEM and the like) make Step return None.
*/
module Interpreter {
  import opened Machine
  import opened Bits
  import opened Alu
  import opened EffectiveAddress
  import MultiLimb
  import Bcd

  // ----- Condition codes -----

  /** N, Z, V and C are replaced; X and the unused bits stay. */
  function UpdateNzvc(ccr: Ccr, c: Ccr): Ccr {
    ccr.(n := c.n, z := c.z, v := c.v, c := c.c)
  }

  function SetLogicFlags(s: State, v: u32, n: Size): State {
    s.(ccr := UpdateNzvc(s.ccr, NzFlags(Low(v, n), n)))
  }

  /** The fast handlers rebuild the CCR as (ccr & 0x10) | nz, which also clears the unused bits. */
  function KeepX(ccr: Ccr, v: u32, n: Size): Ccr {
    NzFlags(v, n).(x := ccr.x)
  }

  predicate EvaluateCondition(cond: bv4, f: Ccr) {
    if cond == 0 then true
    else if cond == 1 then false
    else if cond == 2 then !f.c && !f.z
    else if cond == 3 then f.c || f.z
    else if cond == 4 then !f.c
    else if cond == 5 then f.c
    else if cond == 6 then !f.z
    else if cond == 7 then f.z
    else if cond == 8 then !f.v
    else if cond == 9 then f.v
    else if cond == 10 then !f.n
    else if cond == 11 then f.n
    else if cond == 12 then f.n == f.v
    else if cond == 13 then f.n != f.v
    else if cond == 14 then !f.z && f.n == f.v
    else f.z || f.n != f.v
  }

  // ----- Fields of the opcode word -----

  function Reg9(op: bv16): Reg { Bits11to9(op) as int }
  function Reg0(op: bv16): Reg { Bits2to0(op) as int }
  function OpMode(op: bv16): bv3 { Bits8to6(op) }
  function EaMode(op: bv16): bv3 { Bits5to3(op) }
  function SizeField(op: bv16): bv16 { (op >> 6) & 3 }
  function Cond(op: bv16): bv4 { ((op >> 8) & 0xF) as bv4 }

  function Ea(op: bv16): Option<Operand> {
    Decode(EaMode(op), Bits2to0(op))
  }

  function Size2(op: bv16): Size {
    var f := SizeField(op);
    if f == 0 then 1 else if f == 1 then 2 else if f == 2 then 4 else 2
  }

  /** Three-bit immediate in which zero stands for eight. */
  function Quick(op: bv16): int {
    var d := Bits11to9(op) as int;
    if d == 0 then 8 else d
  }

  function WriteD(s: State, r: Reg, v: u32, n: Size): State {
    s.(D := s.D[r := Merge(s.D[r], v, n)])
  }

  // ----- Handlers -----

  function DecodeMove(env: Env, s: State, op: bv16, n: Size): Option<State> {
    match Ea(op)
    case None => None
    case Some(src) =>
      var got := ReadValue(env, s, src, n);
      if OpMode(op) == 1 then
        Some(got.s.(A := got.s.A[Reg9(op) := if n == 2 then SignExtend(got.value, 2) else got.value]))
      else
        match Decode(OpMode(op), Bits11to9(op))
        case None => None
        case Some(dst) => Some(SetLogicFlags(WriteValue(env, got.s, dst, n, got.value), got.value, n))
  }

  function FastMoveDnDm(s: State, op: bv16): State {
    var v := s.D[Reg0(op)];
    s.(D := s.D[Reg9(op) := v], ccr := KeepX(s.ccr, v, 4))
  }

  function FastMoveq(s: State, op: bv16): State {
    var v := Wrap(Disp8(op));
    s.(D := s.D[Reg9(op) := v], ccr := KeepX(s.ccr, v, 4))
  }

  function DecodeMoveq(s: State, op: bv16): Option<State> {
    if op & 0x0100 != 0 then None
    else
      var v := Wrap(Disp8(op));
      Some(SetLogicFlags(s.(D := s.D[Reg9(op) := v]), v, 4))
  }

  function FastRts(s: State): State {
    var sp: int := s.A[7];
    s.(pc := ReadLong(s.mem, sp), A := s.A[7 := Wrap(sp + 4)])
  }

  function FastBcc8(s: State, op: bv16): State {
    if EvaluateCondition(Cond(op), s.ccr) then s.(pc := Wrap(s.pc + Disp8(op))) else s
  }

  function DecodeGroup6(env: Env, s: State, op: bv16): Option<State> {
    var d :=
      if Disp8(op) == 0 then
        var f := FetchWord(env, s);
        Got(Wrap(Disp16(f.word)), f.s)
      else if Disp8(op) == -1 then FetchLong(env, s)
      else Got(Wrap(Disp8(op)), s);
    var target := Wrap(s.pc + d.value);
    if Cond(op) == 0 then Some(d.s.(pc := target))
    else if Cond(op) == 1 then None
    else Some(if EvaluateCondition(Cond(op), d.s.ccr) then d.s.(pc := target) else d.s)
  }

  function BitTest(env: Env, s: State, op: bv16): Option<State> {
    match Ea(op)
    case None => None
    case Some(o) =>
      var n: Size := if o.mode == DataReg then 4 else 1;
      var bit := s.D[Reg9(op)] % 32;
      var got := ReadValue(env, s, o, n);
      Some(got.s.(ccr := got.s.ccr.(z := !Bit(got.value, if n == 1 then bit % 8 else bit))))
  }

  function DecodeClr(env: Env, s: State, op: bv16): Option<State> {
    match Ea(op)
    case None => None
    case Some(o) =>
      var t := WriteValue(env, s, o, Size2(op), 0);
      Some(t.(ccr := KeepX(t.ccr, 0, 4)))
  }

  function DecodeNeg(env: Env, s: State, op: bv16): Option<State> {
    match Ea(op)
    case None => None
    case Some(o) =>
      var n := Size2(op);
      var m := ReadForModify(env, s, o, n);
      var r := Sub(0, Low(m.value, n), s.ccr, n);
      Some(WriteFromModify(m.s, o, m.addr, n, r.result).(ccr := r.ccr))
  }

  function DecodeNot(env: Env, s: State, op: bv16): Option<State> {
    match Ea(op)
    case None => None
    case Some(o) =>
      var n := Size2(op);
      var m := ReadForModify(env, s, o, n);
      var r := 0xFFFF_FFFF - m.value;
      Some(SetLogicFlags(WriteFromModify(m.s, o, m.addr, n, r), r, n))
  }

  function DecodeTst(env: Env, s: State, op: bv16): Option<State> {
    match Ea(op)
    case None => None
    case Some(o) =>
      var got := ReadValue(env, s, o, Size2(op));
      Some(SetLogicFlags(got.s, got.value, Size2(op)))
  }

  function DecodeLea(env: Env, s: State, op: bv16): Option<State> {
    match Ea(op)
    case None => None
    case Some(o) =>
      var a := ResolveAddress(env, s, o, 4);
      Some(a.s.(A := a.s.A[Reg9(op) := a.value]))
  }

  function ExtWord(s: State, r: Reg): State {
    var v := SignExtend(s.D[r], 1) % 0x1_0000;
    SetLogicFlags(WriteD(s, r, v, 2), v, 2)
  }

  function ExtLong(s: State, r: Reg): State {
    var v := SignExtend(s.D[r], 2);
    SetLogicFlags(s.(D := s.D[r := v]), v, 4)
  }

  function ExtByteLong(s: State, r: Reg): State {
    var v := SignExtend(s.D[r], 1);
    SetLogicFlags(s.(D := s.D[r := v]), v, 4)
  }

  function Swapped(v: u32): u32 {
    v / 0x1_0000 + v % 0x1_0000 * 0x1_0000
  }

  function DecodeGroup4(env: Env, s: State, op: bv16): Option<State> {
    if op & 0xFFC0 == 0x40C0 || op & 0xFFC0 == 0x44C0 || op & 0xFFC0 == 0x46C0 then None
    else if op & 0xFF00 == 0x4000 && SizeField(op) != 3 then None
    else if op & 0xFF00 == 0x4200 && SizeField(op) != 3 then DecodeClr(env, s, op)
    else if op & 0xFF00 == 0x4400 && SizeField(op) != 3 then DecodeNeg(env, s, op)
    else if op & 0xFF00 == 0x4600 && SizeField(op) != 3 then DecodeNot(env, s, op)
    else if op & 0xFFF8 == 0x4880 then Some(ExtWord(s, Reg0(op)))
    else if op & 0xFFF8 == 0x48C0 then Some(ExtLong(s, Reg0(op)))
    else if op & 0xFFF8 == 0x49C0 then Some(ExtByteLong(s, Reg0(op)))
    else if op & 0xFFF8 == 0x4840 then
      var v := Swapped(s.D[Reg0(op)]);
      Some(SetLogicFlags(s.(D := s.D[Reg0(op) := v]), v, 4))
    else if op & 0xFFC0 == 0x4840 then None
    else if op & 0xFF00 == 0x4A00 && SizeField(op) != 3 then DecodeTst(env, s, op)
    else if op & 0xFFC0 == 0x4AC0 || op == 0x4AFC || op & 0xFB80 == 0x4880 then None
    else if op & 0xF1C0 == 0x41C0 then DecodeLea(env, s, op)
    else if op == 0x4E71 then Some(s)
    else if op == 0x4E75 then Some(FastRts(s))
    else None
  }

  function DecodeGroup5(env: Env, s: State, op: bv16): Option<State> {
    if SizeField(op) == 3 then None
    else
      var n := Size2(op);
      var isAdd := op & 0x0100 == 0;
      if EaMode(op) == 1 then
        var a := s.A[Reg0(op)];
        Some(s.(A := s.A[Reg0(op) := if isAdd then Wrap(a + Quick(op)) else Wrap(a - Quick(op))]))
      else
        match Ea(op)
        case None => None
        case Some(o) =>
          var m := ReadForModify(env, s, o, n);
          var v := Low(m.value, n);
          var r := if isAdd then Add(v, Quick(op), s.ccr, n) else Sub(v, Quick(op), s.ccr, n);
          Some(WriteFromModify(m.s, o, m.addr, n, r.result).(ccr := r.ccr))
  }

  /** Operand size of the two-operand groups. */
  function OpModeSize(m: bv3): Size {
    if m == 0 || m == 4 then 1 else if m == 2 || m == 6 then 4 else 2
  }

  function DecodeLogic(env: Env, s: State, op: bv16, l: LogicOp): Option<State> {
    var n := OpModeSize(OpMode(op));
    match Ea(op)
    case None => None
    case Some(o) =>
      if OpMode(op) & 4 != 0 then
        var m := ReadForModify(env, s, o, n);
        var r := LogicN(l, m.value, s.D[Reg9(op)], 4);
        Some(SetLogicFlags(WriteFromModify(m.s, o, m.addr, n, r), r, n))
      else
        var got := ReadValue(env, s, o, n);
        var r := LogicN(l, got.s.D[Reg9(op)], got.value, 4);
        Some(SetLogicFlags(WriteD(got.s, Reg9(op), r, n), r, n))
  }

  function AddOrSub(isAdd: bool, a: u32, b: u32, ccr: Ccr, n: Size): AluResult {
    if isAdd then Add(a, b, ccr, n) else Sub(a, b, ccr, n)
  }

  /** ADD and SUB, ADDA and SUBA, and the register forms of ADDX and SUBX. */
  function DecodeAddSub(env: Env, s: State, op: bv16, isAdd: bool): Option<State> {
    var om := OpMode(op);
    if om == 3 || om == 7 then
      match Ea(op)
      case None => None
      case Some(o) =>
        var n: Size := if om == 3 then 2 else 4;
        var got := ReadValue(env, s, o, n);
        var v := if n == 2 then SignExtend(got.value, 2) else got.value;
        var a := got.s.A[Reg9(op)];
        Some(got.s.(A := got.s.A[Reg9(op) := if isAdd then Wrap(a + v) else Wrap(a - v)]))
    else
      var n := OpModeSize(om);
      if om & 4 != 0 && EaMode(op) == 1 then None
      else if om & 4 != 0 && EaMode(op) == 0 then
        var a, b := Low(s.D[Reg9(op)], n), Low(s.D[Reg0(op)], n);
        var r := if isAdd then MultiLimb.AddX(a, b, s.ccr, n) else MultiLimb.SubX(a, b, s.ccr, n);
        Some(WriteD(s, Reg9(op), r.result, n).(ccr := r.ccr))
      else
        match Ea(op)
        case None => None
        case Some(o) =>
          if om & 4 != 0 then
            var m := ReadForModify(env, s, o, n);
            var r := AddOrSub(isAdd, Low(m.value, n), Low(s.D[Reg9(op)], n), s.ccr, n);
            Some(WriteFromModify(m.s, o, m.addr, n, r.result).(ccr := r.ccr))
          else
            var got := ReadValue(env, s, o, n);
            var r := AddOrSub(isAdd, Low(got.s.D[Reg9(op)], n), Low(got.value, n), s.ccr, n);
            Some(WriteD(got.s, Reg9(op), r.result, n).(ccr := r.ccr))
  }

  function DecodeGroupB(env: Env, s: State, op: bv16): Option<State> {
    var om := OpMode(op);
    match Ea(op)
    case None => None
    case Some(o) =>
      if om == 3 || om == 7 then
        var n: Size := if om == 3 then 2 else 4;
        var got := ReadValue(env, s, o, n);
        var v := if n == 2 then SignExtend(got.value, 2) else got.value;
        Some(got.s.(ccr := UpdateNzvc(s.ccr, Sub(got.s.A[Reg9(op)], v, s.ccr, 4).ccr)))
      else if om & 4 != 0 && EaMode(op) == 1 then None
      else if om & 4 != 0 then DecodeLogic(env, s, op, Eor)
      else
        var n := OpModeSize(om);
        var got := ReadValue(env, s, o, n);
        var r := Sub(Low(got.s.D[Reg9(op)], n), Low(got.value, n), s.ccr, n);
        Some(got.s.(ccr := UpdateNzvc(s.ccr, r.ccr)))
  }

  function Product(a: int, b: int): int {
    a * b
  }

  /** V is set when the product does not fit; with 16-bit operands it always fits. */
  function MulUnsigned(a: u32, b: u32): AluResult {
    var p := Product(a, b);
    AluResult(Wrap(p), NzFlags(Wrap(p), 4).(v := p > 0xFFFF_FFFF))
  }

  function MulSigned(a: int, b: int): AluResult {
    var p := Product(a, b);
    AluResult(Wrap(p), NzFlags(Wrap(p), 4).(v := p > 0x7FFF_FFFF || p < -0x8000_0000))
  }

  function DecodeMul(env: Env, s: State, op: bv16): Option<State> {
    match Ea(op)
    case None => None
    case Some(o) =>
      var got := ReadValue(env, s, o, 2);
      var d, v := Low(got.s.D[Reg9(op)], 2), Low(got.value, 2);
      var r := if OpMode(op) == 3 then MulUnsigned(d, v) else MulSigned(Signed(d, 2), Signed(v, 2));
      Some(got.s.(D := got.s.D[Reg9(op) := r.result], ccr := UpdateNzvc(got.s.ccr, r.ccr)))
  }

  function BcdRegister(s: State, op: bv16, r: AluResult): State {
    WriteD(s, Reg9(op), r.result, 1).(ccr := r.ccr)
  }

  function DecodeGroup8(env: Env, s: State, op: bv16): Option<State> {
    var om := OpMode(op);
    if om == 3 || om == 7 then None
    else if om == 4 && EaMode(op) == 0 then
      Some(BcdRegister(s, op, Bcd.SubBcd(s.D[Reg0(op)] % 0x100, s.D[Reg9(op)] % 0x100, s.ccr)))
    else if om & 4 != 0 && (EaMode(op) == 0 || EaMode(op) == 1) then None
    else DecodeLogic(env, s, op, Or)
  }

  function DecodeGroupC(env: Env, s: State, op: bv16): Option<State> {
    var om, x, y := OpMode(op), Reg9(op), Reg0(op);
    if om == 3 || om == 7 then DecodeMul(env, s, op)
    else if om == 4 && EaMode(op) == 0 then
      Some(BcdRegister(s, op, Bcd.AddBcd(s.D[y] % 0x100, s.D[x] % 0x100, s.ccr)))
    else if om == 4 && EaMode(op) == 1 then None
    else if om == 5 && EaMode(op) == 0 then Some(s.(D := s.D[x := s.D[y]][y := s.D[x]]))
    else if om == 5 && EaMode(op) == 1 then Some(s.(A := s.A[x := s.A[y]][y := s.A[x]]))
    else if om == 6 && EaMode(op) == 1 then Some(s.(D := s.D[x := s.A[y]], A := s.A[y := s.D[x]]))
    else DecodeLogic(env, s, op, And)
  }

  /** Shifts and rotates of a data register by an immediate or register count. */
  function DecodeGroupE(s: State, op: bv16): Option<State> {
    if SizeField(op) == 3 then None
    else
      var n := Size2(op);
      var count: nat := if op & 0x0020 != 0 then s.D[Reg9(op)] % 64 else Quick(op);
      var v := Low(s.D[Reg0(op)], n);
      var isLeft := op & 0x0100 != 0;
      var kind := (op >> 3) & 3;
      var r :=
        if kind == 0 then (if isLeft then ShiftLeft(v, count, n) else ArithShiftRight(v, count, n))
        else if kind == 1 then (if isLeft then ShiftLeft(v, count, n) else LogicalShiftRight(v, count, n))
        else if kind == 2 then
          (if isLeft then RotateLeftX(v, count, n, s.ccr) else RotateRightX(v, count, n, s.ccr))
        else (if isLeft then RotateLeft(v, count, n) else RotateRight(v, count, n));
      Some(WriteD(s, Reg0(op), r.result, n).(ccr := r.ccr))
  }

  // ----- Dispatch -----

  /** Opcodes for which the table holds a specialised handler. */
  predicate HasFastMove(op: bv16) { op & 0xF1F8 == 0x2000 }
  predicate HasFastMoveq(op: bv16) { op & 0xF100 == 0x7000 }
  predicate HasFastBcc(op: bv16) {
    op & 0xF000 == 0x6000 && op & 0x0E00 != 0 && op & 0xFF != 0 && op & 0xFF != 0xFF
  }
  predicate HasFastArith(op: bv16) {
    op & 0xF1F8 == 0xD080 || op & 0xF1F8 == 0x9080 || op & 0xF1F8 == 0xB080
  }

  /** ADD.L, SUB.L and CMP.L between data registers. */
  function FastArith(s: State, op: bv16): State {
    var d, v := s.D[Reg9(op)], s.D[Reg0(op)];
    if op & 0xF000 == 0xD000 then
      s.(D := s.D[Reg9(op) := Add(d, v, s.ccr, 4).result], ccr := Add(d, v, s.ccr, 4).ccr)
    else if op & 0xF000 == 0x9000 then
      s.(D := s.D[Reg9(op) := Sub(d, v, s.ccr, 4).result], ccr := Sub(d, v, s.ccr, 4).ccr)
    else s.(ccr := UpdateNzvc(s.ccr, Sub(d, v, s.ccr, 4).ccr))
  }

  /** The handler selected by bits 15 to 12 alone. */
  function GroupHandler(env: Env, s: State, op: bv16): Option<State> {
    var g := op & 0xF000;
    if g == 0x0000 then
      (if op & 0x0100 != 0 && EaMode(op) != 1 && SizeField(op) == 0 then BitTest(env, s, op) else None)
    else if g == 0x1000 then DecodeMove(env, s, op, 1)
    else if g == 0x2000 then DecodeMove(env, s, op, 4)
    else if g == 0x3000 then DecodeMove(env, s, op, 2)
    else if g == 0x4000 then DecodeGroup4(env, s, op)
    else if g == 0x5000 then DecodeGroup5(env, s, op)
    else if g == 0x6000 then DecodeGroup6(env, s, op)
    else if g == 0x7000 then DecodeMoveq(s, op)
    else if g == 0x8000 then DecodeGroup8(env, s, op)
    else if g == 0x9000 then DecodeAddSub(env, s, op, false)
    else if g == 0xB000 then DecodeGroupB(env, s, op)
    else if g == 0xC000 then DecodeGroupC(env, s, op)
    else if g == 0xD000 then DecodeAddSub(env, s, op, true)
    else if g == 0xE000 then DecodeGroupE(s, op)
    else None
  }

  function Dispatch(env: Env, s: State, op: bv16): Option<State> {
    if HasFastMoveq(op) then Some(FastMoveq(s, op))
    else if op == 0x4E75 then Some(FastRts(s))
    else if HasFastBcc(op) then Some(FastBcc8(s, op))
    else if HasFastMove(op) then Some(FastMoveDnDm(s, op))
    else if HasFastArith(op) then Some(FastArith(s, op))
    else GroupHandler(env, s, op)
  }

  function Step(env: Env, s: State): Option<State> {
    var f := FetchWord(env, s);
    Dispatch(env, f.s, f.word)
  }
}
