/** The unused CCR bits, once clear, stay clear. */
module InterpreterLaws {
  import opened Machine
  import opened Bits
  import opened Alu
  import opened EffectiveAddress
  import opened Interpreter
  import MultiLimb
  import Bcd

  // ----- The unused CCR bits -----

  ghost predicate Clear(t: Option<State>) {
    t.Some? ==> t.value.ccr.rest == 0
  }

  lemma AddressKeepsCcr(env: Env, s: State, o: Operand, n: nat)
    ensures ResolveAddress(env, s, o, n).s.ccr == s.ccr
  {
  }

  lemma AccessKeepsCcr(env: Env, s: State, o: Operand, n: Size, v: u32)
    ensures ReadValue(env, s, o, n).s.ccr == s.ccr && WriteValue(env, s, o, n, v).ccr == s.ccr
    ensures ReadForModify(env, s, o, n).s.ccr == s.ccr
    ensures forall a :: WriteFromModify(s, o, a, n, v).ccr == s.ccr
  {
    AddressKeepsCcr(env, s, o, n);
    hide ResolveAddress, Read, Write, Low, Merge, SignExtend, Wrap;
  }

  lemma ArithmeticClears(a: u32, b: u32, c: Ccr, n: Size, x: bool)
    ensures Add(a, b, c, n, x).ccr.rest == 0 && Sub(a, b, c, n, x).ccr.rest == 0
    ensures MultiLimb.AddX(a, b, c, n).ccr.rest == 0 && MultiLimb.SubX(a, b, c, n).ccr.rest == 0
    ensures AddOrSub(x, a, b, c, n).ccr.rest == 0
  {
  }

  lemma BcdClears(a: u8, b: u8, c: Ccr)
    ensures Bcd.AddBcd(a, b, c).ccr.rest == 0 && Bcd.SubBcd(a, b, c).ccr.rest == 0
  {
  }

  lemma MoveClears(env: Env, s: State, op: bv16, n: Size)
    requires s.ccr.rest == 0
    ensures Clear(DecodeMove(env, s, op, n))
  {
    hide ReadValue, WriteValue, Low, SignExtend, Reg9, OpMode, Decode;
    if Ea(op).Some? {
      AccessKeepsCcr(env, s, Ea(op).value, n, 0);
      var got := ReadValue(env, s, Ea(op).value, n);
      if Decode(OpMode(op), Bits11to9(op)).Some? {
        AccessKeepsCcr(env, got.s, Decode(OpMode(op), Bits11to9(op)).value, n, got.value);
      }
    }
  }

  lemma BranchClears(env: Env, s: State, op: bv16)
    requires s.ccr.rest == 0
    ensures Clear(DecodeGroup6(env, s, op))
  {
  }

  lemma OperandClears(env: Env, s: State, op: bv16)
    requires s.ccr.rest == 0
    ensures Clear(BitTest(env, s, op)) && Clear(DecodeTst(env, s, op)) && Clear(DecodeLea(env, s, op))
    ensures Clear(DecodeMul(env, s, op))
  {
    hide ReadValue, ResolveAddress, Low, Reg9, Product, Bit, Size2, Wrap;
    if Ea(op).Some? {
      AccessKeepsCcr(env, s, Ea(op).value, 1, 0);
      AccessKeepsCcr(env, s, Ea(op).value, 2, 0);
      AccessKeepsCcr(env, s, Ea(op).value, 4, 0);
      AccessKeepsCcr(env, s, Ea(op).value, Size2(op), 0);
      AddressKeepsCcr(env, s, Ea(op).value, 4);
    }
  }

  lemma ModifyClears(env: Env, s: State, op: bv16)
    requires s.ccr.rest == 0
    ensures Clear(DecodeClr(env, s, op)) && Clear(DecodeNeg(env, s, op)) && Clear(DecodeNot(env, s, op))
  {
    hide ReadForModify, WriteFromModify, WriteValue, Low, Sub, Size2;
    if Ea(op).Some? {
      var o, n := Ea(op).value, Size2(op);
      var m := ReadForModify(env, s, o, n);
      AccessKeepsCcr(env, s, o, n, 0);
      AccessKeepsCcr(env, m.s, o, n, 0xFFFF_FFFF - m.value);
      ArithmeticClears(0, Low(m.value, n), s.ccr, n, false);
    }
  }

  lemma Group4Clears(env: Env, s: State, op: bv16)
    requires s.ccr.rest == 0
    ensures Clear(DecodeGroup4(env, s, op))
  {
    hide DecodeClr, DecodeNeg, DecodeNot, DecodeTst, DecodeLea, Low, Merge, SignExtend, ReadLong, Wrap, Reg0;
    ModifyClears(env, s, op);
    OperandClears(env, s, op);
  }

  lemma Group5Clears(env: Env, s: State, op: bv16)
    requires s.ccr.rest == 0
    ensures Clear(DecodeGroup5(env, s, op))
  {
  }

  lemma LogicClears(env: Env, s: State, op: bv16, l: LogicOp)
    requires s.ccr.rest == 0
    ensures Clear(DecodeLogic(env, s, op, l))
  {
    hide ReadForModify, WriteFromModify, ReadValue, Low, Merge, LogicN, Reg9, OpModeSize, OpMode;
    if Ea(op).Some? {
      var o, n := Ea(op).value, OpModeSize(OpMode(op));
      var m := ReadForModify(env, s, o, n);
      AccessKeepsCcr(env, s, o, n, 0);
      AccessKeepsCcr(env, m.s, o, n, LogicN(l, m.value, s.D[Reg9(op)], 4));
    }
  }

  lemma AddSubClears(env: Env, s: State, op: bv16, isAdd: bool)
    requires s.ccr.rest == 0
    ensures Clear(DecodeAddSub(env, s, op, isAdd))
  {
    hide ReadForModify, WriteFromModify, ReadValue, Low, Merge, AddOrSub, SignExtend, Wrap, Reg9, Reg0, OpModeSize;
    hide MultiLimb.AddX, MultiLimb.SubX;
    var n := OpModeSize(OpMode(op));
    ArithmeticClears(Low(s.D[Reg9(op)], n), Low(s.D[Reg0(op)], n), s.ccr, n, false);
    if Ea(op).Some? {
      var o := Ea(op).value;
      var m, got := ReadForModify(env, s, o, n), ReadValue(env, s, o, n);
      AccessKeepsCcr(env, s, o, 2, 0);
      AccessKeepsCcr(env, s, o, 4, 0);
      ArithmeticClears(Low(m.value, n), Low(s.D[Reg9(op)], n), s.ccr, n, isAdd);
      ArithmeticClears(Low(got.s.D[Reg9(op)], n), Low(got.value, n), s.ccr, n, isAdd);
    }
  }

  lemma GroupBClears(env: Env, s: State, op: bv16)
    requires s.ccr.rest == 0
    ensures Clear(DecodeGroupB(env, s, op))
  {
    hide ReadValue, Low, Sub, SignExtend, Reg9, OpModeSize, DecodeLogic;
    LogicClears(env, s, op, Eor);
    if Ea(op).Some? {
      AccessKeepsCcr(env, s, Ea(op).value, 2, 0);
      AccessKeepsCcr(env, s, Ea(op).value, 4, 0);
      AccessKeepsCcr(env, s, Ea(op).value, OpModeSize(OpMode(op)), 0);
    }
  }

  lemma Group8CClears(env: Env, s: State, op: bv16)
    requires s.ccr.rest == 0
    ensures Clear(DecodeGroup8(env, s, op)) && Clear(DecodeGroupC(env, s, op))
  {
    hide DecodeLogic, DecodeMul, Bcd.AddBcd, Bcd.SubBcd, Merge, Reg9, Reg0, OpMode, EaMode;
    LogicClears(env, s, op, Or);
    LogicClears(env, s, op, And);
    OperandClears(env, s, op);
    BcdClears(s.D[Reg0(op)] % 0x100, s.D[Reg9(op)] % 0x100, s.ccr);
  }

  lemma ShiftClears(s: State, op: bv16)
    requires s.ccr.rest == 0
    ensures Clear(DecodeGroupE(s, op))
  {
  }

  lemma FastClears(s: State, op: bv16)
    requires s.ccr.rest == 0
    ensures FastMoveq(s, op).ccr.rest == 0 && FastRts(s).ccr.rest == 0 && FastBcc8(s, op).ccr.rest == 0
    ensures FastMoveDnDm(s, op).ccr.rest == 0 && FastArith(s, op).ccr.rest == 0
  {
  }

  /** Groups 0 to 7, and then 8 to F. */
  lemma LowGroupClears(env: Env, s: State, op: bv16)
    requires s.ccr.rest == 0 && op & 0xF000 < 0x8000
    ensures Clear(GroupHandler(env, s, op))
  {
    hide DecodeMove, DecodeGroup4, DecodeGroup5, DecodeGroup6, DecodeMoveq, BitTest, EaMode, SizeField, Clear;
    MoveClears(env, s, op, 1);
    MoveClears(env, s, op, 2);
    MoveClears(env, s, op, 4);
    BranchClears(env, s, op);
    OperandClears(env, s, op);
    Group4Clears(env, s, op);
    Group5Clears(env, s, op);
    MoveqClears(s, op);
    NothingClears();
  }

  lemma HighGroupClears(env: Env, s: State, op: bv16)
    requires s.ccr.rest == 0 && op & 0xF000 >= 0x8000
    ensures Clear(GroupHandler(env, s, op))
  {
    hide DecodeGroup8, DecodeGroupB, DecodeGroupC, DecodeGroupE, DecodeAddSub, Clear;
    AddSubClears(env, s, op, true);
    AddSubClears(env, s, op, false);
    GroupBClears(env, s, op);
    Group8CClears(env, s, op);
    ShiftClears(s, op);
    NothingClears();
  }

  lemma GroupClears(env: Env, s: State, op: bv16)
    requires s.ccr.rest == 0
    ensures Clear(GroupHandler(env, s, op))
  {
    hide GroupHandler, Clear;
    if op & 0xF000 < 0x8000 {
      LowGroupClears(env, s, op);
    } else {
      HighGroupClears(env, s, op);
    }
  }

  lemma NothingClears()
    ensures Clear(None)
  {
  }

  /** No instruction of the model sets the unused CCR bits. */
  lemma StepClears(env: Env, s: State)
    requires s.ccr.rest == 0
    ensures Clear(Step(env, s))
  {
    hide GroupHandler, FastMoveq, FastRts, FastBcc8, FastMoveDnDm, FastArith;
    hide HasFastMove, HasFastMoveq, HasFastBcc, HasFastArith;
    GroupClears(env, FetchWord(env, s).s, env.code(s.pc));
    FastClears(FetchWord(env, s).s, env.code(s.pc));
  }

  lemma MoveqClears(s: State, op: bv16)
    requires s.ccr.rest == 0
    ensures Clear(DecodeMoveq(s, op))
  {
  }

  // ----- Conditions -----

  /** Neighbouring condition codes are each other's negation. */
  lemma ConditionsPair(cond: bv4, f: Ccr)
    ensures EvaluateCondition(cond ^ 1, f) == !EvaluateCondition(cond, f)
  {
    assert cond ^ 1 == if cond & 1 == 0 then cond + 1 else cond - 1;
  }

  /**
    After comparing a with b, the conditions mean what their names say: HI, CC, EQ order the operands
    as unsigned numbers, GT and GE as signed ones, VS and MI describe the signed difference.
  */
  lemma ConditionsCompare(a: u32, b: u32, ccr: Ccr, n: Size)
    requires a < Modulus(n) && b < Modulus(n)
    ensures var f := UpdateNzvc(ccr, Sub(a, b, ccr, n).ccr);
            var sa, sb := Signed(a, n), Signed(b, n);
            && EvaluateCondition(0, f)
            && (EvaluateCondition(2, f) <==> a > b)
            && (EvaluateCondition(4, f) <==> a >= b)
            && (EvaluateCondition(7, f) <==> a == b)
            && (EvaluateCondition(14, f) <==> sa > sb)
            && (EvaluateCondition(12, f) <==> sa >= sb)
            && (EvaluateCondition(9, f) <==> !(-Modulus(n) <= 2 * (sa - sb) < Modulus(n)))
            && (EvaluateCondition(11, f) <==> Signed((a - b) % Modulus(n), n) < 0)
  {
    ModBelow(a - b, Modulus(n));
    hide Modulus;
    TopHalf(n);
  }

  lemma TopHalf(n: Size)
    ensures Modulus(n) >= 0x100 && Modulus(n) % 2 == 0
  {
  }
}
