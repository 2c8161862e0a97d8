/** The specialised handlers of the opcode table agree with the group decoders they stand in for. */
module FastHandlers {
  import opened Machine
  import opened Alu
  import opened EffectiveAddress
  import opened Interpreter
  import opened JitCompile
  import opened JitDecode

  /** Equal, except perhaps in the unused CCR bits: the decoder leaves those alone, the fast handler clears them. */
  ghost predicate Stands(fast: State, slow: Option<State>, rest: int) {
    && slow.Some? && fast.(ccr := slow.value.ccr) == slow.value && SameFlags(fast.ccr, slow.value.ccr)
    && (fast.ccr.rest == slow.value.ccr.rest || (fast.ccr.rest == 0 && slow.value.ccr.rest == rest))
  }

  lemma FastMove(env: Env, s: State, op: bv16)
    requires HasFastMove(op)
    ensures Stands(FastMoveDnDm(s, op), GroupHandler(env, s, op), s.ccr.rest)
  {
    hide DecodeMove, Low, Reg9, Reg0;
    hide DecodeGroup4, DecodeGroup5, DecodeGroup6, DecodeGroup8, DecodeGroupB, DecodeGroupC, DecodeGroupE, DecodeAddSub;
    MoveFields(op);
    MoveEffect(env, s, op);
    Longs(0, s.D[Reg0(op)]);
  }

  lemma MoveFields(op: bv16)
    requires HasFastMove(op)
    ensures OpMode(op) == 0 && EaMode(op) == 0 && op & 0xF000 == 0x2000
  {
  }

  lemma FastMoveqAgrees(env: Env, s: State, op: bv16)
    requires HasFastMoveq(op)
    ensures Stands(FastMoveq(s, op), GroupHandler(env, s, op), s.ccr.rest)
  {
    hide DecodeMove, Low, Reg9, Disp8, EaMode, SizeField, Wrap;
    hide DecodeGroup4, DecodeGroup5, DecodeGroup6, DecodeGroup8, DecodeGroupB, DecodeGroupC, DecodeGroupE, DecodeAddSub;
    MoveqFields(op);
    Longs(0, Wrap(Disp8(op)));
  }

  lemma MoveqFields(op: bv16)
    requires HasFastMoveq(op)
    ensures op & 0x0100 == 0 && op & 0xF000 == 0x7000
  {
  }

  lemma ArithFields(op: bv16)
    requires HasFastArith(op)
    ensures OpMode(op) == 2 && EaMode(op) == 0
    ensures op & 0xF000 == 0xD000 || op & 0xF000 == 0x9000 || op & 0xF000 == 0xB000
  {
  }

  lemma FastArithAgrees(env: Env, s: State, op: bv16)
    requires HasFastArith(op)
    ensures GroupHandler(env, s, op) == Some(FastArith(s, op))
  {
    hide HasFastArith, DecodeMove, Low, Merge, Reg9, Reg0, OpMode, EaMode, Add, Sub, AddOrSub;
    hide DecodeGroup4, DecodeGroup5, DecodeGroup6, DecodeGroup8, DecodeGroupB, DecodeGroupC, DecodeGroupE, DecodeAddSub;
    ArithFields(op);
    var isAdd, d, v := op & 0xF000 == 0xD000, s.D[Reg9(op)], s.D[Reg0(op)];
    Longs(d, d);
    Longs(d, v);
    if op & 0xF000 == 0xB000 {
      CmpEffect(env, s, op);
    } else {
      ArithEffect(env, s, op, isAdd);
      FastAddSub(s, op, isAdd);
      Longs(d, AddOrSub(isAdd, d, v, s.ccr, 4).result);
    }
  }

  lemma BccFields(op: bv16)
    requires HasFastBcc(op)
    ensures op & 0xF000 == 0x6000 && Disp8(op) != 0 && Disp8(op) != -1 && Cond(op) != 0 && Cond(op) != 1
  {
  }

  lemma FastBccAgrees(env: Env, s: State, op: bv16)
    requires HasFastBcc(op)
    ensures GroupHandler(env, s, op) == Some(FastBcc8(s, op))
  {
    hide HasFastBcc, Disp8, Disp16, Cond, EvaluateCondition, Wrap, EaMode, SizeField;
    hide DecodeMove, DecodeGroup4, DecodeGroup5, DecodeGroup8, DecodeGroupB, DecodeGroupC, DecodeGroupE, DecodeAddSub;
    BccFields(op);
    WrapSum(s.pc, Disp8(op));
  }

  lemma FastRtsAgrees(env: Env, s: State)
    ensures GroupHandler(env, s, 0x4E75) == Some(FastRts(s))
  {
  }

  /**
    Whatever the opcode, dispatching through the table and decoding by group give the same registers,
    memory, PC and flags; when the unused CCR bits are clear, the very same state.
  */
  lemma FastHandlersAgree(env: Env, s: State, op: bv16)
    ensures var fast, slow := Dispatch(env, s, op), GroupHandler(env, s, op);
            && (fast.None? <==> slow.None?)
            && (fast.Some? && fast != slow ==> Stands(fast.value, slow, s.ccr.rest) && s.ccr.rest != 0)
  {
    hide GroupHandler, FastRts, FastBcc8, FastArith, FastMoveq, FastMoveDnDm;
    hide HasFastMove, HasFastMoveq, HasFastBcc, HasFastArith;
    if HasFastMoveq(op) {
      FastMoveqAgrees(env, s, op);
    } else if op == 0x4E75 {
      FastRtsAgrees(env, s);
    } else if HasFastBcc(op) {
      FastBccAgrees(env, s, op);
    } else if HasFastMove(op) {
      FastMove(env, s, op);
    } else if HasFastArith(op) {
      FastArithAgrees(env, s, op);
    }
  }

  /** MOVEQ with CCR bits 7 to 5 set: the table's handler clears them, the group decoder does not. */
  lemma UnusedBitsDiffer(env: Env, s: State)
    requires s.ccr.rest != 0
    ensures var fast, slow := Dispatch(env, s, 0x7000), GroupHandler(env, s, 0x7000);
            fast.Some? && slow.Some? && fast.value.ccr.rest == 0 && slow.value.ccr.rest == s.ccr.rest
  {
    assert HasFastMoveq(0x7000);
    MoveqFields(0x7000);
    hide DecodeMove, DecodeGroup4, DecodeGroup5, DecodeGroup6, DecodeGroup8, DecodeGroupB, DecodeGroupC, DecodeGroupE;
    hide DecodeAddSub, Disp8, Wrap, EaMode, SizeField;
  }
}
