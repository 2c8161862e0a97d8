/** Concrete blocks that lose X, or the flags before a BRA. */
module JitCounterexamples {
  import opened Machine
  import opened Bits
  import opened Alu
  import opened Interpreter
  import opened JitBlock
  import opened JitCompile
  import opened JitShape
  import opened JitFlags

  /** Two instruction words at address 0 and nothing behind them. */
  function TwoInstructions(first: bv16, second: bv16): u32 -> Option<bv16> {
    (pa: u32) => if pa == 0 then Some(first) else if pa == 2 then Some(second) else None
  }

  const NOTHING: Ccr := Ccr(false, false, false, false, false, 0)
  const ONES: Regs := [1, 0xFFFF_FFFF, 0, 0, 0, 0, 0, 0]
  const ZEROS: Regs := [0, 0, 0, 0, 0, 0, 0, 0]
  const START: Regfile := Regfile(ONES, ZEROS, NOTHING)

  /** ADD.L D0,D1 and MOVEQ #0,D2. */
  const ADD_MOVEQ: seq<Insn> := [Insn(0xD280, 0, Arith(true, 4), 2), Insn(0x7400, 0, Moveq, 2)]

  /** MOVEQ #0,D2 and BRA over four bytes. */
  const MOVEQ_BRA: seq<Insn> := [Insn(0x7400, 0, Moveq, 2), Insn(0x6004, 0, Bra(false), 2)]

  lemma ClassifyExamples()
    ensures Classify(0xD280) == Some(Arith(true, 4)) && Classify(0x7400) == Some(Moveq)
    ensures Classify(0x6004) == Some(Bra(false))
    ensures Reg9(0xD280) == 1 && Reg0(0xD280) == 0 && Reg9(0x7400) == 2 && Disp8(0x7400) == 0 && Disp8(0x6004) == 4
  {
  }

  lemma WordsAddMoveq()
    ensures var read := TwoInstructions(0xD280, 0x7400);
            ScanOne(read, 0) == Some(ADD_MOVEQ[0]) && ScanOne(read, 2) == Some(ADD_MOVEQ[1]) && ScanOne(read, 4) == None
  {
    hide Classify;
    ClassifyExamples();
  }

  lemma ScanAddMoveq()
    ensures Scan(TwoInstructions(0xD280, 0x7400), 0x1000, 0, 0, MAX_BLOCK_LENGTH) == ADD_MOVEQ
  {
    hide ScanOne, TwoInstructions, ScannedTarget;
    WordsAddMoveq();
    var read := TwoInstructions(0xD280, 0x7400);
    TailAddMoveq(read);
    NotLast(ADD_MOVEQ[0].kind);
  }

  lemma NotLast(k: Kind)
    requires k.Arith?
    ensures !k.Rts? && !k.IsBranch()
  {
  }

  lemma TailAddMoveq(read: u32 -> Option<bv16>)
    requires ScanOne(read, 2) == Some(ADD_MOVEQ[1]) && ScanOne(read, 4) == None
    ensures Scan(read, 0x1000, 2, 2, 63) == [ADD_MOVEQ[1]]
  {
    hide ScanOne, ScannedTarget;
    assert Scan(read, 0x1000, 4, 4, 62) == [];
  }

  lemma ScanMoveqBra()
    ensures Scan(TwoInstructions(0x7400, 0x6004), 0x1000, 0, 0, MAX_BLOCK_LENGTH) == MOVEQ_BRA
  {
    hide Classify;
    ClassifyExamples();
    var read := TwoInstructions(0x7400, 0x6004);
    assert ScanOne(read, 0) == Some(MOVEQ_BRA[0]) && ScanOne(read, 2) == Some(MOVEQ_BRA[1]);
    assert Scan(read, 0x1000, 2, 2, 63) == [MOVEQ_BRA[1]];
  }

  lemma NeedsAddMoveq()
    ensures FlagLiveness(ADD_MOVEQ).needs == [false, true]
  {
    assert ADD_MOVEQ[1..] == [ADD_MOVEQ[1]] && [ADD_MOVEQ[1]][1..] == [];
    assert FlagLiveness([ADD_MOVEQ[1]]) == Liveness([true], false);
  }

  lemma NeedsMoveqBra()
    ensures FlagLiveness(MOVEQ_BRA).needs == [false, false]
  {
    assert MOVEQ_BRA[1..] == [MOVEQ_BRA[1]] && [MOVEQ_BRA[1]][1..] == [];
    assert FlagLiveness([MOVEQ_BRA[1]]) == Liveness([false], false);
  }

  lemma OpsAddMoveq(needs: bool)
    ensures BuildOp(ADD_MOVEQ[0], 0x1000, needs) == Plain(Arith(true, 4), needs, 0x1000).(dst := 1)
    ensures BuildOp(ADD_MOVEQ[1], 0x1002, needs) == Plain(Moveq, needs, 0x1002).(dst := 2)
    ensures BuildOp(MOVEQ_BRA[0], 0x1000, needs) == Plain(Moveq, needs, 0x1000).(dst := 2)
    ensures BuildOp(MOVEQ_BRA[1], 0x1002, needs) == Plain(Bra(false), needs, 0x1002).(target := 0x1008)
  {
    ClassifyExamples();
    hide Reg9, Reg0, Disp8;
  }

  lemma TwoOps(insns: seq<Insn>, n0: bool, n1: bool)
    requires |insns| == 2 && insns[0].len == 2 && FlagLiveness(insns).needs == [n0, n1]
    ensures BuildOps(insns, [n0, n1], 0x1000) == [BuildOp(insns[0], 0x1000, n0), BuildOp(insns[1], 0x1002, n1)]
  {
    hide BuildOp;
    assert insns[1..] == [insns[1]] && [insns[1]][1..] == [] && [n0, n1][1..] == [n1] && [n1][1..] == [];
    assert BuildOps([insns[1]], [n1], 0x1002) == [BuildOp(insns[1], 0x1002, n1)];
  }

  /** 1 + 0xFFFFFFFF carries. */
  lemma AddEffect(o: JitOp)
    requires o == Plain(Arith(true, 4), o.needsFlags, 0x1000).(dst := 1)
    ensures Apply(o, START).ccr.x && !START.ccr.x
  {
  }

  lemma MoveqEffect(o: JitOp, r: Regfile)
    requires o.kind.Moveq? && o.imm == 0 && o.dst == 2
    ensures Apply(o, r).ccr.x == r.ccr.x && Apply(o, r).ccr.z
  {
  }

  /** Running a two-operation block whose operations are register operations. */
  lemma RunTwo(b: Block, c: DataCache, r: Regfile)
    requires b.Shaped() && |b.ops| == 2 && b.ops[0].kind.IsRegister() && b.ops[1].kind.IsRegister()
    ensures Execute(b, c, r).r == ApplyGuarded(b.ops[1], ApplyGuarded(b.ops[0], r))
  {
    hide ApplyGuarded;
    var first := ApplyGuarded(b.ops[0], r);
    var second := ApplyGuarded(b.ops[1], first);
    assert ExecuteFrom(b, c, second, 2).r == second;
    assert ExecuteFrom(b, c, first, 1).r == second;
  }

  lemma RunOneThenBra(b: Block, c: DataCache, r: Regfile)
    requires b.Shaped() && |b.ops| == 2 && b.ops[0].kind.IsRegister() && b.ops[1].kind.Bra?
    ensures Execute(b, c, r).r == ApplyGuarded(b.ops[0], r)
  {
    hide ApplyGuarded;
    assert ExecuteFrom(b, c, ApplyGuarded(b.ops[0], r), 1).r == ApplyGuarded(b.ops[0], r);
  }

  /**
    ADD.L D0,D1 followed by MOVEQ: the addition carries, so X should be set, but the compiled block
    leaves the X it was entered with.
  */
  lemma XIsLost(cycles: bv16 -> nat, c: DataCache)
    ensures Compile(TwoInstructions(0xD280, 0x7400), 0x1000, 0, cycles).Some?
    ensures var b := Compile(TwoInstructions(0xD280, 0x7400), 0x1000, 0, cycles).value;
            b.Shaped() && !Execute(b, c, START).r.ccr.x && Execute(AllFlags(b), c, START).r.ccr.x
  {
    hide Scan, FlagLiveness, BuildOps, BuildOp, Apply, Execute, Cumulative;
    ScanAddMoveq();
    NeedsAddMoveq();
    TwoOps(ADD_MOVEQ, false, true);
    OpsAddMoveq(false);
    OpsAddMoveq(true);
    var b := Compile(TwoInstructions(0xD280, 0x7400), 0x1000, 0, cycles).value;
    var full := AllFlags(b);
    RunTwo(b, c, START);
    RunTwo(full, c, START);
    AddEffect(b.ops[0]);
    AddEffect(full.ops[0]);
    MoveqEffect(b.ops[1], ApplyGuarded(b.ops[0], START));
    MoveqEffect(full.ops[1], ApplyGuarded(full.ops[0], START));
  }

  /** MOVEQ #0 before a BRA should set Z; the compiled block leaves Z clear. */
  lemma BraLosesFlags(cycles: bv16 -> nat, c: DataCache)
    ensures Compile(TwoInstructions(0x7400, 0x6004), 0x1000, 0, cycles).Some?
    ensures var b := Compile(TwoInstructions(0x7400, 0x6004), 0x1000, 0, cycles).value;
            b.Shaped() && !Execute(b, c, START).r.ccr.z && Execute(AllFlags(b), c, START).r.ccr.z
  {
    hide Scan, FlagLiveness, BuildOps, BuildOp, Apply, Execute, Cumulative;
    ScanMoveqBra();
    NeedsMoveqBra();
    TwoOps(MOVEQ_BRA, false, false);
    OpsAddMoveq(false);
    var b := Compile(TwoInstructions(0x7400, 0x6004), 0x1000, 0, cycles).value;
    var full := AllFlags(b);
    RunOneThenBra(b, c, START);
    RunOneThenBra(full, c, START);
    MoveqEffect(full.ops[0], START);
  }
}
