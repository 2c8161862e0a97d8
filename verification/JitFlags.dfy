/**
  Dead-flag elimination preserves meaning, and exactly which condition codes a block leaves behind.

  Two blocks built from the same instructions, each keeping at least the flags that the backward pass
  asks for, are compared.  One of them is usually the block that keeps every flag.
*/
module JitFlags {
  import opened Machine
  import opened Bits
  import opened Alu
  import opened Interpreter
  import opened JitBlock
  import opened JitCompile
  import opened JitShape

  // ----- How single operations treat the condition codes -----

  /** Overwrites N, Z, V and C without looking at them. */
  predicate Killer(k: Kind) {
    !k.IsBranch() && !Transparent(k) && !k.Btst?
  }

  /** The operations that also overwrite X. */
  predicate XSetter(k: Kind) {
    k.Arith? || k.QuickDn? || k.Neg? || k.LeftShift? || k.Asr? || k.Lsr?
  }

  lemma NoExtend(isAdd: bool, a: u32, b: u32, c1: Ccr, c2: Ccr, n: Size)
    ensures AddOrSub(isAdd, a, b, c1, n) == AddOrSub(isAdd, a, b, c2, n)
    ensures Sub(a, b, c1, n) == Sub(a, b, c2, n)
    ensures AddOrSub(isAdd, a, b, c1, n).ccr.rest == 0 && Sub(a, b, c1, n).ccr.rest == 0
  {
  }

  predicate ApplyFlagsAt(op: JitOp, r: Regfile, c: Ccr) {
    var t, u := Apply(op, r), Apply(op, r.(ccr := c));
    && t.D == u.D && t.A == u.A
    && (Killer(op.kind) ==> SameNzvc(t.ccr, u.ccr))
    && (Transparent(op.kind) ==> t.ccr == r.ccr && u.ccr == c)
    && (op.kind.Btst? ==> t.ccr == r.ccr.(z := t.ccr.z) && u.ccr == c.(z := t.ccr.z))
    && (if XSetter(op.kind) then t.ccr.x == u.ccr.x else t.ccr.x == r.ccr.x && u.ccr.x == c.x)
    && (r.ccr.rest == 0 ==> t.ccr.rest == 0)
  }

  predicate Carrying(k: Kind) {
    k.Arith? || k.QuickDn? || k.Cmp? || k.Neg?
  }

  predicate Shifting(k: Kind) {
    k.LeftShift? || k.Asr? || k.Lsr?
  }

  lemma ApplyFlagsCarrying(op: JitOp, r: Regfile, c: Ccr)
    requires Carrying(op.kind)
    ensures ApplyFlagsAt(op, r, c)
  {
    var n := op.kind.size;
    var d := Low(r.D[op.dst], n);
    if op.kind.Arith? {
      NoExtend(op.kind.isAdd, d, Low(r.D[op.src], n), r.ccr, c, n);
    } else if op.kind.QuickDn? {
      NoExtend(op.kind.isAdd, d, Low(Wrap(op.imm), n), r.ccr, c, n);
    } else if op.kind.Cmp? {
      NoExtend(false, d, Low(r.D[op.src], n), r.ccr, c, n);
    } else {
      NoExtend(false, 0, d, r.ccr, c, n);
    }
    hide AddOrSub, Sub, Low, Merge, Wrap, Signed, SignExtend, Sign, Product, LogicN, Modulus, Bit, Swapped;
    hide Shl, LastOut, IndexedAddress, Pow2, ShiftCount;
  }

  lemma ApplyFlagsShifting(op: JitOp, r: Regfile, c: Ccr)
    requires Shifting(op.kind)
    ensures ApplyFlagsAt(op, r, c)
  {
    hide AddOrSub, Sub, Low, Merge, Wrap, Signed, SignExtend, Sign, Product, LogicN, Modulus, Bit, Swapped;
    hide Shl, LastOut, IndexedAddress, Pow2, ShiftCount;
  }

  lemma ApplyFlagsTransparent(op: JitOp, r: Regfile, c: Ccr)
    requires op.kind.IsRegister() && (Transparent(op.kind) || op.kind.Btst? || op.kind.Tst?)
    ensures ApplyFlagsAt(op, r, c)
  {
    hide AddOrSub, Sub, Low, Merge, Wrap, Signed, SignExtend, Sign, Product, LogicN, Modulus, Bit, Swapped;
    hide IndexScale;
  }

  lemma ApplyFlagsLogical(op: JitOp, r: Regfile, c: Ccr)
    requires op.kind.IsRegister() && !Transparent(op.kind) && !op.kind.Btst? && !op.kind.Tst?
    requires !Carrying(op.kind) && !Shifting(op.kind)
    ensures ApplyFlagsAt(op, r, c)
  {
    hide AddOrSub, Sub, Low, Merge, Wrap, Signed, SignExtend, Sign, Product, LogicN, Modulus, Bit, Swapped;
    hide Shl, LastOut, IndexedAddress, Pow2, ShiftCount;
  }

  /** Registers never depend on the CCR; flags depend on it only where the kind says so. */
  lemma ApplyFlags(op: JitOp, r: Regfile, c: Ccr)
    requires op.kind.IsRegister()
    ensures ApplyFlagsAt(op, r, c)
  {
    hide ApplyFlagsAt;
    if Carrying(op.kind) {
      ApplyFlagsCarrying(op, r, c);
    } else if Shifting(op.kind) {
      ApplyFlagsShifting(op, r, c);
    } else if Transparent(op.kind) || op.kind.Btst? || op.kind.Tst? {
      ApplyFlagsTransparent(op, r, c);
    } else {
      ApplyFlagsLogical(op, r, c);
    }
  }

  predicate SameOp(a: JitOp, b: JitOp) {
    a.(needsFlags := true) == b.(needsFlags := true)
  }

  lemma ApplySame(a: JitOp, b: JitOp, r: Regfile)
    requires SameOp(a, b)
    ensures Apply(a, r) == Apply(b, r)
    ensures LoadAddress(a, r) == LoadAddress(b, r)
    ensures forall v :: Load(a, r, v) == Load(b, r, v)
  {
    hide AddOrSub, Sub, Low, Merge, Wrap, Signed, SignExtend, Sign, Product, LogicN, Modulus, Bit, Swapped;
    hide ShiftLeft, ArithShiftRight, LogicalShiftRight, SetLow, SetResult, KeepX, IndexScale;
  }

  predicate SameDA(a: Regfile, b: Regfile) {
    a.D == b.D && a.A == b.A
  }

  // ----- One step of the comparison -----

  /** If the flags agree wherever they are live before the step, they do after it. */
  lemma RegisterStep(o1: JitOp, o2: JitOp, r1: Regfile, r2: Regfile, after: bool)
    requires SameOp(o1, o2) && o1.kind.IsRegister() && SameDA(r1, r2)
    requires LiveStep(o1.kind, after).live ==> SameNzvc(r1.ccr, r2.ccr)
    requires LiveStep(o1.kind, after).needs[0] ==> o1.needsFlags && o2.needsFlags
    ensures SameDA(ApplyGuarded(o1, r1), ApplyGuarded(o2, r2))
    ensures after ==> SameNzvc(ApplyGuarded(o1, r1).ccr, ApplyGuarded(o2, r2).ccr)
  {
    hide Apply;
    ApplySame(o1, o2, r1);
    ApplyFlags(o2, r1, r2.ccr);
    assert r1.(ccr := r2.ccr) == r2;
  }

  lemma LoadStep(o1: JitOp, o2: JitOp, r1: Regfile, r2: Regfile, after: bool, v: u32)
    requires SameOp(o1, o2) && o1.kind.IsLoad() && SameDA(r1, r2)
    requires after ==> o1.needsFlags && o2.needsFlags
    ensures LoadAddress(o1, r1) == LoadAddress(o2, r2)
    ensures SameDA(LoadGuarded(o1, r1, v), LoadGuarded(o2, r2, v))
    ensures after ==> SameNzvc(LoadGuarded(o1, r1, v).ccr, LoadGuarded(o2, r2, v).ccr)
  {
  }

  lemma LiveUnfold(insns: seq<Insn>, i: nat)
    requires i <= |insns|
    ensures i == |insns| ==> LiveBefore(insns, i)
    ensures i < |insns| ==> LiveBefore(insns, i) == LiveStep(insns[i].kind, LiveBefore(insns, i + 1)).live
  {
  }

  // ----- Whole runs -----

  ghost predicate Pair(b1: Block, b2: Block, insns: seq<Insn>, startPC: u32, cycles: bv16 -> nat) {
    BlockOf(b1, insns, startPC, cycles) && BlockOf(b2, insns, startPC, cycles)
  }

  lemma PairOps(b1: Block, b2: Block, insns: seq<Insn>, startPC: u32, cycles: bv16 -> nat, i: nat)
    requires Pair(b1, b2, insns, startPC, cycles) && i < |insns|
    ensures SameOp(b1.ops[i], b2.ops[i]) && b1.ops[i].kind == b2.ops[i].kind == insns[i].kind
    ensures b1.ops[i].instrPC == b2.ops[i].instrPC
    ensures Needs(insns, i) ==> b1.ops[i].needsFlags && b2.ops[i].needsFlags
  {
    hide BuildOp, Needs, PcAt;
    assert OpOf(b1, insns, startPC, cycles, i) && OpOf(b2, insns, startPC, cycles, i);
    BuiltNeeds(insns[i], PcAt(insns, startPC, i), b1.ops[i].needsFlags);
    BuiltNeeds(insns[i], PcAt(insns, startPC, i), b2.ops[i].needsFlags);
    BuiltKeepingFlags(insns[i], PcAt(insns, startPC, i), b1.ops[i].needsFlags);
    BuiltKeepingFlags(insns[i], PcAt(insns, startPC, i), b2.ops[i].needsFlags);
  }

  lemma {:induction false} SameCycles(
      b1: Block, b2: Block, insns: seq<Insn>, startPC: u32, cycles: bv16 -> nat, i: nat)
    requires Pair(b1, b2, insns, startPC, cycles) && i <= |insns|
    ensures b1.cumulativeCycles[i] == b2.cumulativeCycles[i]
  {
    hide BuildOp, Needs, PcAt;
    if i > 0 {
      SameCycles(b1, b2, insns, startPC, cycles, i - 1);
      assert OpOf(b1, insns, startPC, cycles, i - 1) && OpOf(b2, insns, startPC, cycles, i - 1);
    }
  }

  predicate EndsInBra(insns: seq<Insn>) {
    insns != [] && insns[|insns| - 1].kind.Bra?
  }

  /** Where the flags of two exits have to agree: wherever a later reader could see them. */
  predicate ExitFlags(insns: seq<Insn>, executed: nat, a: Ccr, b: Ccr)
    requires executed <= |insns|
  {
    if executed < |insns| then LiveBefore(insns, executed) ==> SameNzvc(a, b)
    else EndsInBra(insns) || SameNzvc(a, b)
  }

  ghost predicate SameExit(insns: seq<Insn>, e1: Exit, e2: Exit) {
    && SameDA(e1.r, e2.r)
    && e1.nextPC == e2.nextPC && e1.executed == e2.executed <= |insns| && e1.cycles == e2.cycles
    && ExitFlags(insns, e1.executed, e1.r.ccr, e2.r.ccr)
  }

  lemma {:induction false} LiveSim(
      b1: Block, b2: Block, insns: seq<Insn>, startPC: u32, cycles: bv16 -> nat,
      c: DataCache, r1: Regfile, r2: Regfile, i: nat)
    requires Pair(b1, b2, insns, startPC, cycles) && WellScanned(insns, startPC) && i <= |insns|
    requires SameDA(r1, r2) && (LiveBefore(insns, i) ==> SameNzvc(r1.ccr, r2.ccr))
    requires i == |insns| ==> insns == [] || !insns[i - 1].kind.IsBranch()
    ensures SameExit(insns, ExecuteFrom(b1, c, r1, i), ExecuteFrom(b2, c, r2, i))
    decreases |insns| - i
  {
    hide LiveBefore, Needs, SameOp, LiveStep, WellScanned, OpOf, Transparent;
    hide Hit, CachedLong, LoadAddress, ApplyGuarded, LoadGuarded, EvaluateCondition;
    LiveUnfold(insns, i);
    SameCycles(b1, b2, insns, startPC, cycles, i);
    if i < |insns| {
      PairOps(b1, b2, insns, startPC, cycles, i);
      SimStep(b1, b2, insns, startPC, cycles, c, r1, r2, i);
      var o1, o2 := b1.ops[i], b2.ops[i];
      SameCycles(b1, b2, insns, startPC, cycles, i + 1);
      if o1.kind.IsRegister() {
        LiveSim(b1, b2, insns, startPC, cycles, c, ApplyGuarded(o1, r1), ApplyGuarded(o2, r2), i + 1);
      } else if o1.kind.IsLoad() && Hit(c, LoadAddress(o1, r1)) {
        var v := CachedLong(c, LoadAddress(o1, r1));
        LiveSim(b1, b2, insns, startPC, cycles, c, LoadGuarded(o1, r1, v), LoadGuarded(o2, r2, v), i + 1);
      }
    }
  }

  /** Everything about one step that the induction needs, with the operations already looked up. */
  lemma SimStep(
      b1: Block, b2: Block, insns: seq<Insn>, startPC: u32, cycles: bv16 -> nat,
      c: DataCache, r1: Regfile, r2: Regfile, i: nat)
    requires Pair(b1, b2, insns, startPC, cycles) && WellScanned(insns, startPC) && i < |insns|
    requires SameDA(r1, r2) && (LiveBefore(insns, i) ==> SameNzvc(r1.ccr, r2.ccr))
    ensures var k, o1, o2, after := insns[i].kind, b1.ops[i], b2.ops[i], LiveBefore(insns, i + 1);
            && (k.IsBranch() || k.Rts? ==> i == |insns| - 1)
            && (k.IsRegister() ==>
                  && SameDA(ApplyGuarded(o1, r1), ApplyGuarded(o2, r2))
                  && (after ==> SameNzvc(ApplyGuarded(o1, r1).ccr, ApplyGuarded(o2, r2).ccr)))
            && (k.IsLoad() ==>
                  && LoadAddress(o1, r1) == LoadAddress(o2, r2)
                  && forall v :: SameDA(LoadGuarded(o1, r1, v), LoadGuarded(o2, r2, v))
                       && (after ==> SameNzvc(LoadGuarded(o1, r1, v).ccr, LoadGuarded(o2, r2, v).ccr)))
            && (k.Bcc? ==> o1.cond == o2.cond && o1.target == o2.target && o1.fallthrough == o2.fallthrough
                           && EvaluateCondition(o1.cond, r1.ccr) == EvaluateCondition(o2.cond, r2.ccr)
                           && SameNzvc(r1.ccr, r2.ccr))
            && (k.Bra? ==> o1.target == o2.target)
            && (k.Rts? ==> SameNzvc(r1.ccr, r2.ccr))
  {
    hide OpOf, ApplyGuarded, LoadGuarded, LoadAddress, FlagLiveness;
    PairOps(b1, b2, insns, startPC, cycles, i);
    LiveUnfold(insns, i);
    LiveUnfold(insns, i + 1);
    var k, o1, o2, after := insns[i].kind, b1.ops[i], b2.ops[i], LiveBefore(insns, i + 1);
    if k.IsRegister() {
      RegisterStep(o1, o2, r1, r2, after);
    } else if k.IsLoad() {
      LoadStep(o1, o2, r1, r2, after, 0);
      forall v
        ensures SameDA(LoadGuarded(o1, r1, v), LoadGuarded(o2, r2, v))
        ensures after ==> SameNzvc(LoadGuarded(o1, r1, v).ccr, LoadGuarded(o2, r2, v).ccr)
      {
        LoadStep(o1, o2, r1, r2, after, v);
      }
    }
  }

  /**
    For every compiled block and start state, leaving out dead flags changes neither registers, nor
    the next PC (in particular not the outcome of a final Bcc), nor the instruction and cycle counts.
  */
  lemma DeadFlagsPreserveMeaning(
      read: u32 -> Option<bv16>, startPC: u32, startPA: u32, cycles: bv16 -> nat, c: DataCache, r: Regfile)
    requires Compile(read, startPC, startPA, cycles).Some?
    ensures var b := Compile(read, startPC, startPA, cycles).value;
            var e, full := Execute(b, c, r), Execute(AllFlags(b), c, r);
            && e.(r := full.r) == full && SameDA(e.r, full.r)
            && (e.executed == b.count && !b.ops[b.count - 1].kind.Bra? ==> SameNzvc(e.r.ccr, full.r.ccr))
  {
    var insns := CompiledForm(read, startPC, startPA, cycles);
    var b := Compile(read, startPC, startPA, cycles).value;
    AllFlagsBlock(b, insns, startPC, cycles);
    LiveSim(b, AllFlags(b), insns, startPC, cycles, c, r, r, 0);
    PairOps(b, AllFlags(b), insns, startPC, cycles, |insns| - 1);
    hide Compile, ExecuteFrom, AllFlags, OpOf, WellScanned;
  }

  // ----- The X flag -----

  /** What becomes of X between operations i and n: never set, last set by a keeper, or by a dead setter. */
  datatype XFate = Untouched | Kept | Lost

  function FateOfX(ops: seq<JitOp>, i: nat, n: nat): XFate
    requires i <= n <= |ops|
    decreases n - i
  {
    if i == n then Untouched
    else
      var later := FateOfX(ops, i + 1, n);
      if later != Untouched then later
      else if !XSetter(ops[i].kind) then Untouched
      else if ops[i].needsFlags then Kept
      else Lost
  }

  /** A flag overwriting instruction ahead means that nobody sees the flags set now. */
  lemma {:induction false} KillerAhead(insns: seq<Insn>, startPC: u32, i: nat, j: nat)
    requires WellScanned(insns, startPC) && i <= j < |insns| && Killer(insns[j].kind)
    ensures !LiveBefore(insns, i)
    decreases j - i
  {
    hide LiveBefore, ScannedTarget;
    LiveUnfold(insns, i);
    if i < j {
      KillerAhead(insns, startPC, i + 1, j);
    }
  }

  /** Flags are live exactly if no overwriting instruction is ahead and the block does not end in BRA. */
  lemma {:induction false} LiveExactly(insns: seq<Insn>, startPC: u32, i: nat)
    requires WellScanned(insns, startPC) && i <= |insns|
    ensures LiveBefore(insns, i) <==>
      (i == |insns| || !EndsInBra(insns)) && forall j :: i <= j < |insns| ==> !Killer(insns[j].kind)
    decreases |insns| - i
  {
    hide LiveBefore, ScannedTarget, Transparent;
    LiveUnfold(insns, i);
    if i < |insns| {
      LiveExactly(insns, startPC, i + 1);
      EndsOrGoesOn(insns, startPC, i);
    }
  }

  lemma EndsOrGoesOn(insns: seq<Insn>, startPC: u32, i: nat)
    requires WellScanned(insns, startPC) && i < |insns|
    ensures insns[i].kind.IsBranch() ==> i == |insns| - 1 && (insns[i].kind.Bra? <==> EndsInBra(insns))
    ensures i == |insns| - 1 && !insns[i].kind.IsBranch() ==> !EndsInBra(insns)
  {
    hide ScannedTarget;
  }

  /**
    The pass asks for no more than it must: an instruction keeps its flags exactly if it writes some,
    none after it overwrites them, and the block does not end in BRA.
  */
  lemma NeedsExactly(insns: seq<Insn>, startPC: u32, i: nat)
    requires WellScanned(insns, startPC) && i < |insns|
    ensures Needs(insns, i) <==>
      && (Killer(insns[i].kind) || insns[i].kind.Btst?) && !EndsInBra(insns)
      && forall j :: i < j < |insns| ==> !Killer(insns[j].kind)
  {
    hide LiveBefore, WellScanned;
    LiveExactly(insns, startPC, i + 1);
    EndsOrGoesOn(insns, startPC, i);
  }

  lemma {:induction false} XSetterAhead(insns: seq<Insn>, startPC: u32, ops: seq<JitOp>, i: nat, n: nat)
    requires WellScanned(insns, startPC) && i <= n <= |insns| == |ops|
    requires forall j :: 0 <= j < |ops| ==> ops[j].kind == insns[j].kind
    requires FateOfX(ops, i, n) != Untouched
    ensures !LiveBefore(insns, i)
    decreases n - i
  {
    hide LiveBefore, WellScanned;
    if FateOfX(ops, i + 1, n) == Untouched {
      KillerAhead(insns, startPC, i, i);
    } else {
      XSetterAhead(insns, startPC, ops, i + 1, n);
      LiveUnfold(insns, i);
      if Killer(insns[i].kind) {
        KillerAhead(insns, startPC, i, i);
      } else {
        BranchesLast(insns, startPC, i, n);
      }
    }
  }

  lemma BranchesLast(insns: seq<Insn>, startPC: u32, i: nat, n: nat)
    requires WellScanned(insns, startPC) && i + 1 < n <= |insns|
    ensures !insns[i].kind.IsBranch() && !insns[i].kind.Rts?
  {
  }

  /** A register operation sets X only if it is an X setter that writes its flags. */
  lemma StepX(o: JitOp, r: Regfile, u: Regfile)
    requires o.kind.IsRegister() && SameDA(r, u)
    ensures if XSetter(o.kind) && o.needsFlags then ApplyGuarded(o, r).ccr.x == Apply(o, u).ccr.x
            else ApplyGuarded(o, r).ccr.x == r.ccr.x
  {
    hide Apply;
    ApplyFlags(o, r, u.ccr);
    assert r.(ccr := u.ccr) == u;
  }

  predicate ConsistentAt(ops: seq<JitOp>, i: nat, n: nat)
    requires i < n <= |ops|
  {
    FateOfX(ops, i + 1, n) == Lost && XSetter(ops[i].kind) ==> !ops[i].needsFlags
  }

  /** When the last setter loses its flags, the setters before it lose theirs too. */
  ghost predicate Consistent(ops: seq<JitOp>) {
    forall i: nat, n: nat | i < n <= |ops| :: ConsistentAt(ops, i, n)
  }

  /** How X moves over operation i, from x to m, in the block with these ops and in the all-flags block. */
  predicate XLink(ops: seq<JitOp>, i: nat, n: nat, x1: bool, x2: bool, m1: bool, m2: bool)
    requires i < n <= |ops|
  {
    var sets, later := XSetter(ops[i].kind), FateOfX(ops, i + 1, n);
    && (later == Lost || !sets || !ops[i].needsFlags ==> m1 == x1)
    && (sets && ops[i].needsFlags && later != Lost ==> m1 == m2)
    && (!sets ==> m2 == x2)
  }

  predicate XOutcome(fate: XFate, entry1: bool, entry2: bool, exit1: bool, exit2: bool) {
    && (fate == Kept ==> exit1 == exit2)
    && (fate != Kept ==> exit1 == entry1)
    && (fate == Untouched ==> exit2 == entry2)
  }

  lemma XRegister(ops: seq<JitOp>, o2: JitOp, r1: Regfile, r2: Regfile, i: nat, n: nat)
    requires i < n <= |ops| && Consistent(ops)
    requires SameOp(ops[i], o2) && ops[i].kind.IsRegister() && SameDA(r1, r2) && o2.needsFlags
    ensures XLink(ops, i, n, r1.ccr.x, r2.ccr.x, ApplyGuarded(ops[i], r1).ccr.x, ApplyGuarded(o2, r2).ccr.x)
  {
    StepX(ops[i], r1, r2);
    StepX(o2, r2, r2);
    ApplySame(ops[i], o2, r2);
    assert ConsistentAt(ops, i, n);
    hide ApplyGuarded, Apply, FateOfX, XSetter;
  }

  lemma XMemory(o: JitOp, r: Regfile, v: u32)
    requires !o.kind.IsRegister()
    ensures !XSetter(o.kind) && LoadGuarded(o, r, v).ccr.x == r.ccr.x
  {
  }

  lemma NoMore(ops: seq<JitOp>, i: nat, x1: bool, x2: bool)
    requires i <= |ops|
    ensures XOutcome(FateOfX(ops, i, i), x1, x2, x1, x2)
  {
  }

  lemma NoSetterLink(ops: seq<JitOp>, i: nat, n: nat, x1: bool, x2: bool)
    requires i < n <= |ops| && !XSetter(ops[i].kind)
    ensures XLink(ops, i, n, x1, x2, x1, x2)
  {
  }

  /** The outcome from i on, given the outcome from i + 1 on and what operation i did. */
  lemma XChain(ops: seq<JitOp>, i: nat, n: nat, x1: bool, x2: bool, m1: bool, m2: bool, e1: bool, e2: bool)
    requires i < n <= |ops|
    requires XOutcome(FateOfX(ops, i + 1, n), m1, m2, e1, e2) && XLink(ops, i, n, x1, x2, m1, m2)
    ensures XOutcome(FateOfX(ops, i, n), x1, x2, e1, e2)
  {
  }

  /** b2 keeps all flags; b1 keeps some. */
  ghost predicate Versus(b1: Block, b2: Block, insns: seq<Insn>, startPC: u32, cycles: bv16 -> nat) {
    && Pair(b1, b2, insns, startPC, cycles) && WellScanned(insns, startPC) && Consistent(b1.ops)
    && forall j: nat :: j < |insns| ==> b2.ops[j].needsFlags
  }

  ghost predicate XResult(b1: Block, b2: Block, c: DataCache, r1: Regfile, r2: Regfile, i: nat)
    requires b1.Shaped() && b2.Shaped() && i <= |b1.ops| == |b2.ops|
  {
    var e1, e2 := ExecuteFrom(b1, c, r1, i), ExecuteFrom(b2, c, r2, i);
    && i <= e1.executed <= |b1.ops|
    && XOutcome(FateOfX(b1.ops, i, e1.executed), r1.ccr.x, r2.ccr.x, e1.r.ccr.x, e2.r.ccr.x)
  }

  /** X on exit is the X of the last executed setter that kept its flags, else the X on entry. */
  lemma {:induction false} XSim(
      b1: Block, b2: Block, insns: seq<Insn>, startPC: u32, cycles: bv16 -> nat,
      c: DataCache, r1: Regfile, r2: Regfile, i: nat)
    requires Versus(b1, b2, insns, startPC, cycles) && i <= |insns| && SameDA(r1, r2)
    ensures XResult(b1, b2, c, r1, r2, i)
    decreases |insns| - i
  {
    hide LiveBefore, Needs, SameOp, WellScanned, OpOf, XSetter, XOutcome, XLink, FateOfX, Consistent;
    hide Hit, CachedLong, LoadAddress, ApplyGuarded, LoadGuarded, EvaluateCondition;
    if i == |insns| {
      NoMore(b1.ops, i, r1.ccr.x, r2.ccr.x);
    } else {
      PairOps(b1, b2, insns, startPC, cycles, i);
      var o1, o2 := b1.ops[i], b2.ops[i];
      var e1, e2 := ExecuteFrom(b1, c, r1, i), ExecuteFrom(b2, c, r2, i);
      LoadStepAddress(o1, o2, r1, r2);
      if o1.kind.IsRegister() {
        var m1, m2 := ApplyGuarded(o1, r1), ApplyGuarded(o2, r2);
        RegisterStep(o1, o2, r1, r2, false);
        XSim(b1, b2, insns, startPC, cycles, c, m1, m2, i + 1);
        XRegister(b1.ops, o2, r1, r2, i, e1.executed);
        XChain(b1.ops, i, e1.executed, r1.ccr.x, r2.ccr.x, m1.ccr.x, m2.ccr.x, e1.r.ccr.x, e2.r.ccr.x);
      } else if o1.kind.IsLoad() && Hit(c, LoadAddress(o1, r1)) {
        var v := CachedLong(c, LoadAddress(o1, r1));
        var m1, m2 := LoadGuarded(o1, r1, v), LoadGuarded(o2, r2, v);
        LoadStep(o1, o2, r1, r2, false, v);
        XSim(b1, b2, insns, startPC, cycles, c, m1, m2, i + 1);
        XMemory(o1, r1, v);
        XMemory(o2, r2, v);
        NoSetterLink(b1.ops, i, e1.executed, r1.ccr.x, r2.ccr.x);
        XChain(b1.ops, i, e1.executed, r1.ccr.x, r2.ccr.x, m1.ccr.x, m2.ccr.x, e1.r.ccr.x, e2.r.ccr.x);
      } else {
        XSimStop(b1, b2, insns, startPC, cycles, c, r1, r2, i);
      }
    }
  }

  /** Exits taken at operation i itself leave X alone. */
  lemma XSimStop(
      b1: Block, b2: Block, insns: seq<Insn>, startPC: u32, cycles: bv16 -> nat,
      c: DataCache, r1: Regfile, r2: Regfile, i: nat)
    requires Versus(b1, b2, insns, startPC, cycles) && i < |insns| && SameDA(r1, r2)
    requires !b1.ops[i].kind.IsRegister()
    requires !(b1.ops[i].kind.IsLoad() && Hit(c, LoadAddress(b1.ops[i], r1)))
    ensures XResult(b1, b2, c, r1, r2, i)
  {
    hide ExecuteFrom, LiveBefore, Needs, WellScanned, OpOf, Hit, LoadGuarded;
    hide FateOfX, XOutcome, XLink, XSetter, SameOp, Consistent;
    PairOps(b1, b2, insns, startPC, cycles, i);
    LoadStepAddress(b1.ops[i], b2.ops[i], r1, r2);
    StopsHere(b1, c, r1, i);
    StopsHere(b2, c, r2, i);
    NoMore(b1.ops, i, r1.ccr.x, r2.ccr.x);
    XMemory(b1.ops[i], r1, 0);
    if b1.ops[i].kind.IsBranch() || b1.ops[i].kind.Rts? {
      EndsHere(insns, startPC, i);
      NoSetterLink(b1.ops, i, i + 1, r1.ccr.x, r2.ccr.x);
      NoMore(b1.ops, i + 1, r1.ccr.x, r2.ccr.x);
      XChain(b1.ops, i, i + 1, r1.ccr.x, r2.ccr.x, r1.ccr.x, r2.ccr.x, r1.ccr.x, r2.ccr.x);
    }
  }

  lemma StopsHere(b: Block, c: DataCache, r: Regfile, i: nat)
    requires b.Shaped() && i < |b.ops| && !b.ops[i].kind.IsRegister()
    requires !(b.ops[i].kind.IsLoad() && Hit(c, LoadAddress(b.ops[i], r)))
    ensures var k, e := b.ops[i].kind, ExecuteFrom(b, c, r, i);
            && e.r.ccr == r.ccr
            && e.executed == (if k.IsBranch() then b.count else if k.Rts? && Hit(c, r.A[7]) then i + 1 else i)
  {
  }

  lemma EndsHere(insns: seq<Insn>, startPC: u32, i: nat)
    requires WellScanned(insns, startPC) && i < |insns| && (insns[i].kind.IsBranch() || insns[i].kind.Rts?)
    ensures i == |insns| - 1
  {
  }

  lemma LoadStepAddress(o1: JitOp, o2: JitOp, r1: Regfile, r2: Regfile)
    requires SameOp(o1, o2) && SameDA(r1, r2)
    ensures LoadAddress(o1, r1) == LoadAddress(o2, r2)
  {
  }

  // ----- When X survives -----

  /** The compiled block loses either nothing or everything: only its last setter can keep its flags. */
  lemma CompiledConsistent(b: Block, insns: seq<Insn>, startPC: u32, cycles: bv16 -> nat)
    requires BlockOf(b, insns, startPC, cycles) && WellScanned(insns, startPC)
    requires forall j: nat :: j < |insns| ==> b.ops[j].needsFlags == Needs(insns, j)
    ensures Consistent(b.ops)
  {
    hide LiveBefore, OpOf, WellScanned, FateOfX;
    forall j | 0 <= j < |insns|
      ensures b.ops[j].kind == insns[j].kind
    {
      PairOps(b, b, insns, startPC, cycles, j);
    }
    forall i: nat, n: nat | i < n <= |b.ops|
      ensures ConsistentAt(b.ops, i, n)
    {
      if FateOfX(b.ops, i + 1, n) == Lost {
        XSetterAhead(insns, startPC, b.ops, i + 1, n);
      }
    }
  }

  lemma {:induction false} NothingLost(ops: seq<JitOp>, i: nat, n: nat)
    requires i <= n <= |ops| && forall j :: 0 <= j < |ops| ==> ops[j].needsFlags
    ensures FateOfX(ops, i, n) != Lost
    decreases n - i
  {
    if i < n {
      NothingLost(ops, i + 1, n);
    }
  }

  lemma AllFlagsConsistent(ops: seq<JitOp>)
    requires forall j :: 0 <= j < |ops| ==> ops[j].needsFlags
    ensures Consistent(ops)
  {
    hide FateOfX, XSetter;
    forall i: nat, n: nat | i < n <= |ops|
      ensures ConsistentAt(ops, i, n)
    {
      NothingLost(ops, i + 1, n);
    }
  }

  lemma {:induction false} TouchedSame(ops1: seq<JitOp>, ops2: seq<JitOp>, i: nat, n: nat)
    requires i <= n <= |ops1| == |ops2| && forall j :: 0 <= j < |ops1| ==> ops1[j].kind == ops2[j].kind
    ensures (FateOfX(ops1, i, n) == Untouched) == (FateOfX(ops2, i, n) == Untouched)
    decreases n - i
  {
    hide XSetter;
    if i < n {
      TouchedSame(ops1, ops2, i + 1, n);
    }
  }

  /** Whether the X left by the first n operations is the one the instructions define. */
  predicate KeepsX(b: Block, n: nat)
    requires n <= |b.ops|
  {
    FateOfX(b.ops, 0, n) != Lost
  }

  /** The exit X agrees with that of the block that keeps all flags, entered with the given X. */
  predicate XAgrees(b: Block, c: DataCache, r: Regfile, x: bool)
    requires b.Shaped()
  {
    var s := r.(ccr := r.ccr.(x := x));
    Execute(b, c, s).r.ccr.x == Execute(AllFlags(b), c, s).r.ccr.x
  }

  lemma XFromEntry(
      b: Block, insns: seq<Insn>, startPC: u32, cycles: bv16 -> nat, c: DataCache, r: Regfile, x: bool)
    requires BlockOf(b, insns, startPC, cycles) && WellScanned(insns, startPC)
    requires forall j: nat :: j < |insns| ==> b.ops[j].needsFlags == Needs(insns, j)
    ensures var full, s := AllFlags(b), r.(ccr := r.ccr.(x := x));
            && Execute(b, c, s).executed == Execute(full, c, s).executed == Execute(b, c, r).executed <= |b.ops|
            && XResult(b, full, c, s, s, 0) && XResult(full, full, c, s, r, 0)
            && FateOfX(full.ops, 0, Execute(b, c, r).executed) != Lost
  {
    var full, s := AllFlags(b), r.(ccr := r.ccr.(x := x));
    AllFlagsBlock(b, insns, startPC, cycles);
    CompiledConsistent(b, insns, startPC, cycles);
    AllFlagsConsistent(full.ops);
    XSim(b, full, insns, startPC, cycles, c, s, s, 0);
    XSim(full, full, insns, startPC, cycles, c, s, r, 0);
    SameCounts(b, full, insns, startPC, cycles, c, s, r, 0);
    SameCounts(b, full, insns, startPC, cycles, c, s, s, 0);
    SameCounts(full, full, insns, startPC, cycles, c, s, r, 0);
    SameCounts(b, full, insns, startPC, cycles, c, r, r, 0);
    NothingLost(full.ops, 0, Execute(full, c, s).executed);
    hide ExecuteFrom, OpOf, Needs, WellScanned, FateOfX, XOutcome, Consistent;
  }

  /** How many instructions run depends on registers and memory only. */
  lemma {:induction false} SameCounts(
      b1: Block, b2: Block, insns: seq<Insn>, startPC: u32, cycles: bv16 -> nat,
      c: DataCache, r1: Regfile, r2: Regfile, i: nat)
    requires Pair(b1, b2, insns, startPC, cycles) && i <= |insns| && SameDA(r1, r2)
    ensures ExecuteFrom(b1, c, r1, i).executed == ExecuteFrom(b2, c, r2, i).executed
    decreases |insns| - i
  {
    hide Needs, SameOp, OpOf, Hit, CachedLong, LoadAddress, ApplyGuarded, LoadGuarded, EvaluateCondition;
    if i < |insns| {
      PairOps(b1, b2, insns, startPC, cycles, i);
      var o1, o2 := b1.ops[i], b2.ops[i];
      LoadStepAddress(o1, o2, r1, r2);
      if o1.kind.IsRegister() {
        RegisterStep(o1, o2, r1, r2, false);
        SameCounts(b1, b2, insns, startPC, cycles, c, ApplyGuarded(o1, r1), ApplyGuarded(o2, r2), i + 1);
      } else if o1.kind.IsLoad() && Hit(c, LoadAddress(o1, r1)) {
        var v := CachedLong(c, LoadAddress(o1, r1));
        LoadStep(o1, o2, r1, r2, false, v);
        SameCounts(b1, b2, insns, startPC, cycles, c, LoadGuarded(o1, r1, v), LoadGuarded(o2, r2, v), i + 1);
      }
    }
  }

  /**
    Exactly when X comes out right: for any registers and memory, a compiled block leaves the correct
    X whatever X was on entry if and only if the last X setter it executed kept its flags (or it
    executed none).  Otherwise it simply leaves the X it was entered with.
  */
  lemma XExact(
      read: u32 -> Option<bv16>, startPC: u32, startPA: u32, cycles: bv16 -> nat, c: DataCache, r: Regfile)
    requires Compile(read, startPC, startPA, cycles).Some?
    ensures var b := Compile(read, startPC, startPA, cycles).value;
            var n := Execute(b, c, r).executed;
            && n <= |b.ops|
            && (KeepsX(b, n) <==> XAgrees(b, c, r, true) && XAgrees(b, c, r, false))
            && (!KeepsX(b, n) ==> Execute(b, c, r).r.ccr.x == r.ccr.x)
  {
    var insns := CompiledForm(read, startPC, startPA, cycles);
    var b := Compile(read, startPC, startPA, cycles).value;
    BuiltBlock(insns, startPC, startPA, cycles);
    XFromEntry(b, insns, startPC, cycles, c, r, true);
    XFromEntry(b, insns, startPC, cycles, c, r, false);
    XFromEntry(b, insns, startPC, cycles, c, r, r.ccr.x);
    var n := Execute(b, c, r).executed;
    AllFlagsBlock(b, insns, startPC, cycles);
    TouchedSame(b.ops, AllFlags(b).ops, 0, n);
    assert r.(ccr := r.ccr.(x := r.ccr.x)) == r;
    hide Compile, Execute, AllFlags, OpOf, WellScanned, FateOfX, Needs, BlockOf, BuildBlock;
  }
}
