/** Executing a compiled block is running the interpreter, and leaving a block early is harmless. */
module JitRefine {
  import opened Machine
  import opened EffectiveAddress
  import opened Interpreter
  import opened JitBlock
  import opened JitCompile
  import opened JitDecode
  import opened JitShape
  import opened JitFlags

  // ----- Interpreter runs -----

  datatype Progress = Progress(s: State, cycles: nat)

  /** k interpreter steps, with the cycles of the opcodes executed. */
  function Run(env: Env, s: State, k: nat, cycles: bv16 -> nat): Option<Progress>
    decreases k
  {
    if k == 0 then Some(Progress(s, 0))
    else
      match Step(env, s)
      case None => None
      case Some(t) =>
        match Run(env, t, k - 1, cycles)
        case None => None
        case Some(p) => Some(Progress(p.s, cycles(env.code(s.pc)) + p.cycles))
  }

  lemma {:induction false} RunAppend(env: Env, s: State, j: nat, k: nat, cycles: bv16 -> nat)
    requires Run(env, s, j, cycles).Some?
    ensures var p := Run(env, s, j, cycles).value;
            var q := Run(env, p.s, k, cycles);
            Run(env, s, j + k, cycles)
            == if q.Some? then Some(Progress(q.value.s, p.cycles + q.value.cycles)) else None
    decreases j
  {
    hide Step;
    if j > 0 {
      RunAppend(env, Step(env, s).value, j - 1, k, cycles);
    }
  }

  // ----- The read cache -----

  /** The cached page translates correctly: physical memory behind it is what the program sees. */
  ghost predicate Coherent(c: DataCache, mem: Memory) {
    && (c.valid ==> 0 < c.size && 0x1_0000_0000 % c.size == 0)
    && (c.valid ==> forall a: u32 :: a - a % c.size == c.pageVA ==> c.phys(Wrap(c.pagePA + a % c.size)) == mem(a))
  }

  /** Within a page, nearby addresses have consecutive offsets and do not wrap. */
  lemma PageOffset(a: u32, size: nat, i: nat)
    requires 0 < size && 0x1_0000_0000 % size == 0 && a % size + i < size
    ensures a + i < 0x1_0000_0000 && (a + i) % size == a % size + i
    ensures (a + i) - (a + i) % size == a - a % size
  {
    var q, r, n := a / size, a % size, 0x1_0000_0000 / size;
    assert a == size * q + r && 0x1_0000_0000 == size * n;
    Bits.DivModUnique(a + i, size, q, r + i);
    Bits.LessByFactor(size, q, n);
    Bits.MulAtLeast(size, n - q);
    assert size * (n - q) == size * n - size * q;
  }

  predicate OnPage(c: DataCache, a: int)
    requires c.size > 0
  {
    0 <= a < 0x1_0000_0000 && a - a % c.size == c.pageVA
  }

  /** The read cache hits exactly when it is valid and all four bytes of the long lie on its page. */
  lemma HitExactly(c: DataCache, a: u32)
    requires c.size > 0 && 0x1_0000_0000 % c.size == 0
    ensures Hit(c, a) <==> c.valid && OnPage(c, a) && OnPage(c, a + 1) && OnPage(c, a + 2) && OnPage(c, a + 3)
  {
    var off := a % c.size;
    if off + 3 < c.size {
      PageOffset(a, c.size, 1);
      PageOffset(a, c.size, 2);
      PageOffset(a, c.size, 3);
    } else {
      NextPage(a, c.size);
    }
  }

  /** The byte that starts the next page is not on the page of a. */
  lemma NextPage(a: nat, size: nat)
    requires size > 0
    ensures var next := a + (size - a % size); next - next % size != a - a % size
  {
    var q := a / size;
    assert a + (size - a % size) == size * (q + 1);
    Bits.DivModUnique(a + (size - a % size), size, q + 1, 0);
  }

  lemma CachedByte(c: DataCache, mem: Memory, a: u32, i: nat)
    requires Coherent(c, mem) && Hit(c, a) && i <= 3
    ensures c.phys(Wrap(Wrap(c.pagePA + a % c.size) + i)) == mem(Wrap(a + i))
  {
    hide Wrap;
    PageOffset(a, c.size, i);
    WrapWrap(c.pagePA + a % c.size, i);
    var x: u32 := a + i;
    WrapNone(x);
    assert x - x % c.size == c.pageVA;
  }

  lemma WrapNone(x: u32)
    ensures Wrap(x) == x
  {
  }

  lemma FourBytes(m1: Memory, m2: Memory, p: u32, a: u32)
    requires m1(Wrap(p + 0)) == m2(Wrap(a + 0)) && m1(Wrap(p + 1)) == m2(Wrap(a + 1))
    requires m1(Wrap(p + 2)) == m2(Wrap(a + 2)) && m1(Wrap(p + 3)) == m2(Wrap(a + 3))
    ensures ReadLong(m1, p) == ReadLong(m2, a)
  {
    hide Wrap;
    WrapWrap(p + 2, 1);
    WrapWrap(a + 2, 1);
    WrapNone(p);
    WrapNone(a);
  }

  /** A cache hit reads what the interpreter reads. */
  lemma CachedRead(c: DataCache, mem: Memory, a: u32)
    requires Coherent(c, mem) && Hit(c, a)
    ensures CachedLong(c, a) == ReadLong(mem, a)
  {
    hide Coherent, Hit, Wrap, ReadLong;
    CachedByte(c, mem, a, 0);
    CachedByte(c, mem, a, 1);
    CachedByte(c, mem, a, 2);
    CachedByte(c, mem, a, 3);
    FourBytes(c.phys, mem, Wrap(c.pagePA + a % c.size), a);
  }

  // ----- The block that keeps all flags is the interpreter -----

  lemma ApplyRespects(op: JitOp, r: Regfile, u: Regfile)
    requires op.kind.IsRegister() && SameRegs(r, u)
    ensures SameRegs(Apply(op, r), Apply(op, u))
  {
    ApplyFlags(op, r, u.ccr);
    assert r.(ccr := u.ccr) == u;
    hide Apply;
  }

  lemma SameRegsTrans(a: Regfile, b: Regfile, c: Regfile)
    requires SameRegs(a, b) && SameRegs(b, c)
    ensures SameRegs(a, c)
  {
  }

  /** One interpreter step and one operation of the all-flags block. */
  lemma StepTogether(env: Env, s: State, insn: Insn, o: JitOp, r: Regfile, c: DataCache)
    requires Encodes(env, s.pc, insn) && o == BuildOp(insn, s.pc, true)
    requires SameRegs(RegsOf(s), r) && Coherent(c, s.mem)
    ensures insn.kind.IsRegister() ==> Lands(Step(env, s), ApplyGuarded(o, r), Wrap(s.pc + insn.len), s.mem)
    ensures insn.kind.IsLoad() && Hit(c, LoadAddress(o, r)) ==>
      Lands(Step(env, s), LoadGuarded(o, r, CachedLong(c, LoadAddress(o, r))), Wrap(s.pc + insn.len), s.mem)
  {
    hide Encodes, Step, BuildOp, Apply, Load, LoadAddress, Hit, CachedLong, Coherent;
    BuiltNeeds(insn, s.pc, true);
    if insn.kind.IsRegister() {
      RegisterRefines(env, s, insn, true);
      ApplyRespects(o, RegsOf(s), r);
      SameRegsTrans(RegsOf(Step(env, s).value), Apply(o, RegsOf(s)), Apply(o, r));
    } else if insn.kind.IsLoad() && Hit(c, LoadAddress(o, r)) {
      LoadRefines(env, s, insn, true);
      LoadRespects(o, RegsOf(s), r);
      CachedRead(c, s.mem, LoadAddress(o, r));
      SameRegsTrans(RegsOf(Step(env, s).value), Load(o, RegsOf(s), ReadLong(s.mem, LoadAddress(o, r))),
                    Load(o, r, ReadLong(s.mem, LoadAddress(o, r))));
    }
  }

  lemma LoadRespects(o: JitOp, r: Regfile, u: Regfile)
    requires SameRegs(r, u)
    ensures LoadAddress(o, r) == LoadAddress(o, u)
    ensures forall v :: SameRegs(Load(o, r, v), Load(o, u, v))
  {
  }

  /** The exit corresponds to k interpreter steps from s that took the given cycles. */
  ghost predicate Reaches(env: Env, s: State, k: int, cycles: bv16 -> nat, e: Exit, before: nat) {
    && k >= 0 && Run(env, s, k, cycles).Some?
    && var p := Run(env, s, k, cycles).value;
       SameRegs(RegsOf(p.s), e.r) && p.s.pc == e.nextPC && p.s.mem == s.mem && before + p.cycles == e.cycles
  }

  lemma ReachesNext(env: Env, s: State, t: State, k: int, cycles: bv16 -> nat, e: Exit, before: nat)
    requires Step(env, s) == Some(t) && t.mem == s.mem
    requires Reaches(env, t, k, cycles, e, before + cycles(env.code(s.pc)))
    ensures Reaches(env, s, k + 1, cycles, e, before)
  {
    hide Step;
  }

  ghost predicate At(env: Env, s: State, b: Block, insns: seq<Insn>, startPC: u32, cycles: bv16 -> nat,
                     c: DataCache, r: Regfile, i: nat) {
    && BlockOf(b, insns, startPC, cycles) && WellScanned(insns, startPC) && Encoded(env, insns, startPC)
    && (forall j: nat :: j < |insns| ==> b.ops[j].needsFlags)
    && i <= |insns| && s.pc == PcAt(insns, startPC, i) && SameRegs(RegsOf(s), r) && Coherent(c, s.mem)
  }

  /** The part of At that the execution function itself needs. */
  ghost predicate Here(s: State, b: Block, insns: seq<Insn>, c: DataCache, r: Regfile, i: nat) {
    b.Shaped() && |b.ops| == |insns| && i <= |insns| && Coherent(c, s.mem) && SameRegs(RegsOf(s), r)
  }

  lemma AtFacts(env: Env, s: State, b: Block, insns: seq<Insn>, startPC: u32, cycles: bv16 -> nat,
                c: DataCache, r: Regfile, i: nat)
    requires At(env, s, b, insns, startPC, cycles, c, r, i) && i < |insns|
    ensures var o, insn := b.ops[i], insns[i];
            && o == BuildOp(insn, s.pc, true) && o.kind == insn.kind && o.instrPC == s.pc && o.needsFlags
            && Encodes(env, s.pc, insn) && env.code(s.pc) == insn.opcode
            && b.cumulativeCycles[i + 1] == b.cumulativeCycles[i] + cycles(insn.opcode)
            && (insn.kind.IsBranch() || insn.kind.Rts? ==> i + 1 == |insns|)
            && b.count == |insns| && b.totalCycles == b.cumulativeCycles[|insns|]
            && PcAt(insns, startPC, i + 1) == Wrap(s.pc + insn.len)
  {
    hide BuildOp, Needs, PcAt, Classify, TwoWords, ScannedTarget, Coherent;
    assert OpOf(b, insns, startPC, cycles, i);
    BuiltNeeds(insns[i], s.pc, true);
    PcNext(insns, startPC, i);
  }

  lemma AtNext(env: Env, s: State, t: State, b: Block, insns: seq<Insn>, startPC: u32, cycles: bv16 -> nat,
               c: DataCache, r: Regfile, u: Regfile, i: nat)
    requires At(env, s, b, insns, startPC, cycles, c, r, i) && Here(s, b, insns, c, r, i) && i < |insns|
    requires Lands(Some(t), u, Wrap(s.pc + insns[i].len), s.mem)
    ensures At(env, t, b, insns, startPC, cycles, c, u, i + 1) && Here(t, b, insns, c, u, i + 1)
  {
    hide BlockOf, WellScanned, Encoded, Coherent, PcAt;
    PcNext(insns, startPC, i);
  }

  lemma {:induction false} FullSim(
      env: Env, s: State, b: Block, insns: seq<Insn>, startPC: u32, cycles: bv16 -> nat,
      c: DataCache, r: Regfile, i: nat)
    requires At(env, s, b, insns, startPC, cycles, c, r, i)
    requires Here(s, b, insns, c, r, i)
    ensures var e := ExecuteFrom(b, c, r, i);
            Reaches(env, s, e.executed - i, cycles, e, b.cumulativeCycles[i])
    decreases |insns| - i
  {
    hide At, Encodes, Coherent, Step, BuildOp, Hit, CachedLong, LoadAddress;
    hide ApplyGuarded, LoadGuarded, EvaluateCondition, PcAt, Reaches, RegsOf, SameRegs;
    if i == |insns| {
      FullSimEnd(env, s, b, insns, startPC, cycles, c, r);
    } else {
      AtFacts(env, s, b, insns, startPC, cycles, c, r, i);
      StepTogether(env, s, insns[i], b.ops[i], r, c);
      var o, e := b.ops[i], ExecuteFrom(b, c, r, i);
      if o.kind.IsRegister() || (o.kind.IsLoad() && Hit(c, LoadAddress(o, r))) {
        var u := if o.kind.IsRegister() then ApplyGuarded(o, r)
                 else LoadGuarded(o, r, CachedLong(c, LoadAddress(o, r)));
        var t := Step(env, s).value;
        AtNext(env, s, t, b, insns, startPC, cycles, c, r, u, i);
        FullSim(env, t, b, insns, startPC, cycles, c, u, i + 1);
        ReachesNext(env, s, t, e.executed - i - 1, cycles, e, b.cumulativeCycles[i]);
      } else {
        FullSimStop(env, s, b, insns, startPC, cycles, c, r, i);
      }
    }
  }

  lemma FullSimEnd(
      env: Env, s: State, b: Block, insns: seq<Insn>, startPC: u32, cycles: bv16 -> nat, c: DataCache, r: Regfile)
    requires At(env, s, b, insns, startPC, cycles, c, r, |insns|)
    ensures var e := ExecuteFrom(b, c, r, |insns|);
            Reaches(env, s, e.executed - |insns|, cycles, e, b.cumulativeCycles[|insns|])
  {
    hide OpOf, WellScanned, Encoded, Coherent, PcAt, Step;
  }

  lemma FullSimStop(
      env: Env, s: State, b: Block, insns: seq<Insn>, startPC: u32, cycles: bv16 -> nat,
      c: DataCache, r: Regfile, i: nat)
    requires At(env, s, b, insns, startPC, cycles, c, r, i) && Here(s, b, insns, c, r, i) && i < |insns|
    requires !b.ops[i].kind.IsRegister()
    requires !(b.ops[i].kind.IsLoad() && Hit(c, LoadAddress(b.ops[i], r)))
    ensures var e := ExecuteFrom(b, c, r, i);
            Reaches(env, s, e.executed - i, cycles, e, b.cumulativeCycles[i])
  {
    hide At, Encodes, Coherent, Step, BuildOp, Hit, CachedLong, LoadAddress, PcAt, Run, RegsOf, SameRegs;
    AtFacts(env, s, b, insns, startPC, cycles, c, r, i);
    var e, o := ExecuteFrom(b, c, r, i), b.ops[i];
    if o.kind.IsBranch() {
      BranchExit(env, s, b, insns[i], c, r, i);
      ReachesNow(env, Step(env, s).value, cycles, e, b.cumulativeCycles[i + 1]);
      ReachesNext(env, s, Step(env, s).value, 0, cycles, e, b.cumulativeCycles[i]);
    } else if o.kind.Rts? && Hit(c, r.A[7]) {
      RtsExit(env, s, b, insns[i], c, r, i);
      ReachesNow(env, Step(env, s).value, cycles, e, b.cumulativeCycles[i + 1]);
      ReachesNext(env, s, Step(env, s).value, 0, cycles, e, b.cumulativeCycles[i]);
    } else {
      ReachesNow(env, s, cycles, e, b.cumulativeCycles[i]);
    }
  }

  lemma ReachesNow(env: Env, s: State, cycles: bv16 -> nat, e: Exit, before: nat)
    requires SameRegs(RegsOf(s), e.r) && s.pc == e.nextPC && before == e.cycles
    ensures Reaches(env, s, 0, cycles, e, before)
  {
    hide Step;
  }

  lemma BranchExit(env: Env, s: State, b: Block, insn: Insn, c: DataCache, r: Regfile, i: nat)
    requires Encodes(env, s.pc, insn) && insn.kind.IsBranch() && SameRegs(RegsOf(s), r)
    requires b.Shaped() && i < |b.ops| && b.ops[i] == BuildOp(insn, s.pc, true) && b.ops[i].kind == insn.kind
    ensures var e := ExecuteFrom(b, c, r, i);
            && e.executed == b.count && e.cycles == b.totalCycles
            && Lands(Step(env, s), e.r, e.nextPC, s.mem)
  {
    hide Encodes, Step, BuildOp, EvaluateCondition;
    BranchRefines(env, s, insn, true);
    SameConditions(b.ops[i].cond, s.ccr, r.ccr);
  }

  lemma RtsExit(env: Env, s: State, b: Block, insn: Insn, c: DataCache, r: Regfile, i: nat)
    requires Encodes(env, s.pc, insn) && insn.kind.Rts? && SameRegs(RegsOf(s), r)
    requires b.Shaped() && i < |b.ops| && b.ops[i].kind.Rts? && Hit(c, r.A[7]) && Coherent(c, s.mem)
    ensures var e := ExecuteFrom(b, c, r, i);
            && e.executed == i + 1 && e.cycles == b.cumulativeCycles[i + 1]
            && Lands(Step(env, s), e.r, e.nextPC, s.mem)
  {
    hide Encodes, Step, Coherent, Hit, CachedLong;
    RtsRefines(env, s, insn);
    CachedRead(c, s.mem, r.A[7]);
  }

  lemma SameConditions(cond: bv4, a: Ccr, b: Ccr)
    requires SameNzvc(a, b)
    ensures EvaluateCondition(cond, a) == EvaluateCondition(cond, b)
  {
  }
}
