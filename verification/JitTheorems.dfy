/**
  The compiler is correct: dispatching compiled blocks refines interpretation, in one block, across a
  bailout, and over whole runs that mix the two.
*/
module JitTheorems {
  import opened Machine
  import opened EffectiveAddress
  import opened Interpreter
  import opened JitBlock
  import opened JitCompile
  import opened JitDecode
  import opened JitShape
  import opened JitFlags
  import opened JitBra
  import opened JitRefine

  // ----- One compiled block -----

  /** b is the compiled form of the instructions that the interpreter finds at startPC. */
  ghost predicate CompiledAt(env: Env, b: Block, insns: seq<Insn>, startPC: u32, cycles: bv16 -> nat) {
    && BlockOf(b, insns, startPC, cycles) && WellScanned(insns, startPC) && Encoded(env, insns, startPC)
    && insns != [] && (forall j: nat :: j < |insns| ==> b.ops[j].needsFlags == Needs(insns, j))
  }

  lemma CompiledIsAt(env: Env, read: u32 -> Option<bv16>, startPC: u32, startPA: u32, cycles: bv16 -> nat)
    returns (insns: seq<Insn>)
    requires Compile(read, startPC, startPA, cycles).Some?
    requires Mapped(env, read, startPC, startPA, Compile(read, startPC, startPA, cycles).value.byteLength)
    ensures CompiledAt(env, Compile(read, startPC, startPA, cycles).value, insns, startPC, cycles)
  {
    hide Scan, Needs, WellScanned, Encoded, OpOf, BuildOps, Cumulative, Mapped;
    insns := CompiledForm(read, startPC, startPA, cycles);
    BuiltBlock(insns, startPC, startPA, cycles);
    ScanEncodes(env, read, startPC, startPC, startPA, 0, MAX_BLOCK_LENGTH);
  }

  /** The compiled block run from t, the all-flags block run from s, and the interpreter run from s. */
  ghost predicate Together(
      env: Env, t: Regfile, s: State, b: Block, insns: seq<Insn>, cycles: bv16 -> nat, c: DataCache)
    requires b.Shaped()
  {
    var e, full := Execute(b, c, t), Execute(AllFlags(b), c, RegsOf(s));
    && SameExit(insns, e, full) && |b.ops| == |insns|
    && XOutcome(FateOfX(b.ops, 0, e.executed), t.ccr.x, s.ccr.x, e.r.ccr.x, full.r.ccr.x)
    && Reaches(env, s, full.executed, cycles, full, 0)
  }

  lemma RunTogether(
      env: Env, t: Regfile, s: State, b: Block, insns: seq<Insn>, cycles: bv16 -> nat, c: DataCache)
    requires CompiledAt(env, b, insns, s.pc, cycles) && Coherent(c, s.mem)
    requires SameDA(t, RegsOf(s)) && (LiveBefore(insns, 0) ==> SameNzvc(t.ccr, s.ccr))
    ensures b.Shaped() && Together(env, t, s, b, insns, cycles, c)
  {
    hide OpOf, WellScanned, Needs, Encoded, ExecuteFrom, Coherent, Consistent, XOutcome, FateOfX, Reaches, LiveBefore;
    var full := AllFlags(b);
    AllFlagsBlock(b, insns, s.pc, cycles);
    CompiledConsistent(b, insns, s.pc, cycles);
    LiveSim(b, full, insns, s.pc, cycles, c, t, RegsOf(s), 0);
    XSim(b, full, insns, s.pc, cycles, c, t, RegsOf(s), 0);
    PcZero(insns, s.pc);
    FullSim(env, s, full, insns, s.pc, cycles, c, RegsOf(s), 0);
  }

  /** Where a compiled block leads, as a state for the interpreter to go on from. */
  function Resumed(s: State, e: Exit): State {
    State(e.r.D, e.r.A, e.nextPC, e.r.ccr, s.mem)
  }

  /** Agreement on everything but the condition codes. */
  ghost predicate SameApartFromCcr(t: State, s: State) {
    t.D == s.D && t.A == s.A && t.pc == s.pc && t.mem == s.mem
  }

  /**
    Executing a compiled block is the same as interpreting executed instructions: same registers, PC
    and cycles, whatever the block's length and exit.  X agrees when the last X setter kept its flags;
    N, Z, V and C agree on exit from a completed block, unless it ends in BRA.
  */
  lemma JitRefinesInterpreter(
      env: Env, read: u32 -> Option<bv16>, s: State, startPA: u32, cycles: bv16 -> nat, c: DataCache)
    requires Compile(read, s.pc, startPA, cycles).Some? && Coherent(c, s.mem)
    requires Mapped(env, read, s.pc, startPA, Compile(read, s.pc, startPA, cycles).value.byteLength)
    ensures var b := Compile(read, s.pc, startPA, cycles).value;
            var e := Execute(b, c, RegsOf(s));
            && e.executed <= |b.ops| == b.count && 0 < b.count
            && Run(env, s, e.executed, cycles).Some?
            && var p := Run(env, s, e.executed, cycles).value;
               && p.cycles == e.cycles && SameApartFromCcr(Resumed(s, e), p.s)
               && (KeepsX(b, e.executed) ==> e.r.ccr.x == p.s.ccr.x)
               && (e.executed == b.count && !b.ops[b.count - 1].kind.Bra? ==> SameNzvc(e.r.ccr, p.s.ccr))
  {
    hide Compile, Mapped, OpOf, WellScanned, Needs, Encoded, ExecuteFrom, Coherent, FateOfX, LiveBefore;
    var insns := CompiledIsAt(env, read, s.pc, startPA, cycles);
    var b := Compile(read, s.pc, startPA, cycles).value;
    RunTogether(env, RegsOf(s), s, b, insns, cycles, c);
    PairOps(b, b, insns, s.pc, cycles, |insns| - 1);
    hide AllFlags;
  }

  // ----- Leaving a block early -----

  /** A block stops short only at a load, a store or an RTS, and nextPC is the address of that instruction. */
  lemma {:induction false} StopsAtMemory(b: Block, c: DataCache, r: Regfile, i: nat)
    requires b.Shaped() && b.count == |b.ops| && EndsOnce(b.ops) && i <= |b.ops|
    ensures var e := ExecuteFrom(b, c, r, i);
            && e.executed <= |b.ops|
            && (e.executed < |b.ops| ==>
                  b.ops[e.executed].kind.TouchesMemory() && e.nextPC == b.ops[e.executed].instrPC)
    decreases |b.ops| - i
  {
    hide Hit, CachedLong, LoadAddress, ApplyGuarded, LoadGuarded, EvaluateCondition;
    if i < |b.ops| {
      var o := b.ops[i];
      if o.kind.IsRegister() {
        StopsAtMemory(b, c, ApplyGuarded(o, r), i + 1);
      } else if o.kind.IsLoad() && Hit(c, LoadAddress(o, r)) {
        StopsAtMemory(b, c, LoadGuarded(o, r, CachedLong(c, LoadAddress(o, r))), i + 1);
      }
    }
  }

  /** Why an operation cannot be executed by the block, with the registers as they are before it. */
  predicate MustLeave(o: JitOp, c: DataCache, r: Regfile) {
    || o.kind.IsStore()
    || (o.kind.IsLoad() && !Hit(c, LoadAddress(o, r)))
    || (o.kind.Rts? && !Hit(c, r.A[7]))
  }

  /**
    A block stops short exactly when it has to: at a store, or at a load or RTS whose long word is not
    in the read cache.  It executes no store.
  */
  lemma {:induction false} StopsOnlyWhenItMust(b: Block, c: DataCache, r: Regfile, i: nat)
    requires b.Shaped() && b.count == |b.ops| && EndsOnce(b.ops) && i <= |b.ops|
    ensures var e := ExecuteFrom(b, c, r, i);
            && i <= e.executed <= |b.ops|
            && (e.executed < |b.ops| ==> MustLeave(b.ops[e.executed], c, e.r))
            && forall j :: i <= j < e.executed ==> !b.ops[j].kind.IsStore()
    decreases |b.ops| - i
  {
    hide Hit, CachedLong, LoadAddress, ApplyGuarded, LoadGuarded, EvaluateCondition;
    if i < |b.ops| {
      var o := b.ops[i];
      if o.kind.IsRegister() {
        StopsOnlyWhenItMust(b, c, ApplyGuarded(o, r), i + 1);
      } else if o.kind.IsLoad() && Hit(c, LoadAddress(o, r)) {
        StopsOnlyWhenItMust(b, c, LoadGuarded(o, r, CachedLong(c, LoadAddress(o, r))), i + 1);
      }
    }
  }

  lemma CompiledEndsOnce(env: Env, b: Block, insns: seq<Insn>, startPC: u32, cycles: bv16 -> nat)
    requires CompiledAt(env, b, insns, startPC, cycles)
    ensures EndsOnce(b.ops) && b.Shaped() && b.count == |b.ops| == |insns|
  {
    hide OpOf, WellScanned, Needs, Encoded;
    forall j | 0 <= j < |b.ops| - 1
      ensures !b.ops[j].kind.IsBranch() && !b.ops[j].kind.Rts?
    {
      PairOps(b, b, insns, startPC, cycles, j);
      BranchesLast(insns, startPC, j, j + 2);
    }
  }

  /** The stored address of operation i holds instruction i. */
  lemma EncodedOp(env: Env, b: Block, insns: seq<Insn>, startPC: u32, cycles: bv16 -> nat, i: nat)
    requires CompiledAt(env, b, insns, startPC, cycles) && i < |insns| == |b.ops|
    ensures Encodes(env, b.ops[i].instrPC, insns[i]) && b.ops[i].kind == insns[i].kind
  {
    hide Encodes, WellScanned, Needs, BuildOp, PcAt;
    assert OpOf(b, insns, startPC, cycles, i);
    BuiltNeeds(insns[i], PcAt(insns, startPC, i), b.ops[i].needsFlags);
  }

  /** What a load does, whatever the flags are. */
  lemma LoadFlags(o: JitOp, r: Regfile, u: Regfile, v: u32)
    requires SameDA(r, u)
    ensures LoadAddress(o, r) == LoadAddress(o, u) && SameDA(Load(o, r, v), Load(o, u, v))
    ensures SameNzvc(Load(o, r, v).ccr, Load(o, u, v).ccr)
    ensures Load(o, r, v).ccr.x == r.ccr.x && Load(o, u, v).ccr.x == u.ccr.x
  {
  }

  /** After both, N, Z, V and C agree, and X is what it was. */
  ghost predicate Resynced(t': Option<State>, s': Option<State>, t: State, s: State) {
    && t'.Some? && s'.Some? && SameApartFromCcr(t'.value, s'.value) && SameNzvc(t'.value.ccr, s'.value.ccr)
    && t'.value.ccr.x == t.ccr.x && s'.value.ccr.x == s.ccr.x
  }

  /** Loads and stores overwrite N, Z, V and C, and RTS keeps them. */
  lemma MemoryStepAgrees(env: Env, t: State, s: State, insn: Insn)
    requires Encodes(env, s.pc, insn) && insn.kind.TouchesMemory()
    requires SameApartFromCcr(t, s) && (insn.kind.Rts? ==> SameNzvc(t.ccr, s.ccr))
    ensures Resynced(Step(env, t), Step(env, s), t, s)
  {
    hide Encodes, Step, BuildOp, Load, LoadAddress, ReadLong, Disp16, Write;
    if insn.kind.IsLoad() {
      var o := BuildOp(insn, s.pc, true);
      LoadRefines(env, t, insn, true);
      LoadRefines(env, s, insn, true);
      LoadFlags(o, RegsOf(t), RegsOf(s), ReadLong(s.mem, LoadAddress(o, RegsOf(s))));
    } else if insn.kind.IsStore() {
      StoreStep(env, t, insn);
      StoreStep(env, s, insn);
    } else {
      RtsRefines(env, t, insn);
      RtsRefines(env, s, insn);
    }
  }

  lemma LiveAtRts(insns: seq<Insn>, startPC: u32, i: nat)
    requires WellScanned(insns, startPC) && i < |insns| && insns[i].kind.Rts?
    ensures LiveBefore(insns, i)
  {
  }

  /** Where an unfinished block leaves t and s: at the same memory instruction. */
  ghost predicate LeftAt(env: Env, b: Block, e: Exit, p: State, insn: Insn) {
    && e.executed < |b.ops| && b.ops[e.executed].kind == insn.kind
    && Encodes(env, p.pc, insn) && insn.kind.TouchesMemory()
    && (insn.kind.Rts? ==> SameNzvc(e.r.ccr, p.ccr))
  }

  lemma LeavesTogether(
      env: Env, t: Regfile, s: State, b: Block, insns: seq<Insn>, cycles: bv16 -> nat, c: DataCache)
    requires CompiledAt(env, b, insns, s.pc, cycles) && b.Shaped() && Together(env, t, s, b, insns, cycles, c)
    ensures var e := Execute(b, c, t);
            && 0 < b.count == |b.ops| == |insns| && e.executed <= b.count
            && Run(env, s, e.executed, cycles).Some?
            && var p := Run(env, s, e.executed, cycles).value;
               && SameApartFromCcr(Resumed(s, e), p.s) && p.cycles == e.cycles
               && (e.executed < b.count ==> LeftAt(env, b, e, p.s, insns[e.executed]))
               && (e.executed == b.count && !EndsInBra(insns) ==> SameNzvc(e.r.ccr, p.s.ccr))
               && XOutcome(FateOfX(b.ops, 0, e.executed), t.ccr.x, s.ccr.x, e.r.ccr.x, p.s.ccr.x)
  {
    hide WellScanned, ExecuteFrom, AllFlags, FateOfX, XOutcome, LiveBefore, Encodes, Run;
    CompiledEndsOnce(env, b, insns, s.pc, cycles);
    StopsAtMemory(b, c, t, 0);
    var e := Execute(b, c, t);
    if e.executed < b.count {
      EncodedOp(env, b, insns, s.pc, cycles, e.executed);
      if insns[e.executed].kind.Rts? {
        LiveAtRts(insns, s.pc, e.executed);
      }
    }
    hide CompiledAt;
  }

  /** The interpreter can take over where the block left off, one instruction later all is in step. */
  ghost predicate Resumes(env: Env, s: State, b: Block, e: Exit, cycles: bv16 -> nat) {
    && e.executed < |b.ops| && b.ops[e.executed].kind.TouchesMemory()
    && var t, p := Step(env, Resumed(s, e)), Run(env, s, e.executed + 1, cycles);
       && t.Some? && p.Some? && SameApartFromCcr(t.value, p.value.s) && SameNzvc(t.value.ccr, p.value.s.ccr)
       && (KeepsX(b, e.executed) ==> t.value.ccr.x == p.value.s.ccr.x)
  }

  /**
    A block left early can be resumed by the interpreter: after it runs the one instruction at the
    returned PC, registers, memory and N, Z, V, C are those of interpretation throughout, and so is X,
    unless its last setter in the executed part lost its flags.
  */
  lemma BailoutResumes(
      env: Env, read: u32 -> Option<bv16>, s: State, startPA: u32, cycles: bv16 -> nat, c: DataCache)
    requires Compile(read, s.pc, startPA, cycles).Some? && Coherent(c, s.mem)
    requires Mapped(env, read, s.pc, startPA, Compile(read, s.pc, startPA, cycles).value.byteLength)
    ensures var b := Compile(read, s.pc, startPA, cycles).value;
            Execute(b, c, RegsOf(s)).executed < b.count ==> Resumes(env, s, b, Execute(b, c, RegsOf(s)), cycles)
  {
    hide Compile, Mapped, CompiledAt, Encodes, ExecuteFrom, Coherent, FateOfX, Together, Step, EndsInBra;
    var insns := CompiledIsAt(env, read, s.pc, startPA, cycles);
    var b := Compile(read, s.pc, startPA, cycles).value;
    StartsTogether(env, s, b, insns, cycles, c);
    LeavesTogether(env, RegsOf(s), s, b, insns, cycles, c);
    var e := Execute(b, c, RegsOf(s));
    if e.executed < b.count {
      var p := Run(env, s, e.executed, cycles).value;
      MemoryStepAgrees(env, Resumed(s, e), p.s, insns[e.executed]);
      RunAppend(env, s, e.executed, 1, cycles);
      OneStep(env, p.s, cycles);
    }
    hide Execute, Run;
  }

  lemma StartsTogether(env: Env, s: State, b: Block, insns: seq<Insn>, cycles: bv16 -> nat, c: DataCache)
    requires CompiledAt(env, b, insns, s.pc, cycles) && Coherent(c, s.mem)
    ensures b.Shaped() && Together(env, RegsOf(s), s, b, insns, cycles, c)
  {
    hide CompiledAt, Together, Coherent;
    RunTogether(env, RegsOf(s), s, b, insns, cycles, c);
  }

  lemma OneStep(env: Env, s: State, cycles: bv16 -> nat)
    requires Step(env, s).Some?
    ensures Run(env, s, 1, cycles) == Some(Progress(Step(env, s).value, cycles(env.code(s.pc))))
  {
    hide Step;
    assert Run(env, Step(env, s).value, 0, cycles) == Some(Progress(Step(env, s).value, 0));
  }

  /**
    Every exit reports the cycle sum of the instructions it counts, and an early one the address of
    the first instruction it does not count.
  */
  predicate Accounted(b: Block, startPC: u32, e: Exit) {
    && b.Shaped() && e.executed <= b.count == |b.ops| && e.cycles == b.cumulativeCycles[e.executed]
    && (e.executed < b.count ==>
          e.nextPC == Wrap(startPC + LengthBefore(b.ops, e.executed)) && b.ops[e.executed].kind.TouchesMemory())
  }

  lemma ExitAccounting(
      read: u32 -> Option<bv16>, startPC: u32, startPA: u32, cycles: bv16 -> nat, c: DataCache, r: Regfile)
    requires Compile(read, startPC, startPA, cycles).Some?
    ensures var b := Compile(read, startPC, startPA, cycles).value;
            Accounted(b, startPC, Execute(b, c, r))
  {
    hide Compile, WellFormed, Accounted;
    CompiledWellFormed(read, startPC, startPA, cycles);
    BlockAccounting(Compile(read, startPC, startPA, cycles).value, startPC, c, r);
  }

  lemma BlockAccounting(b: Block, startPC: u32, c: DataCache, r: Regfile)
    requires WellFormed(b, startPC)
    ensures Accounted(b, startPC, Execute(b, c, r))
  {
    hide ExecuteFrom, LengthBefore;
    PlacedEndsOnce(b, startPC);
    StopsAtMemory(b, c, r, 0);
    CycleSums(b, c, r, 0);
    var e := Execute(b, c, r);
    if e.executed < b.count {
      assert Placed(b, startPC, e.executed);
    }
  }

  lemma PlacedEndsOnce(b: Block, startPC: u32)
    requires WellFormed(b, startPC)
    ensures EndsOnce(b.ops)
  {
    forall j | 0 <= j < |b.ops| - 1
      ensures !b.ops[j].kind.IsBranch() && !b.ops[j].kind.Rts?
    {
      assert Placed(b, startPC, j);
    }
    hide LengthBefore;
  }

  lemma {:induction false} CycleSums(b: Block, c: DataCache, r: Regfile, i: nat)
    requires b.Shaped() && b.count == |b.ops| && EndsOnce(b.ops) && i <= |b.ops|
    requires b.totalCycles == b.cumulativeCycles[b.count]
    ensures var e := ExecuteFrom(b, c, r, i); e.executed <= |b.ops| && e.cycles == b.cumulativeCycles[e.executed]
    decreases |b.ops| - i
  {
    hide Hit, CachedLong, LoadAddress, ApplyGuarded, LoadGuarded, EvaluateCondition;
    if i < |b.ops| {
      var o := b.ops[i];
      if o.kind.IsRegister() {
        CycleSums(b, c, ApplyGuarded(o, r), i + 1);
      } else if o.kind.IsLoad() && Hit(c, LoadAddress(o, r)) {
        CycleSums(b, c, LoadGuarded(o, r, CachedLong(c, LoadAddress(o, r))), i + 1);
      }
    }
  }

  /** A block without loads, stores and RTS always runs to completion. */
  lemma RegisterOnlyCompletes(
      read: u32 -> Option<bv16>, startPC: u32, startPA: u32, cycles: bv16 -> nat, c: DataCache, r: Regfile)
    requires Compile(read, startPC, startPA, cycles).Some?
    requires Compile(read, startPC, startPA, cycles).value.registerOnly
    ensures var b := Compile(read, startPC, startPA, cycles).value;
            Execute(b, c, r).executed == b.count && Execute(b, c, r).cycles == b.totalCycles
  {
    hide Compile, ExecuteFrom, OpOf, Needs;
    CompiledWellFormed(read, startPC, startPA, cycles);
    var b := Compile(read, startPC, startPA, cycles).value;
    RegisterOnlyFrom(b, c, r, 0);
  }

  lemma {:induction false} RegisterOnlyFrom(b: Block, c: DataCache, r: Regfile, i: nat)
    requires b.Shaped() && b.count == |b.ops| && i <= |b.ops| && AllRegister(b.ops)
    ensures ExecuteFrom(b, c, r, i).executed == b.count && ExecuteFrom(b, c, r, i).cycles == b.totalCycles
    decreases |b.ops| - i
  {
    hide Hit, CachedLong, LoadAddress, ApplyGuarded, LoadGuarded, EvaluateCondition;
    if i < |b.ops| && b.ops[i].kind.IsRegister() {
      RegisterOnlyFrom(b, c, ApplyGuarded(b.ops[i], r), i + 1);
    }
  }
}
