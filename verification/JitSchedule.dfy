/**
  Whole runs of the processor with the compiler switched on: any interleaving of interpreter steps and
  dispatched blocks is an interpreter run.
*/
module JitSchedule {
  import opened Machine
  import opened EffectiveAddress
  import opened Interpreter
  import opened InterpreterLaws
  import opened JitBlock
  import opened JitCompile
  import opened JitDecode
  import opened JitShape
  import opened JitFlags
  import opened JitBra
  import opened JitRefine
  import opened JitTheorems

  /** What the main loop does next: interpret, or dispatch the block it found in the block cache. */
  datatype Event = Interpret | Dispatch(b: Block, c: DataCache)

  /** The new state, with the instructions and cycles that the loop adds to its counters. */
  datatype Outcome = Outcome(s: State, executed: nat, cycles: nat)

  function InterpretOne(env: Env, s: State, cycles: bv16 -> nat): Option<Outcome> {
    match Step(env, s)
    case None => None
    case Some(t) => Some(Outcome(t, 1, cycles(env.code(s.pc))))
  }

  /** A block that stops at its first operation executes nothing; the interpreter runs in its place. */
  function OneEvent(env: Env, s: State, ev: Event, cycles: bv16 -> nat): Option<Outcome>
    requires ev.Dispatch? ==> ev.b.Shaped()
  {
    match ev
    case Interpret => InterpretOne(env, s, cycles)
    case Dispatch(b, c) =>
      var e := Execute(b, c, RegsOf(s));
      if e.executed == 0 && b.count > 0 then
        match InterpretOne(env, Resumed(s, e), cycles)
        case None => None
        case Some(m) => Some(m.(cycles := e.cycles + m.cycles))
      else Some(Outcome(Resumed(s, e), e.executed, e.cycles))
  }

  // ----- When a dispatch is faithful -----

  /** A block ending in BRA leaves the right flags if it writes none, or if its last writer is a CMP. */
  predicate BraKeepsFlags(b: Block) {
    || b.ops == [] || !b.ops[|b.ops| - 1].kind.Bra?
    || (forall j :: 0 <= j < |b.ops| ==> !Writer(b.ops[j].kind))
    || (exists j: nat | j < |b.ops| :: LastWriterIsCmp(b.ops, j))
  }

  /** b was compiled from the code at s.pc, its cache is right, and it loses neither X nor flags. */
  ghost predicate Faithful(env: Env, s: State, ev: Event, cycles: bv16 -> nat) {
    ev.Dispatch? ==>
      var b, c := ev.b, ev.c;
      && (exists insns :: CompiledAt(env, b, insns, s.pc, cycles))
      && Coherent(c, s.mem) && BraKeepsFlags(b)
      && b.Shaped()
      && var n := Execute(b, c, RegsOf(s)).executed;
         n <= |b.ops| && KeepsX(b, n)
  }

  /** Compiling supplies the first part of Faithful. */
  lemma CompiledFaithful(env: Env, read: u32 -> Option<bv16>, startPC: u32, startPA: u32, cycles: bv16 -> nat)
    requires Compile(read, startPC, startPA, cycles).Some?
    requires Mapped(env, read, startPC, startPA, Compile(read, startPC, startPA, cycles).value.byteLength)
    ensures exists insns :: CompiledAt(env, Compile(read, startPC, startPA, cycles).value, insns, startPC, cycles)
  {
    hide Compile, CompiledAt, Mapped;
    var insns := CompiledIsAt(env, read, startPC, startPA, cycles);
  }

  /**
    A check on the block alone: at every point where it can be left, the last X setter before that
    point kept its flags.
  */
  predicate KeepsXAtExits(b: Block) {
    forall n: nat | n <= |b.ops| :: (n == |b.ops| || b.ops[n].kind.TouchesMemory()) ==> KeepsX(b, n)
  }

  /** Hence a compiled block that passes two static checks is faithful whenever its read cache is right. */
  lemma StaticallyFaithful(env: Env, s: State, b: Block, c: DataCache, insns: seq<Insn>, cycles: bv16 -> nat)
    requires CompiledAt(env, b, insns, s.pc, cycles) && Coherent(c, s.mem)
    requires BraKeepsFlags(b) && KeepsXAtExits(b)
    ensures Faithful(env, s, Event.Dispatch(b, c), cycles)
  {
    hide CompiledAt, ExecuteFrom, Coherent, KeepsX, BraKeepsFlags;
    CompiledEndsOnce(env, b, insns, s.pc, cycles);
    StopsAtMemory(b, c, RegsOf(s), 0);
  }

  // ----- The relation kept by every event -----

  /** MOVE.L to or from memory, in a compilable form. */
  predicate OverwritesFlags(op: bv16) {
    Classify(op).Some? && (Classify(op).value.IsLoad() || Classify(op).value.IsStore())
  }

  /**
    The machine with blocks (t) and the pure interpreter (s) agree, except that N, Z, V and C may differ
    while the next instruction is one that overwrites them.
  */
  ghost predicate Related(env: Env, t: State, s: State) {
    && SameApartFromCcr(t, s) && t.ccr.x == s.ccr.x && t.ccr.rest == s.ccr.rest == 0
    && (SameNzvc(t.ccr, s.ccr) || OverwritesFlags(env.code(s.pc)))
  }

  lemma {:induction false} BlockClears(b: Block, c: DataCache, r: Regfile, i: nat)
    requires b.Shaped() && i <= |b.ops| && r.ccr.rest == 0
    ensures ExecuteFrom(b, c, r, i).r.ccr.rest == 0
    decreases |b.ops| - i
  {
    hide Hit, CachedLong, LoadAddress, Apply, EvaluateCondition;
    if i < |b.ops| {
      var o := b.ops[i];
      if o.kind.IsRegister() {
        ApplyFlags(o, r, r.ccr);
        BlockClears(b, c, ApplyGuarded(o, r), i + 1);
      } else if o.kind.IsLoad() && Hit(c, LoadAddress(o, r)) {
        BlockClears(b, c, LoadGuarded(o, r, CachedLong(c, LoadAddress(o, r))), i + 1);
      }
    }
  }

  lemma {:induction false} RunClears(env: Env, s: State, k: nat, cycles: bv16 -> nat)
    requires s.ccr.rest == 0 && Run(env, s, k, cycles).Some?
    ensures Run(env, s, k, cycles).value.s.ccr.rest == 0
    decreases k
  {
    hide Step;
    if k > 0 {
      StepClears(env, s);
      RunClears(env, Step(env, s).value, k - 1, cycles);
    }
  }

  function InsnAt(env: Env, pc: u32): Insn
    requires Classify(env.code(pc)).Some?
  {
    var k := Classify(env.code(pc)).value;
    Insn(env.code(pc), env.code(Wrap(pc + 2)), k, if TwoWords(k) then 4 else 2)
  }

  /** The first instruction of a related pair: what either machine does with it. */
  lemma InterpretRelated(env: Env, t: State, s: State, cycles: bv16 -> nat)
    requires Related(env, t, s)
    ensures InterpretOne(env, t, cycles).None? <==> Step(env, s).None?
    ensures InterpretOne(env, t, cycles).Some? ==>
      var m := InterpretOne(env, t, cycles).value;
      && m.executed == 1 && Run(env, s, 1, cycles).Some?
      && var p := Run(env, s, 1, cycles).value;
         p.cycles == m.cycles && Related(env, m.s, p.s)
  {
    hide Step, Classify;
    StepClears(env, t);
    StepClears(env, s);
    if SameNzvc(t.ccr, s.ccr) {
      assert t.ccr == s.ccr;
      assert t == s;
    } else {
      var insn := InsnAt(env, s.pc);
      assert Encodes(env, s.pc, insn) by {
        LoadsAreNoLea(insn.kind);
      }
      MemoryStepAgrees(env, t, s, insn);
    }
    if Step(env, s).Some? {
      OneStep(env, s, cycles);
    }
  }

  lemma LoadsAreNoLea(k: Kind)
    requires k.IsLoad() || k.IsStore()
    ensures !k.LeaIndex?
  {
  }

  // ----- Dispatching a block -----

  /** The first instruction of a compiled block is the one at s.pc. */
  lemma FirstInsn(env: Env, b: Block, insns: seq<Insn>, pc: u32, cycles: bv16 -> nat)
    requires CompiledAt(env, b, insns, pc, cycles)
    ensures b.Shaped() && 0 < b.count == |b.ops| == |insns| && b.cumulativeCycles[0] == 0
    ensures b.ops[0].kind == insns[0].kind && b.ops[0].instrPC == pc
    ensures OverwritesFlags(env.code(pc)) ==> insns[0].kind.IsLoad() || insns[0].kind.IsStore()
    ensures insns[0].kind.IsLoad() ==> !LiveBefore(insns, 0)
  {
    hide WellScanned, Needs, BuildOp, LiveBefore, Classify;
    PcZero(insns, pc);
    assert OpOf(b, insns, pc, cycles, 0);
    BuiltNeeds(insns[0], pc, b.ops[0].needsFlags);
    LiveUnfold(insns, 0);
    LiveUnfold(insns, 1);
  }

  /** A block that executes nothing changes nothing; one that starts with a store executes nothing. */
  lemma {:induction false} NothingExecuted(b: Block, c: DataCache, r: Regfile)
    requires b.Shaped() && 0 < b.count == |b.ops| && b.cumulativeCycles[0] == 0
    ensures b.ops[0].kind.IsStore() ==> Execute(b, c, r).executed == 0
    ensures Execute(b, c, r).executed == 0 ==> Execute(b, c, r) == Exit(r, b.ops[0].instrPC, 0, 0)
  {
    hide Hit, CachedLong, LoadAddress, ApplyGuarded, LoadGuarded, EvaluateCondition;
    var o := b.ops[0];
    if o.kind.IsRegister() {
      ExecutedGrows(b, c, ApplyGuarded(o, r), 1);
    } else if o.kind.IsLoad() && Hit(c, LoadAddress(o, r)) {
      ExecutedGrows(b, c, LoadGuarded(o, r, CachedLong(c, LoadAddress(o, r))), 1);
    }
  }

  lemma {:induction false} ExecutedGrows(b: Block, c: DataCache, r: Regfile, i: nat)
    requires b.Shaped() && b.count == |b.ops| && i <= |b.ops|
    ensures ExecuteFrom(b, c, r, i).executed >= i
    decreases |b.ops| - i
  {
    hide Hit, CachedLong, LoadAddress, ApplyGuarded, LoadGuarded, EvaluateCondition;
    if i < |b.ops| {
      var o := b.ops[i];
      if o.kind.IsRegister() {
        ExecutedGrows(b, c, ApplyGuarded(o, r), i + 1);
      } else if o.kind.IsLoad() && Hit(c, LoadAddress(o, r)) {
        ExecutedGrows(b, c, LoadGuarded(o, r, CachedLong(c, LoadAddress(o, r))), i + 1);
      }
    }
  }

  /** The flags after a completed block that ends in BRA, where the block keeps them. */
  lemma BraFlags(env: Env, t: Regfile, s: State, b: Block, insns: seq<Insn>, cycles: bv16 -> nat, c: DataCache)
    requires CompiledAt(env, b, insns, s.pc, cycles) && b.Shaped() && Together(env, t, s, b, insns, cycles, c)
    requires SameDA(t, RegsOf(s)) && EndsInBra(insns) && BraKeepsFlags(b)
    requires Execute(b, c, t).executed == b.count == |b.ops|
    requires (forall j :: 0 <= j < |b.ops| ==> !Writer(b.ops[j].kind)) ==> SameNzvc(t.ccr, s.ccr)
    ensures SameNzvc(Execute(b, c, t).r.ccr, Execute(AllFlags(b), c, RegsOf(s)).r.ccr)
  {
    hide WellScanned, ExecuteFrom, OpOf, Needs, Encoded, Writer, Reaches, XOutcome, FateOfX, SameExit;
    var full := AllFlags(b);
    AllFlagsBlock(b, insns, s.pc, cycles);
    forall j | 0 <= j < |b.ops|
      ensures b.ops[j].kind == full.ops[j].kind == insns[j].kind
    {
      PairOps(b, full, insns, s.pc, cycles, j);
    }
    if forall j :: 0 <= j < |b.ops| ==> !Writer(b.ops[j].kind) {
      NothingWritten(b, c, t, 0);
      NothingWritten(full, c, RegsOf(s), 0);
    } else {
      var j: nat :| j < |b.ops| && LastWriterIsCmp(b.ops, j);
      CmpSim(b, full, insns, s.pc, cycles, c, t, RegsOf(s), 0, j);
      forall k | 0 <= k < j
        ensures !b.ops[k].kind.IsBranch()
      {
        BranchesLast(insns, s.pc, k, k + 2);
      }
    }
  }

  /** Related machines stay related when one dispatches a faithful block that executes something. */
  lemma DispatchRelated(env: Env, t: State, s: State, b: Block, insns: seq<Insn>, cycles: bv16 -> nat, c: DataCache)
    requires Related(env, t, s) && CompiledAt(env, b, insns, s.pc, cycles) && Coherent(c, s.mem)
    requires BraKeepsFlags(b) && b.Shaped()
    requires var n := Execute(b, c, RegsOf(t)).executed; 0 < n <= |b.ops| && KeepsX(b, n)
    ensures var e := Execute(b, c, RegsOf(t));
            && Run(env, s, e.executed, cycles).Some?
            && var p := Run(env, s, e.executed, cycles).value;
               p.cycles == e.cycles && Related(env, Resumed(t, e), p.s)
  {
    hide CompiledAt, ExecuteFrom, Coherent, FateOfX, Together, LiveBefore, OverwritesFlags, BraKeepsFlags, WellScanned;
    hide EndsInBra, Run, Encodes;
    var e := Execute(b, c, RegsOf(t));
    FirstInsn(env, b, insns, s.pc, cycles);
    NothingExecuted(b, c, RegsOf(t));
    RunTogether(env, RegsOf(t), s, b, insns, cycles, c);
    LeavesTogether(env, RegsOf(t), s, b, insns, cycles, c);
    var p := Run(env, s, e.executed, cycles).value;
    BlockClears(b, c, RegsOf(t), 0);
    RunClears(env, s, e.executed, cycles);
    if e.executed < b.count {
      LeftOverwrites(env, p.s, insns[e.executed]);
    } else if EndsInBra(insns) {
      BraRelated(env, RegsOf(t), s, b, insns, cycles, c);
    }
    hide Execute;
  }

  lemma LeftOverwrites(env: Env, p: State, insn: Insn)
    requires Encodes(env, p.pc, insn) && insn.kind.TouchesMemory()
    ensures insn.kind.Rts? || OverwritesFlags(env.code(p.pc))
  {
  }

  lemma BraRelated(env: Env, t: Regfile, s: State, b: Block, insns: seq<Insn>, cycles: bv16 -> nat, c: DataCache)
    requires CompiledAt(env, b, insns, s.pc, cycles) && b.Shaped() && Together(env, t, s, b, insns, cycles, c)
    requires SameDA(t, RegsOf(s)) && EndsInBra(insns) && BraKeepsFlags(b)
    requires Execute(b, c, t).executed == b.count == |b.ops| && b.ops[0].kind == insns[0].kind
    requires SameNzvc(t.ccr, s.ccr) || insns[0].kind.IsLoad()
    ensures var n := Execute(b, c, t).executed;
            Run(env, s, n, cycles).Some? && SameNzvc(Execute(b, c, t).r.ccr, Run(env, s, n, cycles).value.s.ccr)
  {
    hide CompiledAt, ExecuteFrom, Run, FateOfX, XOutcome, EndsInBra, BraKeepsFlags, Writer;
    if !SameNzvc(t.ccr, s.ccr) {
      LoadsWrite(insns[0].kind);
      assert Writer(b.ops[0].kind);
    }
    BraFlags(env, t, s, b, insns, cycles, c);
  }

  // ----- Whole runs -----

  /** The reference: k interpreter steps reach a state related to the outcome, with the same cycles. */
  ghost predicate Matches(env: Env, s: State, m: Outcome, cycles: bv16 -> nat) {
    && Run(env, s, m.executed, cycles).Some?
    && var p := Run(env, s, m.executed, cycles).value; p.cycles == m.cycles && Related(env, m.s, p.s)
  }

  lemma EventRefines(env: Env, t: State, s: State, ev: Event, cycles: bv16 -> nat)
    requires Related(env, t, s) && Faithful(env, t, ev, cycles)
    ensures var m := OneEvent(env, t, ev, cycles);
            if m.Some? then m.value.executed > 0 && Matches(env, s, m.value, cycles) else Step(env, s).None?
  {
    hide Related, CompiledAt, ExecuteFrom, Coherent, FateOfX, BraKeepsFlags, Step, Run;
    if ev.Dispatch? {
      RelatedPc(env, t, s);
      var insns :| CompiledAt(env, ev.b, insns, s.pc, cycles);
      FirstInsn(env, ev.b, insns, s.pc, cycles);
      NothingExecuted(ev.b, ev.c, RegsOf(t));
      var e := Execute(ev.b, ev.c, RegsOf(t));
      if e.executed > 0 {
        DispatchRelated(env, t, s, ev.b, insns, cycles, ev.c);
      } else {
        assert Resumed(t, e) == t;
        InterpretRelated(env, t, s, cycles);
      }
    } else {
      InterpretRelated(env, t, s, cycles);
    }
    hide Execute;
  }

  lemma RelatedPc(env: Env, t: State, s: State)
    requires Related(env, t, s)
    ensures t.pc == s.pc && t.mem == s.mem
  {
  }

  predicate AllShaped(evs: seq<Event>) {
    forall i :: 0 <= i < |evs| && evs[i].Dispatch? ==> evs[i].b.Shaped()
  }

  /** Any number of events in a row. */
  function Events(env: Env, t: State, evs: seq<Event>, cycles: bv16 -> nat): Option<Outcome>
    requires AllShaped(evs)
    decreases |evs|
  {
    if evs == [] then Some(Outcome(t, 0, 0))
    else
      match OneEvent(env, t, evs[0], cycles)
      case None => None
      case Some(m) =>
        match Events(env, m.s, evs[1..], cycles)
        case None => None
        case Some(rest) => Some(Outcome(rest.s, m.executed + rest.executed, m.cycles + rest.cycles))
  }

  /** Every event is faithful in the state in which it happens. */
  ghost predicate AllFaithful(env: Env, t: State, evs: seq<Event>, cycles: bv16 -> nat)
    requires AllShaped(evs)
    decreases |evs|
  {
    evs == [] ||
    (Faithful(env, t, evs[0], cycles)
     && match OneEvent(env, t, evs[0], cycles)
        case None => true
        case Some(m) => AllFaithful(env, m.s, evs[1..], cycles))
  }

  /**
    Safety over every run: whatever mixture of interpreted instructions and dispatched blocks the
    machine goes through, it is where pure interpretation would be after the counted number of
    instructions, having used the counted number of cycles; and it gets stuck only where the
    interpreter does.
  */
  lemma {:induction false} MixedRunIsInterpreterRun(
      env: Env, t: State, s: State, evs: seq<Event>, cycles: bv16 -> nat)
    requires Related(env, t, s) && AllShaped(evs) && AllFaithful(env, t, evs, cycles)
    ensures var m := Events(env, t, evs, cycles);
            if m.Some? then m.value.executed >= |evs| && Matches(env, s, m.value, cycles)
            else exists k: nat :: Run(env, s, k, cycles).None?
    decreases |evs|
  {
    hide Related, Faithful, OneEvent, Step;
    if evs != [] {
      EventRefines(env, t, s, evs[0], cycles);
      var m := OneEvent(env, t, evs[0], cycles);
      if m.None? {
        assert Run(env, s, 1, cycles).None?;
      } else {
        var p := Run(env, s, m.value.executed, cycles).value;
        MixedRunIsInterpreterRun(env, m.value.s, p.s, evs[1..], cycles);
        var rest := Events(env, m.value.s, evs[1..], cycles);
        if rest.Some? {
          RunAppend(env, s, m.value.executed, rest.value.executed, cycles);
        } else {
          var k: nat :| Run(env, p.s, k, cycles).None?;
          RunAppend(env, s, m.value.executed, k, cycles);
        }
      }
    }
  }

  /** From one and the same start, and at any instruction that is not about to overwrite them, all flags agree. */
  lemma RelatedExactly(env: Env, t: State, s: State)
    requires Related(env, t, s) && !OverwritesFlags(env.code(s.pc))
    ensures t == s
  {
  }
}
