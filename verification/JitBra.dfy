/**
  Blocks that end in an unconditional branch.  The backward pass treats flags as dead there, so the
  condition codes they leave are usually not the ones the instructions define.
*/
module JitBra {
  import opened Machine
  import opened Interpreter
  import opened JitBlock
  import opened JitCompile
  import opened JitShape
  import opened JitFlags

  /** Writes some of N, Z, V and C. */
  predicate Writer(k: Kind) {
    Killer(k) || k.Btst?
  }

  predicate Exists(ops: seq<JitOp>, i: nat, n: nat, btst: bool)
    requires i <= n <= |ops|
  {
    exists j :: i <= j < n && (Killer(ops[j].kind) || (btst && ops[j].kind.Btst?))
  }

  predicate SameNvc(a: Ccr, b: Ccr) {
    a.n == b.n && a.v == b.v && a.c == b.c
  }

  // ----- The block that keeps all flags forgets the flags it was entered with -----

  predicate Settled(ops: seq<JitOp>, i: nat, n: nat, r1: Regfile, r2: Regfile, e1: Regfile, e2: Regfile)
    requires i <= n <= |ops|
  {
    && (SameNvc(r1.ccr, r2.ccr) || Exists(ops, i, n, false) ==> SameNvc(e1.ccr, e2.ccr))
    && (r1.ccr.z == r2.ccr.z || Exists(ops, i, n, true) ==> e1.ccr.z == e2.ccr.z)
  }

  lemma SettledNow(ops: seq<JitOp>, i: nat, r1: Regfile, r2: Regfile)
    requires i <= |ops|
    ensures Settled(ops, i, i, r1, r2, r1, r2)
  {
  }

  lemma SettledStep(ops: seq<JitOp>, i: nat, n: nat, r1: Regfile, r2: Regfile, m1: Regfile, m2: Regfile,
                    e1: Regfile, e2: Regfile)
    requires i < n <= |ops| && Settled(ops, i + 1, n, m1, m2, e1, e2)
    requires SameNvc(r1.ccr, r2.ccr) || Killer(ops[i].kind) ==> SameNvc(m1.ccr, m2.ccr)
    requires r1.ccr.z == r2.ccr.z || Writer(ops[i].kind) ==> m1.ccr.z == m2.ccr.z
    ensures Settled(ops, i, n, r1, r2, e1, e2)
  {
  }

  lemma FullStep(o: JitOp, r1: Regfile, r2: Regfile)
    requires o.kind.IsRegister() && o.needsFlags && SameDA(r1, r2)
    ensures var m1, m2 := ApplyGuarded(o, r1), ApplyGuarded(o, r2);
            && SameDA(m1, m2)
            && (SameNvc(r1.ccr, r2.ccr) || Killer(o.kind) ==> SameNvc(m1.ccr, m2.ccr))
            && (r1.ccr.z == r2.ccr.z || Writer(o.kind) ==> m1.ccr.z == m2.ccr.z)
  {
    hide Apply;
    ApplyFlags(o, r1, r2.ccr);
    assert r1.(ccr := r2.ccr) == r2;
  }

  lemma FullLoad(o: JitOp, r1: Regfile, r2: Regfile, v: u32)
    requires o.kind.IsLoad() && o.needsFlags && SameDA(r1, r2)
    ensures var m1, m2 := LoadGuarded(o, r1, v), LoadGuarded(o, r2, v);
            SameDA(m1, m2) && SameNvc(m1.ccr, m2.ccr) && m1.ccr.z == m2.ccr.z
    ensures LoadAddress(o, r1) == LoadAddress(o, r2)
  {
  }

  predicate AllKeep(b: Block) {
    b.Shaped() && b.count == |b.ops| && forall j :: 0 <= j < |b.ops| ==> b.ops[j].needsFlags
  }

  /** Branches and RTS are last. */
  predicate EndsOnce(ops: seq<JitOp>) {
    forall j :: 0 <= j < |ops| - 1 ==> !ops[j].kind.IsBranch() && !ops[j].kind.Rts?
  }

  lemma {:induction false} FullSettles(b: Block, c: DataCache, r1: Regfile, r2: Regfile, i: nat)
    requires AllKeep(b) && EndsOnce(b.ops) && i <= |b.ops| && SameDA(r1, r2)
    ensures var e1, e2 := ExecuteFrom(b, c, r1, i), ExecuteFrom(b, c, r2, i);
            i <= e1.executed <= |b.ops| && e1.executed == e2.executed
            && Settled(b.ops, i, e1.executed, r1, r2, e1.r, e2.r)
    decreases |b.ops| - i
  {
    hide Settled, Writer, Killer, Hit, CachedLong, LoadAddress, ApplyGuarded, LoadGuarded, EvaluateCondition, SameNvc;
    SettledNow(b.ops, i, r1, r2);
    if i < |b.ops| {
      var o := b.ops[i];
      var e1, e2 := ExecuteFrom(b, c, r1, i), ExecuteFrom(b, c, r2, i);
      if o.kind.IsRegister() {
        FullStep(o, r1, r2);
        FullSettles(b, c, ApplyGuarded(o, r1), ApplyGuarded(o, r2), i + 1);
        SettledStep(b.ops, i, e1.executed, r1, r2, ApplyGuarded(o, r1), ApplyGuarded(o, r2), e1.r, e2.r);
      } else if o.kind.IsLoad() {
        FullLoad(o, r1, r2, 0);
        if Hit(c, LoadAddress(o, r1)) {
          var v := CachedLong(c, LoadAddress(o, r1));
          FullLoad(o, r1, r2, v);
          FullSettles(b, c, LoadGuarded(o, r1, v), LoadGuarded(o, r2, v), i + 1);
          SettledStep(b.ops, i, e1.executed, r1, r2, LoadGuarded(o, r1, v), LoadGuarded(o, r2, v), e1.r, e2.r);
        }
      } else if o.kind.IsBranch() || o.kind.Rts? {
        NotWriter(o.kind);
        SettledNow(b.ops, i + 1, r1, r2);
        SettledStep(b.ops, i, i + 1, r1, r2, r1, r2, r1, r2);
        SettledAfterRts(b.ops, i, r1, r2);
      }
    }
  }

  lemma NotWriter(k: Kind)
    requires k.IsBranch() || k.Rts?
    ensures !Writer(k) && !Killer(k)
  {
  }

  lemma SettledAfterRts(ops: seq<JitOp>, i: nat, r1: Regfile, r2: Regfile)
    requires i < |ops| && Settled(ops, i, i + 1, r1, r2, r1, r2)
    ensures forall t1: Regfile, t2: Regfile :: t1.ccr == r1.ccr && t2.ccr == r2.ccr ==>
      Settled(ops, i, i + 1, r1, r2, t1, t2)
  {
  }

  // ----- The compiled block writes no flags except those of CMP -----

  lemma {:induction false} BraDead(insns: seq<Insn>, startPC: u32, i: nat)
    requires WellScanned(insns, startPC) && EndsInBra(insns) && i < |insns|
    ensures !LiveBefore(insns, i) && !Needs(insns, i)
    decreases |insns| - i
  {
    hide LiveBefore, ScannedTarget;
    LiveUnfold(insns, i);
    LiveUnfold(insns, i + 1);
    if i < |insns| - 1 {
      BraDead(insns, startPC, i + 1);
    }
  }

  predicate NoCmp(ops: seq<JitOp>) {
    forall j :: 0 <= j < |ops| ==> !ops[j].kind.Cmp?
  }

  /** With no flags needed and no CMP, the CCR passes through unchanged. */
  lemma {:induction false} CcrPassesThrough(b: Block, c: DataCache, r: Regfile, i: nat)
    requires b.Shaped() && i <= |b.ops| && NoCmp(b.ops)
    requires forall j :: 0 <= j < |b.ops| ==> !b.ops[j].needsFlags
    ensures ExecuteFrom(b, c, r, i).r.ccr == r.ccr
    decreases |b.ops| - i
  {
    hide Hit, CachedLong, LoadAddress, Apply, Load, EvaluateCondition;
    if i < |b.ops| {
      var o := b.ops[i];
      if o.kind.IsRegister() {
        CcrPassesThrough(b, c, ApplyGuarded(o, r), i + 1);
      } else if o.kind.IsLoad() && Hit(c, LoadAddress(o, r)) {
        CcrPassesThrough(b, c, LoadGuarded(o, r, CachedLong(c, LoadAddress(o, r))), i + 1);
      }
    }
  }

  /** The exit N, Z, V and C agree with those of the block that keeps all flags, entered with ccr f. */
  predicate NzvcAgrees(b: Block, c: DataCache, r: Regfile, f: Ccr)
    requires b.Shaped()
  {
    SameNzvc(Execute(b, c, r.(ccr := f)).r.ccr, Execute(AllFlags(b), c, r.(ccr := f)).r.ccr)
  }

  /** If nothing writes flags, the all-flags block leaves them alone as well. */
  lemma {:induction false} NothingWritten(b: Block, c: DataCache, r: Regfile, i: nat)
    requires b.Shaped() && i <= |b.ops| && forall j :: 0 <= j < |b.ops| ==> !Writer(b.ops[j].kind)
    ensures ExecuteFrom(b, c, r, i).r.ccr == r.ccr
    decreases |b.ops| - i
  {
    hide Hit, CachedLong, LoadAddress, ApplyGuarded, LoadGuarded, EvaluateCondition, Transparent;
    if i < |b.ops| {
      var o := b.ops[i];
      assert !Writer(o.kind);
      if o.kind.IsRegister() {
        ApplyFlags(o, r, r.ccr);
        TransparentGuarded(o, r);
        NothingWritten(b, c, ApplyGuarded(o, r), i + 1);
      } else if o.kind.IsLoad() {
        LoadsWrite(o.kind);
        assert false;
      }
    }
  }

  lemma TransparentGuarded(o: JitOp, r: Regfile)
    requires ApplyFlagsAt(o, r, r.ccr) && Transparent(o.kind)
    ensures ApplyGuarded(o, r).ccr == r.ccr
  {
  }

  lemma LoadsWrite(k: Kind)
    requires k.IsLoad()
    ensures Writer(k)
  {
  }

  /** Entry flags that the all-flags exit cannot reproduce, when a flag writer was executed. */
  function Spoiled(r: Regfile, exit: Ccr): Ccr {
    r.ccr.(n := !exit.n, z := !exit.z)
  }

  lemma BraForms(b: Block, insns: seq<Insn>, startPC: u32, cycles: bv16 -> nat)
    requires BlockOf(b, insns, startPC, cycles) && WellScanned(insns, startPC) && EndsInBra(insns)
    requires forall j: nat :: j < |insns| ==> b.ops[j].needsFlags == Needs(insns, j)
    ensures forall j :: 0 <= j < |b.ops| ==> !b.ops[j].needsFlags
    ensures var full := AllFlags(b);
            AllKeep(full) && EndsOnce(full.ops)
            && forall j :: 0 <= j < |b.ops| ==> full.ops[j].kind == b.ops[j].kind
  {
    hide OpOf, WellScanned, Needs;
    AllFlagsBlock(b, insns, startPC, cycles);
    forall j | 0 <= j < |b.ops|
      ensures !b.ops[j].needsFlags
      ensures b.ops[j].kind == insns[j].kind
      ensures j < |b.ops| - 1 ==> !b.ops[j].kind.IsBranch() && !b.ops[j].kind.Rts?
    {
      BraDead(insns, startPC, j);
      PairOps(b, b, insns, startPC, cycles, j);
      if j < |b.ops| - 1 {
        BranchesLast(insns, startPC, j, j + 2);
      }
    }
  }

  /**
    A block without CMP that runs to a final BRA leaves the CCR exactly as it was entered.  Hence its
    N, Z, V and C are right for every entry CCR if and only if no instruction in it writes flags.
  */
  lemma BraExact(
      read: u32 -> Option<bv16>, startPC: u32, startPA: u32, cycles: bv16 -> nat, c: DataCache, r: Regfile)
    requires Compile(read, startPC, startPA, cycles).Some?
    requires var b := Compile(read, startPC, startPA, cycles).value;
             && b.count == |b.ops| > 0 && b.ops[b.count - 1].kind.Bra? && NoCmp(b.ops)
             && b.Shaped() && Execute(b, c, r).executed == b.count
    ensures var b := Compile(read, startPC, startPA, cycles).value;
            && (forall f :: Execute(b, c, r.(ccr := f)).r.ccr == f)
            && ((forall f :: NzvcAgrees(b, c, r, f)) <==> forall j :: 0 <= j < b.count ==> !Writer(b.ops[j].kind))
  {
    var insns := CompiledForm(read, startPC, startPA, cycles);
    var b := Compile(read, startPC, startPA, cycles).value;
    BuiltBlock(insns, startPC, startPA, cycles);
    PairOps(b, b, insns, startPC, cycles, b.count - 1);
    BraForms(b, insns, startPC, cycles);
    AllFlagsBlock(b, insns, startPC, cycles);
    forall f
      ensures Execute(b, c, r.(ccr := f)).r.ccr == f
    {
      CcrPassesThrough(b, c, r.(ccr := f), 0);
    }
    SameCounts(b, AllFlags(b), insns, startPC, cycles, c, r, r, 0);
    hide Compile, ExecuteFrom, AllFlags, OpOf, WellScanned, Writer;
    if forall j :: 0 <= j < b.count ==> !Writer(b.ops[j].kind) {
      forall f
        ensures NzvcAgrees(b, c, r, f)
      {
        NothingWritten(AllFlags(b), c, r.(ccr := f), 0);
      }
    } else {
      SpoiledDiffers(b, c, r);
    }
  }

  lemma SpoiledDiffers(b: Block, c: DataCache, r: Regfile)
    requires b.Shaped() && b.count == |b.ops| && AllKeep(AllFlags(b)) && EndsOnce(AllFlags(b).ops)
    requires Execute(AllFlags(b), c, r).executed == b.count
    requires forall j :: 0 <= j < |b.ops| ==> AllFlags(b).ops[j].kind == b.ops[j].kind
    requires forall f :: Execute(b, c, r.(ccr := f)).r.ccr == f
    requires exists j :: 0 <= j < b.count && Writer(b.ops[j].kind)
    ensures !NzvcAgrees(b, c, r, Spoiled(r, Execute(AllFlags(b), c, r).r.ccr))
  {
    var full := AllFlags(b);
    var f := Spoiled(r, Execute(full, c, r).r.ccr);
    FullSettles(full, c, r, r.(ccr := f), 0);
    var j :| 0 <= j < b.count && Writer(b.ops[j].kind);
    assert full.ops[j].kind == b.ops[j].kind;
    assert Exists(full.ops, 0, b.count, true);
    hide ExecuteFrom, AllFlags, Killer;
  }

  // ----- When the flags of a CMP survive -----

  /** Operation j is a CMP and no later operation writes flags. */
  predicate LastWriterIsCmp(ops: seq<JitOp>, j: nat) {
    j < |ops| && ops[j].kind.Cmp? && forall i :: j < i < |ops| ==> !Writer(ops[i].kind)
  }

  lemma CmpStep(o1: JitOp, o2: JitOp, r1: Regfile, r2: Regfile)
    requires SameOp(o1, o2) && o1.kind.Cmp? && SameDA(r1, r2)
    ensures SameNzvc(ApplyGuarded(o1, r1).ccr, ApplyGuarded(o2, r2).ccr)
  {
    hide Apply;
    ApplySame(o1, o2, r1);
    ApplyFlags(o2, r1, r2.ccr);
    assert r1.(ccr := r2.ccr) == r2;
  }

  /** CMP writes its flags even where they are dead, so they agree from there on. */
  lemma {:induction false} CmpSim(
      b1: Block, b2: Block, insns: seq<Insn>, startPC: u32, cycles: bv16 -> nat,
      c: DataCache, r1: Regfile, r2: Regfile, i: nat, j: nat)
    requires Pair(b1, b2, insns, startPC, cycles) && LastWriterIsCmp(b1.ops, j) && i <= |insns|
    requires SameDA(r1, r2) && (i > j ==> SameNzvc(r1.ccr, r2.ccr))
    requires ExecuteFrom(b1, c, r1, i).executed > j
    ensures SameNzvc(ExecuteFrom(b1, c, r1, i).r.ccr, ExecuteFrom(b2, c, r2, i).r.ccr)
      || exists k :: 0 <= k < j && b1.ops[k].kind.IsBranch()
    decreases |insns| - i
  {
    hide Needs, SameOp, OpOf, Hit, CachedLong, LoadAddress, ApplyGuarded, LoadGuarded, EvaluateCondition;
    hide Transparent, Killer;
    if i < |insns| {
      PairOps(b1, b2, insns, startPC, cycles, i);
      var o1, o2 := b1.ops[i], b2.ops[i];
      LoadStepAddress(o1, o2, r1, r2);
      if o1.kind.IsRegister() {
        RegisterStep(o1, o2, r1, r2, false);
        if i == j {
          CmpStep(o1, o2, r1, r2);
        } else if i > j {
          QuietStep(o1, r1);
          QuietStep(o2, r2);
        }
        CmpSim(b1, b2, insns, startPC, cycles, c, ApplyGuarded(o1, r1), ApplyGuarded(o2, r2), i + 1, j);
      } else if o1.kind.IsLoad() {
        LoadsWrite(o1.kind);
        if Hit(c, LoadAddress(o1, r1)) {
          var v := CachedLong(c, LoadAddress(o1, r1));
          LoadStep(o1, o2, r1, r2, false, v);
          CmpSim(b1, b2, insns, startPC, cycles, c, LoadGuarded(o1, r1, v), LoadGuarded(o2, r2, v), i + 1, j);
        }
      }
    }
  }

  lemma QuietStep(o: JitOp, r: Regfile)
    requires o.kind.IsRegister() && !Writer(o.kind)
    ensures ApplyGuarded(o, r).ccr == r.ccr
  {
  }

  /** A block whose last flag writer is a CMP leaves the right N, Z, V and C even before a BRA. */
  lemma CmpBeforeBra(
      read: u32 -> Option<bv16>, startPC: u32, startPA: u32, cycles: bv16 -> nat, c: DataCache, r: Regfile, j: nat)
    requires Compile(read, startPC, startPA, cycles).Some?
    requires var b := Compile(read, startPC, startPA, cycles).value;
             b.Shaped() && LastWriterIsCmp(b.ops, j) && Execute(b, c, r).executed > j
    ensures var b := Compile(read, startPC, startPA, cycles).value;
            SameNzvc(Execute(b, c, r).r.ccr, Execute(AllFlags(b), c, r).r.ccr)
  {
    var insns := CompiledForm(read, startPC, startPA, cycles);
    var b := Compile(read, startPC, startPA, cycles).value;
    AllFlagsBlock(b, insns, startPC, cycles);
    CmpSim(b, AllFlags(b), insns, startPC, cycles, c, r, r, 0, j);
    forall k | 0 <= k < j
      ensures !b.ops[k].kind.IsBranch()
    {
      PairOps(b, b, insns, startPC, cycles, k);
      BranchesLast(insns, startPC, k, k + 2);
    }
    hide Compile, ExecuteFrom, AllFlags, OpOf, WellScanned, Writer;
  }
}
