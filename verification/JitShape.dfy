/** Every compiled block is well formed: positions, targets, cycle sums and the end of the block. */
module JitShape {
  import opened Machine
  import opened EffectiveAddress
  import opened Interpreter
  import opened JitBlock
  import opened JitCompile
  import opened JitDecode

  // ----- Positions -----

  /** Address of instruction i: the start plus the lengths of the instructions before it. */
  function PcAt(insns: seq<Insn>, startPC: u32, i: nat): u32
    requires i <= |insns|
  {
    Wrap(startPC + ByteLength(insns[..i]))
  }

  /** Whether the flags after instruction i, respectively before it, can still be observed. */
  function LiveBefore(insns: seq<Insn>, i: nat): bool
    requires i <= |insns|
  {
    FlagLiveness(insns[i..]).live
  }

  function Needs(insns: seq<Insn>, i: nat): bool
    requires i < |insns|
  {
    LiveStep(insns[i].kind, LiveBefore(insns, i + 1)).needs[0]
  }

  predicate OpOf(b: Block, insns: seq<Insn>, startPC: u32, cycles: bv16 -> nat, i: nat)
    requires i < |insns| == |b.ops| && b.Shaped()
  {
    && b.ops[i] == BuildOp(insns[i], PcAt(insns, startPC, i), b.ops[i].needsFlags)
    && (Needs(insns, i) ==> b.ops[i].needsFlags)
    && b.cumulativeCycles[i + 1] == b.cumulativeCycles[i] + cycles(insns[i].opcode)
  }

  /**
    The block that insns stand for, keeping at least the flags that liveness asks for.  Both the
    compiled block and the block that keeps all flags are of this form.
  */
  ghost predicate BlockOf(b: Block, insns: seq<Insn>, startPC: u32, cycles: bv16 -> nat) {
    && b.Shaped() && |b.ops| == |insns| == b.count
    && b.byteLength == ByteLength(insns)
    && b.fallthroughPC == PcAt(insns, startPC, |insns|)
    && b.cumulativeCycles[0] == 0 && b.totalCycles == b.cumulativeCycles[|insns|]
    && (forall i: nat :: i < |insns| ==> OpOf(b, insns, startPC, cycles, i))
  }

  /** The same block without dead-flag elimination. */
  function AllFlags(b: Block): Block {
    b.(ops := seq(|b.ops|, i requires 0 <= i < |b.ops| => b.ops[i].(needsFlags := true)))
  }

  // ----- What construction guarantees -----

  lemma {:induction false} NeedsAt(insns: seq<Insn>, i: nat)
    requires i < |insns|
    ensures FlagLiveness(insns).needs[i] == Needs(insns, i)
  {
    if i > 0 {
      NeedsAt(insns[1..], i - 1);
      assert insns[1..][i..] == insns[i + 1..];
    }
  }

  lemma {:induction false} OpAt(insns: seq<Insn>, needs: seq<bool>, pc: u32, i: nat)
    requires i < |insns| == |needs|
    ensures BuildOps(insns, needs, pc)[i] == BuildOp(insns[i], PcAt(insns, pc, i), needs[i])
  {
    hide BuildOp;
    if i == 0 {
      assert ByteLength(insns[..0]) == 0;
    } else {
      OpAt(insns[1..], needs[1..], Wrap(pc + insns[0].len), i - 1);
      PcShift(insns, pc, i);
    }
  }

  lemma PcShift(insns: seq<Insn>, pc: u32, i: nat)
    requires 0 < i <= |insns|
    ensures PcAt(insns[1..], Wrap(pc + insns[0].len), i - 1) == PcAt(insns, pc, i)
  {
    assert insns[..i][1..] == insns[1..][..i - 1] && insns[..i][0] == insns[0];
    WrapWrap(pc + insns[0].len, ByteLength(insns[1..][..i - 1]));
  }

  lemma PcNext(insns: seq<Insn>, pc: u32, i: nat)
    requires i < |insns|
    ensures PcAt(insns, pc, i + 1) == Wrap(PcAt(insns, pc, i) + insns[i].len)
  {
    ByteLengthSnoc(insns[..i], insns[i]);
    assert insns[..i] + [insns[i]] == insns[..i + 1];
    WrapWrap(pc + ByteLength(insns[..i]), insns[i].len);
  }

  lemma {:induction false} ByteLengthSnoc(insns: seq<Insn>, last: Insn)
    ensures ByteLength(insns + [last]) == ByteLength(insns) + last.len
  {
    if insns == [] {
      assert ([last])[1..] == [];
    } else {
      assert (insns + [last])[1..] == insns[1..] + [last];
      ByteLengthSnoc(insns[1..], last);
    }
  }

  lemma {:induction false} CycleAt(insns: seq<Insn>, cycles: bv16 -> nat, acc: nat, i: nat)
    requires i < |insns|
    ensures var c := Cumulative(insns, cycles, acc);
            c[0] == acc && c[i + 1] == c[i] + cycles(insns[i].opcode)
  {
    if i > 0 {
      CycleAt(insns[1..], cycles, acc + cycles(insns[0].opcode), i - 1);
    }
  }

  lemma BuiltBlock(insns: seq<Insn>, startPC: u32, startPA: u32, cycles: bv16 -> nat)
    ensures BlockOf(BuildBlock(insns, startPC, startPA, cycles), insns, startPC, cycles)
    ensures forall i :: 0 <= i < |insns| ==>
      BuildBlock(insns, startPC, startPA, cycles).ops[i].needsFlags == Needs(insns, i)
  {
    hide Needs, PcAt;
    var b := BuildBlock(insns, startPC, startPA, cycles);
    forall i: nat | i < |insns|
      ensures OpOf(b, insns, startPC, cycles, i) && b.ops[i].needsFlags == Needs(insns, i)
    {
      NeedsAt(insns, i);
      OpAt(insns, FlagLiveness(insns).needs, startPC, i);
      CycleAt(insns, cycles, 0, i);
      BuiltNeeds(insns[i], PcAt(insns, startPC, i), Needs(insns, i));
    }
    Ends(insns, startPC, startPA, cycles);
  }

  lemma Ends(insns: seq<Insn>, startPC: u32, startPA: u32, cycles: bv16 -> nat)
    ensures var b := BuildBlock(insns, startPC, startPA, cycles);
            b.fallthroughPC == PcAt(insns, startPC, |insns|) && b.cumulativeCycles[0] == 0
  {
    assert insns[..|insns|] == insns;
  }

  lemma BuiltNeeds(insn: Insn, pc: u32, needs: bool)
    ensures var o := BuildOp(insn, pc, needs); o.needsFlags == needs && o.kind == insn.kind && o.instrPC == pc
  {
    hide Reg9, Reg0, Wrap, Disp8, Disp16, Quick, Cond, IndexFlags;
  }

  lemma BuiltKeepingFlags(insn: Insn, pc: u32, needs: bool)
    ensures BuildOp(insn, pc, needs).(needsFlags := true) == BuildOp(insn, pc, true)
  {
    if insn.kind.IsBranch() || TwoWords(insn.kind) {
      KeepingFlagsWide(insn, pc, needs);
    } else {
      KeepingFlagsShort(insn, pc, needs);
    }
    hide BuildOp;
  }

  lemma KeepingFlagsWide(insn: Insn, pc: u32, needs: bool)
    requires insn.kind.IsBranch() || TwoWords(insn.kind)
    ensures BuildOp(insn, pc, needs).(needsFlags := true) == BuildOp(insn, pc, true)
  {
    hide Reg9, Reg0, Wrap, Disp8, Disp16, Quick, Cond, IndexFlags;
  }

  lemma KeepingFlagsShort(insn: Insn, pc: u32, needs: bool)
    requires !insn.kind.IsBranch() && !TwoWords(insn.kind)
    ensures BuildOp(insn, pc, needs).(needsFlags := true) == BuildOp(insn, pc, true)
  {
    hide Reg9, Reg0, Wrap, Disp8, Disp16, Quick, Cond, IndexFlags;
  }

  lemma AllFlagsBlock(b: Block, insns: seq<Insn>, startPC: u32, cycles: bv16 -> nat)
    requires BlockOf(b, insns, startPC, cycles)
    ensures BlockOf(AllFlags(b), insns, startPC, cycles)
    ensures forall i :: 0 <= i < |insns| ==> AllFlags(b).ops[i].needsFlags
  {
    hide BuildOp, Needs, PcAt;
    forall i: nat | i < |insns|
      ensures OpOf(AllFlags(b), insns, startPC, cycles, i)
    {
      assert OpOf(b, insns, startPC, cycles, i);
      BuiltKeepingFlags(insns[i], PcAt(insns, startPC, i), b.ops[i].needsFlags);
    }
  }

  // ----- What the scan guarantees -----

  /** Branches and RTS end the block, and a branch leads past the start of the block. */
  predicate WellScanned(insns: seq<Insn>, startPC: u32) {
    && (forall i :: 0 <= i < |insns| - 1 ==> !insns[i].kind.IsBranch() && !insns[i].kind.Rts?)
    && (forall i :: 0 <= i < |insns| ==> insns[i].len == if TwoWords(insns[i].kind) then 4 else 2)
    && (insns != [] && insns[|insns| - 1].kind.IsBranch() ==>
          var last := insns[|insns| - 1];
          ScannedTarget(startPC, ByteLength(insns[..|insns| - 1]), last.opcode, last.ext, last.kind) > startPC)
  }

  predicate SameWord(env: Env, read: u32 -> Option<bv16>, pc: u32, pa: u32, k: nat) {
    read(Wrap(pa + k)) == Some(env.code(Wrap(pc + k)))
  }

  /** The n bytes of code at pc are what the scan reads at the physical address pa. */
  ghost predicate Mapped(env: Env, read: u32 -> Option<bv16>, pc: u32, pa: u32, n: nat) {
    forall k: nat :: k < n && k % 2 == 0 ==> SameWord(env, read, pc, pa, k)
  }

  ghost predicate Encoded(env: Env, insns: seq<Insn>, startPC: u32) {
    forall i :: 0 <= i < |insns| ==> Encodes(env, PcAt(insns, startPC, i), insns[i])
  }

  /** The scan from offset total on, as a block of its own. */
  ghost predicate ScannedFrom(insns: seq<Insn>, startPC: u32, total: nat) {
    && (forall i :: 0 <= i < |insns| - 1 ==> !insns[i].kind.IsBranch() && !insns[i].kind.Rts?)
    && (forall i :: 0 <= i < |insns| ==> insns[i].len == if TwoWords(insns[i].kind) then 4 else 2)
    && (insns != [] && insns[|insns| - 1].kind.IsBranch() ==>
          var last := insns[|insns| - 1];
          ScannedTarget(startPC, total + ByteLength(insns[..|insns| - 1]), last.opcode, last.ext, last.kind) > startPC)
  }

  lemma ScanOneLength(read: u32 -> Option<bv16>, pa: u32)
    ensures ScanOne(read, pa).Some? ==>
      var insn := ScanOne(read, pa).value; insn.len == if TwoWords(insn.kind) then 4 else 2
  {
  }

  lemma ScanCons(read: u32 -> Option<bv16>, startPC: u32, pa: u32, total: nat, room: nat)
    requires Scan(read, startPC, pa, total, room) != []
    ensures var insns := Scan(read, startPC, pa, total, room);
            var first := insns[0];
            && room > 0 && ScanOne(read, pa) == Some(first)
            && (if first.kind.Rts? || first.kind.IsBranch() then insns[1..] == []
                else insns[1..] == Scan(read, startPC, Wrap(pa + first.len), total + first.len, room - 1))
            && (first.kind.IsBranch() ==>
                  ScannedTarget(startPC, total, first.opcode, first.ext, first.kind) > startPC)
  {
    hide ScanOne, ScannedTarget;
  }

  lemma {:induction false} ScanShape(read: u32 -> Option<bv16>, startPC: u32, pa: u32, total: nat, room: nat)
    ensures ScannedFrom(Scan(read, startPC, pa, total, room), startPC, total)
    decreases room
  {
    hide Scan, ScanOne, ScannedTarget, TwoWords, ScannedFrom;
    var insns := Scan(read, startPC, pa, total, room);
    if insns == [] {
      NothingScanned(startPC, total);
    } else {
      ScanCons(read, startPC, pa, total, room);
      ScanOneLength(read, pa);
      var first := insns[0];
      if first.kind.IsBranch() || first.kind.Rts? {
        LastScanned(insns, startPC, total);
      } else {
        ScanShape(read, startPC, Wrap(pa + first.len), total + first.len, room - 1);
        MoreScanned(insns, startPC, total);
      }
    }
  }

  lemma NothingScanned(startPC: u32, total: nat)
    ensures ScannedFrom([], startPC, total)
  {
  }

  lemma LastScanned(insns: seq<Insn>, startPC: u32, total: nat)
    requires insns != [] && insns[1..] == []
    requires insns[0].len == if TwoWords(insns[0].kind) then 4 else 2
    requires insns[0].kind.IsBranch() ==>
      ScannedTarget(startPC, total, insns[0].opcode, insns[0].ext, insns[0].kind) > startPC
    ensures ScannedFrom(insns, startPC, total)
  {
  }

  lemma MoreScanned(insns: seq<Insn>, startPC: u32, total: nat)
    requires insns != [] && !insns[0].kind.IsBranch() && !insns[0].kind.Rts?
    requires insns[0].len == if TwoWords(insns[0].kind) then 4 else 2
    requires ScannedFrom(insns[1..], startPC, total + insns[0].len)
    ensures ScannedFrom(insns, startPC, total)
  {
    hide ScannedTarget, TwoWords;
    var rest := insns[1..];
    assert forall i :: 1 <= i < |insns| ==> insns[i] == rest[i - 1];
    if rest != [] {
      var n := |insns| - 1;
      assert insns[..n][1..] == rest[..n - 1] && insns[..n][0] == insns[0];
    }
  }

  lemma ScanOneEncodes(env: Env, read: u32 -> Option<bv16>, pc: u32, pa: u32)
    requires ScanOne(read, pa).Some? && Mapped(env, read, pc, pa, ScanOne(read, pa).value.len)
    ensures Encodes(env, pc, ScanOne(read, pa).value)
  {
    hide Classify;
    ScanOneLength(read, pa);
    assert SameWord(env, read, pc, pa, 0);
    if TwoWords(ScanOne(read, pa).value.kind) {
      assert SameWord(env, read, pc, pa, 2);
    }
  }

  lemma MappedTail(env: Env, read: u32 -> Option<bv16>, pc: u32, pa: u32, n: nat, k: nat)
    requires k <= n && k % 2 == 0 && Mapped(env, read, pc, pa, n)
    ensures Mapped(env, read, Wrap(pc + k), Wrap(pa + k), n - k)
  {
    hide Wrap;
    forall j: nat | j < n - k && j % 2 == 0
      ensures SameWord(env, read, Wrap(pc + k), Wrap(pa + k), j)
    {
      WrapWrap(pa + k, j);
      WrapWrap(pc + k, j);
      assert SameWord(env, read, pc, pa, k + j);
    }
  }

  lemma {:induction false} ScanEncodes(
      env: Env, read: u32 -> Option<bv16>, startPC: u32, pc: u32, pa: u32, total: nat, room: nat)
    requires Mapped(env, read, pc, pa, ByteLength(Scan(read, startPC, pa, total, room)))
    ensures Encoded(env, Scan(read, startPC, pa, total, room), pc)
    decreases room
  {
    hide Scan, ScanOne, ScannedTarget, Encodes, Wrap;
    var insns := Scan(read, startPC, pa, total, room);
    if insns != [] {
      var first := insns[0];
      ScanCons(read, startPC, pa, total, room);
      ScanOneLength(read, pa);
      ScanOneEncodes(env, read, pc, pa);
      if first.kind.Rts? || first.kind.IsBranch() {
        assert |insns| == 1;
      } else {
        MappedTail(env, read, pc, pa, ByteLength(insns), first.len);
        ScanEncodes(env, read, startPC, Wrap(pc + first.len), Wrap(pa + first.len), total + first.len, room - 1);
      }
      EncodedCons(env, insns, pc);
    }
  }

  lemma EncodedCons(env: Env, insns: seq<Insn>, pc: u32)
    requires insns != [] && Encodes(env, pc, insns[0])
    requires Encoded(env, insns[1..], Wrap(pc + insns[0].len))
    ensures Encoded(env, insns, pc)
  {
    hide Encodes, PcAt;
    PcZero(insns, pc);
    forall i | 1 <= i < |insns|
      ensures Encodes(env, PcAt(insns, pc, i), insns[i])
    {
      PcShift(insns, pc, i);
      assert insns[1..][i - 1] == insns[i];
    }
  }

  lemma PcZero(insns: seq<Insn>, pc: u32)
    ensures PcAt(insns, pc, 0) == pc
  {
  }

  // ----- Well-formedness of compiled blocks -----

  lemma CompiledForm(read: u32 -> Option<bv16>, startPC: u32, startPA: u32, cycles: bv16 -> nat)
    returns (insns: seq<Insn>)
    requires Compile(read, startPC, startPA, cycles).Some?
    ensures var b := Compile(read, startPC, startPA, cycles).value;
            && insns == Scan(read, startPC, startPA, 0, MAX_BLOCK_LENGTH) && insns != []
            && b == BuildBlock(insns, startPC, startPA, cycles)
            && BlockOf(b, insns, startPC, cycles) && WellScanned(insns, startPC)
  {
    insns := Scan(read, startPC, startPA, 0, MAX_BLOCK_LENGTH);
    BuiltBlock(insns, startPC, startPA, cycles);
    ScanShape(read, startPC, startPA, 0, MAX_BLOCK_LENGTH);
    hide BlockOf, BuildBlock;
  }

  /** Operation i sits where the lengths before it say, ends the block if it must, and jumps forward. */
  predicate Placed(b: Block, startPC: u32, i: nat)
    requires i < |b.ops|
  {
    && b.ops[i].instrPC == Wrap(startPC + LengthBefore(b.ops, i))
    && (b.ops[i].kind.IsBranch() || b.ops[i].kind.Rts? ==> i == |b.ops| - 1)
    && (b.ops[i].kind.IsBranch() ==> b.ops[i].target > startPC)
    && (b.ops[i].kind.Bcc? ==> b.ops[i].fallthrough == b.fallthroughPC)
  }

  /** What a compiled block promises to its users, without reference to the scanned instructions. */
  predicate WellFormed(b: Block, startPC: u32) {
    && 0 < |b.ops| == b.count <= MAX_BLOCK_LENGTH
    && b.Shaped() && b.cumulativeCycles[0] == 0 && b.cumulativeCycles[b.count] == b.totalCycles
    && b.byteLength == LengthBefore(b.ops, b.count)
    && b.fallthroughPC == Wrap(startPC + b.byteLength)
    && (forall i: nat :: i < b.count ==> Placed(b, startPC, i))
    && (b.registerOnly <==> forall i :: 0 <= i < b.count ==> !b.ops[i].kind.TouchesMemory())
  }

  function Length(k: Kind): nat {
    if TwoWords(k) then 4 else 2
  }

  function LengthBefore(ops: seq<JitOp>, i: nat): nat
    requires i <= |ops|
  {
    if i == 0 then 0 else LengthBefore(ops, i - 1) + Length(ops[i - 1].kind)
  }

  lemma {:induction false} LengthsAgree(b: Block, insns: seq<Insn>, startPC: u32, cycles: bv16 -> nat, i: nat)
    requires BlockOf(b, insns, startPC, cycles) && WellScanned(insns, startPC) && i <= |insns|
    ensures LengthBefore(b.ops, i) == ByteLength(insns[..i])
  {
    hide BuildOp, Needs, ScannedTarget;
    if i > 0 {
      LengthsAgree(b, insns, startPC, cycles, i - 1);
      assert OpOf(b, insns, startPC, cycles, i - 1);
      ByteLengthSnoc(insns[..i - 1], insns[i - 1]);
      assert insns[..i - 1] + [insns[i - 1]] == insns[..i];
      BuiltNeeds(insns[i - 1], PcAt(insns, startPC, i - 1), b.ops[i - 1].needsFlags);
    } else {
      assert insns[..0] == [];
    }
  }

  lemma OpFacts(b: Block, insns: seq<Insn>, startPC: u32, cycles: bv16 -> nat, i: nat)
    requires BlockOf(b, insns, startPC, cycles) && WellScanned(insns, startPC) && i < |insns|
    ensures b.ops[i].kind == insns[i].kind && b.ops[i].instrPC == PcAt(insns, startPC, i)
    ensures Placed(b, startPC, i)
  {
    assert OpOf(b, insns, startPC, cycles, i);
    LengthsAgree(b, insns, startPC, cycles, i);
    BuiltNeeds(insns[i], PcAt(insns, startPC, i), b.ops[i].needsFlags);
    if insns[i].kind.IsBranch() {
      BranchFacts(b, insns, startPC, cycles, i);
    }
    hide BuildOp, Needs, ScannedTarget, TwoWords, LengthBefore;
  }

  lemma BranchFacts(b: Block, insns: seq<Insn>, startPC: u32, cycles: bv16 -> nat, i: nat)
    requires BlockOf(b, insns, startPC, cycles) && WellScanned(insns, startPC) && i < |insns|
    requires insns[i].kind.IsBranch()
    ensures b.ops[i].target > startPC
    ensures b.ops[i].kind.Bcc? ==> b.ops[i].fallthrough == b.fallthroughPC
  {
    hide BuildOp, Needs, ScannedTarget, TwoWords, ByteLength;
    var insn := insns[i];
    assert OpOf(b, insns, startPC, cycles, i);
    assert i == |insns| - 1;
    BranchLength(insn.kind);
    BranchBuilt(insn, PcAt(insns, startPC, i), b.ops[i].needsFlags);
    TargetAgrees(insn, startPC, ByteLength(insns[..i]), b.ops[i].needsFlags);
    PcNext(insns, startPC, i);
  }

  lemma BranchLength(k: Kind)
    requires k.IsBranch()
    ensures TwoWords(k) == k.wide
  {
  }

  lemma CompiledWellFormed(read: u32 -> Option<bv16>, startPC: u32, startPA: u32, cycles: bv16 -> nat)
    requires Compile(read, startPC, startPA, cycles).Some?
    ensures var b := Compile(read, startPC, startPA, cycles).value;
            WellFormed(b, startPC) && b.physicalAddress == startPA
  {
    var insns := CompiledForm(read, startPC, startPA, cycles);
    var b := Compile(read, startPC, startPA, cycles).value;
    BlockWellFormed(b, insns, startPC, cycles);
    hide BuildOps, Cumulative, Scan, FlagLiveness, BlockOf, WellScanned;
  }

  lemma BlockWellFormed(b: Block, insns: seq<Insn>, startPC: u32, cycles: bv16 -> nat)
    requires BlockOf(b, insns, startPC, cycles) && WellScanned(insns, startPC)
    requires 0 < |insns| <= MAX_BLOCK_LENGTH && b.registerOnly == AllRegister(b.ops)
    ensures WellFormed(b, startPC)
  {
    LengthsAgree(b, insns, startPC, cycles, |insns|);
    assert insns[..|insns|] == insns;
    forall i: nat | i < |insns|
      ensures Placed(b, startPC, i)
    {
      OpFacts(b, insns, startPC, cycles, i);
    }
    hide OpOf, WellScanned, Placed, LengthBefore, ByteLength;
  }
}
