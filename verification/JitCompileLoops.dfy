/** The compiler as it runs: the scan, the backward flag pass and the construction loop. */
module JitCompileLoops {
  import opened Machine
  import opened JitBlock
  import opened JitCompile

  method TryCompile(read: u32 -> Option<bv16>, startPC: u32, startPA: u32, cycles: bv16 -> nat)
    returns (block: Option<Block>)
    ensures block == Compile(read, startPC, startPA, cycles)
  {
    hide Scan, ScanOne, FlagLiveness, BuildOps, Cumulative, BuildOp;
    var insns, totalBytes := ScanBlock(read, startPC, startPA);
    if insns == [] {
      return None;
    }
    var needs := EliminateDeadFlags(insns);
    var cumulative := SumCycles(insns, cycles);
    var ops, pc := Construct(insns, needs, startPC);
    var registerOnly := OnlyRegisters(ops);
    block := Some(Block(startPA, |insns|, cumulative[|insns|], totalBytes, pc, ops, cumulative, registerOnly));
  }

  /** Phase 1: instructions are appended until one ends the block or cannot be compiled. */
  method ScanBlock(read: u32 -> Option<bv16>, startPC: u32, startPA: u32) returns (insns: seq<Insn>, totalBytes: nat)
    ensures insns == Scan(read, startPC, startPA, 0, MAX_BLOCK_LENGTH)
    ensures totalBytes == ByteLength(insns)
  {
    hide Scan, ScanOne, ScannedTarget, ByteLength, Wrap;
    insns, totalBytes := [], 0;
    var scanPA: u32 := startPA;
    ghost var all := Scan(read, startPC, startPA, 0, MAX_BLOCK_LENGTH);
    var i := 0;
    ByteLengthEmpty();
    while i < MAX_BLOCK_LENGTH
      invariant 0 <= i <= MAX_BLOCK_LENGTH
      invariant all == insns + Scan(read, startPC, scanPA, totalBytes, MAX_BLOCK_LENGTH - i)
      invariant totalBytes == ByteLength(insns)
    {
      ScanUnfold(read, startPC, scanPA, totalBytes, MAX_BLOCK_LENGTH - i);
      var next := ScanOne(read, scanPA);
      if next.None? {
        return;
      }
      var insn := next.value;
      ByteLengthGrows(insns, insn);
      if insn.kind.Rts? {
        insns, totalBytes := insns + [insn], totalBytes + insn.len;
        return;
      }
      if insn.kind.IsBranch() {
        if ScannedTarget(startPC, totalBytes, insn.opcode, insn.ext, insn.kind) > startPC {
          insns, totalBytes := insns + [insn], totalBytes + insn.len;
        }
        return;
      }
      insns, totalBytes, scanPA := insns + [insn], totalBytes + insn.len, Wrap(scanPA + insn.len);
      i := i + 1;
    }
    NoRoom(read, startPC, scanPA, totalBytes);
  }

  lemma NoRoom(read: u32 -> Option<bv16>, startPC: u32, pa: u32, total: nat)
    ensures Scan(read, startPC, pa, total, 0) == []
  {
  }

  lemma ScanUnfold(read: u32 -> Option<bv16>, startPC: u32, pa: u32, total: nat, room: nat)
    requires room > 0
    ensures var next := ScanOne(read, pa);
            Scan(read, startPC, pa, total, room) ==
            if next.None? then []
            else
              var k, insn := next.value.kind, next.value;
              if k.Rts? then [insn]
              else if k.IsBranch() then
                (if ScannedTarget(startPC, total, insn.opcode, insn.ext, k) > startPC then [insn] else [])
              else [insn] + Scan(read, startPC, Wrap(pa + insn.len), total + insn.len, room - 1)
  {
  }

  lemma ByteLengthEmpty()
    ensures ByteLength([]) == 0
  {
  }

  lemma {:induction false} ByteLengthGrows(insns: seq<Insn>, last: Insn)
    ensures ByteLength(insns + [last]) == ByteLength(insns) + last.len
  {
    if insns == [] {
      assert ([last])[1..] == [];
    } else {
      assert (insns + [last])[1..] == insns[1..] + [last];
      ByteLengthGrows(insns[1..], last);
    }
  }

  /** Phase 2: from the last instruction to the first, flagsLive says whether a later reader exists. */
  method EliminateDeadFlags(insns: seq<Insn>) returns (needs: seq<bool>)
    requires insns != []
    ensures needs == FlagLiveness(insns).needs
  {
    hide Transparent;
    needs := seq(|insns|, _ => false)[|insns| - 1 := true];
    var flagsLive := true;
    var i := |insns|;
    while i > 0
      invariant 0 <= i <= |insns| == |needs|
      invariant FlagLiveness(insns[i..]) == Liveness(needs[i..], flagsLive)
    {
      i := i - 1;
      var kind := insns[i].kind;
      ghost var later := needs[i + 1..];
      assert insns[i..][1..] == insns[i + 1..];
      if kind.IsBranch() {
        needs := needs[i := false];
        flagsLive := kind.Bcc?;
      } else if Transparent(kind) {
        needs := needs[i := false];
      } else if kind.Btst? {
        needs := needs[i := flagsLive];
      } else {
        needs := needs[i := flagsLive];
        flagsLive := false;
      }
      assert needs[i..] == [needs[i]] + later;
    }
    assert insns[0..] == insns && needs[0..] == needs;
  }

  method SumCycles(insns: seq<Insn>, cycles: bv16 -> nat) returns (cumulative: seq<nat>)
    ensures cumulative == Cumulative(insns, cycles, 0)
  {
    cumulative := [];
    var total: nat := 0;
    for idx := 0 to |insns|
      invariant Cumulative(insns, cycles, 0) == cumulative + Cumulative(insns[idx..], cycles, total)
    {
      assert insns[idx..][1..] == insns[idx + 1..];
      cumulative := cumulative + [total];
      total := total + cycles(insns[idx].opcode);
    }
    cumulative := cumulative + [total];
  }

  /** Phase 3: one operation per instruction, each with the address of its instruction. */
  method Construct(insns: seq<Insn>, needs: seq<bool>, startPC: u32) returns (ops: seq<JitOp>, pc: u32)
    requires |needs| == |insns|
    ensures ops == BuildOps(insns, needs, startPC) && pc == Wrap(startPC + ByteLength(insns))
  {
    hide BuildOp, BuildOps, ByteLength, Wrap;
    ops, pc := [], startPC;
    assert insns[0..] == insns && needs[0..] == needs;
    for i := 0 to |insns|
      invariant BuildOps(insns, needs, startPC) == ops + BuildOps(insns[i..], needs[i..], pc)
      invariant Wrap(startPC + ByteLength(insns)) == Wrap(pc + ByteLength(insns[i..]))
    {
      ConstructStep(insns, needs, pc, i);
      var instrPC := pc;
      pc := Wrap(pc + insns[i].len);
      ops := ops + [BuildOp(insns[i], instrPC, needs[i])];
    }
    ConstructEnd(pc);
  }

  lemma ConstructStep(insns: seq<Insn>, needs: seq<bool>, pc: u32, i: nat)
    requires i < |insns| == |needs|
    ensures var next := Wrap(pc + insns[i].len);
            && BuildOps(insns[i..], needs[i..], pc)
               == [BuildOp(insns[i], pc, needs[i])] + BuildOps(insns[i + 1..], needs[i + 1..], next)
            && Wrap(pc + ByteLength(insns[i..])) == Wrap(next + ByteLength(insns[i + 1..]))
  {
    hide BuildOp, Wrap;
    assert insns[i..][1..] == insns[i + 1..] && needs[i..][1..] == needs[i + 1..];
    WrapWrap(pc + insns[i].len, ByteLength(insns[i + 1..]));
  }

  lemma ConstructEnd(pc: u32)
    ensures BuildOps([], [], pc) == [] && Wrap(pc + ByteLength([])) == pc
  {
  }

  method OnlyRegisters(ops: seq<JitOp>) returns (registerOnly: bool)
    ensures registerOnly == AllRegister(ops)
  {
    registerOnly := true;
    for i := 0 to |ops|
      invariant registerOnly && forall j :: 0 <= j < i ==> !ops[j].kind.TouchesMemory()
    {
      if ops[i].kind.TouchesMemory() {
        return false;
      }
    }
  }
}
