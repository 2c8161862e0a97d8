/** Execution of a compiled block on the processor object, operation by operation. */
module JitExecute {
  import opened Machine
  import opened Bits
  import opened Alu
  import opened Interpreter
  import opened JitBlock
  import opened Processor

  datatype JitExecResult = JitExecResult(nextPC: u32, executedCount: nat, executedCycles: nat)

  class CompiledBlock {
    const code: Block
    var bailoutCount: u16

    constructor (code: Block)
      ensures this.code == code && bailoutCount == 0
    {
      this.code := code;
      bailoutCount := 0;
    }

    /**
      Runs the operations in order.  The condition codes travel in a local variable and are written
      back at every exit.
    */
    method Execute(cpu: Cpu) returns (res: JitExecResult)
      requires code.Shaped()
      modifies cpu`D, cpu`A, cpu`ccr
      ensures Exit(cpu.Registers(), res.nextPC, res.executedCount, res.executedCycles)
           == old(JitBlock.Execute(code, cpu.dataCache, cpu.Registers()))
    {
      hide Hit, CachedLong, LoadAddress, Load, Apply, EvaluateCondition;
      var ccr := cpu.ccr;
      var i := 0;
      ghost var c, r0 := cpu.dataCache, cpu.Registers();
      while i < |code.ops|
        invariant i <= |code.ops| && cpu.dataCache == c
        invariant ExecuteFrom(code, c, Regfile(cpu.D, cpu.A, ccr), i) == ExecuteFrom(code, c, r0, 0)
      {
        var op := code.ops[i];
        ghost var r := Regfile(cpu.D, cpu.A, ccr);
        if op.kind.Bcc? {
          cpu.ccr := ccr;
          var target := if EvaluateCondition(op.cond, cpu.ccr) then op.target else op.fallthrough;
          return JitExecResult(target, code.count, code.totalCycles);
        } else if op.kind.Bra? {
          cpu.ccr := ccr;
          return JitExecResult(op.target, code.count, code.totalCycles);
        } else if op.kind.IsLoad() {
          var hit;
          hit, ccr := LoadLong(cpu, op, ccr);
          if !hit {
            cpu.ccr := ccr;
            return JitExecResult(op.instrPC, i, code.cumulativeCycles[i]);
          }
        } else if op.kind.IsStore() {
          cpu.ccr := ccr;
          return JitExecResult(op.instrPC, i, code.cumulativeCycles[i]);
        } else if op.kind.Rts? {
          var sp: int := cpu.A[7];
          cpu.ccr := ccr;
          if !Hit(cpu.dataCache, sp) {
            return JitExecResult(op.instrPC, i, code.cumulativeCycles[i]);
          }
          var target := CachedLong(cpu.dataCache, sp);
          cpu.A := cpu.A[7 := Wrap(sp + 4)];
          return JitExecResult(target, i + 1, code.cumulativeCycles[i + 1]);
        } else {
          ccr := RegisterOp(cpu, op, ccr);
        }
        i := i + 1;
      }
      cpu.ccr := ccr;
      res := JitExecResult(code.fallthroughPC, code.count, code.totalCycles);
    }
  }

  /** MOVE.L from memory through the cached page; a miss changes nothing. */
  method LoadLong(cpu: Cpu, op: JitOp, ccr: Ccr) returns (hit: bool, ccr': Ccr)
    requires op.kind.IsLoad()
    modifies cpu`D, cpu`A
    ensures hit == old(Hit(cpu.dataCache, LoadAddress(op, Regfile(cpu.D, cpu.A, ccr))))
    ensures hit ==> Regfile(cpu.D, cpu.A, ccr') == old(LoadGuarded(op, Regfile(cpu.D, cpu.A, ccr),
      CachedLong(cpu.dataCache, LoadAddress(op, Regfile(cpu.D, cpu.A, ccr)))))
    ensures !hit ==> cpu.D == old(cpu.D) && cpu.A == old(cpu.A) && ccr' == ccr
  {
    hide Hit, CachedLong, Wrap;
    ccr' := ccr;
    var addr: int := cpu.A[op.src];
    if op.kind.LoadD16? {
      addr := Wrap(addr + op.imm);
    }
    hit := Hit(cpu.dataCache, addr);
    if hit {
      var val := CachedLong(cpu.dataCache, addr);
      cpu.D := cpu.D[op.dst := val];
      if op.kind.LoadPostInc? {
        cpu.A := cpu.A[op.src := Wrap(addr + 4)];
      }
      if op.needsFlags {
        ccr' := KeepX(ccr, val, 4);
      }
    }
  }

  predicate Computes(k: Kind) {
    k.Arith? || k.Cmp? || k.Logical? || k.QuickDn? || k.Clr? || k.Tst? || k.Neg? || k.Not? || k.LeftShift? || k.Asr? || k.Lsr?
  }

  method RegisterOp(cpu: Cpu, op: JitOp, ccr: Ccr) returns (ccr': Ccr)
    requires op.kind.IsRegister()
    modifies cpu`D, cpu`A
    ensures Regfile(cpu.D, cpu.A, ccr') == old(ApplyGuarded(op, Regfile(cpu.D, cpu.A, ccr)))
  {
    hide ApplyGuarded;
    if Computes(op.kind) {
      ccr' := Compute(cpu, op, ccr);
    } else {
      ccr' := Transfer(cpu, op, ccr);
    }
  }

  /** Operations that compute a sized result in a data register, or compare or test one. */
  method Compute(cpu: Cpu, op: JitOp, ccr: Ccr) returns (ccr': Ccr)
    requires Computes(op.kind)
    modifies cpu`D
    ensures Regfile(cpu.D, cpu.A, ccr') == old(ApplyGuarded(op, Regfile(cpu.D, cpu.A, ccr)))
  {
    hide Add, Sub, Low, Merge, KeepX, LogicN, ShiftLeft, ArithShiftRight, LogicalShiftRight, Modulus, Wrap, ShiftCount;
    ccr' := ccr;
    var d, s := cpu.D[op.dst], cpu.D[op.src];
    match op.kind
    case Arith(isAdd, n) =>
      var r := AddOrSub(isAdd, Low(d, n), Low(s, n), ccr, n);
      cpu.D := cpu.D[op.dst := Merge(d, r.result, n)];
      if op.needsFlags { ccr' := r.ccr; }
    case Cmp(n) =>
      var r := Sub(Low(d, n), Low(s, n), ccr, n);
      ccr' := r.ccr.(x := ccr.x);
    case Logical(l, n) =>
      var v := LogicN(l, Low(d, n), Low(s, n), n);
      cpu.D := cpu.D[op.dst := Merge(d, v, n)];
      if op.needsFlags { ccr' := KeepX(ccr, Low(v, n), n); }
    case QuickDn(isAdd, n) =>
      var r := AddOrSub(isAdd, Low(d, n), Low(Wrap(op.imm), n), ccr, n);
      cpu.D := cpu.D[op.dst := Merge(d, r.result, n)];
      if op.needsFlags { ccr' := r.ccr; }
    case Clr(n) =>
      cpu.D := cpu.D[op.dst := Merge(d, 0, n)];
      if op.needsFlags { ccr' := KeepX(ccr, Low(0, n), n); }
    case Tst(n) =>
      if op.needsFlags { ccr' := KeepX(ccr, Low(d, n), n); }
    case Neg(n) =>
      var r := Sub(0, Low(d, n), ccr, n);
      cpu.D := cpu.D[op.dst := Merge(d, r.result, n)];
      if op.needsFlags { ccr' := r.ccr; }
    case Not(n) =>
      var v := Inverted(d, n);
      cpu.D := cpu.D[op.dst := Merge(d, v, n)];
      if op.needsFlags { ccr' := KeepX(ccr, Low(v, n), n); }
    case LeftShift(_) =>
      ccr' := Shift(cpu, op, ccr);
    case Asr =>
      ccr' := Shift(cpu, op, ccr);
    case Lsr =>
      ccr' := Shift(cpu, op, ccr);
  }

  function Inverted(d: u32, n: Size): (v: u32)
    ensures v == Modulus(n) - 1 - Low(d, n)
  {
    Modulus(n) - 1 - Low(d, n)
  }

  lemma ShiftCounted(op: JitOp)
    ensures ShiftCount(op) == if op.imm < 0 then 0 else op.imm
  {
  }

  lemma ShiftApply(op: JitOp, r: Regfile)
    requires op.kind.LeftShift? || op.kind.Asr? || op.kind.Lsr?
    ensures var d := r.D[op.dst];
            var a :=
              if op.kind.LeftShift? then ShiftLeft(d, ShiftCount(op), 4)
              else if op.kind.Asr? then ArithShiftRight(d, ShiftCount(op), 4)
              else LogicalShiftRight(d, ShiftCount(op), 4);
            Apply(op, r) == Regfile(r.D[op.dst := a.result], r.A, a.ccr)
  {
    hide ShiftLeft, ArithShiftRight, LogicalShiftRight, ShiftCount;
    hide Low, Sub, AddOrSub, KeepX, Swapped, Product, SignExtend, SetLow;
  }

  method Shift(cpu: Cpu, op: JitOp, ccr: Ccr) returns (ccr': Ccr)
    requires op.kind.LeftShift? || op.kind.Asr? || op.kind.Lsr?
    modifies cpu`D
    ensures Regfile(cpu.D, cpu.A, ccr') == old(ApplyGuarded(op, Regfile(cpu.D, cpu.A, ccr)))
  {
    hide ShiftLeft, ArithShiftRight, LogicalShiftRight, Apply, ShiftCount;
    ShiftApply(op, Regfile(cpu.D, cpu.A, ccr));
    ShiftCounted(op);
    ccr' := ccr;
    var r;
    var d := cpu.D[op.dst];
    if op.kind.LeftShift? {
      r := ShiftLeftLoop(d, op.imm, 4);
    } else if op.kind.Asr? {
      r := ArithShiftRightLoop(d, op.imm, 4);
    } else {
      r := LogicalShiftRightLoop(d, op.imm, 4);
    }
    cpu.D := cpu.D[op.dst := r.result];
    if op.needsFlags { ccr' := r.ccr; }
  }

  predicate SetsAddress(k: Kind) {
    k.QuickAn? || k.MoveaDnAn? || k.MoveaAnAm? || k.ExgDnDm? || k.ExgAnAm? || k.ExgDnAn? || k.LeaAn? || k.LeaD16? || k.LeaIndex?
  }

  /** Operations that move whole registers, compute addresses or test a bit. */
  method Transfer(cpu: Cpu, op: JitOp, ccr: Ccr) returns (ccr': Ccr)
    requires op.kind.IsRegister() && !Computes(op.kind)
    modifies cpu`D, cpu`A
    ensures Regfile(cpu.D, cpu.A, ccr') == old(ApplyGuarded(op, Regfile(cpu.D, cpu.A, ccr)))
  {
    hide ApplyGuarded;
    ccr' := ccr;
    if SetsAddress(op.kind) {
      Address(cpu, op, ccr);
    } else {
      ccr' := Move(cpu, op, ccr);
    }
  }

  /** None of these looks at the condition codes. */
  method Address(cpu: Cpu, op: JitOp, ghost ccr: Ccr)
    requires SetsAddress(op.kind)
    modifies cpu`D, cpu`A
    ensures Regfile(cpu.D, cpu.A, ccr) == old(ApplyGuarded(op, Regfile(cpu.D, cpu.A, ccr)))
  {
    hide Wrap, IndexedAddress;
    AddressApply(op, Regfile(cpu.D, cpu.A, ccr));
    hide Apply;
    var d: int, s: int := cpu.A[op.dst], cpu.A[op.src];
    if op.kind.ExgDnDm? {
      cpu.D := cpu.D[op.src := cpu.D[op.dst]][op.dst := cpu.D[op.src]];
    } else if op.kind.ExgAnAm? {
      cpu.A := cpu.A[op.src := d][op.dst := s];
    } else if op.kind.ExgDnAn? {
      cpu.D, cpu.A := cpu.D[op.src := d], cpu.A[op.dst := cpu.D[op.src]];
    } else if op.kind.QuickAn? {
      cpu.A := cpu.A[op.dst := if op.kind.isAdd then Wrap(d + op.imm) else Wrap(d - op.imm)];
    } else if op.kind.MoveaDnAn? {
      cpu.A := cpu.A[op.dst := cpu.D[op.src]];
    } else if op.kind.MoveaAnAm? || op.kind.LeaAn? {
      cpu.A := cpu.A[op.dst := s];
    } else if op.kind.LeaD16? {
      cpu.A := cpu.A[op.dst := Wrap(s + op.imm)];
    } else {
      var address := LoadIndexed(cpu, op, ccr);
      cpu.A := cpu.A[op.dst := address];
    }
  }

  method LoadIndexed(cpu: Cpu, op: JitOp, ghost ccr: Ccr) returns (address: u32)
    ensures address == IndexedAddress(op, Regfile(cpu.D, cpu.A, ccr))
  {
    hide Wrap, IndexScale, SignExtend;
    var base: int := cpu.A[op.src];
    var idx := if op.aux & 1 != 0 then cpu.A[op.index] else cpu.D[op.index];
    if op.aux & 8 == 0 {
      idx := SignExtend(idx, 2);
    }
    idx := Wrap(idx * IndexScale(op.aux));
    address := Wrap(base + idx + op.imm);
  }

  lemma AddressApply(op: JitOp, r: Regfile)
    requires SetsAddress(op.kind)
    ensures var k := op.kind; var d: int, s: int := r.A[op.dst], r.A[op.src];
            var A :=
              if k.QuickAn? then r.A[op.dst := if k.isAdd then Wrap(d + op.imm) else Wrap(d - op.imm)]
              else if k.MoveaDnAn? then r.A[op.dst := r.D[op.src]]
              else if k.MoveaAnAm? || k.LeaAn? then r.A[op.dst := s]
              else if k.LeaD16? then r.A[op.dst := Wrap(s + op.imm)]
              else if k.LeaIndex? then r.A[op.dst := IndexedAddress(op, r)]
              else if k.ExgAnAm? then r.A[op.src := d][op.dst := s]
              else if k.ExgDnAn? then r.A[op.dst := r.D[op.src]]
              else r.A;
            var D :=
              if k.ExgDnDm? then r.D[op.src := r.D[op.dst]][op.dst := r.D[op.src]]
              else if k.ExgDnAn? then r.D[op.src := d]
              else r.D;
            ApplyGuarded(op, r) == Regfile(D, A, r.ccr)
  {
    hide Wrap, IndexedAddress;
  }

  method Move(cpu: Cpu, op: JitOp, ccr: Ccr) returns (ccr': Ccr)
    requires op.kind.IsRegister() && !Computes(op.kind) && !SetsAddress(op.kind)
    modifies cpu`D
    ensures Regfile(cpu.D, cpu.A, ccr') == old(ApplyGuarded(op, Regfile(cpu.D, cpu.A, ccr)))
  {
    hide Wrap, SignExtend, Low, Signed, Swapped, Product, KeepX, Merge, Bit, Apply;
    ccr' := ccr;
    if op.kind.Nop? {
      NopApply(op, Regfile(cpu.D, cpu.A, ccr));
      return;
    }
    var d, s := cpu.D[op.dst], cpu.D[op.src];
    MoveApply(op, Regfile(cpu.D, cpu.A, ccr));
    if op.kind.Btst? {
      if op.needsFlags {
        ccr' := ccr.(z := !Bit(d, s % 32));
      }
      return;
    }
    var val := MoveValue(op, cpu.D, cpu.A);
    cpu.D := cpu.D[op.dst := Merge(d, val, if op.kind.ExtW? then 2 else 4)];
    if op.needsFlags {
      ccr' := KeepX(ccr, Low(val, if op.kind.ExtW? then 2 else 4), if op.kind.ExtW? then 2 else 4);
    }
  }

  function MoveValue(op: JitOp, D: Regs, A: Regs): u32
    requires op.kind.IsRegister() && !Computes(op.kind) && !SetsAddress(op.kind)
  {
    var d, s := D[op.dst], D[op.src];
    match op.kind
    case Moveq => Wrap(op.imm)
    case MoveDnDm => s
    case MoveAnDn => A[op.src]
    case SwapDn => Swapped(d)
    case ExtW => SignExtend(d, 1)
    case ExtL => SignExtend(d, 2)
    case ExtbL => SignExtend(d, 1)
    case Mulu => Wrap(Product(Low(d, 2), Low(s, 2)))
    case Muls => Wrap(Product(Signed(Low(d, 2), 2), Signed(Low(s, 2), 2)))
    case _ => d
  }

  lemma NopApply(op: JitOp, r: Regfile)
    requires op.kind.Nop?
    ensures ApplyGuarded(op, r) == r
  {
  }

  lemma MoveApply(op: JitOp, r: Regfile)
    requires op.kind.IsRegister() && !Computes(op.kind) && !SetsAddress(op.kind) && !op.kind.Nop?
    ensures Apply(op, r) == if op.kind.Btst? then r.(ccr := r.ccr.(z := !Bit(r.D[op.dst], r.D[op.src] % 32)))
      else SetLow(r, op.dst, MoveValue(op, r.D, r.A), if op.kind.ExtW? then 2 else 4)
  {
  }
}
