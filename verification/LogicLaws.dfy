/**
  What the logical instructions, and the sized register accesses under all others, do to single bits
  of a register.
*/
module LogicLaws {
  import opened Machine
  import opened Bits
  import opened Alu
  import opened EffectiveAddress
  import opened Interpreter
  import opened JitBlock
  import opened JitCompile
  import opened JitDecode

  // ----- Single bits -----

  lemma LowestBit(v: nat)
    ensures Bit(v, 0) <==> v % 2 == 1
  {
    assert Pow2(0) == 1;
  }

  lemma HigherBit(v: nat, k: nat)
    requires k > 0
    ensures Bit(v, k) <==> Bit(v / 2, k - 1)
  {
    var p := Pow2(k - 1);
    var q, r := v / 2 / p, v / 2 % p;
    assert v / 2 == p * q + r;
    assert v == 2 * p * q + (2 * r + v % 2);
    DivModUnique(v, 2 * p, q, 2 * r + v % 2);
  }

  /** Column by column, the operators are conjunction, disjunction and difference. */
  lemma {:induction false} LogicBits(l: LogicOp, a: nat, b: nat, w: nat, k: nat)
    requires k < w
    ensures l == And ==> (Bit(Logic(l, a, b, w), k) <==> Bit(a, k) && Bit(b, k))
    ensures l == Or ==> (Bit(Logic(l, a, b, w), k) <==> Bit(a, k) || Bit(b, k))
    ensures l == Eor ==> (Bit(Logic(l, a, b, w), k) <==> Bit(a, k) != Bit(b, k))
  {
    var r, rest, first := Logic(l, a, b, w), Logic(l, a / 2, b / 2, w - 1), OnBit(l, a % 2, b % 2);
    assert r == first + 2 * rest && r / 2 == rest && r % 2 == first;
    hide Bit, Logic;
    if k == 0 {
      LowestBit(r);
      LowestBit(a);
      LowestBit(b);
    } else {
      LogicBits(l, a / 2, b / 2, w - 1, k - 1);
      HigherBit(r, k);
      HigherBit(a, k);
      HigherBit(b, k);
    }
  }

  lemma LogicNBits(l: LogicOp, a: u32, b: u32, n: Size, k: nat)
    requires k < 8 * n
    ensures l == And ==> (Bit(LogicN(l, a, b, n), k) <==> Bit(a, k) && Bit(b, k))
    ensures l == Or ==> (Bit(LogicN(l, a, b, n), k) <==> Bit(a, k) || Bit(b, k))
    ensures l == Eor ==> (Bit(LogicN(l, a, b, n), k) <==> Bit(a, k) != Bit(b, k))
  {
    LogicBits(l, a, b, 8 * n, k);
    Pow2Values();
    hide Bit, Logic;
  }

  /** Complementing the low n bytes flips each of their bits. */
  lemma {:induction false} ComplementBits(v: nat, w: nat, k: nat)
    requires v < Pow2(w) && k < w
    ensures Bit(Pow2(w) - 1 - v, k) <==> !Bit(v, k)
  {
    var c := Pow2(w) - 1 - v;
    assert Pow2(w) == 2 * Pow2(w - 1);
    assert c / 2 == Pow2(w - 1) - 1 - v / 2 && c % 2 == 1 - v % 2;
    hide Bit;
    if k == 0 {
      LowestBit(v);
      LowestBit(c);
    } else {
      ComplementBits(v / 2, w - 1, k - 1);
      HigherBit(v, k);
      HigherBit(c, k);
    }
  }

  /** The bits below w come from the remainder, those from w on from the multiple. */
  lemma {:induction false} ComposeBits(q: nat, r: nat, w: nat, k: nat)
    requires r < Pow2(w)
    ensures Bit(q * Pow2(w) + r, k) <==> if k < w then Bit(r, k) else Bit(q, k - w)
  {
    hide Bit;
    var v := q * Pow2(w) + r;
    if w == 0 {
      assert Pow2(0) == 1 && v == q;
    } else {
      var h := q * Pow2(w - 1);
      assert Pow2(w) == 2 * Pow2(w - 1) && v == 2 * h + r by { Halved(q, Pow2(w - 1)); }
      assert v / 2 == h + r / 2 && v % 2 == r % 2;
      if k == 0 {
        LowestBit(v);
        LowestBit(r);
      } else {
        HigherBit(v, k);
        ComposeBits(q, r / 2, w - 1, k - 1);
        HigherBit(r, k);
      }
    }
  }

  lemma Halved(q: int, p: int)
    ensures q * (2 * p) == 2 * (q * p)
  {
  }

  /** A sized write replaces the low bytes of a register and keeps the others. */
  lemma MergeBits(x: u32, v: u32, n: Size, k: nat)
    ensures Bit(Merge(x, v, n), k) <==> if k < 8 * n then Bit(v, k) else Bit(x, k)
  {
    WidthModulus(n);
    var m := Modulus(n);
    assert x == x / m * m + x % m && v == v / m * m + v % m;
    assert Merge(x, v, n) == x / m * m + v % m;
    hide Bit, Pow2, Modulus, Merge;
    ComposeBits(x / m, v % m, 8 * n, k);
    ComposeBits(x / m, x % m, 8 * n, k);
    ComposeBits(v / m, v % m, 8 * n, k);
  }

  lemma LowBits(v: u32, n: Size, k: nat)
    requires k < 8 * n
    ensures Bit(Low(v, n), k) <==> Bit(v, k)
  {
    WidthModulus(n);
    var m := Modulus(n);
    assert v == v / m * m + v % m;
    hide Bit, Pow2, Modulus;
    ComposeBits(v / m, v % m, 8 * n, k);
  }

  // ----- The logical instructions -----

  predicate Connected(l: LogicOp, a: bool, b: bool) {
    match l
    case And => a && b
    case Or => a || b
    case Eor => a != b
  }

  /** Bits 11 to 9 name the destination of AND and OR, but the source of EOR. */
  function Destination(op: bv16, l: LogicOp): Reg {
    if l == Eor then ((op & 7) as bv3) as int else (((op >> 9) & 7) as bv3) as int
  }

  function Source(op: bv16, l: LogicOp): Reg {
    if l == Eor then (((op >> 9) & 7) as bv3) as int else ((op & 7) as bv3) as int
  }

  /** t is r after dst := dst l src on the low n bytes, with N and Z of the result, V and C clear and X kept. */
  ghost predicate LogicallyCombined(r: Regfile, t: Regfile, l: LogicOp, dst: Reg, src: Reg, n: Size) {
    && (forall k: nat :: k < 8 * n ==> (Bit(t.D[dst], k) <==> Connected(l, Bit(r.D[dst], k), Bit(r.D[src], k))))
    && (forall k: nat :: 8 * n <= k ==> (Bit(t.D[dst], k) <==> Bit(r.D[dst], k)))
    && (forall i: Reg :: i != dst ==> t.D[i] == r.D[i]) && t.A == r.A
  }

  ghost predicate ResultFlags(before: Ccr, after: Ccr, v: u32, n: Size) {
    && (after.n <==> 2 * (v % Modulus(n)) >= Modulus(n)) && (after.z <==> v % Modulus(n) == 0)
    && !after.v && !after.c && after.x == before.x
  }

  lemma CombinedBit(l: LogicOp, a: u32, b: u32, n: Size, k: nat)
    ensures var m := Merge(a, LogicN(l, Low(a, n), Low(b, n), n), n);
            Bit(m, k) <==> if k < 8 * n then Connected(l, Bit(a, k), Bit(b, k)) else Bit(a, k)
  {
    hide Bit, Merge, LogicN, Low;
    MergeBits(a, LogicN(l, Low(a, n), Low(b, n), n), n, k);
    if k < 8 * n {
      LogicNBits(l, Low(a, n), Low(b, n), n, k);
      LowBits(a, n, k);
      LowBits(b, n, k);
    }
  }

  /** The block's operation for AND, OR and EOR between data registers, at every size. */
  lemma BlockCombines(insn: Insn, pc: u32, needs: bool, r: Regfile)
    requires insn.kind.Logical?
    ensures var l, n := insn.kind.l, insn.kind.size;
            var dst, src := Destination(insn.opcode, l), Source(insn.opcode, l);
            var t := ApplyGuarded(BuildOp(insn, pc, needs), r);
            && LogicallyCombined(r, t, l, dst, src, n)
            && (if needs then ResultFlags(r.ccr, t.ccr, t.D[dst], n) else t.ccr == r.ccr)
  {
    hide Apply, BuildOp, Bit, Merge, LogicN, LogicallyCombined, Low;
    var l, n := insn.kind.l, insn.kind.size;
    var dst, src := Destination(insn.opcode, l), Source(insn.opcode, l);
    var v := LogicN(l, Low(r.D[dst], n), Low(r.D[src], n), n);
    FieldsAre(insn.opcode, l);
    LogicalApply(insn, pc, needs, r);
    BuiltFlags(insn, pc, needs);
    MergedLow(r.D[dst], v, n);
    MergedCombines(r, l, dst, src, n, ApplyGuarded(BuildOp(insn, pc, needs), r).ccr);
    LowIs(Merge(r.D[dst], v, n), n);
  }

  lemma FieldsAre(op: bv16, l: LogicOp)
    ensures Destination(op, l) == (if l == Eor then Reg0(op) else Reg9(op))
    ensures Source(op, l) == (if l == Eor then Reg9(op) else Reg0(op))
  {
  }

  lemma LowIs(v: u32, n: Size)
    ensures Low(v, n) == v % Modulus(n)
  {
  }

  lemma MergedCombines(r: Regfile, l: LogicOp, dst: Reg, src: Reg, n: Size, ccr: Ccr)
    ensures var v := LogicN(l, Low(r.D[dst], n), Low(r.D[src], n), n);
            LogicallyCombined(r, Regfile(r.D[dst := Merge(r.D[dst], v, n)], r.A, ccr), l, dst, src, n)
  {
    hide Bit, Merge, LogicN, Connected, Low;
    var v := LogicN(l, Low(r.D[dst], n), Low(r.D[src], n), n);
    forall k: nat
      ensures Bit(Merge(r.D[dst], v, n), k)
          <==> if k < 8 * n then Connected(l, Bit(r.D[dst], k), Bit(r.D[src], k)) else Bit(r.D[dst], k)
    {
      CombinedBit(l, r.D[dst], r.D[src], n, k);
    }
  }

  lemma BuiltFlags(insn: Insn, pc: u32, needs: bool)
    requires insn.kind.Logical?
    ensures var o := BuildOp(insn, pc, needs); o.needsFlags == needs && o.kind == insn.kind
  {
  }

  lemma MergedLow(x: u32, v: u32, n: Size)
    ensures Low(Merge(x, v, n), n) == Low(v, n)
  {
  }

  /** The interpreter's step for the same instructions. */
  lemma StepCombines(env: Env, s: State, insn: Insn)
    requires Encodes(env, s.pc, insn) && insn.kind.Logical?
    ensures Step(env, s).Some?
    ensures var l, n := insn.kind.l, insn.kind.size;
            var dst, src := Destination(insn.opcode, l), Source(insn.opcode, l);
            var t := Step(env, s).value;
            && LogicallyCombined(RegsOf(s), RegsOf(t), l, dst, src, n)
            && ResultFlags(s.ccr, t.ccr, t.D[dst], n) && t.mem == s.mem && t.pc == Wrap(s.pc + 2)
  {
    hide Encodes, Step, BuildOp, Apply, LogicallyCombined;
    RegisterRefines(env, s, insn, true);
    BlockCombines(insn, s.pc, true, RegsOf(s));
    BuiltFlags(insn, s.pc, true);
    OneWord(env, s.pc, insn);
    SameCombined(RegsOf(s), Apply(BuildOp(insn, s.pc, true), RegsOf(s)), RegsOf(Step(env, s).value),
                 insn.kind.l, Destination(insn.opcode, insn.kind.l), Source(insn.opcode, insn.kind.l), insn.kind.size);
  }

  lemma OneWord(env: Env, pc: u32, insn: Insn)
    requires Encodes(env, pc, insn) && insn.kind.Logical?
    ensures insn.len == 2
  {
    hide Classify;
  }

  lemma SameCombined(r: Regfile, t: Regfile, u: Regfile, l: LogicOp, dst: Reg, src: Reg, n: Size)
    requires LogicallyCombined(r, t, l, dst, src, n) && u.D == t.D && u.A == t.A
    ensures LogicallyCombined(r, u, l, dst, src, n)
  {
    hide Bit, Connected;
  }

  /** A block that consists of one such instruction. */
  lemma ExecuteCombines(b: Block, insn: Insn, pc: u32, needs: bool, c: DataCache, r: Regfile)
    requires b.Shaped() && b.ops == [BuildOp(insn, pc, needs)] && insn.kind.Logical?
    ensures var l := insn.kind.l;
            LogicallyCombined(r, Execute(b, c, r).r, l, Destination(insn.opcode, l), Source(insn.opcode, l), insn.kind.size)
  {
    hide BuildOp, ApplyGuarded, LogicallyCombined;
    BlockCombines(insn, pc, needs, r);
    BuiltFlags(insn, pc, needs);
    var t := ApplyGuarded(b.ops[0], r);
    assert ExecuteFrom(b, c, t, 1).r == t;
  }
}
