/**
  What the compilable register instructions do, in arithmetic terms: the operands named by the opcode,
  the exact result and the exact flags.  Blocks and interpreter are both held to it.
*/
module InstructionLaws {
  import opened Machine
  import opened Bits
  import opened Alu
  import opened EffectiveAddress
  import opened Interpreter
  import opened JitBlock
  import opened JitCompile
  import opened JitDecode
  import opened JitShape
  import opened LogicLaws

  // ----- Operands -----

  function Hi(op: bv16): Reg { (((op >> 9) & 7) as bv3) as int }
  function Lo(op: bv16): Reg { ((op & 7) as bv3) as int }

  /** The quick data: one to eight. */
  function Count(op: bv16): int { if Hi(op) == 0 then 8 else Hi(op) }

  function ByteOf(w: bv16): int {
    var b := ((w & 0xFF) as bv8) as int;
    if b < 128 then b else b - 256
  }

  function Range(n: Size): int { if n == 1 then 0x100 else if n == 2 then 0x1_0000 else 0x1_0000_0000 }

  /** Two's complement value of the low n bytes. */
  function Two(v: int, n: Size): int {
    var low := v % Range(n);
    if 2 * low >= Range(n) then low - Range(n) else low
  }

  predicate Fits(x: int, n: Size) { -Range(n) <= 2 * x < Range(n) }

  // ----- Effects -----

  ghost predicate OnlyD(r: Regfile, t: Regfile, i: Reg) {
    t.A == r.A && forall j: Reg :: j != i ==> t.D[j] == r.D[j]
  }

  ghost predicate OnlyA(r: Regfile, t: Regfile, i: Reg) {
    t.D == r.D && forall j: Reg :: j != i ==> t.A[j] == r.A[j]
  }

  /** The low n bytes are v, the bytes above those of old. */
  predicate LowReplaced(new': u32, old': u32, v: int, n: Size) {
    new' % Range(n) == v % Range(n) && new' / Range(n) == old' / Range(n)
  }

  predicate NZ(f: Ccr, v: int, n: Size) {
    (f.n <==> 2 * (v % Range(n)) >= Range(n)) && (f.z <==> v % Range(n) == 0)
  }

  /** N and Z of the result, V and C clear, X kept. */
  predicate MoveFlags(before: Ccr, f: Ccr, v: int, n: Size) {
    NZ(f, v, n) && !f.v && !f.c && f.x == before.x
  }

  /** Flags of a + b, for n-byte operands. */
  predicate AddFlags(f: Ccr, a: int, b: int, n: Size) {
    && NZ(f, a + b, n) && (f.v <==> !Fits(Two(a, n) + Two(b, n), n)) && (f.c <==> a + b >= Range(n)) && f.x == f.c
  }

  predicate SubNzvc(f: Ccr, a: int, b: int, n: Size) {
    NZ(f, a - b, n) && (f.v <==> !Fits(Two(a, n) - Two(b, n), n)) && (f.c <==> a < b)
  }

  // ----- Addition and subtraction -----

  lemma Reduce(v: int, n: Size)
    requires -Range(n) <= v < 2 * Range(n)
    ensures v % Range(n) == if v < 0 then v + Range(n) else if v < Range(n) then v else v - Range(n)
    ensures Range(n) == Modulus(n) && Range(n) % 2 == 0 && Range(n) >= 0x100
  {
  }

  lemma TwoIs(v: int, n: Size)
    requires 0 <= v < Range(n)
    ensures Two(v, n) == (if 2 * v >= Range(n) then v - Range(n) else v) && Sign(v, n) == (2 * v >= Range(n))
  {
  }

  lemma AddOpen(a: u32, b: u32, ccr: Ccr, n: Size)
    requires a < Range(n) && b < Range(n)
    ensures var r := (a + b) % Range(n);
            Add(a, b, ccr, n) == AluResult(r, Ccr(a + b >= Range(n), Sign(r, n), r == 0,
              Sign(a, n) != Sign(r, n) && Sign(b, n) != Sign(r, n), a + b >= Range(n), 0))
  {
  }

  lemma SubOpen(a: u32, b: u32, ccr: Ccr, n: Size)
    requires a < Range(n) && b < Range(n)
    ensures var r := (a - b) % Range(n);
            Sub(a, b, ccr, n) == AluResult(r, Ccr(a < b, Sign(r, n), r == 0,
              Sign(a, n) != Sign(b, n) && Sign(a, n) != Sign(r, n), a < b, 0))
  {
  }

  /** The sign rule for V against the signed values, in a word of m values. */
  lemma SumOverflows(a: int, b: int, m: int)
    requires m % 2 == 0 && 0 <= a < m && 0 <= b < m
    ensures var r := if a + b < m then a + b else a + b - m;
            var ta, tb := if 2 * a >= m then a - m else a, if 2 * b >= m then b - m else b;
            (2 * a >= m) != (2 * r >= m) && (2 * b >= m) != (2 * r >= m) <==> !(-m <= 2 * (ta + tb) < m)
  {
  }

  lemma DifferenceOverflows(a: int, b: int, m: int)
    requires m % 2 == 0 && 0 <= a < m && 0 <= b < m
    ensures var r := if a - b < 0 then a - b + m else a - b;
            var ta, tb := if 2 * a >= m then a - m else a, if 2 * b >= m then b - m else b;
            (2 * a >= m) != (2 * b >= m) && (2 * a >= m) != (2 * r >= m) <==> !(-m <= 2 * (ta - tb) < m)
  {
  }

  lemma AddMeans(a: u32, b: u32, ccr: Ccr, n: Size)
    requires a < Range(n) && b < Range(n)
    ensures var r := Add(a, b, ccr, n); r.result == (a + b) % Range(n) && AddFlags(r.ccr, a, b, n)
  {
    hide Range, Modulus, Two, Sign, Add;
    AddOpen(a, b, ccr, n);
    Reduce(a + b, n);
    TwoIs(a, n);
    TwoIs(b, n);
    TwoIs((a + b) % Range(n), n);
    SumOverflows(a, b, Range(n));
  }

  lemma SubMeans(a: u32, b: u32, ccr: Ccr, n: Size)
    requires a < Range(n) && b < Range(n)
    ensures var r := Sub(a, b, ccr, n);
            r.result == (a - b) % Range(n) && SubNzvc(r.ccr, a, b, n) && r.ccr.x == r.ccr.c
  {
    hide Range, Modulus, Two, Sign, Sub;
    SubOpen(a, b, ccr, n);
    Reduce(a - b, n);
    TwoIs(a, n);
    TwoIs(b, n);
    TwoIs((a - b) % Range(n), n);
    DifferenceOverflows(a, b, Range(n));
  }

  lemma MergeMeans(x: u32, v: u32, n: Size)
    ensures LowReplaced(Merge(x, v, n), x, v, n)
  {
  }

  lemma LowMeans(v: u32, n: Size)
    ensures Low(v, n) == v % Range(n) < Range(n) == Modulus(n)
  {
  }

  // ----- Each instruction on its operands -----

  /** The n-byte operand in a data register. */
  function Part(r: Regfile, i: Reg, n: Size): int { r.D[i] % Range(n) }

  ghost predicate ArithMeans(k: Kind, op: bv16, r: Regfile, t: Regfile)
    requires k.Arith? || k.Cmp? || k.QuickDn? || k.Neg?
  {
    var n := k.size;
    match k
    case Arith(isAdd, _) =>
      var a, b := Part(r, Hi(op), n), Part(r, Lo(op), n);
      && OnlyD(r, t, Hi(op)) && LowReplaced(t.D[Hi(op)], r.D[Hi(op)], if isAdd then a + b else a - b, n)
      && (if isAdd then AddFlags(t.ccr, a, b, n) else SubNzvc(t.ccr, a, b, n) && t.ccr.x == t.ccr.c)
    case Cmp(_) =>
      t.D == r.D && t.A == r.A && SubNzvc(t.ccr, Part(r, Hi(op), n), Part(r, Lo(op), n), n) && t.ccr.x == r.ccr.x
    case QuickDn(isAdd, _) =>
      var a, q := Part(r, Lo(op), n), Count(op);
      && OnlyD(r, t, Lo(op)) && LowReplaced(t.D[Lo(op)], r.D[Lo(op)], if isAdd then a + q else a - q, n)
      && (if isAdd then AddFlags(t.ccr, a, q, n) else SubNzvc(t.ccr, a, q, n) && t.ccr.x == t.ccr.c)
    case Neg(_) =>
      && OnlyD(r, t, Lo(op)) && LowReplaced(t.D[Lo(op)], r.D[Lo(op)], -Part(r, Lo(op), n), n)
      && SubNzvc(t.ccr, 0, Part(r, Lo(op), n), n) && t.ccr.x == t.ccr.c
  }

  lemma FieldsOf(op: bv16)
    ensures Hi(op) == Reg9(op) && Lo(op) == Reg0(op) && Count(op) == Quick(op) && ByteOf(op) == Disp8(op)
    ensures 1 <= Count(op) <= 8
  {
  }

  lemma Congruent(x: u32, v: u32, w: int, n: Size)
    requires v % Range(n) == w % Range(n)
    ensures LowReplaced(Merge(x, v, n), x, w, n)
  {
    MergeMeans(x, v, n);
    hide Merge, Range;
  }

  lemma Residue(w: int, n: Size)
    ensures w % Range(n) % Range(n) == w % Range(n)
  {
  }

  lemma ArithIs(insn: Insn, pc: u32, needs: bool, r: Regfile)
    requires insn.kind.Arith? || insn.kind.Cmp? || insn.kind.QuickDn? || insn.kind.Neg?
    ensures ArithMeans(insn.kind, insn.opcode, r, Apply(BuildOp(insn, pc, needs), r))
  {
    hide Apply, BuildOp, Add, Sub, Low, Merge, LowReplaced, AddFlags, SubNzvc, Range, Hi, Lo, Count, Quick, Reg9, Reg0;
    var n, op := insn.kind.size, insn.opcode;
    FieldsOf(op);
    var hi, lo := r.D[Hi(op)], r.D[Lo(op)];
    LowMeans(hi, n);
    LowMeans(lo, n);
    if insn.kind.Arith? {
      ArithApply(insn, pc, needs, r);
      AddMeans(Low(hi, n), Low(lo, n), r.ccr, n);
      SubMeans(Low(hi, n), Low(lo, n), r.ccr, n);
      SumReplaced(hi, Low(hi, n) + Low(lo, n), n);
      SumReplaced(hi, Low(hi, n) - Low(lo, n), n);
    } else if insn.kind.Cmp? {
      CmpApply(insn, pc, needs, r);
      SubMeans(Low(hi, n), Low(lo, n), r.ccr, n);
      XApart(Sub(Low(hi, n), Low(lo, n), r.ccr, n).ccr, r.ccr.x, Low(hi, n), Low(lo, n), n);
    } else if insn.kind.QuickDn? {
      QuickApply(insn, pc, needs, r);
      SmallFits(Count(op), n);
      AddMeans(Low(lo, n), Count(op), r.ccr, n);
      SubMeans(Low(lo, n), Count(op), r.ccr, n);
      SumReplaced(lo, Low(lo, n) + Count(op), n);
      SumReplaced(lo, Low(lo, n) - Count(op), n);
    } else {
      NegApply(insn, pc, needs, r);
      SmallFits(0, n);
      SubMeans(0, Low(lo, n), r.ccr, n);
      SumReplaced(lo, 0 - Low(lo, n), n);
    }
  }

  lemma SmallFits(v: int, n: Size)
    requires 0 <= v <= 8
    ensures v < Range(n)
  {
  }

  lemma XApart(f: Ccr, x: bool, a: int, b: int, n: Size)
    requires SubNzvc(f, a, b, n)
    ensures SubNzvc(f.(x := x), a, b, n)
  {
    hide Range, Two, Fits;
  }

  lemma SumReplaced(x: u32, w: int, n: Size)
    ensures 0 <= w % Range(n) < 0x1_0000_0000
    ensures LowReplaced(Merge(x, w % Range(n), n), x, w, n)
  {
    Residue(w, n);
    Congruent(x, w % Range(n), w, n);
    hide Merge, LowReplaced;
  }

  lemma NegApply(insn: Insn, pc: u32, needs: bool, r: Regfile)
    requires insn.kind.Neg?
    ensures var n, x := insn.kind.size, Reg0(insn.opcode);
            var a := Sub(0, Low(r.D[x], n), r.ccr, n);
            Apply(BuildOp(insn, pc, needs), r) == Regfile(r.D[x := Merge(r.D[x], a.result, n)], r.A, a.ccr)
  {
    UnaryApply(insn, pc, needs, r);
    hide Apply, BuildOp, Sub, Low, Merge, Reg0;
  }

  // ----- Moves, exchanges and addresses -----

  predicate Moves(k: Kind) {
    k.Moveq? || k.MoveDnDm? || k.MoveAnDn? || k.MoveaDnAn? || k.MoveaAnAm? || k.ExgDnDm? || k.ExgAnAm? || k.ExgDnAn?
    || k.QuickAn? || k.LeaAn? || k.LeaD16? || k.Nop?
  }

  function SignedExt(w: bv16): int {
    if w as int >= 0x8000 then w as int - 0x1_0000 else w as int
  }

  ghost predicate MoveMeans(k: Kind, op: bv16, ext: bv16, r: Regfile, t: Regfile)
    requires Moves(k)
  {
    var hi, lo := Hi(op), Lo(op);
    match k
    case Moveq => OnlyD(r, t, hi) && t.D[hi] == ByteOf(op) % Range(4) && MoveFlags(r.ccr, t.ccr, ByteOf(op), 4)
    case MoveDnDm => OnlyD(r, t, hi) && t.D[hi] == r.D[lo] && MoveFlags(r.ccr, t.ccr, r.D[lo], 4)
    case MoveAnDn => OnlyD(r, t, hi) && t.D[hi] == r.A[lo] && MoveFlags(r.ccr, t.ccr, r.A[lo], 4)
    case MoveaDnAn => OnlyA(r, t, hi) && t.A[hi] == r.D[lo] && SameFlags(t.ccr, r.ccr)
    case MoveaAnAm => OnlyA(r, t, hi) && t.A[hi] == r.A[lo] && SameFlags(t.ccr, r.ccr)
    case ExgDnDm =>
      && t.A == r.A && t.D[hi] == r.D[lo] && t.D[lo] == r.D[hi] && SameFlags(t.ccr, r.ccr)
      && forall j: Reg :: j != hi && j != lo ==> t.D[j] == r.D[j]
    case ExgAnAm =>
      && t.D == r.D && t.A[hi] == r.A[lo] && t.A[lo] == r.A[hi] && SameFlags(t.ccr, r.ccr)
      && forall j: Reg :: j != hi && j != lo ==> t.A[j] == r.A[j]
    case ExgDnAn =>
      && t.D[hi] == r.A[lo] && t.A[lo] == r.D[hi] && SameFlags(t.ccr, r.ccr)
      && (forall j: Reg :: j != hi ==> t.D[j] == r.D[j]) && forall j: Reg :: j != lo ==> t.A[j] == r.A[j]
    case QuickAn(isAdd) =>
      && OnlyA(r, t, lo) && SameFlags(t.ccr, r.ccr)
      && t.A[lo] == (if isAdd then r.A[lo] + Count(op) else r.A[lo] - Count(op)) % Range(4)
    case LeaAn => OnlyA(r, t, hi) && t.A[hi] == r.A[lo] && SameFlags(t.ccr, r.ccr)
    case LeaD16 => OnlyA(r, t, hi) && t.A[hi] == (r.A[lo] + SignedExt(ext)) % Range(4) && SameFlags(t.ccr, r.ccr)
    case Nop => t.D == r.D && t.A == r.A && SameFlags(t.ccr, r.ccr)
  }

  lemma KeepXMeans(ccr: Ccr, v: u32, n: Size)
    requires v < Range(n)
    ensures MoveFlags(ccr, KeepX(ccr, v, n), v, n)
  {
  }

  lemma WrapMeans(v: int)
    ensures Wrap(v) == v % Range(4) < Range(4) == 0x1_0000_0000
  {
  }

  lemma SameMod(ccr: Ccr, f: Ccr, v: int, n: Size)
    requires MoveFlags(ccr, f, v % Range(n), n)
    ensures MoveFlags(ccr, f, v, n)
  {
    Residue(v, n);
    hide Range;
  }

  lemma MoveIs(insn: Insn, pc: u32, needs: bool, r: Regfile)
    requires Moves(insn.kind)
    ensures MoveMeans(insn.kind, insn.opcode, insn.ext, r, Apply(BuildOp(insn, pc, needs), r))
  {
    hide Apply, BuildOp, MoveFlags, Range, Hi, Lo, Reg9, Reg0, Wrap, KeepX, Quick, Count, ByteOf, Disp8, Disp16;
    var op, k := insn.opcode, insn.kind;
    FieldsOf(op);
    WrapMeans(0);
    if k.Moveq? {
      MoveqApply(insn, pc, needs, r);
      WrapMeans(Disp8(op));
      KeepXMeans(r.ccr, Wrap(Disp8(op)), 4);
      SameMod(r.ccr, KeepX(r.ccr, Wrap(Disp8(op)), 4), Disp8(op), 4);
    } else if k.MoveDnDm? || k.MoveAnDn? || k.MoveaDnAn? || k.MoveaAnAm? {
      MoveApply(insn, pc, needs, r);
      KeepXMeans(r.ccr, r.D[Lo(op)], 4);
      KeepXMeans(r.ccr, r.A[Lo(op)], 4);
    } else if k.LeaAn? || k.LeaD16? {
      LeaApply(insn, pc, needs, r);
      ExtSigned(insn.ext);
      WrapMeans(r.A[Lo(op)] + Disp16(insn.ext));
    } else {
      ExgApply(insn, pc, needs, r);
      WrapMeans(r.A[Lo(op)] + Count(op));
      WrapMeans(r.A[Lo(op)] - Count(op));
    }
  }

  lemma ExtSigned(w: bv16)
    ensures SignedExt(w) == Disp16(w)
  {
  }

  lemma MoveqApply(insn: Insn, pc: u32, needs: bool, r: Regfile)
    requires insn.kind.Moveq?
    ensures var v := Wrap(Disp8(insn.opcode));
            Apply(BuildOp(insn, pc, needs), r) == Regfile(r.D[Reg9(insn.opcode) := v], r.A, KeepX(r.ccr, v, 4))
  {
    hide Low, Merge, KeepX, Wrap, Disp8, Reg9, Reg0;
    Longs(r.D[Reg9(insn.opcode)], Wrap(Disp8(insn.opcode)));
  }

  lemma ExgApply(insn: Insn, pc: u32, needs: bool, r: Regfile)
    requires insn.kind.ExgDnDm? || insn.kind.ExgAnAm? || insn.kind.ExgDnAn? || insn.kind.QuickAn? || insn.kind.Nop?
    ensures var k, x, y, q := insn.kind, Reg9(insn.opcode), Reg0(insn.opcode), Quick(insn.opcode);
            Apply(BuildOp(insn, pc, needs), r) ==
            if k.ExgDnDm? then r.(D := r.D[x := r.D[y]][y := r.D[x]])
            else if k.ExgAnAm? then r.(A := r.A[x := r.A[y]][y := r.A[x]])
            else if k.ExgDnAn? then r.(D := r.D[x := r.A[y]], A := r.A[y := r.D[x]])
            else if k.QuickAn? then
              r.(A := r.A[y := if k.isAdd then Wrap(r.A[y] + q) else Wrap(r.A[y] - q)])
            else r
  {
    hide Wrap, Quick, Reg9, Reg0;
  }

  // ----- Single operands, multiplication, bit test and shifts -----

  predicate Computes(k: Kind) {
    k.Clr? || k.Tst? || k.Not? || k.SwapDn? || k.ExtW? || k.ExtL? || k.ExtbL? || k.Mulu? || k.Muls? || k.Btst?
    || k.LeftShift? || k.Asr? || k.Lsr?
  }

  ghost predicate ComputeMeans(k: Kind, op: bv16, r: Regfile, t: Regfile)
    requires Computes(k)
  {
    var hi, lo, q := Hi(op), Lo(op), Count(op);
    var v := r.D[lo];
    match k
    case Clr(n) => OnlyD(r, t, lo) && LowReplaced(t.D[lo], v, 0, n) && MoveFlags(r.ccr, t.ccr, 0, n)
    case Tst(n) => t.D == r.D && t.A == r.A && MoveFlags(r.ccr, t.ccr, v, n)
    case Not(n) => OnlyD(r, t, lo) && LowReplaced(t.D[lo], v, -1 - v, n) && MoveFlags(r.ccr, t.ccr, -1 - v, n)
    case SwapDn =>
      OnlyD(r, t, lo) && t.D[lo] == v % 0x1_0000 * 0x1_0000 + v / 0x1_0000 && MoveFlags(r.ccr, t.ccr, t.D[lo], 4)
    case ExtW => OnlyD(r, t, lo) && LowReplaced(t.D[lo], v, Two(v, 1), 2) && MoveFlags(r.ccr, t.ccr, Two(v, 1), 2)
    case ExtL => OnlyD(r, t, lo) && t.D[lo] == Two(v, 2) % Range(4) && MoveFlags(r.ccr, t.ccr, Two(v, 2), 4)
    case ExtbL => OnlyD(r, t, lo) && t.D[lo] == Two(v, 1) % Range(4) && MoveFlags(r.ccr, t.ccr, Two(v, 1), 4)
    case Mulu => OnlyD(r, t, hi) && t.D[hi] == (r.D[hi] % 0x1_0000) * (v % 0x1_0000) && MoveFlags(r.ccr, t.ccr, t.D[hi], 4)
    case Muls =>
      OnlyD(r, t, hi) && t.D[hi] == (Two(r.D[hi], 2) * Two(v, 2)) % Range(4) && MoveFlags(r.ccr, t.ccr, t.D[hi], 4)
    case Btst =>
      && t.D == r.D && t.A == r.A && (t.ccr.z <==> !Bit(v, r.D[hi] % 32))
      && t.ccr.n == r.ccr.n && t.ccr.v == r.ccr.v && t.ccr.c == r.ccr.c && t.ccr.x == r.ccr.x
    case LeftShift(_) =>
      && OnlyD(r, t, lo) && t.D[lo] == v * Pow2(q) % Range(4) && NZ(t.ccr, t.D[lo], 4)
      && (t.ccr.c <==> Bit(v, 32 - q)) && t.ccr.x == t.ccr.c && (t.ccr.v <==> Bit(v, 31) != Bit(t.D[lo], 31))
    case Lsr =>
      && OnlyD(r, t, lo) && t.D[lo] == v / Pow2(q) && NZ(t.ccr, t.D[lo], 4)
      && (t.ccr.c <==> Bit(v, q - 1)) && t.ccr.x == t.ccr.c && !t.ccr.v
    case Asr =>
      && OnlyD(r, t, lo) && t.D[lo] == Two(v, 4) / Pow2(q) % Range(4) && NZ(t.ccr, t.D[lo], 4)
      && (t.ccr.c <==> Two(v, 4) / Pow2(q - 1) % 2 == 1) && t.ccr.x == t.ccr.c && !t.ccr.v
  }

  lemma LowFlags(before: Ccr, v: u32, w: int, n: Size)
    requires v % Range(n) == w % Range(n)
    ensures MoveFlags(before, KeepX(before, Low(v, n), n), w, n)
  {
    LowMeans(v, n);
    KeepXMeans(before, Low(v, n), n);
    Residue(v, n);
    hide Range, KeepX, Low;
  }

  lemma UnaryIs(insn: Insn, pc: u32, needs: bool, r: Regfile)
    requires insn.kind.Clr? || insn.kind.Tst? || insn.kind.Not?
    ensures ComputeMeans(insn.kind, insn.opcode, r, Apply(BuildOp(insn, pc, needs), r))
  {
    hide Apply, BuildOp, MoveFlags, LowReplaced, Range, Hi, Lo, Reg9, Reg0, KeepX, Low, Merge, Modulus;
    var op, n := insn.opcode, insn.kind.size;
    var v := r.D[Lo(op)];
    FieldsOf(op);
    LowMeans(v, n);
    UnaryApply(insn, pc, needs, r);
    if insn.kind.Clr? {
      LowFlags(r.ccr, 0, 0, n);
      Congruent(v, 0, 0, n);
    } else if insn.kind.Tst? {
      Residue(v, n);
      KeepXMeans(r.ccr, Low(v, n), n);
      SameMod(r.ccr, KeepX(r.ccr, Low(v, n), n), v, n);
    } else {
      var w: int := v;
      Inverse(v, n);
      LowFlags(r.ccr, Modulus(n) - 1 - Low(v, n), -1 - w, n);
      Congruent(v, Modulus(n) - 1 - Low(v, n), -1 - w, n);
    }
  }

  lemma Inverse(v: u32, n: Size)
    ensures (Modulus(n) - 1 - Low(v, n)) % Range(n) == (-1 - v) % Range(n)
    ensures 0 <= Modulus(n) - 1 - Low(v, n) < 0x1_0000_0000
  {
    LowMeans(v, n);
    var m, w: int := Modulus(n), v;
    var q, low := w / m, w % m;
    assert m * q + low == w;
    assert m * (-q - 1) == -(m * q) - m;
    DivModUnique(-1 - w, m, -q - 1, m - 1 - low);
    DivModUnique(m - 1 - low, m, 0, m - 1 - low);
    Bounded(n);
    hide Modulus, Range, Low;
  }

  lemma Bounded(n: Size)
    ensures 0 < Modulus(n) <= 0x1_0000_0000
  {
  }

  lemma ExtendMeans(v: u32)
    ensures SignExtend(v, 1) == Two(v, 1) % Range(4) && SignExtend(v, 2) == Two(v, 2) % Range(4)
    ensures SignExtend(v, 1) % Range(2) == Two(v, 1) % Range(2)
  {
    SignedIs(v, 1);
    SignedIs(v, 2);
    WordOfByte(v % 0x100);
    hide Signed, Two, Low;
  }

  lemma SignedIs(v: u32, n: Size)
    ensures Signed(Low(v, n), n) == Two(v, n)
    ensures Two(v, 1) == if v % 0x100 >= 0x80 then v % 0x100 - 0x100 else v % 0x100
  {
  }

  lemma WordOfByte(b: int)
    requires 0 <= b < 0x100
    ensures b % 0x1_0000_0000 % 0x1_0000 == b % 0x1_0000
    ensures (b - 0x100) % 0x1_0000_0000 % 0x1_0000 == (b - 0x100) % 0x1_0000
  {
  }

  lemma ExtendIs(insn: Insn, pc: u32, needs: bool, r: Regfile)
    requires insn.kind.SwapDn? || insn.kind.ExtW? || insn.kind.ExtL? || insn.kind.ExtbL?
    ensures ComputeMeans(insn.kind, insn.opcode, r, Apply(BuildOp(insn, pc, needs), r))
  {
    hide Apply, BuildOp, MoveFlags, LowReplaced, Range, Hi, Lo, Reg9, Reg0, KeepX, Low, Merge, SignExtend, Two;
    var op, k := insn.opcode, insn.kind;
    var v := r.D[Lo(op)];
    FieldsOf(op);
    ExtApply(insn, pc, needs, r);
    ExtendMeans(v);
    if k.SwapDn? {
      Longs(v, Swapped(v));
      LowFlags(r.ccr, Swapped(v), Swapped(v), 4);
    } else if k.ExtW? {
      LowFlags(r.ccr, SignExtend(v, 1), Two(v, 1), 2);
      Congruent(v, SignExtend(v, 1), Two(v, 1), 2);
    } else {
      var n := if k.ExtL? then 2 else 1;
      Longs(v, SignExtend(v, n));
      Residue(Two(v, n), 4);
      LowFlags(r.ccr, SignExtend(v, n), Two(v, n), 4);
    }
  }

  lemma MulIs(insn: Insn, pc: u32, needs: bool, r: Regfile)
    requires insn.kind.Mulu? || insn.kind.Muls?
    ensures ComputeMeans(insn.kind, insn.opcode, r, Apply(BuildOp(insn, pc, needs), r))
  {
    hide Apply, BuildOp, MoveFlags, Range, Hi, Lo, Reg9, Reg0, KeepX, Low, Wrap, Product, Signed, Two;
    var op := insn.opcode;
    var x, y := r.D[Hi(op)], r.D[Lo(op)];
    FieldsOf(op);
    MulApply(insn, pc, needs, r);
    SignedMeans(x);
    SignedMeans(y);
    var p := if insn.kind.Mulu? then Product(Low(x, 2), Low(y, 2)) else Product(Signed(Low(x, 2), 2), Signed(Low(y, 2), 2));
    ProductMeans(Low(x, 2), Low(y, 2));
    ProductMeans(Signed(Low(x, 2), 2), Signed(Low(y, 2), 2));
    WrapMeans(p);
    UnsignedFits(Low(x, 2), Low(y, 2));
    KeepXMeans(r.ccr, Wrap(p), 4);
  }

  lemma SignedMeans(v: u32)
    ensures Signed(Low(v, 2), 2) == Two(v, 2) && Low(v, 2) == v % 0x1_0000
  {
  }

  lemma ProductMeans(a: int, b: int)
    ensures Product(a, b) == a * b
  {
  }

  lemma UnsignedFits(a: int, b: int)
    requires 0 <= a < 0x1_0000 && 0 <= b < 0x1_0000
    ensures Wrap(a * b) == a * b
  {
    ProductBound(a, b, 0xFFFF);
    ProductMeans(a, b);
  }

  lemma BtstIs(insn: Insn, pc: u32, needs: bool, r: Regfile)
    requires insn.kind.Btst?
    ensures ComputeMeans(insn.kind, insn.opcode, r, Apply(BuildOp(insn, pc, needs), r))
  {
    hide Bit, Hi, Lo, Reg9, Reg0;
    FieldsOf(insn.opcode);
  }

  // ----- Shifts -----

  lemma ShiftIs(insn: Insn, pc: u32, needs: bool, r: Regfile)
    requires insn.kind.LeftShift? || insn.kind.Asr? || insn.kind.Lsr?
    ensures ComputeMeans(insn.kind, insn.opcode, r, Apply(BuildOp(insn, pc, needs), r))
  {
    hide Apply, BuildOp, Range, Hi, Lo, Reg9, Reg0, Count, Quick, ShiftLeft, ArithShiftRight, LogicalShiftRight, NZ, Bit, Pow2;
    var op, k := insn.opcode, insn.kind;
    var v, q := r.D[Lo(op)], Count(op);
    FieldsOf(op);
    WrapMeans(0);
    BuiltShift(insn, pc, needs, r);
    ShiftValues(v, q);
  }

  lemma BuiltShift(insn: Insn, pc: u32, needs: bool, r: Regfile)
    requires insn.kind.LeftShift? || insn.kind.Asr? || insn.kind.Lsr?
    ensures var k, x, q := insn.kind, Reg0(insn.opcode), Quick(insn.opcode);
            var v := r.D[x];
            var a := if k.LeftShift? then ShiftLeft(v, q, 4) else if k.Asr? then ArithShiftRight(v, q, 4) else LogicalShiftRight(v, q, 4);
            Apply(BuildOp(insn, pc, needs), r) == Regfile(r.D[x := a.result], r.A, a.ccr)
  {
    hide ShiftLeft, ArithShiftRight, LogicalShiftRight, Merge, Low, KeepX, Sub, AddOrSub, Reg0, Reg9, Quick;
    QuickIs(insn.opcode);
    var x := Reg0(insn.opcode);
    forall v: u32
      ensures Merge(r.D[x], v, 4) == v && Low(r.D[x], 4) == r.D[x]
    {
      Longs(r.D[x], v);
      Longs(0, r.D[x]);
    }
  }

  lemma QuickIs(op: bv16)
    ensures 1 <= Quick(op) <= 8
  {
  }

  lemma ShiftValues(v: u32, q: nat)
    requires 1 <= q <= 8
    ensures var l := ShiftLeft(v, q, 4);
            && l.result == v * Pow2(q) % Range(4) && NZ(l.ccr, l.result, 4) && (l.ccr.c <==> Bit(v, 32 - q)) && l.ccr.x == l.ccr.c
            && (l.ccr.v <==> Bit(v, 31) != Bit(l.result, 31))
    ensures var a := ArithShiftRight(v, q, 4);
            && a.result == Two(v, 4) / Pow2(q) % Range(4) && NZ(a.ccr, a.result, 4) && !a.ccr.v
            && (a.ccr.c <==> Two(v, 4) / Pow2(q - 1) % 2 == 1) && a.ccr.x == a.ccr.c
    ensures var s := LogicalShiftRight(v, q, 4);
            && s.result == v / Pow2(q) && NZ(s.ccr, s.result, 4) && !s.ccr.v && (s.ccr.c <==> Bit(v, q - 1)) && s.ccr.x == s.ccr.c
  {
    hide Pow2, Bit;
    TopBit(v);
    TopBit(ShiftLeft(v, q, 4).result);
    WrapMeans(0);
    LongSigned(v);
    NzMeans(ShiftLeft(v, q, 4).result);
    NzMeans(ArithShiftRight(v, q, 4).result);
    NzMeans(LogicalShiftRight(v, q, 4).result);
    hide NZ, Sign, NzFlags, Two, Range, Signed;
  }

  lemma TopBit(v: u32)
    ensures Sign(v, 4) <==> Bit(v, 31)
  {
    Pow2Values();
  }

  lemma LongSigned(v: u32)
    ensures Signed(v, 4) == Two(v, 4) && Range(4) == Modulus(4)
  {
  }

  lemma NzMeans(v: u32)
    ensures var f := NzFlags(v, 4); NZ(f, v, 4) && !f.v
    ensures forall x, v', c :: NZ(NzFlags(v, 4).(x := x, v := v', c := c), v, 4)
  {
  }

  // ----- Blocks and interpreter -----

  /** The kinds described here; the logical operations are in LogicLaws, indexed LEA in IndexedLaws. */
  predicate Described(k: Kind) {
    k.Arith? || k.Cmp? || k.QuickDn? || k.Neg? || Moves(k) || Computes(k)
  }

  ghost predicate Means(k: Kind, op: bv16, ext: bv16, r: Regfile, t: Regfile)
    requires Described(k)
  {
    if k.Arith? || k.Cmp? || k.QuickDn? || k.Neg? then ArithMeans(k, op, r, t)
    else if Moves(k) then MoveMeans(k, op, ext, r, t)
    else ComputeMeans(k, op, r, t)
  }

  /** What a block's operation computes, flags included when it keeps them. */
  lemma BlockMeans(insn: Insn, pc: u32, needs: bool, r: Regfile)
    requires Described(insn.kind)
    ensures var o := BuildOp(insn, pc, needs);
            && Means(insn.kind, insn.opcode, insn.ext, r, Apply(o, r))
            && ApplyGuarded(o, r).D == Apply(o, r).D && ApplyGuarded(o, r).A == Apply(o, r).A
            && ApplyGuarded(o, r).ccr == if needs || insn.kind.Cmp? then Apply(o, r).ccr else r.ccr
  {
    hide Apply, BuildOp, ArithMeans, MoveMeans, ComputeMeans;
    BuiltNeeds(insn, pc, needs);
    var k := insn.kind;
    if k.Arith? || k.Cmp? || k.QuickDn? || k.Neg? {
      ArithIs(insn, pc, needs, r);
    } else if Moves(k) {
      MoveIs(insn, pc, needs, r);
    } else if k.Clr? || k.Tst? || k.Not? {
      UnaryIs(insn, pc, needs, r);
    } else if k.SwapDn? || k.ExtW? || k.ExtL? || k.ExtbL? {
      ExtendIs(insn, pc, needs, r);
    } else if k.Mulu? || k.Muls? {
      MulIs(insn, pc, needs, r);
    } else if k.Btst? {
      BtstIs(insn, pc, needs, r);
    } else {
      ShiftIs(insn, pc, needs, r);
    }
  }

  /** What the interpreter's step computes. */
  lemma StepMeans(env: Env, s: State, insn: Insn)
    requires Encodes(env, s.pc, insn) && Described(insn.kind)
    ensures Step(env, s).Some?
    ensures var t := Step(env, s).value;
            Means(insn.kind, insn.opcode, insn.ext, RegsOf(s), RegsOf(t)) && t.mem == s.mem && t.pc == Wrap(s.pc + insn.len)
  {
    hide Encodes, Step, BuildOp, Apply, Means;
    AreRegister(insn.kind);
    RegisterRefines(env, s, insn, true);
    BlockMeans(insn, s.pc, true, RegsOf(s));
    MeansFlags(insn.kind, insn.opcode, insn.ext, RegsOf(s), Apply(BuildOp(insn, s.pc, true), RegsOf(s)), RegsOf(Step(env, s).value));
  }

  lemma AreRegister(k: Kind)
    requires Described(k)
    ensures k.IsRegister()
  {
  }

  /** All of this is about the five flags, not about the unused bits. */
  lemma MeansFlags(k: Kind, op: bv16, ext: bv16, r: Regfile, t: Regfile, u: Regfile)
    requires Described(k) && Means(k, op, ext, r, t) && SameRegs(t, u)
    ensures Means(k, op, ext, r, u)
  {
    hide ArithMeans, MoveMeans, ComputeMeans;
    if k.Arith? || k.Cmp? || k.QuickDn? || k.Neg? {
      ArithFlags(k, op, r, t, u);
    } else if Moves(k) {
      MovingFlags(k, op, ext, r, t, u);
    } else {
      ComputeFlags(k, op, r, t, u);
    }
  }

  lemma ArithFlags(k: Kind, op: bv16, r: Regfile, t: Regfile, u: Regfile)
    requires (k.Arith? || k.Cmp? || k.QuickDn? || k.Neg?) && ArithMeans(k, op, r, t) && SameRegs(t, u)
    ensures ArithMeans(k, op, r, u)
  {
    hide Range, Two, Fits, LowReplaced, Hi, Lo, Count;
  }

  lemma MovingFlags(k: Kind, op: bv16, ext: bv16, r: Regfile, t: Regfile, u: Regfile)
    requires Moves(k) && MoveMeans(k, op, ext, r, t) && SameRegs(t, u)
    ensures MoveMeans(k, op, ext, r, u)
  {
    hide Range, Hi, Lo, Count, ByteOf, SignedExt;
  }

  lemma ComputeFlags(k: Kind, op: bv16, r: Regfile, t: Regfile, u: Regfile)
    requires Computes(k) && ComputeMeans(k, op, r, t) && SameRegs(t, u)
    ensures ComputeMeans(k, op, r, u)
  {
    hide Range, Two, LowReplaced, Bit, Pow2, Hi, Lo, Count;
  }

  /** Executing a block of one such instruction. */
  lemma ExecuteMeans(b: Block, insn: Insn, pc: u32, c: DataCache, r: Regfile)
    requires b.Shaped() && b.ops == [BuildOp(insn, pc, true)] && Described(insn.kind)
    ensures Means(insn.kind, insn.opcode, insn.ext, r, Execute(b, c, r).r)
  {
    hide BuildOp, Apply, Means;
    AreRegister(insn.kind);
    BuiltNeeds(insn, pc, true);
    BlockMeans(insn, pc, true, r);
    var t := ApplyGuarded(b.ops[0], r);
    assert ExecuteFrom(b, c, t, 1).r == t;
    assert t == Apply(b.ops[0], r);
  }
}
