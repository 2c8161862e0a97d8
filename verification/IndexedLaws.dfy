/** What the indexed and memory-indirect forms, and the forms without a register, resolve to. */
module IndexedLaws {
  import opened Machine
  import opened Bits
  import opened EffectiveAddress
  import opened AddressingLaws

  // ----- Parts of an address -----

  function SignedWord(w: bv16): int {
    if w & 0x8000 != 0 then (w as int) - 0x1_0000 else w as int
  }

  /** The displacement of the given width stored at pc: none, a signed word, or a long. */
  function DisplacementAt(env: Env, pc: u32, width: bv16): int {
    if width == 2 then SignedWord(env.code(pc))
    else if width == 3 then LongAt(env, pc)
    else 0
  }

  function LongAt(env: Env, pc: u32): int {
    (env.code(pc) as int) * 0x1_0000 + (env.code(Wrap(pc + 2)) as int)
  }

  lemma WordSign(w: bv16)
    ensures SignedWord(w) == Disp16(w)
  {
    assert w & 0x8000 != 0 <==> w >= 0x8000;
  }

  lemma DisplacementMeans(env: Env, s: State, width: bv16)
    ensures FetchDisplacement(env, s, width).value == Wrap(DisplacementAt(env, s.pc, width))
  {
    hide SignedWord, Disp16, Wrap, FetchLong, FetchDisplacement, LongAt;
    FetchedDisplacement(env, s, width);
    WordSign(env.code(s.pc));
    LongMeans(env, s);
    Nought();
  }

  lemma FetchedDisplacement(env: Env, s: State, width: bv16)
    ensures FetchDisplacement(env, s, width).value
         == if width == 2 then Wrap(Disp16(env.code(s.pc))) else if width == 3 then FetchLong(env, s).value else 0
  {
    hide FetchLong, Disp16, Wrap;
  }

  lemma LongMeans(env: Env, s: State)
    ensures FetchLong(env, s).value == LongAt(env, s.pc) == Wrap(LongAt(env, s.pc))
  {
    LongFits(env.code(s.pc), env.code(Wrap(s.pc + 2)));
    hide Wrap;
  }

  lemma LongFits(hi: bv16, lo: bv16)
    ensures Wrap((hi as int) * 0x1_0000 + (lo as int)) == (hi as int) * 0x1_0000 + (lo as int)
  {
  }

  lemma Nought()
    ensures Wrap(0) == 0
  {
  }

  /** The index word: which register, whether all of it counts, and the scale as a power of two. */
  function IndexWord(isAddress: bool, reg: bv16, isLong: bool, scale: bv16, rest: bv16): bv16 {
    (if isAddress then 0x8000 else 0) | (reg << 12) | (if isLong then 0x0800 else 0) | (scale << 9) | rest
  }

  lemma IndexMeans(s: State, isAddress: bool, reg: bv16, isLong: bool, scale: bv16, rest: bv16)
    requires reg <= 7 && scale <= 3 && rest <= 0x01FF
    ensures var v: int := if isAddress then s.A[reg as int] else s.D[reg as int];
            var x := if isLong then (if v >= 0x8000_0000 then v - 0x1_0000_0000 else v)
                     else (if v % 0x1_0000 >= 0x8000 then v % 0x1_0000 - 0x1_0000 else v % 0x1_0000);
            IndexValue(s, IndexWord(isAddress, reg, isLong, scale, rest))
            == x * (if scale == 0 then 1 else if scale == 1 then 2 else if scale == 2 then 4 else 8)
  {
    IndexFields(isAddress, reg, isLong, scale, rest);
    SmallReg(reg);
    hide IndexWord;
  }

  lemma IndexFields(isAddress: bool, reg: bv16, isLong: bool, scale: bv16, rest: bv16)
    requires reg <= 7 && scale <= 3 && rest <= 0x01FF
    ensures var e := IndexWord(isAddress, reg, isLong, scale, rest);
            && (e & 0x8000 != 0 <==> isAddress) && (e & 0x0800 != 0 <==> isLong)
            && (e >> 12) & 7 == reg && (e >> 9) & 3 == scale
  {
  }

  lemma SmallReg(reg: bv16)
    requires reg <= 7
    ensures (reg as bv3) as int == reg as int
  {
  }

  // ----- Full extension words -----

  function BaseWidth(e: bv16): bv16 { (e >> 4) & 3 }

  /** What is left of base and index after suppression. */
  function BaseOf(e: bv16, base: u32): int { if e & 0x0080 != 0 then 0 else base }
  function IndexOf(s: State, e: bv16): int { if e & 0x0040 != 0 then 0 else IndexValue(s, e) }

  /** Without memory indirection: the sum of what is not suppressed. */
  lemma PlainAddress(env: Env, s: State, base: u32)
    requires env.code(s.pc) & 0x0107 == 0x0100
    ensures var e := env.code(s.pc);
            ResolveIndexed(env, s, base).value
            == Wrap(BaseOf(e, base) + DisplacementAt(env, Wrap(s.pc + 2), BaseWidth(e)) + IndexOf(s, e))
  {
    hide Wrap, IndexValue, FetchDisplacement, DisplacementAt, Disp8, ReadLong, BaseWidth;
    var e, s1 := env.code(s.pc), FetchWord(env, s).s;
    PlainFields(e);
    SameIndex(s, s1, e);
    DisplacementMeans(env, s1, BaseWidth(e));
    WrapMiddle(BaseOf(e, base), DisplacementAt(env, s1.pc, BaseWidth(e)), IndexOf(s, e));
  }

  lemma PlainFields(e: bv16)
    requires e & 0x0107 == 0x0100
    ensures e & 0x0100 != 0 && e & 7 == 0 && BaseWidth(e) == (e >> 4) & 3
  {
  }

  lemma SameIndex(s: State, t: State, e: bv16)
    requires s.D == t.D && s.A == t.A
    ensures IndexValue(s, e) == IndexValue(t, e)
  {
  }

  lemma WrapMiddle(a: int, d: int, x: int)
    ensures Wrap(a + Wrap(d) + x) == Wrap(a + d + x)
  {
  }

  function OuterAt(env: Env, pc: u32, e: bv16): int {
    DisplacementAt(env, Wrap(pc + 2 + DisplacementBytes(BaseWidth(e))), e & 3)
  }

  lemma OuterMeans(env: Env, s: State)
    ensures var e, s1 := env.code(s.pc), FetchWord(env, s).s;
            var bd := FetchDisplacement(env, s1, BaseWidth(e));
            && bd.value == Wrap(DisplacementAt(env, Wrap(s.pc + 2), BaseWidth(e)))
            && FetchDisplacement(env, bd.s, e & 7 & 3).value == Wrap(OuterAt(env, s.pc, e))
            && bd.s.mem == s.mem && IndexValue(s1, e) == IndexValue(s, e)
  {
    var e, s1 := env.code(s.pc), FetchWord(env, s).s;
    hide FetchDisplacement, DisplacementAt, DisplacementBytes, Wrap, BaseWidth;
    SameIndex(s, s1, e);
    hide IndexValue;
    DisplacementTakes(env, s1, BaseWidth(e));
    WrapWrap(s.pc + 2, DisplacementBytes(BaseWidth(e)));
    OuterWidth(e);
    DisplacementMeans(env, s1, BaseWidth(e));
    DisplacementMeans(env, FetchDisplacement(env, s1, BaseWidth(e)).s, e & 3);
  }

  /** Post-indexed: base and displacement are indirected; the index and the outer displacement are added after. */
  lemma PostAddress(env: Env, s: State, base: u32)
    requires env.code(s.pc) & 0x0104 == 0x0104
    ensures var e := env.code(s.pc);
            ResolveIndexed(env, s, base).value
            == Wrap(ReadLong(s.mem, Wrap(BaseOf(e, base) + DisplacementAt(env, Wrap(s.pc + 2), BaseWidth(e))))
                    + IndexOf(s, e) + OuterAt(env, s.pc, e))
  {
    hide FetchDisplacement, Wrap, IndexValue, ReadLong, DisplacementAt, OuterAt;
    var e, s1 := env.code(s.pc), FetchWord(env, s).s;
    IndirectBits(e);
    OuterMeans(env, s);
    WrapSum(BaseOf(e, base), DisplacementAt(env, Wrap(s.pc + 2), BaseWidth(e)));
    var at := ReadLong(s.mem, Wrap(BaseOf(e, base) + DisplacementAt(env, Wrap(s.pc + 2), BaseWidth(e))));
    WrapSum(at + IndexOf(s, e), OuterAt(env, s.pc, e));
  }

  /** Pre-indexed: base, displacement and index are indirected; the outer displacement is added after. */
  lemma PreAddress(env: Env, s: State, base: u32)
    requires env.code(s.pc) & 0x0104 == 0x0100 && env.code(s.pc) & 3 != 0
    ensures var e := env.code(s.pc);
            ResolveIndexed(env, s, base).value
            == Wrap(ReadLong(s.mem, Wrap(BaseOf(e, base) + DisplacementAt(env, Wrap(s.pc + 2), BaseWidth(e)) + IndexOf(s, e)))
                    + OuterAt(env, s.pc, e))
  {
    hide FetchDisplacement, Wrap, IndexValue, ReadLong, DisplacementAt, OuterAt;
    var e, s1 := env.code(s.pc), FetchWord(env, s).s;
    IndirectBits(e);
    OuterMeans(env, s);
    WrapMiddle(BaseOf(e, base), DisplacementAt(env, Wrap(s.pc + 2), BaseWidth(e)), IndexOf(s, e));
    WrapSum(ReadLong(s.mem, Wrap(BaseOf(e, base) + DisplacementAt(env, Wrap(s.pc + 2), BaseWidth(e)) + IndexOf(s, e))),
            OuterAt(env, s.pc, e));
  }

  lemma IndirectBits(e: bv16)
    ensures e & 0x0104 == 0x0104 ==> e & 0x0100 != 0 && e & 7 != 0 && e & 7 & 4 != 0
    ensures e & 0x0104 == 0x0100 && e & 3 != 0 ==> e & 0x0100 != 0 && e & 7 != 0 && e & 7 & 4 == 0
  {
  }

  lemma WrapSum(a: int, d: int)
    ensures Wrap(a + Wrap(d)) == Wrap(a + d)
  {
  }

  // ----- The two indirect forms told apart -----

  lemma SameParts(e1: Env, e2: Env, pc: u32, a: bv16, b: bv16)
    requires SameAfter(e1, e2, pc) && BaseWidth(a) == BaseWidth(b) && a & 3 == b & 3
    ensures DisplacementAt(e1, Wrap(pc + 2), BaseWidth(a)) == DisplacementAt(e2, Wrap(pc + 2), BaseWidth(b))
    ensures OuterAt(e1, pc, a) == OuterAt(e2, pc, b)
  {
    hide Wrap, BaseWidth, DisplacementAt, SameAfter;
    NotBack(pc, DisplacementBytes(BaseWidth(a)));
    WrapWrap(pc + 2, DisplacementBytes(BaseWidth(a)));
    SameDisplacementAt(e1, e2, pc, Wrap(pc + 2), BaseWidth(a));
    SameDisplacementAt(e1, e2, pc, Wrap(pc + 2 + DisplacementBytes(BaseWidth(a))), a & 3);
  }

  lemma SameDisplacementAt(e1: Env, e2: Env, pc: u32, at: u32, width: bv16)
    requires SameAfter(e1, e2, pc) && at != pc && Wrap(at + 2) != pc
    ensures DisplacementAt(e1, at, width) == DisplacementAt(e2, at, width)
  {
    hide Wrap, SignedWord;
  }

  /**
    Pre-indexed: the address that the same word without indirection resolves to, index included, holds
    a long, to which the outer displacement is added.
  */
  lemma PreIndexedIndirects(env: Env, plain: Env, s: State, base: u32)
    requires env.code(s.pc) & 0x0104 == 0x0100 && env.code(s.pc) & 3 != 0
    requires plain.code(s.pc) == env.code(s.pc) & 0xFFF8 && SameAfter(env, plain, s.pc)
    ensures ResolveIndexed(env, s, base).value
         == Wrap(ReadLong(s.mem, ResolveIndexed(plain, s, base).value) + OuterAt(env, s.pc, env.code(s.pc)))
  {
    hide ResolveIndexed, Wrap, ReadLong, DisplacementAt, OuterAt, SameAfter, BaseWidth, BaseOf, IndexOf;
    var e, p := env.code(s.pc), plain.code(s.pc);
    PreFields(e);
    PreParts(s, e, base);
    SamePlain(env, plain, s.pc, e, p);
    PreAddress(env, s, base);
    PlainAddress(plain, s, base);
  }

  lemma SamePlain(e1: Env, e2: Env, pc: u32, a: bv16, b: bv16)
    requires SameAfter(e1, e2, pc) && BaseWidth(a) == BaseWidth(b)
    ensures DisplacementAt(e1, Wrap(pc + 2), BaseWidth(a)) == DisplacementAt(e2, Wrap(pc + 2), BaseWidth(b))
  {
    hide Wrap, BaseWidth, DisplacementAt, SameAfter;
    NotBack(pc, 0);
    SameDisplacementAt(e1, e2, pc, Wrap(pc + 2), BaseWidth(a));
  }

  lemma PreFields(e: bv16)
    requires e & 0x0104 == 0x0100 && e & 3 != 0
    ensures var p := e & 0xFFF8;
            && p & 0x0107 == 0x0100 && BaseWidth(p) == BaseWidth(e)
            && p & 0x0080 == e & 0x0080 && p & 0x0040 == e & 0x0040 && p & 0xFE00 == e & 0xFE00
  {
  }

  lemma PreParts(s: State, e: bv16, base: u32)
    requires e & 0x0104 == 0x0100 && e & 3 != 0
    ensures BaseOf(e & 0xFFF8, base) == BaseOf(e, base) && IndexOf(s, e & 0xFFF8) == IndexOf(s, e)
  {
    PreFields(e);
    SameIndexValue(s, e, e & 0xFFF8);
    hide IndexValue;
  }

  lemma SameIndexValue(s: State, e1: bv16, e2: bv16)
    requires e1 & 0xFE00 == e2 & 0xFE00
    ensures IndexValue(s, e1) == IndexValue(s, e2)
  {
    SameFields(e1, e2);
  }

  /**
    Post-indexed: the index is added after the indirection, so it is exactly the distance from the
    address with the index suppressed.
  */
  lemma PostIndexedAddsIndex(env: Env, unindexed: Env, s: State, base: u32)
    requires env.code(s.pc) & 0x0144 == 0x0104
    requires unindexed.code(s.pc) == env.code(s.pc) | 0x0040 && SameAfter(env, unindexed, s.pc)
    ensures Wrap(ResolveIndexed(env, s, base).value - ResolveIndexed(unindexed, s, base).value)
         == Wrap(IndexValue(s, env.code(s.pc)))
  {
    hide ResolveIndexed, Wrap, IndexValue, ReadLong, DisplacementAt, OuterAt, SameAfter;
    var e, u := env.code(s.pc), unindexed.code(s.pc);
    PostFields(e);
    SameParts(env, unindexed, s.pc, e, u);
    PostAddress(env, s, base);
    PostAddress(unindexed, s, base);
    WrapDifference(ReadLong(s.mem, Wrap(BaseOf(e, base) + DisplacementAt(env, Wrap(s.pc + 2), BaseWidth(e)))),
                   IndexValue(s, e), OuterAt(env, s.pc, e));
  }

  lemma PostFields(e: bv16)
    requires e & 0x0144 == 0x0104
    ensures e & 0x0104 == 0x0104 && e & 0x0040 == 0
    ensures var u := e | 0x0040;
            && u & 0x0104 == 0x0104 && u & 0x0040 != 0 && u & 3 == e & 3 && BaseWidth(u) == BaseWidth(e)
            && u & 0x0080 == e & 0x0080
  {
  }

  lemma WrapDifference(a: int, x: int, d: int)
    ensures Wrap(Wrap(a + x + d) - Wrap(a + 0 + d)) == Wrap(x)
  {
  }

  /** A concrete indirection: the two forms of one operand are different addresses. */
  lemma TheFormsDiffer(pre: Env, post: Env, s: State)
    requires pre.code(s.pc) == 0x0911 && post.code(s.pc) == 0x0915
    requires s.D[0] == 8 && ReadLong(s.mem, 0x1008) == 0x2000 && ReadLong(s.mem, 0x1000) == 0x5000
    ensures ResolveIndexed(pre, s, 0x1000).value == 0x2000 && ResolveIndexed(post, s, 0x1000).value == 0x5008
  {
    hide ResolveIndexed, IndexValue, ReadLong, IndexWord, BaseWidth;
    IndexMeans(s, false, 0, true, 0, 0x0111);
    IndexMeans(s, false, 0, true, 0, 0x0115);
    ExampleWords();
    PreAddress(pre, s, 0x1000);
    PostAddress(post, s, 0x1000);
  }

  lemma ExampleWords()
    ensures IndexWord(false, 0, true, 0, 0x0111) == 0x0911 && IndexWord(false, 0, true, 0, 0x0115) == 0x0915
    ensures BaseWidth(0x0911) == 1 && BaseWidth(0x0915) == 1
  {
  }

  // ----- Operands without a base register -----

  /** PC-relative operands are register-relative ones whose register holds the address of the extension word. */
  lemma PcIsBase(env: Env, s: State, r: Reg, n: nat)
    ensures var t := s.(A := s.A[r := s.pc]);
            ResolveAddress(env, s, Operand(PcDisp, 0), n).value == ResolveAddress(env, t, Operand(Disp, r), n).value
  {
    hide Wrap, Disp16;
  }

  /** An indexed address depends on the state through the index, the PC and memory only. */
  lemma IndexedDepends(env: Env, s: State, t: State, base: u32)
    requires s.pc == t.pc && s.mem == t.mem && IndexValue(s, env.code(s.pc)) == IndexValue(t, env.code(s.pc))
    ensures ResolveIndexed(env, s, base).value == ResolveIndexed(env, t, base).value
  {
    hide Wrap, IndexValue, ReadLong, DisplacementAt, OuterAt, FetchDisplacement, Disp8;
    var e := env.code(s.pc);
    FormOf(e);
    if e & 0x0100 == 0 {
      BriefAddress(env, s, base);
      BriefAddress(env, t, base);
    } else if e & 0x0107 == 0x0100 {
      PlainAddress(env, s, base);
      PlainAddress(env, t, base);
    } else if e & 0x0104 == 0x0100 {
      PreAddress(env, s, base);
      PreAddress(env, t, base);
    } else {
      PostAddress(env, s, base);
      PostAddress(env, t, base);
    }
    hide ResolveIndexed;
  }

  lemma FormOf(e: bv16)
    ensures e & 0x0104 == 0x0100 && e & 0x0107 != 0x0100 ==> e & 3 != 0
    ensures e & 0x0100 != 0 && e & 0x0104 != 0x0100 ==> e & 0x0104 == 0x0104
  {
  }

  lemma BriefAddress(env: Env, s: State, base: u32)
    requires env.code(s.pc) & 0x0100 == 0
    ensures ResolveIndexed(env, s, base).value == Wrap(base + Disp8(env.code(s.pc)) + IndexValue(s, env.code(s.pc)))
  {
    SameIndex(s, FetchWord(env, s).s, env.code(s.pc));
    hide Wrap, IndexValue, FetchDisplacement, Disp8, ReadLong;
  }

  /** PC-relative indexing likewise, when the index is not the register that stands for the PC. */
  lemma PcIndexIsBase(env: Env, s: State, r: Reg, n: nat)
    requires env.code(s.pc) & 0x8000 == 0
    ensures var t := s.(A := s.A[r := s.pc]);
            ResolveAddress(env, s, Operand(PcIndex, 0), n).value == ResolveAddress(env, t, Operand(Index, r), n).value
  {
    var t := s.(A := s.A[r := s.pc]);
    DataIndex(s, t, env.code(s.pc));
    hide ResolveIndexed, IndexValue;
    IndexedDepends(env, s, t, s.pc);
  }

  lemma DataIndex(s: State, t: State, e: bv16)
    requires s.D == t.D && e & 0x8000 == 0
    ensures IndexValue(s, e) == IndexValue(t, e)
  {
  }

  /** An absolute short address is the absolute long one with the word sign-extended. */
  lemma ShortIsLong(short: Env, long: Env, s: State, n: nat)
    requires long.code(s.pc) == (if short.code(s.pc) & 0x8000 != 0 then 0xFFFF else 0x0000)
    requires long.code(Wrap(s.pc + 2)) == short.code(s.pc)
    ensures ResolveAddress(short, s, Operand(AbsShort, 0), n).value == ResolveAddress(long, s, Operand(AbsLong, 0), n).value
  {
    hide ResolveIndexed, FetchDisplacement, Disp16, Wrap;
    WordSign(short.code(s.pc));
    ShortValue(short.code(s.pc), long.code(s.pc));
  }

  lemma ShortValue(w: bv16, hi: bv16)
    requires hi == (if w & 0x8000 != 0 then 0xFFFF else 0x0000)
    ensures Wrap(SignedWord(w)) == (hi as int) * 0x1_0000 + (w as int)
  {
    hide Wrap;
    var v := w as int;
    Sixteen(v);
    if w & 0x8000 != 0 {
      assert hi == 0xFFFF;
      assert (0xFFFF as bv16) as int == 0xFFFF;
    } else {
      assert hi == 0;
      assert (0 as bv16) as int == 0;
    }
  }

  lemma Sixteen(v: int)
    requires 0 <= v < 0x1_0000
    ensures Wrap(v) == v && Wrap(v - 0x1_0000) == 0xFFFF_0000 + v
  {
  }
}
