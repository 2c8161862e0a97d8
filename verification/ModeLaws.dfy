/** What the addressing modes without an index mean, from the mode field of an opcode to the operand. */
module ModeLaws {
  import opened Machine
  import opened EffectiveAddress
  import opened IndexedLaws

  // ----- Mode and register fields -----

  /** The modes in the order of their codes; those from AbsShort on share mode 7. */
  const MODES := [DataReg, AddrReg, Indirect, PostInc, PreDec, Disp, Index, AbsShort, AbsLong, PcDisp, PcIndex, Immediate]

  predicate Encodes(o: Operand, mode: bv3, reg: bv3) {
    if mode < 7 then o.mode == MODES[mode as int] && o.reg == reg as int
    else reg < 5 && o.mode == MODES[7 + reg as int] && o.reg == 0
  }

  /** Decoding is exactly the inverse of that table; only registers 5 to 7 of mode 7 are invalid. */
  lemma DecodeExactly(mode: bv3, reg: bv3, o: Operand)
    ensures Decode(mode, reg) == Some(o) <==> Encodes(o, mode, reg)
    ensures Decode(mode, reg) == None <==> mode == 7 && reg >= 5
  {
  }

  // ----- Address registers -----

  /** How far an operand of n bytes moves An: A7 stays even. */
  function Stride(r: Reg, n: Size): nat {
    if n == 1 && r == 7 then 2 else n
  }

  /** (An)+ uses An and then raises it; no other register changes. */
  lemma PostIncMeans(env: Env, s: State, r: Reg, n: Size)
    ensures var a := ResolveAddress(env, s, Operand(PostInc, r), n);
            && a.value == s.A[r]
            && Wrap((a.s.A[r] as int) - s.A[r]) == Stride(r, n)
            && a.s == s.(A := s.A[r := a.s.A[r]])
  {
    hide Wrap;
    Raised(s.A[r], StepSize(r, n));
  }

  lemma Raised(x: u32, d: nat)
    requires d <= 4
    ensures Wrap(Wrap(x + d) - x) == d && Wrap(x - Wrap(x - d)) == d
  {
  }

  /** -(An) lowers An first and then uses it. */
  lemma PreDecMeans(env: Env, s: State, r: Reg, n: Size)
    ensures var a := ResolveAddress(env, s, Operand(PreDec, r), n);
            && Wrap((s.A[r] as int) - a.value) == Stride(r, n)
            && a.s == s.(A := s.A[r := a.value])
  {
    hide Wrap;
    Raised(s.A[r], StepSize(r, n));
  }

  /** (d16,An) and (d16,PC) are at a signed distance from the register and from the displacement itself. */
  lemma DisplacedMeans(env: Env, s: State, r: Reg, n: Size)
    ensures var d := SignedWord(env.code(s.pc));
            && ResolveAddress(env, s, Operand(Disp, r), n) == Got(Wrap(s.A[r] + d), s.(pc := Wrap(s.pc + 2)))
            && ResolveAddress(env, s, Operand(PcDisp, 0), n) == Got(Wrap(s.pc + d), s.(pc := Wrap(s.pc + 2)))
  {
    hide Wrap, SignedWord, Disp16;
    WordSign(env.code(s.pc));
  }

  /** Absolute addresses: a signed word, or a long, high word first. */
  lemma AbsoluteMeans(env: Env, s: State, n: Size)
    ensures ResolveAddress(env, s, Operand(AbsShort, 0), n)
         == Got(Wrap(SignedWord(env.code(s.pc))), s.(pc := Wrap(s.pc + 2)))
    ensures ResolveAddress(env, s, Operand(AbsLong, 0), n)
         == Got(LongAt(env, s.pc), s.(pc := Wrap(Wrap(s.pc + 2) + 2)))
  {
    hide Wrap, SignedWord, Disp16;
    WordSign(env.code(s.pc));
    LongMeans(env, s);
  }

  // ----- Immediate operands -----

  /** The bytes at the PC are those of the next two instruction words. */
  predicate CodeInMemory(env: Env, s: State) {
    && ReadWord(s.mem, s.pc) == env.code(s.pc) as int
    && ReadWord(s.mem, Wrap(s.pc + 2)) == env.code(Wrap(s.pc + 2)) as int
  }

  /**
    A word or long immediate is what (An)+ reads when An holds the PC, and the PC moves as An would;
    a byte is the second byte of its word.
  */
  lemma ImmediateIsPostInc(env: Env, s: State, r: Reg, n: Size)
    requires CodeInMemory(env, s)
    ensures var i := ReadValue(env, s, Operand(Immediate, 0), n);
            var p := ReadValue(env, s.(A := s.A[r := s.pc]), Operand(PostInc, r), if n == 1 then 2 else n);
            && i.value == (if n == 1 then s.mem(Wrap(s.pc + 1)) else p.value)
            && i.s == s.(pc := p.s.A[r])
  {
    hide ReadWord, Wrap;
    ImmediateParts(env, s, n);
    TwoWords(s.pc);
    LowWord(env.code(s.pc));
    var t := s.(A := s.A[r := s.pc]);
    assert t.A[r] == s.pc;
    if n == 1 {
      SecondByte(s.mem, s.pc);
    }
  }

  lemma ImmediateParts(env: Env, s: State, n: Size)
    ensures ReadValue(env, s, Operand(Immediate, 0), n)
         == if n == 4 then Got(LongAt(env, s.pc), s.(pc := Wrap(Wrap(s.pc + 2) + 2)))
            else Got(Low(env.code(s.pc) as int, n), s.(pc := Wrap(s.pc + 2)))
  {
    hide Wrap, LongAt, Low;
    LongMeans(env, s);
    LongEnds(env, s);
  }

  lemma LongEnds(env: Env, s: State)
    ensures FetchLong(env, s).s == s.(pc := Wrap(Wrap(s.pc + 2) + 2))
  {
  }

  lemma LowWord(w: bv16)
    ensures Low(w as int, 2) == w as int
  {
  }

  lemma TwoWords(pc: u32)
    ensures Wrap(Wrap(pc + 2) + 2) == Wrap(pc + 4)
  {
  }

  lemma SecondByte(m: Memory, a: u32)
    ensures Low(ReadWord(m, a), 1) == m(Wrap(a + 1))
  {
  }

  // ----- Register operands -----

  /**
    A register operand is the low n bytes of Dn, or of An for words; writing replaces exactly those
    bytes of Dn, but all of An, extending a word with its sign.
  */
  lemma RegisterOperands(env: Env, s: State, r: Reg, n: Size, v: u32)
    ensures var d := Operand(DataReg, r);
            && ReadValue(env, s, d, n) == Got(s.D[r] % Modulus(n), s)
            && var t := WriteValue(env, s, d, n, v);
               && t == s.(D := s.D[r := t.D[r]])
               && t.D[r] % Modulus(n) == v % Modulus(n)
               && t.D[r] / Modulus(n) == s.D[r] / Modulus(n)
    ensures var a := Operand(AddrReg, r);
            && (n != 1 ==> ReadValue(env, s, a, n) == Got(s.A[r] % Modulus(n), s))
            && var t := WriteValue(env, s, a, n, v);
               && t == s.(A := s.A[r := t.A[r]])
               && (n == 4 ==> t.A[r] == v)
               && (n == 2 ==> t.A[r] == Wrap(if v % 0x1_0000 < 0x8000 then v % 0x1_0000 else v % 0x1_0000 - 0x1_0000))
  {
    hide Wrap, Merge, SignExtend, SignedWord;
    Merged(s.D[r], v, n);
    Whole(s.A[r]);
    if n == 2 {
      Extended(v);
    }
  }

  lemma Whole(x: u32)
    ensures x % Modulus(4) == x
  {
  }

  lemma Merged(was: u32, v: u32, n: Size)
    ensures Merge(was, v, n) % Modulus(n) == v % Modulus(n)
    ensures Merge(was, v, n) / Modulus(n) == was / Modulus(n)
  {
  }

  lemma Extended(v: u32)
    ensures SignExtend(v, 2) == Wrap(if v % 0x1_0000 < 0x8000 then v % 0x1_0000 else v % 0x1_0000 - 0x1_0000)
  {
  }
}
