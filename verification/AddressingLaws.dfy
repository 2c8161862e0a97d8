/** What effective addresses promise: stacks behave like stacks, and read-modify-write resolves once. */
module AddressingLaws {
  import opened Machine
  import opened EffectiveAddress

  // ----- Stacks -----

  datatype Item = Item(size: Size, value: u32)

  /** Writes the items, first to last, through -(An). */
  function Pushes(env: Env, s: State, reg: Reg, items: seq<Item>): State
    decreases |items|
  {
    if items == [] then s
    else Pushes(env, WriteValue(env, s, Operand(PreDec, reg), items[0].size, items[0].value), reg, items[1..])
  }

  datatype Popped = Popped(values: seq<u32>, s: State)

  /** Reads values of the given sizes, first to last, through (An)+. */
  function Pops(env: Env, s: State, reg: Reg, sizes: seq<Size>): Popped
    decreases |sizes|
  {
    if sizes == [] then Popped([], s)
    else
      var got := ReadValue(env, s, Operand(PostInc, reg), sizes[0]);
      var rest := Pops(env, got.s, reg, sizes[1..]);
      Popped([got.value] + rest.values, rest.s)
  }

  function Bytes(reg: Reg, items: seq<Item>): nat {
    if items == [] then 0 else StepSize(reg, items[0].size) + Bytes(reg, items[1..])
  }

  function SizesBackwards(items: seq<Item>): seq<Size> {
    if items == [] then [] else SizesBackwards(items[1..]) + [items[0].size]
  }

  function ValuesBackwards(items: seq<Item>): seq<u32> {
    if items == [] then [] else ValuesBackwards(items[1..]) + [Low(items[0].value, items[0].size)]
  }

  lemma {:induction false} PopsAppend(env: Env, s: State, reg: Reg, sizes: seq<Size>, last: Size)
    ensures var p := Pops(env, s, reg, sizes);
            var q := ReadValue(env, p.s, Operand(PostInc, reg), last);
            Pops(env, s, reg, sizes + [last]) == Popped(p.values + [q.value], q.s)
    decreases |sizes|
  {
    hide ReadValue;
    if sizes == [] {
      assert [last][1..] == [];
    } else {
      assert (sizes + [last])[1..] == sizes[1..] + [last];
      PopsAppend(env, ReadValue(env, s, Operand(PostInc, reg), sizes[0]).s, reg, sizes[1..], last);
    }
  }

  /** The memories agree outside the depth bytes below top. */
  ghost predicate SameOutside(m: Memory, mem: Memory, top: u32, depth: nat) {
    forall x: u32 :: Above(x, Wrap(top - depth)) >= depth ==> m(x) == mem(x)
  }

  /** The state is s, except for memory below the stack pointer. */
  ghost predicate OnlyBelow(t: State, s: State, top: u32, depth: nat) {
    t.D == s.D && t.A == s.A && t.pc == s.pc && t.ccr == s.ccr && SameOutside(t.mem, s.mem, top, depth)
  }

  /**
    Whatever is pushed through -(An) comes back through (An)+, last first and truncated to its size,
    and An returns to where it was, as long as the items fit in the address space.  Bytes take two
    places on the stack pointer.
  */
  lemma {:induction false} PopsUndoPushes(env: Env, s: State, reg: Reg, items: seq<Item>)
    requires Bytes(reg, items) <= 0x1_0000_0000
    ensures var p := Pops(env, Pushes(env, s, reg, items), reg, SizesBackwards(items));
            p.values == ValuesBackwards(items) && OnlyBelow(p.s, s, s.A[reg], Bytes(reg, items))
    decreases |items|
  {
    hide ReadValue, WriteValue;
    if items != [] {
      var s1 := WriteValue(env, s, Operand(PreDec, reg), items[0].size, items[0].value);
      PopsUndoPushes(env, s1, reg, items[1..]);
      var sizes := SizesBackwards(items[1..]);
      PopsAppend(env, Pushes(env, s1, reg, items[1..]), reg, sizes, items[0].size);
      var p := Pops(env, Pushes(env, s1, reg, items[1..]), reg, sizes);
      PopOne(env, s, p.s, reg, items[0], Bytes(reg, items[1..]));
    }
  }

  /** Popping the item pushed first, after everything above it is gone. */
  lemma PopOne(env: Env, s: State, t: State, reg: Reg, item: Item, depth: nat)
    requires var s1 := WriteValue(env, s, Operand(PreDec, reg), item.size, item.value);
             OnlyBelow(t, s1, s1.A[reg], depth)
    requires depth + StepSize(reg, item.size) <= 0x1_0000_0000
    ensures var got := ReadValue(env, t, Operand(PostInc, reg), item.size);
            && got.value == Low(item.value, item.size)
            && OnlyBelow(got.s, s, s.A[reg], depth + StepSize(reg, item.size))
  {
    var step := StepSize(reg, item.size);
    var top: int := s.A[reg];
    var a := Wrap(top - step);
    Back(top, step);
    PushEffect(env, s, reg, item);
    PopEffect(env, t, reg, item.size);
    Outside(t.mem, s.mem, top, depth, step, item);
    hide Read, Write, Low, Wrap, SameOutside, WriteValue, ReadValue, StepSize, Above;
  }

  lemma PushEffect(env: Env, s: State, reg: Reg, item: Item)
    ensures var a := Wrap(s.A[reg] - StepSize(reg, item.size));
            WriteValue(env, s, Operand(PreDec, reg), item.size, item.value)
            == s.(A := s.A[reg := a], mem := Write(s.mem, a, item.value, item.size))
  {
  }

  lemma PopEffect(env: Env, s: State, reg: Reg, n: Size)
    ensures ReadValue(env, s, Operand(PostInc, reg), n)
            == Got(Read(s.mem, s.A[reg], n), s.(A := s.A[reg := Wrap(s.A[reg] + StepSize(reg, n))]))
  {
  }

  /** What the pushed bytes and the bytes around them hold after the deeper items are gone. */
  lemma Outside(m: Memory, mem: Memory, top: u32, depth: nat, step: nat, item: Item)
    requires item.size <= step && depth + step <= 0x1_0000_0000
    requires SameOutside(m, Write(mem, Wrap(top - step), item.value, item.size), Wrap(top - step), depth)
    ensures Read(m, Wrap(top - step), item.size) == Low(item.value, item.size)
    ensures SameOutside(m, mem, top, depth + step)
  {
    var n, a := item.size, Wrap(top - step);
    var written := Write(mem, a, item.value, n);
    hide Read, Write, Low, Wrap, Above;
    ReadAfterWrite(mem, a, item.value, n);
    forall x: u32 | Above(x, a) < n
      ensures m(x) == written(x)
    {
      BelowAndAbove(x, a, depth, n);
    }
    ReadFrame(m, written, a, n);
    forall x: u32 | Above(x, Wrap(top - (depth + step))) >= depth + step
      ensures m(x) == mem(x)
    {
      Deeper(x, top, depth, step);
      WriteFrame(mem, a, item.value, n, x);
    }
  }

  lemma Back(top: u32, step: nat)
    ensures Wrap(Wrap(top - step) + step) == top
  {
  }

  /** The n bytes from a on are not among the depth bytes below a. */
  lemma BelowAndAbove(x: u32, a: u32, depth: nat, n: nat)
    requires Above(x, a) < n && depth + n <= 0x1_0000_0000
    ensures Above(x, Wrap(a - depth)) >= depth
  {
  }

  lemma Deeper(x: u32, top: u32, depth: nat, step: nat)
    requires depth + step <= 0x1_0000_0000
    requires Above(x, Wrap(top - (depth + step))) >= depth + step
    ensures Above(x, Wrap(top - step)) >= step && Above(x, Wrap(Wrap(top - step) - depth)) >= depth
  {
    var d: int := depth;
    WrapWrap(top - step, -d);
    Nearer(x, top, depth, step);
    WrapLess(top, depth, step);
    hide Above, Wrap;
  }

  lemma WrapLess(top: u32, depth: nat, step: nat)
    ensures Wrap(top - step - depth) == Wrap(top - (depth + step))
  {
  }

  /** Adding to a modest residue does not wrap. */
  lemma Nearer(x: u32, top: u32, depth: nat, step: nat)
    requires depth + step <= 0x1_0000_0000
    requires Above(x, Wrap(top - (depth + step))) >= depth + step
    ensures Above(x, Wrap(top - step)) == Above(x, Wrap(top - (depth + step))) - depth
  {
    AboveWrapped(x, top - step);
    AboveWrapped(x, top - (depth + step));
    var y := Above(x, Wrap(top - (depth + step)));
    var far: int, d: int := x - (top - (depth + step)), depth;
    WrapWrap(far, -d);
    NoBorrow(y, depth);
    hide Wrap, Above;
    assert far - d == x - (top - step);
  }

  lemma NoBorrow(y: u32, depth: nat)
    requires depth <= y
    ensures Wrap(y - depth) == y - depth
  {
  }

  lemma AboveWrapped(x: u32, a: int)
    ensures Above(x, Wrap(a)) == Wrap(x - a)
  {
  }

  // ----- Read-modify-write -----

  /** Memory operands, whose address has to be resolved. */
  predicate InMemory(o: Operand) {
    o.mode != DataReg && o.mode != AddrReg && o.mode != Immediate
  }

  /** Up to the write, a read for modify is an ordinary read. */
  lemma ReadsTheSame(env: Env, s: State, o: Operand, n: Size)
    requires o.mode != Immediate
    ensures var m := ReadForModify(env, s, o, n); Got(m.value, m.s) == ReadValue(env, s, o, n)
  {
  }

  /**
    The pair resolves its address once: the write goes to the address that was read, leaves all other
    memory alone, and An and the PC end up as after the read alone.
  */
  lemma ModifyResolvesOnce(env: Env, s: State, o: Operand, n: Size, v: u32)
    requires InMemory(o)
    ensures var m := ReadForModify(env, s, o, n);
            var t := WriteFromModify(m.s, o, m.addr, n, v);
            && m.value == Read(s.mem, m.addr, n) && Read(t.mem, m.addr, n) == Low(v, n)
            && (forall x: u32 :: Above(x, m.addr) >= n ==> t.mem(x) == s.mem(x))
            && t.(mem := s.mem) == ReadValue(env, s, o, n).s
  {
    var m := ReadForModify(env, s, o, n);
    ResolveKeepsMemory(env, s, o, n);
    hide ResolveAddress, Read, Write, Low, Above;
    ReadAfterWrite(s.mem, m.addr, v, n);
    forall x: u32 | Above(x, m.addr) >= n
      ensures Write(s.mem, m.addr, v, n)(x) == s.mem(x)
    {
      WriteFrame(s.mem, m.addr, v, n, x);
    }
  }

  lemma ResolveKeepsMemory(env: Env, s: State, o: Operand, n: nat)
    ensures var a := ResolveAddress(env, s, o, n).s; a.mem == s.mem && a.D == s.D && a.ccr == s.ccr
  {
    hide Wrap, Disp8, Disp16, IndexValue, ReadLong;
  }

  /**
    Writing back what was read changes no byte of memory and no data register; it changes an address
    register exactly when a word is written back to one that does not hold a sign-extended word.
  */
  lemma WritingBackChangesNothing(env: Env, s: State, o: Operand, n: Size)
    ensures var m := ReadForModify(env, s, o, n);
            var t := WriteFromModify(m.s, o, m.addr, n, m.value);
            && t.D == s.D && t.pc == m.s.pc && t.ccr == s.ccr && (forall x :: t.mem(x) == s.mem(x))
            && (t.A == m.s.A <==> o.mode == AddrReg && n == 2 ==> SignExtend(s.A[o.reg], 2) == s.A[o.reg])
  {
    var m := ReadForModify(env, s, o, n);
    ResolveKeepsMemory(env, s, o, n);
    if o.mode == DataReg {
      MergeBack(s.D[o.reg], n);
    } else if o.mode == AddrReg {
      ExtendLow(s.A[o.reg]);
    } else {
      hide ResolveAddress;
      WriteBack(s.mem, m.addr, n);
    }
  }

  lemma ExtendLow(v: u32)
    ensures SignExtend(Low(v, 2), 2) == SignExtend(v, 2)
  {
  }

  lemma MergeBack(v: u32, n: Size)
    ensures Merge(v, Low(v, n), n) == v
  {
  }

  lemma WordBack(m: Memory, mem: Memory, a: u32)
    requires forall x :: m(x) == mem(x)
    ensures forall x :: WriteWord(m, a, ReadWord(mem, a))(x) == mem(x)
  {
  }

  lemma WriteBack(mem: Memory, a: u32, n: Size)
    ensures forall x :: Write(mem, a, Read(mem, a, n), n)(x) == mem(x)
  {
    WordBack(mem, mem, a);
    var hi: int, lo: int := ReadWord(mem, a), ReadWord(mem, Wrap(a + 2));
    assert (hi * 0x1_0000 + lo) / 0x1_0000 == hi && (hi * 0x1_0000 + lo) % 0x1_0000 == lo;
    assert mem(a) % 0x100 == mem(a) && hi % 0x1_0000 == hi;
    WordBack(WriteWord(mem, a, hi), mem, Wrap(a + 2));
    hide Wrap, ReadWord, WriteWord;
  }

  /**
    Resolving a second time would go wrong: writing through (An)+ or -(An) with WriteValue after a read
    moves An again.
  */
  lemma ResolvingTwiceDiffers(env: Env, s: State, o: Operand, n: Size, v: u32)
    requires o.mode == PostInc || o.mode == PreDec
    ensures var m := ReadForModify(env, s, o, n);
            WriteValue(env, m.s, o, n, v).A[o.reg] != WriteFromModify(m.s, o, m.addr, n, v).A[o.reg]
  {
    hide Read, Write;
  }

  // ----- Extension words -----

  function DisplacementBytes(width: bv16): nat {
    if width == 2 then 2 else if width == 3 then 4 else 0
  }

  /** How much of the instruction stream an indexed operand takes, judged by its first word. */
  function ExtensionBytes(ext: bv16): nat {
    if ext & 0x0100 == 0 then 2
    else 2 + DisplacementBytes((ext >> 4) & 3) + if ext & 7 == 0 then 0 else DisplacementBytes(ext & 3)
  }

  lemma DisplacementTakes(env: Env, s: State, width: bv16)
    ensures FetchDisplacement(env, s, width).s == s.(pc := Wrap(s.pc + DisplacementBytes(width)))
  {
    WrapWrap(s.pc + 2, 2);
  }

  /** Resolving an indexed operand moves the PC over exactly its extension words and changes nothing else. */
  lemma ExtensionConsumed(env: Env, s: State, base: u32)
    ensures ResolveIndexed(env, s, base).s == s.(pc := Wrap(s.pc + ExtensionBytes(env.code(s.pc))))
  {
    hide FetchDisplacement, Wrap, IndexValue, Disp8, ReadLong, DisplacementBytes;
    var ext, s1 := env.code(s.pc), FetchWord(env, s).s;
    var bd := FetchDisplacement(env, s1, (ext >> 4) & 3);
    DisplacementTakes(env, s1, (ext >> 4) & 3);
    DisplacementTakes(env, bd.s, ext & 7 & 3);
    OuterWidth(ext);
    WrapWrap(s.pc + 2, DisplacementBytes((ext >> 4) & 3));
    WrapWrap(s.pc + 2 + DisplacementBytes((ext >> 4) & 3), DisplacementBytes(ext & 3));
  }

  lemma OuterWidth(ext: bv16)
    ensures ext & 7 & 3 == ext & 3
  {
  }

  /** Instruction streams that differ only in the word at pc. */
  ghost predicate SameAfter(e1: Env, e2: Env, pc: u32) {
    forall a: u32 :: a != pc ==> e1.code(a) == e2.code(a)
  }

  lemma SameDisplacement(e1: Env, e2: Env, s: State, width: bv16, pc: u32)
    requires SameAfter(e1, e2, pc) && s.pc != pc && Wrap(s.pc + 2) != pc
    ensures FetchDisplacement(e1, s, width) == FetchDisplacement(e2, s, width)
  {
  }

  /** The brief format is the full format with a word displacement of the same value. */
  lemma BriefIsFull(brief: Env, full: Env, s: State, base: u32)
    requires brief.code(s.pc) & 0x0100 == 0 && full.code(s.pc) & 0x01F7 == 0x0120
    requires brief.code(s.pc) & 0xFE00 == full.code(s.pc) & 0xFE00
    requires Disp16(full.code(Wrap(s.pc + 2))) == Disp8(brief.code(s.pc))
    ensures ResolveIndexed(brief, s, base).value == ResolveIndexed(full, s, base).value
  {
    var eb, ef := brief.code(s.pc), full.code(s.pc);
    FullFields(ef);
    SameIndexFields(s, eb, ef);
    WrapDisp(base, Disp16(full.code(Wrap(s.pc + 2))), IndexValue(s, eb));
    hide Wrap, Disp8, Disp16, IndexValue, ReadLong;
  }

  lemma FullFields(ext: bv16)
    requires ext & 0x01F7 == 0x0120
    ensures ext & 0x0100 != 0 && (ext >> 4) & 3 == 2 && ext & 0x0080 == 0 && ext & 0x0040 == 0 && ext & 7 == 0
  {
  }

  lemma SameIndexFields(s: State, e1: bv16, e2: bv16)
    requires e1 & 0xFE00 == e2 & 0xFE00
    ensures IndexValue(s, e1) == IndexValue(FetchWord(Env(_ => 0), s).s, e1) == IndexValue(s, e2)
  {
    SameFields(e1, e2);
  }

  lemma SameFields(e1: bv16, e2: bv16)
    requires e1 & 0xFE00 == e2 & 0xFE00
    ensures Bits14to12(e1) == Bits14to12(e2) && Scale(e1) == Scale(e2)
    ensures e1 & 0x8000 == e2 & 0x8000 && e1 & 0x0800 == e2 & 0x0800
  {
  }

  lemma WrapDisp(base: int, d: int, x: int)
    ensures Wrap(base + Wrap(d) + x) == Wrap(base + d + x)
  {
  }

  /** With the index suppressed, pre-indexed and post-indexed memory indirection are the same address. */
  lemma SuppressedIndexIsNeither(pre: Env, post: Env, s: State, base: u32)
    requires pre.code(s.pc) & 0x0144 == 0x0140 && pre.code(s.pc) & 3 != 0
    requires post.code(s.pc) == pre.code(s.pc) | 4 && SameAfter(pre, post, s.pc)
    ensures ResolveIndexed(pre, s, base) == ResolveIndexed(post, s, base)
  {
    hide FetchDisplacement, Wrap, IndexValue, ReadLong, ResolveIndexed;
    var e1, e2, s1 := pre.code(s.pc), post.code(s.pc), FetchWord(pre, s).s;
    IndirectFields(e1);
    var bd := FetchDisplacement(pre, s1, (e1 >> 4) & 3);
    DisplacementTakes(pre, s1, (e1 >> 4) & 3);
    NotBack(s.pc, DisplacementBytes((e1 >> 4) & 3));
    SameDisplacement(pre, post, s1, (e1 >> 4) & 3, s.pc);
    SameDisplacement(pre, post, bd.s, e1 & 7 & 3, s.pc);
    IndirectUnindexed(pre, s, base);
    IndirectUnindexed(post, s, base);
  }

  /** Memory indirection without an index, in either position. */
  lemma IndirectUnindexed(env: Env, s: State, base: u32)
    requires env.code(s.pc) & 0x0100 != 0 && env.code(s.pc) & 0x0040 != 0 && env.code(s.pc) & 7 != 0
    ensures var ext := env.code(s.pc);
            var bd := FetchDisplacement(env, FetchWord(env, s).s, (ext >> 4) & 3);
            var od := FetchDisplacement(env, bd.s, ext & 7 & 3);
            var at := ReadLong(s.mem, Wrap((if ext & 0x0080 != 0 then 0 else base) + bd.value));
            ResolveIndexed(env, s, base) == Got(Wrap(at + od.value), od.s)
  {
    DisplacementTakes(env, FetchWord(env, s).s, (env.code(s.pc) >> 4) & 3);
    hide FetchDisplacement, Wrap, IndexValue, ReadLong;
  }

  lemma IndirectFields(e: bv16)
    requires e & 0x0144 == 0x0140 && e & 3 != 0
    ensures e & 0x0100 != 0 && e & 0x0040 != 0 && e & 7 != 0 && e & 7 & 4 == 0
    ensures (e | 4) & 0x0100 != 0 && (e | 4) & 0x0040 != 0 && (e | 4) & 7 != 0 && (e | 4) & 7 & 4 != 0
    ensures ((e | 4) >> 4) & 3 == (e >> 4) & 3 && (e | 4) & 0x0080 == e & 0x0080 && (e | 4) & 7 & 3 == e & 7 & 3
  {
  }

  lemma NotBack(pc: u32, k: nat)
    requires k <= 4
    ensures Wrap(pc + 2) != pc && Wrap(Wrap(pc + 2) + 2) != pc
    ensures Wrap(Wrap(pc + 2) + k) != pc && Wrap(Wrap(Wrap(pc + 2) + k) + 2) != pc
  {
  }
}
