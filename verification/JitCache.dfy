/**
  The block cache: a direct-mapped index over owned blocks, execution counts and the list of
  addresses not worth compiling.  What it holds is described by the history of operations on it.
*/
module JitCache {
  import opened Machine
  import Bits
  import opened JitBlock
  import opened JitExecute

  const BLOCK_CACHE_SIZE := 0x2000
  const COUNT_CACHE_SIZE := 0x1_0000

  function BlockIndex(pa: u32): (i: nat)
    ensures i < BLOCK_CACHE_SIZE
  {
    pa / 2 % BLOCK_CACHE_SIZE
  }

  function CountIndex(pa: u32): (i: nat)
    ensures i < COUNT_CACHE_SIZE
  {
    pa / 2 % COUNT_CACHE_SIZE
  }

  /** Instruction addresses share a slot exactly if they are a multiple of 16 KB apart, a counter if of 128 KB. */
  lemma IndicesCollide(a: u32, b: u32)
    requires a % 2 == b % 2 == 0
    ensures BlockIndex(a) == BlockIndex(b) <==> (a - b) % 0x4000 == 0
    ensures CountIndex(a) == CountIndex(b) <==> (a - b) % 0x2_0000 == 0
  {
    SameResidue(a / 2, b / 2, 0x2000);
    SameResidue(a / 2, b / 2, 0x1_0000);
    DoubleResidue(a / 2 - b / 2, 0x2000);
    DoubleResidue(a / 2 - b / 2, 0x1_0000);
  }

  lemma SameResidue(x: int, y: int, m: int)
    requires m > 0
    ensures x % m == y % m <==> (x - y) % m == 0
  {
    var q, r := x / m - y / m, x % m - y % m;
    assert x == m * (x / m) + x % m && y == m * (y / m) + y % m;
    assert x - y == m * q + r by { assert m * q == m * (x / m) - m * (y / m); }
    if r >= 0 {
      Bits.DivModUnique(x - y, m, q, r);
    } else {
      assert m * (q - 1) == m * q - m;
      Bits.DivModUnique(x - y, m, q - 1, r + m);
    }
  }

  lemma DoubleResidue(d: int, m: int)
    requires m > 0
    ensures 2 * d % (2 * m) == 0 <==> d % m == 0
  {
    var q, r := d / m, d % m;
    assert d == m * q + r;
    assert 2 * m * q == 2 * (m * q);
    Bits.DivModUnique(2 * d, 2 * m, q, 2 * r);
  }

  datatype Op =
    | Add(pa: u32, block: CompiledBlock)
    | Remove(pa: u32)
    | Mark(pa: u32)
    | Count(pa: u32)
    | Invalidate

  type History = seq<Op>

  // ----- What a history leaves in the cache -----

  /** The block in a slot. */
  function Holder(h: History, idx: nat): CompiledBlock? {
    if h == [] then null
    else
      var before := Holder(h[..|h| - 1], idx);
      match h[|h| - 1]
      case Add(pa, block) => if BlockIndex(pa) == idx then block else before
      case Remove(pa) =>
        if BlockIndex(pa) == idx && before != null && before.code.physicalAddress == pa then null else before
      case Invalidate => null
      case Mark(_) | Count(_) => before
  }

  function Lookup(h: History, pa: u32): CompiledBlock? {
    var b := Holder(h, BlockIndex(pa));
    if b != null && b.code.physicalAddress == pa then b else null
  }

  /** The blocks owned: everything added since the last invalidation, evicted or not. */
  function Owned(h: History): seq<CompiledBlock> {
    if h == [] then []
    else
      var before := Owned(h[..|h| - 1]);
      match h[|h| - 1]
      case Add(_, block) => before + [block]
      case Invalidate => []
      case _ => before
  }

  /** How often an execution was counted at an index; invalidation does not reset this. */
  function Executions(h: History, idx: nat): nat {
    if h == [] then 0
    else Executions(h[..|h| - 1], idx) + if h[|h| - 1].Count? && CountIndex(h[|h| - 1].pa) == idx then 1 else 0
  }

  predicate Marked(h: History, idx: nat) {
    h != [] &&
    var last := h[|h| - 1];
    (last.Mark? && CountIndex(last.pa) == idx) || (!last.Invalidate? && Marked(h[..|h| - 1], idx))
  }

  function Saturated(n: nat): u8 {
    if n < 255 then n else 255
  }

  // ----- The cache as an object -----

  class Cache {
    const slots: array<CompiledBlock?>
    const counts: array<u8>
    const uncompilable: array<bool>
    var blocks: seq<CompiledBlock>
    var blockCount: int
    ghost var history: History

    ghost predicate Valid()
      reads this, slots, counts, uncompilable
    {
      && slots.Length == BLOCK_CACHE_SIZE && counts.Length == uncompilable.Length == COUNT_CACHE_SIZE
      && (forall i :: 0 <= i < slots.Length ==> slots[i] == Holder(history, i))
      && (forall i :: 0 <= i < counts.Length ==> counts[i] == Saturated(Executions(history, i)))
      && (forall i :: 0 <= i < uncompilable.Length ==> uncompilable[i] == Marked(history, i))
      && blocks == Owned(history) && blockCount == |blocks|
    }

    constructor ()
      ensures Valid() && history == [] && fresh(slots) && fresh(counts) && fresh(uncompilable)
    {
      slots := new CompiledBlock?[BLOCK_CACHE_SIZE](_ => null);
      counts := new u8[COUNT_CACHE_SIZE](_ => 0);
      uncompilable := new bool[COUNT_CACHE_SIZE](_ => false);
      blocks, blockCount, history := [], 0, [];
    }

    method TryGetBlock(pa: u32) returns (b: CompiledBlock?)
      requires Valid()
      ensures b == Lookup(history, pa)
    {
      var slot := slots[BlockIndex(pa)];
      if slot != null && slot.code.physicalAddress == pa {
        return slot;
      }
      return null;
    }

    method AddBlock(pa: u32, block: CompiledBlock)
      requires Valid()
      modifies this`blocks, this`blockCount, this`history, slots
      ensures Valid() && history == old(history) + [Add(pa, block)] && blocks == old(blocks) + [block]
    {
      slots[BlockIndex(pa)] := block;
      blocks := blocks + [block];
      blockCount := blockCount + 1;
      history := history + [Add(pa, block)];
      assert history[..|history| - 1] == old(history);
    }

    /** The block leaves the index but stays owned. */
    method RemoveBlock(pa: u32)
      requires Valid()
      modifies this`history, slots
      ensures Valid() && history == old(history) + [Remove(pa)]
    {
      var slot := slots[BlockIndex(pa)];
      if slot != null && slot.code.physicalAddress == pa {
        slots[BlockIndex(pa)] := null;
      }
      history := history + [Remove(pa)];
      assert history[..|history| - 1] == old(history);
    }

    method InvalidateAll()
      requires Valid()
      modifies this`blocks, this`blockCount, this`history, slots, uncompilable
      ensures Valid() && history == old(history) + [Invalidate]
    {
      forall i | 0 <= i < slots.Length { slots[i] := null; }
      forall i | 0 <= i < uncompilable.Length { uncompilable[i] := false; }
      blocks, blockCount := [], 0;
      history := history + [Invalidate];
      assert history[..|history| - 1] == old(history);
    }

    method IncrementAndGetCount(pa: u32) returns (count: u8)
      requires Valid()
      modifies this`history, counts
      ensures Valid() && history == old(history) + [Count(pa)]
      ensures count == Saturated(Executions(history, CountIndex(pa)))
    {
      var idx := CountIndex(pa);
      if counts[idx] < 255 {
        counts[idx] := counts[idx] + 1;
      }
      history := history + [Count(pa)];
      assert history[..|history| - 1] == old(history);
      count := counts[idx];
    }

    method IsUncompilable(pa: u32) returns (u: bool)
      requires Valid()
      ensures u == Marked(history, CountIndex(pa))
    {
      u := uncompilable[CountIndex(pa)];
    }

    method MarkUncompilable(pa: u32)
      requires Valid()
      modifies this`history, uncompilable
      ensures Valid() && history == old(history) + [Mark(pa)]
    {
      uncompilable[CountIndex(pa)] := true;
      history := history + [Mark(pa)];
      assert history[..|history| - 1] == old(history);
    }
  }

  // ----- The cache refines a map with eviction -----

  /** Operations after which a block for pa can no longer be found. */
  predicate Evicts(op: Op, pa: u32) {
    || (op.Add? && BlockIndex(op.pa) == BlockIndex(pa))
    || op == Remove(pa)
    || op.Invalidate?
  }

  predicate AddedFor(op: Op, pa: u32, b: CompiledBlock) {
    op.Add? && op.block == b && BlockIndex(op.pa) == BlockIndex(pa) && b.code.physicalAddress == pa
  }

  /** Operation k added b for pa, and nothing after it evicted it. */
  predicate Current(h: History, pa: u32, b: CompiledBlock, k: nat) {
    k < |h| && AddedFor(h[k], pa, b) && forall j :: k < j < |h| ==> !Evicts(h[j], pa)
  }

  /**
    For every history: a lookup finds exactly the block added last for that address, provided that
    since then it was neither removed, nor displaced by another block with the same index, nor
    invalidated.
  */
  lemma {:induction false} LookupIsLatest(h: History, pa: u32, b: CompiledBlock)
    ensures Lookup(h, pa) == b <==> exists k: nat :: Current(h, pa, b, k)
  {
    if h != [] {
      var init, last := h[..|h| - 1], h[|h| - 1];
      LookupIsLatest(init, pa, b);
      if Lookup(h, pa) == b {
        if AddedFor(last, pa, b) {
          assert Current(h, pa, b, |h| - 1);
        } else {
          assert Lookup(init, pa) == b && !Evicts(last, pa);
          var k: nat :| Current(init, pa, b, k);
          assert Current(h, pa, b, k);
        }
      }
      if k: nat :| Current(h, pa, b, k) {
        if k == |h| - 1 {
          assert AddedFor(last, pa, b);
        } else {
          assert Current(init, pa, b, k);
          assert !Evicts(last, pa);
        }
      }
    }
  }

  /** Every caller adds a block under the physical address it was compiled for. */
  predicate WellKeyed(h: History) {
    forall k :: 0 <= k < |h| && h[k].Add? ==> h[k].block.code.physicalAddress == h[k].pa
  }

  /** Hence a block that is found was added under the very address that is looked up. */
  lemma FoundUnderItsKey(h: History, pa: u32)
    requires WellKeyed(h) && Lookup(h, pa) != null
    ensures exists k: nat :: Current(h, pa, Lookup(h, pa), k) && h[k] == Add(pa, Lookup(h, pa))
  {
    hide Lookup;
    LookupIsLatest(h, pa, Lookup(h, pa));
    var k: nat :| Current(h, pa, Lookup(h, pa), k);
    assert h[k] == Add(pa, Lookup(h, pa));
  }

  /** Adding and looking up at an address with another index do not interfere. */
  lemma AddThenLookup(h: History, pa: u32, block: CompiledBlock, other: u32)
    requires block.code.physicalAddress == pa
    ensures Lookup(h + [Add(pa, block)], pa) == block
    ensures BlockIndex(other) != BlockIndex(pa) ==> Lookup(h + [Add(pa, block)], other) == Lookup(h, other)
    ensures BlockIndex(other) == BlockIndex(pa) && other != pa ==> Lookup(h + [Add(pa, block)], other) == null
  {
  }

  /** Removing and marking makes the address unfindable and uncompilable, and touches no other address. */
  lemma RemoveAndMark(h: History, pa: u32, other: u32)
    ensures var h' := h + [Remove(pa), Mark(pa)];
            && Lookup(h', pa) == null && Marked(h', CountIndex(pa))
            && (other != pa ==> Lookup(h', other) == Lookup(h, other))
  {
    var removed := h + [Remove(pa)];
    assert h + [Remove(pa), Mark(pa)] == removed + [Mark(pa)];
    assert removed[..|h|] == h && (removed + [Mark(pa)])[..|h| + 1] == removed;
    MarkKeepsLookup(removed, pa, pa);
    MarkKeepsLookup(removed, pa, other);
  }

  lemma MarkKeepsLookup(h: History, marked: u32, pa: u32)
    ensures Lookup(h + [Mark(marked)], pa) == Lookup(h, pa)
  {
    assert (h + [Mark(marked)])[..|h|] == h;
  }

  predicate InSeq(b: CompiledBlock?, s: seq<CompiledBlock>) {
    exists i :: 0 <= i < |s| && s[i] == b
  }

  lemma InSeqGrows(s: seq<CompiledBlock>, b: CompiledBlock)
    ensures InSeq(b, s + [b]) && forall c :: InSeq(c, s) ==> InSeq(c, s + [b])
  {
    assert (s + [b])[|s|] == b;
    forall c | InSeq(c, s)
      ensures InSeq(c, s + [b])
    {
      var i :| 0 <= i < |s| && s[i] == c;
      assert (s + [b])[i] == c;
    }
  }

  /** No slot points to a block that is not owned. */
  lemma {:induction false} SlotsOwned(h: History, idx: nat)
    ensures Holder(h, idx) != null ==> InSeq(Holder(h, idx), Owned(h))
  {
    if h != [] {
      var init, last := h[..|h| - 1], h[|h| - 1];
      SlotsOwned(init, idx);
      if Holder(h, idx) != null && last.Add? {
        InSeqGrows(Owned(init), last.block);
      }
    }
  }

  /** An address is uncompilable iff one with its index was marked after the last invalidation. */
  lemma {:induction false} MarkedSince(h: History, idx: nat)
    ensures Marked(h, idx) <==>
      exists k: nat :: k < |h| && MarksAt(h, idx, k)
  {
    if h != [] {
      var init, last := h[..|h| - 1], h[|h| - 1];
      MarkedSince(init, idx);
      if Marked(h, idx) {
        if last.Mark? && CountIndex(last.pa) == idx {
          assert MarksAt(h, idx, |h| - 1);
        } else {
          var k: nat :| k < |init| && MarksAt(init, idx, k);
          assert MarksAt(h, idx, k);
        }
      }
      if k: nat :| k < |h| && MarksAt(h, idx, k) {
        if k < |h| - 1 {
          assert MarksAt(init, idx, k);
        }
      }
    }
  }

  predicate MarksAt(h: History, idx: nat, k: nat)
    requires k < |h|
  {
    h[k].Mark? && CountIndex(h[k].pa) == idx && forall j :: k < j < |h| ==> !h[j].Invalidate?
  }
}
