/**
  The main loop with the compiler switched on: sampling hot addresses, looking up blocks, dispatching
  them, counting bailouts, and falling back to the interpreter.
*/
module JitDriver {
  import opened Machine
  import opened EffectiveAddress
  import opened Interpreter
  import opened JitBlock
  import opened JitCompile
  import opened JitCompileLoops
  import opened JitDecode
  import opened JitTheorems
  import opened JitSchedule
  import opened Processor
  import opened JitExecute
  import opened JitCache

  const BAILOUT_BLACKLIST_THRESHOLD := 64

  /** One interpreted instruction; the counters advance by one instruction and its cycles. */
  method Interpret(env: Env, cpu: Cpu, cycles: bv16 -> nat) returns (ok: bool)
    modifies cpu`D, cpu`A, cpu`pc, cpu`ccr, cpu`mem, cpu`cycleCount, cpu`instructionCount
    ensures ok == old(InterpretOne(env, cpu.Now(), cycles)).Some?
    ensures ok ==> var m := old(InterpretOne(env, cpu.Now(), cycles)).value;
                   && cpu.Now() == m.s && m.executed == 1
                   && cpu.cycleCount == old(cpu.cycleCount) + m.cycles
                   && cpu.instructionCount == old(cpu.instructionCount) + m.executed
  {
    hide Step;
    var next := Step(env, cpu.Now());
    if next.None? {
      return false;
    }
    var s := next.value;
    var opcode := env.code(cpu.pc);
    cpu.D, cpu.A, cpu.pc, cpu.ccr, cpu.mem := s.D, s.A, s.pc, s.ccr, s.mem;
    cpu.cycleCount := cpu.cycleCount + cycles(opcode);
    cpu.instructionCount := cpu.instructionCount + 1;
    ok := true;
  }

  /** What dispatching a block adds to the history of the cache. */
  function Blacklisting(block: Block, executed: nat, bailouts: u16): History {
    if executed < block.count && bailouts >= BAILOUT_BLACKLIST_THRESHOLD
    then [Remove(block.physicalAddress), Mark(block.physicalAddress)]
    else []
  }

  /** Counts a bailout; a block that bails out too often is dropped for good. */
  method CountBailout(cache: Cache, block: CompiledBlock, ghost executed: nat)
    requires cache.Valid() && executed < block.code.count
    modifies block`bailoutCount, cache`history, cache.slots, cache.uncompilable
    ensures cache.Valid() && block.bailoutCount == (old(block.bailoutCount) + 1) % 0x1_0000
    ensures cache.history == old(cache.history) + Blacklisting(block.code, executed, block.bailoutCount)
    ensures if block.bailoutCount < 64 then cache.history == old(cache.history)
            else Lookup(cache.history, block.code.physicalAddress) == null
                 && Marked(cache.history, CountIndex(block.code.physicalAddress))
  {
    hide Cache.Valid, Lookup, Marked;
    RemoveAndMark(cache.history, block.code.physicalAddress, 0);
    block.bailoutCount := (block.bailoutCount + 1) % 0x1_0000;
    if block.bailoutCount >= BAILOUT_BLACKLIST_THRESHOLD {
      cache.RemoveBlock(block.code.physicalAddress);
      cache.MarkUncompilable(block.code.physicalAddress);
    }
  }

  /**
    Dispatches a block.  The tick divider has already been advanced by one, so it moves by one less
    than the number of instructions.
  */
  method ExecuteNextJit(env: Env, cpu: Cpu, cache: Cache, block: CompiledBlock, cycles: bv16 -> nat) returns (ok: bool)
    requires cache.Valid() && block.code.Shaped() && block.code.count > 0
    modifies cpu, block`bailoutCount, cache`history, cache.slots, cache.uncompilable
    ensures cache.Valid()
    ensures var e := old(JitBlock.Execute(block.code, cpu.dataCache, cpu.Registers()));
            && block.bailoutCount == (if e.executed < block.code.count then (old(block.bailoutCount) + 1) % 0x1_0000
                                      else old(block.bailoutCount))
            && cache.history == old(cache.history) + Blacklisting(block.code, e.executed, block.bailoutCount)
    ensures ok == old(OneEvent(env, cpu.Now(), Event.Dispatch(block.code, cpu.dataCache), cycles)).Some?
    ensures ok ==> var m := old(OneEvent(env, cpu.Now(), Event.Dispatch(block.code, cpu.dataCache), cycles)).value;
                   && cpu.Now() == m.s
                   && cpu.cycleCount == old(cpu.cycleCount) + m.cycles
                   && cpu.instructionCount == old(cpu.instructionCount) + m.executed
                   && cpu.tickDivider == old(cpu.tickDivider) + m.executed - 1
  {
    hide JitBlock.Execute, InterpretOne, Cache.Valid;
    ok := true;
    var result := block.Execute(cpu);
    cpu.pc := result.nextPC;
    cpu.cycleCount := cpu.cycleCount + result.executedCycles;
    cpu.instructionCount := cpu.instructionCount + result.executedCount;
    cpu.tickDivider := cpu.tickDivider + result.executedCount - 1;
    if result.executedCount < block.code.count {
      CountBailout(cache, block, result.executedCount);
      if result.executedCount == 0 {
        cpu.tickDivider := cpu.tickDivider + 1;
        ok := Interpret(env, cpu, cycles);
      }
    }
  }

  // ----- Sampling and the main loop -----

  /** The instruction page: translates the PC while it stays on the page. */
  datatype FetchPage = FetchPage(valid: bool, pageVA: u32, pagePA: u32, size: nat)
  {
    function Translate(pc: u32): Option<u32> {
      if valid && size > 0 && pc - pc % size == pageVA then Some(Wrap(pagePA + pc % size)) else None
    }
  }

  /**
    What the memory system provides for one turn: the instruction page and the page for data reads.
    Both are refilled by code that is not modelled, so they may change from turn to turn.
  */
  datatype Pages = Pages(fetch: FetchPage, data: DataCache)

  /** How the emulator is configured, and the code it runs: all fixed during a run. */
  datatype Setup = Setup(
    env: Env,
    read: u32 -> Option<bv16>,
    virtualOf: u32 -> u32,
    cycles: bv16 -> nat,
    compileThreshold: u8,
    minBlockLength: nat,
    tickInterval: int)

  /** The block is what the compiler makes of the code at pa, and long enough to be worth it. */
  ghost predicate CompiledFor(s: Setup, pa: u32, code: Block) {
    Compile(s.read, s.virtualOf(pa), pa, s.cycles) == Some(code) && code.count >= s.minBlockLength
  }

  ghost predicate Genuine(h: History, s: Setup) {
    forall k :: 0 <= k < |h| && h[k].Add? ==> CompiledFor(s, h[k].pa, h[k].block.code)
  }

  /** Whatever is found in the cache is the compiled form of the code at that address. */
  lemma FoundIsCompiled(h: History, s: Setup, pa: u32)
    requires Genuine(h, s) && Lookup(h, pa) != null
    ensures CompiledFor(s, pa, Lookup(h, pa).code)
  {
    hide CompiledFor, Lookup;
    GenuineKeyed(h, s);
    FoundUnderItsKey(h, pa);
    var k: nat :| k < |h| && h[k] == Add(pa, Lookup(h, pa));
  }

  lemma GenuineKeyed(h: History, s: Setup)
    requires Genuine(h, s)
    ensures WellKeyed(h)
  {
  }

  /** What sampling the instruction at pc, which lies at pa, makes of the history h. */
  ghost predicate Sampled(h: History, h': History, pa: Option<u32>, pc: u32, s: Setup) {
    if pa.None? || Lookup(h, pa.value) != null || Marked(h, CountIndex(pa.value)) then h' == h
    else if Saturated(Executions(h, CountIndex(pa.value)) + 1) != s.compileThreshold then h' == h + [Count(pa.value)]
    else if Compile(s.read, pc, pa.value, s.cycles).Some?
      && Compile(s.read, pc, pa.value, s.cycles).value.count >= s.minBlockLength then
      Lookup(h', pa.value) != null && h' == h + [Count(pa.value), Add(pa.value, Lookup(h', pa.value))]
    else h' == h + [Count(pa.value), Mark(pa.value)]
  }

  /**
    Counts an execution at the sampled PC.  On exactly the compileThreshold-th one the code there is
    compiled; a block that is too short is never tried again.
  */
  method JitSamplePC(cpu: Cpu, cache: Cache, page: FetchPage, s: Setup)
    requires cache.Valid() && Genuine(cache.history, s)
    requires page.Translate(cpu.pc).Some? ==> s.virtualOf(page.Translate(cpu.pc).value) == cpu.pc
    modifies cache, cache.slots, cache.counts, cache.uncompilable
    ensures cache.Valid() && Genuine(cache.history, s)
    ensures forall b :: b in cache.blocks ==> b in old(cache.blocks) || fresh(b)
    ensures Sampled(old(cache.history), cache.history, page.Translate(cpu.pc), cpu.pc, s)
  {
    hide Compile, CompiledFor, Cache.Valid, Holder, Marked, FetchPage.Translate;
    var pa := page.Translate(cpu.pc);
    if pa.None? {
      return;
    }
    var found := cache.TryGetBlock(pa.value);
    var skip := cache.IsUncompilable(pa.value);
    if found != null || skip {
      return;
    }
    var count := cache.IncrementAndGetCount(pa.value);
    if count == s.compileThreshold {
      var compiled := TryCompile(s.read, cpu.pc, pa.value, s.cycles);
      if compiled.Some? && compiled.value.count >= s.minBlockLength {
        var block := new CompiledBlock(compiled.value);
        CompiledKey(s, cpu.pc, pa.value);
        MakeCompiledFor(s, pa.value, block.code);
        AddThenLookup(cache.history, pa.value, block, pa.value);
        GenuineGrows(cache.history, s, pa.value, block);
        cache.AddBlock(pa.value, block);
      } else {
        cache.MarkUncompilable(pa.value);
      }
    }
  }

  lemma MakeCompiledFor(s: Setup, pa: u32, code: Block)
    requires Compile(s.read, s.virtualOf(pa), pa, s.cycles) == Some(code) && code.count >= s.minBlockLength
    ensures CompiledFor(s, pa, code)
  {
  }

  lemma GenuineGrows(h: History, s: Setup, pa: u32, block: CompiledBlock)
    requires Genuine(h, s) && CompiledFor(s, pa, block.code)
    ensures Genuine(h + [Add(pa, block)], s)
  {
    hide CompiledFor;
  }

  lemma CompiledKey(s: Setup, pc: u32, pa: u32)
    ensures Compile(s.read, pc, pa, s.cycles).Some? ==>
      Compile(s.read, pc, pa, s.cycles).value.physicalAddress == pa
  {
  }

  /** The page holds a true translation, and every physical code address has one virtual address. */
  ghost predicate TruePage(page: FetchPage, s: Setup) {
    forall pc :: page.Translate(pc).Some? ==> s.virtualOf(page.Translate(pc).value) == pc
  }

  /** A dispatched block is the compiled form of the code at the PC, run on the current read cache. */
  ghost predicate GenuineEvent(ev: Event, s: Setup, pc: u32, c: DataCache) {
    ev.Dispatch? ==>
      ev.c == c && ev.b.Shaped() && ev.b.count > 0 && exists pa :: s.virtualOf(pa) == pc && CompiledFor(s, pa, ev.b)
  }

  lemma CompiledShaped(s: Setup, pa: u32, code: Block)
    requires CompiledFor(s, pa, code)
    ensures code.Shaped() && code.count > 0
  {
    hide Scan, BuildOps, Cumulative, FlagLiveness;
  }

  lemma FoundIsOwned(h: History, pa: u32, blocks: seq<CompiledBlock>)
    requires Lookup(h, pa) != null && blocks == Owned(h)
    ensures Lookup(h, pa) in blocks
  {
    hide Holder, Owned;
    SlotsOwned(h, BlockIndex(pa));
  }

  /** The counters and the state after event ev. */
  twostate predicate Advanced(cpu: Cpu, ev: Event, s: Setup)
    requires ev.Dispatch? ==> ev.b.Shaped()
    reads cpu
  {
    && old(OneEvent(s.env, cpu.Now(), ev, s.cycles)).Some?
    && var m := old(OneEvent(s.env, cpu.Now(), ev, s.cycles)).value;
       && cpu.Now() == m.s
       && cpu.cycleCount == old(cpu.cycleCount) + m.cycles
       && cpu.instructionCount == old(cpu.instructionCount) + m.executed
       && cpu.tickDivider == m.executed - 1 + if old(cpu.tickDivider) + 1 >= s.tickInterval then 0 else old(cpu.tickDivider) + 1
  }

  method FindBlock(cpu: Cpu, cache: Cache, page: FetchPage, s: Setup) returns (block: CompiledBlock?)
    requires cache.Valid() && Genuine(cache.history, s) && TruePage(page, s)
    ensures block != null ==>
      && block in cache.blocks && GenuineEvent(Event.Dispatch(block.code, cpu.dataCache), s, cpu.pc, cpu.dataCache)
      && page.Translate(cpu.pc).Some? && block == Lookup(cache.history, page.Translate(cpu.pc).value)
    ensures block == null ==>
      page.Translate(cpu.pc).None? || Lookup(cache.history, page.Translate(cpu.pc).value) == null
  {
    hide Genuine, CompiledFor, Holder;
    block := null;
    var pa := page.Translate(cpu.pc);
    if pa.Some? {
      block := cache.TryGetBlock(pa.value);
      if block != null {
        FoundIsCompiled(cache.history, s, pa.value);
        CompiledShaped(s, pa.value, block.code);
        FoundIsOwned(cache.history, pa.value, cache.blocks);
      }
    }
  }

  /** The block that h holds for the address pa, if there is one. */
  ghost function BlockFor(h: History, pa: Option<u32>): CompiledBlock? {
    if pa.None? then null else Lookup(h, pa.value)
  }

  /**
    One turn of the main loop, without interrupts and tick handlers: on every tickInterval-th
    instruction the PC is sampled, then a block is dispatched if the cache holds one, else one
    instruction is interpreted.  sampled is the history in between.
  */
  method ExecuteNextFastJit(cpu: Cpu, cache: Cache, pages: Pages, s: Setup)
    returns (ok: bool, ghost ev: Event, ghost sampled: History)
    requires cache.Valid() && Genuine(cache.history, s) && TruePage(pages.fetch, s)
    modifies cpu, cache, cache.slots, cache.counts, cache.uncompilable, cache.blocks
    ensures cache.Valid() && Genuine(cache.history, s)
    ensures forall b :: b in cache.blocks ==> b in old(cache.blocks) || fresh(b)
    ensures GenuineEvent(ev, s, old(cpu.pc), pages.data)
    ensures if old(cpu.tickDivider) + 1 >= s.tickInterval
            then Sampled(old(cache.history), sampled, pages.fetch.Translate(old(cpu.pc)), old(cpu.pc), s)
            else sampled == old(cache.history)
    ensures var block := BlockFor(sampled, pages.fetch.Translate(old(cpu.pc)));
            if block == null then ev == Event.Interpret && cache.history == sampled
            else
              && ev == Event.Dispatch(block.code, pages.data)
              && var e := old(JitBlock.Execute(ev.b, pages.data, cpu.Registers()));
                 cache.history == sampled + Blacklisting(ev.b, e.executed, block.bailoutCount)
    ensures if ok then Advanced(cpu, ev, s) else old(OneEvent(s.env, cpu.Now(), ev, s.cycles)).None?
  {
    hide Genuine, CompiledFor, JitBlock.Execute, Cache.Valid, InterpretOne, Lookup, Marked, FetchPage.Translate;
    cpu.dataCache := pages.data;
    cpu.tickDivider := cpu.tickDivider + 1;
    if cpu.tickDivider >= s.tickInterval {
      cpu.tickDivider := 0;
      JitSamplePC(cpu, cache, pages.fetch, s);
    }
    sampled := cache.history;
    var block := FindBlock(cpu, cache, pages.fetch, s);
    if block != null {
      ev := Event.Dispatch(block.code, cpu.dataCache);
      StaysGenuine(cache.history, s, block.code);
      ok := ExecuteNextJit(s.env, cpu, cache, block, s.cycles);
      return;
    }
    ev := Event.Interpret;
    ok := Interpret(s.env, cpu, s.cycles);
  }

  lemma StaysGenuine(h: History, s: Setup, b: Block)
    requires Genuine(h, s)
    ensures forall n: nat, k: u16 :: Genuine(h + Blacklisting(b, n, k), s)
  {
  }

  // ----- Runs of the main loop -----

  lemma {:induction false} EventsSnoc(env: Env, t: State, evs: seq<Event>, ev: Event, cycles: bv16 -> nat)
    requires AllShaped(evs) && (ev.Dispatch? ==> ev.b.Shaped()) && Events(env, t, evs, cycles).Some?
    ensures var m := Events(env, t, evs, cycles).value;
            var n := OneEvent(env, m.s, ev, cycles);
            Events(env, t, evs + [ev], cycles) == if n.None? then None
              else Some(Outcome(n.value.s, m.executed + n.value.executed, m.cycles + n.value.cycles))
    decreases |evs|
  {
    hide OneEvent;
    if evs == [] {
      assert evs + [ev] == [ev] && [ev][1..] == [];
    } else {
      assert (evs + [ev])[1..] == evs[1..] + [ev] && (evs + [ev])[0] == evs[0];
      EventsSnoc(env, OneEvent(env, t, evs[0], cycles).value.s, evs[1..], ev, cycles);
    }
  }

  /** The processor is where the events lead, with its counters advanced accordingly. */
  twostate predicate Ran(cpu: Cpu, evs: seq<Event>, s: Setup)
    requires AllShaped(evs)
    reads cpu
  {
    && Events(s.env, old(cpu.Now()), evs, s.cycles).Some?
    && var m := Events(s.env, old(cpu.Now()), evs, s.cycles).value;
       && cpu.Now() == m.s
       && cpu.instructionCount == old(cpu.instructionCount) + m.executed
       && cpu.cycleCount == old(cpu.cycleCount) + m.cycles
  }

  /** The interpreter alone would be here after the counted instructions and cycles. */
  twostate predicate InterpreterAgrees(cpu: Cpu, s: Setup)
    reads cpu
  {
    && cpu.instructionCount >= old(cpu.instructionCount) && cpu.cycleCount >= old(cpu.cycleCount)
    && Matches(s.env, old(cpu.Now()),
               Outcome(cpu.Now(), cpu.instructionCount - old(cpu.instructionCount), cpu.cycleCount - old(cpu.cycleCount)),
               s.cycles)
  }

  /**
    Any number of turns of the main loop, on whatever pages each one finds.  If every block it
    dispatched was faithful, the processor is where interpretation alone would be.
  */
  method RunFastJit(cpu: Cpu, cache: Cache, pages: seq<Pages>, s: Setup) returns (ok: bool, ghost evs: seq<Event>)
    requires cache.Valid() && Genuine(cache.history, s)
    requires forall i :: 0 <= i < |pages| ==> TruePage(pages[i].fetch, s)
    requires cpu.ccr.rest == 0
    modifies cpu, cache, cache.slots, cache.counts, cache.uncompilable, cache.blocks
    ensures cache.Valid() && Genuine(cache.history, s) && AllShaped(evs)
    ensures ok ==> |evs| == |pages| && Ran(cpu, evs, s)
    ensures ok && AllFaithful(s.env, old(cpu.Now()), evs, s.cycles) ==> InterpreterAgrees(cpu, s)
  {
    hide Genuine, CompiledFor, Cache.Valid, OneEvent, TruePage, AllFaithful, Related, Matches;
    evs, ok := [], true;
    ghost var start := cpu.Now();
    for i := 0 to |pages|
      invariant cache.Valid() && Genuine(cache.history, s) && AllShaped(evs) && ok && |evs| == i && Ran(cpu, evs, s)
      invariant forall b :: b in cache.blocks ==> b in old(cache.blocks) || fresh(b)
    {
      assert forall k :: 0 <= k < |cache.blocks| ==> cache.blocks[k] in old(cache.blocks) || fresh(cache.blocks[k]);
      ghost var ev, sampled;
      ok, ev, sampled := ExecuteNextFastJit(cpu, cache, pages[i], s);
      if !ok {
        return;
      }
      EventsSnoc(s.env, start, evs, ev, s.cycles);
      evs := evs + [ev];
    }
    if AllFaithful(s.env, start, evs, s.cycles) {
      RelatedSelf(s.env, start);
      MixedRunIsInterpreterRun(s.env, start, start, evs, s.cycles);
    }
  }

  lemma RelatedSelf(env: Env, s: State)
    requires s.ccr.rest == 0
    ensures Related(env, s, s)
  {
  }
}
