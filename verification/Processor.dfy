/** The processor object: registers, counters and caches that the emulator updates in place. */
module Processor {
  import opened Machine
  import opened JitBlock

  class Cpu {
    var D: Regs
    var A: Regs
    var pc: u32
    var ccr: Ccr
    var mem: Memory          // data memory as the program sees it
    var dataCache: DataCache
    var rmwAddress: u32      // where the last read for modify read from
    var cycleCount: nat
    var instructionCount: nat
    var tickDivider: int

    constructor (s: State, c: DataCache)
      ensures Now() == s && dataCache == c && cycleCount == instructionCount == tickDivider == 0
    {
      D, A, pc, ccr, mem, dataCache := s.D, s.A, s.pc, s.ccr, s.mem, c;
      rmwAddress, cycleCount, instructionCount, tickDivider := 0, 0, 0, 0;
    }

    function Now(): State
      reads this
    {
      State(D, A, pc, ccr, mem)
    }

    function Registers(): Regfile
      reads this
    {
      Regfile(D, A, ccr)
    }
  }
}
