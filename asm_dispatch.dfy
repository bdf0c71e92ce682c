// jit/x86/Asm.cpp: the fixed code Jit::GenerateFixedCode writes before any
// block, taken as what it does rather than as x86 bytes.
//
// The rounding routines switch the host's MXCSR between the host's own
// rounding and the guest's (FCR31), using MIPSState::temp as the memory
// operand of STMXCSR/LDMXCSR.  The dispatcher moves between the labels
// outerLoop, dispatcherCheckCoreState, dispatcher and dispatcherNoCheck: it
// loads the word at the guest pc, enters the block whose run-block word it
// finds there, and otherwise compiles a block and looks again.
module Asm {
  import opened Words
  import opened Mips
  import Timestamp
  import Jit

  // ------------------------------------------------------------ rounding modes

  /** The four IEEE 754 rounding directions. */
  datatype RoundingMode = ToNearest | TowardZero | TowardPositive | TowardNegative

  /** The guest's rounding mode: bits 0-1 of FCR31 (0 nearest, 1 toward zero, 2 up, 3 down). */
  function GuestRounding(fcr31: u32): RoundingMode
  {
    var rm := fcr31 & 3;
    if rm == 0 then ToNearest else if rm == 1 then TowardZero else if rm == 2 then TowardPositive else TowardNegative
  }

  /**
   * The host's rounding mode: the RC field, bits 13-14 of MXCSR (0 nearest,
   * 1 down, 2 up, 3 toward zero; section 10.2.3 of the Intel 64 and IA-32
   * Architectures Software Developer's Manual, Vol. 1).
   */
  function HostRounding(mxcsr: u32): RoundingMode
  {
    var rc := mxcsr & 0x6000;
    if rc == 0 then ToNearest else if rc == 0x2000 then TowardNegative else if rc == 0x4000 then TowardPositive else TowardZero
  }

  /** Flush-to-zero: bit 24 of FCR31, bit 15 (FZ) of MXCSR. */
  predicate GuestFlushesToZero(fcr31: u32) { fcr31 & 0x0100_0000 != 0 }
  predicate HostFlushesToZero(mxcsr: u32) { mxcsr & 0x8000 != 0 }
  /** Equal outside the rounding-control and flush-to-zero bits 13-15. */
  predicate SameOtherBits(a: u32, b: u32) { a & 0xFFFF_1FFF == b & 0xFFFF_1FFF }

  /** MXCSR after restoreRoundingMode: bits 13-15 cleared, every other bit kept. */
  function RestoredMxcsr(mxcsr: u32): (r: u32)
    ensures SameOtherBits(r, mxcsr)
    ensures HostRounding(r) == ToNearest && !HostFlushesToZero(r)
  {
    mxcsr & 0xFFFF_1FFF
  }

  /**
   * The bits applyRoundingMode ORs into MXCSR for the guest's rounding mode:
   * FCR31 & 0x01000003 with bit 1 flipped when bit 0 is set, shifted to bit
   * 13 (bit 24 falls off the top), so the modes map 0->0, 1->3, 2->2, 3->1.
   */
  function RoundingField(fcr31: u32): (r: u32)
    ensures fcr31 & 3 == 0 ==> r == 0
    ensures fcr31 & 3 == 1 ==> r == 3 << 13
    ensures fcr31 & 3 == 2 ==> r == 2 << 13
    ensures fcr31 & 3 == 3 ==> r == 1 << 13
  {
    var eax := fcr31 & 0x0100_0003;
    var adjusted := if eax & 1 != 0 then eax ^ 2 else eax;
    adjusted << 13
  }

  /**
   * MXCSR after applyRoundingMode: unchanged when FCR31 asks for round to
   * nearest without flush-to-zero; otherwise bits 13-15 are replaced by the
   * guest's mode and flush bit, and every other bit is kept.
   */
  function AppliedMxcsr(mxcsr: u32, fcr31: u32): (r: u32)
    ensures fcr31 & 0x0100_0003 == 0 ==> r == mxcsr
    ensures fcr31 & 0x0100_0003 != 0 ==> SameOtherBits(r, mxcsr)
    ensures fcr31 & 0x0100_0003 != 0 ==> HostRounding(r) == GuestRounding(fcr31)
    ensures fcr31 & 0x0100_0003 != 0 ==> (HostFlushesToZero(r) <==> GuestFlushesToZero(fcr31))
  {
    if fcr31 & 0x0100_0003 == 0 then mxcsr
    else
      var field := RoundingField(fcr31);
      var t := RestoredMxcsr(mxcsr) | field;
      var r := if fcr31 & 0x0100_0000 != 0 then t | 0x8000 else t;
      BitsReplaced(mxcsr, field, fcr31 & 0x0100_0000 != 0);
      r
  }

  lemma BitsReplaced(m: u32, field: u32, flush: bool)
    requires field == 0 || field == 0x2000 || field == 0x4000 || field == 0x6000
    ensures var t := (m & 0xFFFF_1FFF) | field; (if flush then t | 0x8000 else t) & 0xFFFF_1FFF == m & 0xFFFF_1FFF
    ensures var t := (m & 0xFFFF_1FFF) | field; (if flush then t | 0x8000 else t) & 0x6000 == field
    ensures var t := (m & 0xFFFF_1FFF) | field; (if flush then t | 0x8000 else t) & 0x8000 != 0 <==> flush
  {
  }

  /**
   * Restoring and then applying, as the dispatcher always does around a call
   * out, leaves the host rounding as the guest asks on both paths of
   * applyRoundingMode, including the one that skips the update.
   */
  lemma GuestModeAfterSwitch(mxcsr: u32, fcr31: u32)
    ensures HostRounding(AppliedMxcsr(RestoredMxcsr(mxcsr), fcr31)) == GuestRounding(fcr31)
    ensures HostFlushesToZero(AppliedMxcsr(RestoredMxcsr(mxcsr), fcr31)) <==> GuestFlushesToZero(fcr31)
    ensures SameOtherBits(AppliedMxcsr(RestoredMxcsr(mxcsr), fcr31), mxcsr)
  {
  }

  /** Restoring after applying gives back the restored host MXCSR. */
  lemma RestoreUndoesApply(mxcsr: u32, fcr31: u32)
    ensures RestoredMxcsr(AppliedMxcsr(mxcsr, fcr31)) == RestoredMxcsr(mxcsr)
  {
  }

  /** Switching to the guest's rounding and back, or restoring twice, gives the restored host MXCSR. */
  lemma SwitchBack(mxcsr: u32, fcr31: u32)
    ensures RestoredMxcsr(AppliedMxcsr(RestoredMxcsr(mxcsr), fcr31)) == RestoredMxcsr(mxcsr)
    ensures RestoredMxcsr(RestoredMxcsr(mxcsr)) == RestoredMxcsr(mxcsr)
  {
    RestoreUndoesApply(RestoredMxcsr(mxcsr), fcr31);
  }

  /** Applying twice is applying once. */
  lemma ApplyIdempotent(mxcsr: u32, fcr31: u32)
    ensures AppliedMxcsr(AppliedMxcsr(mxcsr, fcr31), fcr31) == AppliedMxcsr(mxcsr, fcr31)
  {
    RestoreUndoesApply(mxcsr, fcr31);
  }

  // ------------------------------------------------------------ dispatcher

  /** The places in the fixed code control moves between. */
  datatype Label =
    | OuterLoop             // outerLoop: advance the timers, then check coreState
    | CheckCoreState        // dispatcherCheckCoreState: entered with the downcount's sign in the flags
    | Dispatcher            // dispatcher: entered with the downcount's sign in the flags
    | DispatcherNoCheck     // dispatcherNoCheck: look up the block at pc
    | InBlock(offset: u32)  // running the block whose code starts at this offset of the code space
    | Returned              // back in the host, after badCoreState

  /** The places a block's host code jumps back to. */
  datatype Reentry = ToOuterLoop | ToCheckCoreState | ToDispatcher

  function ReentryLabel(to: Reentry): Label
  {
    match to
    case ToOuterLoop => OuterLoop
    case ToCheckCoreState => CheckCoreState
    case ToDispatcher => Dispatcher
  }

  /**
   * What a block's host code leaves behind: the guest pc, the timing state
   * (its memory accesses charge cycles and its syscalls may set coreState),
   * FCR31 and the host's MXCSR (a CTC1 changes the rounding mode), and
   * where it jumps.
   */
  datatype BlockExit = BlockExit(pc: u32, clock: Timestamp.Clock, fcr31: u32, mxcsr: u32, to: Reentry)

  /** The code the fixed code calls or jumps into that this model does not contain. */
  datatype Services = Services(
    guestWord: uint32 -> u32,                         // the word in guest memory where no block is installed
    codeOffset: nat -> u32,                           // the offset of a block's normal entry in the code space
    runBlock: (u32, u32, Timestamp.Clock, u32, u32) -> BlockExit, // a block's host code, from its offset, pc, timing, FCR31 and MXCSR
    timerAdvance: Timestamp.Clock -> Timestamp.Clock) // TIMER_Advance

  /**
   * What the translated code is relied on to keep: a block that writes
   * FCR31 switches MXCSR to the new guest mode from the host bits it found
   * (CTC1 is followed by updateRoundingMode and applyRoundingMode), so it
   * leaves the host's own bits with the guest's mode applied.
   */
  ghost predicate KeepsGuestRounding(services: Services)
  {
    forall offset: u32, pc: u32, clock: Timestamp.Clock, fcr31: u32, mxcsr: u32 ::
      services.runBlock(offset, pc, clock, fcr31, mxcsr).mxcsr ==
        AppliedMxcsr(RestoredMxcsr(mxcsr), services.runBlock(offset, pc, clock, fcr31, mxcsr).fcr31)
  }

  /** One block run under KeepsGuestRounding. */
  lemma RoundingKept(services: Services, offset: u32, pc: u32, clock: Timestamp.Clock, fcr31: u32, mxcsr: u32)
    requires KeepsGuestRounding(services)
    ensures services.runBlock(offset, pc, clock, fcr31, mxcsr).mxcsr ==
              AppliedMxcsr(RestoredMxcsr(mxcsr), services.runBlock(offset, pc, clock, fcr31, mxcsr).fcr31)
  {
  }

  /**
   * The word the dispatcher loads at `pc`: the run-block word of the first
   * cached block starting there (what JitBlockCache writes over the guest's
   * instruction), or the guest's own word.
   */
  function WordAt(cache: seq<Jit.BlockEntry>, services: Services, pc: uint32): (r: u32)
    ensures Jit.BlockAt(cache, pc) >= 0 ==> IsRunBlock(r)
    ensures Jit.BlockAt(cache, pc) >= 0 ==>
              EmuhackValue(r) == services.codeOffset(cache[Jit.BlockAt(cache, pc)].normalEntry) & EmuhackValueMask
    ensures Jit.BlockAt(cache, pc) < 0 ==> r == services.guestWord(pc)
  {
    var n := Jit.BlockAt(cache, pc);
    if n >= 0 then RunBlockWord(services.codeOffset(cache[n].normalEntry)) else services.guestWord(pc)
  }

  /** A run-block word for a code offset, which carries the offset's low 24 bits. */
  function RunBlockWord(offset: u32): (r: u32)
    ensures IsRunBlock(r) && EmuhackValue(r) == offset & EmuhackValueMask
  {
    RunBlockRoundTrip(offset & EmuhackValueMask);
    EmuhackOpcode | (offset & EmuhackValueMask)
  }

  /**
   * Where dispatcherCheckCoreState (`checkCoreState`) or dispatcher goes
   * next.  Both bail out on a negative downcount, to outerLoop while
   * coreState is CORE_RUNNING and back to the host otherwise; with time
   * left, dispatcherCheckCoreState also returns to the host on a non-zero
   * coreState, while dispatcher goes straight on to the lookup.
   */
  function AfterCheck(checkCoreState: bool, downcount: int32, coreState: uint32): (r: Label)
    ensures r == Returned <==> coreState != 0 && (downcount < 0 || checkCoreState)
    ensures r == OuterLoop <==> downcount < 0 && coreState == 0
    ensures r == DispatcherNoCheck <==> downcount >= 0 && (coreState == 0 || !checkCoreState)
  {
    if downcount < 0 then (if coreState == 0 then OuterLoop else Returned)
    else if checkCoreState && coreState != 0 then Returned
    else DispatcherNoCheck
  }

  /** The labels at which guest code runs or is about to: the guest's rounding mode is in force there. */
  predicate GuestSide(at: Label)
  {
    at.CheckCoreState? || at.Dispatcher? || at.DispatcherNoCheck? || at.InBlock?
  }

  /**
   * The fixed code at work: the host's MXCSR, the label control is at, and
   * the CPU, recompiler and timing state it reads and changes.
   */
  class FixedCode {
    const cpu: MipsState
    const jit: Jit.Jit
    const timing: Timestamp.Timing
    const services: Services
    var mxcsr: u32
    var at: Label

    /**
     * One CPU for recompiler, timing and dispatcher, a recompiler that can
     * compile, and blocks that keep the guest's rounding in MXCSR.
     */
    ghost predicate Valid()
    {
      jit.cpu == cpu && timing.cpu == cpu && jit.env.maxBlocks > 0 && jit.env.maxBlockExits > 0 &&
      KeepsGuestRounding(services)
    }

    /** enterDispatcher: the host's MXCSR as it is, and control falls into outerLoop. */
    constructor(cpu: MipsState, jit: Jit.Jit, timing: Timestamp.Timing, services: Services, mxcsr: u32)
      requires jit.cpu == cpu && timing.cpu == cpu && jit.env.maxBlocks > 0 && jit.env.maxBlockExits > 0
      requires KeepsGuestRounding(services)
      ensures Valid() && this.mxcsr == mxcsr && at == OuterLoop
      ensures this.cpu == cpu && this.jit == jit && this.timing == timing && this.services == services
    {
      this.cpu := cpu;
      this.jit := jit;
      this.timing := timing;
      this.services := services;
      this.mxcsr := mxcsr;
      at := OuterLoop;
    }

    /** restoreRoundingMode: STMXCSR temp; AND temp, ~(7 << 13); LDMXCSR temp. */
    method RestoreRoundingMode()
      modifies this`mxcsr, cpu`temp
      ensures mxcsr == RestoredMxcsr(old(mxcsr)) && cpu.temp == mxcsr
    {
      cpu.temp := mxcsr;
      cpu.temp := cpu.temp & 0xFFFF_1FFF;
      mxcsr := cpu.temp;
    }

    /**
     * applyRoundingMode: nothing to do for round-to-nearest without
     * flush-to-zero; otherwise MXCSR is stored to temp, given the guest's
     * mode bits, and loaded back.
     */
    method ApplyRoundingMode()
      modifies this`mxcsr, cpu`temp
      ensures mxcsr == AppliedMxcsr(old(mxcsr), cpu.fcr31)
      ensures cpu.fcr31 & 0x0100_0003 == 0 ==> cpu.temp == old(cpu.temp)
      ensures cpu.fcr31 & 0x0100_0003 != 0 ==> cpu.temp == mxcsr
    {
      if cpu.fcr31 & 0x0100_0003 != 0 {
        cpu.temp := AppliedMxcsr(mxcsr, cpu.fcr31);
        mxcsr := cpu.temp;
      }
    }

    /**
     * updateRoundingMode: record in the recompiler that the guest has used a
     * rounding mode or flush-to-zero; the flag is never cleared here.
     */
    method UpdateRoundingMode()
      modifies jit`js
      ensures jit.js == old(jit.js).(hasSetRounding := old(jit.js.hasSetRounding) || cpu.fcr31 & 0x0100_0003 != 0)
    {
      if cpu.fcr31 & 0x0100_0003 != 0 {
        jit.js := jit.js.(hasSetRounding := true);
      }
    }

    /** TIMER_Advance, called with the host's rounding. */
    method AdvanceTimers()
      requires Valid()
      modifies timing`internalTimestamp, timing`lastTs, timing`curSliceLength, timing`nextEventTs,
               timing`coreState, cpu`downcount
      ensures timing.State() == services.timerAdvance(old(timing.State()))
    {
      var c := services.timerAdvance(timing.State());
      timing.internalTimestamp, timing.lastTs, timing.curSliceLength := c.timestamp, c.lastTs, c.sliceLength;
      timing.nextEventTs, timing.coreState := c.nextEvent, c.coreState;
      cpu.downcount := c.downcount;
    }

    /**
     * outerLoop: advance the timers between the two rounding switches, then
     * return to the host if coreState is set and look up the block at pc
     * otherwise.
     */
    method OuterLoopStep(ghost m0: u32)
      requires Valid() && at == OuterLoop && Agrees(m0)
      modifies this`mxcsr, this`at, cpu`temp,
               timing`internalTimestamp, timing`lastTs, timing`curSliceLength, timing`nextEventTs,
               timing`coreState, cpu`downcount
      ensures timing.State() == services.timerAdvance(old(timing.State()))
      ensures at == if timing.coreState != 0 then Returned else DispatcherNoCheck
      ensures at == Returned ==> mxcsr == RestoredMxcsr(old(mxcsr))
      ensures at != Returned ==> mxcsr == AppliedMxcsr(RestoredMxcsr(old(mxcsr)), cpu.fcr31)
      ensures Agrees(m0)
    {
      CallTimerAdvance(m0);
      if timing.coreState != 0 {
        SwitchBack(m0, cpu.fcr31);
        RestoreRoundingMode();
        at := Returned;
      } else {
        at := DispatcherNoCheck;
      }
    }

    /** The call to TIMER_Advance between the two rounding switches. */
    method CallTimerAdvance(ghost m0: u32)
      requires Valid() && at == OuterLoop && Agrees(m0)
      modifies this`mxcsr, cpu`temp,
               timing`internalTimestamp, timing`lastTs, timing`curSliceLength, timing`nextEventTs,
               timing`coreState, cpu`downcount
      ensures timing.State() == services.timerAdvance(old(timing.State()))
      ensures mxcsr == AppliedMxcsr(RestoredMxcsr(old(mxcsr)), cpu.fcr31)
      ensures mxcsr == AppliedMxcsr(RestoredMxcsr(m0), cpu.fcr31)
    {
      ghost var fcr31 := cpu.fcr31;
      RestoreRoundingMode();
      AdvanceTimers();
      assert cpu.fcr31 == fcr31;
      ApplyRoundingMode();
    }

    /** dispatcherCheckCoreState and dispatcher, and the bail-out both share. */
    method CheckStep(ghost m0: u32)
      requires Valid() && (at == CheckCoreState || at == Dispatcher) && Agrees(m0)
      modifies this`mxcsr, this`at, cpu`temp
      ensures at == AfterCheck(old(at) == CheckCoreState, cpu.downcount, timing.coreState)
      ensures at == Returned ==> mxcsr == RestoredMxcsr(old(mxcsr))
      ensures at != Returned ==> mxcsr == old(mxcsr)
      ensures Agrees(m0)
    {
      SwitchBack(m0, cpu.fcr31);
      var next := AfterCheck(at == CheckCoreState, cpu.downcount, timing.coreState);
      if next == Returned {
        RestoreRoundingMode();
      }
      at := next;
    }

    /**
     * dispatcherNoCheck: enter the block whose run-block word is at pc;
     * otherwise compile one and look again, which then finds a block.
     */
    method DispatchStep(ghost m0: u32)
      requires Valid() && at == DispatcherNoCheck && Agrees(m0)
      modifies this`mxcsr, this`at, cpu`temp, jit`js, jit`code, jit`cache, jit`proxies, jit`compilations
      ensures var word := WordAt(old(jit.cache), services, Jit.PcValue(cpu.pc));
              IsRunBlock(word) ==> at == InBlock(EmuhackValue(word)) && mxcsr == old(mxcsr) && unchanged(jit)
      ensures var word := WordAt(old(jit.cache), services, Jit.PcValue(cpu.pc));
              !IsRunBlock(word) ==> at == DispatcherNoCheck && mxcsr == AppliedMxcsr(RestoredMxcsr(old(mxcsr)), cpu.fcr31)
      ensures IsRunBlock(WordAt(jit.cache, services, Jit.PcValue(cpu.pc)))
      ensures Agrees(m0)
    {
      var word := WordAt(jit.cache, services, Jit.PcValue(cpu.pc));
      EmuhackTopByte(word);
      if word >> 24 == EmuhackOpcode >> 24 {
        at := InBlock(word & EmuhackValueMask);
      } else {
        CallJitAt(m0);
      }
    }

    /**
     * The call to JitAt between the two rounding switches: the recompiler
     * compiles a block at pc, so a block is cached there afterwards.
     */
    method CallJitAt(ghost m0: u32)
      requires Valid() && at == DispatcherNoCheck && Agrees(m0)
      modifies this`mxcsr, cpu`temp, jit`js, jit`code, jit`cache, jit`proxies, jit`compilations
      ensures mxcsr == AppliedMxcsr(RestoredMxcsr(old(mxcsr)), cpu.fcr31)
      ensures Jit.BlockAt(jit.cache, Jit.PcValue(cpu.pc)) >= 0
      ensures Agrees(m0)
    {
      var pc := Jit.PcValue(cpu.pc);
      ghost var fcr31 := cpu.fcr31;
      SwitchBack(m0, fcr31);
      RestoreRoundingMode();
      assert mxcsr == RestoredMxcsr(m0);
      jit.Compile(pc);
      assert cpu.fcr31 == fcr31 && mxcsr == RestoredMxcsr(m0);
      ApplyRoundingMode();
    }

    /** A block's host code runs and jumps back into the fixed code. */
    method BlockStep(ghost m0: u32)
      requires Valid() && at.InBlock? && Agrees(m0)
      modifies this`at, this`mxcsr, cpu`pc, cpu`fcr31, cpu`downcount,
               timing`internalTimestamp, timing`lastTs, timing`curSliceLength, timing`nextEventTs, timing`coreState
      ensures var e := services.runBlock(old(at).offset, old(cpu.pc), old(timing.State()), old(cpu.fcr31), old(mxcsr));
              cpu.pc == e.pc && timing.State() == e.clock && cpu.fcr31 == e.fcr31 && mxcsr == e.mxcsr &&
              at == ReentryLabel(e.to)
      ensures Agrees(m0)
    {
      var e := services.runBlock(at.offset, cpu.pc, timing.State(), cpu.fcr31, mxcsr);
      RoundingKept(services, at.offset, cpu.pc, timing.State(), cpu.fcr31, mxcsr);
      SwitchBack(m0, cpu.fcr31);
      SwitchBack(m0, e.fcr31);
      cpu.pc, cpu.fcr31, mxcsr := e.pc, e.fcr31, e.mxcsr;
      timing.internalTimestamp, timing.lastTs, timing.curSliceLength := e.clock.timestamp, e.clock.lastTs, e.clock.sliceLength;
      timing.nextEventTs, timing.coreState := e.clock.nextEvent, e.clock.coreState;
      cpu.downcount := e.clock.downcount;
      at := ReentryLabel(e.to);
    }

    /**
     * The rounding the host's MXCSR holds, given its value `m0` on entry:
     * the host's own outside the guest side and the guest's on it, and
     * control is back in the host only with coreState set.
     */
    predicate Agrees(m0: u32)
      reads this, cpu, timing
    {
      (at == OuterLoop ==> RestoredMxcsr(mxcsr) == RestoredMxcsr(m0)) &&
      (GuestSide(at) ==> mxcsr == AppliedMxcsr(RestoredMxcsr(m0), cpu.fcr31)) &&
      (at == Returned ==> mxcsr == RestoredMxcsr(m0) && timing.coreState != 0)
    }

    /** One step of the fixed code from the current label. */
    method Step(ghost m0: u32)
      requires Valid() && at != Returned && Agrees(m0)
      modifies this`mxcsr, this`at, cpu`temp, cpu`pc, cpu`fcr31, cpu`downcount,
               timing`internalTimestamp, timing`lastTs, timing`curSliceLength, timing`nextEventTs, timing`coreState,
               jit`js, jit`code, jit`cache, jit`proxies, jit`compilations
      ensures Agrees(m0)
    {
      match at
      case OuterLoop => OuterLoopStep(m0);
      case CheckCoreState => CheckStep(m0);
      case Dispatcher => CheckStep(m0);
      case DispatcherNoCheck => DispatchStep(m0);
      case InBlock(_) => BlockStep(m0);
    }

    /**
     * The dispatcher loop, for at most `fuel` steps: it stops only in the
     * host with coreState set and the host's rounding back, and guest code
     * only ever runs with the guest's rounding.
     */
    method Run(fuel: nat) returns (steps: nat)
      requires Valid() && at == OuterLoop
      modifies this`mxcsr, this`at, cpu`temp, cpu`pc, cpu`fcr31, cpu`downcount,
               timing`internalTimestamp, timing`lastTs, timing`curSliceLength, timing`nextEventTs, timing`coreState,
               jit`js, jit`code, jit`cache, jit`proxies, jit`compilations
      ensures steps <= fuel && (at != Returned ==> steps == fuel)
      ensures Agrees(old(mxcsr))
    {
      ghost var m0 := mxcsr;
      steps := 0;
      while steps < fuel && at != Returned
        invariant steps <= fuel && Agrees(m0)
        decreases fuel - steps
      {
        Step(m0);
        steps := steps + 1;
      }
    }
  }
}
