// jit/x86/Jit.cpp: the recompiler's bookkeeping around code emission.
//
// Host code is not modelled as x86 bytes: every piece of code the compiler
// emits is an abstract `HostOp` appended to `Jit.code`, the code space.
// What the per-opcode translators (MIPSCompileOp), the instruction tables
// (MIPSGetInstructionCycleEstimate, MIPSGetInfo), the block cache
// (JitBlockCache) and the prefix helpers of JitState (PrefixStart,
// MayHavePrefix) do is not shown in this model's sources; their results
// come from an `Environment` value fixed when the compiler is created.
module Jit {
  import opened Words
  import opened Mips
  import Breakpoints

  // ---------------------------------------------------------------- JitBreakpoint

  /**
   * JitBreakpoint: 1 when the breakpoint at `pc` should stop the CPU, 0 when
   * it is the one the debugger asked to step over (`skipFirst`) or when the
   * action it executed (`action`, from CBreakPoints::ExecBreakPoint) does not
   * pause.
   */
  function JitBreakpoint(skipFirst: u32, pc: u32, action: Breakpoints.BreakAction): (r: u32)
    ensures r == 0 || r == 1
    ensures r == 1 ==> action & Breakpoints.BreakActionPause != 0
  {
    if skipFirst == pc then 0
    else if action & Breakpoints.BreakActionPause == 0 then 0
    else 1
  }

  /**
   * The bridge stops exactly at an enabled breakpoint that is not being
   * stepped over; a logging-only breakpoint never stops it.
   */
  lemma JitBreakpointStops(skipFirst: u32, bp: Breakpoints.BreakPoint)
    ensures JitBreakpoint(skipFirst, bp.addr, bp.result) == 1 <==> skipFirst != bp.addr && bp.IsEnabled()
    ensures JitBreakpoint(skipFirst, bp.addr, Breakpoints.BreakActionLog) == 0
    ensures JitBreakpoint(bp.addr, bp.addr, bp.result) == 0
  {
  }

  // ---------------------------------------------------------------- emitted code

  /** One piece of emitted host code, by what it does. */
  datatype HostOp =
    | SaveFlags                                 // PUSHF (and its spill on x64)
    | LoadFlags                                 // POPF
    | FlushRegisterCaches                       // gpr.Flush(); fpr.Flush()
    | StoreVfpuCtrl(reg: nat, value: uint32)     // MOV vfpuCtrl[reg], imm
    | SubDowncount(cycles: int)                 // SUB downcount, cycles
    | SetPc(pc: uint32)                         // MOV pc, imm
    | CallRestoreRoundingMode
    | CallApplyRoundingMode
    | CallJitBreakpoint
    | SkipIfZero(count: nat)                    // CMP EAX, 0; JZ over the next `count` ops
    | JumpToCheckCoreState                      // JMP dispatcherCheckCoreState
    | JumpToDispatcher                          // JMP dispatcher
    | OuterLoopIfNegative(pc: uint32)           // checked entry: JNS skip; MOV pc; JMP outerLoop
    | JumpToBlock(checkedEntry: nat)            // a linked exit
    | RedirectToDispatcher(pc: uint32)          // MOV pc; JMP dispatcher, written over a checked entry
    | CallInterpreter(op: u32)                  // the interpreter's function for op
    | Compiled(op: u32, inDelaySlot: bool)      // whatever MIPSCompileOp emits for op

  /** Total size in bytes of some host code, given the size of each op. */
  function Bytes(size: HostOp -> nat, ops: seq<HostOp>): nat
  {
    if ops == [] then 0 else Bytes(size, ops[..|ops| - 1]) + size(ops[|ops| - 1])
  }

  /** The translations of guest instructions in some host code, in order. */
  function Compilations(ops: seq<HostOp>): seq<HostOp>
  {
    if ops == [] then []
    else Compilations(ops[..|ops| - 1]) + (if ops[|ops| - 1].Compiled? then [ops[|ops| - 1]] else [])
  }

  lemma {:induction false} CompilationsAppend(a: seq<HostOp>, b: seq<HostOp>)
    ensures Compilations(a + b) == Compilations(a) + Compilations(b)
    decreases |b|
  {
    if b == [] {
      assert a + b == a;
    } else {
      var last := b[|b| - 1];
      assert (a + b)[..|a + b| - 1] == a + b[..|b| - 1];
      CompilationsAppend(a, b[..|b| - 1]);
    }
  }

  lemma {:induction false} NoCompilations(ops: seq<HostOp>)
    requires forall op :: op in ops ==> !op.Compiled?
    ensures Compilations(ops) == []
    decreases |ops|
  {
    if ops != [] {
      assert ops[|ops| - 1] in ops;
      NoCompilations(ops[..|ops| - 1]);
    }
  }

  // ---------------------------------------------------------------- VFPU prefixes

  /**
   * A JitState::PrefixState: two independent bits, KNOWN (0x01, the value
   * is known at compile time) and DIRTY (0x10, the value still has to be
   * written to the VFPU control register).
   */
  datatype PrefixFlag = PrefixFlag(known: bool, dirty: bool)

  const PrefixUnknownFlag := PrefixFlag(false, false)   // PREFIX_UNKNOWN = 0x00
  const PrefixKnown := PrefixFlag(true, false)          // PREFIX_KNOWN = 0x01
  const PrefixKnownDirty := PrefixFlag(true, true)      // PREFIX_KNOWN_DIRTY = 0x11
  const PrefixDirtyBit: u32 := 0x10

  /** The enum value of a flag. */
  function FlagBits(f: PrefixFlag): u32
  {
    (if f.known then 0x01 else 0) | (if f.dirty then PrefixDirtyBit else 0)
  }

  /** The deferred S/T/D prefixes and their state flags. */
  datatype Prefixes = Prefixes(s: uint32, t: uint32, d: uint32, sFlag: PrefixFlag, tFlag: PrefixFlag, dFlag: PrefixFlag)

  predicate IsDirty(flag: PrefixFlag) { flag.dirty }

  /** `flag & ~PREFIX_DIRTY`. */
  function Flushed(flag: PrefixFlag): PrefixFlag
  {
    flag.(dirty := false)
  }

  /**
   * On the enum values, the dirty test is `& PREFIX_DIRTY` and clearing it is
   * `& ~PREFIX_DIRTY`, which keeps the KNOWN bit.
   */
  lemma FlagBitsAgree(f: PrefixFlag)
    ensures IsDirty(f) <==> FlagBits(f) & PrefixDirtyBit != 0
    ensures FlagBits(Flushed(f)) == FlagBits(f) & !PrefixDirtyBit
    ensures FlagBits(Flushed(f)) & 0x01 == FlagBits(f) & 0x01
  {
  }

  /** The prefix state after FlushPrefixV. */
  function FlushedPrefixes(p: Prefixes): Prefixes
  {
    p.(sFlag := Flushed(p.sFlag), tFlag := Flushed(p.tFlag), dFlag := Flushed(p.dFlag))
  }

  /** The stores FlushPrefixV emits: S, T, then D, each only when dirty. */
  function PrefixStores(p: Prefixes): seq<HostOp>
  {
    (if IsDirty(p.sFlag) then [StoreVfpuCtrl(VfpuCtrlSPrefix, p.s)] else []) +
    (if IsDirty(p.tFlag) then [StoreVfpuCtrl(VfpuCtrlTPrefix, p.t)] else []) +
    (if IsDirty(p.dFlag) then [StoreVfpuCtrl(VfpuCtrlDPrefix, p.d)] else [])
  }

  /**
   * A prefix register is written back exactly when its flag is dirty, and
   * with the deferred value.
   */
  lemma PrefixStoresExactlyDirty(p: Prefixes)
    ensures StoreVfpuCtrl(VfpuCtrlSPrefix, p.s) in PrefixStores(p) <==> IsDirty(p.sFlag)
    ensures StoreVfpuCtrl(VfpuCtrlTPrefix, p.t) in PrefixStores(p) <==> IsDirty(p.tFlag)
    ensures StoreVfpuCtrl(VfpuCtrlDPrefix, p.d) in PrefixStores(p) <==> IsDirty(p.dFlag)
    ensures |PrefixStores(p)| <= 3
    ensures Compilations(PrefixStores(p)) == []
  {
    NoCompilations(PrefixStores(p));
  }

  /**
   * After a flush nothing is dirty, the values and every other flag bit are
   * kept, and a second flush emits nothing and changes nothing.
   */
  lemma FlushPrefixVIdempotent(p: Prefixes)
    ensures var f := FlushedPrefixes(p);
      !IsDirty(f.sFlag) && !IsDirty(f.tFlag) && !IsDirty(f.dFlag) &&
      f.s == p.s && f.t == p.t && f.d == p.d &&
      f.sFlag.known == p.sFlag.known && f.tFlag.known == p.tFlag.known && f.dFlag.known == p.dFlag.known
    ensures PrefixStores(FlushedPrefixes(p)) == []
    ensures FlushedPrefixes(FlushedPrefixes(p)) == FlushedPrefixes(p)
  {
  }

  /** The three prefixes marked unknown (JitState::PrefixUnknown). */
  function UnknownPrefixes(p: Prefixes): Prefixes
  {
    p.(sFlag := PrefixUnknownFlag, tFlag := PrefixUnknownFlag, dFlag := PrefixUnknownFlag)
  }

  // ---------------------------------------------------------------- environment

  /** What the instruction tables say about one opcode (MIPSGetInfo), as far as Comp_Generic looks. */
  datatype OpInfo = OpInfo(hasInterpreter: bool, isVfpu: bool, vfpuNoPrefix: bool, outEatPrefix: bool)

  /** Comp_Generic forgets the prefixes of a VFPU op that may use them but does not eat them. */
  predicate ForgetsPrefixes(info: OpInfo)
  {
    info.isVfpu && !info.vfpuNoPrefix && !info.outEatPrefix
  }

  datatype Environment = Environment(
    opAt: uint32 -> u32,                       // Memory::Read_Opcode_JIT / Read_Instruction
    cycleEstimate: u32 -> nat,                 // MIPSGetInstructionCycleEstimate
    endsBlock: u32 -> bool,                    // MIPSCompileOp ends the block (js.compiling = false)
    prefixAfter: (u32, Prefixes) -> Prefixes,  // how MIPSCompileOp changes the prefix state
    prefixStart: bool -> Prefixes,             // JitState::PrefixStart, by startDefaultPrefix
    mayHavePrefix: Prefixes -> bool,           // JitState::MayHavePrefix
    hostBytes: HostOp -> nat,                  // size of the host code for an op
    codeCapacity: nat,                         // code space left after the fixed code
    maxBlocks: nat,                            // JitBlockCache::IsFull threshold
    maxBlockInstructions: nat,                 // JitBlockCache::MAX_BLOCK_INSTRUCTIONS
    maxBlockExits: nat,                        // MAX_JIT_BLOCK_EXITS
    enableBlocklink: bool,                     // jo.enableBlocklink
    breakpoints: set<uint32>)                  // CBreakPoints::IsAddressBreakPoint
  {
    // Applications of the tables go through these members, so that methods
    // and specifications name the same terms.
    function OpAt(pc: uint32): u32 { opAt(pc) }
    function CycleEstimate(op: u32): nat { cycleEstimate(op) }
    predicate EndsBlock(op: u32) { endsBlock(op) }
    function PrefixAfter(op: u32, p: Prefixes): Prefixes { prefixAfter(op, p) }
    function PrefixStart(startDefault: bool): Prefixes { prefixStart(startDefault) }
    predicate MayHavePrefix(p: Prefixes) { mayHavePrefix(p) }
  }

  /** The cycles of the `n` guest instructions from `start`, as DoJit adds them up. */
  function Cycles(env: Environment, start: uint32, n: nat): int
  {
    if n == 0 then 0 else Cycles(env, start, n - 1) + env.CycleEstimate(env.OpAt(Wrap32(start + 4 * (n - 1))))
  }

  /** The next instruction address. */
  function NextPc(pc: uint32): (r: uint32)
    ensures r == Wrap32(pc + 4)
  {
    Wrap32(pc + 4)
  }

  lemma NextPcStep(start: uint32, n: nat)
    ensures NextPc(Wrap32(start + 4 * n)) == Wrap32(start + 4 * (n + 1))
  {
    Wrap32Add(start + 4 * n, 4);
  }

  // ---------------------------------------------------------------- block cache

  /**
   * The call a RestoreRoundingMode/ApplyRoundingMode emits: `emitted` is
   * whether it was forced or the game has set a rounding mode.
   */
  function RoundingCall(call: HostOp, emitted: bool): (r: seq<HostOp>)
    ensures |r| <= 1 && (r != [] <==> emitted)
  {
    if emitted then [call] else []
  }

  /**
   * What CheckJitBreakpoint emits after the flush: call JitBreakpoint with
   * pc set; when it returns non-zero, charge the cycles and leave through
   * dispatcherCheckCoreState; otherwise go on.
   */
  function BridgeCall(pc: uint32, cycles: int, rounding: bool): seq<HostOp>
  {
    var taken := [SubDowncount(cycles)] + RoundingCall(CallApplyRoundingMode, rounding) + [LoadFlags, JumpToCheckCoreState];
    var call := [SetPc(pc)] + RoundingCall(CallRestoreRoundingMode, rounding) + [CallJitBreakpoint, SkipIfZero(|taken|)];
    var resume := RoundingCall(CallApplyRoundingMode, rounding) + [LoadFlags];
    call + taken + resume
  }

  /** The code CheckJitBreakpoint emits at a breakpoint: save the flags, flush, then the call. */
  function BreakpointBridge(p: Prefixes, pc: uint32, cycles: int, rounding: bool): seq<HostOp>
  {
    ([SaveFlags, FlushRegisterCaches] + PrefixStores(p)) + BridgeCall(pc, cycles, rounding)
  }

  /** The bridge emitted piece by piece is the bridge. */
  lemma BridgeInPieces(c: seq<HostOp>, p: Prefixes, pc: uint32, cycles: int, rounding: bool)
    ensures c + [SaveFlags] + [FlushRegisterCaches] + PrefixStores(p) + BridgeCall(pc, cycles, rounding) ==
            c + BreakpointBridge(p, pc, cycles, rounding)
  {
    assert c + [SaveFlags] + [FlushRegisterCaches] == c + [SaveFlags, FlushRegisterCaches];
  }

  /**
   * The bridge writes every dirty prefix back before the call, compiles no
   * guest instruction, and its only way out of the block is the taken
   * path, which charges the cycles first.
   */
  lemma BridgeShape(p: Prefixes, pc: uint32, cycles: int, rounding: bool)
    ensures var r := BreakpointBridge(p, pc, cycles, rounding);
      r[..2 + |PrefixStores(p)|] == [SaveFlags, FlushRegisterCaches] + PrefixStores(p) &&
      CallJitBreakpoint in r && JumpToCheckCoreState in r && r[|r| - 1] == LoadFlags &&
      Compilations(r) == []
  {
    var r := BreakpointBridge(p, pc, cycles, rounding);
    var flush := [SaveFlags, FlushRegisterCaches] + PrefixStores(p);
    assert r == flush + BridgeCall(pc, cycles, rounding);
    var taken := [SubDowncount(cycles)] + RoundingCall(CallApplyRoundingMode, rounding) + [LoadFlags, JumpToCheckCoreState];
    var call := [SetPc(pc)] + RoundingCall(CallRestoreRoundingMode, rounding) + [CallJitBreakpoint, SkipIfZero(|taken|)];
    var resume := RoundingCall(CallApplyRoundingMode, rounding) + [LoadFlags];
    assert r == flush + (call + taken + resume);
    assert r[..|flush|] == flush;
    assert CallJitBreakpoint in call && JumpToCheckCoreState in taken;
    assert r[|r| - 1] == resume[|resume| - 1];
    NoCompilationsInStores(p);
    forall op | op in r
      ensures !op.Compiled?
    {
      assert op in flush || op in call || op in taken || op in resume;
    }
    NoCompilations(r);
  }

  /** Appending one op that is not a translation adds no guest instruction. */
  lemma PushKeepsCompilations(c: seq<HostOp>, op: HostOp)
    requires !op.Compiled?
    ensures Compilations(c + [op]) == Compilations(c)
  {
    assert (c + [op])[..|c + [op]| - 1] == c;
  }

  /** Appending ops none of which is a translation adds no guest instruction. */
  lemma AppendKeepsCompilations(c: seq<HostOp>, ops: seq<HostOp>)
    requires forall op :: op in ops ==> !op.Compiled?
    ensures Compilations(c + ops) == Compilations(c)
  {
    NoCompilations(ops);
    CompilationsAppend(c, ops);
  }

  /** The bridge emitted piece by piece is the bridge, and it adds no guest instruction. */
  lemma BridgeAppended(c: seq<HostOp>, c': seq<HostOp>, p: Prefixes, pc: uint32, cycles: int, rounding: bool)
    requires c' == c + [SaveFlags] + [FlushRegisterCaches] + PrefixStores(p) + BridgeCall(pc, cycles, rounding)
    ensures c' == c + BreakpointBridge(p, pc, cycles, rounding)
    ensures Compilations(c') == Compilations(c)
  {
    BridgeInPieces(c, p, pc, cycles, rounding);
    BridgeKeepsCompilations(c, p, pc, cycles, rounding);
  }

  /** Appending the bridge adds no guest instruction. */
  lemma BridgeKeepsCompilations(c: seq<HostOp>, p: Prefixes, pc: uint32, cycles: int, rounding: bool)
    ensures Compilations(c + BreakpointBridge(p, pc, cycles, rounding)) == Compilations(c)
  {
    BridgeShape(p, pc, cycles, rounding);
    CompilationsAppend(c, BreakpointBridge(p, pc, cycles, rounding));
  }

  /**
   * The jump that ends an exit: straight into the checked entry of the
   * destination's block when one is cached and block linking is on,
   * otherwise to the dispatcher with pc set to the destination.
   */
  function ExitJump(cache: seq<BlockEntry>, destination: uint32, blocklink: bool): (r: seq<HostOp>)
    ensures r != [] && forall op :: op in r ==> !op.Compiled?
    ensures r[0].JumpToBlock? <==> blocklink && BlockAt(cache, destination) >= 0
    ensures r[0].JumpToBlock? ==> var n := BlockAt(cache, destination);
      cache[n].startAddress == destination && r == [JumpToBlock(cache[n].checkedEntry)]
    ensures !r[0].JumpToBlock? ==> SetPc(destination) in r && r[|r| - 1] == JumpToDispatcher
  {
    var n := BlockAt(cache, destination);
    if n >= 0 && blocklink then [JumpToBlock(cache[n].checkedEntry)] else [SetPc(destination), JumpToDispatcher]
  }

  /** An exit adds no guest instruction. */
  lemma ExitKeepsCompilations(c: seq<HostOp>, cycles: int, jump: seq<HostOp>)
    requires forall op :: op in jump ==> !op.Compiled?
    ensures Compilations(c + [SubDowncount(cycles)] + jump) == Compilations(c)
  {
    PushKeepsCompilations(c, SubDowncount(cycles));
    AppendKeepsCompilations(c + [SubDowncount(cycles)], jump);
  }

  /** The prefix stores are stores, nothing else. */
  lemma NoCompilationsInStores(p: Prefixes)
    ensures forall op :: op in PrefixStores(p) ==> op.StoreVfpuCtrl?
  {
  }

  /** What the block cache keeps of a finished block. */
  datatype BlockEntry = BlockEntry(startAddress: uint32, originalFirstOp: u32, checkedEntry: nat, normalEntry: nat)

  /** GetBlockNumberFromStartAddress: the first block starting at `addr`, or -1. */
  function BlockAt(cache: seq<BlockEntry>, addr: uint32): (r: int)
    ensures -1 <= r < |cache|
    ensures r >= 0 ==> cache[r].startAddress == addr
    ensures r < 0 <==> forall i :: 0 <= i < |cache| ==> cache[i].startAddress != addr
    ensures forall i :: 0 <= i < r ==> cache[i].startAddress != addr
  {
    if cache == [] then -1
    else if cache[0].startAddress == addr then 0
    else var k := BlockAt(cache[1..], addr); if k < 0 then -1 else k + 1
  }

  /** GetBlockNumberFromEmuHackOp: the first block whose code starts at the op's offset, for run-block words only. */
  function BlockOfEmuhack(cache: seq<BlockEntry>, op: u32): (r: int)
    ensures -1 <= r < |cache|
    ensures r >= 0 ==> IsRunBlock(op) && cache[r].normalEntry == EmuhackValue(op) as int
    ensures r < 0 <==> !IsRunBlock(op) || forall i :: 0 <= i < |cache| ==> cache[i].normalEntry != EmuhackValue(op) as int
  {
    if !IsRunBlock(op) then -1 else EntryAt(cache, EmuhackValue(op) as int)
  }

  function EntryAt(cache: seq<BlockEntry>, offset: int): (r: int)
    ensures -1 <= r < |cache|
    ensures r >= 0 ==> cache[r].normalEntry == offset
    ensures r < 0 <==> forall i :: 0 <= i < |cache| ==> cache[i].normalEntry != offset
  {
    if cache == [] then -1
    else if cache[0].normalEntry == offset then 0
    else var k := EntryAt(cache[1..], offset); if k < 0 then -1 else k + 1
  }

  /** Jit::GetOriginalOp: the instruction a run-block word replaced, or the op itself. */
  function GetOriginalOp(cache: seq<BlockEntry>, op: u32): (r: u32)
  {
    var n := BlockOfEmuhack(cache, op);
    if n >= 0 then cache[n].originalFirstOp else op
  }

  /** A word that is not a run-block word comes back unchanged. */
  lemma GetOriginalOpKeeps(cache: seq<BlockEntry>, op: u32)
    requires !IsRunBlock(op)
    ensures GetOriginalOp(cache, op) == op
  {
  }

  /**
   * The run-block word of a block's code offset gives back that block's
   * original first instruction (the first block with that offset).
   */
  lemma GetOriginalOpUndoes(cache: seq<BlockEntry>, k: nat, offset: u32)
    requires k < |cache| && offset < 0x100_0000 && cache[k].normalEntry == offset as int
    requires forall i :: 0 <= i < k ==> cache[i].normalEntry != offset as int
    ensures GetOriginalOp(cache, EmuhackOpcode | offset) == cache[k].originalFirstOp
  {
    RunBlockRoundTrip(offset);
    FirstEntry(cache, offset as int, k);
  }

  lemma {:induction false} FirstEntry(cache: seq<BlockEntry>, offset: int, k: nat)
    requires k < |cache| && cache[k].normalEntry == offset
    requires forall i :: 0 <= i < k ==> cache[i].normalEntry != offset
    ensures EntryAt(cache, offset) == k
    decreases k
  {
    if k > 0 {
      FirstEntry(cache[1..], offset, k - 1);
    }
  }

  /** originalSize: the whole block, or the part before the first continuation. */
  function OriginalSize(lastContinuedPC: uint32, numInstructions: int, initialBlockSize: int): int
  {
    if lastContinuedPC == 0 then numInstructions else initialBlockSize
  }

  /** A guest address as a number. */
  function PcValue(pc: u32): uint32 { pc as int }

  /** A proxy record of a block that continued into another address range. */
  datatype Proxy = Proxy(rootAddress: uint32, startAddress: uint32, size: int, codePtr: nat)


  /** What CheckJitBreakpoint emits for `addr`: the bridge at a breakpoint, nothing elsewhere. */
  function BridgeAt(env: Environment, addr: uint32, p: Prefixes, pc: uint32, cycles: int, rounding: bool): seq<HostOp>
  {
    if addr in env.breakpoints then BreakpointBridge(p, pc, cycles, rounding) else []
  }

  /** The breakpoint bridge CompileDelaySlot emits for the slot's address, two cycles short. */
  function SlotBridge(env: Environment, js: JitState): seq<HostOp>
  {
    BridgeAt(env, NextPc(js.compilerPC), js.prefix, js.compilerPC, js.downcountAmount - 2, js.hasSetRounding)
  }

  /** The slot's instruction compiled in the delay slot, then the flush when asked for. */
  function SlotBody(env: Environment, js: JitState, flush: bool): seq<HostOp>
  {
    var op := env.OpAt(NextPc(js.compilerPC));
    [Compiled(op, true)] + (if flush then [FlushRegisterCaches] + PrefixStores(env.PrefixAfter(op, js.prefix)) else [])
  }

  /** `op` when `emitted`, else nothing. */
  function FlagsOp(op: HostOp, emitted: bool): seq<HostOp>
  {
    if emitted then [op] else []
  }

  /**
   * The code CompileDelaySlot emits: the breakpoint bridge for the slot's
   * address, charging two cycles less; SaveFlags before and LoadFlags after
   * when the slot must keep the host flags; the slot's instruction compiled
   * in the delay slot; and, when asked, the flush after it.
   */
  function DelaySlotCode(env: Environment, js: JitState, safe: bool, flush: bool): seq<HostOp>
  {
    SlotBridge(env, js) + FlagsOp(SaveFlags, safe)
    + SlotBody(env, js.(prefix := BreakpointPrefix(env, NextPc(js.compilerPC), js.prefix)), flush)
    + FlagsOp(LoadFlags, safe)
  }

  /** Code appended piece by piece is the code appended as one. */
  lemma AppendedInOrder(c: seq<HostOp>, a: seq<HostOp>, b: seq<HostOp>, d: seq<HostOp>, e: seq<HostOp>)
    ensures c + a + b + d + e == c + (a + b + d + e)
  {
  }

  // ---------------------------------------------------------------- state

  /** The per-compilation state `js`, a value member of the compiler. */
  datatype JitState = JitState(
    compilerPC: uint32,
    blockStart: uint32,
    numInstructions: int,
    downcountAmount: int,
    inDelaySlot: bool,
    compiling: bool,
    lastContinuedPC: uint32,
    initialBlockSize: int,
    nextExit: nat,
    hasSetRounding: bool,
    lastSetRounding: bool,
    startDefaultPrefix: bool,
    prefix: Prefixes)    // prefixS/T/D and prefixSFlag/TFlag/DFlag

  /** The prefix state after CheckJitBreakpoint at `addr`: flushed exactly at a breakpoint. */
  function BreakpointPrefix(env: Environment, addr: uint32, p: Prefixes): Prefixes
  {
    if addr in env.breakpoints then FlushedPrefixes(p) else p
  }

  /**
   * The block so far: numInstructions instructions from blockStart,
   * compilerPC just past them and their cycles charged.
   */
  ghost predicate Tracks(env: Environment, js: JitState)
  {
    0 <= js.numInstructions &&
    js.compilerPC == Wrap32(js.blockStart + 4 * js.numInstructions) &&
    js.downcountAmount == Cycles(env, js.blockStart, js.numInstructions)
  }

  /** The recompilation triggers still armed: a newly seen rounding mode, and the default-prefix assumption. */
  function Triggers(js: JitState): nat
  {
    (if js.hasSetRounding && !js.lastSetRounding then 1 else 0) + (if js.startDefaultPrefix then 1 else 0)
  }

  /** The parts of a JitBlock the compiler fills in. */
  class JitBlock {
    var checkedEntry: nat
    var normalEntry: nat
    var codeSize: int
    var originalSize: int
    var exitAddress: seq<uint32>
    var exitPtrs: seq<nat>
    var linkStatus: seq<bool>

    ghost predicate Valid()
      reads this
    {
      |exitAddress| == |exitPtrs| == |linkStatus|
    }

    constructor(maxExits: nat)
      ensures Valid() && |exitAddress| == maxExits
      ensures forall i :: 0 <= i < maxExits ==> !linkStatus[i]
    {
      exitAddress := seq(maxExits, _ => 0);
      exitPtrs := seq(maxExits, _ => 0);
      linkStatus := seq(maxExits, _ => false);
    }
  }

  /** The recompiler: its state, its code space and its block cache. */
  class Jit {
    const env: Environment
    const cpu: MipsState
    var js: JitState
    var code: seq<HostOp>
    var cache: seq<BlockEntry>
    var proxies: seq<Proxy>
    ghost var compilations: nat

    constructor(env: Environment, cpu: MipsState, startDefaultPrefix: bool)
      ensures this.env == env && this.cpu == cpu
      ensures js.startDefaultPrefix == startDefaultPrefix
      ensures !js.hasSetRounding && !js.lastSetRounding && !js.compiling && !js.inDelaySlot
      ensures code == [] && cache == [] && proxies == []
    {
      this.env := env;
      this.cpu := cpu;
      js := JitState(0, 0, 0, 0, false, false, 0, 0, 0, false, false, startDefaultPrefix,
                     Prefixes(0, 0, 0, PrefixUnknownFlag, PrefixUnknownFlag, PrefixUnknownFlag));
      code, cache, proxies := [], [], [];
      compilations := 0;
    }

    /** GetSpaceLeft. */
    function SpaceLeft(): int
      reads this
    {
      env.codeCapacity - Bytes(env.hostBytes, code)
    }

    method Emit(ops: seq<HostOp>)
      modifies this`code
      ensures code == old(code) + ops
    {
      code := code + ops;
    }

    /** ClearCache: empty block cache and code space (the fixed code is generated again). */
    method ClearCache()
      modifies this`code, this`cache, this`proxies
      ensures code == [] && cache == [] && proxies == []
      ensures SpaceLeft() == env.codeCapacity
    {
      code, cache, proxies := [], [], [];
    }

    // ------------------------------------------------------------ rounding and flushes

    method RestoreRoundingMode(force: bool)
      modifies this`code
      ensures code == old(code) + RoundingCall(CallRestoreRoundingMode, force || js.hasSetRounding)
    {
      if force || js.hasSetRounding {
        Emit([CallRestoreRoundingMode]);
      }
    }

    method ApplyRoundingMode(force: bool)
      modifies this`code
      ensures code == old(code) + RoundingCall(CallApplyRoundingMode, force || js.hasSetRounding)
    {
      if force || js.hasSetRounding {
        Emit([CallApplyRoundingMode]);
      }
    }

    method FlushPrefixV()
      modifies this`code, this`js
      ensures js == old(js).(prefix := FlushedPrefixes(old(js.prefix)))
      ensures code == old(code) + PrefixStores(old(js.prefix))
    {
      var p := js.prefix;
      if IsDirty(p.sFlag) {
        Emit([StoreVfpuCtrl(VfpuCtrlSPrefix, p.s)]);
        p := p.(sFlag := Flushed(p.sFlag));
      }
      if IsDirty(p.tFlag) {
        Emit([StoreVfpuCtrl(VfpuCtrlTPrefix, p.t)]);
        p := p.(tFlag := Flushed(p.tFlag));
      }
      if IsDirty(p.dFlag) {
        Emit([StoreVfpuCtrl(VfpuCtrlDPrefix, p.d)]);
        p := p.(dFlag := Flushed(p.dFlag));
      }
      js := js.(prefix := p);
    }

    method FlushAll()
      modifies this`code, this`js
      ensures js == old(js).(prefix := FlushedPrefixes(old(js.prefix)))
      ensures code == old(code) + [FlushRegisterCaches] + PrefixStores(old(js.prefix))
      ensures Compilations(code) == Compilations(old(code))
    {
      ghost var c0 := code;
      Emit([FlushRegisterCaches]);
      ghost var c1 := code;
      ghost var stores := PrefixStores(js.prefix);
      FlushPrefixV();
      CompilationsAppend(c0, [FlushRegisterCaches]);
      PrefixStoresExactlyDirty(old(js.prefix));
      CompilationsAppend(c1, stores);
    }

    /** WriteDowncount: charge the block's cycles (plus `offset`) to the downcount. */
    method WriteDowncount(offset: int)
      modifies this`code
      ensures code == old(code) + [SubDowncount(js.downcountAmount + offset)]
    {
      Emit([SubDowncount(js.downcountAmount + offset)]);
    }

    /**
     * CheckJitBreakpoint: at a breakpoint address, emit the bridge into
     * JitBreakpoint; elsewhere emit nothing.
     */
    method CheckJitBreakpoint(addr: uint32, downcountOffset: int) returns (r: bool)
      modifies this`code, this`js
      ensures r == (addr in env.breakpoints)
      ensures js == old(js).(prefix := BreakpointPrefix(env, addr, old(js.prefix)))
      ensures code == old(code) + BridgeAt(env, addr, old(js.prefix), js.compilerPC, js.downcountAmount + downcountOffset, js.hasSetRounding)
      ensures Compilations(code) == Compilations(old(code))
    {
      if addr in env.breakpoints {
        ghost var c0, p0 := code, js.prefix;
        ghost var pc, cycles, rounding := js.compilerPC, js.downcountAmount + downcountOffset, js.hasSetRounding;
        WriteBreakpointBridge(downcountOffset);
        BridgeAppended(c0, code, p0, pc, cycles, rounding);
        r := true;
      } else {
        r := false;
      }
    }

    /** The code CheckJitBreakpoint emits at a breakpoint, one piece after another as the source emits it. */
    method WriteBreakpointBridge(downcountOffset: int)
      modifies this`code, this`js
      ensures js == old(js).(prefix := FlushedPrefixes(old(js.prefix)))
      ensures code == old(code) + [SaveFlags] + [FlushRegisterCaches] + PrefixStores(old(js.prefix)) +
                      BridgeCall(old(js.compilerPC), old(js.downcountAmount) + downcountOffset, old(js.hasSetRounding))
    {
      var cycles := js.downcountAmount + downcountOffset;
      var taken := [SubDowncount(cycles)] + RoundingCall(CallApplyRoundingMode, js.hasSetRounding) + [LoadFlags, JumpToCheckCoreState];
      var call := [SetPc(js.compilerPC)] + RoundingCall(CallRestoreRoundingMode, js.hasSetRounding) +
                  [CallJitBreakpoint, SkipIfZero(|taken|)];
      var resume := RoundingCall(CallApplyRoundingMode, js.hasSetRounding) + [LoadFlags];
      Emit([SaveFlags]);
      FlushAll();
      Emit(call + taken + resume);
    }

    // ------------------------------------------------------------ instructions

    /** MIPSCompileOp: the op's code, the op's effect on the prefixes, and the end of the block for ops that end it. */
    method CompileOp(op: u32)
      modifies this`code, this`js
      ensures code == old(code) + [Compiled(op, js.inDelaySlot)]
      ensures Compilations(code) == Compilations(old(code)) + [Compiled(op, js.inDelaySlot)]
      ensures js == old(js).(compiling := old(js.compiling) && !env.EndsBlock(op),
                             prefix := env.PrefixAfter(op, old(js.prefix)))
    {
      CompilationsAppend(code, [Compiled(op, js.inDelaySlot)]);
      Emit([Compiled(op, js.inDelaySlot)]);
      if env.EndsBlock(op) {
        js := js.(compiling := false);
      }
      js := js.(prefix := env.PrefixAfter(op, js.prefix));
    }

    /**
     * EatInstruction: the next instruction is consumed by the current one:
     * one more instruction, four bytes further, its cycles added.
     */
    method EatInstruction(op: u32)
      modifies this`code, this`js
      ensures js == old(js).(numInstructions := old(js.numInstructions) + 1,
                             compilerPC := NextPc(old(js.compilerPC)),
                             downcountAmount := old(js.downcountAmount) + env.CycleEstimate(op),
                             prefix := BreakpointPrefix(env, NextPc(old(js.compilerPC)), old(js.prefix)))
      ensures Compilations(code) == Compilations(old(code))
    {
      var _ := CheckJitBreakpoint(NextPc(js.compilerPC), 0);
      js := js.(numInstructions := js.numInstructions + 1,
                compilerPC := NextPc(js.compilerPC),
                downcountAmount := js.downcountAmount + env.CycleEstimate(op));
    }

    /**
     * CompileDelaySlot: the instruction after the branch is compiled with
     * inDelaySlot set, and inDelaySlot is clear again afterwards; the
     * breakpoint check charges two cycles less, the branch and its delay
     * slot having been counted already.  DELAYSLOT_SAFE keeps the host
     * flags around it, DELAYSLOT_FLUSH flushes after it.
     */
    method CompileDelaySlot(safe: bool, flush: bool)
      requires !js.inDelaySlot
      modifies this`code, this`js
      ensures var op := env.OpAt(NextPc(old(js.compilerPC)));
        var p := env.PrefixAfter(op, BreakpointPrefix(env, NextPc(old(js.compilerPC)), old(js.prefix)));
        js == old(js).(compiling := old(js.compiling) && !env.EndsBlock(op),
                       prefix := if flush then FlushedPrefixes(p) else p)
      ensures Compilations(code) == Compilations(old(code)) + [Compiled(env.OpAt(NextPc(old(js.compilerPC))), true)]
      ensures code == old(code) + DelaySlotCode(env, old(js), safe, flush)
    {
      ghost var c0, js0 := code, js;
      SlotPrologue(safe);
      ghost var c2 := code;
      CompileInDelaySlot(flush);
      EmitIf(LoadFlags, safe);
      AppendedInOrder(c0, SlotBridge(env, js0), FlagsOp(SaveFlags, safe),
                      SlotBody(env, js0.(prefix := BreakpointPrefix(env, NextPc(js0.compilerPC), js0.prefix)), flush),
                      FlagsOp(LoadFlags, safe));
    }

    /** The start of CompileDelaySlot: the breakpoint check for the slot, then SaveFlags when asked for. */
    method SlotPrologue(safe: bool)
      modifies this`code, this`js
      ensures js == old(js).(prefix := BreakpointPrefix(env, NextPc(old(js.compilerPC)), old(js.prefix)))
      ensures code == old(code) + SlotBridge(env, old(js)) + FlagsOp(SaveFlags, safe)
      ensures Compilations(code) == Compilations(old(code))
    {
      var _ := CheckJitBreakpoint(NextPc(js.compilerPC), -2);
      EmitIf(SaveFlags, safe);
    }

    /** Emit `op` when `emitted`: SaveFlags or LoadFlags around a delay slot. */
    method EmitIf(op: HostOp, emitted: bool)
      requires !op.Compiled?
      modifies this`code
      ensures code == old(code) + FlagsOp(op, emitted)
      ensures Compilations(code) == Compilations(old(code))
    {
      if emitted {
        PushKeepsCompilations(code, op);
        Emit([op]);
      }
    }

    /** The middle of CompileDelaySlot: the delay-slot instruction itself, and the flush when asked for. */
    method CompileInDelaySlot(flush: bool)
      requires !js.inDelaySlot
      modifies this`code, this`js
      ensures var op := env.OpAt(NextPc(old(js.compilerPC)));
        var p := env.PrefixAfter(op, old(js.prefix));
        js == old(js).(compiling := old(js.compiling) && !env.EndsBlock(op),
                       prefix := if flush then FlushedPrefixes(p) else p)
      ensures Compilations(code) == Compilations(old(code)) + [Compiled(env.OpAt(NextPc(old(js.compilerPC))), true)]
      ensures code == old(code) + SlotBody(env, old(js), flush)
    {
      js := js.(inDelaySlot := true);
      var op := env.OpAt(NextPc(js.compilerPC));
      CompileOp(op);
      js := js.(inDelaySlot := false);
      if flush {
        FlushAll();
      }
    }

    /**
     * Comp_Generic: fall back to the interpreter for `op` (with pc set and
     * the host rounding mode restored around the call), and forget the
     * prefixes when the op may use them without eating them.
     */
    method CompGeneric(op: u32, info: OpInfo)
      modifies this`code, this`js
      ensures js == old(js).(prefix := if ForgetsPrefixes(info) then UnknownPrefixes(old(js.prefix))
                                       else FlushedPrefixes(old(js.prefix)))
      ensures code == old(code) + [FlushRegisterCaches] + PrefixStores(old(js.prefix)) +
                      (if info.hasInterpreter
                       then RoundingCall(CallRestoreRoundingMode, js.hasSetRounding) + [SetPc(js.compilerPC), CallInterpreter(op)] +
                            RoundingCall(CallApplyRoundingMode, js.hasSetRounding)
                       else [])
    {
      FlushAll();
      if info.hasInterpreter {
        RestoreRoundingMode(false);
        Emit([SetPc(js.compilerPC), CallInterpreter(op)]);
        ApplyRoundingMode(false);
      }
      if ForgetsPrefixes(info) {
        js := js.(prefix := UnknownPrefixes(js.prefix));
      }
    }

    // ------------------------------------------------------------ exits and blocks

    /**
     * WriteExit: charge the cycles, record the exit, and jump straight into
     * the destination's block when there is one and linking is on;
     * otherwise set pc and go back to the dispatcher.
     */
    method WriteExit(destination: uint32, exitNum: nat, b: JitBlock)
      requires b.Valid() && exitNum < |b.exitAddress|
      modifies this`code, b`exitAddress, b`exitPtrs, b`linkStatus
      ensures b.Valid()
      ensures b.exitAddress == old(b.exitAddress)[exitNum := destination]
      ensures b.exitPtrs == old(b.exitPtrs)[exitNum := |old(code)| + 1]
      ensures code == old(code) + [SubDowncount(js.downcountAmount)] + ExitJump(cache, destination, env.enableBlocklink)
      ensures b.linkStatus == if BlockAt(cache, destination) >= 0 && env.enableBlocklink
                              then old(b.linkStatus)[exitNum := true] else old(b.linkStatus)
      ensures Compilations(code) == Compilations(old(code))
    {
      var block := BlockAt(cache, destination);
      ExitKeepsCompilations(code, js.downcountAmount, ExitJump(cache, destination, env.enableBlocklink));
      WriteDowncount(0);
      b.exitAddress := b.exitAddress[exitNum := destination];
      b.exitPtrs := b.exitPtrs[exitNum := |code|];
      if block >= 0 && env.enableBlocklink {
        Emit([JumpToBlock(cache[block].checkedEntry)]);
        b.linkStatus := b.linkStatus[exitNum := true];
      } else {
        Emit([SetPc(destination), JumpToDispatcher]);
      }
    }

    /** UnlinkBlock: whoever enters the block through its checked entry is sent to the dispatcher with the original pc. */
    method UnlinkBlock(checkedEntry: nat, originalAddress: uint32)
      requires checkedEntry < |code|
      modifies this`code
      ensures code == old(code)[checkedEntry := RedirectToDispatcher(originalAddress)]
    {
      code := code[checkedEntry := RedirectToDispatcher(originalAddress)];
    }

    /**
     * AddContinuedBlock: the first continuation remembers the size of the
     * root block; later ones record a proxy for the range just compiled.
     */
    method AddContinuedBlock(dest: uint32)
      modifies this`js, this`proxies
      ensures old(js.lastContinuedPC) == 0 ==>
                js == old(js).(initialBlockSize := old(js.numInstructions), lastContinuedPC := dest) &&
                proxies == old(proxies)
      ensures old(js.lastContinuedPC) != 0 ==>
                js == old(js).(lastContinuedPC := dest) &&
                proxies == old(proxies) + [Proxy(js.blockStart, old(js.lastContinuedPC),
                                                 Wrap32(js.compilerPC - old(js.lastContinuedPC)) / 4, |code|)]
    {
      if js.lastContinuedPC == 0 {
        js := js.(initialBlockSize := js.numInstructions);
      } else {
        proxies := proxies + [Proxy(js.blockStart, js.lastContinuedPC,
                                    Wrap32(js.compilerPC - js.lastContinuedPC) / 4, |code|)];
      }
      js := js.(lastContinuedPC := dest);
    }

    /**
     * One trip round DoJit's loop up to the block-end rule: check for a
     * breakpoint, charge the cycles of the instruction at compilerPC,
     * compile it and step past it.
     */
    method CompileNextInstruction() returns (op: u32)
      requires !js.inDelaySlot && Tracks(env, js)
      modifies this`code, this`js
      ensures op == env.OpAt(old(js.compilerPC))
      ensures js == old(js).(compilerPC := NextPc(old(js.compilerPC)),
                             numInstructions := old(js.numInstructions) + 1,
                             downcountAmount := old(js.downcountAmount) + env.CycleEstimate(op),
                             compiling := old(js.compiling) && !env.EndsBlock(op),
                             prefix := env.PrefixAfter(op, BreakpointPrefix(env, old(js.compilerPC), old(js.prefix))))
      ensures Tracks(env, js)
      ensures op == env.OpAt(Wrap32(js.blockStart + 4 * (js.numInstructions - 1)))
      ensures old(code) <= code
      ensures Compilations(code) == Compilations(old(code)) + [Compiled(op, false)]
    {
      NextPcStep(js.blockStart, js.numInstructions);
      var _ := CheckJitBreakpoint(js.compilerPC, 0);
      op := env.OpAt(js.compilerPC);
      js := js.(downcountAmount := js.downcountAmount + env.CycleEstimate(op));
      CompileOp(op);
      js := js.(compilerPC := NextPc(js.compilerPC), numInstructions := js.numInstructions + 1);
    }

    /**
     * The block-end rule's branch of DoJit: flush, write an exit to the next
     * instruction as exit number nextExit, and stop compiling.
     */
    method EndBlock(b: JitBlock)
      requires b.Valid() && js.nextExit < |b.exitAddress|
      modifies this`code, this`js, b`exitAddress, b`exitPtrs, b`linkStatus
      ensures js == old(js).(prefix := FlushedPrefixes(old(js.prefix)), nextExit := old(js.nextExit) + 1, compiling := false)
      ensures b.Valid() && |b.exitAddress| == |old(b.exitAddress)|
      ensures b.exitAddress[old(js.nextExit)] == js.compilerPC
      ensures old(code) <= code
      ensures Compilations(code) == Compilations(old(code))
    {
      FlushAll();
      WriteExit(js.compilerPC, js.nextExit, b);
      js := js.(nextExit := js.nextExit + 1, compiling := false);
    }

    /**
     * DoJit's loop invariant: the block so far runs from `start`; while
     * compiling, no exit is written and the instruction limit is not passed;
     * once stopped, either the last op ended the block or exit 0, to the next
     * instruction, was written because the block-end rule fired.  The
     * recompilation triggers are those of `flags`.
     */
    ghost predicate Building(b: JitBlock, start: uint32, exits: nat, flags: JitState)
      reads this`js, b`exitAddress, b`exitPtrs, b`linkStatus
    {
      |b.exitAddress| == |b.exitPtrs| == |b.linkStatus| == exits && exits > 0 &&
      !js.inDelaySlot && js.lastContinuedPC == 0 && js.blockStart == start &&
      js.hasSetRounding == flags.hasSetRounding && js.lastSetRounding == flags.lastSetRounding &&
      js.startDefaultPrefix == flags.startDefaultPrefix &&
      Tracks(env, js) &&
      (js.compiling ==> js.numInstructions <= env.maxBlockInstructions && js.nextExit == 0) &&
      (!js.compiling ==> 1 <= js.numInstructions && js.nextExit <= 1 &&
                         (js.nextExit == 1 ==> b.exitAddress[0] == js.compilerPC) &&
                         (js.nextExit == 0 ==> env.EndsBlock(env.OpAt(Wrap32(js.blockStart + 4 * (js.numInstructions - 1))))) &&
                         (js.numInstructions < env.maxBlockInstructions || js.nextExit == 1))
    }

    /**
     * The body of DoJit's loop: compile the next instruction, then apply
     * the block-end rule (less than 0x800 bytes of code space left, or
     * MAX_BLOCK_INSTRUCTIONS reached).
     */
    method DoJitStep(b: JitBlock, ghost start: uint32, ghost exits: nat, ghost flags: JitState)
      requires Building(b, start, exits, flags) && js.compiling
      modifies this`code, this`js, b`exitAddress, b`exitPtrs, b`linkStatus
      ensures Building(b, start, exits, flags)
      ensures js.numInstructions == old(js.numInstructions) + 1
      ensures js.compiling ==> js.numInstructions < env.maxBlockInstructions
      ensures old(code) <= code
    {
      var op := CompileNextInstruction();
      if SpaceLeft() < 0x800 || js.numInstructions >= env.maxBlockInstructions {
        EndBlock(b);
      }
    }

    /**
     * DoJit, bookkeeping only: compile instruction after instruction from
     * the CPU's pc until an op ends the block or the block-end rule fires,
     * in which case an exit to the next pc is written as exit 0.
     */
    method DoJit(emAddress: uint32, b: JitBlock)
      requires b.Valid() && |b.exitAddress| > 0
      modifies this`code, this`js,
               b`checkedEntry, b`normalEntry, b`codeSize, b`originalSize,
               b`exitAddress, b`exitPtrs, b`linkStatus
      ensures Triggers(js) == Triggers(old(js))
      ensures Building(b, PcValue(cpu.pc), |old(b.exitAddress)|, old(js)) && !js.compiling
      ensures b.originalSize == js.numInstructions
      ensures old(code) <= code
      ensures b.checkedEntry == |old(code)| && b.normalEntry == b.checkedEntry + 1 <= |code|
      ensures code[b.checkedEntry] == OuterLoopIfNegative(PcValue(cpu.pc))
      ensures b.codeSize == |code| - b.normalEntry
    {
      var start := PcValue(cpu.pc);
      js := js.(blockStart := start, compilerPC := start, lastContinuedPC := 0, initialBlockSize := 0,
                nextExit := 0, downcountAmount := 0, compiling := true, inDelaySlot := false,
                prefix := env.PrefixStart(js.startDefaultPrefix));
      b.checkedEntry := |code|;
      Emit([OuterLoopIfNegative(js.blockStart)]);
      b.normalEntry := |code|;
      js := js.(numInstructions := 0);
      Wrap32Identity(start);
      ghost var exits, flags := |b.exitAddress|, old(js);
      while js.compiling
        invariant Building(b, start, exits, flags)
        invariant old(code) <= code && b.checkedEntry == |old(code)| && b.normalEntry == b.checkedEntry + 1 <= |code|
        invariant code[b.checkedEntry] == OuterLoopIfNegative(start)
        decreases js.compiling, env.maxBlockInstructions - js.numInstructions
      {
        DoJitStep(b, start, exits, flags);
      }

      b.codeSize := |code| - b.normalEntry;
      b.originalSize := OriginalSize(js.lastContinuedPC, js.numInstructions, js.initialBlockSize);
    }

    /**
     * Compile: make room first (clearing everything when less than 0x10000
     * bytes are left or the block table is full), compile the block, and
     * when the block showed a rounding mode in use for the first time or an
     * uneaten prefix under the default-prefix assumption, disarm that
     * trigger, clear everything and compile again.  Each trigger fires at
     * most once, so there are at most three compilations.
     */
    /** One pass of Compile: DoJit into a fresh block, which is added to the cache. */
    method CompileBlock(emAddress: uint32)
      requires env.maxBlockExits > 0
      modifies this`code, this`cache, this`compilations, this`js
      ensures Triggers(js) == Triggers(old(js))
      ensures js.startDefaultPrefix ==> old(js.startDefaultPrefix)
      ensures compilations == old(compilations) + 1
      ensures |cache| == |old(cache)| + 1 && cache[..|old(cache)|] == old(cache)
      ensures cache[|cache| - 1].startAddress == emAddress && cache[|cache| - 1].originalFirstOp == env.OpAt(emAddress)
      ensures old(code) <= code && cache[|cache| - 1].checkedEntry == |old(code)|
      ensures cache[|cache| - 1].normalEntry == cache[|cache| - 1].checkedEntry + 1 <= |code|
    {
      var b := new JitBlock(env.maxBlockExits);
      DoJit(emAddress, b);
      cache := cache + [BlockEntry(emAddress, env.OpAt(emAddress), b.checkedEntry, b.normalEntry)];
      compilations := compilations + 1;
    }

    method Compile(emAddress: uint32)
      requires env.maxBlocks > 0 && env.maxBlockExits > 0
      modifies this`code, this`cache, this`proxies, this`compilations, this`js
      decreases Triggers(js)
      ensures !(js.hasSetRounding && !js.lastSetRounding)
      ensures js.startDefaultPrefix ==> !env.MayHavePrefix(js.prefix)
      ensures js.startDefaultPrefix ==> old(js.startDefaultPrefix)
      ensures old(compilations) < compilations <= old(compilations) + 1 + Triggers(old(js))
      ensures |cache| > 0 && cache[|cache| - 1].startAddress == emAddress
      ensures cache == old(cache) + [cache[|cache| - 1]] || |cache| == 1
      ensures (old(SpaceLeft()) < 0x10000 || |old(cache)| >= env.maxBlocks) ==> |cache| == 1
    {
      if SpaceLeft() < 0x10000 || |cache| >= env.maxBlocks {
        ClearCache();
      }
      CompileBlock(emAddress);

      var cleanSlate := false;
      if js.hasSetRounding && !js.lastSetRounding {
        js := js.(lastSetRounding := js.hasSetRounding);
        cleanSlate := true;
      }
      if js.startDefaultPrefix && env.MayHavePrefix(js.prefix) {
        js := js.(startDefaultPrefix := false);
        cleanSlate := true;
      }
      if cleanSlate {
        ClearCache();
        Compile(emAddress);
      }
    }
  }
}
