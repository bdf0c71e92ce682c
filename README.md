# A verified model of the Beetle PSX recompiler core

Beetle PSX is a PlayStation emulator. This variant runs guest MIPS code
through a dynamic recompiler to x86. The recompiler comes from a PSP
emulator and is wired to the PlayStation bus. This project models the
parts of that system that decide what happens, and proves what they
promise. Host code is represented by abstract operations, not by x86
bytes.

- **Compiler bookkeeping** (`jit.dfy`, module `Jit`). The `Jit` class
  covers:
  - the per-block state `js`: compiler pc, instruction count, downcount
    charge, the VFPU prefix flags and the delay-slot flag;
  - the code space as a sequence of abstract host operations;
  - the block cache and proxy records.

  `DoJit` is a `while (js.compiling)` loop proved against its loop
  invariant. `Compile` recompiles at most once for each of its two
  triggers.
- **Fixed code** (`asm_dispatch.dfy`, module `Asm`). This covers:
  - the MXCSR rounding switches, which translate the guest's FCR31 into
    the rounding-control and flush-to-zero bits that section 10.2.3 of
    the Intel 64 and IA-32 Architectures Software Developer's Manual,
    Volume 1, defines;
  - the dispatcher loop as moves between its labels (outerLoop,
    dispatcherCheckCoreState, dispatcher and dispatcherNoCheck).
- **CPU exception entry and coprocessor-0 moves** (`cpu_exception.dfy`).
- **The timing counter** (`timestamp.dfy`): `internal_timestamp`,
  `last_ts`, `cur_slice_length`, `downcount` and `coreState`, with uint32
  and int32 wrap-around written out.
- **The emuhack opcodes and the parts of MIPSState the recompiler touches**
  (`mips.dfy`).
- **Two models of guest memory**, which disagree on which addresses are
  valid:
  - the mednafen bus: `masmem.dfy` (module `PsxBus`) and `masmem_h.dfy`
    (module `MasMem`, the byte buffer `MultiAccessSizeMem`);
  - the recompiler's memory arena: `memmap_h.dfy`, `memmap_functions.dfy`
    and `memmap.dfy`.

  Both sit on the byte swaps in `swap.dfy` and on the instruction-cache
  and BIU tables in `jit_icache.dfy`.
- **Helpers**:
  - population count and count-trailing-zeros (`bitset.dfy`);
  - breakpoint flags (`breakpoints.dfy`);
  - the register-usage record (`analyst.dfy`);
  - path splitting (`file_util.dfy`);
  - disassembly line arithmetic (`disassembly.dfy`).
- `words.dfy` holds the shared vocabulary: 32-bit words as bit vectors
  and as numbers modulo 2^32, plus `Option`.

Modelling choices:

- Code that updates state in place is modelled as classes with
  `modifies` clauses. These are the recompiler, the timing globals, the
  bus, the arena and the cache tables. Each method is tied to a pure
  specification function of the old state, and the properties are proved
  about those functions.
- Calls into code that the sources do not show become parameters, each
  named after the source function it stands for:
  - per-opcode translation, the instruction tables and the block cache
    (`Jit.Environment`);
  - the peripherals (`PsxBus.Devices`);
  - TIMER_Advance, JitAt and block execution (`Asm.Services`).
- Where the code and its documentation disagree, the model follows the
  code. Where the code evidently does not do what was intended, the
  defect is modelled as written next to a corrected definition (see
  "## Findings"):
  - the bus (`PsxBus.Bus`) follows the code as written: its reads charge
    with the as-written JTTTS_increment_timestamp, read the controller
    ports as all ones, and index the SysControl registers and shift their
    lanes as the code does. The corrected definitions (`DeviceRead`,
    `SysControlRead`, `SysControlWrite`, `ReadClockIntended`,
    `Timing.Increment`) are the reference the differences are proved
    against;
  - the path helpers and the memory arena use the corrected definitions,
    and the as-written ones are kept beside them with the input that
    shows the difference.

## Model

| member | source | states |
|---|---|---|
| Mips.EmuhackTopByte | jit/MIPS.h:46-48 | MIPS_IS_EMUHACK holds exactly for top bytes 0x68-0x6B, MIPS_IS_RUNBLOCK exactly for top byte 0x68, MIPS_IS_REPLACEMENT exactly for top byte 0x6A |
| Mips.EmuhackKinds | jit/MIPS.h:46-50 | every run-block word and every replacement word is an emuhack word, and no word is both |
| Mips.EmuhackValue | jit/MIPS.h:39 | the payload `op & MIPS_EMUHACK_VALUE_MASK` is below 2^24, and a run-block word is 0x68000000 or-ed with its payload |
| Mips.RunBlockRoundTrip | jit/MIPS.h:36-47 | the run-block word built from a 24-bit block offset is a run-block word and carries that offset back out |
| Mips.VfpuWriteMask | jit/MIPS.h:307-309 | the write mask is bits 8-11 of the destination-prefix control register, so it is at most 15 |
| Mips.VfpuWriteMaskLanes | jit/MIPS.h:307-312 | for lanes 0-3 the one-lane query VfpuWriteMask(i) is bit i of VfpuWriteMask() |
| ByteSwap.Swap16 | mednafen/mednafen.h:86 | swap16 reverses the two bytes of its argument |
| ByteSwap.Swap32 | mednafen/mednafen.h:87 | swap32, built from swap16 of both halves, reverses the four bytes |
| ByteSwap.Swap64 | mednafen/mednafen.h:88 | swap64, built from swap32 of both halves, reverses the eight bytes |
| ByteSwap.Swap16Involution | mednafen/mednafen.h:77-86 | swap16(swap16(x)) == x |
| ByteSwap.Swap32Involution | mednafen/mednafen.h:78-87 | swap32(swap32(x)) == x |
| ByteSwap.Swap64Involution | mednafen/mednafen.h:79-88 | swap64(swap64(x)) == x |
| ByteSwap.Swap16At | mednafen/mednafen.h:91 | the pointer overload answers the two bytes at the pointer in reverse order |
| ByteSwap.Swap32At | mednafen/mednafen.h:92 | the pointer overload answers the four bytes at the pointer in reverse order |
| ByteSwap.Swap64At | mednafen/mednafen.h:93 | the pointer overload answers the eight bytes at the pointer in reverse order |
| ByteSwap.Bytes16RoundTrip | mednafen/mednafen.h:91 | a 16-bit word rebuilt from its little-endian bytes is the word |
| ByteSwap.Bytes32RoundTrip | mednafen/mednafen.h:92 | a 32-bit word rebuilt from its little-endian bytes is the word |
| ByteSwap.Bytes64RoundTrip | mednafen/mednafen.h:93 | a 64-bit word rebuilt from its little-endian bytes is the word |
| ByteSwap.Bytes16RoundTripBack | mednafen/mednafen.h:91 | bytes read as a 16-bit word and split again are the bytes |
| ByteSwap.Bytes32RoundTripBack | mednafen/mednafen.h:92 | bytes read as a 32-bit word and split again are the bytes |
| ByteSwap.Bytes64RoundTripBack | mednafen/mednafen.h:93 | bytes read as a 64-bit word and split again are the bytes |
| Timestamp.Folded | mednafen/jittimestamp.cpp:27-28 | the folded timestamp is `internal_timestamp + (cur_slice_length - downcount)` modulo 2^32 |
| Timestamp.FoldedUnstarted | mednafen/jittimestamp.cpp:27-28 | a slice in which nothing has run folds to the timestamp itself |
| Timestamp.FoldedAfterCharge | mednafen/jittimestamp.h:20-33 | charging inc cycles to the timestamp and to both counters moves the folded timestamp by exactly inc |
| Timestamp.FoldedAfterReset | mednafen/jittimestamp.h:20-24 | charging inc cycles and restarting the slice at the downcount leaves a folded timestamp that counts only inc |
| Timestamp.ChargeKeepsSlice | mednafen/jittimestamp.h:28-33 | charging the same amount to the slice length and the downcount keeps the cycles run in the slice |
| Timestamp.ChargeKeepsSchedule | mednafen/jittimestamp.h:28-33 | moving the timestamp on by what the slice is shortened by keeps the slice's end |
| Timestamp.ScheduleReached | mednafen/jittimestamp.cpp:29 | a slice of length `next - now` started at now ends at next, modulo 2^32 |
| Timestamp.SliceSign | mednafen/jittimestamp.cpp:29-35 | the slice length `next - now` is negative exactly when the event is in the past, for times less than 2^31 apart |
| Timestamp.InitRestarts | mednafen/jittimestamp.cpp:9-11 | JITTS_Init sets the timestamp to 0 and changes nothing else |
| Timestamp.IncrementKeepsTime | mednafen/jittimestamp.h:20-24 | the corrected increment moves the folded timestamp by exactly inc |
| Timestamp.IncrementKeepsSlice | mednafen/jittimestamp.h:20-24 | the corrected increment lowers the downcount by inc, keeps the cycles run in the slice, and leaves the next event and the core state alone |
| Timestamp.IncrementKeepsSchedule | mednafen/jittimestamp.h:20-24 | the corrected increment keeps a slice that ends at the next event ending there |
| Timestamp.IncrementAsWrittenDropsSlice | mednafen/jittimestamp.h:20-24 | the increment as written folds to `timestamp + inc`, which is the due time exactly when no cycle had run in the slice; with none run it agrees with the corrected one |
| Timestamp.DirectAccessKeepsSlice | mednafen/jittimestamp.h:28-33 | update_from_direct_access charges `timestamp - last_ts` to both counters, keeps the cycles run in the slice and brings last_ts up to date |
| Timestamp.DirectAccessKeepsSchedule | mednafen/jittimestamp.h:28-33 | charging a direct change of the timestamp keeps the end of the slice where it was |
| Timestamp.DirectAccessIdempotent | mednafen/jittimestamp.h:28-33 | with nothing to charge it changes nothing, so a second call is a no-op |
| Timestamp.NothingToCharge | mednafen/jittimestamp.h:28-33 | when last_ts equals the timestamp the update changes nothing |
| Timestamp.UpdateFromDowncountFolds | mednafen/jittimestamp.cpp:25-38 | update_from_downcount folds the slice into the timestamp and last_ts, starts a slice ending at the next event with the downcount equal to it, and sets NEXTFRAME exactly when that slice is negative |
| Timestamp.SetNextEventSchedules | mednafen/jittimestamp.cpp:13-19 | set_next_event(ts) records ts, folds the slice, schedules the slice to end at ts and leaves the core running unless the event is already due |
| Timestamp.ForceCheckEndsSlice | mednafen/jittimestamp.cpp:40-45 | force_check folds the slice into the timestamp and leaves a negative downcount with nothing pending; last_ts is not updated |
| Timestamp.IncrementDropsPending | mednafen/jittimestamp.h:20-24 | with 40 of 100 cycles run, charging 3 as written leaves 3 to fold where 43 are due |
| Timestamp.Timing.constructor | mednafen/jittimestamp.cpp:4-7 | every global starts at 0 and the core is running |
| Timestamp.Timing.Init | mednafen/jittimestamp.cpp:9-11 | JITTS_Init changes the globals as AfterInit says |
| Timestamp.Timing.IncrementAsWritten | mednafen/jittimestamp.h:20-24 | JTTTS_increment_timestamp as written changes the globals as AfterIncrementAsWritten says |
| Timestamp.Timing.Increment | mednafen/jittimestamp.h:20-24 | the corrected increment changes the globals as AfterIncrement says |
| Timestamp.Timing.UpdateFromDirectAccess | mednafen/jittimestamp.h:28-33 | JTTTS_update_from_direct_access changes the globals as AfterUpdateFromDirectAccess says |
| Timestamp.Timing.SetMinTimestamp | mednafen/jittimestamp.h:37-41 | the timestamp becomes, and the call answers, the smaller of the two |
| Timestamp.Timing.SetMaxTimestamp | mednafen/jittimestamp.h:43-47 | the timestamp becomes, and the call answers, the larger of the two |
| Timestamp.Timing.SetTimestamp | mednafen/jittimestamp.h:49 | the timestamp becomes the given one |
| Timestamp.Timing.GetTimestamp | mednafen/jittimestamp.h:50 | answers the stored timestamp |
| Timestamp.Timing.UpdateFromDowncount | mednafen/jittimestamp.cpp:25-38 | JITTS_update_from_downcount changes the globals as AfterUpdateFromDowncount says |
| Timestamp.Timing.SetNextEvent | mednafen/jittimestamp.cpp:13-19 | JITTS_set_next_event changes the globals as AfterSetNextEvent says |
| Timestamp.Timing.GetNextEvent | mednafen/jittimestamp.cpp:21 | answers next_event_ts |
| Timestamp.Timing.ForceCheck | mednafen/jittimestamp.cpp:40-45 | JITTS_force_check changes the globals as AfterForceCheck says |
| JitICache.StoredBiuClears | jit/Memory/jitICache.cpp:38 | the BIU value kept has bits 0x440 clear and agrees with the written value in every other bit |
| JitICache.TvAfterBiuBitZero | jit/Memory/jitICache.cpp:40-54 | a BIU write changes only bit 0 of a TV word, only when the I-cache enable bit toggles, and then clears it exactly when the cache is being enabled |
| JitICache.CoversOnePage | jit/Memory/jitICache.cpp:22-23 | a one-page region at a page boundary covers exactly that FastMap entry |
| JitICache.StepPage | jit/Memory/jitICache.cpp:31-32 | step j of the FastMap walk lands on page `address >> 16` plus j |
| JitICache.ICacheState.constructor | jit/Memory/jitICache.cpp:4-7 | the static initialisers leave BIU 0, every cache line zero and every FastMap entry null |
| JitICache.ICacheState.SetFastmap | jit/Memory/jitICache.cpp:26-33 | JitSetFastmap points exactly the entries of the pages the region covers at the region biased by its address, and leaves all other entries as they were |
| JitICache.ICacheState.InitICache | jit/Memory/jitICache.cpp:9-24 | JitInitICache sets every line to TV 3 and data 0, fills the dummy page with 0xFF and maps every page of the 4 GiB space to the dummy page |
| JitICache.ICacheState.SetBiu | jit/Memory/jitICache.cpp:35-55 | JitSetBIU stores the value without bits 0x440 and changes each line's TV as TvAfterBiu says, its data never |
| BitSet.PopCount32 | jit/Common/BitSet.h:36 | CountSetBits(uint32) is at most 32 |
| BitSet.PopCount64 | jit/Common/BitSet.h:37 | CountSetBits(uint64) is at most 64 |
| BitSet.OnesAdd32 | jit/Common/BitSet.h:16-19 | counting a + b bits is counting a bits, then b bits of what lies above them |
| BitSet.PopCountByBytes32 | jit/Common/BitSet.h:16-19 | the bit count of a word is the sum of the counts of its four bytes |
| BitSet.CountBvIsCount32 | jit/Common/BitSet.h:16-19 | a count of up to 32 bits kept in a 32-bit register never overflows and equals the count |
| BitSet.HackTotalBytes32 | jit/Common/BitSet.h:16-19 | the bit hack's register holds the sum of the counts of the four bytes |
| BitSet.CountSetBitsHack32 | jit/Common/BitSet.h:11-20 | the bit-twiddling CountSetBits<uint32> answers the number of 1 bits, the same as the builtin |
| BitSet.LeastSignificantSetBit32 | jit/Common/BitSet.h:21-26 | for a nonzero value, the index answered is below 32, holds a 1 bit, and every bit below it is 0 |
| BitSet.LeastSignificantSetBit64 | jit/Common/BitSet.h:28-33 | for a nonzero value, the index answered is below 64, holds a 1 bit, and every bit below it is 0 |
| Breakpoints.Or | jit/Debugger/Breakpoints.h:36-38 | `lhs \| rhs` carries LOG, and PAUSE, exactly when either operand does |
| Breakpoints.OrLaws | jit/Debugger/Breakpoints.h:31-38 | combining actions is commutative, adding a flag twice changes nothing, and IGNORE is neutral |
| Breakpoints.BreakActionVar.OrAssign | jit/Debugger/Breakpoints.h:31-34 | `lhs \|= rhs` stores `lhs \| rhs` and returns the new value |
| Breakpoints.Evaluate | jit/Debugger/Breakpoints.h:50-55 | a condition evaluates to the parsed value, or 0 when the expression does not parse |
| Breakpoints.BreakPointOrder | jit/Debugger/Breakpoints.h:78-80 | `<` on breakpoints is irreflexive and transitive |
| Breakpoints.BreakPointEquality | jit/Debugger/Breakpoints.h:75-80 | two breakpoints are equal exactly when their addresses are, and equal ones are unordered |
| Breakpoints.EnableByPause | jit/Debugger/Breakpoints.h:71-73 | adding PAUSE to a breakpoint's action enables it; adding LOG leaves its enabled state as it was |
| Breakpoints.MemCheckEquality | jit/Debugger/Breakpoints.h:118-120 | two memory checks are equal exactly when their ranges are; equality is reflexive and symmetric |
| FileUtil.StopIndex | jit/Common/FileUtil.cpp:120-121 | the stripping walk stops at the last index whose character `strchr(DIR_SEP_CHRS, c)` does not match, or at 0, and every character above it is matched |
| FileUtil.NulsAfter | jit/Common/FileUtil.cpp:121 | overwriting with NUL keeps the length and the prefix up to the stop, and every later character is NUL |
| FileUtil.StrippedTail | jit/Common/FileUtil.cpp:113-124 | stripping never changes the string's length |
| FileUtil.StripTailDirSlashes | jit/Common/FileUtil.cpp:113-124 | with the walk kept inside the string, the array afterwards is StrippedTail of the array before: a string of length at most 1 is unchanged, and trailing separators (and NULs) are overwritten with NUL, keeping the first character |
| FileUtil.StripTailDirSlashesAsWritten | jit/Common/FileUtil.cpp:113-124 | the loop as written, run on a string that has an unmatched character before its trailing separators, strips exactly as StrippedTail says |
| FileUtil.NoStop | jit/Common/FileUtil.cpp:120 | a string whose every character is matched has no character that stops the walk |
| FileUtil.AllSlashesRunPastStart | jit/Common/FileUtil.cpp:113-121 | "//" passes the length guard yet has no stopping character, so the loop as written walks below index 0; the corrected walk leaves "/" and a NUL |
| FileUtil.StrippedTailIdempotent | jit/Common/FileUtil.cpp:113-124 | stripping a stripped string changes nothing |
| FileUtil.LastSeparator | jit/Common/FileUtil.cpp:526-528 | GetDir's downward walk stops at the last '/' or '\\' below k, or at -1 when there is none |
| FileUtil.Slashed | jit/Common/FileUtil.cpp:530-532 | every backslash becomes a slash and every other character stays |
| FileUtil.DirOf | jit/Common/FileUtil.cpp:523-539 | GetDir's result is never empty and never contains a backslash |
| FileUtil.GetDir | jit/Common/FileUtil.cpp:523-539 | the method with GetDir's two loops answers DirOf of the path |
| FileUtil.DirOfRoot | jit/Common/FileUtil.cpp:524-525 | GetDir("/") is "/" |
| FileUtil.DirOfCut | jit/Common/FileUtil.cpp:526-532 | with the last separator at index n > 0, GetDir is the first n characters with backslashes turned into slashes |
| FileUtil.DirOfNoCut | jit/Common/FileUtil.cpp:529-537 | with no separator past index 0, GetDir is "/" on a non-Windows host |
| FileUtil.LastSeparatorIs | jit/Common/FileUtil.cpp:526-528 | a separator followed by no other before k is the one the walk finds |
| FileUtil.GetFilenameAsWritten | jit/Common/FileUtil.cpp:541-547 | GetFilename skips `GetDir(path).size() + 1` characters when that offset lies inside the path, and answers the path otherwise |
| FileUtil.GetFilename | jit/Common/FileUtil.cpp:541-547 | the corrected GetFilename answers a suffix of the path, and one without a separator whenever it is not the whole path |
| FileUtil.GetFilenameAgrees | jit/Common/FileUtil.cpp:541-547 | when the last separator lies past index 0, the code as written and the corrected one agree |
| FileUtil.GetFilenameDropsCharacters | jit/Common/FileUtil.cpp:541-547 | as written, GetFilename("abc") is "c" and GetFilename("/abc") is "bc"; the corrected one answers "abc" for both |
| Analyst.AsInt32 | jit/MIPSAnalyst.h:54 | the int a uint32 address becomes is its two's-complement value: non-negative exactly below 2^31, and equal to the address modulo 2^32 |
| Analyst.RegisterAnalysisResults.TotalReadCount | jit/MIPSAnalyst.h:48 | the total is the plain reads plus the reads as an address, so it is at least each of them |
| Analyst.RegisterAnalysisResults.FirstRead | jit/MIPSAnalyst.h:49 | the answer is the smaller of firstRead and firstReadAsAddr |
| Analyst.RegisterAnalysisResults.LastRead | jit/MIPSAnalyst.h:50 | the answer is the larger of lastRead and lastReadAsAddr |
| Analyst.RegisterAnalysisResults.MarkRead | jit/MIPSAnalyst.h:52-58 | firstRead is set only when it was -1, lastRead becomes the address, readCount goes up by one, used becomes true, and the write and read-as-address fields are unchanged |
| Analyst.RegisterAnalysisResults.MarkReadAsAddr | jit/MIPSAnalyst.h:60-66 | the same on firstReadAsAddr, lastReadAsAddr and readAsAddrCount, with the read and write fields unchanged |
| Analyst.RegisterAnalysisResults.MarkWrite | jit/MIPSAnalyst.h:68-74 | the same on firstWrite, lastWrite and writeCount, with both kinds of read fields unchanged |
| Disassembly.BranchLineOrder | jit/Debugger/DisassemblyManager.h:50-53 | `<` on branch lines is irreflexive and transitive, and two lines are unordered exactly when their `first` fields are equal |
| Disassembly.OpcodeLineRoundTrip | jit/Debugger/DisassemblyManager.h:103-104 | getLineNum(getLineAddress(l)) is l for every line below 2^30, wherever the run starts |
| Disassembly.WrapDifference | jit/Debugger/DisassemblyManager.h:103-104 | `(a + k) - a` is k in 32-bit arithmetic |
| Disassembly.OpcodeLines | jit/Debugger/DisassemblyManager.h:102-105 | a run of num opcodes has num lines, line 0 at its address, each line one word after the previous, total size 4 * num, ending at address + total size |
| Disassembly.SingleLineEntries | jit/Debugger/DisassemblyManager.h:125-184 | a macro or a comment is one line, at its own address, and every address in it is line 0; a macro's size is 4 * numOpcodes and a comment's its size |
| CpuException.Cp0Type | jit/x86/CompCP.cpp:21 | the move type is bits 21-25 of the instruction, a value below 32 |
| CpuException.Rt | jit/x86/CompCP.cpp:9 | the rt field names one of the 32 registers |
| CpuException.Rd | jit/x86/CompCP.cpp:10 | the rd field names one of the 32 registers |
| CpuException.DecodeCp0Field | jit/x86/CompCP.cpp:20-38 | Comp_Cp0 picks a copy towards the CPU exactly for field values 0 and 2, towards CP0 exactly for 4 and 6, and only logs for every other value |
| CpuException.DecodeCp0OnlyType | jit/x86/CompCP.cpp:20-38 | two instructions that agree on bits 21-25 are decoded alike |
| CpuException.CompCp0 | jit/x86/CompCP.cpp:20-38 | the emitted code copies CP0 register rd into GPR rt for MF0 and CF0, GPR rt into CP0 register rd for MT0 and CT0, and changes nothing for an unknown move |
| CpuException.MoveFromCp0 | jit/x86/CompCP.cpp:40-50 | JitComp_MF0 and JitComp_CF0 set GPR rt to CP0 register rd and change no other GPR |
| CpuException.MoveToCp0 | jit/x86/CompCP.cpp:52-62 | JitComp_MT0 and JitComp_CT0 set CP0 register rd to GPR rt and change no other CP0 register |
| CpuException.EnteredCp0 | jit/x86/CompCP.cpp:76-100 | the helper keeps the 32 CP0 registers |
| CpuException.HandlerVector | jit/x86/CompCP.cpp:77-79 | the handler is 0xBFC00180 exactly when SR bit 22 (BEV) is set, and 0x80000080 exactly when it is clear |
| CpuException.EnteredReturnAddress | jit/x86/CompCP.cpp:81-87 | EPC becomes the faulting PC, or PC - 4 in a delay slot where TAR becomes PC; TAR is otherwise kept, and no register other than EPC, TAR, SR and CAUSE changes |
| CpuException.PushedSrStack | jit/x86/CompCP.cpp:89 | the SR push clears the current IEc/KUc pair, moves current to previous and previous to old, and keeps bits 6-31 |
| CpuException.EnteredCauseFields | jit/x86/CompCP.cpp:92-97 | CAUSE keeps old bits 8-15, holds the code in bits 2-6, has bits 30 and 31 set exactly in a delay slot, and every other bit clear |
| CpuException.ExceptionHelper | jit/x86/CompCP.cpp:76-100 | Exception_Helper answers the handler for the old SR and updates CP0 as EnteredCp0 says |
| CpuException.CompException | jit/x86/CompCP.cpp:68-74 | the code JitComp_Exception emits leaves the guest PC at the handler the helper returned, with CP0 entered for the compiler's PC and delay-slot flag, and leaves the block for outerLoop |
| MasMem.Encode16 | mednafen/masmem.h:48-56 | a 16-bit unit is stored as two bytes |
| MasMem.Encode32 | mednafen/masmem.h:58-66 | a 32-bit unit is stored as four bytes |
| MasMem.Decode16Encode16 | mednafen/masmem.h:19-56 | a 16-bit unit stored in one byte order and loaded in the same order comes back |
| MasMem.Decode32Encode32 | mednafen/masmem.h:34-66 | a 32-bit unit stored in one byte order and loaded in the same order comes back |
| MasMem.Encode16Decode16 | mednafen/masmem.h:19-56 | two bytes loaded and stored again in the same order are the bytes |
| MasMem.Encode32Decode32 | mednafen/masmem.h:34-66 | four bytes loaded and stored again in the same order are the bytes |
| MasMem.SwapDecode16 | mednafen/masmem.h:29-30 | swapping the bytes of a unit loaded in one order loads it in the other, which is what the generic LoadU16_RBO does |
| MasMem.SwapDecode32 | mednafen/masmem.h:43-44 | the same for 32-bit units |
| MasMem.SwapEncode16 | mednafen/masmem.h:53-54 | storing a byte-swapped unit in one order stores the unit in the other |
| MasMem.SwapEncode32 | mednafen/masmem.h:63-64 | the same for 32-bit units |
| MasMem.ReverseBytes32IsSwap | mednafen/masmem.h:44 | the shift-and-or of LoadU32_RBO and StoreU32_RBO is swap32 |
| MasMem.Bytes24 | mednafen/masmem.h:154 | the word ReadU24 assembles from three bytes holds those bytes, least significant first, and a zero top byte |
| MasMem.Put | mednafen/masmem.h:161-180 | a store of bytes at p replaces exactly those bytes and keeps the length |
| MasMem.StoreNative16 | mednafen/masmem.h:91 | a native `*a = v` stores the unit's bytes in host order |
| MasMem.StoreNative32 | mednafen/masmem.h:100 | a native 32-bit store stores the unit's bytes in host order |
| MasMem.LoadU16Rbo | mednafen/masmem.h:19-32 | LoadU16_RBO reads the two bytes in the order opposite to the host's |
| MasMem.LoadU32Rbo | mednafen/masmem.h:34-46 | LoadU32_RBO reads the four bytes in the order opposite to the host's |
| MasMem.StoreU16Rbo | mednafen/masmem.h:48-56 | StoreU16_RBO writes the two bytes in the order opposite to the host's, and nothing else |
| MasMem.StoreU32Rbo | mednafen/masmem.h:58-66 | StoreU32_RBO writes the four bytes in the order opposite to the host's, and nothing else |
| MasMem.LoadU16Le | mednafen/masmem.h:68-75 | LoadU16_LE reads the two bytes little-endian on either host |
| MasMem.LoadU32Le | mednafen/masmem.h:77-84 | LoadU32_LE reads the four bytes little-endian on either host |
| MasMem.StoreU16Le | mednafen/masmem.h:86-93 | StoreU16_LE writes the two bytes least significant first on either host |
| MasMem.StoreU32Le | mednafen/masmem.h:95-102 | StoreU32_LE writes the four bytes least significant first on either host |
| MasMem.LoadU16RboAfterStore | mednafen/masmem.h:19-56 | LoadU16_RBO after StoreU16_RBO of v answers v |
| MasMem.LoadU32RboAfterStore | mednafen/masmem.h:34-66 | LoadU32_RBO after StoreU32_RBO of v answers v |
| MasMem.LoadU16LeAfterStore | mednafen/masmem.h:68-93 | LoadU16_LE after StoreU16_LE of v answers v |
| MasMem.LoadU32LeAfterStore | mednafen/masmem.h:77-102 | LoadU32_LE after StoreU32_LE of v answers v |
| MasMem.UnitBytes | mednafen/masmem.h:192-212 | Read<T> and Write<T> use the 4-, 2- or 1-byte accessor |
| MasMem.EncodeUnit | mednafen/masmem.h:203-212 | Write<T> stores as many bytes as its accessor's width |
| MasMem.DecodeEncodeUnit | mednafen/masmem.h:192-212 | Read<T> after Write<T> answers the written value cut to the accessor's width |
| MasMem.SixtyFourBitsKeepOneByte | mednafen/masmem.h:195-200 | a 64-bit T falls through to the 8-bit accessor, so only its low byte survives a Write then Read |
| MasMem.MultiAccessSizeMem.constructor | mednafen/masmem.h:113-123 | a new instance holds size zero bytes |
| MasMem.MultiAccessSizeMem.ReadU8 | mednafen/masmem.h:127-130 | ReadU8 answers the byte at the address |
| MasMem.MultiAccessSizeMem.ReadU16 | mednafen/masmem.h:132-138 | ReadU16 answers the two bytes at the address read in the instance's byte order, natively or through LoadU16_RBO |
| MasMem.MultiAccessSizeMem.ReadU32 | mednafen/masmem.h:140-146 | ReadU32 answers the four bytes read in the instance's byte order |
| MasMem.MultiAccessSizeMem.ReadU24 | mednafen/masmem.h:148-158 | a little-endian instance answers the three bytes little-endian with a zero top byte; a big-endian one answers nothing defined |
| MasMem.MultiAccessSizeMem.WriteU8 | mednafen/masmem.h:161-164 | WriteU8 changes exactly one byte |
| MasMem.MultiAccessSizeMem.WriteU16 | mednafen/masmem.h:166-172 | WriteU16 stores the two bytes in the instance's byte order and changes no other byte |
| MasMem.MultiAccessSizeMem.WriteU32 | mednafen/masmem.h:174-180 | WriteU32 stores the four bytes in the instance's byte order and changes no other byte |
| MasMem.MultiAccessSizeMem.WriteU24 | mednafen/masmem.h:182-190 | a little-endian instance stores the low three bytes least significant first; a big-endian one changes nothing |
| MasMem.MultiAccessSizeMem.Read | mednafen/masmem.h:192-201 | Read<T> answers the unit its accessor reads |
| MasMem.MultiAccessSizeMem.Write | mednafen/masmem.h:203-212 | Write<T> stores through the accessor sizeof(T) picks, and a Read<T> of the same address then answers the value cut to that width |
| PsxBus.Masked | mednafen/masmem.cpp:127-128 | `address & addr_mask[address >> 29]` keeps the address modulo 512 MiB and changes it exactly in the KSEG0 and KSEG1 segments |
| PsxBus.MaskedIdempotent | mednafen/masmem.cpp:369 | masking a masked address changes nothing |
| PsxBus.FitIdempotent | mednafen/masmem.cpp:322 | converting a value to the access type twice is converting it once |
| PsxBus.AlignedInside | mednafen/masmem.h:192-212 | an aligned access at `address & (size - 1)` lies wholly inside its block |
| PsxBus.DevicesInIoWindow | mednafen/masmem.cpp:196-314 | only addresses in 0x1F801000-0x1F802FFF reach a device or the SysControl registers |
| PsxBus.ValidAddressIsMemory | mednafen/masmem.cpp:625-642 | every address IsValidAddress accepts is the scratchpad or, once masked, main RAM or the BIOS |
| PsxBus.RamWindowsAlias | mednafen/masmem.cpp:615-619 | a RAM address in any of its three windows reaches main RAM at offset `address % 2 MiB` |
| PsxBus.RamMirrorBeyondValid | mednafen/masmem.cpp:178-185 | 0x00200000 is not a valid address yet reaches main RAM at offset 0, through the mirror below 0x00800000 |
| PsxBus.RamAddressIsMaskedRam | mednafen/masmem.cpp:615-619 | IsRAMAddress holds exactly for a KUSEG, KSEG0 or KSEG1 address whose masked address is in the first 2 MiB, and then the masked address is the address modulo 2 MiB |
| PsxBus.ScratchpadAddressIsOnePage | mednafen/masmem.cpp:621-623 | IsScratchpadAddress holds exactly on the 1 KiB page at 0x1F800000, which no RAM address shares |
| PsxBus.ValidAddressIsMaskedWindow | mednafen/masmem.cpp:625-642 | IsValidAddress holds exactly for RAM, the scratchpad, or a KUSEG, KSEG0 or KSEG1 address whose masked address is in the BIOS |
| PsxBus.ReadAdvancesClock | mednafen/masmem.cpp:171-313 | a charged read adds DMACycleSteal plus the target's cycles (3 for RAM, 36 or 16 for the SPU, 6 per byte for the CD controller, 1 for the other devices) to internal_timestamp and last_ts and takes them off the downcount; the as-written increment restarts the slice at the new downcount, so the folded timestamp is the bare timestamp plus the charge, and the next event and core state are untouched |
| PsxBus.IntendedReadAdvancesClock | mednafen/jittimestamp.h:20-24 | with the increment corrected to shorten the slice too, a charged read would move the folded timestamp by exactly DMACycleSteal plus the target's cycles |
| PsxBus.ReadClockDropsSlice | mednafen/jittimestamp.h:20-24 | the folded timestamp after a read as written equals the corrected one exactly when no cycle of the current slice had run |
| PsxBus.FioReadLost | mednafen/masmem.cpp:271-277 | as written, a controller-port read ends as all ones whatever FIO answers, while every other device's answer survives |
| PsxBus.DeviceRead | mednafen/masmem.cpp:204-313 | a device read fits T, and a 32-bit SPU read is the 16-bit read at the address in the low half and the one at `address \| 2` in the high half |
| PsxBus.HalvesJoined | mednafen/masmem.cpp:206-216 | two 16-bit halves joined into a word fit 32 bits and split back into them |
| PsxBus.DeviceReadAsWritten | mednafen/masmem.cpp:271-277 | the read as written fits T and equals the intended device read exactly when the device is not FIO or FIO answered all ones |
| PsxBus.DeviceWrites | mednafen/masmem.cpp:467-541 | WriteToHardware hands writes to a device exactly when the address is one of the device's, and only to that device |
| PsxBus.SysControlIndex | mednafen/masmem.cpp:502-504 | the memory-control register an address names is one of the nine |
| PsxBus.SysControlIndexAsWritten | mednafen/masmem.cpp:262 | `(address & 0x1F) >> 2` never names register 8 |
| PsxBus.SysControlWrite | mednafen/masmem.cpp:502-510 | a SysControl write leaves nine registers |
| PsxBus.SysControlWriteAsWritten | mednafen/masmem.cpp:502-510 | the SysControl write as written leaves nine registers |
| PsxBus.SysControlRead | mednafen/masmem.cpp:260-268 | the intended read gives at most a byte or a half for narrow reads, and an aligned word read gives the register with its fixed bits, so registers 0 and 1 read with bits 24-28 set |
| PsxBus.SysControlReadAsWritten | mednafen/masmem.cpp:260-268 | the read as written agrees with the intended read of the same offset in the first 32 bytes at an aligned address, and a byte read of lanes 1-3 or a half read of lanes 2-3 gives 0 |
| PsxBus.NarrowLanes | mednafen/masmem.cpp:264-267 | a value converted to T and shifted in T is unchanged at lane 0, and a byte or half shifted past its own width is 0 |
| PsxBus.SysControlWriteRead | mednafen/masmem.cpp:260-269 | a word written to a memory-control register reads back as its writable bits together with the register's fixed bits |
| PsxBus.SysControlAliasing | mednafen/masmem.cpp:260-269 | as written, 0x1F801020 reads and writes register 0 and leaves register 8 unreachable; the corrected index reaches register 8 |
| PsxBus.SysControlByteLanes | mednafen/masmem.cpp:507-508 | as written, a byte store to 0x1F801009 is shifted out of its 8-bit type and clears the register, and a byte read there is 0; the corrected lanes store and read the byte |
| PsxBus.TagTvFields | mednafen/masmem.cpp:583-590 | a tag write keeps the address tag, numbers the line within its group, and marks it valid exactly when its valid bit is set |
| PsxBus.TagTvLine | mednafen/masmem.cpp:590 | the TV word of line `k` is the tag, the line number and the invalid bit combined as the source writes them |
| PsxBus.InvalidateMarksInvalid | mednafen/masmem.cpp:583 | outside tag-test mode every line of the group is marked invalid |
| PsxBus.TagLine | mednafen/masmem.cpp:584 | a tag write starts at a group of four lines inside the cache |
| PsxBus.DataLine | mednafen/masmem.cpp:594 | a data write lands on a line inside the cache |
| PsxBus.IsolatedStoreIsLocal | mednafen/masmem.cpp:579-595 | an isolated store leaves every line outside its group of four unchanged |
| PsxBus.PointerOf | mednafen/masmem.cpp:138-166 | a pointer GetPointer returns lies inside its block |
| PsxBus.ValidAddressHasPointer | mednafen/masmem.cpp:138-166 | every valid address has a pointer, and a RAM address points at offset `address % 2 MiB` of main RAM |
| PsxBus.PointerMatchesTarget | mednafen/masmem.cpp:138-191 | GetPointer points into the scratchpad, main RAM or the BIOS exactly when ReadMemory would read that block |
| PsxBus.LinesAfterBiu | mednafen/masmem.cpp:550-553 | a BIU store keeps the number of cache lines |
| PsxBus.HardwareAfter | mednafen/masmem.cpp:437-557 | WriteToHardware as written keeps the bus state well formed |
| PsxBus.IsolatedLines | mednafen/masmem.cpp:579-596 | an isolated store keeps the number of cache lines |
| PsxBus.IsolatedAfter | mednafen/masmem.cpp:573-601 | the isolated branch of WriteMemory keeps the bus state well formed |
| PsxBus.MemoryAfter | mednafen/masmem.cpp:559-613 | WriteMemory as written keeps the bus state well formed |
| PsxBus.StoredAtReadBack | mednafen/masmem.h:192-212 | a block reads back, at the same address and width, the value stored there truncated to the width |
| PsxBus.StoredAt | mednafen/masmem.h:203-212 | a store keeps the block's size |
| PsxBus.StoreThenLoad | mednafen/masmem.cpp:354-375 | with the cache not isolated, a store to a valid address is read back at the same width |
| PsxBus.StoreThenLoadScratchpad | mednafen/masmem.cpp:559-571 | a store to the scratchpad is read back |
| PsxBus.StoreThenLoadRam | mednafen/masmem.cpp:443-447 | a store to main RAM, in any window, is read back |
| PsxBus.StoreThenLoadBios | mednafen/masmem.cpp:450-453 | a store to the BIOS, in any window, is read back |
| PsxBus.IsolatedStoreStaysInCache | mednafen/masmem.cpp:573-602 | with the cache isolated, a store leaves main RAM, the BIOS, SysControl, the devices and BIU as they were |
| PsxBus.HardwareSparesScratchpad | mednafen/masmem.cpp:437-557 | WriteToHardware never changes the scratchpad |
| PsxBus.HardwareSysControlAsWritten | mednafen/masmem.cpp:500-510 | WriteToHardware as written stores a word for 0x1F801020 into register 0, leaving register 8, and a byte store of 0xAB to 0x1F801009 clears register 2 |
| PsxBus.ScratchpadKseg0Asymmetry | mednafen/masmem.cpp:359-369 | 0x9F800000 is written to the scratchpad, because WriteMemory masks first, but is read as unmapped, because ReadMemory tests the scratchpad before masking |
| PsxBus.MaskedAligned | mednafen/masmem.cpp:369 | masking keeps an address's alignment |
| PsxBus.RamReadCharge | mednafen/masmem.cpp:171-185 | a charged read of main RAM, in any window, adds DMACycleSteal plus 3 cycles to the timestamp and takes them off the downcount, leaving a folded timestamp of the bare timestamp plus the charge |
| PsxBus.UnchargedRead | mednafen/masmem.cpp:354-363 | a read without `increment`, and any scratchpad read, leaves the clock alone |
| PsxBus.Bus.constructor | mednafen/masmem.cpp:20-23 | Init allocates zeroed main RAM, BIOS, scratchpad and, when asked, PIO memory |
| PsxBus.Bus.Clear | mednafen/masmem.cpp:92-106 | Clear zeroes PIO memory (only when there is one), the BIOS, the scratchpad and main RAM |
| PsxBus.Bus.ReadIo | mednafen/masmem.cpp:196-314 | a read inside the I/O window is handled exactly when the address names a device or SysControl; it then charges the target's cycles with the as-written increment and answers the as-written value (all ones for the controller ports, register `(address & 0x1F) >> 2` shifted inside the access type for SysControl) |
| PsxBus.Bus.ReadDevice | mednafen/masmem.cpp:204-313 | a device read charges the device's cycles with the as-written increment and answers the device's value at the new timestamp, all ones for the controller ports |
| PsxBus.Bus.ReadFromHardware | mednafen/masmem.cpp:168-351 | ReadFromHardware charges DMACycleSteal and the target's cycles with the as-written increment (ReadClock) and answers the target's value as written (HardwareValue) |
| PsxBus.Bus.ReadTarget | mednafen/masmem.cpp:178-349 | after DMACycleSteal, each target's branch charges its cycles with the as-written increment and answers its value as written |
| PsxBus.Bus.ReadBlock | mednafen/masmem.cpp:183-189 | a main-RAM or BIOS read answers the value at `address & (size - 1)` |
| PsxBus.Bus.PioValue | mednafen/masmem.cpp:315-339 | a read of the PIO window fits T, and without PIOMem it is all ones |
| PsxBus.Bus.HardwareValue | mednafen/masmem.cpp:168-351 | a hardware read fits T, and an unmapped address reads all ones |
| PsxBus.Bus.MemoryValue | mednafen/masmem.cpp:354-375 | a memory read fits T |
| PsxBus.Bus.RamWindowsReadAlike | mednafen/masmem.cpp:354-375 | the KSEG0 and KSEG1 windows of RAM read what the KUSEG address at the same offset reads |
| PsxBus.UnitFits | mednafen/masmem.h:192-200 | a unit decoded from a memory block fits the type it was read as |
| PsxBus.Bus.FioReadsAllOnes | mednafen/masmem.cpp:271-277 | every read of the controller ports through ReadFromHardware answers all ones, whatever FIO answers |
| PsxBus.Bus.Register8ReadsRegister0 | mednafen/masmem.cpp:260-268 | a word read of 0x1F801020 answers register 0 with its fixed bits, not register 8 |
| PsxBus.Bus.ReadMemory | mednafen/masmem.cpp:354-375 | ReadMemory answers the scratchpad on the unmasked address and the hardware on the masked one, with the matching clock |
| PsxBus.Bus.Snapshot | mednafen/masmem.cpp:20-75 | the state a store can change forms a well-formed bus state |
| PsxBus.Bus.WriteIo | mednafen/masmem.cpp:459-542 | a write inside the I/O window is handled exactly when the address names a device or SysControl, and then changes the state as WriteToHardware does |
| PsxBus.Bus.PostWrites | mednafen/masmem.cpp:467-541 | a device target receives its writes and nothing else changes |
| PsxBus.Bus.WriteSysControl | mednafen/masmem.cpp:502-511 | register `(address & 0x1F) >> 2` takes the writable bits of the data shifted inside the access type |
| PsxBus.Bus.WriteToHardware | mednafen/masmem.cpp:437-557 | WriteToHardware changes the state as HardwareAfter describes |
| PsxBus.Bus.WriteScratch | mednafen/masmem.cpp:566-570 | a scratchpad store changes only the scratchpad, at `address & 0x3FF` |
| PsxBus.Bus.WriteIsolatedCache | mednafen/masmem.cpp:579-596 | an isolated store updates the cache lines line by line as IsolatedLine says |
| PsxBus.Bus.WriteIsolated | mednafen/masmem.cpp:573-601 | the isolated branch stores into the cache and, when BIU lets it through, the scratchpad |
| PsxBus.Bus.WriteMemory | mednafen/masmem.cpp:559-613 | WriteMemory changes the state as MemoryAfter describes for the current status register |
| PsxBus.Bus.WriteBlock | mednafen/masmem.cpp:443-453 | a main-RAM or BIOS store changes the state as WriteToHardware does |
| PsxBus.Bus.ReadU8 | mednafen/masmem.cpp:643-648 | Read_U8 is a charged byte ReadMemory |
| PsxBus.Bus.ReadU16 | mednafen/masmem.cpp:650-655 | Read_U16 is a charged halfword ReadMemory |
| PsxBus.Bus.ReadU32 | mednafen/masmem.cpp:657-662 | Read_U32 is a charged word ReadMemory |
| PsxBus.Bus.ReadU64 | mednafen/masmem.cpp:664-669 | Read_U64 is a charged 64-bit ReadMemory |
| PsxBus.Bus.ReadU8Zx | mednafen/masmem.cpp:671-674 | Read_U8_ZX is Read_U8 zero-extended |
| PsxBus.Bus.ReadU16Zx | mednafen/masmem.cpp:676-679 | Read_U16_ZX is Read_U16 zero-extended |
| PsxBus.Bus.ReadU32Instr | mednafen/masmem.cpp:721-725 | Read_U32_instr reads a word and leaves the timestamp as it was |
| PsxBus.Bus.ReadInstruction | mednafen/masmem.cpp:378-435 | Read_Instruction is a charged word ReadMemory |
| PsxBus.Bus.ReadOpcodeJit | mednafen/masmem.cpp:109-120 | Read_Opcode_JIT reads the word at compilerPC and undoes a run-block word exactly when there is a recompiler |
| PsxBus.Bus.WriteU8 | mednafen/masmem.cpp:681-684 | Write_U8 is a byte WriteMemory |
| PsxBus.Bus.WriteU16 | mednafen/masmem.cpp:686-689 | Write_U16 is a halfword WriteMemory |
| PsxBus.Bus.WriteU32 | mednafen/masmem.cpp:691-694 | Write_U32 is a word WriteMemory |
| PsxBus.Bus.WriteU64 | mednafen/masmem.cpp:696-699 | Write_U64 passes only the low half of the data to WriteMemory |
| PsxBus.Bus.WriteUnchecked | mednafen/masmem.cpp:727-741 | WriteUnchecked is WriteToHardware on the masked address, past the scratchpad and the cache |
| PsxBus.Bus.WriteOpcodeJit | mednafen/masmem.cpp:122-125 | Write_Opcode_JIT is WriteUnchecked_U32 of the encoding |
| PsxBus.Bus.GetPointer | mednafen/masmem.cpp:138-166 | GetPointer charges DMACycleSteal with the as-written increment and returns the pointer PointerOf gives |
| MemMapH.LeValue | jit/Memory/MemMap.h:171-201 | the value a host load `*(T*)p` of n bytes answers is below 256^n |
| MemMapH.LeBytes | jit/Memory/MemMap.h:203-233 | a host store `*(T*)p = v` of n bytes writes exactly n bytes |
| MemMapH.LeValueOfBytes | jit/Memory/MemMap.h:171-233 | a value stored by a host store of n bytes is read back by a host load of n bytes |
| MemMapH.LeBytesOfValue | jit/Memory/MemMap.h:171-233 | storing the value a host load answered writes back the very bytes that were there |
| MemMapH.FirstView | jit/Memory/MemMap.cpp:107-118 | the view found for an address is the first view of the table, from the given index on, whose range contains it, or none when no view does |
| MemMapH.FirstViewSkips | jit/Memory/MemMap.cpp:107-118 | views that do not contain an address may be passed over without changing which view is found |
| MemMapH.GetPointerUnchecked | jit/Memory/MemMap.h:153-159 | `base + address` resolves, through the first view containing it, to a block offset with at least one byte of that view left |
| MemMapH.LocationInBlock | jit/Memory/MemMap.cpp:113-118 | when every view fits its block (a mirror view shares the previous view's arena position), the resolved offset plus the rest of the view stays inside the block |
| MemMapH.ValueAt | jit/Memory/MemMap.h:171-201 | the value of n bytes at a block location is below 256^n |
| MemMapH.StoredAt | jit/Memory/MemMap.h:203-233 | a store at a location keeps every block well sized and changes no other block |
| MemMapH.StoredValueAt | jit/Memory/MemMap.h:171-233 | a value stored at a block location is read back there |
| MemMapH.StoredSameAt | jit/Memory/MemMap.h:171-233 | storing the bytes already at a location leaves all four blocks unchanged |
| MemMapH.UncheckedValue | jit/Memory/MemMap.h:171-201 | ReadUnchecked_U8/U16/U32 answer a value below 256^n |
| MemMapH.UncheckedAfter | jit/Memory/MemMap.h:203-233 | WriteUnchecked_U8/U16/U32 change only the block behind the address |
| MemMapH.UncheckedWriteRead | jit/Memory/MemMap.h:171-233 | an unchecked store is read back by an unchecked load of the same address and width |
| MemMapH.UncheckedReadWrite | jit/Memory/MemMap.h:171-233 | storing back what an unchecked load answered leaves memory unchanged |
| MemMapH.Arena.constructor | jit/Memory/MemMap.cpp:157-214 | MemoryMap_Setup leaves the arena based and mapped with the given view table, over four freshly zeroed blocks of the right sizes |
| MemMapH.Arena.BlockArray | jit/Memory/MemMap.cpp:47-52 | the host array behind each m_p* block pointer has that block's size |
| MemMapH.Arena.Contents | jit/Memory/MemMap.cpp:47-52 | the four blocks' contents are always well sized |
| MemMapH.Arena.ReadUnchecked | jit/Memory/MemMap.h:171-201 | the inline unchecked loads answer the little-endian value of the n bytes `base + address` resolves to |
| MemMapH.Arena.WriteUnchecked | jit/Memory/MemMap.h:203-233 | the inline unchecked stores change the arena exactly as UncheckedAfter says: n bytes of one block, nothing else |
| MemMapH.Store | jit/Memory/MemMap.h:203-233 | a host store of bytes from an index replaces exactly those bytes of the array |
| MemMapH.ValidSize | jit/Memory/MemMap.h:301-323 | the size answered never exceeds the request, is 0 for an invalid address, covers only valid addresses, does not wrap past 2^32, and is cut only where the next address is invalid |
| MemMapH.ValidRangeBytes | jit/Memory/MemMap.h:325-327 | a non-empty range is valid exactly when every one of its bytes is a valid address |
| MemMapH.ValidAddressIsOneByteRange | jit/Memory/MemMap.h:285-327 | IsValidAddress holds exactly when the one-byte range at the address is valid, and exactly when ValidSize leaves part of a request for everything |
| MemMapH.MovedBack | jit/Memory/MemMap.h:363-393 | moving a 32-bit pointer by d and back by d returns to it, whatever wraps |
| MemMapH.PspPointer.Create | jit/Memory/MemMap.h:446-450 | Create holds the given address |
| MemMapH.PspPointer.Plus | jit/Memory/MemMap.h:363-368 | `p + i` is a new pointer i elements (i * sizeof(T) bytes) on, in 32-bit arithmetic |
| MemMapH.PspPointer.Minus | jit/Memory/MemMap.h:382-387 | `p - i` is a new pointer i elements back, in 32-bit arithmetic |
| MemMapH.PspPointer.Assign | jit/Memory/MemMap.h:370-374 | `p = a` sets the address |
| MemMapH.PspPointer.PlusAssign | jit/Memory/MemMap.h:376-380 | `p += i` moves the pointer i elements on |
| MemMapH.PspPointer.MinusAssign | jit/Memory/MemMap.h:389-393 | `p -= i` moves the pointer i elements back |
| MemMapH.PspPointer.PreIncrement | jit/Memory/MemMap.h:395-399 | `++p` moves the pointer one element on |
| MemMapH.PspPointer.PostIncrement | jit/Memory/MemMap.h:401-407 | `p++` moves the pointer one element on and answers a copy holding the old address |
| MemMapH.PspPointer.PreDecrement | jit/Memory/MemMap.h:409-413 | `--p` moves the pointer one element back |
| MemMapH.PspPointer.PostDecrement | jit/Memory/MemMap.h:415-421 | `p--` moves the pointer one element back and answers a copy holding the old address |
| MemMapH.PlusThenMinus | jit/Memory/MemMap.h:363-387 | `(p + i) - i` is p again |
| MemMapH.ComparePointers | jit/Memory/MemMap.h:471-505 | each comparison of two pointer objects compares their addresses alone |
| MemMapH.ComparisonsConsistent | jit/Memory/MemMap.h:471-505 | `!=` negates `==`, `<=` is `<` or `==`, `>` and `>=` are the mirrored `<` and `<=`, and `<` is total with `==` |
| MemMapFunctions.RegionsAreValidAddresses | jit/Memory/MemMapFunctions.cpp:36-56 | the addresses GetPointer and the accessors serve are exactly those MemMap.h's IsValidAddress accepts |
| MemMapFunctions.GetPointer | jit/Memory/MemMapFunctions.cpp:36-56 | GetPointer gives a location exactly for a served address the views map, and then the unchecked one; nullptr otherwise |
| MemMapFunctions.HardwareValue | jit/Memory/MemMapFunctions.cpp:58-86 | a read answers a value below 256^n, and the accessor's initial 0 for an address outside the four regions |
| MemMapFunctions.HardwareAfter | jit/Memory/MemMapFunctions.cpp:88-113 | a write keeps the blocks well sized and changes nothing for an address outside the four regions |
| MemMapFunctions.WriteThenRead | jit/Memory/MemMapFunctions.cpp:58-113 | after a write, a read of the same address and width answers the data for a served address and 0 for any other |
| MemMapFunctions.WriteStaysInBlock | jit/Memory/MemMapFunctions.cpp:88-113 | a write changes no block other than the one behind its address |
| MemMapFunctions.ReadThenWrite | jit/Memory/MemMapFunctions.cpp:58-113 | writing back what a read answered changes nothing |
| MemMapFunctions.ReadFromHardware | jit/Memory/MemMapFunctions.cpp:58-86 | ReadFromHardware<T> answers HardwareValue of the arena's contents |
| MemMapFunctions.WriteToHardware | jit/Memory/MemMapFunctions.cpp:88-113 | WriteToHardware<T> changes the arena exactly as HardwareAfter says |
| MemMapFunctions.ReadU8 | jit/Memory/MemMapFunctions.cpp:131-136 | Read_U8 answers the byte at the address, or 0 |
| MemMapFunctions.ReadU16 | jit/Memory/MemMapFunctions.cpp:138-143 | Read_U16 answers the little-endian halfword at the address, or 0 |
| MemMapFunctions.ReadU32 | jit/Memory/MemMapFunctions.cpp:145-150 | Read_U32 answers the little-endian word at the address, or 0 |
| MemMapFunctions.ReadU64 | jit/Memory/MemMapFunctions.cpp:152-157 | Read_U64 answers the little-endian doubleword at the address, or 0 |
| MemMapFunctions.ReadU8Zx | jit/Memory/MemMapFunctions.cpp:159-162 | Read_U8_ZX is Read_U8 zero-extended: below 0x100 |
| MemMapFunctions.ReadU16Zx | jit/Memory/MemMapFunctions.cpp:164-167 | Read_U16_ZX is Read_U16 zero-extended: below 0x10000 |
| MemMapFunctions.WriteU8 | jit/Memory/MemMapFunctions.cpp:169-172 | Write_U8 stores one byte through WriteToHardware |
| MemMapFunctions.WriteU16 | jit/Memory/MemMapFunctions.cpp:174-177 | Write_U16 stores a little-endian halfword through WriteToHardware |
| MemMapFunctions.WriteU32 | jit/Memory/MemMapFunctions.cpp:179-182 | Write_U32 stores a little-endian word through WriteToHardware |
| MemMapFunctions.WriteU64 | jit/Memory/MemMapFunctions.cpp:184-187 | Write_U64 stores a little-endian doubleword through WriteToHardware |
| MemMap.ScratchpadViewMisplaced | jit/Memory/MemMap.cpp:69 | with the view table as written, 0x1F800000 is a valid scratchpad address yet no view maps it, so an access there is not backed memory, while the scratchpad block sits behind the invalid address 0x01F80000 |
| MemMap.TablesFit | jit/Memory/MemMap.cpp:63-71 | every view of both tables fits the block it maps |
| MemMap.MirrorsAreRam | jit/Memory/MemMap.cpp:65-67 | the KSEG0 and KSEG1 views, flagged MV_MIRROR_PREVIOUS, are backed by the physical RAM block |
| MemMap.FirstViewOfValid | jit/Memory/MemMap.cpp:63-71 | in the corrected table, the first view containing a valid address is the view of its region: RAM, KSEG0, KSEG1, parallel port, scratchpad or BIOS |
| MemMap.ValidRangesMapped | jit/Memory/MemMap.h:301-323 | with the scratchpad view at 0x1F800000, every range ValidSize allows lies inside one mapped view |
| MemMap.RamMirrors | jit/Memory/MemMap.cpp:65-67 | a RAM offset k, its KSEG0 alias 0x80000000+k and its KSEG1 alias 0xA0000000+k all resolve to offset k of the RAM block |
| MemMap.MirrorWriteRead | jit/Memory/MemMap.cpp:65-67 | a byte written through the KSEG1 mirror is read back at the physical address |
| MemMap.SizedView | jit/Memory/MemMap.cpp:239-246 | Init's loop changes only the size of a view, and only of a view carrying one of the three RAM-size flags |
| MemMap.SizedViews | jit/Memory/MemMap.cpp:239-246 | the loop keeps the number of views |
| MemMap.SharesSplitMemory | jit/Memory/MemMap.cpp:236-246 | for a memory size up to three times MAX_MMAP_SIZE, the primary, extra-1 and extra-2 shares are each at most MAX_MMAP_SIZE and add up to the memory size |
| MemMap.SizingKeepsTables | jit/Memory/MemMap.cpp:63-71 | no view of the table carries a RAM-size flag, so Init's loop leaves the table unchanged |
| MemMap.SizeViews | jit/Memory/MemMap.cpp:239-246 | the loop sizes every view of the array as SizedViews says |
| MemMap.Init | jit/Memory/MemMap.cpp:232-254 | Init sets g_MemorySize to RAM_SIZE, sizes the views and leaves an active, mapped arena over zeroed blocks |
| MemMap.Shutdown | jit/Memory/MemMap.cpp:300-306 | after Shutdown the views are released and IsActive is false |
| MemMap.Cleared | jit/Memory/MemMap.cpp:308-318 | Clear keeps every block well sized |
| MemMap.Clear | jit/Memory/MemMap.cpp:308-318 | with the views mapped, Clear fills g_MemorySize bytes of RAM with 0xFF and zeroes the parallel port, BIOS and scratchpad; with them unmapped it changes nothing |
| MemMap.ClearThenRead | jit/Memory/MemMap.cpp:308-318 | after Clear a valid address reads 0xFF in RAM (through any mirror) and 0 everywhere else |
| MemMap.ResolveChangesOnlyRunBlocks | jit/Memory/MemMap.cpp:340-376 | the private Read_Instruction changes a word only when it is a run-block word and a recompiler exists, and then into its original instruction |
| MemMap.OpcodeJitIsResolve | jit/Memory/MemMap.cpp:390-398 | Read_Opcode_JIT resolves a word exactly as Read_Instruction does, whether or not replacements are asked for |
| MemMap.ReadInstruction | jit/Memory/MemMap.cpp:378-382 | Read_Instruction answers the Read_U32 word, resolved |
| MemMap.ReadUncheckedInstruction | jit/Memory/MemMap.cpp:384-388 | ReadUnchecked_Instruction answers the unchecked word, resolved |
| MemMap.ReadOpcodeJit | jit/Memory/MemMap.cpp:390-398 | Read_Opcode_JIT answers the Read_U32 word, with a run-block word replaced by its original instruction |
| MemMap.WriteOpcodeJit | jit/Memory/MemMap.cpp:402-405 | Write_Opcode_JIT is an unchecked 32-bit store of the encoding |
| MemMap.WrittenOpcodeRead | jit/Memory/MemMap.cpp:378-405 | an instruction that is not a run-block word, written by Write_Opcode_JIT, is read back unchanged by Read_Instruction |
| MemMap.ByteWrites | jit/Memory/MemMap.cpp:415-416 | the byte-by-byte Write_U8 loop keeps the blocks well sized |
| MemMap.ByteWritesOutside | jit/Memory/MemMap.cpp:415-416 | byte writes to addresses no accessor serves leave memory unchanged |
| MemMap.MemsetAfter | jit/Memory/MemMap.cpp:407-417 | Memset keeps the blocks well sized |
| MemMap.Memset | jit/Memory/MemMap.cpp:407-417 | Memset fills through GetPointer when it has a location, and otherwise writes each byte with Write_U8 at `(u32)(address + i)`, as MemsetAfter says |
| MemMap.MemsetThenRead | jit/Memory/MemMap.cpp:409-411 | after a Memset through a pointer, every byte of the filled range holds the value |
| MemMap.MemsetOutside | jit/Memory/MemMap.cpp:413-417 | a Memset whose every address lies outside the served regions changes nothing |
| MemMap.ValidAddressesDisagree | mednafen/masmem.cpp:625-642 | the bus's IsValidAddress and MemMap.h's IsValidAddress disagree: the bus accepts 0x1FC00000 and MemMap.h rejects it, while MemMap.h accepts 0x1F000000 and the bus rejects it |
| MemMap.RegionTestsAgree | jit/Memory/MemMapFunctions.cpp:117-129 | the arena's IsRAMAddress and IsScratchpadAddress accept the same addresses as the bus's, IsVRAMAddress accepts none, and RAM and scratchpad addresses are valid |
| Jit.JitBreakpoint | jit/x86/Jit.cpp:57-88 | JitBreakpoint answers 0 or 1, and 1 only when the breakpoint's action includes pausing |
| Jit.JitBreakpointStops | jit/x86/Jit.cpp:57-88 | a breakpoint stops execution exactly when it is not the one to skip and it is enabled; a log-only breakpoint and the skipped address never stop it |
| Jit.CompilationsAppend | jit/x86/Jit.cpp:363-408 | the guest instructions translated in two stretches of host code are those of the first followed by those of the second |
| Jit.NoCompilations | jit/x86/Jit.cpp:173-199 | host code holding no translation translates no guest instruction |
| Jit.FlagBitsAgree | jit/x86/Jit.cpp:180-192 | a prefix flag is dirty exactly when its PREFIX_DIRTY bit is set, and clearing that bit keeps the known bit |
| Jit.PrefixStoresExactlyDirty | jit/x86/Jit.cpp:179-194 | FlushPrefixV stores the S, T and D prefix each exactly when its flag is dirty, at most three stores and no translation |
| Jit.FlushPrefixVIdempotent | jit/x86/Jit.cpp:179-194 | after FlushPrefixV no flag is dirty, the prefixes keep their values, and a second flush emits nothing and changes nothing |
| Jit.NextPc | jit/x86/Jit.cpp:399 | the next compiler pc is the current one plus 4, wrapping at 2^32 |
| Jit.NextPcStep | jit/x86/Jit.cpp:399-400 | after `n` steps of 4 the compiler pc is the block start plus 4n, modulo 2^32 |
| Jit.RoundingCall | jit/x86/Jit.cpp:201-213 | the rounding-mode call is emitted exactly when forced or once the game has set a rounding mode |
| Jit.BridgeInPieces | jit/x86/Jit.cpp:778-798 | the breakpoint bridge emitted piece by piece (save flags, flush, prefix stores, the call) is the bridge as a whole |
| Jit.BridgeShape | jit/x86/Jit.cpp:778-798 | the breakpoint bridge saves the flags, flushes the register caches, stores the dirty prefixes, sets pc and calls JitBreakpoint, and leaves for the dispatcher when it stops |
| Jit.PushKeepsCompilations | jit/x86/Jit.cpp:173-199 | emitting one op that is not a translation translates nothing more |
| Jit.AppendKeepsCompilations | jit/x86/Jit.cpp:173-199 | emitting ops none of which is a translation translates nothing more |
| Jit.BridgeAppended | jit/x86/Jit.cpp:778-798 | the pieces CheckJitBreakpoint emits at a breakpoint are the bridge, which translates nothing |
| Jit.BridgeKeepsCompilations | jit/x86/Jit.cpp:778-798 | a breakpoint bridge translates no guest instruction |
| Jit.ExitJump | jit/x86/Jit.cpp:691-709 | an exit jumps straight to the destination block's checked entry exactly when block linking is on and the block exists, and otherwise sets pc to the destination and jumps to the dispatcher |
| Jit.ExitKeepsCompilations | jit/x86/Jit.cpp:684-709 | a block exit translates no guest instruction |
| Jit.NoCompilationsInStores | jit/x86/Jit.cpp:179-194 | FlushPrefixV emits only prefix stores |
| Jit.BlockAt | jit/x86/Jit.cpp:692 | the block number for a start address is the first block starting there, or -1 exactly when no block does |
| Jit.BlockOfEmuhack | jit/x86/Jit.cpp:832 | a run-block word names the first block whose code starts at its offset, and any other word names no block |
| Jit.EntryAt | jit/x86/Jit.cpp:832 | the block entered at an offset is the first block with that entry, or -1 exactly when there is none |
| Jit.GetOriginalOpKeeps | jit/x86/Jit.cpp:830-838 | a word that is not a run-block word comes back unchanged |
| Jit.GetOriginalOpUndoes | jit/x86/Jit.cpp:830-838 | the run-block word of a block's entry gives back the instruction it replaced |
| Jit.FirstEntry | jit/x86/Jit.cpp:832 | the search for an entry finds the first block with that entry |
| Jit.JitBlock.constructor | jit/x86/Jit.cpp:288-289 | a new block has room for every exit and none of them linked |
| Jit.Jit.constructor | jit/x86/Jit.cpp:105-120 | a new recompiler has empty code space, block cache and proxies, and takes the CPU's default-prefix setting |
| Jit.Jit.Emit | jit/x86/Jit.cpp:196-199 | emitting appends the ops to the code space |
| Jit.Jit.ClearCache | jit/x86/Jit.cpp:219-224 | ClearCache empties the block cache and the code space, leaving the whole capacity free |
| Jit.Jit.RestoreRoundingMode | jit/x86/Jit.cpp:201-206 | the restore call is appended exactly when forced or once a rounding mode has been set |
| Jit.Jit.ApplyRoundingMode | jit/x86/Jit.cpp:208-213 | the apply call is appended exactly when forced or once a rounding mode has been set |
| Jit.Jit.FlushPrefixV | jit/x86/Jit.cpp:179-194 | FlushPrefixV appends the stores of the dirty prefixes and clears their dirty bits |
| Jit.Jit.FlushAll | jit/x86/Jit.cpp:173-177 | FlushAll flushes the register caches, then the prefixes, and translates nothing |
| Jit.Jit.WriteDowncount | jit/x86/Jit.cpp:196-199 | WriteDowncount subtracts the block's cycles plus the offset from the downcount |
| Jit.Jit.CheckJitBreakpoint | jit/x86/Jit.cpp:778-802 | CheckJitBreakpoint answers whether the address holds a breakpoint, appends exactly the bridge for that address, the current prefix, compiler pc, rounding flag and downcount plus the given offset (nothing when there is none), and translates nothing |
| Jit.Jit.WriteBreakpointBridge | jit/x86/Jit.cpp:780-797 | the bridge is emitted in the source's order and leaves the prefixes flushed |
| Jit.Jit.CompileOp | jit/x86/Jit.cpp:370 | compiling an op appends its translation and stops compiling exactly when the op ends the block |
| Jit.Jit.EatInstruction | jit/x86/Jit.cpp:265-278 | eating an instruction counts it, steps the compiler pc by 4 and charges its cycles, translating nothing |
| Jit.Jit.CompileDelaySlot | jit/x86/Jit.cpp:243-263 | the code appended is, in order: the breakpoint bridge for the slot address with the downcount at offset -2, SaveFlags when safe, the slot instruction translated in the delay slot, the register-cache flush and prefix stores when asked, and LoadFlags when safe |
| Jit.Jit.SlotPrologue | jit/x86/Jit.cpp:245-249 | the breakpoint check at the slot address with offset -2 appends its bridge, then SaveFlags is appended exactly when safe |
| Jit.Jit.EmitIf | jit/x86/Jit.cpp:248-262 | a host op that is not a translation is appended exactly when its condition holds |
| Jit.Jit.CompileInDelaySlot | jit/x86/Jit.cpp:250-260 | the instruction after the branch is translated with the delay-slot flag set, then cleared, and the flush and its prefix stores follow exactly when asked |
| Jit.Jit.CompGeneric | jit/x86/Jit.cpp:635-661 | Comp_Generic flushes, calls the interpreter between the rounding switches when there is one, and forgets the prefixes of a VFPU op that may use them without eating them |
| Jit.Jit.WriteExit | jit/x86/Jit.cpp:663-710 | WriteExit records the destination and the exit's code position, charges the downcount, and links exactly when the destination block exists and linking is on |
| Jit.Jit.UnlinkBlock | jit/x86/Jit.cpp:508-521 | unlinking rewrites the checked entry to set pc to the original address and go to the dispatcher |
| Jit.Jit.AddContinuedBlock | jit/x86/Jit.cpp:423-430 | the first continuation records the root block's size; later ones record a proxy for the range just compiled |
| Jit.Jit.CompileNextInstruction | jit/x86/Jit.cpp:363-400 | one trip of DoJit's loop checks the breakpoint, charges and translates the instruction at the compiler pc, and steps past it |
| Jit.Jit.EndBlock | jit/x86/Jit.cpp:403-407 | the block-end rule flushes, writes an exit to the next instruction and stops compiling |
| Jit.Jit.DoJitStep | jit/x86/Jit.cpp:363-408 | each trip of DoJit's loop keeps the loop invariant and compiles one more instruction, staying under the instruction limit while compiling |
| Jit.Jit.DoJit | jit/x86/Jit.cpp:334-421 | DoJit only appends code; the block starts at the old end of the code with the checked entry (a jump to outerLoop on a negative downcount), the normal entry right after it and the size counted from there; it compiles from the CPU's pc until an op ends the block or the block-end rule writes exit 0 to the next instruction, and records the block's original size |
| Jit.Jit.CompileBlock | jit/x86/Jit.cpp:288-291 | allocating a block and running DoJit appends exactly one cache entry, for the address and its original instruction, whose checked entry is the old end of the code with the normal entry right after it; the recompile triggers are kept and one compilation is counted |
| Jit.Jit.Compile | jit/x86/Jit.cpp:280-319 | Compile leaves the newest cache entry starting at the address, clears first when space or block slots run out, and recompiles at most once per trigger (rounding mode, uneaten prefix) |
| Asm.RestoredMxcsr | jit/x86/Asm.cpp:71-77 | restoreRoundingMode leaves round-to-nearest without flush-to-zero and keeps every other MXCSR bit |
| Asm.RoundingField | jit/x86/Asm.cpp:88-96 | the guest's rounding bits 0, 1, 2, 3 become the MXCSR rounding field 0, 3, 2, 1 |
| Asm.AppliedMxcsr | jit/x86/Asm.cpp:79-109 | applyRoundingMode leaves MXCSR alone when FCR31 asks for nearest without flush-to-zero, and otherwise gives MXCSR the guest's rounding direction and flush-to-zero setting, keeping every other bit |
| Asm.BitsReplaced | jit/x86/Asm.cpp:96-104 | clearing bits 13-15, or-ing in the rounding field and optionally bit 15 sets exactly those bits and keeps the rest |
| Asm.GuestModeAfterSwitch | jit/x86/Asm.cpp:137-140 | after the restore-then-apply pair around a call the host rounds and flushes as the guest asks, other bits unchanged |
| Asm.RestoreUndoesApply | jit/x86/Asm.cpp:71-109 | restoring after applying gives the restored host MXCSR |
| Asm.SwitchBack | jit/x86/Asm.cpp:71-109 | switching to the guest's rounding and back, or restoring twice, gives the restored host MXCSR |
| Asm.ApplyIdempotent | jit/x86/Asm.cpp:79-109 | applying the guest's rounding twice is applying it once |
| Asm.WordAt | jit/x86/Asm.cpp:169-186 | the word the dispatcher loads at pc is a run-block word for the cached block there, and the guest's own word where no block starts |
| Asm.RunBlockWord | jit/x86/Asm.cpp:183-191 | a run-block word carries the emuhack opcode and the low 24 bits of the code offset |
| Asm.AfterCheck | jit/x86/Asm.cpp:143-218 | after the downcount and coreState checks, control leaves the dispatcher exactly when coreState is set and the downcount is negative or the entry checks coreState, goes to outerLoop exactly when the downcount is negative with coreState clear, and dispatches otherwise |
| Asm.FixedCode.constructor | jit/x86/Asm.cpp:123-137 | enterDispatcher starts at outerLoop with the host's MXCSR |
| Asm.FixedCode.RestoreRoundingMode | jit/x86/Asm.cpp:71-77 | restoreRoundingMode loads the restored MXCSR through the temp slot |
| Asm.FixedCode.ApplyRoundingMode | jit/x86/Asm.cpp:79-109 | applyRoundingMode loads the applied MXCSR, touching the temp slot only when FCR31 asks for something other than the default |
| Asm.FixedCode.UpdateRoundingMode | jit/x86/Asm.cpp:111-121 | updateRoundingMode sets hasSetRounding once FCR31 asks for a rounding direction or flush-to-zero, and never clears it |
| Asm.FixedCode.AdvanceTimers | jit/x86/Asm.cpp:139 | the call to TIMER_Advance moves the timing state as TIMER_Advance does |
| Asm.FixedCode.OuterLoopStep | jit/x86/Asm.cpp:137-157 | outerLoop advances the timers under the host's rounding, then leaves when coreState is set and dispatches under the guest's rounding otherwise |
| Asm.FixedCode.CallTimerAdvance | jit/x86/Asm.cpp:138-140 | TIMER_Advance runs between restoring and applying the rounding mode |
| Asm.FixedCode.CheckStep | jit/x86/Asm.cpp:143-223 | dispatcherCheckCoreState and dispatcher go where AfterCheck says, restoring the host's rounding when they leave |
| Asm.FixedCode.DispatchStep | jit/x86/Asm.cpp:167-207 | dispatcherNoCheck jumps into the block a run-block word names, and otherwise compiles a block at pc under the host's rounding so that a block is there afterwards |
| Asm.FixedCode.CallJitAt | jit/x86/Asm.cpp:204-207 | JitAt runs between restoring and applying the rounding mode and leaves a block cached at pc |
| Asm.FixedCode.BlockStep | jit/x86/Asm.cpp:200 | a block's code may change pc, the timing state, FCR31 and MXCSR and jumps back to outerLoop, dispatcherCheckCoreState or dispatcher; the rounding invariant survives because a block that writes FCR31 switches MXCSR to the new guest mode |
| Asm.RoundingKept | jit/x86/Asm.cpp:200 | under the stated assumption on translated code, a block leaves MXCSR as the host bits it found with the guest mode of the FCR31 it leaves applied |
| Asm.FixedCode.Step | jit/x86/Asm.cpp:137-223 | every step of the fixed code keeps the host's rounding outside guest code and the guest's inside it |
| Asm.FixedCode.Run | jit/x86/Asm.cpp:137-228 | the dispatcher loop stops only back in the host with coreState set and the host's rounding restored |

## Left out

- x86 encodings are not modelled: opcode bytes, INT3 padding, exit-stub sizes, LinkBlock, and the W^X page protection around linking. Emitted code is a sequence of abstract host operations.
- The register caches, MIPSCompileOp, MIPSAnalyst::Analyze and the instruction tables are not modelled. Their results come from `Jit.Environment`.
- Jit.Jit.DoJit: the AFTER_CORE_STATE and AFTER_MEMCHECK_CLEANUP handling after each op is not modelled, because `afterOp` is set only by translators this model does not contain. The opcode read goes through `Environment.opAt` rather than Read_Opcode_JIT.
- Jit.Jit.DoJit: block continuation is not covered. A translator's effect on the compiler state is fixed by `CompileOp`: compilerPC, numInstructions, nextExit, lastContinuedPC, initialBlockSize and downcountAmount change as for one plain instruction. So no translator eats an instruction, writes an exit or continues a block, and `AddContinuedBlock` is never called from DoJit. The continued branch at the end of DoJit (the final ProxyBlock and `originalSize = initialBlockSize`) is not reached.
- Asm.FixedCode.BlockStep: a block's host code is a parameter (`Services.runBlock`). That it switches MXCSR to the new guest mode whenever it writes FCR31 is assumed (`Asm.KeepsGuestRounding`), not proved, because the CTC1 translator is not part of this model.
- Jit.Jit.WriteExit: the coreState check emitted when `afterOp` asks for it is left out, for the same reason. The exit is written as if `afterOp` were AFTER_NONE.
- Jit.Jit.Compile: BeginWrite/EndWrite, and the linking done by FinalizeBlock, are left out. They are host-memory protection and block-cache internals.
- ReplaceJalTo, Comp_ReplacementFunc and the replacement-word paths are left out. They depend on replacement tables that are not part of this model.
- The savestate code, the USE_JIT_MISSMAP statistics, logging, and the commented-out instruction-cache fetch in Read_Instruction are left out. They are dead or diagnostic code.
- The peripherals (SPU, CDC, GPU, MDEC, FrontIO, SIO, IRQ, DMA, timers) and PSX_EventHandler are not modelled. A read answers an uninterpreted function of the timestamp and the address, and a write is recorded as a message to the device.
- PsxBus.Bus.ReadU16, PsxBus.Bus.ReadU32, PsxBus.Bus.ReadU16Zx, PsxBus.Bus.ReadU32Instr, PsxBus.Bus.ReadInstruction, PsxBus.Bus.ReadOpcodeJit, PsxBus.Bus.WriteU16, PsxBus.Bus.WriteU32, PsxBus.Bus.WriteUnchecked and PsxBus.Bus.WriteOpcodeJit require a naturally aligned address. Unaligned, an access at the last bytes of a block would read or write past the block's end, which the source leaves undefined. The guest CPU raises an address error before an unaligned load or store reaches the bus.
- PsxBus.Bus.ReadU64 and PsxBus.Bus.WriteU64 go through the 8-bit accessor of the blocks, as the source's generic Read/Write does for an 8-byte type. WriteMemory's `uint32_t value` parameter keeps only the low half of the data.
- PsxBus.Bus.constructor stands in for Memory::Init, including MainRAM's static allocation. The host allocator is not modelled.
- The two IsValidAddress functions of the mednafen bus and the memory arena disagree. `MemMap.ValidAddressesDisagree` exhibits this, and each bus keeps its own.
- MemMap: Memory_TryBase, MemoryMap_Setup/Shutdown's host mapping, base probing, CanIgnoreView and MASKED_PSP_MEMORY are not modelled. They are OS mapping code. The `Arena` constructor stands in for MemoryMap_Setup over fresh zeroed blocks.
- MemMap: the locks (MemoryInitedLock, g_shutdownLock), DoState and the ExecMemCheck call in Memset are left out. They concern concurrency and the debugger.
- Read_Float, Write_Float and ReadUnchecked_Float are left out, because they are floating point.
- MemcpyUnchecked, GetCharPointer and the PSPPointer dereference operators (`*`, `[]`, `->`, conversion to `T*`) are left out. They hand out host pointers.
- The PSP_Get* constants of MemMap.h:455-465 are not modelled. PSP_GetScratchpadMemoryBase carries the same 0x1f80000 typo as MemMap.cpp:69, but nothing modelled calls it.
- A Cached or Uncached view without MV_MIRROR_PREVIOUS is treated as unbacked.
- MemMap.Memset: the pointer path requires the whole fill to stay inside the view of its first byte. The read-back of the byte-by-byte path is proved only outside the regions (`MemsetOutside`).
- The unchecked arena accessors require the address to be mapped, because the host faults otherwise.
- JitICache.ICacheState.SetFastmap requires address + size <= 2^32. Beyond that the source indexes past the end of FastMap.
- MasMem.MultiAccessSizeMem.ReadU24 on a big-endian host reads a byte the source never stores. The model answers None there.
- BitSet: the 64-bit CountSetBits bit hack is not proved equal to the population count. Only the builtin version (`PopCount64`) is modelled for uint64.
- Timestamp: JITTS_prepare, JITTS_update_and_set_downcount and the increment/update helpers for the GTE and multiply/divide units are declared but not defined in the sources, so they are left out.
- FileUtil: the Windows drive-letter case of StripTailDirSlashes and GetDir's Windows branch are left out. The model takes a non-Windows host. File-system I/O is left out.
- Breakpoints.Evaluate receives the expression parser's outcome, because the parser is not part of this model.
- CpuException: the rt and rd fields follow the MIPS instruction encoding, because jit/MIPSCodeUtils.h is not part of this model.
- Constants not shown in the sources are parameters: MAX_BLOCK_INSTRUCTIONS, MAX_JIT_BLOCK_EXITS, the block-table size, the code-space capacity and DMACycleSteal.

## Findings

| source | as written | input that shows it | evidently intended | confidence | as-written member | corrected member |
|---|---|---|---|---|---|---|
| jit/Common/FileUtil.cpp:113-124 | StripTailDirSlashes walks back over trailing separators with no lower bound on the index | "//": the loop reads index -1 | stop at the first character | not executed | FileUtil.StripTailDirSlashesAsWritten (FileUtil.AllSlashesRunPastStart) | FileUtil.StripTailDirSlashes |
| jit/Common/FileUtil.cpp:541-547 | GetFilename cuts `GetDir(path).size() + 1` characters even when GetDir answered "/" for a path without a directory | "abc" gives "c"; "/abc" gives "bc" | the whole name after the last separator | not executed | FileUtil.GetFilenameAsWritten (FileUtil.GetFilenameDropsCharacters) | FileUtil.GetFilename (FileUtil.GetFilenameAgrees) |
| mednafen/jittimestamp.h:20-24 | increment sets cur_slice_length to downcount, which drops the cycles already run in the slice from what update_from_downcount later adds | Clock(0, 0, 100, 100, 0, 60) with inc 3: the folded time is 3 instead of 43 | keep `cur_slice_length - downcount` as update_from_direct_access does | not executed | Timestamp.Timing.IncrementAsWritten (Timestamp.IncrementDropsPending, PsxBus.ReadClockDropsSlice) | Timestamp.Timing.Increment (Timestamp.IncrementKeepsTime) |
| mednafen/masmem.cpp:271-277 | the FIO read branch has no `return`, so the read falls through to `var = (T)~0` at line 349 | a 32-bit read of 0x1F801040 when FIO answers 0x1234 gives 0xFFFFFFFF | return FIO's answer | not executed | PsxBus.DeviceReadAsWritten (PsxBus.FioReadLost, PsxBus.Bus.FioReadsAllOnes) | PsxBus.DeviceRead |
| mednafen/masmem.cpp:500-509 | the SysControl index `(address & 0x1F) >> 2` wraps at 0x1F801020; a sub-word write is shifted inside its own type T | 0x1F801020 reaches register 0; a byte write of 0xAB to 0x1F801009 clears register 2 | nine registers and byte lanes of the 32-bit register | not executed | PsxBus.SysControlWriteAsWritten (PsxBus.SysControlAliasing, PsxBus.SysControlByteLanes, PsxBus.HardwareSysControlAsWritten, PsxBus.Bus.Register8ReadsRegister0) | PsxBus.SysControlWrite (PsxBus.SysControlWriteRead) |
| jit/Memory/MemMap.cpp:69 | the scratchpad view is placed at 0x1f80000, one hex digit short | 0x1F800000 is not mapped, so its access faults; 0x01F80000 reaches the scratchpad | 0x1f800000, the scratchpad address IsScratchpadAddress uses | not executed | MemMap.ScratchpadViewMisplaced (on MemMap.ViewsAsWritten) | MemMap.ValidRangesMapped (on MemMap.Views) |
