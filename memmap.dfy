// jit/Memory/MemMap.cpp: the view table of the memory arena, Init,
// Shutdown, Clear, the instruction readers that see through the
// recompiler's run-block words, and Memset.
module MemMap {
  import opened Words
  import opened MemMapH
  import MemMapFunctions
  import Mips
  import Jit
  import PsxBus
  import MasMem

  /** MAX_MMAP_SIZE: 31 MiB, the largest view Init sizes. */
  const MaxMmapSize: int := 31 * 1024 * 1024

  /**
   * The view table as written: the physical RAM, its KSEG0 and KSEG1
   * mirrors, the parallel port, the scratchpad (registered at 0x1f80000)
   * and the BIOS.
   */
  const ViewsAsWritten: seq<MemoryView> := [
    MemoryView(PhysicalRam, 0x0000_0000, 0x20_0000, 0),
    MemoryView(CachedRam, 0x8000_0000, 0x20_0000, MvMirrorPrevious),
    MemoryView(UncachedRam, 0xA000_0000, 0x20_0000, MvMirrorPrevious),
    MemoryView(ParallelPortView, 0x1F00_0000, 0x2_0000, 0),
    MemoryView(ScratchPadView, 0x01F8_0000, 0x400, 0),
    MemoryView(BiosView, 0xBFC0_0000, 0x8_0000, 0)
  ]

  /** The view table with the scratchpad at 0x1F800000, where IsValidAddress and the accessors expect it. */
  const Views: seq<MemoryView> := [
    MemoryView(PhysicalRam, 0x0000_0000, 0x20_0000, 0),
    MemoryView(CachedRam, 0x8000_0000, 0x20_0000, MvMirrorPrevious),
    MemoryView(UncachedRam, 0xA000_0000, 0x20_0000, MvMirrorPrevious),
    MemoryView(ParallelPortView, 0x1F00_0000, 0x2_0000, 0),
    MemoryView(ScratchPadView, 0x1F80_0000, 0x400, 0),
    MemoryView(BiosView, 0xBFC0_0000, 0x8_0000, 0)
  ]

  // ---------------------------------------------------------------- the view table

  /**
   * As written, the scratchpad view lies at 0x1F80000, an address no
   * accessor serves, while the scratchpad addresses every accessor
   * serves (0x1F800000 on) lie in no view: an access there dereferences
   * unmapped host memory.
   */
  lemma ScratchpadViewMisplaced()
    ensures IsValidAddress(0x1F80_0000) && MemMapFunctions.IsScratchpadAddress(0x1F80_0000)
    ensures GetPointerUnchecked(ViewsAsWritten, 0x1F80_0000) == None
    ensures !MemMapFunctions.Accessible(ViewsAsWritten, 0x1F80_0000, 1)
    ensures GetPointerUnchecked(ViewsAsWritten, 0x01F8_0000) == Some(Location(ScratchPadBlock, 0, 0x400))
    ensures !IsValidAddress(0x01F8_0000)
  {
    FirstViewSkips(ViewsAsWritten, 0x1F80_0000, 0, 6);
    FirstViewSkips(ViewsAsWritten, 0x01F8_0000, 0, 4);
  }

  /** Both tables fit their blocks. */
  lemma TablesFit()
    ensures ViewsFit(ViewsAsWritten) && ViewsFit(Views)
  {
    MirrorsAreRam();
  }

  /** The KSEG0 and KSEG1 views mirror the physical RAM view. */
  lemma MirrorsAreRam()
    ensures Backing(Views, 1) == Backing(Views, 2) == Some(RamBlock)
    ensures Backing(ViewsAsWritten, 1) == Backing(ViewsAsWritten, 2) == Some(RamBlock)
  {
    assert MvMirrorPrevious & MvMirrorPrevious != 0;
    assert Backing(Views, 1) == Backing(Views, 0);
    assert Backing(ViewsAsWritten, 1) == Backing(ViewsAsWritten, 0);
  }

  /** The first view of the table holding a valid address, and where in its block the address lies. */
  lemma FirstViewOfValid(address: uint32)
    requires IsValidAddress(address)
    ensures var i := FirstView(Views, address, 0);
            && (address <= 0x1F_FFFF ==> i == 0)
            && (0x8000_0000 <= address <= 0x801F_FFFF ==> i == 1)
            && (0xA000_0000 <= address <= 0xA01F_FFFF ==> i == 2)
            && (0x1F00_0000 <= address <= 0x1F00_FFFF ==> i == 3)
            && (0x1F80_0000 <= address <= 0x1F80_03FF ==> i == 4)
            && (0xBFC0_0000 <= address <= 0xBFC7_FFFF ==> i == 5)
  {
    if address <= 0x1F_FFFF {
    } else if 0x8000_0000 <= address <= 0x801F_FFFF {
      FirstViewSkips(Views, address, 0, 1);
    } else if 0xA000_0000 <= address <= 0xA01F_FFFF {
      FirstViewSkips(Views, address, 0, 2);
    } else if 0x1F00_0000 <= address <= 0x1F00_FFFF {
      FirstViewSkips(Views, address, 0, 3);
    } else if 0x1F80_0000 <= address <= 0x1F80_03FF {
      FirstViewSkips(Views, address, 0, 4);
    } else {
      FirstViewSkips(Views, address, 0, 5);
    }
  }

  /**
   * With the scratchpad view where the accessors expect it, every valid
   * range ValidSize allows is mapped, so no accessor of a valid address
   * reaches unmapped memory.
   */
  lemma ValidRangesMapped(address: uint32, requested: uint32)
    requires IsValidAddress(address) && requested > 0
    ensures Mapped(Views, address, ValidSize(address, requested))
  {
    FirstViewOfValid(address);
    MirrorsAreRam();
  }

  /** The KSEG0 and KSEG1 windows are the physical RAM: the same block, at the same offset. */
  lemma RamMirrors(k: uint32)
    requires k < RamSize
    ensures GetPointerUnchecked(Views, k) == Some(Location(RamBlock, k, RamSize - k))
    ensures GetPointerUnchecked(Views, 0x8000_0000 + k) == GetPointerUnchecked(Views, k)
    ensures GetPointerUnchecked(Views, 0xA000_0000 + k) == GetPointerUnchecked(Views, k)
  {
    FirstViewOfValid(k);
    FirstViewOfValid(0x8000_0000 + k);
    FirstViewOfValid(0xA000_0000 + k);
    MirrorsAreRam();
  }

  /** A byte written through a RAM mirror is read at the physical address. */
  lemma MirrorWriteRead(m: Memory, k: uint32, data: nat)
    requires WellSized(m) && k < RamSize && data < 0x100
    ensures MemMapFunctions.Accessible(Views, 0xA000_0000 + k, 1) && MemMapFunctions.Accessible(Views, k, 1)
    ensures ViewsFit(Views)
    ensures MemMapFunctions.HardwareValue(MemMapFunctions.HardwareAfter(m, Views, 0xA000_0000 + k, 1, data), Views, k, 1) == data
  {
    TablesFit();
    RamMirrors(k);
    MemMapFunctions.WriteThenRead(m, Views, 0xA000_0000 + k, 1, data);
  }

  // ---------------------------------------------------------------- Init

  /** A view after Init's sizing loop: a flagged RAM view takes its share of `g_MemorySize`, cast to int. */
  function SizedView(v: MemoryView, memorySize: uint32): (r: MemoryView)
    ensures r.outPtr == v.outPtr && r.virtualAddress == v.virtualAddress && r.flags == v.flags
    ensures v.flags & (MvIsPrimaryRam | MvIsExtra1Ram | MvIsExtra2Ram) == 0 ==> r == v
  {
    var m := WrapS32(memorySize);
    var v1 := if v.flags & MvIsPrimaryRam != 0 then v.(size := Wrap32(Min(m, MaxMmapSize))) else v;
    var v2 := if v.flags & MvIsExtra1Ram != 0 then v1.(size := Wrap32(Min(Max(m - MaxMmapSize, 0), MaxMmapSize))) else v1;
    if v.flags & MvIsExtra2Ram != 0 then v2.(size := Wrap32(Min(Max(m - 2 * MaxMmapSize, 0), MaxMmapSize))) else v2
  }

  /** The whole table after Init's sizing loop. */
  function SizedViews(views: seq<MemoryView>, memorySize: uint32): (r: seq<MemoryView>)
    ensures |r| == |views|
  {
    seq(|views|, i requires 0 <= i < |views| => SizedView(views[i], memorySize))
  }

  function Min(a: int, b: int): int { if a < b then a else b }
  function Max(a: int, b: int): int { if a < b then b else a }

  /**
   * The three RAM shares split a memory size of up to three maximal
   * views exactly: the primary view takes up to 31 MiB, the first extra
   * view up to 31 MiB of the rest, the second extra view the remainder.
   */
  lemma SharesSplitMemory(memorySize: uint32)
    requires memorySize <= 3 * MaxMmapSize
    ensures var primary := SizedView(MemoryView(PhysicalRam, 0, 0, MvIsPrimaryRam), memorySize).size;
            var extra1 := SizedView(MemoryView(PhysicalRam, 0, 0, MvIsExtra1Ram), memorySize).size;
            var extra2 := SizedView(MemoryView(PhysicalRam, 0, 0, MvIsExtra2Ram), memorySize).size;
            primary + extra1 + extra2 == memorySize && primary <= MaxMmapSize && extra1 <= MaxMmapSize && extra2 <= MaxMmapSize
  {
    WrapS32Identity(memorySize);
    assert MvIsPrimaryRam & MvIsExtra1Ram == 0 && MvIsPrimaryRam & MvIsExtra2Ram == 0 && MvIsExtra1Ram & MvIsExtra2Ram == 0;
    Wrap32Identity(Min(memorySize, MaxMmapSize));
    Wrap32Identity(Min(Max(memorySize - MaxMmapSize, 0), MaxMmapSize));
    Wrap32Identity(Min(Max(memorySize - 2 * MaxMmapSize, 0), MaxMmapSize));
  }

  /** No view of the table carries a sizing flag: Init's loop leaves both tables as they are. */
  lemma SizingKeepsTables(memorySize: uint32)
    ensures SizedViews(Views, memorySize) == Views
    ensures SizedViews(ViewsAsWritten, memorySize) == ViewsAsWritten
  {
    assert MvMirrorPrevious & (MvIsPrimaryRam | MvIsExtra1Ram | MvIsExtra2Ram) == 0;
    assert 0 & (MvIsPrimaryRam | MvIsExtra1Ram | MvIsExtra2Ram) == 0;
  }

  /** Init's loop: every view sized for `g_MemorySize`. */
  method SizeViews(views: array<MemoryView>, memorySize: uint32)
    modifies views
    ensures views[..] == SizedViews(old(views[..]), memorySize)
  {
    for i := 0 to views.Length
      invariant forall j :: 0 <= j < i ==> views[j] == SizedView(old(views[j]), memorySize)
      invariant forall j :: i <= j < views.Length ==> views[j] == old(views[j])
    {
      var m := WrapS32(memorySize);
      if views[i].flags & MvIsPrimaryRam != 0 {
        views[i] := views[i].(size := Wrap32(Min(m, MaxMmapSize)));
      }
      if views[i].flags & MvIsExtra1Ram != 0 {
        views[i] := views[i].(size := Wrap32(Min(Max(m - MaxMmapSize, 0), MaxMmapSize)));
      }
      if views[i].flags & MvIsExtra2Ram != 0 {
        views[i] := views[i].(size := Wrap32(Min(Max(m - 2 * MaxMmapSize, 0), MaxMmapSize)));
      }
    }
  }

  /**
   * Init: g_MemorySize becomes RAM_SIZE, the views are sized, and
   * MemoryMap_Setup maps them over fresh blocks.
   */
  method Init(views: array<MemoryView>) returns (arena: Arena)
    requires ViewsFit(SizedViews(views[..], RamSize))
    modifies views
    ensures views[..] == SizedViews(old(views[..]), RamSize)
    ensures fresh(arena) && arena.Valid() && arena.IsActive() && arena.mapped
    ensures arena.views == views[..] && arena.memorySize == RamSize
    ensures arena.Contents() == Memory(seq(RamSize, _ => 0), seq(ParallelPortSize, _ => 0),
                                       seq(ScratchpadSize, _ => 0), seq(BiosSize, _ => 0))
  {
    SizeViews(views, RamSize);
    arena := new Arena(views[..], RamSize);
  }

  /** Shutdown: MemoryMap_Shutdown releases the views, then base is cleared. */
  method Shutdown(arena: Arena)
    modifies arena
    ensures !arena.IsActive() && !arena.mapped && arena.memorySize == old(arena.memorySize)
  {
    arena.mapped := false;
    arena.based := false;
  }

  // ---------------------------------------------------------------- Clear

  /** The contents after Clear: `g_MemorySize` bytes of RAM set to 0xFF, the other three blocks zeroed. */
  function Cleared(m: Memory, memorySize: nat): (r: Memory)
    requires WellSized(m) && memorySize <= RamSize
    ensures WellSized(r)
  {
    Memory(seq(RamSize, i requires 0 <= i < RamSize => if i < memorySize then 0xFF else m.ram[i]),
           seq(ParallelPortSize, _ => 0), seq(ScratchpadSize, _ => 0), seq(BiosSize, _ => 0))
  }

  /** Clear: each block is filled only when its view pointer is set. */
  method Clear(arena: Arena)
    requires arena.Valid()
    modifies arena.ram, arena.parallelPort, arena.scratchPad, arena.bios
    ensures arena.Valid()
    ensures arena.mapped ==> arena.Contents() == Cleared(old(arena.Contents()), arena.memorySize)
    ensures !arena.mapped ==> arena.Contents() == old(arena.Contents())
  {
    if arena.mapped {
      forall i | 0 <= i < arena.memorySize {
        arena.ram[i] := 0xFF;
      }
      forall i | 0 <= i < ParallelPortSize {
        arena.parallelPort[i] := 0;
      }
      forall i | 0 <= i < BiosSize {
        arena.bios[i] := 0;
      }
      forall i | 0 <= i < ScratchpadSize {
        arena.scratchPad[i] := 0;
      }
    }
  }

  /**
   * After Clear of a fully sized RAM, every valid address of the table
   * reads 0xFF in RAM and its mirrors, and 0 everywhere else.
   */
  lemma ClearThenRead(m: Memory, address: uint32)
    requires WellSized(m) && IsValidAddress(address)
    ensures ViewsFit(Views) && Mapped(Views, address, 1)
    ensures MemMapFunctions.HardwareValue(Cleared(m, RamSize), Views, address, 1)
            == if MemMapFunctions.IsRamAddress(address) then 0xFF else 0
  {
    TablesFit();
    ValidRangesMapped(address, 1);
    var l := GetPointerUnchecked(Views, address).value;
    FirstViewOfValid(address);
    MirrorsAreRam();
    var b := BlockBytes(Cleared(m, RamSize), l.block)[l.offset..l.offset + 1];
    assert b == [b[0]];
  }

  // ---------------------------------------------------------------- instructions

  /** `Opcode(x)`: a 32-bit number as an instruction word. */
  function Word(x: uint32): u32
  {
    x as u32
  }

  /** `op.encoding`: an instruction word as a 32-bit number. */
  function Number(op: u32): uint32
  {
    op as uint32
  }

  lemma WordOfNumber(op: u32)
    ensures Word(Number(op)) == op
  {
  }

  /**
   * The static Read_Instruction: a run-block word is replaced by the
   * instruction it displaced when the recompiler exists; a replacement
   * word would be looked up, but the lookup is compiled out, so it and
   * every other word come back as read.
   */
  function Resolve(blocks: Option<seq<Jit.BlockEntry>>, resolveReplacements: bool, inst: u32): (r: u32)
  {
    if !Mips.IsEmuhack(inst) then inst
    else if Mips.IsRunBlock(inst) && blocks.Some? then Jit.GetOriginalOp(blocks.value, inst)
    else if resolveReplacements && Mips.IsReplacement(inst) then inst
    else inst
  }

  /** Only run-block words change, only with a recompiler, and only to their original instruction. */
  lemma ResolveChangesOnlyRunBlocks(blocks: Option<seq<Jit.BlockEntry>>, resolveReplacements: bool, inst: u32)
    ensures Resolve(blocks, resolveReplacements, inst) != inst ==> Mips.IsRunBlock(inst) && blocks.Some?
    ensures Mips.IsRunBlock(inst) && blocks.Some? ==> Resolve(blocks, resolveReplacements, inst) == Jit.GetOriginalOp(blocks.value, inst)
  {
    if !(Mips.IsRunBlock(inst) && blocks.Some?) {
      Mips.EmuhackTopByte(inst);
    } else {
      Mips.EmuhackTopByte(inst);
    }
  }

  /** Read_Opcode_JIT's resolution: only run-block words, only with a recompiler. */
  function OpcodeJit(blocks: Option<seq<Jit.BlockEntry>>, inst: u32): (r: u32)
  {
    if Mips.IsRunBlock(inst) && blocks.Some? then Jit.GetOriginalOp(blocks.value, inst) else inst
  }

  /** Read_Opcode_JIT resolves exactly as Read_Instruction does, whether replacements are asked for or not. */
  lemma OpcodeJitIsResolve(blocks: Option<seq<Jit.BlockEntry>>, resolve: bool, inst: u32)
    ensures OpcodeJit(blocks, inst) == Resolve(blocks, resolve, inst)
  {
    Mips.EmuhackTopByte(inst);
  }

  /** Read_Instruction: Read_U32, then resolved. */
  method ReadInstruction(arena: Arena, blocks: Option<seq<Jit.BlockEntry>>, address: uint32, resolveReplacements: bool)
    returns (op: u32)
    requires arena.Valid() && MemMapFunctions.Accessible(arena.views, address, 4)
    ensures op == Resolve(blocks, resolveReplacements, Word(MemMapFunctions.HardwareValue(arena.Contents(), arena.views, address, 4)))
  {
    var w := MemMapFunctions.ReadU32(arena, address);
    op := Resolve(blocks, resolveReplacements, Word(w));
  }

  /** ReadUnchecked_Instruction: the inline ReadUnchecked_U32, then resolved. */
  method ReadUncheckedInstruction(arena: Arena, blocks: Option<seq<Jit.BlockEntry>>, address: uint32, resolveReplacements: bool)
    returns (op: u32)
    requires arena.Valid() && Mapped(arena.views, address, 4)
    ensures op == Resolve(blocks, resolveReplacements, Word(UncheckedValue(arena.Contents(), arena.views, address, 4)))
  {
    var w := arena.ReadUnchecked(address, 4);
    op := Resolve(blocks, resolveReplacements, Word(w));
  }

  /** Read_Opcode_JIT: Read_U32, with a run-block word replaced by its original instruction. */
  method ReadOpcodeJit(arena: Arena, blocks: Option<seq<Jit.BlockEntry>>, address: uint32) returns (op: u32)
    requires arena.Valid() && MemMapFunctions.Accessible(arena.views, address, 4)
    ensures op == OpcodeJit(blocks, Word(MemMapFunctions.HardwareValue(arena.Contents(), arena.views, address, 4)))
  {
    var w := MemMapFunctions.ReadU32(arena, address);
    var inst := Word(w);
    if Mips.IsRunBlock(inst) && blocks.Some? {
      op := Jit.GetOriginalOp(blocks.value, inst);
    } else {
      op := inst;
    }
  }

  /** Write_Opcode_JIT: the inline WriteUnchecked_U32, no checks. */
  method WriteOpcodeJit(arena: Arena, address: uint32, value: u32)
    requires arena.Valid() && Mapped(arena.views, address, 4)
    modifies arena.ram, arena.parallelPort, arena.scratchPad, arena.bios
    ensures arena.Valid()
    ensures arena.Contents() == UncheckedAfter(old(arena.Contents()), arena.views, address, 4, Number(value))
  {
    arena.WriteUnchecked(address, 4, Number(value));
  }

  /**
   * An opcode written for the recompiler is what the unchecked
   * instruction reader sees again, unless it is itself a run-block word.
   */
  lemma WrittenOpcodeRead(m: Memory, views: seq<MemoryView>, address: uint32, value: u32, blocks: Option<seq<Jit.BlockEntry>>, resolve: bool)
    requires WellSized(m) && ViewsFit(views) && Mapped(views, address, 4) && !Mips.IsRunBlock(value)
    ensures Resolve(blocks, resolve, Word(UncheckedValue(UncheckedAfter(m, views, address, 4, Number(value)), views, address, 4))) == value
  {
    UncheckedWriteRead(m, views, address, 4, Number(value));
    WordOfNumber(value);
    Mips.EmuhackTopByte(value);
  }

  // ---------------------------------------------------------------- Memset

  /** `(u32)(address + i)`: the i-th address of a range, wrapping past the top. */
  function At(address: uint32, i: int): uint32
  {
    Wrap32(address + i)
  }

  /** The contents after Write_U8 of `value` at `At(address, i)` for every i below `count`, in order. */
  function ByteWrites(m: Memory, views: seq<MemoryView>, address: uint32, value: byte, count: nat): (r: Memory)
    requires WellSized(m) && ViewsFit(views)
    requires forall i :: 0 <= i < count ==> MemMapFunctions.Accessible(views, At(address, i), 1)
    ensures WellSized(r)
  {
    if count == 0 then m
    else MemMapFunctions.HardwareAfter(ByteWrites(m, views, address, value, count - 1), views, At(address, count - 1), 1, value)
  }

  /** Byte writes to addresses no accessor serves leave the memory as it was. */
  lemma {:induction false} ByteWritesOutside(m: Memory, views: seq<MemoryView>, address: uint32, value: byte, count: nat)
    requires WellSized(m) && ViewsFit(views)
    requires forall i :: 0 <= i < count ==> !MemMapFunctions.InRegion(At(address, i))
    ensures ByteWrites(m, views, address, value, count) == m
  {
    if count > 0 {
      ByteWritesOutside(m, views, address, value, count - 1);
    }
  }

  /** What Memset demands: a fill through a pointer stays in the start address's view; a fill without one writes only accessible bytes. */
  predicate MemsetFits(views: seq<MemoryView>, address: uint32, length: nat)
  {
    var p := MemMapFunctions.GetPointer(views, address);
    && (p.Some? ==> length <= p.value.room)
    && (p.None? ==> forall i :: 0 <= i < length ==> MemMapFunctions.Accessible(views, At(address, i), 1))
  }

  /** The contents after Memset: the pointer path fills `length` bytes from the start address's location. */
  function MemsetAfter(m: Memory, views: seq<MemoryView>, address: uint32, value: byte, length: nat): (r: Memory)
    requires WellSized(m) && ViewsFit(views) && MemsetFits(views, address, length)
    ensures WellSized(r)
  {
    var p := MemMapFunctions.GetPointer(views, address);
    if p.Some? then
      LocationInBlock(views, address);
      StoredAt(m, p.value, seq(length, _ => value))
    else ByteWrites(m, views, address, value, length)
  }

  /**
   * Memset: with a pointer for the start address, a host memset from
   * there; without one, a Write_U8 of the value at each address of the
   * range.
   */
  method Memset(arena: Arena, address: uint32, value: byte, length: uint32)
    requires arena.Valid() && MemsetFits(arena.views, address, length)
    modifies arena.ram, arena.parallelPort, arena.scratchPad, arena.bios
    ensures arena.Valid()
    ensures arena.Contents() == MemsetAfter(old(arena.Contents()), arena.views, address, value, length)
  {
    var p := MemMapFunctions.GetPointer(arena.views, address);
    if p.Some? {
      LocationInBlock(arena.views, address);
      Store(arena.BlockArray(p.value.block), p.value.offset, seq(length, _ => value));
    } else {
      for i := 0 to length
        invariant arena.Valid()
        invariant arena.Contents() == ByteWrites(old(arena.Contents()), arena.views, address, value, i)
      {
        MemMapFunctions.WriteU8(arena, value, At(address, i));
      }
    }
  }

  /** After a Memset through a pointer, each byte of the filled range holds the value. */
  lemma MemsetThenRead(m: Memory, views: seq<MemoryView>, address: uint32, value: byte, length: nat, k: nat)
    requires WellSized(m) && ViewsFit(views) && MemsetFits(views, address, length)
    requires MemMapFunctions.GetPointer(views, address).Some? && k < length
    ensures var l := MemMapFunctions.GetPointer(views, address).value;
            var r := BlockBytes(MemsetAfter(m, views, address, value, length), l.block);
            l.offset + k < |r| && r[l.offset + k] == value
  {
    LocationInBlock(views, address);
    var l := MemMapFunctions.GetPointer(views, address).value;
    var r := BlockBytes(MemsetAfter(m, views, address, value, length), l.block);
    assert r[l.offset..l.offset + length] == seq(length, _ => value);
    assert r[l.offset + k] == r[l.offset..l.offset + length][k];
  }

  /** A Memset whose every address lies outside the served regions changes nothing. */
  lemma MemsetOutside(m: Memory, views: seq<MemoryView>, address: uint32, value: byte, length: nat)
    requires WellSized(m) && ViewsFit(views)
    requires forall i :: 0 <= i < length ==> !MemMapFunctions.InRegion(At(address, i))
    requires 0 < length
    ensures MemsetFits(views, address, length)
    ensures MemsetAfter(m, views, address, value, length) == m
  {
    assert At(address, 0) == address;
    ByteWritesOutside(m, views, address, value, length);
  }

  // ---------------------------------------------------------------- the two bus models

    /**
   * The arena's region tests agree with the bus's: IsRAMAddress and
   * IsScratchpadAddress accept the same addresses in both files, and no
   * address is VRAM.
   */
  lemma RegionTestsAgree(address: uint32)
    ensures MemMapFunctions.IsRamAddress(address) <==> PsxBus.IsRamAddress(address)
    ensures MemMapFunctions.IsScratchpadAddress(address) <==> PsxBus.IsScratchpadAddress(address)
    ensures !MemMapFunctions.IsVramAddress(address)
    ensures MemMapFunctions.IsRamAddress(address) || MemMapFunctions.IsScratchpadAddress(address) ==> IsValidAddress(address)
  {
  }

/**
   * The arena's IsValidAddress and the interpreter bus's disagree: the
   * bus accepts the BIOS through its KUSEG window and rejects the
   * parallel port, the arena the other way round.
   */
  lemma ValidAddressesDisagree()
    ensures PsxBus.IsValidAddress(0x1FC0_0000) && !IsValidAddress(0x1FC0_0000)
    ensures !PsxBus.IsValidAddress(0x1F00_0000) && IsValidAddress(0x1F00_0000)
  {
  }
}
