// jit/Memory/MemMapFunctions.cpp: the checked accessors of the memory
// arena. An address inside one of the four regions (RAM and its two
// mirrors, the parallel port, the scratchpad, the KSEG1 BIOS) is accessed
// through GetPointerUnchecked; any other address is reported and ignored,
// so a read of it answers the accessor's initial 0 and a write of it
// changes nothing.
module MemMapFunctions {
  import opened Words
  import opened MemMapH

  /** IsRAMAddress: the physical RAM window and its KSEG0 and KSEG1 mirrors. */
  predicate IsRamAddress(address: uint32)
  {
    address <= 0x001F_FFFF || (0x8000_0000 <= address <= 0x801F_FFFF) || (0xA000_0000 <= address <= 0xA01F_FFFF)
  }

  /** IsVRAMAddress: there is no VRAM window on this bus. */
  predicate IsVramAddress(address: uint32)
  {
    false
  }

  /** IsScratchpadAddress: the 1 KiB data scratchpad. */
  predicate IsScratchpadAddress(address: uint32)
  {
    0x1F80_0000 <= address <= 0x1F80_03FF
  }

  /** The ranges GetPointer, ReadFromHardware and WriteToHardware serve, in their order. */
  predicate InRegion(address: uint32)
  {
    IsRamAddress(address)
    || (0x1F00_0000 <= address <= 0x1F00_FFFF)
    || IsScratchpadAddress(address)
    || (0xBFC0_0000 <= address <= 0xBFC7_FFFF)
  }

  /** The accessors serve exactly the addresses IsValidAddress accepts. */
  lemma RegionsAreValidAddresses(address: uint32)
    ensures InRegion(address) <==> IsValidAddress(address)
  {
  }

  /**
   * GetPointer: the arena location of a served address, nothing (nullptr)
   * for any other. A served address the views leave unmapped has no
   * location either: there `base + address` is not backed memory.
   */
  function GetPointer(views: seq<MemoryView>, address: uint32): (r: Option<Location>)
    ensures r.Some? <==> InRegion(address) && GetPointerUnchecked(views, address).Some?
    ensures r.Some? ==> r == GetPointerUnchecked(views, address)
  {
    if InRegion(address) then GetPointerUnchecked(views, address) else None
  }

  /**
   * What the accessors demand of the arena: an access of `n` bytes to a
   * served address lies inside one mapped view (the host faults
   * otherwise).
   */
  predicate Accessible(views: seq<MemoryView>, address: uint32, n: nat)
  {
    InRegion(address) ==> Mapped(views, address, n)
  }

  /** The value an `n`-byte ReadFromHardware answers: the bytes at the address, or the initial 0. */
  function HardwareValue(m: Memory, views: seq<MemoryView>, address: uint32, n: nat): (r: nat)
    requires WellSized(m) && ViewsFit(views) && Accessible(views, address, n)
    ensures r < Pow256(n)
    ensures !InRegion(address) ==> r == 0
  {
    if InRegion(address) then UncheckedValue(m, views, address, n) else 0
  }

  /** The arena contents after an `n`-byte WriteToHardware of `data`. */
  function HardwareAfter(m: Memory, views: seq<MemoryView>, address: uint32, n: nat, data: nat): (r: Memory)
    requires WellSized(m) && ViewsFit(views) && Accessible(views, address, n) && data < Pow256(n)
    ensures WellSized(r)
    ensures !InRegion(address) ==> r == m
  {
    if InRegion(address) then UncheckedAfter(m, views, address, n, data) else m
  }

  /** A served address reads back what was written there; any other reads 0. */
  lemma WriteThenRead(m: Memory, views: seq<MemoryView>, address: uint32, n: nat, data: nat)
    requires WellSized(m) && ViewsFit(views) && Accessible(views, address, n) && data < Pow256(n)
    ensures HardwareValue(HardwareAfter(m, views, address, n, data), views, address, n)
            == if InRegion(address) then data else 0
  {
    if InRegion(address) {
      UncheckedWriteRead(m, views, address, n, data);
    }
  }

  /** A write touches only the block behind its address. */
  lemma WriteStaysInBlock(m: Memory, views: seq<MemoryView>, address: uint32, n: nat, data: nat, b: Block)
    requires WellSized(m) && ViewsFit(views) && Accessible(views, address, n) && data < Pow256(n)
    requires GetPointer(views, address).Some? ==> b != GetPointer(views, address).value.block
    ensures BlockBytes(HardwareAfter(m, views, address, n, data), b) == BlockBytes(m, b)
  {
  }

  /** Writing back the value just read changes nothing. */
  lemma ReadThenWrite(m: Memory, views: seq<MemoryView>, address: uint32, n: nat)
    requires WellSized(m) && ViewsFit(views) && Accessible(views, address, n)
    ensures HardwareAfter(m, views, address, n, HardwareValue(m, views, address, n)) == m
  {
    if InRegion(address) {
      UncheckedReadWrite(m, views, address, n);
    }
  }

  /** ReadFromHardware<T>: `n` bytes through GetPointerUnchecked, or the caller's 0. */
  method ReadFromHardware(arena: Arena, address: uint32, n: nat) returns (v: nat)
    requires arena.Valid() && Accessible(arena.views, address, n)
    ensures v == HardwareValue(arena.Contents(), arena.views, address, n)
  {
    v := 0;
    if IsRamAddress(address) {
      v := arena.ReadUnchecked(address, n);
    } else if 0x1F00_0000 <= address <= 0x1F00_FFFF {
      v := arena.ReadUnchecked(address, n);
    } else if 0x1F80_0000 <= address <= 0x1F80_03FF {
      v := arena.ReadUnchecked(address, n);
    } else if 0xBFC0_0000 <= address <= 0xBFC7_FFFF {
      v := arena.ReadUnchecked(address, n);
    }
  }

  /** WriteToHardware<T>: `n` bytes through GetPointerUnchecked, or nothing. */
  method WriteToHardware(arena: Arena, address: uint32, n: nat, data: nat)
    requires arena.Valid() && Accessible(arena.views, address, n) && data < Pow256(n)
    modifies arena.ram, arena.parallelPort, arena.scratchPad, arena.bios
    ensures arena.Valid()
    ensures arena.Contents() == HardwareAfter(old(arena.Contents()), arena.views, address, n, data)
  {
    if IsRamAddress(address) {
      arena.WriteUnchecked(address, n, data);
    } else if 0x1F00_0000 <= address <= 0x1F00_FFFF {
      arena.WriteUnchecked(address, n, data);
    } else if 0x1F80_0000 <= address <= 0x1F80_03FF {
      arena.WriteUnchecked(address, n, data);
    } else if 0xBFC0_0000 <= address <= 0xBFC7_FFFF {
      arena.WriteUnchecked(address, n, data);
    }
  }

  /** Read_U8. */
  method ReadU8(arena: Arena, address: uint32) returns (r: nat)
    requires arena.Valid() && Accessible(arena.views, address, 1)
    ensures r < 0x100 && r == HardwareValue(arena.Contents(), arena.views, address, 1)
  {
    r := ReadFromHardware(arena, address, 1);
  }

  /** Read_U16. */
  method ReadU16(arena: Arena, address: uint32) returns (r: nat)
    requires arena.Valid() && Accessible(arena.views, address, 2)
    ensures r < 0x1_0000 && r == HardwareValue(arena.Contents(), arena.views, address, 2)
  {
    r := ReadFromHardware(arena, address, 2);
  }

  /** Read_U32. */
  method ReadU32(arena: Arena, address: uint32) returns (r: uint32)
    requires arena.Valid() && Accessible(arena.views, address, 4)
    ensures r == HardwareValue(arena.Contents(), arena.views, address, 4)
  {
    var v := ReadFromHardware(arena, address, 4);
    r := v;
  }

  /** Read_U64. */
  method ReadU64(arena: Arena, address: uint32) returns (r: nat)
    requires arena.Valid() && Accessible(arena.views, address, 8)
    ensures r < 0x1_0000_0000_0000_0000 && r == HardwareValue(arena.Contents(), arena.views, address, 8)
  {
    r := ReadFromHardware(arena, address, 8);
  }

  /** Read_U8_ZX: the byte, zero-extended to 32 bits. */
  method ReadU8Zx(arena: Arena, address: uint32) returns (r: uint32)
    requires arena.Valid() && Accessible(arena.views, address, 1)
    ensures r < 0x100 && r == HardwareValue(arena.Contents(), arena.views, address, 1)
  {
    var b := ReadU8(arena, address);
    r := b;
  }

  /** Read_U16_ZX: the halfword, zero-extended to 32 bits. */
  method ReadU16Zx(arena: Arena, address: uint32) returns (r: uint32)
    requires arena.Valid() && Accessible(arena.views, address, 2)
    ensures r < 0x1_0000 && r == HardwareValue(arena.Contents(), arena.views, address, 2)
  {
    var h := ReadU16(arena, address);
    r := h;
  }

  /** Write_U8. */
  method WriteU8(arena: Arena, data: nat, address: uint32)
    requires arena.Valid() && Accessible(arena.views, address, 1) && data < 0x100
    modifies arena.ram, arena.parallelPort, arena.scratchPad, arena.bios
    ensures arena.Valid()
    ensures arena.Contents() == HardwareAfter(old(arena.Contents()), arena.views, address, 1, data)
  {
    WriteToHardware(arena, address, 1, data);
  }

  /** Write_U16. */
  method WriteU16(arena: Arena, data: nat, address: uint32)
    requires arena.Valid() && Accessible(arena.views, address, 2) && data < 0x1_0000
    modifies arena.ram, arena.parallelPort, arena.scratchPad, arena.bios
    ensures arena.Valid()
    ensures arena.Contents() == HardwareAfter(old(arena.Contents()), arena.views, address, 2, data)
  {
    WriteToHardware(arena, address, 2, data);
  }

  /** Write_U32. */
  method WriteU32(arena: Arena, data: uint32, address: uint32)
    requires arena.Valid() && Accessible(arena.views, address, 4)
    modifies arena.ram, arena.parallelPort, arena.scratchPad, arena.bios
    ensures arena.Valid()
    ensures arena.Contents() == HardwareAfter(old(arena.Contents()), arena.views, address, 4, data)
  {
    WriteToHardware(arena, address, 4, data);
  }

  /** Write_U64. */
  method WriteU64(arena: Arena, data: nat, address: uint32)
    requires arena.Valid() && Accessible(arena.views, address, 8) && data < 0x1_0000_0000_0000_0000
    modifies arena.ram, arena.parallelPort, arena.scratchPad, arena.bios
    ensures arena.Valid()
    ensures arena.Contents() == HardwareAfter(old(arena.Contents()), arena.views, address, 8, data)
  {
    WriteToHardware(arena, address, 8, data);
  }
}
