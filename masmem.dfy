// mednafen/masmem.cpp: the PlayStation bus as the recompiler's Memory
// namespace sees it. Main RAM, the BIOS ROM, the scratchpad and the
// parallel-port expansion area are MultiAccessSizeMem blocks; the I/O
// window 0x1F801000-0x1F802FFF reaches the devices and the memory-control
// registers (SysControl); 0xFFFE0130 is the BIU register of jitICache.
//
// Addresses are numbers. The source's address masks `& (2^k - 1)` are
// written `% 2^k` and its shifts `>> k` are written `/ 2^k`; data words are
// bit vectors. An access of a C++ type T is described by `sizeOf`, the
// value of sizeof(T): 1, 2, 4 or 8.
//
// The bus follows the code as written, defects included: every charge is
// JTTTS_increment_timestamp as written, the controller-port read falls
// through to all ones, and the SysControl index wraps at 0x1F801020 with
// sub-word data shifted inside T. The corrected definitions (DeviceRead,
// SysControlRead, SysControlWrite, ReadClockIntended) are kept as the
// reference the differences are proved against.
module PsxBus {
  import opened Words
  import opened MasMem
  import JitICache
  import Mips
  import Timestamp
  import Jit

  const RamSize: nat := 0x20_0000
  const BiosSize: nat := 0x8_0000
  const ScratchSize: nat := 0x400
  const PioSize: nat := 0x1_0000
  const BiuAddress: uint32 := 0xFFFE_0130
  /** The isolate-cache bit of the status register (CP0 register 12). */
  const SrIsolateCache: u32 := 0x1_0000

  // ---------------------------------------------------------------- addresses

  /**
   * `address & addr_mask[address >> 29]`: the KSEG0 window (segment 4,
   * mask 0x7FFFFFFF) and the KSEG1 window (segment 5, mask 0x1FFFFFFF)
   * fold onto the physical addresses below 0x20000000; the other six
   * segments have the mask 0xFFFFFFFF.
   */
  function Masked(address: uint32): (r: uint32)
    ensures r % 0x2000_0000 == address % 0x2000_0000
    ensures address / 0x2000_0000 == 4 || address / 0x2000_0000 == 5 <==> r != address
  {
    var segment := address / 0x2000_0000;
    if segment == 4 then address - 0x8000_0000
    else if segment == 5 then address - 0xA000_0000
    else address
  }

  /** Masking twice is masking once: a folded address lies in segment 0. */
  lemma MaskedIdempotent(address: uint32)
    ensures Masked(Masked(address)) == Masked(address)
  {
  }

  /** IsRAMAddress: the 2 MiB of main RAM in KUSEG, KSEG0 and KSEG1. */
  predicate IsRamAddress(address: uint32)
  {
    address <= 0x001F_FFFF ||
    (0x8000_0000 <= address <= 0x801F_FFFF) ||
    (0xA000_0000 <= address <= 0xA01F_FFFF)
  }

  /** IsScratchpadAddress: the 1 KiB data scratchpad, only at its KUSEG address. */
  predicate IsScratchpadAddress(address: uint32)
  {
    0x1F80_0000 <= address <= 0x1F80_03FF
  }

  /** IsValidAddress: RAM, the scratchpad, or the BIOS in any of its three windows. */
  predicate IsValidAddress(address: uint32)
  {
    if IsRamAddress(address) then true
    else if IsScratchpadAddress(address) then true
    else (0xBFC0_0000 <= address <= 0xBFC7_FFFF) ||
         (0x9FC0_0000 <= address <= 0x9FC7_FFFF) ||
         (0x1FC0_0000 <= address <= 0x1FC7_FFFF)
  }

  // ---------------------------------------------------------------- access widths

  /** The sizes of the types the accessors are instantiated with. */
  predicate Width(sizeOf: nat)
  {
    sizeOf == 1 || sizeOf == 2 || sizeOf == 4 || sizeOf == 8
  }

  /**
   * The alignment MultiAccessSizeMem demands (masmem.h): a multiple of the
   * unit the access goes through. The CPU raises an address error before a
   * misaligned access reaches the bus.
   */
  predicate Aligned(address: uint32, sizeOf: nat)
  {
    address % UnitBytes(sizeOf) == 0
  }

  /** A value converted to the type of `sizeOf` bytes: its low bytes. */
  function Fit(sizeOf: nat, v: u64): (r: u64)
  {
    if sizeOf == 1 then v & 0xFF
    else if sizeOf == 2 then v & 0xFFFF
    else if sizeOf == 4 then v & 0xFFFF_FFFF
    else v
  }

  /** `(T)(~0U)`: the 32-bit all-ones word converted to T. */
  function AllOnes(sizeOf: nat): u64
  {
    Fit(sizeOf, 0xFFFF_FFFF)
  }

  /** Converting twice to the same type is converting once. */
  lemma FitIdempotent(sizeOf: nat, v: u64)
    ensures Fit(sizeOf, Fit(sizeOf, v)) == Fit(sizeOf, v)
  {
    if sizeOf == 1 {
      AndTwice(v, 0xFF);
    } else if sizeOf == 2 {
      AndTwice(v, 0xFFFF);
    } else if sizeOf == 4 {
      AndTwice(v, 0xFFFF_FFFF);
    }
  }

  lemma AndTwice(v: u64, m: u64)
    ensures (v & m) & m == v & m
  {
  }

  /** An aligned access inside a block whose size is a multiple of 4 stays inside it. */
  lemma AlignedInside(address: uint32, sizeOf: nat, offset: nat, size: nat)
    requires Width(sizeOf) && Aligned(address, sizeOf) && size > 0 && size % 4 == 0
    requires offset == address % size
    ensures offset % UnitBytes(sizeOf) == 0 && offset + UnitBytes(sizeOf) <= size
  {
    var q := address / size;
    var m := q * (size / 4);
    assert address == q * size + offset;
    MulFour(q, size);
    ModAfterFours(address, m);
    AlignedBelow(offset, sizeOf, size);
  }

  lemma MulFour(q: int, size: int)
    requires size % 4 == 0
    ensures q * size == 4 * (q * (size / 4))
  {
    var k := size / 4;
    assert size == 4 * k;
  }

  lemma ModAfterFours(x: int, m: int)
    ensures (x - 4 * m) % 4 == x % 4 && (x - 4 * m) % 2 == x % 2
  {
    ModUnique(x - 4 * m, x / 4 - m, x % 4, 4);
    ModUnique(x - 4 * m, x / 2 - 2 * m, x % 2, 2);
  }

  lemma ModUnique(y: int, q: int, r: int, n: int)
    requires n == 2 || n == 4
    requires y == n * q + r && 0 <= r < n
    ensures y % n == r
  {
  }

  /** An aligned offset below a bound that is a multiple of 4 leaves room for the whole unit. */
  lemma AlignedBelow(offset: int, sizeOf: nat, bound: int)
    requires Width(sizeOf) && 0 <= offset < bound && offset % UnitBytes(sizeOf) == 0 && bound % 4 == 0
    ensures offset + UnitBytes(sizeOf) <= bound
  {
  }

  // ---------------------------------------------------------------- targets

  /** The devices ReadFromHardware and WriteToHardware call into. */
  datatype Device = Spu | Cdc | Gpu | Mdec | Fio | Sio | Irq | Dma | Timers

  /** What an address reaches once it is past main RAM and the BIOS checks. */
  datatype Target = MainRam | BiosRom | Device(device: Device) | SysControl | Pio | Biu | Unmapped

  /** The branch of the I/O window 0x1F801000-0x1F802FFF an address takes, if any. */
  function IoTarget(address: uint32): Option<Target>
  {
    if 0x1F80_1C00 <= address <= 0x1F80_1FFF then Some(Device(Spu))
    else if 0x1F80_1800 <= address <= 0x1F80_180F then Some(Device(Cdc))
    else if 0x1F80_1810 <= address <= 0x1F80_1817 then Some(Device(Gpu))
    else if 0x1F80_1820 <= address <= 0x1F80_1827 then Some(Device(Mdec))
    else if 0x1F80_1000 <= address <= 0x1F80_1023 then Some(SysControl)
    else if 0x1F80_1040 <= address <= 0x1F80_104F then Some(Device(Fio))
    else if 0x1F80_1050 <= address <= 0x1F80_105F then Some(Device(Sio))
    else if 0x1F80_1070 <= address <= 0x1F80_1077 then Some(Device(Irq))
    else if 0x1F80_1080 <= address <= 0x1F80_10FF then Some(Device(Dma))
    else if 0x1F80_1100 <= address <= 0x1F80_113F then Some(Device(Timers))
    else None
  }

  /** The branch ReadFromHardware and WriteToHardware take for a masked address. */
  function HardwareTarget(address: uint32): Target
  {
    if address < 0x80_0000 then MainRam
    else if 0x1FC0_0000 <= address <= 0x1FC7_FFFF then BiosRom
    else if 0x1F80_1000 <= address <= 0x1F80_2FFF && IoTarget(address).Some? then IoTarget(address).value
    else if 0x1F00_0000 <= address <= 0x1F7F_FFFF then Pio
    else if address == BiuAddress then Biu
    else Unmapped
  }

  /** Only addresses in the I/O window reach a device or SysControl. */
  lemma DevicesInIoWindow(address: uint32)
    ensures HardwareTarget(address).Device? || HardwareTarget(address) == SysControl
            ==> 0x1F80_1000 <= address <= 0x1F80_113F || 0x1F80_1800 <= address <= 0x1F80_1FFF
  {
  }

  /**
   * IsRAMAddress in terms of the bus's masking: an address in KUSEG, KSEG0
   * or KSEG1 whose masked address lies in the first 2 MiB.
   */
  lemma RamAddressIsMaskedRam(address: uint32)
    ensures IsRamAddress(address) <==>
            (address / 0x2000_0000 == 0 || address / 0x2000_0000 == 4 || address / 0x2000_0000 == 5) &&
            Masked(address) < RamSize
    ensures IsRamAddress(address) ==> Masked(address) == address % RamSize
  {
  }

  /** IsScratchpadAddress is the one 1 KiB page at 0x1F800000, which no RAM address shares. */
  lemma ScratchpadAddressIsOnePage(address: uint32)
    ensures IsScratchpadAddress(address) <==> address / ScratchSize == 0x1F80_0000 / ScratchSize
    ensures IsScratchpadAddress(address) ==> !IsRamAddress(address)
  {
  }

  /**
   * IsValidAddress in terms of the bus's masking: RAM, the scratchpad, or
   * a KUSEG, KSEG0 or KSEG1 address whose masked address is in the BIOS.
   */
  lemma ValidAddressIsMaskedWindow(address: uint32)
    ensures IsValidAddress(address) <==>
            IsRamAddress(address) || IsScratchpadAddress(address) ||
            ((address / 0x2000_0000 == 0 || address / 0x2000_0000 == 4 || address / 0x2000_0000 == 5) &&
             0x1FC0_0000 <= Masked(address) <= 0x1FC7_FFFF)
  {
  }

  /**
   * Every address IsValidAddress accepts is served from memory by
   * ReadMemory: the scratchpad before masking, else main RAM or the BIOS
   * after it.
   */
  lemma ValidAddressIsMemory(address: uint32)
    requires IsValidAddress(address)
    ensures IsScratchpadAddress(address) ||
            HardwareTarget(Masked(address)) == MainRam || HardwareTarget(Masked(address)) == BiosRom
  {
  }

  /**
   * A RAM address in any of its three windows reaches main RAM at the same
   * byte: offset `address % 2 MiB`.
   */
  lemma RamWindowsAlias(address: uint32)
    requires IsRamAddress(address)
    ensures HardwareTarget(Masked(address)) == MainRam
    ensures Masked(address) % RamSize == address % RamSize
  {
  }

  /**
   * The 8 MiB RAM window repeats the 2 MiB of RAM: an address IsValidAddress
   * refuses still reaches main RAM.
   */
  lemma RamMirrorBeyondValid()
    ensures !IsValidAddress(0x20_0000) && HardwareTarget(Masked(0x20_0000)) == MainRam
    ensures Masked(0x20_0000) % RamSize == 0
  {
  }

  // ---------------------------------------------------------------- timing

  /** The cycles ReadFromHardware charges after DMACycleSteal, by target. */
  function ReadCharge(t: Target, sizeOf: nat): (n: uint32)
    requires Width(sizeOf)
  {
    match t
    case MainRam => 3
    case Device(Spu) => if sizeOf == 4 then 36 else 16
    case Device(Cdc) => 6 * sizeOf
    case Device(_) => 1
    case SysControl => 1
    case _ => 0
  }

  /**
   * JTTTS_increment_timestamp(charge), as written, when `increment` is on
   * and there is a charge.
   */
  function Charged(c: Timestamp.Clock, charge: uint32, increment: bool): Timestamp.Clock
  {
    if !increment || charge == 0 then c else Timestamp.AfterIncrementAsWritten(c, charge)
  }

  /**
   * The clock after a read of target `t`: nothing when `increment` is off,
   * else DMACycleSteal and then the target's own charge, each by
   * JTTTS_increment_timestamp as written, which starts the slice afresh at
   * the new downcount.
   */
  function ReadClock(c: Timestamp.Clock, t: Target, sizeOf: nat, increment: bool, steal: uint32): Timestamp.Clock
    requires Width(sizeOf)
  {
    Charged(if increment then Timestamp.AfterIncrementAsWritten(c, steal) else c, ReadCharge(t, sizeOf), increment)
  }

  /** Taking `a` and then `b` off an int32 counter is taking `a + b` off it. */
  lemma CountDownTwice(x: int, a: int, b: int)
    ensures WrapS32(WrapS32(x - a) - b) == WrapS32(x - a - b)
  {
    WrapS32Add(x - a, -b);
    WrapS32Congruent(WrapS32(x - a) - b, x - a - b);
  }

  /**
   * A charged read adds DMACycleSteal and the target's cycles to the
   * timestamp and to last_ts and takes them off the downcount; the slice
   * restarts at the new downcount with nothing run, so the folded
   * timestamp is the bare timestamp plus the charge. The next event and the
   * core state are not touched.
   */
  lemma ReadAdvancesClock(c: Timestamp.Clock, t: Target, sizeOf: nat, steal: uint32)
    requires Width(sizeOf)
    ensures var r := ReadClock(c, t, sizeOf, true, steal);
            && r.timestamp == r.lastTs == Wrap32(c.timestamp + steal + ReadCharge(t, sizeOf))
            && r.downcount == r.sliceLength == WrapS32(c.downcount - steal - ReadCharge(t, sizeOf))
            && Timestamp.Now(r) == r.timestamp
            && r.nextEvent == c.nextEvent && r.coreState == c.coreState
  {
    var n := ReadCharge(t, sizeOf);
    var stolen := Timestamp.AfterIncrementAsWritten(c, steal);
    var r := ReadClock(c, t, sizeOf, true, steal);
    if n != 0 {
      assert r == Timestamp.AfterIncrementAsWritten(stolen, n);
      Wrap32Add(c.timestamp + steal, n);
      CountDownTwice(c.downcount, steal, n);
    } else {
      assert r == stolen;
    }
    Timestamp.FoldedUnstarted(r.timestamp, r.sliceLength);
  }

  /**
   * ReadClock with the corrected increment (Timestamp.AfterIncrement), which
   * takes the charge off the slice length as well and so keeps the cycles
   * the slice has run.
   */
  function ReadClockIntended(c: Timestamp.Clock, t: Target, sizeOf: nat, steal: uint32): Timestamp.Clock
    requires Width(sizeOf)
  {
    var stolen := Timestamp.AfterIncrement(c, steal);
    if ReadCharge(t, sizeOf) == 0 then stolen else Timestamp.AfterIncrement(stolen, ReadCharge(t, sizeOf))
  }

  /** With the corrected increment a read moves the folded timestamp by DMACycleSteal plus the target's charge. */
  lemma IntendedReadAdvancesClock(c: Timestamp.Clock, t: Target, sizeOf: nat, steal: uint32)
    requires Width(sizeOf)
    ensures Timestamp.Now(ReadClockIntended(c, t, sizeOf, steal)) == Wrap32(Timestamp.Now(c) + steal + ReadCharge(t, sizeOf))
  {
    var stolen := Timestamp.AfterIncrement(c, steal);
    Timestamp.IncrementKeepsTime(c, steal);
    if ReadCharge(t, sizeOf) != 0 {
      Timestamp.IncrementKeepsTime(stolen, ReadCharge(t, sizeOf));
      Wrap32Add(Timestamp.Now(c) + steal, ReadCharge(t, sizeOf));
    } else {
      Wrap32Identity(Timestamp.Now(stolen));
    }
  }

  /**
   * A read's folded timestamp as written matches the corrected one exactly
   * when no cycle of the current slice had run before the read.
   */
  lemma ReadClockDropsSlice(c: Timestamp.Clock, t: Target, sizeOf: nat, steal: uint32)
    requires Width(sizeOf)
    ensures Timestamp.Now(ReadClock(c, t, sizeOf, true, steal)) == Timestamp.Now(ReadClockIntended(c, t, sizeOf, steal))
        <==> Wrap32(c.sliceLength - c.downcount) == 0
  {
    var k := steal + ReadCharge(t, sizeOf);
    ReadAdvancesClock(c, t, sizeOf, steal);
    IntendedReadAdvancesClock(c, t, sizeOf, steal);
    Wrap32Add(c.timestamp + c.sliceLength - c.downcount, k);
    assert c.timestamp + c.sliceLength - c.downcount + k == (c.timestamp + k) + (c.sliceLength - c.downcount);
    Wrap32Shift(c.timestamp + k, c.sliceLength - c.downcount);
  }

  // ---------------------------------------------------------------- devices

  /**
   * The read side of the devices, which are not part of this model: each
   * answers a timestamp and an address (IRQ_Read takes no timestamp).
   */
  datatype Devices = Devices(
    spuRead: (uint32, uint32) -> u16,
    cdcRead: (uint32, uint32) -> u8,
    gpuRead: (uint32, uint32) -> u32,
    mdecRead: (uint32, uint32) -> u32,
    fioRead: (uint32, uint32) -> u32,
    sioRead: (uint32, uint32) -> u32,
    irqRead: uint32 -> u32,
    dmaRead: (uint32, uint32) -> u32,
    timerRead: (uint32, uint32) -> u32)

  /** A unit decoded from memory fits the type it was read as. */
  lemma UnitFits(bigEndian: bool, sizeOf: nat, b: seq<u8>)
    requires |b| == UnitBytes(sizeOf)
    ensures Fit(sizeOf, DecodeUnit(bigEndian, sizeOf, b)) == DecodeUnit(bigEndian, sizeOf, b)
  {
    if sizeOf == 4 {
      WordFits(Decode32(bigEndian, b));
    } else if sizeOf == 2 {
      HalfFits(Decode16(bigEndian, b));
    } else {
      ByteFits(b[0]);
    }
  }

  lemma WordFits(x: u32)
    ensures Fit(4, x as u64) == x as u64
  {
  }

  lemma HalfFits(x: u16)
    ensures Fit(2, x as u64) == x as u64
  {
  }

  lemma ByteFits(x: u8)
    ensures Fit(1, x as u64) == x as u64 && Fit(8, x as u64) == x as u64
  {
  }

  /** A read from a memory block fits the type it was read as. */
  lemma BlockReadFits(m: MultiAccessSizeMem, offset: nat, sizeOf: nat)
    requires m.Valid() && offset + UnitBytes(sizeOf) <= m.size
    ensures Fit(sizeOf, m.Read(offset, sizeOf)) == m.Read(offset, sizeOf)
  {
    UnitFits(m.bigEndian, sizeOf, m.data8[..][offset..offset + UnitBytes(sizeOf)]);
  }

  /** Two 16-bit halves joined into a word: the word fits 32 bits and splits back into them. */
  lemma HalvesJoined(lo: u16, hi: u16)
    ensures var v := (lo as u64) | ((hi as u64) << 16);
            Fit(4, v) == v && v & 0xFFFF == lo as u64 && v >> 16 == hi as u64
  {
  }

  /** `address | 2`. */
  function OrTwo(address: uint32): uint32
  {
    if address % 4 < 2 then address + 2 else address
  }

  /**
   * What a device read at time `now` gives, converted to T: a 32-bit SPU
   * read is two 16-bit reads, at the address and at `address | 2`; other
   * SPU reads use `address & ~1`; the CD controller sees `address & 3`.
   */
  function DeviceRead(devices: Devices, d: Device, now: uint32, address: uint32, sizeOf: nat): (r: u64)
    ensures Fit(sizeOf, r) == r
    ensures d == Spu && sizeOf == 4 ==>
              r & 0xFFFF == devices.spuRead(now, address) as u64 && r >> 16 == devices.spuRead(now, OrTwo(address)) as u64
  {
    if d == Spu && sizeOf == 4 then
      var lo, hi := devices.spuRead(now, address), devices.spuRead(now, OrTwo(address));
      HalvesJoined(lo, hi);
      (lo as u64) | ((hi as u64) << 16)
    else
      var v: u64 := match d
        case Spu => devices.spuRead(now, address - address % 2) as u64
        case Cdc => devices.cdcRead(now, address % 4) as u64
        case Gpu => devices.gpuRead(now, address) as u64
        case Mdec => devices.mdecRead(now, address) as u64
        case Fio => devices.fioRead(now, address) as u64
        case Sio => devices.sioRead(now, address) as u64
        case Irq => devices.irqRead(address) as u64
        case Dma => devices.dmaRead(now, address) as u64
        case Timers => devices.timerRead(now, address) as u64;
      FitIdempotent(sizeOf, v);
      Fit(sizeOf, v)
  }

  /**
   * The value of a device read as the code is written: the FIO branch has
   * no `return`, so the read falls out of the I/O window and the value is
   * replaced by the unmapped default `(T)~0U`.
   */
  function DeviceReadAsWritten(devices: Devices, d: Device, now: uint32, address: uint32, sizeOf: nat): (r: u64)
    ensures Fit(sizeOf, r) == r
    ensures r == DeviceRead(devices, d, now, address, sizeOf) <==>
              d != Fio || DeviceRead(devices, d, now, address, sizeOf) == AllOnes(sizeOf)
  {
    FitIdempotent(sizeOf, 0xFFFF_FFFF);
    if d == Fio then AllOnes(sizeOf) else DeviceRead(devices, d, now, address, sizeOf)
  }

  /** The controller ports read as all ones whatever FIO answers; every other device agrees. */
  lemma FioReadLost(devices: Devices, now: uint32, address: uint32)
    requires devices.fioRead(now, address) == 0x0000_1234
    ensures DeviceReadAsWritten(devices, Fio, now, address, 4) == 0xFFFF_FFFF
    ensures DeviceRead(devices, Fio, now, address, 4) == 0x1234
    ensures forall d :: d != Fio ==> DeviceReadAsWritten(devices, d, now, address, 4) == DeviceRead(devices, d, now, address, 4)
  {
  }

  /** A write a device receives; IRQ_Write takes no timestamp. */
  datatype BusWrite =
    | Timed(device: Device, timestamp: uint32, address: uint32, data: u32)
    | Untimed(device: Device, address: uint32, data: u32)

  /** The writes WriteToHardware hands to the devices for target `t`. */
  function DeviceWrites(t: Target, address: uint32, sizeOf: nat, data: u32, now: uint32): (r: seq<BusWrite>)
    ensures |r| > 0 <==> t.Device?
    ensures forall w :: w in r ==> w.device == t.device
  {
    match t
    case Device(Spu) =>
      if sizeOf == 4 then [Timed(Spu, now, address, data), Timed(Spu, now, OrTwo(address), data >> 16)]
      else [Timed(Spu, now, address - address % 2, data)]
    case Device(Cdc) => [Timed(Cdc, now, address % 4, data)]
    case Device(Irq) => [Untimed(Irq, address, data)]
    case Device(d) => [Timed(d, now, address, data)]
    case _ => []
  }

  // ---------------------------------------------------------------- SysControl

  /** SysControl_Mask: the writable bits of the nine memory-control registers. */
  const SysControlMask: seq<u32> := [0x00ff_ffff, 0x00ff_ffff, 0xffff_ffff, 0x2f1f_ffff,
                                     0xffff_ffff, 0x2f1f_ffff, 0x2f1f_ffff, 0xffff_ffff,
                                     0x0003_ffff]

  /** SysControl_OR: bits that always read as set. */
  const SysControlOr: seq<u32> := [0x1f00_0000, 0x1f00_0000, 0, 0, 0, 0, 0, 0, 0]

  predicate InSysControl(address: uint32)
  {
    0x1F80_1000 <= address <= 0x1F80_1023
  }

  /** The register at `address`: 0x1F801000 is register 0, 0x1F801020 register 8. */
  function SysControlIndex(address: uint32): (i: nat)
    requires InSysControl(address)
    ensures i < 9
  {
    (address % 0x40) / 4
  }

  /** The index as written, `(address & 0x1F) >> 2`: it wraps at 0x1F801020. */
  function SysControlIndexAsWritten(address: uint32): (i: nat)
    ensures i < 8
  {
    (address % 0x20) / 4
  }

  /**
   * `x >> ((address & 3) * 8)` and `x << ((address & 3) * 8)`: the word moved
   * so that the addressed byte lane becomes lane 0, or lane 0 moves to the
   * addressed lane.
   */
  function LaneDown(x: u32, address: uint32): u32
  {
    var lane := address % 4;
    if lane == 0 then x else if lane == 1 then x >> 8 else if lane == 2 then x >> 16 else x >> 24
  }

  function LaneUp(x: u32, address: uint32): u32
  {
    var lane := address % 4;
    if lane == 0 then x else if lane == 1 then x << 8 else if lane == 2 then x << 16 else x << 24
  }

  /**
   * A 32-bit word converted to T and back: T of one or two bytes keeps the
   * low byte or half, T of four or eight bytes keeps the word.
   */
  function FitWord(sizeOf: nat, v: u32): u32
  {
    if sizeOf == 1 then v & 0xFF else if sizeOf == 2 then v & 0xFFFF else v
  }

  /**
   * A value converted to T and moved down a lane: nothing moves at lane 0,
   * and a byte or half moved past its own width is gone.
   */
  lemma NarrowLanes(sizeOf: nat, x: u32, address: uint32)
    ensures address % 4 == 0 ==> FitWord(sizeOf, LaneDown(FitWord(sizeOf, x), address)) == FitWord(sizeOf, x)
    ensures sizeOf == 1 && address % 4 != 0 ==> FitWord(sizeOf, LaneDown(FitWord(sizeOf, x), address)) == 0
    ensures sizeOf == 2 && address % 4 >= 2 ==> FitWord(sizeOf, LaneDown(FitWord(sizeOf, x), address)) == 0
  {
  }

  /**
   * A SysControl read: the register with its fixed bits, shifted down to
   * the addressed byte, converted to T. Every SysControl value fits 32
   * bits, so it is kept as a word here and widened by the caller.
   */
  function SysControlRead(regs: seq<u32>, address: uint32, sizeOf: nat): (r: u32)
    requires |regs| == 9 && InSysControl(address)
    ensures sizeOf == 1 ==> r <= 0xFF
    ensures sizeOf == 2 ==> r <= 0xFFFF
    ensures address % 4 == 0 && sizeOf != 1 && sizeOf != 2 ==>
              r == regs[SysControlIndex(address)] | SysControlOr[SysControlIndex(address)]
    ensures SysControlIndex(address) < 2 && address % 4 == 0 && sizeOf != 1 && sizeOf != 2 ==> r & 0x1F00_0000 == 0x1F00_0000
  {
    var i := SysControlIndex(address);
    FitWord(sizeOf, LaneDown(regs[i] | SysControlOr[i], address))
  }

  /**
   * A SysControl read as written: the register is converted to T first and
   * shifted in T, so a narrow read of an upper byte gives 0; the index
   * wraps.
   */
  function SysControlReadAsWritten(regs: seq<u32>, address: uint32, sizeOf: nat): (r: u32)
    requires |regs| == 9
    ensures address % 4 == 0 ==> r == SysControlRead(regs, 0x1F80_1000 + address % 0x20, sizeOf)
    ensures sizeOf == 1 && address % 4 != 0 ==> r == 0
    ensures sizeOf == 2 && address % 4 >= 2 ==> r == 0
  {
    var i := SysControlIndexAsWritten(address);
    NarrowLanes(sizeOf, regs[i] | SysControlOr[i], address);
    assert SysControlIndex(0x1F80_1000 + address % 0x20) == i;
    FitWord(sizeOf, LaneDown(FitWord(sizeOf, regs[i] | SysControlOr[i]), address))
  }

  /** A SysControl write: the data shifted up to the addressed byte, masked, replaces the register. */
  function SysControlWrite(regs: seq<u32>, address: uint32, data: u32): (r: seq<u32>)
    requires |regs| == 9 && InSysControl(address)
    ensures |r| == 9
  {
    var i := SysControlIndex(address);
    regs[i := LaneUp(data, address) & SysControlMask[i]]
  }

  /**
   * A SysControl write as written: the data is shifted in T, and the index
   * wraps. Only the low 32 bits of the shifted T reach the register, and
   * those are the low 32 bits of the data shifted in 32 bits.
   */
  function SysControlWriteAsWritten(regs: seq<u32>, address: uint32, sizeOf: nat, data: u32): (r: seq<u32>)
    requires |regs| == 9
    ensures |r| == 9
  {
    var i := SysControlIndexAsWritten(address);
    regs[i := FitWord(sizeOf, LaneUp(data, address)) & SysControlMask[i]]
  }

  /**
   * A 32-bit SysControl write reads back as the data's writable bits plus
   * the fixed ones.
   */
  lemma SysControlWriteRead(regs: seq<u32>, address: uint32, data: u32)
    requires |regs| == 9 && InSysControl(address) && address % 4 == 0
    ensures var i := SysControlIndex(address);
            SysControlRead(SysControlWrite(regs, address, data), address, 4)
              == (data & SysControlMask[i]) | SysControlOr[i]
  {
  }

  /** As written, register 8 (0x1F801020) is out of reach: its address reads and writes register 0. */
  lemma SysControlAliasing(regs: seq<u32>)
    requires |regs| == 9
    ensures SysControlIndexAsWritten(0x1F80_1020) == 0 && SysControlIndex(0x1F80_1020) == 8
    ensures SysControlReadAsWritten(regs, 0x1F80_1020, 4) == regs[0] | 0x1F00_0000
    ensures SysControlRead(regs, 0x1F80_1020, 4) == regs[8]
    ensures SysControlWriteAsWritten(regs, 0x1F80_1020, 4, 0x1234)[8] == regs[8]
    ensures SysControlWrite(regs, 0x1F80_1020, 0x1234)[8] == 0x1234
  {
  }

  /**
   * As written, a byte access to the second byte of a register loses the
   * data: the write clears the register and the read gives 0.
   */
  lemma SysControlByteLanes(regs: seq<u32>)
    requires |regs| == 9 && regs[2] == 0x0012_3456
    ensures SysControlWriteAsWritten(regs, 0x1F80_1009, 1, 0xAB)[2] == 0
    ensures SysControlWrite(regs, 0x1F80_1009, 0xAB)[2] == 0xAB00
    ensures SysControlReadAsWritten(regs, 0x1F80_1009, 1) == 0
    ensures SysControlRead(regs, 0x1F80_1009, 1) == 0x34
  {
  }

  // ---------------------------------------------------------------- instruction cache

  /**
   * The TV word of the `k`th line of a group after a tag write in isolated
   * mode: the tag, the line's word position, and bit 1 clear when the
   * line's valid bit is set.
   */
  function TagTv(tag: u32, validBits: u32, k: nat): u32
    requires k < 4
  {
    (if validBits & (1 << k) != 0 then 0 else 2) | (tag & 0xFFFF_FFF0) | ((k as u32) << 2)
  }

  /** The valid bits a tag write carries: only in tag-test mode, from the low nibble of the shifted value. */
  function ValidBits(biu: u32, address: uint32, value: u32): u32
  {
    if biu & JitICache.BiuTagTestMode != 0 then LaneUp(value, address) & 0x0F else 0
  }

  /** A tag write keeps the tag, numbers the line, and marks it valid exactly when its bit is set. */
  lemma TagTvFields(tag: u32, validBits: u32, k: nat)
    requires k < 4
    ensures TagTv(tag, validBits, k) & 0xFFFF_FFF0 == tag & 0xFFFF_FFF0
    ensures (TagTv(tag, validBits, k) >> 2) & 3 == k as u32
    ensures TagTv(tag, validBits, k) & 1 == 0
    ensures TagTv(tag, validBits, k) & 2 == 0 <==> validBits & (1 << k) != 0
  {
    if k == 0 {
      TagTvLine(tag, validBits & 1 != 0, 0);
    } else if k == 1 {
      TagTvLine(tag, validBits & 2 != 0, 1);
    } else if k == 2 {
      TagTvLine(tag, validBits & 4 != 0, 2);
    } else {
      TagTvLine(tag, validBits & 8 != 0, 3);
    }
  }

  lemma TagTvLine(tag: u32, valid: bool, k: u32)
    requires k < 4
    ensures var tv := (if valid then 0 else 2) | (tag & 0xFFFF_FFF0) | (k << 2);
            tv & 0xFFFF_FFF0 == tag & 0xFFFF_FFF0 && (tv >> 2) & 3 == k && tv & 1 == 0 && (tv & 2 == 0 <==> valid)
  {
  }

  /** Outside tag-test mode a tag write invalidates every line of the group. */
  lemma InvalidateMarksInvalid(biu: u32, address: uint32, value: u32, tag: u32, k: nat)
    requires biu & JitICache.BiuTagTestMode == 0 && k < 4
    ensures TagTv(tag, ValidBits(biu, address, value), k) & 2 == 2
  {
    TagTvFields(tag, 0, k);
  }

  /** The first line of the group of four a tag write sets: `(address & 0xFF0) >> 2`. */
  function TagLine(address: uint32): (i: nat)
    ensures i % 4 == 0 && i + 4 <= JitICache.ICacheLines
  {
    (address % 0x1000) / 16 * 4
  }

  /** The line a data write sets: `(address & 0xFFC) >> 2`. */
  function DataLine(address: uint32): (i: nat)
    ensures i < JitICache.ICacheLines
  {
    (address % 0x1000) / 4
  }

  /**
   * Line `i` after a store with the cache isolated, with `biu` the BIU
   * register: nothing when the I-cache is off; a tag write to the group of
   * four lines when any of the tag-test, invalidate or lock bits is set; a
   * data write to one line otherwise.
   */
  function IsolatedLine(biu: u32, address: uint32, value: u32, i: nat, line: JitICache.CacheLine): JitICache.CacheLine
  {
    if biu & JitICache.BiuEnableICacheS1 == 0 then line
    else if biu & 0x7 != 0 then
      if TagLine(address) <= i < TagLine(address) + 4
      then line.(tv := TagTv(address as u32, ValidBits(biu, address, value), i - TagLine(address)))
      else line
    else if i == DataLine(address) then line.(data := LaneUp(value, address))
    else line
  }

  /** An isolated store touches at most the four lines of the address's group. */
  lemma IsolatedStoreIsLocal(biu: u32, address: uint32, value: u32, i: nat, line: JitICache.CacheLine)
    requires !(TagLine(address) <= i < TagLine(address) + 4)
    ensures IsolatedLine(biu, address, value, i, line) == line
  {
    assert TagLine(address) <= DataLine(address) < TagLine(address) + 4;
  }

  /** The scratchpad is written in isolated mode when the data cache is on and lock mode off. */
  predicate IsolatedScratchpadWrite(biu: u32)
  {
    biu & 0x081 == 0x080
  }

  // ---------------------------------------------------------------- pointers

  /** The memory blocks GetPointer can point into. */
  datatype Region = Ram | Bios | Scratchpad

  datatype Pointer = Pointer(region: Region, offset: nat)

  function RegionSize(region: Region): nat
  {
    match region
    case Ram => RamSize
    case Bios => BiosSize
    case Scratchpad => ScratchSize
  }

  /**
   * GetPointer's answer: the scratchpad tested on the unmasked address,
   * then RAM and the BIOS on the masked one; null elsewhere.
   */
  function PointerOf(address: uint32): (r: Option<Pointer>)
    ensures r.Some? ==> r.value.offset < RegionSize(r.value.region)
  {
    if IsScratchpadAddress(address) then Some(Pointer(Scratchpad, address % ScratchSize))
    else
      var m := Masked(address);
      if m < 0x80_0000 then Some(Pointer(Ram, m % RamSize))
      else if 0x1FC0_0000 <= m <= 0x1FC7_FFFF then Some(Pointer(Bios, m % BiosSize))
      else None
  }

  /** Every address IsValidAddress accepts has a pointer. */
  lemma ValidAddressHasPointer(address: uint32)
    requires IsValidAddress(address)
    ensures PointerOf(address).Some?
    ensures IsRamAddress(address) ==> PointerOf(address) == Some(Pointer(Ram, address % RamSize))
  {
  }

  /** GetPointer points at the block ReadMemory would read for the same address. */
  lemma PointerMatchesTarget(address: uint32)
    requires PointerOf(address).Some?
    ensures PointerOf(address).value.region == Scratchpad <==> IsScratchpadAddress(address)
    ensures PointerOf(address).value.region == Ram <==> !IsScratchpadAddress(address) && HardwareTarget(Masked(address)) == MainRam
    ensures PointerOf(address).value.region == Bios <==> !IsScratchpadAddress(address) && HardwareTarget(Masked(address)) == BiosRom
  {
  }

  // ---------------------------------------------------------------- writes

  /**
   * What a store can change: main RAM, the BIOS, the scratchpad, the
   * SysControl registers, the writes handed to the devices, BIU and the
   * instruction-cache lines.
   */
  datatype BusState = BusState(
    ram: seq<u8>, bios: seq<u8>, scratch: seq<u8>, sysControl: seq<u32>,
    writes: seq<BusWrite>, biu: u32, lines: seq<JitICache.CacheLine>)

  predicate WellFormed(h: BusState)
  {
    |h.ram| == RamSize && |h.bios| == BiosSize && |h.scratch| == ScratchSize
    && |h.sysControl| == 9 && |h.lines| == JitICache.ICacheLines
  }

  /** The lines after JitSetBIU moved BIU from `oldBiu` to `newBiu`. */
  function LinesAfterBiu(lines: seq<JitICache.CacheLine>, oldBiu: u32, newBiu: u32): (r: seq<JitICache.CacheLine>)
    ensures |r| == |lines|
  {
    seq(|lines|, i requires 0 <= i < |lines| => lines[i].(tv := JitICache.TvAfterBiu(oldBiu, newBiu, lines[i].tv)))
  }

  /**
   * WriteToHardware<T>(address, data) for a masked address and data
   * already converted to T: main RAM and the BIOS take the data, SysControl
   * its writable bits, the devices receive their writes at time `now`, BIU
   * goes through JitSetBIU; the expansion window and unmapped addresses
   * change nothing.
   */
  function HardwareAfter(h: BusState, address: uint32, sizeOf: nat, data: u32, now: uint32): (r: BusState)
    requires WellFormed(h) && Width(sizeOf) && Aligned(address, sizeOf)
    ensures WellFormed(r)
  {
    match HardwareTarget(address)
    case MainRam => h.(ram := StoredAt(h.ram, address, sizeOf, data))
    case BiosRom => h.(bios := StoredAt(h.bios, address, sizeOf, data))
    case Device(_) => h.(writes := h.writes + DeviceWrites(HardwareTarget(address), address, sizeOf, data, now))
    case SysControl => h.(sysControl := SysControlWriteAsWritten(h.sysControl, address, sizeOf, data))
    case Biu =>
      var biu := JitICache.StoredBiu(data);
      h.(biu := biu, lines := LinesAfterBiu(h.lines, h.biu, biu))
    case _ => h
  }

  /** Every line after an isolated store (IsolatedLine, line by line). */
  function IsolatedLines(lines: seq<JitICache.CacheLine>, biu: u32, address: uint32, value: u32): (r: seq<JitICache.CacheLine>)
    ensures |r| == |lines|
  {
    seq(|lines|, i requires 0 <= i < |lines| => IsolatedLine(biu, address, value, i, lines[i]))
  }

  /**
   * The isolated branch of WriteMemory<T>: the instruction cache takes the
   * store (IsolatedLine) and, with the data cache on and lock mode off, the
   * scratchpad takes it at `address & 0x3FF`.
   */
  function IsolatedAfter(h: BusState, address: uint32, sizeOf: nat, value: u32): (r: BusState)
    requires WellFormed(h) && Width(sizeOf) && Aligned(address, sizeOf)
    ensures WellFormed(r)
  {
    h.(lines := IsolatedLines(h.lines, h.biu, address, value),
       scratch := if IsolatedScratchpadWrite(h.biu) then StoredAt(h.scratch, address, sizeOf, FitWord(sizeOf, value)) else h.scratch)
  }

  /**
   * WriteMemory<T>(address, value) with status register `sr`: the value is
   * converted to T; not isolated, the masked address goes to the
   * scratchpad or to WriteToHardware; isolated, to the cache, and then the
   * unmasked address is tested for the scratchpad once more.
   */
  function MemoryAfter(h: BusState, sr: u32, address: uint32, sizeOf: nat, value: u32, now: uint32): (r: BusState)
    requires WellFormed(h) && Width(sizeOf) && Aligned(address, sizeOf)
    ensures WellFormed(r)
  {
    var data := FitWord(sizeOf, value);
    if !Isolated(sr) then
      var a := Masked(address);
      MaskedAligned(address, sizeOf);
      if IsScratchpadAddress(a) then h.(scratch := StoredAt(h.scratch, a, sizeOf, data))
      else HardwareAfter(h, a, sizeOf, data, now)
    else
      var h1 := IsolatedAfter(h, address, sizeOf, value);
      if IsScratchpadAddress(address) then h1.(scratch := StoredAt(h1.scratch, address, sizeOf, data)) else h1
  }

  /** The value of T at `address & (size - 1)` of a little-endian block. */
  function BlockValue(bytes: seq<u8>, address: uint32, sizeOf: nat): u64
    requires Width(sizeOf) && Aligned(address, sizeOf) && |bytes| > 0 && |bytes| % 4 == 0
  {
    AlignedInside(address, sizeOf, address % |bytes|, |bytes|);
    DecodeUnit(false, sizeOf, bytes[address % |bytes|..address % |bytes| + UnitBytes(sizeOf)])
  }

  /** A block reads back what was stored in it, as MultiAccessSizeMem keeps it. */
  lemma StoredAtReadBack(bytes: seq<u8>, address: uint32, sizeOf: nat, data: u32)
    requires Width(sizeOf) && Aligned(address, sizeOf) && |bytes| > 0 && |bytes| % 4 == 0
    ensures BlockValue(StoredAt(bytes, address, sizeOf, data), address, sizeOf) == Truncated(sizeOf, data as u64)
  {
    DecodeEncodeUnit(false, sizeOf, data as u64);
  }

  /**
   * What a load of an address IsValidAddress accepts reads: the scratchpad
   * on the unmasked address, else main RAM or the BIOS on the masked one.
   */
  function ValidAddressValue(h: BusState, address: uint32, sizeOf: nat): u64
    requires WellFormed(h) && Width(sizeOf) && Aligned(address, sizeOf) && IsValidAddress(address)
  {
    MaskedAligned(address, sizeOf);
    if IsScratchpadAddress(address) then BlockValue(h.scratch, address, sizeOf)
    else if HardwareTarget(Masked(address)) == MainRam then BlockValue(h.ram, Masked(address), sizeOf)
    else BlockValue(h.bios, Masked(address), sizeOf)
  }

  /**
   * With the cache not isolated, a store to a valid address is read back
   * by a load of the same address and width: the value converted to T, of
   * which a 64-bit access keeps one byte.
   */
  lemma StoreThenLoad(h: BusState, sr: u32, address: uint32, sizeOf: nat, value: u32, now: uint32)
    requires WellFormed(h) && Width(sizeOf) && Aligned(address, sizeOf) && IsValidAddress(address) && !Isolated(sr)
    ensures ValidAddressValue(MemoryAfter(h, sr, address, sizeOf, value, now), address, sizeOf)
         == Truncated(sizeOf, FitWord(sizeOf, value) as u64)
  {
    if IsScratchpadAddress(address) {
      StoreThenLoadScratchpad(h, sr, address, sizeOf, value, now);
    } else if IsRamAddress(address) {
      StoreThenLoadRam(h, sr, address, sizeOf, value, now);
    } else {
      StoreThenLoadBios(h, sr, address, sizeOf, value, now);
    }
  }

  lemma StoreThenLoadScratchpad(h: BusState, sr: u32, address: uint32, sizeOf: nat, value: u32, now: uint32)
    requires WellFormed(h) && Width(sizeOf) && Aligned(address, sizeOf) && IsScratchpadAddress(address) && !Isolated(sr)
    ensures IsValidAddress(address)
    ensures ValidAddressValue(MemoryAfter(h, sr, address, sizeOf, value, now), address, sizeOf)
         == Truncated(sizeOf, FitWord(sizeOf, value) as u64)
  {
    StoredAtReadBack(h.scratch, address, sizeOf, FitWord(sizeOf, value));
  }

  lemma StoreThenLoadRam(h: BusState, sr: u32, address: uint32, sizeOf: nat, value: u32, now: uint32)
    requires WellFormed(h) && Width(sizeOf) && Aligned(address, sizeOf) && IsRamAddress(address) && !Isolated(sr)
    ensures IsValidAddress(address)
    ensures ValidAddressValue(MemoryAfter(h, sr, address, sizeOf, value, now), address, sizeOf)
         == Truncated(sizeOf, FitWord(sizeOf, value) as u64)
  {
    RamWindowsAlias(address);
    MaskedAligned(address, sizeOf);
    StoredAtReadBack(h.ram, Masked(address), sizeOf, FitWord(sizeOf, value));
  }

  lemma StoreThenLoadBios(h: BusState, sr: u32, address: uint32, sizeOf: nat, value: u32, now: uint32)
    requires WellFormed(h) && Width(sizeOf) && Aligned(address, sizeOf) && !Isolated(sr)
    requires IsValidAddress(address) && !IsScratchpadAddress(address) && !IsRamAddress(address)
    ensures ValidAddressValue(MemoryAfter(h, sr, address, sizeOf, value, now), address, sizeOf)
         == Truncated(sizeOf, FitWord(sizeOf, value) as u64)
  {
    assert HardwareTarget(Masked(address)) == BiosRom;
    MaskedAligned(address, sizeOf);
    StoredAtReadBack(h.bios, Masked(address), sizeOf, FitWord(sizeOf, value));
  }

  /**
   * With the cache isolated, a store reaches neither main RAM, the BIOS,
   * SysControl, the devices nor BIU: only the cache lines and the
   * scratchpad can change.
   */
  lemma IsolatedStoreStaysInCache(h: BusState, sr: u32, address: uint32, sizeOf: nat, value: u32, now: uint32)
    requires WellFormed(h) && Width(sizeOf) && Aligned(address, sizeOf) && Isolated(sr)
    ensures var r := MemoryAfter(h, sr, address, sizeOf, value, now);
            r.ram == h.ram && r.bios == h.bios && r.sysControl == h.sysControl && r.writes == h.writes && r.biu == h.biu
  {
    var h1 := IsolatedAfter(h, address, sizeOf, value);
    assert h1.ram == h.ram && h1.bios == h.bios && h1.sysControl == h.sysControl && h1.writes == h.writes && h1.biu == h.biu;
    assert MemoryAfter(h, sr, address, sizeOf, value, now).scratch == h1.scratch
        || MemoryAfter(h, sr, address, sizeOf, value, now) == h1.(scratch := MemoryAfter(h, sr, address, sizeOf, value, now).scratch);
  }

  /** WriteToHardware never reaches the scratchpad. */
  lemma HardwareSparesScratchpad(h: BusState, address: uint32, sizeOf: nat, data: u32, now: uint32)
    requires WellFormed(h) && Width(sizeOf) && Aligned(address, sizeOf)
    ensures HardwareAfter(h, address, sizeOf, data, now).scratch == h.scratch
  {
  }

  /**
   * As written, a store to 0x1F801020 lands in register 0 and register 8
   * keeps its value, and a byte store to 0x1F801009 clears register 2.
   */
  lemma HardwareSysControlAsWritten(h: BusState, data: u32, now: uint32)
    requires WellFormed(h)
    ensures HardwareAfter(h, 0x1F80_1020, 4, data, now).sysControl == h.sysControl[0 := data & 0x00ff_ffff]
    ensures HardwareAfter(h, 0x1F80_1009, 1, 0xAB, now).sysControl == h.sysControl[2 := 0]
  {
    assert HardwareTarget(0x1F80_1020) == SysControl && HardwareTarget(0x1F80_1009) == SysControl;
  }

  // ---------------------------------------------------------------- the bus

  /**
   * A block's bytes after `MultiAccessSizeMem::Write<T>` of `data` at
   * `address & (size - 1)`, little-endian.
   */
  function StoredAt(bytes: seq<u8>, address: uint32, sizeOf: nat, data: u32): (r: seq<u8>)
    requires Width(sizeOf) && Aligned(address, sizeOf) && |bytes| > 0 && |bytes| % 4 == 0
    ensures |r| == |bytes|
  {
    AlignedInside(address, sizeOf, address % |bytes|, |bytes|);
    Put(bytes, address % |bytes|, EncodeUnit(false, sizeOf, data as u64))
  }

  /**
   * WriteMemory masks the address before its scratchpad test and
   * ReadMemory does not: a store through KSEG0 at 0x9F800000 lands in the
   * scratchpad, while a load there reaches no block and reads all ones.
   */
  lemma ScratchpadKseg0Asymmetry()
    ensures IsScratchpadAddress(Masked(0x9F80_0000)) && Masked(0x9F80_0000) % ScratchSize == 0
    ensures !IsScratchpadAddress(0x9F80_0000) && HardwareTarget(Masked(0x9F80_0000)) == Unmapped
  {
  }

  /** Masking keeps the address's alignment. */
  lemma MaskedAligned(address: uint32, sizeOf: nat)
    requires Width(sizeOf) && Aligned(address, sizeOf)
    ensures Aligned(Masked(address), sizeOf)
  {
    var m := Masked(address);
    var q := address / 0x2000_0000;
    assert address == 0x2000_0000 * q + address % 0x2000_0000;
    assert m == 0x2000_0000 * (m / 0x2000_0000) + address % 0x2000_0000;
    ModAfterFours(address, 0x800_0000 * q);
    ModAfterFours(m, 0x800_0000 * (m / 0x2000_0000));
  }

  /** The clock after a read of `address` through ReadMemory: the scratchpad costs nothing. */
  function MemoryClock(c: Timestamp.Clock, address: uint32, sizeOf: nat, increment: bool, steal: uint32): Timestamp.Clock
    requires Width(sizeOf)
  {
    if IsScratchpadAddress(address) then c else ReadClock(c, HardwareTarget(Masked(address)), sizeOf, increment, steal)
  }

  /**
   * A charged read of main RAM, in any of its windows, adds DMACycleSteal
   * plus 3 cycles to the timestamp and takes them off the downcount, and
   * the folded timestamp is then the bare one.
   */
  lemma RamReadCharge(c: Timestamp.Clock, address: uint32, sizeOf: nat, steal: uint32)
    requires Width(sizeOf) && IsRamAddress(address)
    ensures MemoryClock(c, address, sizeOf, true, steal).timestamp == Wrap32(c.timestamp + steal + 3)
    ensures MemoryClock(c, address, sizeOf, true, steal).downcount == WrapS32(c.downcount - steal - 3)
    ensures Timestamp.Now(MemoryClock(c, address, sizeOf, true, steal)) == Wrap32(c.timestamp + steal + 3)
  {
    RamWindowsAlias(address);
    ReadAdvancesClock(c, MainRam, sizeOf, steal);
  }

  /** Without `increment` no read moves the clock, and the scratchpad never does. */
  lemma UnchargedRead(c: Timestamp.Clock, address: uint32, sizeOf: nat, increment: bool, steal: uint32)
    requires Width(sizeOf) && (!increment || IsScratchpadAddress(address))
    ensures MemoryClock(c, address, sizeOf, increment, steal) == c
  {
  }

  /** A little-endian MultiAccessSizeMem of `size` bytes. */
  predicate Block(m: MultiAccessSizeMem, size: nat)
  {
    m.Valid() && m.size == size && !m.bigEndian
  }

  /** Whether the status register isolates the cache from memory. */
  predicate Isolated(sr: u32)
  {
    sr & SrIsolateCache != 0
  }

  /**
   * The globals of masmem.cpp (the memory blocks, the SysControl registers,
   * tsDelta) and what the bus reaches: the CPU's status register and
   * downcount, the timing counter, the instruction cache with its BIU
   * register, and the devices. The devices' side of a write is the record
   * `deviceWrites`.
   */
  class Bus {
    const mainRam: MultiAccessSizeMem
    const biosRom: MultiAccessSizeMem
    const scratchRam: MultiAccessSizeMem
    /** PIOMem, which the source leaves null unless asked for; `hasPioMem` says which. */
    const pioMem: MultiAccessSizeMem
    const hasPioMem: bool
    const sysControl: array<u32>
    const textMem: seq<u8>
    const icache: JitICache.ICacheState
    const cpu: Mips.MipsState
    const timing: Timestamp.Timing
    const devices: Devices
    /** DMACycleSteal, set by the DMA code outside this model. */
    const dmaCycleSteal: uint32
    var deviceWrites: seq<BusWrite>
    var tsDelta: int

    ghost predicate Valid()
      reads this, cpu
    {
      && Block(mainRam, RamSize) && Block(biosRom, BiosSize) && Block(scratchRam, ScratchSize) && Block(pioMem, PioSize)
      && mainRam.data8 != biosRom.data8 && mainRam.data8 != scratchRam.data8 && mainRam.data8 != pioMem.data8
      && biosRom.data8 != scratchRam.data8 && biosRom.data8 != pioMem.data8 && scratchRam.data8 != pioMem.data8
      && sysControl.Length == 9
      && icache.Valid() && icache.lines as object != scratchRam.data8
      && timing.cpu == cpu && cpu.Valid()
      && |textMem| % 4 == 0
    }

    /**
     * MainRAM's static initialiser followed by Memory::Init: every block
     * zero, PIOMem only when asked for, the SysControl registers zero.
     */
    constructor(wantPioMem: bool, hostBigEndian: bool, cpu: Mips.MipsState, timing: Timestamp.Timing,
                icache: JitICache.ICacheState, devices: Devices, dmaCycleSteal: uint32, textMem: seq<u8>)
      requires timing.cpu == cpu && cpu.Valid() && icache.Valid() && |textMem| % 4 == 0
      ensures Valid() && hasPioMem == wantPioMem
      ensures this.cpu == cpu && this.timing == timing && this.icache == icache && this.devices == devices
      ensures this.dmaCycleSteal == dmaCycleSteal && this.textMem == textMem
      ensures fresh(mainRam.data8) && fresh(biosRom.data8) && fresh(scratchRam.data8) && fresh(pioMem.data8) && fresh(sysControl)
      ensures forall i :: 0 <= i < RamSize ==> mainRam.data8[i] == 0
      ensures forall i :: 0 <= i < BiosSize ==> biosRom.data8[i] == 0
      ensures forall i :: 0 <= i < ScratchSize ==> scratchRam.data8[i] == 0
      ensures forall i :: 0 <= i < PioSize ==> pioMem.data8[i] == 0
      ensures forall i :: 0 <= i < 9 ==> sysControl[i] == 0
      ensures deviceWrites == [] && tsDelta == 0
    {
      mainRam := new MultiAccessSizeMem(RamSize, false, hostBigEndian);
      pioMem := new MultiAccessSizeMem(PioSize, false, hostBigEndian);
      hasPioMem := wantPioMem;
      biosRom := new MultiAccessSizeMem(BiosSize, false, hostBigEndian);
      scratchRam := new MultiAccessSizeMem(ScratchSize, false, hostBigEndian);
      sysControl := new u32[9](_ => 0);
      this.textMem := textMem;
      this.icache := icache;
      this.cpu := cpu;
      this.timing := timing;
      this.devices := devices;
      this.dmaCycleSteal := dmaCycleSteal;
      deviceWrites := [];
      tsDelta := 0;
    }

    /**
     * Memory::Clear: PIOMem (if there is one), the BIOS, the scratchpad and
     * main RAM read as zeros afterwards.
     */
    method Clear()
      requires Valid()
      modifies pioMem.data8, biosRom.data8, scratchRam.data8, mainRam.data8
      ensures hasPioMem ==> forall i :: 0 <= i < PioSize ==> pioMem.data8[i] == 0
      ensures !hasPioMem ==> pioMem.data8[..] == old(pioMem.data8[..])
      ensures forall i :: 0 <= i < BiosSize ==> biosRom.data8[i] == 0
      ensures forall i :: 0 <= i < ScratchSize ==> scratchRam.data8[i] == 0
      ensures forall i :: 0 <= i < RamSize ==> mainRam.data8[i] == 0
    {
      if hasPioMem {
        forall i | 0 <= i < pioMem.data8.Length {
          pioMem.data8[i] := 0;
        }
      }
      forall i | 0 <= i < biosRom.data8.Length {
        biosRom.data8[i] := 0;
      }
      forall i | 0 <= i < scratchRam.data8.Length {
        scratchRam.data8[i] := 0;
      }
      forall i | 0 <= i < mainRam.data8.Length {
        mainRam.data8[i] := 0;
      }
    }

    // ------------------------------------------------------------ reads

    /** The PIO window: PIOMem, then the text memory after it, all ones elsewhere or without PIOMem. */
    function PioValue(address: uint32, sizeOf: nat): (r: u64)
      requires Valid() && Width(sizeOf) && Aligned(address, sizeOf)
      reads this, cpu, pioMem.data8
      ensures Fit(sizeOf, r) == r
      ensures !hasPioMem ==> r == AllOnes(sizeOf)
    {
      var offset := address % 0x80_0000;
      AlignedInside(address, sizeOf, offset, 0x80_0000);
      if !hasPioMem then AllOnes(sizeOf)
      else if offset < PioSize then
        AlignedBelow(offset, sizeOf, PioSize);
        pioMem.Read(offset, sizeOf)
      else if offset < PioSize + |textMem| && sizeOf != 8 then TextValue(offset - PioSize, sizeOf)
      else AllOnes(sizeOf)
    }

    /** A read of the text memory at offset `k`, little-endian (MDFN_de16lsb, MDFN_de32lsb). */
    function TextValue(k: nat, sizeOf: nat): u64
      requires Valid() && Width(sizeOf) && k < |textMem| && k % UnitBytes(sizeOf) == 0
      reads this, cpu
    {
      AlignedBelow(k, sizeOf, |textMem|);
      DecodeUnit(false, sizeOf, textMem[k..k + UnitBytes(sizeOf)])
    }

    /** The value ReadFromHardware gives for a masked address, with `now` the timestamp the devices see. */
    function HardwareValue(address: uint32, sizeOf: nat, now: uint32): (r: u64)
      requires Valid() && Width(sizeOf) && Aligned(address, sizeOf)
      reads this, cpu, mainRam.data8, biosRom.data8, pioMem.data8, sysControl, icache
      ensures Fit(sizeOf, r) == r
      ensures HardwareTarget(address).Unmapped? ==> r == AllOnes(sizeOf)
    {
      match HardwareTarget(address)
      case MainRam =>
        AlignedInside(address, sizeOf, address % RamSize, RamSize);
        mainRam.Read(address % RamSize, sizeOf)
      case BiosRom =>
        AlignedInside(address, sizeOf, address % BiosSize, BiosSize);
        biosRom.Read(address % BiosSize, sizeOf)
      case Device(d) => DeviceReadAsWritten(devices, d, now, address, sizeOf)
      case SysControl => SysControlReadAsWritten(sysControl[..], address, sizeOf) as u64
      case Pio => PioValue(address, sizeOf)
      case Biu => Fit(sizeOf, icache.biu as u64)
      case Unmapped => AllOnes(sizeOf)
    }

    /** As written, every read of the controller ports gives all ones, whatever FIO answers. */
    lemma FioReadsAllOnes(address: uint32, sizeOf: nat, now: uint32)
      requires Valid() && Width(sizeOf) && Aligned(address, sizeOf) && 0x1F80_1040 <= address <= 0x1F80_104F
      ensures HardwareValue(address, sizeOf, now) == AllOnes(sizeOf)
    {
      assert HardwareTarget(address) == Device(Fio);
    }

    /** As written, a read of 0x1F801020 gives register 0 with its fixed bits, not register 8. */
    lemma Register8ReadsRegister0(now: uint32)
      requires Valid()
      ensures HardwareValue(0x1F80_1020, 4, now) == (sysControl[0] | 0x1F00_0000) as u64
    {
      assert HardwareTarget(0x1F80_1020) == SysControl;
    }

    /** The value ReadMemory gives: the scratchpad on the unmasked address, else the hardware on the masked one. */
    function MemoryValue(address: uint32, sizeOf: nat, now: uint32): (r: u64)
      requires Valid() && Width(sizeOf) && Aligned(address, sizeOf)
      reads this, cpu, mainRam.data8, biosRom.data8, scratchRam.data8, pioMem.data8, sysControl, icache
      ensures Fit(sizeOf, r) == r
    {
      if IsScratchpadAddress(address) then
        AlignedInside(address, sizeOf, address % ScratchSize, ScratchSize);
        BlockReadFits(scratchRam, address % ScratchSize, sizeOf);
        scratchRam.Read(address % ScratchSize, sizeOf)
      else
        MaskedAligned(address, sizeOf);
        HardwareValue(Masked(address), sizeOf, now)
    }

    /** The three windows of RAM read alike: KSEG0 and KSEG1 addresses read what their KUSEG address reads. */
    lemma RamWindowsReadAlike(address: uint32, sizeOf: nat, now: uint32)
      requires Valid() && Width(sizeOf) && Aligned(address, sizeOf) && IsRamAddress(address)
      ensures Aligned(address % RamSize, sizeOf)
      ensures MemoryValue(address, sizeOf, now) == MemoryValue(address % RamSize, sizeOf, now)
    {
      RamAddressIsMaskedRam(address);
      RamAddressIsMaskedRam(address % RamSize);
      MaskedAligned(address, sizeOf);
    }

    /** The branches of ReadFromHardware inside the I/O window; `handled` is false when the address matches none. */
    method ReadIo(address: uint32, sizeOf: nat, increment: bool) returns (handled: bool, v: u64)
      requires Valid() && Width(sizeOf) && Aligned(address, sizeOf) && 0x1F80_1000 <= address <= 0x1F80_2FFF
      modifies timing`internalTimestamp, timing`lastTs, timing`curSliceLength, cpu`downcount
      ensures handled <==> IoTarget(address).Some?
      ensures handled ==> timing.State() == Charged(old(timing.State()), ReadCharge(IoTarget(address).value, sizeOf), increment)
      ensures handled ==> v == HardwareValue(address, sizeOf, timing.internalTimestamp)
      ensures !handled ==> timing.State() == old(timing.State())
    {
      handled := true;
      if 0x1F80_1C00 <= address <= 0x1F80_1FFF {
        if sizeOf == 4 {
          v := ReadDevice(Spu, address, sizeOf, increment, 36);
        } else {
          v := ReadDevice(Spu, address, sizeOf, increment, 16);
        }
        return;
      }
      if 0x1F80_1800 <= address <= 0x1F80_180F {
        v := ReadDevice(Cdc, address, sizeOf, increment, 6 * sizeOf);
        return;
      }
      var d: Device;
      if 0x1F80_1810 <= address <= 0x1F80_1817 {
        d := Gpu;
      } else if 0x1F80_1820 <= address <= 0x1F80_1827 {
        d := Mdec;
      } else if InSysControl(address) {
        if increment {
          timing.IncrementAsWritten(1);
        }
        v := SysControlReadAsWritten(sysControl[..], address, sizeOf) as u64;
        return;
      } else if 0x1F80_1040 <= address <= 0x1F80_104F {
        d := Fio;
      } else if 0x1F80_1050 <= address <= 0x1F80_105F {
        d := Sio;
      } else if 0x1F80_1070 <= address <= 0x1F80_1077 {
        d := Irq;
      } else if 0x1F80_1080 <= address <= 0x1F80_10FF {
        d := Dma;
      } else if 0x1F80_1100 <= address <= 0x1F80_113F {
        d := Timers;
      } else {
        return false, 0;
      }
      v := ReadDevice(d, address, sizeOf, increment, 1);
    }

    /** A device branch of ReadFromHardware: the device's cycles, then its answer at the new timestamp. */
    method ReadDevice(d: Device, address: uint32, sizeOf: nat, increment: bool, cycles: uint32) returns (v: u64)
      requires Valid() && Width(sizeOf) && Aligned(address, sizeOf) && 0x1F80_1000 <= address <= 0x1F80_2FFF
      requires IoTarget(address) == Some(Device(d)) && cycles == ReadCharge(Device(d), sizeOf)
      modifies timing`internalTimestamp, timing`lastTs, timing`curSliceLength, cpu`downcount
      ensures timing.State() == Charged(old(timing.State()), cycles, increment)
      ensures v == HardwareValue(address, sizeOf, timing.internalTimestamp)
    {
      assert HardwareTarget(address) == Device(d) && cycles != 0;
      if increment {
        timing.IncrementAsWritten(cycles);
      }
      v := DeviceReadAsWritten(devices, d, timing.internalTimestamp, address, sizeOf);
    }

    /**
     * ReadFromHardware<T, increment>: with `increment`, DMACycleSteal and
     * the target's cycles are charged before the value is read.
     */
    method ReadFromHardware(address: uint32, sizeOf: nat, increment: bool) returns (v: u64)
      requires Valid() && Width(sizeOf) && Aligned(address, sizeOf)
      modifies timing`internalTimestamp, timing`lastTs, timing`curSliceLength, cpu`downcount
      ensures timing.State() == ReadClock(old(timing.State()), HardwareTarget(address), sizeOf, increment, dmaCycleSteal)
      ensures v == HardwareValue(address, sizeOf, timing.internalTimestamp)
    {
      if increment {
        timing.IncrementAsWritten(dmaCycleSteal);
      }
      v := ReadTarget(address, sizeOf, increment);
    }

    /** ReadFromHardware after DMACycleSteal is charged: the branch of the address's target. */
    method ReadTarget(address: uint32, sizeOf: nat, increment: bool) returns (v: u64)
      requires Valid() && Width(sizeOf) && Aligned(address, sizeOf)
      modifies timing`internalTimestamp, timing`lastTs, timing`curSliceLength, cpu`downcount
      ensures timing.State() == Charged(old(timing.State()), ReadCharge(HardwareTarget(address), sizeOf), increment)
      ensures v == HardwareValue(address, sizeOf, timing.internalTimestamp)
    {
      if address < 0x80_0000 {
        if increment {
          timing.IncrementAsWritten(3);
        }
        v := ReadBlock(mainRam, RamSize, address, sizeOf);
        return;
      }
      if 0x1FC0_0000 <= address <= 0x1FC7_FFFF {
        v := ReadBlock(biosRom, BiosSize, address, sizeOf);
        return;
      }
      if 0x1F80_1000 <= address <= 0x1F80_2FFF {
        var handled;
        handled, v := ReadIo(address, sizeOf, increment);
        if handled {
          return;
        }
      }
      if 0x1F00_0000 <= address <= 0x1F7F_FFFF {
        v := PioValue(address, sizeOf);
        return;
      }
      if address == BiuAddress {
        v := Fit(sizeOf, icache.biu as u64);
        return;
      }
      v := AllOnes(sizeOf);
    }

    /** `block->Read<T>(address & (size - 1))` for main RAM or the BIOS. */
    method ReadBlock(block: MultiAccessSizeMem, size: nat, address: uint32, sizeOf: nat) returns (v: u64)
      requires Valid() && Width(sizeOf) && Aligned(address, sizeOf)
      requires (block == mainRam && size == RamSize && HardwareTarget(address) == MainRam)
            || (block == biosRom && size == BiosSize && HardwareTarget(address) == BiosRom)
      ensures v == HardwareValue(address, sizeOf, timing.internalTimestamp)
    {
      AlignedInside(address, sizeOf, address % size, size);
      v := block.Read(address % size, sizeOf);
    }

    /** ReadMemory<T, increment>. */
    method ReadMemory(address: uint32, sizeOf: nat, increment: bool) returns (v: u64)
      requires Valid() && Width(sizeOf) && Aligned(address, sizeOf)
      modifies timing`internalTimestamp, timing`lastTs, timing`curSliceLength, cpu`downcount
      ensures timing.State() == MemoryClock(old(timing.State()), address, sizeOf, increment, dmaCycleSteal)
      ensures v == MemoryValue(address, sizeOf, timing.internalTimestamp)
    {
      if IsScratchpadAddress(address) {
        AlignedInside(address, sizeOf, address % ScratchSize, ScratchSize);
        v := scratchRam.Read(address % ScratchSize, sizeOf);
        return;
      }
      MaskedAligned(address, sizeOf);
      v := ReadFromHardware(Masked(address), sizeOf, increment);
    }

    // ------------------------------------------------------------ writes

    /** The state a store can change, as a value. */
    ghost function Snapshot(): (h: BusState)
      requires Valid()
      reads this, cpu, mainRam.data8, biosRom.data8, scratchRam.data8, sysControl, icache, icache.lines
      ensures WellFormed(h)
    {
      BusState(mainRam.data8[..], biosRom.data8[..], scratchRam.data8[..], sysControl[..],
               deviceWrites, icache.biu, icache.lines[..])
    }

    /** The branches of WriteToHardware inside the I/O window; `handled` is false when the address matches none. */
    method WriteIo(address: uint32, sizeOf: nat, data: u32) returns (handled: bool)
      requires Valid() && Width(sizeOf) && Aligned(address, sizeOf) && 0x1F80_1000 <= address <= 0x1F80_2FFF
      modifies sysControl, this`deviceWrites
      ensures Valid()
      ensures handled <==> IoTarget(address).Some?
      ensures handled ==> Snapshot() == HardwareAfter(old(Snapshot()), address, sizeOf, data, timing.internalTimestamp)
      ensures !handled ==> Snapshot() == old(Snapshot())
    {
      var now := timing.internalTimestamp;
      handled := true;
      if 0x1F80_1C00 <= address <= 0x1F80_1FFF {
        if sizeOf == 4 {
          PostWrites(address, sizeOf, data, [Timed(Spu, now, address, data), Timed(Spu, now, OrTwo(address), data >> 16)]);
        } else {
          PostWrites(address, sizeOf, data, [Timed(Spu, now, address - address % 2, data)]);
        }
        return;
      }
      if 0x1F80_1800 <= address <= 0x1F80_180F {
        PostWrites(address, sizeOf, data, [Timed(Cdc, now, address % 4, data)]);
        return;
      }
      var d: Device;
      if 0x1F80_1810 <= address <= 0x1F80_1817 {
        d := Gpu;
      } else if 0x1F80_1820 <= address <= 0x1F80_1827 {
        d := Mdec;
      } else if InSysControl(address) {
        WriteSysControl(address, sizeOf, data);
        return;
      } else if 0x1F80_1040 <= address <= 0x1F80_104F {
        d := Fio;
      } else if 0x1F80_1050 <= address <= 0x1F80_105F {
        d := Sio;
      } else if 0x1F80_1070 <= address <= 0x1F80_1077 {
        PostWrites(address, sizeOf, data, [Untimed(Irq, address, data)]);
        return;
      } else if 0x1F80_1080 <= address <= 0x1F80_10FF {
        d := Dma;
      } else if 0x1F80_1100 <= address <= 0x1F80_113F {
        d := Timers;
      } else {
        return false;
      }
      PostWrites(address, sizeOf, data, [Timed(d, now, address, data)]);
    }

    /** Hands `ws`, the writes of a device target, to the device. */
    method PostWrites(address: uint32, sizeOf: nat, data: u32, ws: seq<BusWrite>)
      requires Valid() && Width(sizeOf) && Aligned(address, sizeOf) && HardwareTarget(address).Device?
      requires ws == DeviceWrites(HardwareTarget(address), address, sizeOf, data, timing.internalTimestamp)
      modifies this`deviceWrites
      ensures Valid()
      ensures Snapshot() == HardwareAfter(old(Snapshot()), address, sizeOf, data, timing.internalTimestamp)
    {
      deviceWrites := deviceWrites + ws;
    }

    /** The SysControl branch: the register at the address keeps the writable bits of the shifted data. */
    method WriteSysControl(address: uint32, sizeOf: nat, data: u32)
      requires Valid() && Width(sizeOf) && Aligned(address, sizeOf) && InSysControl(address)
      modifies sysControl
      ensures Valid()
      ensures Snapshot() == HardwareAfter(old(Snapshot()), address, sizeOf, data, timing.internalTimestamp)
    {
      assert HardwareTarget(address) == SysControl;
      var i := SysControlIndexAsWritten(address);
      sysControl[i] := FitWord(sizeOf, LaneUp(data, address)) & SysControlMask[i];
    }

    /**
     * WriteToHardware<T> for a masked address and data already converted
     * to T.
     */
    method WriteToHardware(address: uint32, sizeOf: nat, data: u32)
      requires Valid() && Width(sizeOf) && Aligned(address, sizeOf)
      modifies mainRam.data8, biosRom.data8, sysControl, icache`biu, icache.lines, this`deviceWrites
      ensures Valid()
      ensures Snapshot() == HardwareAfter(old(Snapshot()), address, sizeOf, data, timing.internalTimestamp)
    {
      if address < 0x80_0000 {
        WriteBlock(mainRam, RamSize, address, sizeOf, data);
        return;
      }
      if 0x1FC0_0000 <= address <= 0x1FC7_FFFF {
        WriteBlock(biosRom, BiosSize, address, sizeOf, data);
        return;
      }
      if 0x1F80_1000 <= address <= 0x1F80_2FFF {
        var handled := WriteIo(address, sizeOf, data);
        if handled {
          return;
        }
      }
      if 0x1F00_0000 <= address <= 0x1F7F_FFFF {
        return;
      }
      if address == BiuAddress {
        assert HardwareTarget(address) == Biu;
        icache.SetBiu(data);
        assert icache.lines[..] == LinesAfterBiu(old(icache.lines[..]), old(icache.biu), icache.biu);
      }
    }

    /** `ScratchRAM->Write<T>(address & 0x3FF, data)`. */
    method WriteScratch(address: uint32, sizeOf: nat, data: u32)
      requires Valid() && Width(sizeOf) && Aligned(address, sizeOf)
      modifies scratchRam.data8
      ensures Valid()
      ensures Snapshot() == old(Snapshot()).(scratch := StoredAt(old(Snapshot()).scratch, address, sizeOf, data))
    {
      AlignedInside(address, sizeOf, address % ScratchSize, ScratchSize);
      scratchRam.Write(address % ScratchSize, sizeOf, data as u64);
    }

    /**
     * The instruction-cache side of an isolated store: with the cache on,
     * either the tag and valid bits of the four lines of the address's
     * group, or the data word of one line.
     */
    method WriteIsolatedCache(address: uint32, value: u32)
      requires Valid()
      modifies icache.lines
      ensures Valid()
      ensures icache.lines[..] == IsolatedLines(old(icache.lines[..]), icache.biu, address, value)
    {
      var biu := icache.biu;
      if biu & JitICache.BiuEnableICacheS1 != 0 {
        if biu & 0x7 != 0 {
          var validBits := ValidBits(biu, address, value);
          var group := TagLine(address);
          var k := 0;
          while k < 4
            invariant 0 <= k <= 4
            invariant forall i :: 0 <= i < JitICache.ICacheLines ==>
              icache.lines[i] == if group <= i < group + k
                                 then old(icache.lines[i]).(tv := TagTv(address as u32, validBits, i - group))
                                 else old(icache.lines[i])
          {
            icache.lines[group + k] := icache.lines[group + k].(tv := TagTv(address as u32, validBits, k));
            k := k + 1;
          }
        } else {
          var i := DataLine(address);
          icache.lines[i] := icache.lines[i].(data := LaneUp(value, address));
        }
      }
    }

    /** The isolated branch of WriteMemory<T>: the cache, then the scratchpad when BIU lets it through. */
    method WriteIsolated(address: uint32, sizeOf: nat, value: u32)
      requires Valid() && Width(sizeOf) && Aligned(address, sizeOf)
      modifies icache.lines, scratchRam.data8
      ensures Valid()
      ensures Snapshot() == IsolatedAfter(old(Snapshot()), address, sizeOf, value)
    {
      WriteIsolatedCache(address, value);
      if IsolatedScratchpadWrite(icache.biu) {
        WriteScratch(address, sizeOf, FitWord(sizeOf, value));
      }
    }

    /**
     * WriteMemory<T>(address, value): the value converted to T goes, with
     * the cache not isolated, to the scratchpad or WriteToHardware at the
     * masked address; isolated, to the cache (and maybe the scratchpad);
     * the final test writes the scratchpad once more when the address
     * (unmasked, in the isolated case) lies in it.
     */
    method WriteMemory(address: uint32, sizeOf: nat, value: u32)
      requires Valid() && Width(sizeOf) && Aligned(address, sizeOf)
      modifies mainRam.data8, biosRom.data8, scratchRam.data8, sysControl, icache`biu, icache.lines, this`deviceWrites
      ensures Valid()
      ensures Snapshot() == MemoryAfter(old(Snapshot()), cpu.cp0[Mips.Cp0Sr], address, sizeOf, value, timing.internalTimestamp)
    {
      var data := FitWord(sizeOf, value);
      var a := address;
      if !Isolated(cpu.cp0[Mips.Cp0Sr]) {
        a := Masked(address);
        MaskedAligned(address, sizeOf);
        if IsScratchpadAddress(a) {
          WriteScratch(a, sizeOf, data);
          return;
        }
        WriteToHardware(a, sizeOf, data);
      } else {
        WriteIsolated(address, sizeOf, value);
      }
      if IsScratchpadAddress(a) {
        WriteScratch(a, sizeOf, data);
      }
    }

    /** `block->Write<T>(address & (size - 1), data)` for main RAM or the BIOS. */
    method WriteBlock(block: MultiAccessSizeMem, size: nat, address: uint32, sizeOf: nat, data: u32)
      requires Valid() && Width(sizeOf) && Aligned(address, sizeOf)
      requires (block == mainRam && size == RamSize && HardwareTarget(address) == MainRam)
            || (block == biosRom && size == BiosSize && HardwareTarget(address) == BiosRom)
      modifies block.data8
      ensures Valid()
      ensures Snapshot() == HardwareAfter(old(Snapshot()), address, sizeOf, data, timing.internalTimestamp)
    {
      AlignedInside(address, sizeOf, address % size, size);
      block.Write(address % size, sizeOf, data as u64);
    }

    // ------------------------------------------------------------ the Memory entry points

    /** Read_U8 (ReadUnchecked_U8 is the same code): ReadMemory<u8>, charged. */
    method ReadU8(address: uint32) returns (r: u8)
      requires Valid()
      modifies timing`internalTimestamp, timing`lastTs, timing`curSliceLength, cpu`downcount
      ensures timing.State() == MemoryClock(old(timing.State()), address, 1, true, dmaCycleSteal)
      ensures r == LowByte64(MemoryValue(address, 1, timing.internalTimestamp))
    {
      var v := ReadMemory(address, 1, true);
      r := LowByte64(v);
    }

    /** Read_U16 (and ReadUnchecked_U16): ReadMemory<u16_le>, charged. */
    method ReadU16(address: uint32) returns (r: u16)
      requires Valid() && Aligned(address, 2)
      modifies timing`internalTimestamp, timing`lastTs, timing`curSliceLength, cpu`downcount
      ensures timing.State() == MemoryClock(old(timing.State()), address, 2, true, dmaCycleSteal)
      ensures r == LowHalf32(LowHalf64(MemoryValue(address, 2, timing.internalTimestamp)))
    {
      var v := ReadMemory(address, 2, true);
      r := LowHalf32(LowHalf64(v));
    }

    /** Read_U32 (and ReadUnchecked_U32): ReadMemory<u32_le>, charged. */
    method ReadU32(address: uint32) returns (r: u32)
      requires Valid() && Aligned(address, 4)
      modifies timing`internalTimestamp, timing`lastTs, timing`curSliceLength, cpu`downcount
      ensures timing.State() == MemoryClock(old(timing.State()), address, 4, true, dmaCycleSteal)
      ensures r == LowHalf64(MemoryValue(address, 4, timing.internalTimestamp))
    {
      var v := ReadMemory(address, 4, true);
      r := LowHalf64(v);
    }

    /** Read_U64: ReadMemory<u64_le>, which goes through the 8-bit accessor of the blocks. */
    method ReadU64(address: uint32) returns (r: u64)
      requires Valid()
      modifies timing`internalTimestamp, timing`lastTs, timing`curSliceLength, cpu`downcount
      ensures timing.State() == MemoryClock(old(timing.State()), address, 8, true, dmaCycleSteal)
      ensures r == MemoryValue(address, 8, timing.internalTimestamp)
    {
      r := ReadMemory(address, 8, true);
    }

    /** Read_U8_ZX: Read_U8 zero-extended to 32 bits. */
    method ReadU8Zx(address: uint32) returns (r: u32)
      requires Valid()
      modifies timing`internalTimestamp, timing`lastTs, timing`curSliceLength, cpu`downcount
      ensures timing.State() == MemoryClock(old(timing.State()), address, 1, true, dmaCycleSteal)
      ensures r < 0x100 && r as u8 == LowByte64(MemoryValue(address, 1, timing.internalTimestamp))
    {
      var b := ReadU8(address);
      r := b as u32;
    }

    /** Read_U16_ZX: Read_U16 zero-extended to 32 bits. */
    method ReadU16Zx(address: uint32) returns (r: u32)
      requires Valid() && Aligned(address, 2)
      modifies timing`internalTimestamp, timing`lastTs, timing`curSliceLength, cpu`downcount
      ensures timing.State() == MemoryClock(old(timing.State()), address, 2, true, dmaCycleSteal)
      ensures r < 0x1_0000 && r as u16 == LowHalf32(LowHalf64(MemoryValue(address, 2, timing.internalTimestamp)))
    {
      var h := ReadU16(address);
      r := h as u32;
    }

    /** Read_U32_instr: ReadMemory<u32_le, false>, which leaves the timestamp alone. */
    method ReadU32Instr(address: uint32) returns (r: u32)
      requires Valid() && Aligned(address, 4)
      modifies timing`internalTimestamp, timing`lastTs, timing`curSliceLength, cpu`downcount
      ensures timing.State() == old(timing.State())
      ensures r == LowHalf64(MemoryValue(address, 4, timing.internalTimestamp))
    {
      var v := ReadMemory(address, 4, false);
      r := LowHalf64(v);
    }

    /** Read_Instruction: a charged 32-bit ReadMemory; the instruction-cache fetch is disabled in the source. */
    method ReadInstruction(address: uint32) returns (op: u32)
      requires Valid() && Aligned(address, 4)
      modifies timing`internalTimestamp, timing`lastTs, timing`curSliceLength, cpu`downcount
      ensures timing.State() == MemoryClock(old(timing.State()), address, 4, true, dmaCycleSteal)
      ensures op == LowHalf64(MemoryValue(address, 4, timing.internalTimestamp))
    {
      var v := ReadMemory(address, 4, true);
      op := LowHalf64(v);
    }

    /**
     * Read_Opcode_JIT: tsDelta is zeroed, the word at compilerPC is read,
     * downcountAmount grows by tsDelta (which no read changes), and a
     * run-block word is undone by the recompiler's GetOriginalOp when there
     * is a recompiler (`blocks` is its block table).
     */
    method ReadOpcodeJit(js: Jit.JitState, blocks: Option<seq<Jit.BlockEntry>>) returns (op: u32, js': Jit.JitState)
      requires Valid() && Aligned(js.compilerPC, 4)
      modifies this`tsDelta, timing`internalTimestamp, timing`lastTs, timing`curSliceLength, cpu`downcount
      ensures tsDelta == 0 && js' == js
      ensures timing.State() == MemoryClock(old(timing.State()), js.compilerPC, 4, true, dmaCycleSteal)
      ensures var w := LowHalf64(MemoryValue(js.compilerPC, 4, timing.internalTimestamp));
              && (Mips.IsRunBlock(w) && blocks.Some? ==> op == Jit.GetOriginalOp(blocks.value, w))
              && (!Mips.IsRunBlock(w) || blocks.None? ==> op == w)
    {
      tsDelta := 0;
      var inst := ReadInstruction(js.compilerPC);
      js' := js.(downcountAmount := js.downcountAmount + tsDelta);
      if Mips.IsRunBlock(inst) && blocks.Some? {
        op := Jit.GetOriginalOp(blocks.value, inst);
      } else {
        op := inst;
      }
    }

    /** Write_U8: WriteMemory<u8>. */
    method WriteU8(data: u8, address: uint32)
      requires Valid()
      modifies mainRam.data8, biosRom.data8, scratchRam.data8, sysControl, icache`biu, icache.lines, this`deviceWrites
      ensures Valid()
      ensures Snapshot() == MemoryAfter(old(Snapshot()), cpu.cp0[Mips.Cp0Sr], address, 1, data as u32, timing.internalTimestamp)
    {
      WriteMemory(address, 1, data as u32);
    }

    /** Write_U16: WriteMemory<u16_le>. */
    method WriteU16(data: u16, address: uint32)
      requires Valid() && Aligned(address, 2)
      modifies mainRam.data8, biosRom.data8, scratchRam.data8, sysControl, icache`biu, icache.lines, this`deviceWrites
      ensures Valid()
      ensures Snapshot() == MemoryAfter(old(Snapshot()), cpu.cp0[Mips.Cp0Sr], address, 2, data as u32, timing.internalTimestamp)
    {
      WriteMemory(address, 2, data as u32);
    }

    /** Write_U32: WriteMemory<u32_le>. */
    method WriteU32(data: u32, address: uint32)
      requires Valid() && Aligned(address, 4)
      modifies mainRam.data8, biosRom.data8, scratchRam.data8, sysControl, icache`biu, icache.lines, this`deviceWrites
      ensures Valid()
      ensures Snapshot() == MemoryAfter(old(Snapshot()), cpu.cp0[Mips.Cp0Sr], address, 4, data, timing.internalTimestamp)
    {
      WriteMemory(address, 4, data);
    }

    /** Write_U64: WriteMemory<u64_le>, whose `uint32_t value` parameter keeps the low half of the data. */
    method WriteU64(data: u64, address: uint32)
      requires Valid()
      modifies mainRam.data8, biosRom.data8, scratchRam.data8, sysControl, icache`biu, icache.lines, this`deviceWrites
      ensures Valid()
      ensures Snapshot() == MemoryAfter(old(Snapshot()), cpu.cp0[Mips.Cp0Sr], address, 8, LowHalf64(data), timing.internalTimestamp)
    {
      WriteMemory(address, 8, LowHalf64(data));
    }

    /**
     * WriteUnchecked_U8/U16/U32: WriteToHardware<T> on the masked address,
     * past the scratchpad and the isolated cache.
     */
    method WriteUnchecked(address: uint32, sizeOf: nat, data: u32)
      requires Valid() && (sizeOf == 1 || sizeOf == 2 || sizeOf == 4) && Aligned(address, sizeOf)
      modifies mainRam.data8, biosRom.data8, sysControl, icache`biu, icache.lines, this`deviceWrites
      ensures Valid()
      ensures Aligned(Masked(address), sizeOf)
      ensures Snapshot() == HardwareAfter(old(Snapshot()), Masked(address), sizeOf, FitWord(sizeOf, data), timing.internalTimestamp)
    {
      MaskedAligned(address, sizeOf);
      WriteToHardware(Masked(address), sizeOf, FitWord(sizeOf, data));
    }

    /** Write_Opcode_JIT: WriteUnchecked_U32 of the encoding. */
    method WriteOpcodeJit(address: uint32, op: u32)
      requires Valid() && Aligned(address, 4)
      modifies mainRam.data8, biosRom.data8, sysControl, icache`biu, icache.lines, this`deviceWrites
      ensures Valid()
      ensures Aligned(Masked(address), 4)
      ensures Snapshot() == HardwareAfter(old(Snapshot()), Masked(address), 4, op, timing.internalTimestamp)
    {
      WriteUnchecked(address, 4, op);
    }

    /**
     * GetPointer: charges DMACycleSteal, then points into the scratchpad
     * (unmasked address), main RAM or the BIOS (masked address), or nowhere.
     */
    method GetPointer(address: uint32) returns (p: Option<Pointer>)
      requires Valid()
      modifies timing`internalTimestamp, timing`lastTs, timing`curSliceLength, cpu`downcount
      ensures timing.State() == Timestamp.AfterIncrementAsWritten(old(timing.State()), dmaCycleSteal)
      ensures p == PointerOf(address)
    {
      timing.IncrementAsWritten(dmaCycleSteal);
      var origAddress := address;
      var a := Masked(address);
      if IsScratchpadAddress(origAddress) {
        return Some(Pointer(Scratchpad, origAddress % ScratchSize));
      }
      if a < 0x80_0000 {
        return Some(Pointer(Ram, a % RamSize));
      }
      if 0x1FC0_0000 <= a <= 0x1FC7_FFFF {
        return Some(Pointer(Bios, a % BiosSize));
      }
      return None;
    }
  }
}
