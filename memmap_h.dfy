// jit/Memory/MemMap.h: the recompiler's own picture of guest memory. The
// memory arena puts every guest address `a` at host address `base + a`;
// the arena is assembled from MemoryViews (a guest address range backed
// by one block of host memory, or mirroring the previous view's block).
// The unchecked accessors dereference `base + a` directly, the validity
// helpers say which guest addresses the arena is meant to back, and
// PSPPointer is a typed guest pointer.
//
// The host is x86, so a multi-byte access reads and writes its bytes
// little-endian. Guest addresses and values are numbers.
module MemMapH {
  import opened Words
  import MasMem

  /** RAM_SIZE and SCRATCHPAD_SIZE. */
  const RamSize: nat := 0x0020_0000
  const ScratchpadSize: nat := 0x400
  /** The sizes of the parallel-port and BIOS blocks of the view table. */
  const ParallelPortSize: nat := 0x2_0000
  const BiosSize: nat := 0x8_0000

  /** The MV_* view flags. */
  const MvMirrorPrevious: bv32 := 0x1
  const MvIsPrimaryRam: bv32 := 0x100
  const MvIsExtra1Ram: bv32 := 0x200
  const MvIsExtra2Ram: bv32 := 0x400
  const MvKernel: bv32 := 0x800

  // ---------------------------------------------------------------- values

  /** A host byte, as a number. */
  type byte = x: int | 0 <= x < 0x100

  /** 256^n: one more than the largest value of n bytes. */
  function Pow256(n: nat): (r: nat)
    ensures r > 0
  {
    if n == 0 then 1 else 256 * Pow256(n - 1)
  }

  /** The little-endian value of a run of bytes, as the host reads `*(T*)p`. */
  function LeValue(b: seq<byte>): (r: nat)
    ensures r < Pow256(|b|)
  {
    if b == [] then 0 else b[0] + 256 * LeValue(b[1..])
  }

  /** The `n` bytes the host stores for `*(T*)p = v`, low byte first. */
  function LeBytes(v: nat, n: nat): (r: seq<byte>)
    ensures |r| == n
  {
    if n == 0 then [] else [v % 256] + LeBytes(v / 256, n - 1)
  }

  /** Reading back what was stored gives the stored value. */
  lemma {:induction false} LeValueOfBytes(v: nat, n: nat)
    requires v < Pow256(n)
    ensures LeValue(LeBytes(v, n)) == v
  {
    if n > 0 {
      QuotientBound(v, Pow256(n - 1));
      LeValueOfBytes(v / 256, n - 1);
      var r := LeBytes(v, n);
      assert r[1..] == LeBytes(v / 256, n - 1);
      assert r[0] == v % 256;
    }
  }

  lemma QuotientBound(v: nat, p: nat)
    requires v < 256 * p
    ensures v / 256 < p
  {
  }

  /** Storing what was read leaves the bytes as they were. */
  lemma {:induction false} LeBytesOfValue(b: seq<byte>)
    ensures LeBytes(LeValue(b), |b|) == b
  {
    if b != [] {
      LeBytesOfValue(b[1..]);
      assert (b[0] + 256 * LeValue(b[1..])) / 256 == LeValue(b[1..]);
    }
  }

  // ---------------------------------------------------------------- views

  /** The `out_ptr` of a view: which of the m_p* pointers it sets. */
  datatype ViewPointer = PhysicalRam | CachedRam | UncachedRam | ParallelPortView | ScratchPadView | BiosView

  /** MemoryView: a guest range of `size` bytes from `virtualAddress`. */
  datatype MemoryView = MemoryView(outPtr: ViewPointer, virtualAddress: uint32, size: uint32, flags: bv32)

  /** The host blocks behind the views. */
  datatype Block = RamBlock | ParallelPortBlock | ScratchPadBlock | BiosBlock

  function BlockSize(b: Block): nat
  {
    match b
    case RamBlock => RamSize
    case ParallelPortBlock => ParallelPortSize
    case ScratchPadBlock => ScratchpadSize
    case BiosBlock => BiosSize
  }

  predicate Contains(v: MemoryView, address: int)
  {
    v.virtualAddress <= address < v.virtualAddress + v.size
  }

  /** The first view, from index `from` on, that contains `address`; -1 if none does. */
  function FirstView(views: seq<MemoryView>, address: int, from: nat): (i: int)
    requires from <= |views|
    ensures i == -1 || from <= i < |views|
    ensures i >= 0 ==> Contains(views[i], address)
    ensures forall j :: from <= j < |views| && (i == -1 || j < i) ==> !Contains(views[j], address)
    decreases |views| - from
  {
    if from == |views| then -1
    else if Contains(views[from], address) then from
    else FirstView(views, address, from + 1)
  }

  /** Views that do not hold the address are passed over. */
  lemma {:induction false} FirstViewSkips(views: seq<MemoryView>, address: int, from: nat, to: nat)
    requires from <= to <= |views|
    requires forall j :: from <= j < to ==> !Contains(views[j], address)
    ensures FirstView(views, address, from) == FirstView(views, address, to)
    decreases |views| - from
  {
    if from < to {
      FirstViewSkips(views, address, from + 1, to);
    }
  }

  /**
   * The block view `i` maps: a view flagged MV_MIRROR_PREVIOUS maps the
   * memory of the view before it; the cached and uncached RAM pointers
   * are only ever mirrors and back nothing of their own.
   */
  function Backing(views: seq<MemoryView>, i: nat): Option<Block>
    requires i < |views|
  {
    if i > 0 && views[i].flags & MvMirrorPrevious != 0 then Backing(views, i - 1)
    else match views[i].outPtr
      case PhysicalRam => Some(RamBlock)
      case ParallelPortView => Some(ParallelPortBlock)
      case ScratchPadView => Some(ScratchPadBlock)
      case BiosView => Some(BiosBlock)
      case _ => None
  }

  /** Every view fits in the block it maps. */
  predicate ViewsFit(views: seq<MemoryView>)
  {
    forall i :: 0 <= i < |views| && Backing(views, i).Some? ==> views[i].size <= BlockSize(Backing(views, i).value)
  }

  /** A host location: byte `offset` of a block, with `room` bytes of the view left from there. */
  datatype Location = Location(block: Block, offset: nat, room: nat)

  /**
   * GetPointerUnchecked: `base + address`, a location inside the arena
   * when a view covers the address, nothing (a host fault) otherwise.
   */
  function GetPointerUnchecked(views: seq<MemoryView>, address: uint32): (r: Option<Location>)
    ensures r.Some? ==> r.value.room > 0
  {
    var i := FirstView(views, address, 0);
    if i < 0 then None
    else match Backing(views, i)
      case None => None
      case Some(b) => Some(Location(b, address - views[i].virtualAddress, views[i].virtualAddress + views[i].size - address))
  }

  /** Whether an access of `n` bytes at `address` stays inside one view. */
  predicate Mapped(views: seq<MemoryView>, address: uint32, n: nat)
  {
    var l := GetPointerUnchecked(views, address);
    l.Some? && n <= l.value.room
  }

  /** A location of a fitting view lies inside its block, with the view's room too. */
  lemma LocationInBlock(views: seq<MemoryView>, address: uint32)
    requires ViewsFit(views) && GetPointerUnchecked(views, address).Some?
    ensures GetPointerUnchecked(views, address).value.offset + GetPointerUnchecked(views, address).value.room
            <= BlockSize(GetPointerUnchecked(views, address).value.block)
  {
    var i := FirstView(views, address, 0);
    assert Backing(views, i).Some?;
  }

  // ---------------------------------------------------------------- contents

  /** The contents of the four blocks. */
  datatype Memory = Memory(ram: seq<byte>, parallelPort: seq<byte>, scratchPad: seq<byte>, bios: seq<byte>)

  predicate WellSized(m: Memory)
  {
    |m.ram| == RamSize && |m.parallelPort| == ParallelPortSize
    && |m.scratchPad| == ScratchpadSize && |m.bios| == BiosSize
  }

  function BlockBytes(m: Memory, b: Block): seq<byte>
  {
    match b
    case RamBlock => m.ram
    case ParallelPortBlock => m.parallelPort
    case ScratchPadBlock => m.scratchPad
    case BiosBlock => m.bios
  }

  /** The value of `n` bytes at a location. */
  function ValueAt(m: Memory, l: Location, n: nat): (r: nat)
    requires WellSized(m) && l.offset + n <= BlockSize(l.block)
    ensures r < Pow256(n)
  {
    LeValue(BlockBytes(m, l.block)[l.offset..l.offset + n])
  }

  /** The contents after `bytes` are stored at a location; no other block changes. */
  function StoredAt(m: Memory, l: Location, bytes: seq<byte>): (r: Memory)
    requires WellSized(m) && l.offset + |bytes| <= BlockSize(l.block)
    ensures WellSized(r)
    ensures forall b :: b != l.block ==> BlockBytes(r, b) == BlockBytes(m, b)
  {
    var s := MasMem.Put(BlockBytes(m, l.block), l.offset, bytes);
    match l.block
    case RamBlock => m.(ram := s)
    case ParallelPortBlock => m.(parallelPort := s)
    case ScratchPadBlock => m.(scratchPad := s)
    case BiosBlock => m.(bios := s)
  }

  /** A value stored at a location is read back there. */
  lemma StoredValueAt(m: Memory, l: Location, n: nat, v: nat)
    requires WellSized(m) && l.offset + n <= BlockSize(l.block) && v < Pow256(n)
    ensures ValueAt(StoredAt(m, l, LeBytes(v, n)), l, n) == v
  {
    LeValueOfBytes(v, n);
    assert BlockBytes(StoredAt(m, l, LeBytes(v, n)), l.block)[l.offset..l.offset + n] == LeBytes(v, n);
  }

  /** Storing the bytes already at a location leaves the memory as it was. */
  lemma StoredSameAt(m: Memory, l: Location, n: nat)
    requires WellSized(m) && l.offset + n <= BlockSize(l.block)
    ensures StoredAt(m, l, BlockBytes(m, l.block)[l.offset..l.offset + n]) == m
  {
    var s := BlockBytes(m, l.block);
    var r := MasMem.Put(s, l.offset, s[l.offset..l.offset + n]);
    assert forall i :: 0 <= i < |s| ==> r[i] == s[i];
    assert r == s;
  }

  /** The value of `n` bytes at `base + address`, inside one view. */
  function UncheckedValue(m: Memory, views: seq<MemoryView>, address: uint32, n: nat): (r: nat)
    requires WellSized(m) && ViewsFit(views) && Mapped(views, address, n)
    ensures r < Pow256(n)
  {
    LocationInBlock(views, address);
    ValueAt(m, GetPointerUnchecked(views, address).value, n)
  }

  /** The contents after `n` bytes of `data` are stored at `base + address`, inside one view. */
  function UncheckedAfter(m: Memory, views: seq<MemoryView>, address: uint32, n: nat, data: nat): (r: Memory)
    requires WellSized(m) && ViewsFit(views) && Mapped(views, address, n) && data < Pow256(n)
    ensures WellSized(r)
    ensures forall b :: b != GetPointerUnchecked(views, address).value.block ==> BlockBytes(r, b) == BlockBytes(m, b)
  {
    LocationInBlock(views, address);
    StoredAt(m, GetPointerUnchecked(views, address).value, LeBytes(data, n))
  }

  /** An unchecked store is read back by an unchecked load of the same address and width. */
  lemma UncheckedWriteRead(m: Memory, views: seq<MemoryView>, address: uint32, n: nat, data: nat)
    requires WellSized(m) && ViewsFit(views) && Mapped(views, address, n) && data < Pow256(n)
    ensures UncheckedValue(UncheckedAfter(m, views, address, n, data), views, address, n) == data
  {
    LocationInBlock(views, address);
    StoredValueAt(m, GetPointerUnchecked(views, address).value, n, data);
  }

  /** Storing back the value an unchecked load gave changes nothing. */
  lemma UncheckedReadWrite(m: Memory, views: seq<MemoryView>, address: uint32, n: nat)
    requires WellSized(m) && ViewsFit(views) && Mapped(views, address, n)
    ensures UncheckedAfter(m, views, address, n, UncheckedValue(m, views, address, n)) == m
  {
    LocationInBlock(views, address);
    var l := GetPointerUnchecked(views, address).value;
    LeBytesOfValue(BlockBytes(m, l.block)[l.offset..l.offset + n]);
    StoredSameAt(m, l, n);
  }

  /**
   * The memory arena: Memory::base (null once shut down), the blocks the
   * views map, whether the m_p* view pointers are set, g_MemorySize, and
   * the views the arena was built from.
   */
  class Arena {
    var based: bool
    var mapped: bool
    var memorySize: nat
    const views: seq<MemoryView>
    const ram: array<byte>
    const parallelPort: array<byte>
    const scratchPad: array<byte>
    const bios: array<byte>

    ghost predicate Valid()
      reads this
    {
      && ram.Length == RamSize && parallelPort.Length == ParallelPortSize
      && scratchPad.Length == ScratchpadSize && bios.Length == BiosSize
      && ram != parallelPort && ram != scratchPad && ram != bios
      && parallelPort != scratchPad && parallelPort != bios && scratchPad != bios
      && ViewsFit(views) && memorySize <= RamSize
    }

    /** MemoryMap_Setup's result: the views mapped over fresh, zeroed blocks. */
    constructor(views: seq<MemoryView>, memorySize: nat)
      requires ViewsFit(views) && memorySize <= RamSize
      ensures Valid() && based && mapped && this.views == views && this.memorySize == memorySize
      ensures fresh(ram) && fresh(parallelPort) && fresh(scratchPad) && fresh(bios)
      ensures Contents() == Memory(seq(RamSize, _ => 0), seq(ParallelPortSize, _ => 0),
                                   seq(ScratchpadSize, _ => 0), seq(BiosSize, _ => 0))
    {
      this.views := views;
      this.memorySize := memorySize;
      ram := new byte[RamSize](_ => 0);
      parallelPort := new byte[ParallelPortSize](_ => 0);
      scratchPad := new byte[ScratchpadSize](_ => 0);
      bios := new byte[BiosSize](_ => 0);
      based := true;
      mapped := true;
    }

    function BlockArray(b: Block): (a: array<byte>)
      reads this
      ensures Valid() ==> a.Length == BlockSize(b)
    {
      match b
      case RamBlock => ram
      case ParallelPortBlock => parallelPort
      case ScratchPadBlock => scratchPad
      case BiosBlock => bios
    }

    ghost function Contents(): (m: Memory)
      requires Valid()
      reads this, ram, parallelPort, scratchPad, bios
      ensures WellSized(m)
    {
      Memory(ram[..], parallelPort[..], scratchPad[..], bios[..])
    }

    /** IsActive: base is set. */
    function IsActive(): bool
      reads this
    {
      based
    }

    /**
     * ReadUnchecked_U8/U16/U32 (the inline versions): `*(T*)(base +
     * address)`, `n` bytes read little-endian. The caller guarantees the
     * access lies inside a view; the host faults otherwise.
     */
    function ReadUnchecked(address: uint32, n: nat): (r: nat)
      requires Valid() && Mapped(views, address, n)
      reads this, ram, parallelPort, scratchPad, bios
      ensures r < Pow256(n)
      ensures r == UncheckedValue(Contents(), views, address, n)
    {
      LocationInBlock(views, address);
      var l := GetPointerUnchecked(views, address).value;
      LeValue(BlockArray(l.block)[l.offset..l.offset + n])
    }

    /** WriteUnchecked_U8/U16/U32 (the inline versions): `*(T*)(base + address) = data`. */
    method WriteUnchecked(address: uint32, n: nat, data: nat)
      requires Valid() && Mapped(views, address, n) && data < Pow256(n)
      modifies BlockArray(GetPointerUnchecked(views, address).value.block)
      ensures Valid()
      ensures Contents() == UncheckedAfter(old(Contents()), views, address, n, data)
    {
      LocationInBlock(views, address);
      var l := GetPointerUnchecked(views, address).value;
      var bytes := LeBytes(data, n);
      match l.block
      case RamBlock => Store(ram, l.offset, bytes);
      case ParallelPortBlock => Store(parallelPort, l.offset, bytes);
      case ScratchPadBlock => Store(scratchPad, l.offset, bytes);
      case BiosBlock => Store(bios, l.offset, bytes);
    }
  }

  /** A host store of `bytes` from index `p` of a block. */
  method Store(a: array<byte>, p: nat, bytes: seq<byte>)
    requires p + |bytes| <= a.Length
    modifies a
    ensures a[..] == MasMem.Put(old(a[..]), p, bytes)
  {
    forall k | 0 <= k < |bytes| {
      a[p + k] := bytes[k];
    }
    assert a[..] == MasMem.Put(old(a[..]), p, bytes);
  }

  // ---------------------------------------------------------------- validity

  /** IsValidAddress: the three RAM windows, the parallel port, the scratchpad and the KSEG1 BIOS. */
  predicate IsValidAddress(address: uint32)
  {
    if address <= 0x001F_FFFF || (0x8000_0000 <= address <= 0x801F_FFFF) || (0xA000_0000 <= address <= 0xA01F_FFFF) then true
    else if 0x1F00_0000 <= address <= 0x1F00_FFFF then true
    else if 0x1F80_0000 <= address <= 0x1F80_03FF then true
    else if 0xBFC0_0000 <= address <= 0xBFC7_FFFF then true
    else false
  }

  /**
   * ValidSize: `requested`, cut at the end of the region the address lies
   * in; 0 (`return false`) for an invalid address. Every byte of the
   * result is valid, and a cut result stops at the first invalid byte.
   */
  function ValidSize(address: uint32, requested: uint32): (r: uint32)
    ensures r <= requested
    ensures !IsValidAddress(address) ==> r == 0
    ensures forall k: uint32 :: address <= k < address + r ==> IsValidAddress(k)
    ensures address + r < 0x1_0000_0000
    ensures r < requested ==> !IsValidAddress(address + r)
  {
    var maxSize: int :=
      if address <= 0x001F_FFFF then 0x0020_0000 - address
      else if 0x8000_0000 <= address <= 0x801F_FFFF then 0x8020_0000 - address
      else if 0xA000_0000 <= address <= 0xA01F_FFFF then 0xA020_0000 - address
      else if 0x1F00_0000 <= address <= 0x1F00_FFFF then 0x1F01_0000 - address
      else if 0x1F80_0000 <= address <= 0x1F80_03FF then 0x1F80_0400 - address
      else if 0xBFC0_0000 <= address <= 0xBFC7_FFFF then 0xBFC8_0000 - address
      else -1;
    if maxSize < 0 then 0
    else if requested > maxSize then maxSize
    else requested
  }

  /** IsValidRange: the address is valid and ValidSize does not cut the size. */
  predicate IsValidRange(address: uint32, size: uint32)
  {
    IsValidAddress(address) && ValidSize(address, size) == size
  }

  /**
   * IsValidAddress against ValidSize: an address is valid exactly when the
   * one-byte range at it is, and exactly when ValidSize leaves some of a
   * request that asks for everything.
   */
  lemma ValidAddressIsOneByteRange(address: uint32)
    ensures IsValidAddress(address) <==> IsValidRange(address, 1)
    ensures IsValidAddress(address) <==> ValidSize(address, 0xFFFF_FFFF) > 0
  {
  }

  /** A non-empty range is valid exactly when every byte of it is. */
  lemma ValidRangeBytes(address: uint32, size: uint32)
    requires size > 0
    ensures IsValidRange(address, size) <==>
            address + size <= 0x1_0000_0000 && forall k: uint32 :: address <= k < address + size ==> IsValidAddress(k)
  {
  }

  // ---------------------------------------------------------------- PSPPointer

  /** `ptr + d` for a uint32 pointer, in uint32 arithmetic. */
  function Moved(ptr: uint32, d: int): uint32
  {
    Wrap32(ptr + d)
  }

  /** Moving by `d` and back by `d` returns to the start, whatever wraps on the way. */
  lemma MovedBack(ptr: uint32, d: int)
    ensures Moved(Moved(ptr, d), -d) == ptr
  {
    var q := Quot32(ptr + d);
    assert Moved(ptr, d) - d == ptr + (-q) * 0x1_0000_0000;
    Wrap32Periodic(ptr, -q);
    Wrap32Identity(ptr);
  }

  /**
   * PSPPointer<T>: a guest address `ptr` to elements of `size` bytes
   * (sizeof(T)); `+ i` and `- i` move by `i * sizeof(T)`.
   */
  class PspPointer {
    var ptr: uint32
    const size: nat

    /** PSPPointer<T>::Create. */
    constructor Create(p: uint32, size: nat)
      ensures ptr == p && this.size == size
    {
      ptr := p;
      this.size := size;
    }

    /** `operator+(i)`: a new pointer `i` elements on. */
    method Plus(i: int32) returns (other: PspPointer)
      ensures fresh(other) && other.size == size
      ensures other.ptr == Moved(ptr, i * size)
    {
      other := new PspPointer.Create(Wrap32(ptr + i * size), size);
    }

    /** `operator-(i)`: a new pointer `i` elements back. */
    method Minus(i: int32) returns (other: PspPointer)
      ensures fresh(other) && other.size == size
      ensures other.ptr == Moved(ptr, -(i * size))
    {
      other := new PspPointer.Create(Wrap32(ptr - i * size), size);
    }

    /** `operator=(p)`. */
    method Assign(p: uint32)
      modifies this
      ensures ptr == p
    {
      ptr := p;
    }

    /** `operator+=(i)`. */
    method PlusAssign(i: int32)
      modifies this
      ensures ptr == Moved(old(ptr), i * size)
    {
      ptr := Wrap32(ptr + i * size);
    }

    /** `operator-=(i)`. */
    method MinusAssign(i: int32)
      modifies this
      ensures ptr == Moved(old(ptr), -(i * size))
    {
      ptr := Wrap32(ptr - i * size);
    }

    /** Prefix `++`: one element on. */
    method PreIncrement()
      modifies this
      ensures ptr == Moved(old(ptr), size)
    {
      ptr := Wrap32(ptr + size);
    }

    /** Postfix `++`: one element on, answering a copy of the old pointer. */
    method PostIncrement() returns (other: PspPointer)
      modifies this
      ensures fresh(other) && other.ptr == old(ptr) && other.size == size
      ensures ptr == Moved(old(ptr), size)
    {
      other := new PspPointer.Create(ptr, size);
      ptr := Wrap32(ptr + size);
    }

    /** Prefix `--`: one element back. */
    method PreDecrement()
      modifies this
      ensures ptr == Moved(old(ptr), -(size as int))
    {
      ptr := Wrap32(ptr - size);
    }

    /** Postfix `--`: one element back, answering a copy of the old pointer. */
    method PostDecrement() returns (other: PspPointer)
      modifies this
      ensures fresh(other) && other.ptr == old(ptr) && other.size == size
      ensures ptr == Moved(old(ptr), -(size as int))
    {
      other := new PspPointer.Create(ptr, size);
      ptr := Wrap32(ptr - size);
    }

    /** IsValid: Memory::IsValidAddress of the address. */
    predicate IsValid()
      reads this
    {
      IsValidAddress(ptr)
    }
  }

  /** `(p + i) - i == p`: the two operators undo each other. */
  lemma PlusThenMinus(ptr: uint32, i: int32, size: nat)
    ensures Moved(Moved(ptr, i * size), -(i * size)) == ptr
  {
    MovedBack(ptr, i * size);
  }

  /** The comparison operators of two PSPPointers: on `ptr` alone. */
  datatype Comparison = Eq | Ne | Lt | Gt | Le | Ge

  function Compare(op: Comparison, a: uint32, b: uint32): bool
  {
    match op
    case Eq => a == b
    case Ne => a != b
    case Lt => a < b
    case Gt => a > b
    case Le => a <= b
    case Ge => a >= b
  }

  /** `lhs op rhs` for two pointer objects. */
  function ComparePointers(op: Comparison, lhs: PspPointer, rhs: PspPointer): (r: bool)
    reads lhs, rhs
    ensures r == Compare(op, lhs.ptr, rhs.ptr)
  {
    Compare(op, lhs.ptr, rhs.ptr)
  }

  /** The six comparisons agree with one another: `<` is a strict total order, `!=` negates `==`. */
  lemma ComparisonsConsistent(a: uint32, b: uint32)
    ensures Compare(Ne, a, b) == !Compare(Eq, a, b)
    ensures Compare(Le, a, b) == (Compare(Lt, a, b) || Compare(Eq, a, b))
    ensures Compare(Gt, a, b) == Compare(Lt, b, a) && Compare(Ge, a, b) == Compare(Le, b, a)
    ensures Compare(Lt, a, b) || Compare(Eq, a, b) || Compare(Gt, a, b)
  {
  }
}
