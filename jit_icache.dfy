// jit/Memory/jitICache.cpp: the bus-interface-unit register BIU, the 1024
// instruction-cache lines (tag/valid word TV and data word), and FastMap,
// the table of 64 KiB guest pages to host memory.
//
// A FastMap entry is `region_mem - region_address`: indexing it with a
// guest address `a` reaches byte `a - region_address` of `region_mem`.
// The model keeps the pair (region, region_address); host regions are
// named, not addressed.
module JitICache {
  import opened Words

  /** FAST_MAP_SHIFT and FAST_MAP_PSIZE (jitICache.h): 64 KiB pages. */
  const FastMapShift: nat := 16
  const FastMapPageSize: nat := 0x1_0000
  /** 1 << (32 - FAST_MAP_SHIFT) entries: one per page of the 4 GiB space. */
  const FastMapEntries: nat := 0x1_0000
  const ICacheLines: nat := 1024

  /** BIU bits (jitICache.h). */
  const BiuEnableICacheS1: u32 := 0x0000_0800
  const BiuEnableDCache: u32 := 0x0000_0080
  const BiuTagTestMode: u32 := 0x0000_0004
  const BiuInvalidateMode: u32 := 0x0000_0002
  const BiuLockMode: u32 := 0x0000_0001

  datatype CacheLine = CacheLine(tv: u32, data: u32)

  /** A host memory block a FastMap entry can point into. */
  datatype HostRegion = DummyPage | Region(id: nat)

  /** A FastMap entry: null, or `region - base` for a region mapped at guest address `base`. */
  datatype Translation = Null | Biased(region: HostRegion, base: uint32)

  /** The BIU value JitSetBIU keeps: bits 0x440 always read as clear. */
  function StoredBiu(val: u32): u32
  {
    val & 0xFFFF_FBBF
  }

  /** JitSetBIU clears exactly bits 0x440 of the value written. */
  lemma StoredBiuClears(val: u32)
    ensures StoredBiu(val) & 0x440 == 0
    ensures StoredBiu(val) | (val & 0x440) == val
  {
  }

  /** Whether the I-cache enable bit differs between two BIU values. */
  predicate EnableToggled(oldBiu: u32, newBiu: u32)
  {
    (newBiu ^ oldBiu) & 0x800 != 0
  }

  /**
   * The TV word after BIU goes from `oldBiu` to `newBiu`: bit 0 follows the
   * enable bit inverted when the enable bit changed, and nothing changes
   * otherwise.
   */
  function TvAfterBiu(oldBiu: u32, newBiu: u32, tv: u32): u32
  {
    if !EnableToggled(oldBiu, newBiu) then tv
    else if newBiu & 0x800 != 0 then tv & 0xFFFF_FFFE
    else tv | 1
  }

  /** Only bit 0 of a TV word can change, and it then says "disabled". */
  lemma TvAfterBiuBitZero(oldBiu: u32, newBiu: u32, tv: u32)
    ensures TvAfterBiu(oldBiu, newBiu, tv) & 0xFFFF_FFFE == tv & 0xFFFF_FFFE
    ensures EnableToggled(oldBiu, newBiu) ==>
              (TvAfterBiu(oldBiu, newBiu, tv) & 1 == 0 <==> newBiu & 0x800 != 0)
    ensures !EnableToggled(oldBiu, newBiu) ==> TvAfterBiu(oldBiu, newBiu, tv) == tv
  {
    if EnableToggled(oldBiu, newBiu) {
      if newBiu & 0x800 != 0 {
        ClearedBitZero(tv);
      } else {
        SetBitZero(tv);
      }
    }
  }

  lemma ClearedBitZero(tv: u32)
    ensures (tv & 0xFFFF_FFFE) & 1 == 0 && (tv & 0xFFFF_FFFE) & 0xFFFF_FFFE == tv & 0xFFFF_FFFE
  {
  }

  lemma SetBitZero(tv: u32)
    ensures (tv | 1) & 1 == 1 && (tv | 1) & 0xFFFF_FFFE == tv & 0xFFFF_FFFE
  {
  }

  /**
   * Whether JitSetFastmap's loop, stepping A by a page from `address` while
   * A < address + size, visits page `p`: the pages from address >> 16 on,
   * as many as there are steps.
   */
  predicate Covers(address: uint32, size: uint32, p: int)
  {
    address / FastMapPageSize <= p && (p - address / FastMapPageSize) * FastMapPageSize < size
  }

  /** A region of one page at a page boundary covers exactly that page. */
  lemma CoversOnePage(address: uint32, size: uint32, k: nat)
    requires address == k * FastMapPageSize && size == FastMapPageSize
    ensures forall p :: Covers(address, size, p) <==> p == k
  {
    assert address / FastMapPageSize == k;
  }

  /** The step of JitSetFastmap's loop: page j of the walk is page address/P + j. */
  lemma StepPage(address: uint32, j: nat)
    ensures (address + j * FastMapPageSize) / FastMapPageSize == address / FastMapPageSize + j
  {
  }

  /** The globals of jitICache.cpp. */
  class ICacheState {
    var biu: u32
    const lines: array<CacheLine>
    const fastMap: array<Translation>
    const dummyPage: array<u8>

    predicate Valid()
    {
      && lines.Length == ICacheLines && fastMap.Length == FastMapEntries && dummyPage.Length == FastMapPageSize
      && lines as object != fastMap && lines as object != dummyPage && fastMap as object != dummyPage
    }

    /** The static initialisers: everything zero, every FastMap entry null. */
    constructor()
      ensures Valid() && fresh(lines) && fresh(fastMap) && fresh(dummyPage)
      ensures biu == 0
      ensures forall i :: 0 <= i < ICacheLines ==> lines[i] == CacheLine(0, 0)
      ensures forall p :: 0 <= p < FastMapEntries ==> fastMap[p] == Null
    {
      biu := 0;
      lines := new CacheLine[ICacheLines](_ => CacheLine(0, 0));
      fastMap := new Translation[FastMapEntries](_ => Null);
      dummyPage := new u8[FastMapPageSize](_ => 0);
    }

    /**
     * JitSetFastmap: every page the walk from `address` visits points at
     * `region` biased by `address`; other entries are unchanged. The walk
     * runs in 64 bits, so the region must end within the 4 GiB space for
     * its pages to exist in the table.
     */
    method SetFastmap(region: HostRegion, address: uint32, size: uint32)
      requires Valid() && address + size <= 0x1_0000_0000
      modifies fastMap
      ensures forall p :: 0 <= p < FastMapEntries ==>
                fastMap[p] == if Covers(address, size, p) then Biased(region, address) else old(fastMap[p])
    {
      var a: int := address;
      ghost var steps: nat := 0;
      while a < address + size
        invariant a == address + steps * FastMapPageSize
        invariant steps == 0 || (steps - 1) * FastMapPageSize < size
        invariant forall p :: 0 <= p < FastMapEntries ==>
                    fastMap[p] == if address / FastMapPageSize <= p < address / FastMapPageSize + steps
                                  then Biased(region, address) else old(fastMap[p])
      {
        StepPage(address, steps);
        fastMap[a / FastMapPageSize] := Biased(region, address);
        a := a + FastMapPageSize;
        steps := steps + 1;
      }
      forall p | 0 <= p < FastMapEntries
        ensures (address / FastMapPageSize <= p < address / FastMapPageSize + steps) == Covers(address, size, p)
      {
        var j := p - address / FastMapPageSize;
        if 0 <= j < steps {
          assert j * FastMapPageSize <= (steps - 1) * FastMapPageSize;
        } else if j >= steps {
          assert j * FastMapPageSize >= steps * FastMapPageSize;
        }
      }
    }

    /**
     * JitInitICache: FastMap cleared, the dummy page filled with 0xFF, every
     * line's TV set to 3 (invalid) and data to 0, and then every page of
     * the address space pointed at the dummy page.
     */
    method InitICache()
      requires Valid()
      modifies lines, fastMap, dummyPage
      ensures forall i :: 0 <= i < ICacheLines ==> lines[i] == CacheLine(3, 0)
      ensures forall i :: 0 <= i < FastMapPageSize ==> dummyPage[i] == 0xFF
      ensures forall p :: 0 <= p < FastMapEntries ==> fastMap[p] == Biased(DummyPage, p * FastMapPageSize)
    {
      forall p | 0 <= p < fastMap.Length {
        fastMap[p] := Null;
      }
      forall i | 0 <= i < dummyPage.Length {
        dummyPage[i] := 0xFF;
      }
      assert forall p :: 0 <= p < FastMapEntries ==> fastMap[p] == Null;
      var i := 0;
      while i < ICacheLines
        invariant 0 <= i <= ICacheLines
        invariant forall j :: 0 <= j < i ==> lines[j] == CacheLine(3, 0)
        invariant forall p :: 0 <= p < FastMapEntries ==> fastMap[p] == Null
        invariant forall j :: 0 <= j < FastMapPageSize ==> dummyPage[j] == 0xFF
      {
        lines[i] := CacheLine(3, 0);
        i := i + 1;
      }
      var page: nat := 0;
      while page < FastMapEntries
        invariant page <= FastMapEntries
        invariant forall p :: 0 <= p < page ==> fastMap[p] == Biased(DummyPage, p * FastMapPageSize)
        invariant forall p :: page <= p < FastMapEntries ==> fastMap[p] == Null
        invariant forall j :: 0 <= j < ICacheLines ==> lines[j] == CacheLine(3, 0)
        invariant forall j :: 0 <= j < FastMapPageSize ==> dummyPage[j] == 0xFF
      {
        CoversOnePage(page * FastMapPageSize, FastMapPageSize as uint32, page);
        SetFastmap(DummyPage, page * FastMapPageSize, FastMapPageSize as uint32);
        page := page + 1;
      }
    }

    /**
     * JitSetBIU: BIU becomes `val` without bits 0x440; when that turns the
     * I-cache enable bit on, bit 0 of every TV is cleared, when it turns
     * it off, bit 0 of every TV is set. Data words never change.
     */
    method SetBiu(val: u32)
      requires Valid()
      modifies this`biu, lines
      ensures biu == StoredBiu(val)
      ensures forall i :: 0 <= i < ICacheLines ==>
                lines[i] == old(lines[i]).(tv := TvAfterBiu(old(biu), biu, old(lines[i].tv)))
    {
      var oldBiu := biu;
      biu := StoredBiu(val);
      if (biu ^ oldBiu) & 0x800 != 0 {
        var i := 0;
        if biu & 0x800 != 0 {
          while i < ICacheLines
            invariant 0 <= i <= ICacheLines && biu == StoredBiu(val)
            invariant forall j :: 0 <= j < i ==> lines[j] == old(lines[j]).(tv := old(lines[j].tv) & 0xFFFF_FFFE)
            invariant forall j :: i <= j < ICacheLines ==> lines[j] == old(lines[j])
          {
            lines[i] := lines[i].(tv := lines[i].tv & 0xFFFF_FFFE);
            i := i + 1;
          }
        } else {
          while i < ICacheLines
            invariant 0 <= i <= ICacheLines && biu == StoredBiu(val)
            invariant forall j :: 0 <= j < i ==> lines[j] == old(lines[j]).(tv := old(lines[j].tv) | 1)
            invariant forall j :: i <= j < ICacheLines ==> lines[j] == old(lines[j])
          {
            lines[i] := lines[i].(tv := lines[i].tv | 1);
            i := i + 1;
          }
        }
      }
    }
  }
}
