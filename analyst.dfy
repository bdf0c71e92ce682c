// jit/MIPSAnalyst.h: the per-register usage record the analyser fills in
// while it scans a block (first/last instruction address of each kind of
// access, and how many there were).
//
// The fields are C++ `int`s that receive a `uint32` address, so an address
// with bit 31 set is stored as a negative number; `AsInt32` models that
// conversion.  -1 means "not seen yet".  The counters are kept as
// unbounded integers (an `int` overflow would be undefined behaviour in the
// source, and a block has far fewer than 2^31 instructions).
module Analyst {
  import opened Words

  /** The int32 value of the 32 bits of `x` (two's complement). */
  function AsInt32(x: u32): (r: int32)
    ensures r >= 0 <==> x as int < 0x8000_0000
    ensures Wrap32(r) == x as int
  {
    Wrap32Identity(x as int);
    WrapS32Residue(x as int);
    WrapS32(x as int)
  }

  class RegisterAnalysisResults {
    var used: bool
    var firstRead: int
    var lastRead: int
    var firstWrite: int
    var lastWrite: int
    var firstReadAsAddr: int
    var lastReadAsAddr: int
    var readCount: int
    var writeCount: int
    var readAsAddrCount: int

    /** Every counted access marked the register as used, and no counter is negative. */
    ghost predicate Valid()
      reads this
    {
      readCount >= 0 && writeCount >= 0 && readAsAddrCount >= 0 &&
      (readCount + writeCount + readAsAddrCount > 0 ==> used)
    }

    /** Reads of either kind. */
    function TotalReadCount(): (n: int)
      reads this
      ensures Valid() ==> n >= readCount && n >= readAsAddrCount
      ensures n - readAsAddrCount == readCount
    {
      readCount + readAsAddrCount
    }

    /** The earlier of the first plain read and the first read as an address. */
    function FirstRead(): (r: int)
      reads this
      ensures r <= firstRead && r <= firstReadAsAddr
      ensures r == firstRead || r == firstReadAsAddr
    {
      if firstReadAsAddr < firstRead then firstReadAsAddr else firstRead
    }

    /** The later of the last plain read and the last read as an address. */
    function LastRead(): (r: int)
      reads this
      ensures r >= lastRead && r >= lastReadAsAddr
      ensures r == lastRead || r == lastReadAsAddr
    {
      if lastReadAsAddr > lastRead then lastReadAsAddr else lastRead
    }

    method MarkRead(addr: u32)
      requires Valid()
      modifies this
      ensures Valid() && used
      ensures firstRead == (if old(firstRead) == -1 then AsInt32(addr) else old(firstRead))
      ensures lastRead == AsInt32(addr)
      ensures readCount == old(readCount) + 1
      ensures firstWrite == old(firstWrite) && lastWrite == old(lastWrite) && writeCount == old(writeCount)
      ensures firstReadAsAddr == old(firstReadAsAddr) && lastReadAsAddr == old(lastReadAsAddr)
      ensures readAsAddrCount == old(readAsAddrCount)
    {
      if firstRead == -1 {
        firstRead := AsInt32(addr);
      }
      lastRead := AsInt32(addr);
      readCount := readCount + 1;
      used := true;
    }

    method MarkReadAsAddr(addr: u32)
      requires Valid()
      modifies this
      ensures Valid() && used
      ensures firstReadAsAddr == (if old(firstReadAsAddr) == -1 then AsInt32(addr) else old(firstReadAsAddr))
      ensures lastReadAsAddr == AsInt32(addr)
      ensures readAsAddrCount == old(readAsAddrCount) + 1
      ensures firstRead == old(firstRead) && lastRead == old(lastRead) && readCount == old(readCount)
      ensures firstWrite == old(firstWrite) && lastWrite == old(lastWrite) && writeCount == old(writeCount)
    {
      if firstReadAsAddr == -1 {
        firstReadAsAddr := AsInt32(addr);
      }
      lastReadAsAddr := AsInt32(addr);
      readAsAddrCount := readAsAddrCount + 1;
      used := true;
    }

    method MarkWrite(addr: u32)
      requires Valid()
      modifies this
      ensures Valid() && used
      ensures firstWrite == (if old(firstWrite) == -1 then AsInt32(addr) else old(firstWrite))
      ensures lastWrite == AsInt32(addr)
      ensures writeCount == old(writeCount) + 1
      ensures firstRead == old(firstRead) && lastRead == old(lastRead) && readCount == old(readCount)
      ensures firstReadAsAddr == old(firstReadAsAddr) && lastReadAsAddr == old(lastReadAsAddr)
      ensures readAsAddrCount == old(readAsAddrCount)
    {
      if firstWrite == -1 {
        firstWrite := AsInt32(addr);
      }
      lastWrite := AsInt32(addr);
      writeCount := writeCount + 1;
      used := true;
    }
  }
}
