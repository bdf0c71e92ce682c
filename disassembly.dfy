// jit/Debugger/DisassemblyManager.h: the line arithmetic of the debugger's
// disassembly entries and the ordering of branch lines.
//
// The entry kinds are subclasses of DisassemblyEntry in the source; the
// three whose line arithmetic is written out inline (a run of opcodes, a
// macro, a comment) are the constructors of `DisassemblyEntry` here, and
// each virtual getter is a function with one case per kind.  Addresses are
// uint32, line numbers int; the conversions between them wrap modulo 2^32.
module Disassembly {
  import opened Words

  datatype LineType = LineUp | LineDown | LineRight

  datatype BranchLine = BranchLine(first: uint32, second: uint32, lineType: LineType, laneIndex: int)
  {
    /** `<` compares the start address only. */
    predicate Less(other: BranchLine)
    {
      first < other.first
    }
  }

  /** Branch lines are strictly ordered by their start, and lines with the same start are unordered. */
  lemma BranchLineOrder(a: BranchLine, b: BranchLine, c: BranchLine)
    ensures !a.Less(a)
    ensures a.Less(b) && b.Less(c) ==> a.Less(c)
    ensures !a.Less(b) && !b.Less(a) <==> a.first == b.first
  {
  }

  datatype MacroType = MacroLi | MacroMemoryImm

  datatype DisassemblyEntry =
    | Opcode(address: uint32, num: int)
    | Macro(address: uint32, macroType: MacroType, name: string, immediate: uint32,
            numOpcodes: uint32, rt: u8, dataSize: int)
    | Comment(address: uint32, size: uint32, name: string, param: string)
  {
    function NumLines(): int
    {
      match this
      case Opcode(_, num) => num
      case Macro(_, _, _, _, _, _, _) => 1
      case Comment(_, _, _, _) => 1
    }

    /** The line holding `addr`: a run of opcodes has one line per 4-byte word. */
    function LineNum(addr: uint32, findStart: bool): int
    {
      match this
      case Opcode(address, _) => Wrap32(addr - address) / 4
      case Macro(_, _, _, _, _, _, _) => 0
      case Comment(_, _, _, _) => 0
    }

    function LineAddress(line: int): uint32
    {
      match this
      case Opcode(address, _) => Wrap32(address + line * 4)
      case Macro(address, _, _, _, _, _, _) => address
      case Comment(address, _, _, _) => address
    }

    function TotalSize(): uint32
    {
      match this
      case Opcode(_, num) => Wrap32(num * 4)
      case Macro(_, _, _, _, numOpcodes, _, _) => Wrap32(numOpcodes * 4)
      case Comment(_, size, _, _) => size
    }
  }

  /** Line `l` of a run of opcodes is found back from its address, wherever the run starts. */
  lemma OpcodeLineRoundTrip(e: DisassemblyEntry, l: int)
    requires e.Opcode? && 0 <= l < 0x4000_0000
    ensures e.LineNum(e.LineAddress(l), true) == l
    ensures e.LineNum(e.LineAddress(l), false) == l
  {
    var a := e.address;
    var d := Wrap32(a + l * 4) - a;
    assert Wrap32(d) == l * 4 by {
      WrapDifference(a, l * 4);
    }
  }

  lemma WrapDifference(a: uint32, k: nat)
    requires k < 0x1_0000_0000
    ensures Wrap32(Wrap32(a + k) - a) == k
  {
    Wrap32Add(a + k, -(a as int));
    assert a + k + -(a as int) == k;
  }

  /** A run of `num` opcodes is `num` lines, one word apart, spanning 4 * num bytes. */
  lemma OpcodeLines(e: DisassemblyEntry)
    requires e.Opcode? && 0 <= e.num < 0x4000_0000
    ensures e.NumLines() == e.num
    ensures e.TotalSize() == 4 * e.num
    ensures e.LineAddress(0) == e.address
    ensures forall l :: 0 <= l < e.num ==> e.LineAddress(l + 1) == Wrap32(e.LineAddress(l) + 4)
    ensures e.LineAddress(e.num) == Wrap32(e.address + e.TotalSize())
  {
    forall l | 0 <= l < e.num
      ensures e.LineAddress(l + 1) == Wrap32(e.LineAddress(l) + 4)
    {
      Wrap32Add(e.address + l * 4, 4);
    }
  }

  /** A macro or a comment is a single line at its own address. */
  lemma SingleLineEntries(e: DisassemblyEntry, addr: uint32, line: int)
    requires e.Macro? || e.Comment?
    ensures e.NumLines() == 1
    ensures e.LineAddress(line) == e.address
    ensures e.LineNum(addr, true) == 0
    ensures e.Macro? ==> e.TotalSize() == Wrap32(4 * e.numOpcodes)
    ensures e.Comment? ==> e.TotalSize() == e.size
  {
  }
}
