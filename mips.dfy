// jit/MIPS.h: the fake "emuhack" opcodes the recompiler writes over guest
// code, the coprocessor-0 register numbers, and the part of MIPSState the
// recompiler and its helpers touch.
//
// A compiled block is entered through a word 0x68nnnnnn placed at its guest
// address; the low 24 bits are the block's offset in the code area.  Bits
// 24-25 carry a sub-opcode (0 = run block, 2 = call replacement), so every
// emuhack word has a top byte in 0x68..0x6B.
module Mips {
  import opened Words

  const EmuhackOpcode: u32 := 0x6800_0000
  const EmuhackMask: u32 := 0xFC00_0000
  const JitBlockMask: u32 := 0xFF00_0000
  const EmuhackValueMask: u32 := 0x00FF_FFFF
  const EmuopRunBlock: u32 := 0
  const EmuopCallReplacement: u32 := 2

  // Coprocessor-0 register numbers.
  const Cp0Tar: nat := 6
  const Cp0Sr: nat := 12
  const Cp0Cause: nat := 13
  const Cp0Epc: nat := 14

  // VFPU control register numbers.
  const VfpuCtrlSPrefix: nat := 0
  const VfpuCtrlTPrefix: nat := 1
  const VfpuCtrlDPrefix: nat := 2

  /** MIPS_IS_EMUHACK: the top six bits are those of 0x68000000 (the sub-opcode is masked away). */
  predicate IsEmuhack(op: u32) { op & EmuhackMask == EmuhackOpcode }

  /** MIPS_IS_RUNBLOCK: the top byte is exactly 0x68. */
  predicate IsRunBlock(op: u32) { op & JitBlockMask == EmuhackOpcode }

  /** MIPS_IS_REPLACEMENT: the top byte is 0x68 with sub-opcode 2, that is 0x6A. */
  predicate IsReplacement(op: u32) { op & JitBlockMask == EmuhackOpcode | (EmuopCallReplacement << 24) }

  function TopByte(op: u32): u32 { op >> 24 }

  /** The three predicates in terms of the opcode's top byte. */
  lemma EmuhackTopByte(op: u32)
    ensures IsEmuhack(op) <==> 0x68 <= TopByte(op) <= 0x6B
    ensures IsRunBlock(op) <==> TopByte(op) == 0x68
    ensures IsReplacement(op) <==> TopByte(op) == 0x6A
  {
  }

  /** Every run-block word and every replacement word is an emuhack word, and no word is both. */
  lemma EmuhackKinds(op: u32)
    ensures IsRunBlock(op) ==> IsEmuhack(op)
    ensures IsReplacement(op) ==> IsEmuhack(op)
    ensures !(IsRunBlock(op) && IsReplacement(op))
  {
  }

  /** The payload of an emuhack word: the offset of a block, or a replacement index. */
  function EmuhackValue(op: u32): (r: u32)
    ensures r < 0x100_0000
    ensures IsRunBlock(op) ==> op == EmuhackOpcode | r
  {
    op & EmuhackValueMask
  }

  /** The run-block word for a code offset carries that offset back out. */
  lemma RunBlockRoundTrip(offset: u32)
    requires offset < 0x100_0000
    ensures IsRunBlock(EmuhackOpcode | offset)
    ensures EmuhackValue(EmuhackOpcode | offset) == offset
  {
  }

  /** MIPSState::VfpuWriteMask(): bits 8-11 of the destination-prefix control register. */
  function VfpuWriteMask(vfpuCtrl: seq<u32>): (r: u8)
    requires |vfpuCtrl| == 16
    ensures r <= 15
    ensures r as u32 == (vfpuCtrl[VfpuCtrlDPrefix] >> 8) & 0xF
  {
    LowByte32((vfpuCtrl[VfpuCtrlDPrefix] >> 8) & 0xF)
  }

  /** MIPSState::VfpuWriteMask(i): bit 8 + i of the destination-prefix control register. */
  function VfpuWriteMaskBit(vfpuCtrl: seq<u32>, i: nat): bool
    requires |vfpuCtrl| == 16 && i < 24
  {
    (vfpuCtrl[VfpuCtrlDPrefix] >> (8 + i)) & 1 == 1
  }

  /** For the four lanes, the one-lane query reads bit i of the four-bit mask. */
  lemma VfpuWriteMaskLanes(vfpuCtrl: seq<u32>)
    requires |vfpuCtrl| == 16
    ensures VfpuWriteMaskBit(vfpuCtrl, 0) <==> VfpuWriteMask(vfpuCtrl) & 1 != 0
    ensures VfpuWriteMaskBit(vfpuCtrl, 1) <==> VfpuWriteMask(vfpuCtrl) & 2 != 0
    ensures VfpuWriteMaskBit(vfpuCtrl, 2) <==> VfpuWriteMask(vfpuCtrl) & 4 != 0
    ensures VfpuWriteMaskBit(vfpuCtrl, 3) <==> VfpuWriteMask(vfpuCtrl) & 8 != 0
  {
    var d := vfpuCtrl[VfpuCtrlDPrefix];
    var m := VfpuWriteMask(vfpuCtrl);
    assert m as u32 == (d >> 8) & 0xF;
    MaskBits(d, m);
  }

  lemma MaskBits(d: u32, m: u8)
    requires m as u32 == (d >> 8) & 0xF
    ensures (d >> 8) & 1 == 1 <==> m & 1 != 0
    ensures (d >> 9) & 1 == 1 <==> m & 2 != 0
    ensures (d >> 10) & 1 == 1 <==> m & 4 != 0
    ensures (d >> 11) & 1 == 1 <==> m & 8 != 0
  {
  }

  /**
   * The part of MIPSState the recompiler, its exception helper and the
   * timing counter read and write.
   */
  class MipsState {
    var r: seq<u32>
    var cp0: seq<u32>
    var vfpuCtrl: seq<u32>
    var pc: u32
    var fcr31: u32
    var downcount: int32
    var inDelaySlot: bool
    var temp: u32

    ghost predicate Valid()
      reads this
    {
      |r| == 32 && |cp0| == 32 && |vfpuCtrl| == 16
    }
  }
}
