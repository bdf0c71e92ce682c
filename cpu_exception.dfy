// jit/x86/CompCP.cpp: coprocessor-0 moves and CPU exception entry.
//
// The recompiler emits host code for the moves; what is modelled is the
// effect of that code on the guest state when it runs.  The register
// fields rt (bits 16-20) and rd (bits 11-15) follow the MIPS instruction
// encoding (jit/MIPSCodeUtils.h is not part of this model).
module CpuException {
  import opened Words
  import opened Mips
  import Asm

  /** Bits 21-25 of a COP0 instruction: which move it is. */
  function Cp0Type(op: u32): (r: u32)
    ensures r < 32
    ensures r == (op >> 21) & 0x1F
  {
    (op & 0x03E0_0000) >> 21
  }

  function Rt(op: u32): (r: nat)
    ensures r < 32
  {
    ((op >> 16) & 0x1F) as nat
  }

  function Rd(op: u32): (r: nat)
    ensures r < 32
  {
    ((op >> 11) & 0x1F) as nat
  }

  datatype Cp0Move =
    | MoveFrom      // MFC0: CP0 register rd to GPR rt
    | ControlFrom   // CFC0: the same copy
    | MoveTo        // MTC0: GPR rt to CP0 register rd
    | ControlTo     // CTC0: the same copy
    | Unknown       // anything else is only logged

  /** The switch of Comp_Cp0. */
  function DecodeCp0(op: u32): Cp0Move
  {
    match Cp0Type(op)
    case 0 => MoveFrom
    case 2 => ControlFrom
    case 4 => MoveTo
    case 6 => ControlTo
    case _ => Unknown
  }

  /**
   * The move is chosen by bits 21-25 alone, copies towards the CPU exactly
   * for the values 0 and 2, towards CP0 exactly for 4 and 6, and every
   * other value of the field is unknown.
   */
  lemma DecodeCp0Field(op: u32)
    ensures DecodeCp0(op) in {MoveFrom, ControlFrom} <==> (op >> 21) & 0x1F in {0, 2}
    ensures DecodeCp0(op) in {MoveTo, ControlTo} <==> (op >> 21) & 0x1F in {4, 6}
    ensures DecodeCp0(op) == Unknown <==> (op >> 21) & 0x1F !in {0, 2, 4, 6}
  {
  }

  /** Two instructions that agree on bits 21-25 decode alike, whatever their other bits. */
  lemma DecodeCp0OnlyType(op: u32, other: u32)
    requires (op >> 21) & 0x1F == (other >> 21) & 0x1F
    ensures DecodeCp0(op) == DecodeCp0(other)
  {
  }

  /**
   * The effect of the code Comp_Cp0 emits: MF0 and CF0 copy CP0 register
   * rd into GPR rt, MT0 and CT0 copy GPR rt into CP0 register rd, and an
   * unknown move changes nothing.
   */
  method CompCp0(s: MipsState, op: u32)
    requires s.Valid()
    modifies s`r, s`cp0
    ensures s.Valid()
    ensures DecodeCp0(op) in {MoveFrom, ControlFrom} ==>
              s.r == old(s.r)[Rt(op) := old(s.cp0)[Rd(op)]] && s.cp0 == old(s.cp0)
    ensures DecodeCp0(op) in {MoveTo, ControlTo} ==>
              s.cp0 == old(s.cp0)[Rd(op) := old(s.r)[Rt(op)]] && s.r == old(s.r)
    ensures DecodeCp0(op) == Unknown ==> s.r == old(s.r) && s.cp0 == old(s.cp0)
  {
    match DecodeCp0(op)
    case MoveFrom => MoveFromCp0(s, op);
    case ControlFrom => MoveFromCp0(s, op);
    case MoveTo => MoveToCp0(s, op);
    case ControlTo => MoveToCp0(s, op);
    case Unknown =>
  }

  /** JitComp_MF0 / JitComp_CF0. */
  method MoveFromCp0(s: MipsState, op: u32)
    requires s.Valid()
    modifies s`r
    ensures s.Valid()
    ensures s.r == old(s.r)[Rt(op) := s.cp0[Rd(op)]]
  {
    s.r := s.r[Rt(op) := s.cp0[Rd(op)]];
  }

  /** JitComp_MT0 / JitComp_CT0. */
  method MoveToCp0(s: MipsState, op: u32)
    requires s.Valid()
    modifies s`cp0
    ensures s.Valid()
    ensures s.cp0 == old(s.cp0)[Rd(op) := s.r[Rt(op)]]
  {
    s.cp0 := s.cp0[Rd(op) := s.r[Rt(op)]];
  }

  // ---------------------------------------------------------------- exception entry

  const BevBit: u32 := 0x40_0000   // SR bit 22: exception vectors in the BIOS
  const GeneralVector: u32 := 0x8000_0080
  const BootVector: u32 := 0xBFC0_0180

  /** The handler Exception_Helper returns for a status register. */
  function Handler(sr: u32): u32
  {
    if sr & BevBit != 0 then BootVector else GeneralVector
  }

  /** The status register with the interrupt-enable / kernel-mode stack pushed. */
  function PushedSr(sr: u32): u32
  {
    (sr & !0x3F) | ((sr << 2) & 0x3F)
  }

  /** The cause register after an exception with `code`. */
  function EnteredCause(cause: u32, code: u32, inDelaySlot: bool): u32
  {
    var slot: u32 := if inDelaySlot then 1 else 0;
    ((((cause & 0x0000_FF00) | (code << 2)) | (slot << 31)) | (slot << 30))
  }

  /** The CP0 registers after Exception_Helper(code, pc, inDelaySlot). */
  function EnteredCp0(cp0: seq<u32>, code: u32, pc: u32, inDelaySlot: bool): (r: seq<u32>)
    requires |cp0| == 32
    ensures |r| == 32
  {
    var epc := if inDelaySlot then pc - 4 else pc;
    var tar := if inDelaySlot then pc else cp0[Cp0Tar];
    cp0[Cp0Epc := epc][Cp0Tar := tar][Cp0Sr := PushedSr(cp0[Cp0Sr])]
       [Cp0Cause := EnteredCause(cp0[Cp0Cause], code, inDelaySlot)]
  }

  /** The handler is the BIOS vector exactly when BEV is set, and the RAM vector otherwise. */
  lemma HandlerVector(sr: u32)
    ensures Handler(sr) == BootVector <==> (sr >> 22) & 1 == 1
    ensures Handler(sr) == GeneralVector <==> (sr >> 22) & 1 == 0
  {
  }

  /**
   * The return address is the faulting instruction, or the branch before it
   * when the fault is in a delay slot (so that the branch runs again); TAR
   * then records the faulting instruction and is otherwise kept.  Only EPC,
   * TAR, SR and CAUSE change.
   */
  lemma EnteredReturnAddress(cp0: seq<u32>, code: u32, pc: u32, inDelaySlot: bool)
    requires |cp0| == 32
    ensures inDelaySlot ==> EnteredCp0(cp0, code, pc, inDelaySlot)[Cp0Epc] + 4 == pc
    ensures !inDelaySlot ==> EnteredCp0(cp0, code, pc, inDelaySlot)[Cp0Epc] == pc
    ensures EnteredCp0(cp0, code, pc, inDelaySlot)[Cp0Tar] == if inDelaySlot then pc else cp0[Cp0Tar]
    ensures forall i :: 0 <= i < 32 && i !in {Cp0Epc, Cp0Tar, Cp0Sr, Cp0Cause} ==>
              EnteredCp0(cp0, code, pc, inDelaySlot)[i] == cp0[i]
  {
  }

  /**
   * The status push: the current and previous interrupt-enable / kernel-mode
   * pairs (bits 0-1 and 2-3) move up one place, the new current pair is 0
   * (interrupts off, kernel mode), and bits 6-31 are kept.
   */
  lemma PushedSrStack(sr: u32)
    ensures PushedSr(sr) & 0x3 == 0
    ensures (PushedSr(sr) >> 2) & 0x3 == sr & 0x3
    ensures (PushedSr(sr) >> 4) & 0x3 == (sr >> 2) & 0x3
    ensures PushedSr(sr) >> 6 == sr >> 6
  {
  }

  /**
   * For an exception code (0-31) the cause register holds the code in bits
   * 2-6, keeps the pending-interrupt bits 8-15, has bits 30 and 31 set
   * exactly when the fault is in a delay slot, and has every other bit
   * clear.
   */
  lemma EnteredCauseFields(cause: u32, code: u32, inDelaySlot: bool)
    requires code < 32
    ensures (EnteredCause(cause, code, inDelaySlot) >> 2) & 0x1F == code
    ensures EnteredCause(cause, code, inDelaySlot) & 0xFF00 == cause & 0xFF00
    ensures EnteredCause(cause, code, inDelaySlot) >> 31 == 1 <==> inDelaySlot
    ensures (EnteredCause(cause, code, inDelaySlot) >> 30) & 1 == 1 <==> inDelaySlot
    ensures EnteredCause(cause, code, inDelaySlot) & 0x3FFF_0083 == 0
  {
  }

  /**
   * Exception_Helper: enters the exception on the CP0 registers and returns
   * the handler chosen by the status register as it was on entry.
   */
  method ExceptionHelper(s: MipsState, code: u32, pc: u32, inDelaySlot: bool) returns (handler: u32)
    requires s.Valid()
    modifies s`cp0
    ensures s.Valid()
    ensures handler == Handler(old(s.cp0)[Cp0Sr])
    ensures s.cp0 == EnteredCp0(old(s.cp0), code, pc, inDelaySlot)
  {
    handler := GeneralVector;
    if s.cp0[Cp0Sr] & BevBit != 0 {
      handler := BootVector;
    }
    var epc := pc;
    var tar := s.cp0[Cp0Tar];
    if inDelaySlot {
      epc := epc - 4;
      tar := pc;
    }
    var sr := PushedSr(s.cp0[Cp0Sr]);
    var cause := EnteredCause(s.cp0[Cp0Cause], code, inDelaySlot);
    // EPC, TAR, SR and CAUSE are distinct registers, so the four stores
    // can be made at once.
    s.cp0 := s.cp0[Cp0Epc := epc][Cp0Tar := tar][Cp0Sr := sr][Cp0Cause := cause];
  }

  /**
   * The code JitComp_Exception emits: call the helper with the compiler's
   * PC and delay-slot flag, set pc to the handler it returns, and leave the
   * block through the outer loop of the dispatcher with the downcount
   * untouched.
   */
  method CompException(s: MipsState, code: u32, compilerPc: u32, inDelaySlot: bool) returns (exit: Asm.Reentry)
    requires s.Valid()
    modifies s`cp0, s`pc
    ensures s.Valid()
    ensures s.pc == Handler(old(s.cp0)[Cp0Sr])
    ensures s.cp0 == EnteredCp0(old(s.cp0), code, compilerPc, inDelaySlot)
    ensures exit == Asm.ToOuterLoop
  {
    var handler := ExceptionHelper(s, code, compilerPc, inDelaySlot);
    s.pc := handler;
    exit := Asm.ToOuterLoop;
  }
}
