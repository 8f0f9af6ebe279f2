/**
 * Interrupt priorities on the Cortex-M (irq_priority of the V1 startup
 * code).  Each 32-bit priority register holds four one-byte priorities:
 * external interrupt irq >= 0 owns byte irq & 3 of NVIC_IPR[irq >> 2], and
 * system exception irq < 0 owns byte irq & 3 of SCB_SHPR[(irq + 12) >> 2].
 *
 * irq_priority passes `irq & 0x3` as the unparenthesised byte argument of
 * SET_BYTE, so the macro expands to masks `(0xff << 8*irq) & 0x3` rather
 * than `0xff << 8*(irq & 0x3)`.  IrqPriorityAsWritten models that
 * expansion; IrqPriority is the evidently intended update.
 */
module Nvic {
  import opened Bits

  /** The priority registers: SCB_SHPR (SHPR1 .. SHPR3) and NVIC_IPR (32 interrupts, 8 words). */
  datatype PriorityRegs = PriorityRegs(shpr: seq<Word>, ipr: seq<Word>)

  predicate Valid(regs: PriorityRegs)
  {
    |regs.shpr| == 3 && |regs.ipr| == 8
  }

  /** System exceptions -12 .. -1 (SHPR1 .. SHPR3) and external interrupts 0 .. 31. */
  predicate ValidIrq(irq: int)
  {
    -12 <= irq < 32
  }

  /** The register index: (irq + 12) >> 2 in SCB_SHPR, irq >> 2 in NVIC_IPR. */
  function RegIndex(irq: int): (j: nat)
    requires ValidIrq(irq)
    ensures irq < 0 ==> j < 3
    ensures irq >= 0 ==> j < 8
  {
    if irq < 0 then (irq + 12) / 4 else irq / 4
  }

  /** irq & 0x3 on a two's-complement int: the byte of the register. */
  function ByteIndex(irq: int): (n: nat)
    ensures n < 4
  {
    irq % 4
  }

  /** The register an interrupt's priority lives in. */
  function RegOf(regs: PriorityRegs, irq: int): Word
    requires Valid(regs) && ValidIrq(irq)
  {
    if irq < 0 then regs.shpr[RegIndex(irq)] else regs.ipr[RegIndex(irq)]
  }

  /** The priority byte of an interrupt. */
  function PriorityOf(regs: PriorityRegs, irq: int): Word
    requires Valid(regs) && ValidIrq(irq)
  {
    GetByte(RegOf(regs, irq), ByteIndex(irq))
  }

  /** Replaces the register of irq by w. */
  function WriteReg(regs: PriorityRegs, irq: int, w: Word): (r: PriorityRegs)
    requires Valid(regs) && ValidIrq(irq)
    ensures Valid(r)
  {
    if irq < 0 then regs.(shpr := regs.shpr[RegIndex(irq) := w])
    else regs.(ipr := regs.ipr[RegIndex(irq) := w])
  }

  // ---------------------------------------------------------------------
  // The intended update

  /** irq_priority(irq, prio) as its comment describes it: SET_BYTE(reg, (irq & 0x3), prio). */
  function IrqPriority(regs: PriorityRegs, irq: int, prio: Word): (r: PriorityRegs)
    requires Valid(regs) && ValidIrq(irq)
    ensures Valid(r)
  {
    WriteReg(regs, irq, SetByte(RegOf(regs, irq), ByteIndex(irq), prio))
  }

  /** Two interrupts share a priority byte only if they are the same interrupt. */
  lemma PriorityBytesDistinct(irq: int, other: int)
    requires ValidIrq(irq) && ValidIrq(other) && irq != other
    requires (irq < 0) == (other < 0) && RegIndex(irq) == RegIndex(other)
    ensures ByteIndex(irq) != ByteIndex(other)
  {
  }

  /** After irq_priority, the interrupt's priority reads back as prio & 0xff. */
  lemma IrqPrioritySets(regs: PriorityRegs, irq: int, prio: Word)
    requires Valid(regs) && ValidIrq(irq)
    ensures PriorityOf(IrqPriority(regs, irq, prio), irq) == And(prio, ByteMask())
  {
    GetSetByte(RegOf(regs, irq), ByteIndex(irq), prio);
  }

  /** irq_priority leaves the priority of every other interrupt unchanged. */
  lemma IrqPriorityFrame(regs: PriorityRegs, irq: int, prio: Word, other: int)
    requires Valid(regs) && ValidIrq(irq) && ValidIrq(other) && other != irq
    ensures PriorityOf(IrqPriority(regs, irq, prio), other) == PriorityOf(regs, other)
  {
    var r := IrqPriority(regs, irq, prio);
    if (irq < 0) == (other < 0) && RegIndex(irq) == RegIndex(other) {
      PriorityBytesDistinct(irq, other);
      GetSetByte(RegOf(regs, irq), ByteIndex(irq), prio);
      assert RegOf(r, other) == SetByte(RegOf(regs, irq), ByteIndex(irq), prio);
    } else {
      assert RegOf(r, other) == RegOf(regs, other);
    }
  }

  // ---------------------------------------------------------------------
  // The code as written

  /** 0x3 */
  function LowTwo(): Word { seq(32, i => i < 2) }

  /**
   * The amount a register-held shift by n moves: the Cortex-M LSL takes the
   * bottom byte of the register, and any amount of 32 or more gives 0 (C
   * leaves such shifts undefined).
   */
  function ShiftAmount(n: int): (s: nat)
    ensures s < 256
  {
    n % 256
  }

  /**
   * The expansion of SET_BYTE(reg, irq & 0x3, v):
   * (reg & ~(0xff << 8*irq & 0x3)) | ((v & 0xff) << 8*irq & 0x3).
   */
  function SetByteAtCall(reg: Word, irq: int, v: Word): Word
  {
    var s := ShiftAmount(8 * irq);
    Or(And(reg, Not(And(Shl(ByteMask(), s), LowTwo()))), And(Shl(And(v, ByteMask()), s), LowTwo()))
  }

  /** irq_priority(irq, prio) with SET_BYTE expanded textually. */
  function IrqPriorityAsWritten(regs: PriorityRegs, irq: int, prio: Word): (r: PriorityRegs)
    requires Valid(regs) && ValidIrq(irq)
    ensures Valid(r)
  {
    WriteReg(regs, irq, SetByteAtCall(RegOf(regs, irq), irq, prio))
  }

  /** For every interrupt but 0 the expanded masks are empty, so the register keeps its value. */
  lemma SetByteAtCallNoop(reg: Word, irq: int, v: Word)
    requires ValidIrq(irq) && irq != 0
    ensures SetByteAtCall(reg, irq, v) == reg
  {
    var s := ShiftAmount(8 * irq);
    assert s >= 8;
    var w := SetByteAtCall(reg, irq, v);
    forall i | 0 <= i < 32 ensures w[i] == reg[i] {
    }
  }

  /** For interrupt 0, only bits 0 and 1 of the register are written, with bits 0 and 1 of prio. */
  lemma SetByteAtCallZero(reg: Word, v: Word)
    ensures var w := SetByteAtCall(reg, 0, v);
      (forall i :: 2 <= i < 32 ==> w[i] == reg[i]) && w[0] == v[0] && w[1] == v[1]
  {
  }

  /** As written, irq_priority changes no register at all for any interrupt other than 0. */
  lemma AsWrittenNoop(regs: PriorityRegs, irq: int, prio: Word)
    requires Valid(regs) && ValidIrq(irq) && irq != 0
    ensures IrqPriorityAsWritten(regs, irq, prio) == regs
  {
    SetByteAtCallNoop(RegOf(regs, irq), irq, prio);
  }

  /**
   * A concrete input: with all registers 0, irq_priority(1, 0xc0) as
   * written leaves the priority of interrupt 1 at 0, while the intended
   * update sets it to 0xc0.
   */
  lemma AsWrittenCounterexample()
    ensures var regs := PriorityRegs(seq(3, _ => Zero()), seq(8, _ => Zero()));
      var prio := Lit(0xc0);
      && PriorityOf(IrqPriorityAsWritten(regs, 1, prio), 1) == Zero()
      && PriorityOf(IrqPriority(regs, 1, prio), 1) != Zero()
  {
    var regs := PriorityRegs(seq(3, _ => Zero()), seq(8, _ => Zero()));
    var prio := Lit(0xc0);
    AsWrittenNoop(regs, 1, prio);
    assert GetByte(Zero(), 1) == Zero();
    IrqPrioritySets(regs, 1, prio);
    assert And(prio, ByteMask())[7];
  }
}
