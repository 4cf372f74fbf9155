/** The kinds of trap, told from the registers a trap leaves and from the interrupts it finds.

    The numbers are those of the architecture and of the guest ABI: exception classes, hypercalls and exception
    types are written out here, so that a property of a kind of trap does not depend on how a handler names it. */
module Traps {
  import opened Bits
  import opened Cpu
  import opened Mmio
  import opened SchedulerSpec
  import opened Handlers

  /** A synchronous exception from lower mode with the given class. */
  predicate FromBelow(t: Trap, ec: nat) {
    t.frame.exceptionType == 5 && HsrEc(t.frame.hsr) == ec
  }

  /** HVC #0 with the given call number in r0. */
  predicate IsHvc(t: Trap, call: nat) {
    FromBelow(t, 0x12) && And(HsrIss(t.frame.hsr), 0xffff) == 0 && t.frame.r[0] == call
  }

  predicate IsExit(t: Trap) {
    IsHvc(t, 2)
  }

  predicate IsYield(t: Trap) {
    IsHvc(t, 3)
  }

  /** A delay of some ticks. */
  predicate IsDelay(t: Trap) {
    IsHvc(t, 10) && t.frame.r[1] != 0
  }

  /** WFI; the same class with bit 0 set is WFE. */
  predicate IsWfi(t: Trap) {
    FromBelow(t, 1) && And(HsrIss(t.frame.hsr), 1) == 0
  }

  /** A stage-2 abort, of a fetch or of a load or store. */
  predicate IsAbort(t: Trap) {
    FromBelow(t, 0x20) || FromBelow(t, 0x24)
  }

  /** The generic timer's scheduling tick. */
  predicate IsTick(t: Trap) {
    t.frame.exceptionType == 6 && t.genPending
  }

  /** The interrupt of the BCM timer, which serves the virtual timers. */
  predicate IsTimerTrap(t: Trap) {
    t.frame.exceptionType == 6 && !t.genPending && t.bcmPending
  }

  /** What emulating the access of trap t gives. */
  function Emulated(m: Machine, t: Trap): Mmio.Outcome
    requires m.Shape() && m.sched.cur < |m.uarts|
  {
    HandleFault(t.frame, m.uarts[m.sched.cur], m.line.(rx := m.line.rx + t.received),
                m.sched.vms[m.sched.cur].regions, DecodeFault(t.frame))
  }

  lemma MasksOfIss()
    ensures And(0x1ff_ffff, 0xffff) == 0xffff && And(0x1ff_ffff, 1) == 1
  {
    hide And, Low, Ones;
    ByteMasks();
    Masks();
    AndOnes(0x1ff_ffff, 16);
    AndOnes(0x1ff_ffff, 1);
    Low16(0x1ff_ffff);
    Low1(0x1ff_ffff);
  }

  /** The low bits of a syndrome as digits. */
  lemma SyndromeDigits(hsr: Word)
    ensures HsrEc(hsr) == hsr / 0x400_0000 && HsrIss(hsr) == hsr % 0x200_0000
    ensures And(HsrIss(hsr), 0xffff) == hsr % 0x1_0000 && And(HsrIss(hsr), 1) == hsr % 2
  {
    hide HsrEc, And, Low, Ones, Shl;
    HsrDigits(hsr);
    MasksOfIss();
    ByteMasks();
    Masks();
    AndAnd(hsr, 0x1ff_ffff, 0xffff);
    AndAnd(hsr, 0x1ff_ffff, 1);
    AndOnes(hsr, 16);
    AndOnes(hsr, 1);
    Low16(hsr);
    Low1(hsr);
  }

  /** The kinds of trap in arithmetic on the syndrome. */
  lemma KindsInSyndrome(t: Trap, call: nat)
    ensures IsHvc(t, call) <==> t.frame.exceptionType == 5 && t.frame.r[0] == call &&
                                t.frame.hsr / 0x400_0000 == 0x12 && t.frame.hsr % 0x1_0000 == 0
    ensures IsWfi(t) <==> t.frame.exceptionType == 5 && t.frame.hsr / 0x400_0000 == 1 && t.frame.hsr % 2 == 0
    ensures IsAbort(t) <==> t.frame.exceptionType == 5 && t.frame.hsr / 0x400_0000 in {0x20, 0x24}
  {
    hide HsrEc, HsrIss, And;
    SyndromeDigits(t.frame.hsr);
  }
}
