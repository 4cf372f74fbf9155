/** Aborts and emulated devices at the level of the whole machine. */
module Aborts {
  import opened Wrappers
  import opened Bits
  import opened Cpu
  import opened Regions
  import opened Vuart
  import opened Mmio
  import opened Vcpu
  import opened Virq
  import opened Timers
  import opened SchedulerSpec
  import opened Rescheduling
  import opened Handlers
  import opened Steps
  import opened Traps
  import opened Runs
  import opened Wakeup

  /** f' is f moved on to the instruction after the one that trapped, 4 bytes or 2 as bit 25 of the syndrome says.
      A load (bit 6 clear) has also written the register the syndrome names, a store nothing. */
  ghost predicate RetiredFrame(f: Frame, f': Frame) {
    var next: Word := (f.elr + if f.hsr / 0x200_0000 % 2 == 1 then 4 else 2) % 0x1_0000_0000;
    var (iss, reg) := (f.hsr % 0x200_0000, f.hsr % 0x200_0000 / 0x1_0000 % 0x20);
    if iss / 0x40 % 2 == 1 then f' == f.(elr := next)
    else if reg < 13 then f' == f.(r := f'.r, elr := next) && f'.r == f.r[reg := f'.r[reg]]
    else reg == 14 && f' == f.(lr := f'.lr, elr := next)
  }

  /** The guest goes on after the instruction that trapped, with at most one register loaded, and only its
      own VM's device has changed. */
  ghost predicate Retired(m: Machine, t: Trap, m': Machine)
    requires m.Shape() && m.sched.cur < |m.uarts|
  {
    var cur := m.sched.cur;
    m'.sched.vcpus == m.sched.vcpus && m'.sched.cur == cur && m'.irqCount == m.irqCount &&
    m'.uarts == m.uarts[cur := Emulated(m, t).uart] && m'.sched.cpu.hcr == m.sched.cpu.hcr &&
    m'.sched.cpu.oneShot == m.sched.cpu.oneShot &&
    m'.sched.cpu.banked == t.banked && m'.sched.cpu.vbar == t.vbar && RetiredFrame(t.frame, m'.Frame())
  }

  /** An access can be emulated exactly if it reaches the device, and its register is one the guest has. */
  lemma EmulatedIff(m: Machine, t: Trap)
    requires m.Shape() && m.sched.cur < |m.uarts|
    ensures var reg := t.frame.hsr % 0x200_0000 / 0x1_0000 % 0x20;
      Emulated(m, t).ok <==>
        Reaches(m.sched.vms[m.sched.cur].regions, t.frame) && (reg < 13 || reg == 14)
  {
    hide RequestOf, DecodeFault, Reaches, MaskValue, ReadValue, Vuart.Written, LineAfterRead, LineAfterWrite, FindFrom;
    RequestIs(m.sched.vms[m.sched.cur].regions, t.frame);
  }

  /** Only the guest that trapped is stopped: it is EXITED with its timer off, and no VM's device changed. */
  ghost predicate Stopped(m: Machine, m': Machine)
    requires m.Shape()
  {
    |m'.sched.vcpus| == |m.sched.vcpus| && m'.uarts == m.uarts &&
    m'.line.tx == m.line.tx && m'.irqCount == m.irqCount &&
    m.sched.cur < |m.sched.vcpus| &&
    m'.sched.vcpus[m.sched.cur].state == Exited && m'.sched.vcpus[m.sched.cur].timer == TIMER_OFF &&
    forall i :: 0 <= i < m.sched.Guests() && i != m.sched.cur ==> Became(m.sched.vcpus[i], m'.sched.vcpus[i])
  }

  lemma EmulatedFrame(f: Frame, u: Uart, line: Line, rs: seq<Region>)
    requires HandleFault(f, u, line, rs, DecodeFault(f)).ok
    ensures RetiredFrame(f, HandleFault(f, u, line, rs, DecodeFault(f)).frame.Advanced())
  {
    hide MaskValue, RequestOf, Vuart.Written, ReadValue, DecodeFault, Frame.Advanced;
    RequestIs(rs, f);
    AdvancedIsNext(HandleFault(f, u, line, rs, DecodeFault(f)).frame);
  }

  lemma LocalAbort(m: Machine, t: Trap)
    requires InvM(m) && IsAbort(t) && m.sched.cur < m.sched.Guests()
    ensures var (l, d) := Local(m, t);
      if Emulated(m, t).ok then
        d == Resume && l.uarts == m.uarts[m.sched.cur := Emulated(m, t).uart] && l.irqCount == m.irqCount &&
        l.sched == m.sched.(cpu := m.sched.cpu.(frame := Emulated(m, t).frame.Advanced(),
                                                banked := t.banked, vbar := t.vbar))
      else
        d == ToAdvance && l.uarts == m.uarts && l.line.tx == m.line.tx && l.irqCount == m.irqCount &&
        l.sched.vcpus == m.sched.vcpus[m.sched.cur := m.Current().(timer := TIMER_OFF, state := Exited)]
  {
    hide With, HsrEc, Rearmed, HandleFault, DecodeFault, FlagsOk, NoneRunnable, Frame.Advanced, Virq.Disjoint;
    NotIdle(m.sched);
    var e := Enter(m, t);
    var rs := e.sched.vms[m.sched.cur].regions;
    UnhandledChangesNothing(t.frame, e.uarts[m.sched.cur], e.line, rs, DecodeFault(t.frame));
    var found := Find(rs, DecodeFault(t.frame).ipa);
    if found.None? || !rs[found.value].kind.Mmio? {
      NotMmioUnhandled(t.frame, e.uarts[m.sched.cur], e.line, rs, DecodeFault(t.frame));
    }
    assert m.uarts[m.sched.cur := m.uarts[m.sched.cur]] == m.uarts;
  }

  /** The abort dichotomy: a guest's abort retires one instruction or stops that guest, and which of the two
      depends only on whether the access can be emulated. */
  lemma AbortRetiresOrStops(m: Machine, t: Trap, m': Machine)
    requires InvM(m) && Returns(m, t, m') && IsAbort(t) && m.sched.cur < m.sched.Guests()
    ensures if Emulated(m, t).ok then Retired(m, t, m') else Stopped(m, m')
  {
    hide Local, Possible, HandleFault, DecodeFault, FlagsOk, NoneRunnable, VcpuOk, Covered, Advance, HsrEc, Yield;
    hide EnterIdle, RetiredFrame;
    LocalAbort(m, t);
    StepInv(m, t);
    if Emulated(m, t).ok {
      EmulatedFrame(t.frame, m.uarts[m.sched.cur], m.line.(rx := m.line.rx + t.received),
                    m.sched.vms[m.sched.cur].regions);
    } else {
      OthersUntouched(m, t, m');
    }
  }

  lemma OthersUntouched(m: Machine, t: Trap, m': Machine)
    requires InvM(m) && Returns(m, t, m') && !IsTimerTrap(t)
    ensures |m'.sched.vcpus| == |m.sched.vcpus|
    ensures forall i :: 0 <= i < m.sched.Guests() && i != m.sched.cur ==> Became(m.sched.vcpus[i], m'.sched.vcpus[i])
  {
    hide Became, Local, Step, Possible, FlagsOk, VcpuOk, NoneRunnable;
    StepInv(m, t);
    forall i | 0 <= i < m.sched.Guests() && i != m.sched.cur
      ensures Became(m.sched.vcpus[i], m'.sched.vcpus[i])
    {
      StepOther(m, t, m', i);
    }
  }

  lemma LocalExit(m: Machine, t: Trap)
    requires InvM(m) && m.sched.cur < m.sched.Guests() && Local(m, t).1 != Halt
    requires IsExit(t)
    ensures var (l, d) := Local(m, t);
      d == ToAdvance && l.uarts == m.uarts && l.line.tx == m.line.tx && l.irqCount == m.irqCount &&
      l.sched.vcpus == m.sched.vcpus[m.sched.cur := m.Current().(timer := TIMER_OFF, state := Exited)]
  {
    hide With, HsrEc, HsrIss, And, Rearmed, FlagsOk, NoneRunnable, Virq.Disjoint;
  }

  /** The exit call stops the guest that makes it, and only that guest. */
  lemma ExitStops(m: Machine, t: Trap, m': Machine)
    requires InvM(m) && Returns(m, t, m') && m.sched.cur < m.sched.Guests()
    requires IsExit(t)
    ensures Stopped(m, m')
  {
    hide Local, Possible, HsrEc, FlagsOk, NoneRunnable, VcpuOk, Covered, Advance, Yield, EnterIdle;
    LocalExit(m, t);
    StepInv(m, t);
    OthersUntouched(m, t, m');
  }

  /** The idle vCPU never gets past an abort. */
  lemma IdleAbortHalts(m: Machine, t: Trap)
    requires InvM(m) && IsAbort(t) && m.sched.cur == m.sched.Guests()
    ensures Local(m, t).1 == Halt
  {
    hide With, HsrEc, And, DecodeFault, FlagsOk, NoneRunnable;
    IdleIsLast(m.sched);
  }

  // ----- Devices -----

  /** What a trap sends to the physical UART: the argument of a PUTCHAR call, or a guest's store to its
      emulated data register; one byte at most. */
  function Printed(m: Machine, t: Trap): (bytes: seq<Word>)
    requires m.Shape()
    ensures |bytes| <= 1
  {
    var f := t.frame;
    if IsHvc(t, 5) then [f.r[1] % 0x100]
    else if IsAbort(t) && m.sched.cur < |m.uarts| then
      Sent(m.sched.vms[m.sched.cur].regions, f)
    else []
  }

  lemma AbortPrints(m: Machine, t: Trap)
    requires InvM(m) && IsAbort(t) && GuestAbort(Enter(m, t), t).1 != Halt
    ensures GuestAbort(Enter(m, t), t).0.line.tx == m.line.tx + Printed(m, t)
    ensures GuestAbort(Enter(m, t), t).0.irqCount == m.irqCount
  {
    hide With, HsrEc, Rearmed, DecodeFault, FlagsOk, NoneRunnable, Frame.Advanced, Virq.Disjoint, MaskValue;
    hide ReadValue, Vuart.Written, And32, HandleFault, Sent;
    IdleIsLast(m.sched);
    NotIdle(m.sched);
    var e := Enter(m, t);
    var rs := e.sched.vms[m.sched.cur].regions;
    EmulationSends(t.frame, e.uarts[m.sched.cur], e.line, rs);
    NotMmioSendsNothing(rs, t.frame);
  }

  lemma NotMmioSendsNothing(rs: seq<Region>, f: Frame)
    ensures var found := Find(rs, DecodeFault(f).ipa);
      found.None? || !rs[found.value].kind.Mmio? ==> Sent(rs, f) == []
  {
    hide DecodeFault, FindFrom, FaultIpa;
    DecodeIs(f);
  }

  lemma CallPrints(m: Machine, t: Trap)
    requires m.Shape()
    ensures var (l, f) := (Hypercall(m, t).0, m.Frame());
      l.line.tx == m.line.tx + (if f.r[0] == 5 then [f.r[1] % 0x100] else []) && l.irqCount == m.irqCount
  {
    hide With, ClaimOn, CompleteOn, CompleteResultOf, VcpuVal.Frequency, Rearmed, And32;
    LowByte(m.Frame().r[1]);
    assert m.line.tx + [] == m.line.tx;
  }

  /** Nothing else is printed, and exactly the interrupts are counted. */
  lemma StepPrints(m: Machine, t: Trap)
    requires InvM(m) && Possible(m, t) && Local(m, t).1 != Halt
    ensures Step(m, t).line.tx == m.line.tx + Printed(m, t)
    ensures Step(m, t).irqCount ==
      (m.irqCount + if t.frame.exceptionType == 6 then 1 else 0) % 0x1_0000_0000
  {
    hide With, HsrEc, HsrIss, And, FlagsOk, NoneRunnable, Virq.Disjoint, Rearmed, Delivered, AnyDelivered, GuestAbort;
    hide Decide, Sent, Hypercall, Rearm;
    hide ClaimOn, CompleteOn, CompleteResultOf, VcpuVal.Frequency, Frame.Advanced, RequestOf, MaskValue, And32;
    IdleIsLast(m.sched);
    if IsAbort(t) {
      AbortPrints(m, t);
    } else if Hypercall(Enter(m, t), t).1 != Halt {
      CallPrints(Enter(m, t), t);
    }
  }

  /** A trap changes no other VM's emulated device. */
  lemma StepDevices(m: Machine, t: Trap, vm: nat)
    requires InvM(m) && vm < |m.uarts| && vm != m.sched.cur
    ensures |Step(m, t).uarts| == |m.uarts| && Step(m, t).uarts[vm] == m.uarts[vm]
  {
    hide With, HsrEc, HsrIss, And, HandleFault, DecodeFault, FlagsOk, NoneRunnable, Rearmed, Decide, Delivered;
    hide AnyDelivered;
    hide ClaimOn, CompleteOn, CompleteResultOf, VcpuVal.Frequency, Virq.Disjoint;
    assert VcpuOk(m.Current(), m.sched.cur, m.sched.Guests());
  }

  /** Over whole runs, a VM's device is as its own vCPU left it. */
  lemma {:induction false} DevicesIsolated(ms: seq<Machine>, ts: seq<Trap>, vm: nat, n: nat)
    requires IsRun(ms, ts) && n <= |ts| && vm < |ms[0].uarts|
    requires forall k :: 0 <= k < n ==> ms[k].sched.cur != vm
    ensures vm < |ms[n].uarts| && ms[n].uarts[vm] == ms[0].uarts[vm]
    decreases n
  {
    hide InvM, Local, Step, Possible;
    if n > 0 {
      DevicesIsolated(ms, ts, vm, n - 1);
      RunInv(ms, ts, n - 1);
      assert Returns(ms[n - 1], ts[n - 1], ms[n]);
      StepDevices(ms[n - 1], ts[n - 1], vm);
    }
  }
}
