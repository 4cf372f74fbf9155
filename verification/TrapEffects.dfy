/** What each kind of trap does, told from the trap's own fields: which traps halt, which ask the scheduler for
    another vCPU and what it answers, and what a guest finds when it runs on. */
module TrapEffects {
  import opened Wrappers
  import opened Bits
  import opened Tlb
  import opened Cpu
  import opened Regions
  import opened Mmio
  import opened Vcpu
  import opened Virq
  import opened Timers
  import opened SchedulerSpec
  import opened Rescheduling
  import opened Handlers
  import opened Steps
  import opened Traps
  import opened Runs

  // ----- Which traps halt -----

  /** The traps that some handler deals with; every other stops the machine. */
  predicate IsServed(m: Machine, t: Trap) {
    || IsTick(t)
    || IsTimerTrap(t)
    || (t.frame.exceptionType == 2 && HsrEc(t.frame.hsr) == 0x12)
    || (IsHvc(t, t.frame.r[0]) && t.frame.r[0] in {0, 1, 2, 3, 5, 6, 7, 8, 9, 10, 11})
    || IsWfi(t)
    || (IsAbort(t) && m.sched.cur < m.sched.Guests())
  }

  lemma AbortsHalt(m: Machine, t: Trap)
    requires m.Shape() && VcpusOk(m.sched)
    ensures GuestAbort(m, t).1 == Halt <==> m.sched.cur == m.sched.Guests()
  {
    hide HandleFault, DecodeFault, Stop, Virq.Disjoint;
    assert VcpuOk(m.Current(), m.sched.cur, m.sched.Guests());
  }

  lemma HypercallsHalt(m: Machine, t: Trap)
    requires m.Shape()
    ensures Hypercall(m, t).1 == Halt <==> m.Frame().r[0] !in {0, 1, 2, 3, 5, 6, 7, 8, 9, 10, 11}
  {
    hide With, ClaimOn, CompleteOn, CompleteResultOf, VcpuVal.Frequency, Rearmed, Stop;
  }

  /** The machine halts exactly at the other traps. */
  lemma HaltsIff(m: Machine, t: Trap)
    requires InvM(m) && Possible(m, t)
    ensures Local(m, t).1 == Halt <==> !IsServed(m, t)
  {
    hide HsrEc, HsrIss, And, FlagsOk, NoneRunnable, VcpuOk, Covered, Hypercall, GuestAbort, TimerIrq;
    var e := Enter(m, t);
    HypercallsHalt(e, t);
    AbortsHalt(e, t);
    TimerNeverHalts(e, t);
  }

  lemma TimerNeverHalts(m: Machine, t: Trap)
    requires m.Shape()
    ensures TimerIrq(m, t).1 == if m.Current().IsIdleVcpu() then ToAdvance else Resume
  {
  }

  // ----- Which traps ask the scheduler -----

  /** The traps after which the scheduler chooses who runs: a tick, a timer interrupt of the idle vCPU, and a guest's
      yield, exit, delay, wait with no interrupt pending, or abort that cannot be emulated. */
  predicate Asks(m: Machine, t: Trap)
    requires m.Shape()
  {
    var guest := m.sched.cur < m.sched.Guests();
    || IsTick(t)
    || (IsTimerTrap(t) && !guest)
    || IsYield(t)
    || IsExit(t)
    || IsDelay(t)
    || (IsWfi(t) && guest && m.Current().pending == 0)
    || (IsAbort(t) && guest && !Emulated(m, t).ok)
  }

  lemma HypercallAsks(m: Machine, t: Trap)
    requires m.Shape() && !m.Current().IsIdleVcpu() && Hypercall(m, t).1 != Halt
    ensures var (call, arg) := (m.Frame().r[0], m.Frame().r[1]);
      Hypercall(m, t).1 in {ToAdvance, ToYield} <==> call == 2 || call == 3 || (call == 10 && arg != 0)
  {
    hide With, ClaimOn, CompleteOn, CompleteResultOf, VcpuVal.Frequency, Rearmed, Stop;
  }

  lemma AbortAsks(m: Machine, t: Trap)
    requires InvM(m) && m.sched.cur < m.sched.Guests()
    ensures GuestAbort(Enter(m, t), t).1 == if Emulated(m, t).ok then Resume else ToAdvance
  {
    hide HandleFault, DecodeFault, Stop, FlagsOk, NoneRunnable, Virq.Disjoint;
    NotIdle(m.sched);
    var e := Enter(m, t);
    var rs := e.sched.vms[m.sched.cur].regions;
    var found := Find(rs, DecodeFault(t.frame).ipa);
    if found.None? || !rs[found.value].kind.Mmio? {
      NotMmioUnhandled(t.frame, e.uarts[m.sched.cur], e.line, rs, DecodeFault(t.frame));
    }
  }

  /** The handlers ask the scheduler exactly then. */
  lemma AsksIff(m: Machine, t: Trap)
    requires InvM(m) && Possible(m, t) && Local(m, t).1 != Halt
    ensures Local(m, t).1 in {ToAdvance, ToYield} <==> Asks(m, t)
  {
    hide HsrEc, HsrIss, And, FlagsOk, NoneRunnable, VcpuOk, Covered, Hypercall, GuestAbort, TimerIrq, Emulated;
    IdleIsLast(m.sched);
    var e := Enter(m, t);
    TimerNeverHalts(e, t);
    AbortsHalt(e, t);
    if m.sched.cur < m.sched.Guests() {
      AbortAsks(m, t);
      if Hypercall(e, t).1 != Halt {
        HypercallAsks(e, t);
      }
    }
  }

  // ----- What the scheduler answers -----

  /** Going up from index `from` and round, i comes before `to`. */
  predicate PassedOver(from: nat, i: nat, to: nat) {
    if from < to then from < i < to else i > from || i < to
  }

  /** The vCPU that runs in m' is the nearest ahead of the one that ran in m among the guests that could have been
      given the CPU, and the idle vCPU only if there was none. */
  ghost predicate GoesRound(m: Machine, m': Machine) {
    var (s, s') := (m.sched, m'.sched);
    |s'.vcpus| == |s.vcpus| && s'.cur < |s'.vcpus| && s'.vcpus[s'.cur].state == Running &&
    forall i: nat :: i < s.Guests() && s'.vcpus[i].state == Runnable ==>
      s'.cur < s.Guests() && !PassedOver(s.cur, i, s'.cur)
  }

  lemma DecisionIsNearest(s: Sched, l: Sched, d: Decision)
    requires Prepared(s, l, d) && d in {ToAdvance, ToYield}
    ensures Nearest(l, Decide(l, d)) && Rescheduled(l, Decide(l, d)) && Inv(Decide(l, d))
  {
    hide Ready, FlagsOk, Advance, Yield, EnterIdle, Rescheduled, Nearest;
    if d == ToAdvance {
      AdvanceInv(l);
    } else {
      YieldInv(l);
    }
  }

  lemma NearestGoesRound(l: Sched, s': Sched, i: nat)
    requires l.Shape() && Nearest(l, s') && Rescheduled(l, s')
    requires i < l.Guests() && s'.vcpus[i].state == Runnable
    ensures s'.cur < l.Guests() && !PassedOver(l.cur, i, s'.cur)
  {
    hide RegsOf, SameBut;
    assert Candidate(l, i);
  }

  /** Whenever the scheduler is asked, it goes round: no guest is left runnable nearer ahead. */
  lemma AskedGoesRound(m: Machine, t: Trap, m': Machine)
    requires InvM(m) && Returns(m, t, m') && Asks(m, t)
    ensures GoesRound(m, m')
  {
    hide Local, Asks, Possible, Ready, FlagsOk, Rescheduled, Nearest, NoneRunnable, Decide, PassedOver;
    LocalPrepared(m, t);
    AsksIff(m, t);
    var (l, d) := Local(m, t);
    DecisionIsNearest(m.sched, l.sched, d);
    StepInv(m, t);
    forall i: nat | i < m.sched.Guests() && m'.sched.vcpus[i].state == Runnable
      ensures m'.sched.cur < m.sched.Guests() && !PassedOver(m.sched.cur, i, m'.sched.cur)
    {
      NearestGoesRound(l.sched, m'.sched, i);
    }
  }

  // ----- Ticks and yields -----

  /** The running vCPU has been put back among those that may run and the CPU has gone round; no timer, interrupt,
      device or pending deadline has changed. */
  ghost predicate Preempted(m: Machine, m': Machine) {
    GoesRound(m, m') && m'.uarts == m.uarts && m'.line.tx == m.line.tx &&
    m'.sched.vms == m.sched.vms && m'.sched.cpu.oneShot == m.sched.cpu.oneShot &&
    forall i :: 0 <= i < |m.sched.vcpus| ==>
      var (v, v') := (m.sched.vcpus[i], m'.sched.vcpus[i]);
      v'.timer == v.timer && v'.pending == v.pending && v'.active == v.active && v'.vm == v.vm &&
      v'.state ==
        if i == m'.sched.cur then Running
        else if i != m.sched.cur then v.state
        else if i == m.sched.Guests() then Idle
        else Runnable
  }

  /** Moving the CPU on, with nothing else changed since m. */
  lemma MovedOn(m: Machine, l: Sched, m': Machine)
    requires InvM(m) && GoesRound(m, m') && Rescheduled(l, m'.sched)
    requires l.vcpus == m.sched.vcpus && l.cur == m.sched.cur && l.vms == m.sched.vms
    requires l.cpu.oneShot == m.sched.cpu.oneShot && m'.uarts == m.uarts && m'.line.tx == m.line.tx
    ensures Preempted(m, m')
  {
    hide GoesRound, FlagsOk, NoneRunnable, RegsOf, Virq.Disjoint;
    IdleIsLast(m.sched);
    forall i | 0 <= i < |m.sched.vcpus|
      ensures SameBut(m.sched.vcpus[i], m'.sched.vcpus[i])
    {
    }
  }

  lemma LocalTick(m: Machine, t: Trap)
    requires m.Shape() && IsTick(t)
    ensures Local(m, t) == (Enter(m, t).Counted(), ToAdvance)
  {
  }

  /** A generic-timer tick never halts. It is counted, and it takes the CPU from whoever has it: the next guest in
      order runs, if any may. */
  lemma TickReschedules(m: Machine, t: Trap)
    requires InvM(m) && IsTick(t)
    ensures Returns(m, t, Step(m, t)) && Preempted(m, Step(m, t))
    ensures Step(m, t).irqCount == (m.irqCount + 1) % 0x1_0000_0000
  {
    hide Local, GoesRound, Inv, Prepared, Preempted, Decide, Rescheduled, Asks;
    LocalTick(m, t);
    StepInv(m, t);
    TickAsks(m, t);
    AskedGoesRound(m, t, Step(m, t));
    MovedOn(m, Enter(m, t).sched, Step(m, t));
  }

  lemma TickAsks(m: Machine, t: Trap)
    requires m.Shape() && (IsTick(t) || IsYield(t))
    ensures Asks(m, t)
  {
    hide IsTick, IsYield, HsrEc, HsrIss, And, Emulated;
  }

  lemma LocalYield(m: Machine, t: Trap)
    requires m.Shape() && IsYield(t)
    ensures Local(m, t) == (Enter(m, t), ToYield)
  {
    hide HsrEc, HsrIss, And;
  }

  /** A guest's yield does the same, uncounted. */
  lemma YieldReschedules(m: Machine, t: Trap)
    requires InvM(m) && IsYield(t) && m.sched.cur < m.sched.Guests()
    ensures Returns(m, t, Step(m, t)) && Preempted(m, Step(m, t))
    ensures Step(m, t).irqCount == m.irqCount
  {
    hide Local, GoesRound, Ready, FlagsOk, NoneRunnable, Prepared, Preempted, Decide, Rescheduled, Asks, IsYield;
    LocalYield(m, t);
    NotIdle(m.sched);
    StepInv(m, t);
    TickAsks(m, t);
    AskedGoesRound(m, t, Step(m, t));
    MovedOn(m, Enter(m, t).sched, Step(m, t));
  }

  // ----- WFI -----

  /** What WFI leaves of the guest that executes it: past the WFI, with its timer and interrupts as they were. It
      blocks exactly if no interrupt is pending; otherwise it runs on with its virtual interrupt signalled (HCR.VI,
      bit 7), and no vCPU has changed. */
  ghost predicate WaitedOn(m: Machine, t: Trap, m': Machine)
    requires m.Shape()
  {
    var (cur, f) := (m.sched.cur, t.frame);
    |m'.sched.vcpus| == |m.sched.vcpus| &&
    var (v, v') := (m.Current(), m'.sched.vcpus[cur]);
    v'.timer == v.timer && v'.pending == v.pending && v'.active == v.active &&
    RegsOf(m'.sched, cur) ==
      Registers(f.(elr := (f.elr + if f.hsr / 0x200_0000 % 2 == 1 then 4 else 2) % 0x1_0000_0000), t.banked, t.vbar) &&
    (v'.state == Blocked <==> v.pending == 0) &&
    (v.pending != 0 ==>
      m'.sched.cur == cur && v'.state == Running && m'.sched.vcpus == m.sched.vcpus && BitAt(m'.sched.cpu.hcr, 7)) &&
    m'.uarts == m.uarts && m'.line.tx == m.line.tx && m'.irqCount == m.irqCount &&
    m'.sched.cpu.oneShot == m.sched.cpu.oneShot
  }

  lemma LocalWfi(m: Machine, t: Trap)
    requires InvM(m) && IsWfi(t) && m.sched.cur < m.sched.Guests()
    ensures var ((l, d), v) := (Local(m, t), m.Current());
      d == (if v.pending == 0 then ToAdvance else Resume) &&
      l.sched.vcpus == (if v.pending == 0 then m.sched.vcpus[m.sched.cur := v.(state := Blocked)] else m.sched.vcpus) &&
      l.sched.cpu.oneShot == m.sched.cpu.oneShot && l.uarts == m.uarts && l.line.tx == m.line.tx &&
      l.irqCount == m.irqCount
  {
    hide With, HsrEc, HsrIss, And, FlagsOk, NoneRunnable, Virq.Disjoint, Frame.Advanced;
    NotIdle(m.sched);
  }

  lemma WfiWaits(m: Machine, t: Trap, m': Machine)
    requires InvM(m) && Returns(m, t, m') && IsWfi(t) && m.sched.cur < m.sched.Guests()
    ensures WaitedOn(m, t, m')
  {
    hide Local, Possible, NoneRunnable, VcpuOk, Covered, Decide, HsrEc, HsrIss, And, BitAt, Has;
    LocalWfi(m, t);
    StepInv(m, t);
    WfiRegs(m, t);
    if m.Current().pending != 0 {
      FlagsAreBits(m'.sched.cpu.hcr);
    }
  }

  lemma WfiRegs(m: Machine, t: Trap)
    requires InvM(m) && Possible(m, t) && Local(m, t).1 != Halt && IsWfi(t) && m.sched.cur < m.sched.Guests()
    ensures |Step(m, t).sched.vcpus| == |m.sched.vcpus|
    ensures RegsOf(Step(m, t).sched, m.sched.cur) ==
      Registers(t.frame.(elr := NextInstruction(t.frame)), t.banked, t.vbar)
  {
    hide Local, Possible, FlagsOk, Ready, NoneRunnable, Step, HsrEc, HsrIss, And, RegsOf, NextInstruction;
    NotIdle(m.sched);
    StepRegs(m, t, m.sched.cur);
  }
}
