/** Every trap that returns keeps the scheduler's invariant. */
module Steps {
  import opened Wrappers
  import opened Bits
  import opened Tlb
  import opened Cpu
  import opened Mmio
  import opened Vcpu
  import opened Virq
  import opened Timers
  import opened SchedulerSpec
  import opened Rescheduling
  import opened Handlers

  /** The idle vCPU runs two instructions, WFI and a branch (idle-vcpu.S): it makes no hypercall. */
  predicate Possible(m: Machine, t: Trap)
    requires m.Shape()
  {
    t.frame.exceptionType == EXCEPTION_LOWER_SYNC && HsrEc(t.frame.hsr) == EC_HVC_A32 ==> !m.Current().IsIdleVcpu()
  }

  ghost predicate InvM(m: Machine) {
    m.Shape() && Inv(m.sched)
  }

  /** What a handler leaves when it decides d: s is the scheduler it started from, l what it left. */
  ghost predicate Prepared(s: Sched, l: Sched, d: Decision) {
    l.cur == s.cur && l.vms == s.vms && |l.vcpus| == |s.vcpus| && Ready(l) &&
    (d == Resume ==> Inv(l)) &&
    (d == ToYield ==> Inv(l) && l.cur < l.Guests()) &&
    (d == ToIdle ==> l.cur == l.Guests() && NoneRunnable(l.vcpus))
  }

  lemma FramePrepared(s: Sched, cpu: CpuVal)
    requires Inv(s)
    requires cpu == s.cpu.(frame := cpu.frame, banked := cpu.banked, vbar := cpu.vbar)
    ensures Prepared(s, s.(cpu := cpu), Resume)
  {
    hide With, Has, VcpuOk;
  }

  /** Changing one vCPU within what VcpuOk allows. */
  lemma CurrentReady(s: Sched, v: VcpuVal)
    requires Ready(s) && VcpuOk(v, s.cur, s.Guests())
    requires s.cpu.oneShot.Disarmed? && s.cur < s.Guests() ==> !HasDeadline(v)
    ensures Ready(s.WithVcpu(s.cur, v))
  {
    hide Virq.Disjoint;
  }

  /** hv_virq_sync leaves the other flags alone. */
  lemma SyncFlags(s: Sched, v: VcpuVal)
    requires s.Shape() && FlagsOk(s) && v.vm == s.Current().vm
    ensures FlagsOk(SyncVirq(s.WithVcpu(s.cur, v), v))
    ensures Has(SyncVirq(s.WithVcpu(s.cur, v), v).cpu.hcr, HCR_IMO) <==> Has(s.cpu.hcr, HCR_IMO)
  {
    hide With, Has;
    var on := v.pending != 0;
    FlagsIndependent(s.cpu.hcr, HCR_VI, on, HCR_VI);
    FlagsIndependent(s.cpu.hcr, HCR_VI, on, HCR_TWI);
    FlagsIndependent(s.cpu.hcr, HCR_VI, on, HCR_VM);
    FlagsIndependent(s.cpu.hcr, HCR_VI, on, HCR_IMO);
  }

  /** A claim or a completion on the current vCPU, followed by hv_virq_sync. */
  lemma VirqPrepared(s: Sched, op: Virq.Op, f: Frame)
    requires Inv(s) && s.cur < s.Guests() && !op.RaiseOp?
    ensures var v := Virq.Apply(s.Current(), op);
      var l := SyncVirq(s.WithVcpu(s.cur, v), v);
      Prepared(s, l.(cpu := l.cpu.(frame := f)), Resume)
  {
    hide With, Has, Lines, IsSet, SetBit, ClearBit, LowestFrom, CompleteResultOf;
    var v := Virq.Apply(s.Current(), op);
    StepMovesLine(s.Current(), op);
    assert VcpuOk(s.Current(), s.cur, s.Guests());
    assert v == s.Current().(pending := v.pending, active := v.active);
    assert VcpuOk(v, s.cur, s.Guests());
    CurrentReady(s, v);
    SyncFlags(s, v);
    var l := SyncVirq(s.WithVcpu(s.cur, v), v);
    FlagChange(s.WithVcpu(s.cur, v), l.cpu.hcr);
    FramePrepared(l, l.cpu.(frame := f));
  }

  lemma FlagChange(s: Sched, hcr: Word)
    requires Ready(s) && Has(hcr, HCR_IMO)
    ensures Ready(s.(cpu := s.cpu.(hcr := hcr)))
  {
    hide VcpuOk;
  }

  /** A guest that gives up the CPU with a new timer or state, its one-shot rearmed. */
  lemma StoppedReady(s: Sched, v: VcpuVal, f: Frame, now: nat)
    requires Ready(s) && s.cur < s.Guests() && v == s.Current().(timer := v.timer, state := v.state)
    ensures var l := Rearm(s.WithVcpu(s.cur, v), now); Prepared(s, l.(cpu := l.cpu.(frame := f)), ToAdvance)
  {
    hide Lines, Rearmed;
    assert VcpuOk(s.Current(), s.cur, s.Guests());
    assert VcpuOk(v, s.cur, s.Guests());
    var w := s.WithVcpu(s.cur, v);
    RearmBound(w.vcpus, w.Guests(), now);
    var l := Rearm(w, now);
    l := l.(cpu := l.cpu.(frame := f));
    forall i | 0 <= i < |l.vcpus|
      ensures VcpuOk(l.vcpus[i], i, l.Guests())
    {
      assert VcpuOk(s.vcpus[i], i, s.Guests());
    }
  }

  lemma WfiPrepared(s: Sched)
    requires Inv(s)
    ensures Prepared(s, Wfi(s).0, Wfi(s).1)
  {
    hide With, Has, Lines, Frame.Advanced;
    assert VcpuOk(s.Current(), s.cur, s.Guests());
    if !s.Current().IsIdleVcpu() {
      var f := s.cpu.frame.Advanced();
      FramePrepared(s, s.cpu.(frame := f));
      var stepped := s.(cpu := s.cpu.(frame := f));
      if s.Current().pending != 0 {
        SyncFlags(stepped, stepped.Current());
        assert stepped.WithVcpu(s.cur, s.Current()) == stepped;
        FlagChange(stepped, With(s.cpu.hcr, HCR_VI, true));
      } else {
        CurrentReady(stepped, s.Current().(state := Blocked));
      }
    }
  }

  lemma HypercallPrepared(m: Machine, t: Trap)
    requires InvM(m) && m.sched.cur < m.sched.Guests()
    ensures var (l, d) := Hypercall(m, t); d != Halt ==> Prepared(m.sched, l.sched, d)
  {
    hide With, Has, VcpuOk, Ready, FlagsOk, Prepared, ClaimOn, CompleteOn, CompleteResultOf, Rearmed, NoneRunnable;
    hide VcpuVal.Frequency;
    var call, l, s := m.Frame().r[0], Hypercall(m, t).0, m.sched;
    NotIdle(s);
    if call == CALL_EXIT {
      StoppedReady(s, s.Current().(timer := TIMER_OFF, state := Exited), s.cpu.frame, t.later);
    } else if call == CALL_YIELD {
      YieldPrepared(s);
    } else if call == CALL_VIRQ_CLAIM {
      VirqPrepared(s, ClaimOp, l.Frame());
    } else if call == CALL_VIRQ_COMPLETE {
      VirqPrepared(s, CompleteOp(m.Frame().r[1]), l.Frame());
    } else if call == CALL_TIMER_DELAY_TICKS && m.Frame().r[1] != 0 {
      StoppedReady(s, s.Current().Delayed(t.now, m.Frame().r[1]), l.Frame(), t.later);
    } else {
      FramePrepared(s, s.cpu.(frame := l.Frame()));
    }
  }

  lemma NotIdle(s: Sched)
    requires Ready(s) && s.cur < s.Guests()
    ensures !s.Current().IsIdleVcpu() && s.Current().vm == Some(s.cur) && s.cur < |s.vms|
  {
    hide Virq.Disjoint;
    assert VcpuOk(s.Current(), s.cur, s.Guests());
  }

  lemma IdleIsLast(s: Sched)
    requires Ready(s)
    ensures s.Current().IsIdleVcpu() <==> s.cur == s.Guests()
  {
    hide Virq.Disjoint;
    assert VcpuOk(s.Current(), s.cur, s.Guests());
  }

  lemma YieldPrepared(s: Sched)
    requires Inv(s) && s.cur < s.Guests()
    ensures Prepared(s, s, ToYield)
  {
  }

  lemma StopPrepared(m: Machine, t: Trap)
    requires InvM(m) && m.sched.cur < m.sched.Guests()
    ensures Prepared(m.sched, StopCurrent(m, t).0.sched, ToAdvance)
  {
    hide VcpuOk, Rearmed, Prepared;
    var s := m.sched;
    StoppedReady(s, s.Current().(timer := TIMER_OFF, state := Exited), s.cpu.frame, t.later);
  }

  lemma AbortPrepared(m: Machine, t: Trap)
    requires InvM(m)
    ensures var (l, d) := GuestAbort(m, t); d != Halt ==> Prepared(m.sched, l.sched, d)
  {
    hide HandleFault, DecodeFault, VcpuOk, Ready, FlagsOk, Stop, NoneRunnable, Has;
    IdleIsLast(m.sched);
    if m.sched.cur < m.sched.Guests() {
      NotIdle(m.sched);
      StopPrepared(m, t);
      var o := HandleFault(m.Frame(), m.uarts[m.sched.cur], m.line, m.sched.vms[m.sched.cur].regions,
                           DecodeFault(m.Frame()));
      var done := m.WithFrame(o.frame).(uarts := m.uarts[m.sched.cur := o.uart], line := o.line);
      FramePrepared(m.sched, m.sched.cpu.(frame := o.frame));
      FramePrepared(m.sched, m.sched.cpu.(frame := o.frame.Advanced()));
      StopPrepared(done, t);
    }
  }

  lemma DeliverKeepsOk(v: VcpuVal, i: nat, n: nat, now: nat)
    requires VcpuOk(v, i, n) && i < n
    ensures var w := DeliverOne(v, now);
      VcpuOk(w, i, n) && (w.state == Running <==> v.state == Running) &&
      (w == v || Delivers(v, now)) && (HasDeadline(w) ==> HasDeadline(v))
  {
    hide Lines, IsSet, SetBit, NextDeadline;
    StepMovesLine(v, RaiseOp(VIRQ_TIMER));
    var raised := RaiseOn(v, VIRQ_TIMER);
    assert raised == v.(pending := raised.pending, state := raised.state);
  }

  lemma DeliveredReady(s: Sched, now: nat, later: nat)
    requires Ready(s)
    ensures var l := Rearm(s.(vcpus := Delivered(s.vcpus, s.Guests(), now)), later);
      Ready(l) && l.Current().vm == s.Current().vm && (l.Current().state == Running <==> s.Current().state == Running)
    ensures !AnyDelivered(s.vcpus, s.Guests(), now) ==> Delivered(s.vcpus, s.Guests(), now) == s.vcpus
  {
    hide VcpuOk, Rearmed, DeliverOne;
    var n, vs := s.Guests(), Delivered(s.vcpus, s.Guests(), now);
    forall i | 0 <= i < n
      ensures VcpuOk(vs[i], i, n) && (vs[i].state == Running <==> s.vcpus[i].state == Running)
      ensures vs[i].vm == s.vcpus[i].vm
      ensures vs[i] == s.vcpus[i] || Delivers(s.vcpus[i], now)
    {
      DeliverKeepsOk(s.vcpus[i], i, n, now);
      VmOf(s.vcpus[i], vs[i], i, n);
    }
    RearmBound(vs, n, later);
    assert vs[n] == s.vcpus[n];
  }

  lemma VmOf(v: VcpuVal, w: VcpuVal, i: nat, n: nat)
    requires VcpuOk(v, i, n) && VcpuOk(w, i, n)
    ensures v.vm == w.vm
  {
  }

  lemma TimerPrepared(m: Machine, t: Trap)
    requires InvM(m)
    ensures Prepared(m.sched, TimerIrq(m, t).0.sched, TimerIrq(m, t).1)
  {
    hide VcpuOk, Rearmed, Delivered, AnyDelivered, With, Has, NoneRunnable, Delivers;
    var s := m.sched;
    var vs := Delivered(s.vcpus, s.Guests(), t.now);
    DeliveredReady(s, t.now, t.later);
    IdleIsLast(s);
    var l := Rearm(s.(vcpus := vs), t.later);
    if AnyDelivered(s.vcpus, s.Guests(), t.now) {
      SyncFlags(s, l.Current());
      FlagChange(l, With(l.cpu.hcr, HCR_VI, l.Current().pending != 0));
    }
  }

  /** Every handler but HALT leaves what its decision needs. */
  lemma LocalPrepared(m: Machine, t: Trap)
    requires InvM(m) && Possible(m, t)
    ensures var (l, d) := Local(m, t); d != Halt ==> Prepared(m.sched, l.sched, d)
  {
    hide With, Has, VcpuOk, Hypercall, GuestAbort, TimerIrq, Wfi, Ready, FlagsOk, NoneRunnable, EcValidFromLower;
    FramePrepared(m.sched, m.sched.cpu.(frame := t.frame, banked := t.banked, vbar := t.vbar));
    IdleIsLast(m.sched);
    var e := Enter(m, t);
    if m.sched.cur < m.sched.Guests() {
      HypercallPrepared(e, t);
    }
    AbortPrepared(e, t);
    TimerPrepared(e, t);
    WfiPrepared(e.sched);
  }

  /** The decision then leaves the invariant, and only moves the CPU. */
  lemma DecideInv(s: Sched, l: Sched, d: Decision)
    requires Prepared(s, l, d) && d != Halt
    ensures Inv(Decide(l, d)) && (d != Resume ==> Rescheduled(l, Decide(l, d)))
  {
    hide Ready, FlagsOk, Advance, Yield, EnterIdle, Rescheduled;
    match d
    case Resume =>
    case ToAdvance => AdvanceInv(l);
    case ToYield => YieldInv(l);
    case ToIdle => EnterIdleInv(l);
  }

  /** The scheduler's invariant holds after every trap that returns. */
  lemma StepInv(m: Machine, t: Trap)
    requires InvM(m) && Possible(m, t) && Local(m, t).1 != Halt
    ensures InvM(Step(m, t)) && Step(m, t).sched.vms == m.sched.vms
    ensures var (l, d) := Local(m, t);
      Prepared(m.sched, l.sched, d) && if d == Resume then Step(m, t) == l else Rescheduled(l.sched, Step(m, t).sched)
  {
    hide Local, FlagsOk, Covered, VcpuOk, Advance, Yield, EnterIdle;
    LocalPrepared(m, t);
    var (l, d) := Local(m, t);
    DecideInv(m.sched, l.sched, d);
  }
}
