/** hypercall.c and hyp-exceptions.c as functions: what each trap does to the machine before the
    scheduler's decision, and which decision that is. */
module Handlers {
  import opened Wrappers
  import opened Bits
  import opened Cpu
  import opened Regions
  import opened Vuart
  import opened Mmio
  import opened Vcpu
  import opened Virq
  import opened Timers
  import opened SchedulerSpec

  const EXCEPTION_HVC_FROM_HYP := 2
  const EXCEPTION_LOWER_SYNC := 5
  const EXCEPTION_IRQ := 6

  const EC_WFI_WFE := 0x1
  const EC_HVC_A32 := 0x12
  const EC_DATA_ABORT_LOWER := 0x24

  const ABI_VERSION: Word := 1
  const ALL_FEATURES: Word := 0xf
  const SUCCESS: Word := 0
  const ERR_UNKNOWN: Word := 0xffff_ffff  // -1
  const ERR_INVALID: Word := 0xffff_fffe  // -2
  const ERR_NO_PENDING: Word := 0xffff_fffd  // -3

  const CALL_GET_ABI_VERSION := 0
  const CALL_GET_FEATURES := 1
  const CALL_EXIT := 2
  const CALL_YIELD := 3
  const CALL_PUTCHAR := 5
  const CALL_GET_HYP_IRQ_COUNT := 6
  const CALL_VIRQ_CLAIM := 7
  const CALL_VIRQ_COMPLETE := 8
  const CALL_TIMER_GET_TICKS := 9
  const CALL_TIMER_DELAY_TICKS := 10
  const CALL_TIMER_GET_FREQ := 11

  /** The scheduler, every VM's device, the physical UART and the interrupt counter. */
  datatype Machine = Machine(sched: Sched, uarts: seq<Uart>, line: Line, irqCount: Word)
  {
    predicate Shape() {
      sched.Shape() && |uarts| == |sched.vms|
    }

    function Current(): VcpuVal
      requires Shape()
    {
      sched.Current()
    }

    function Frame(): Frame {
      sched.cpu.frame
    }

    function WithFrame(f: Frame): Machine {
      this.(sched := sched.(cpu := sched.cpu.(frame := f)))
    }

    function WithReg0(value: Word): Machine {
      WithFrame(Frame().WithReg0(value))
    }

    function WithCurrent(v: VcpuVal): Machine
      requires Shape()
    {
      this.(sched := sched.WithVcpu(sched.cur, v))
    }

    function Counted(): Machine {
      this.(irqCount := (irqCount + 1) % 0x1_0000_0000)
    }
  }

  /** One trap: the registers as the guest left them, the bytes received meanwhile, the clock as the
      handler reads it first and last, and the interrupts it finds pending. */
  datatype Trap = Trap(frame: Frame, banked: Banked, vbar: Word, received: seq<Word>,
                       now: Word, later: Word, genPending: bool, bcmPending: bool)

  /** The guest ran: it set its registers as it liked, and nothing else. */
  function Enter(m: Machine, t: Trap): Machine {
    m.(sched := m.sched.(cpu := m.sched.cpu.(frame := t.frame, banked := t.banked, vbar := t.vbar)),
       line := m.line.(rx := m.line.rx + t.received))
  }

  // ----- hypercall.c -----

  function SyncCurrent(m: Machine): Machine
    requires m.Shape()
  {
    m.(sched := SyncVirq(m.sched, m.Current()))
  }

  function CallVirqClaim(m: Machine): Machine
    requires m.Shape()
  {
    var (v, line) := ClaimOn(m.Current());
    SyncCurrent(m.WithCurrent(v)).WithReg0(if line.None? then ERR_NO_PENDING else line.value)
  }

  function CallVirqComplete(m: Machine): Machine
    requires m.Shape()
  {
    var line := m.Frame().r[1];
    SyncCurrent(m.WithCurrent(CompleteOn(m.Current(), line))).WithReg0(
      if CompleteResultOf(m.Current(), line) == Completed then SUCCESS else ERR_INVALID)
  }

  function CallDelay(m: Machine, t: Trap): (r: (Machine, Decision))
    requires m.Shape()
    ensures r.0.Shape() && r.1 != Halt
  {
    var ticks := m.Frame().r[1];
    if m.Current().IsIdleVcpu() then (m.WithReg0(ERR_INVALID), Resume)
    else if ticks == 0 then (m.WithReg0(SUCCESS), Resume)
    else
      var delayed := m.WithCurrent(m.Current().Delayed(t.now, ticks));
      (delayed.(sched := Rearm(delayed.sched, t.later)).WithReg0(SUCCESS), ToAdvance)
  }

  /** hyp_handle_guest_hypercall */
  function Hypercall(m: Machine, t: Trap): (r: (Machine, Decision))
    requires m.Shape()
    ensures r.0.Shape()
  {
    var call, arg := m.Frame().r[0], m.Frame().r[1];
    if call == CALL_GET_ABI_VERSION then (m.WithReg0(ABI_VERSION), Resume)
    else if call == CALL_GET_FEATURES then (m.WithReg0(ALL_FEATURES), Resume)
    else if call == CALL_EXIT then (m.(sched := Stop(m.sched, t.later)), ToAdvance)
    else if call == CALL_YIELD then (m, ToYield)
    else if call == CALL_PUTCHAR then
      (m.(line := m.line.(tx := m.line.tx + [And32(arg, 0xff)])).WithReg0(SUCCESS), Resume)
    else if call == CALL_GET_HYP_IRQ_COUNT then (m.WithReg0(m.irqCount), Resume)
    else if call == CALL_VIRQ_CLAIM then (CallVirqClaim(m), Resume)
    else if call == CALL_VIRQ_COMPLETE then (CallVirqComplete(m), Resume)
    else if call == CALL_TIMER_GET_TICKS then (m.WithReg0(t.now), Resume)
    else if call == CALL_TIMER_DELAY_TICKS then CallDelay(m, t)
    else if call == CALL_TIMER_GET_FREQ then
      (m.WithReg0(if m.Current().IsIdleVcpu() then 0 else m.Current().Frequency()), Resume)
    else (m.WithReg0(ERR_UNKNOWN), Halt)
  }

  // ----- hyp-exceptions.c -----

  /** stop_current_guest_vcpu */
  function StopCurrent(m: Machine, t: Trap): (r: (Machine, Decision))
    requires m.Shape()
    ensures r.0.Shape() && r.1 != Halt
  {
    (m.(sched := Stop(m.sched, t.later)), ToAdvance)
  }

  /** handle_guest_abort's MMIO branch */
  function MmioAbort(m: Machine, t: Trap, vm: nat): (r: (Machine, Decision))
    requires m.Shape() && vm < |m.uarts|
    ensures r.0.Shape() && r.1 != Halt
  {
    var o := HandleFault(m.Frame(), m.uarts[vm], m.line, m.sched.vms[vm].regions, DecodeFault(m.Frame()));
    var done := m.WithFrame(o.frame).(uarts := m.uarts[vm := o.uart], line := o.line);
    if o.ok then (done.WithFrame(o.frame.Advanced()), Resume) else StopCurrent(done, t)
  }

  /** handle_guest_abort */
  function GuestAbort(m: Machine, t: Trap): (r: (Machine, Decision))
    requires m.Shape()
    ensures r.0.Shape()
  {
    var v := m.Current();
    if v.IsIdleVcpu() || v.vm.None? then (m, Halt)
    else
      var rs := m.sched.vms[v.vm.value].regions;
      var found := Find(rs, DecodeFault(m.Frame()).ipa);
      if found.Some? && rs[found.value].kind.Mmio? then MmioAbort(m, t, v.vm.value) else StopCurrent(m, t)
  }

  /** hsr_ec_valid for HYP_EXCEPTION_LOWER_SYNC */
  predicate EcValidFromLower(ec: nat) {
    ec in {EC_HVC_A32, EC_WFI_WFE, EC_PREFETCH_ABORT_LOWER, EC_DATA_ABORT_LOWER, 0x3, 0x4, 0x5, 0xc, 0x7}
  }

  /** handle_lower_sync. A failed assertion stops the machine, as the HALT action does. */
  function LowerSync(m: Machine, t: Trap): (r: (Machine, Decision))
    requires m.Shape()
    ensures r.0.Shape()
  {
    var ec, iss := HsrEc(m.Frame().hsr), HsrIss(m.Frame().hsr);
    if !EcValidFromLower(ec) then (m, Halt)
    else if ec == EC_HVC_A32 then
      (if And(iss, 0xffff) == 0 then Hypercall(m, t) else (m, Halt))
    else if ec == EC_WFI_WFE then
      if And(iss, 1) != 0 then (m, Halt)
      else
        var (s, d) := Wfi(m.sched);
        (m.(sched := s), d)
    else if ec == EC_PREFETCH_ABORT_LOWER || ec == EC_DATA_ABORT_LOWER then GuestAbort(m, t)
    else (m, Halt)
  }

  /** deliver_expired_timers, the rearming after it, and hv_virq_sync if anything was delivered */
  function DeliverAndSync(m: Machine, t: Trap): (r: Machine)
    requires m.Shape()
    ensures r.Shape()
  {
    var vs := m.sched.vcpus;
    var n := |vs| - 1;
    var delivered := Rearm(m.sched.(vcpus := Delivered(vs, n, t.now)), t.later);
    m.(sched := if AnyDelivered(vs, n, t.now) then SyncVirq(delivered, delivered.Current()) else delivered)
  }

  /** The BCM timer path of handle_irq */
  function TimerIrq(m: Machine, t: Trap): (r: (Machine, Decision))
    requires m.Shape()
    ensures r.0.Shape()
  {
    (DeliverAndSync(m.Counted(), t), if m.Current().IsIdleVcpu() then ToAdvance else Resume)
  }

  /** handle_irq */
  function Irq(m: Machine, t: Trap): (r: (Machine, Decision))
    requires m.Shape()
    ensures r.0.Shape()
  {
    if t.genPending then (m.Counted(), ToAdvance)
    else if t.bcmPending then TimerIrq(m, t)
    else (m, Halt)
  }

  /** hyp_handle_exception: every exception but a trap from below, an interrupt and a hypervisor's own HVC
      stops the machine. */
  function HandleException(m: Machine, t: Trap): (r: (Machine, Decision))
    requires m.Shape()
    ensures r.0.Shape()
  {
    var kind := m.Frame().exceptionType;
    if kind == EXCEPTION_HVC_FROM_HYP then (m, if HsrEc(m.Frame().hsr) == EC_HVC_A32 then Resume else Halt)
    else if kind == EXCEPTION_LOWER_SYNC then LowerSync(m, t)
    else if kind == EXCEPTION_IRQ then Irq(m, t)
    else (m, Halt)
  }

  // ----- Steps and runs -----

  lemma HandlerKeepsSize(m: Machine, t: Trap)
    requires m.Shape()
    ensures |HandleException(m, t).0.sched.vcpus| == |m.sched.vcpus|
  {
    hide With, HsrEc, Rearmed, HandleFault, ClaimOn, CompleteOn, CompleteResultOf, VcpuVal.Frequency;
  }

  /** What the handler of trap t decides. */
  function Local(m: Machine, t: Trap): (r: (Machine, Decision))
    requires m.Shape()
    ensures r.0.Shape() && |r.0.sched.vcpus| == |m.sched.vcpus|
  {
    HandlerKeepsSize(Enter(m, t), t);
    HandleException(Enter(m, t), t)
  }

  /** The machine once the decision has been carried out. */
  function Concluded(r: (Machine, Decision)): (m: Machine)
    requires r.0.Shape()
    ensures |m.sched.vcpus| == |r.0.sched.vcpus|
  {
    r.0.(sched := Decide(r.0.sched, r.1))
  }

  /** One trap, from the guest's last instruction to the return to lower mode. */
  function Step(m: Machine, t: Trap): (r: Machine)
    requires m.Shape()
    ensures |r.sched.vcpus| == |m.sched.vcpus|
  {
    Concluded(Local(m, t))
  }
}
