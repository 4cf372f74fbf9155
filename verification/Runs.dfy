/** Runs of the hypervisor: any sequence of traps, with any guest execution between them. */
module Runs {
  import opened Wrappers
  import opened Bits
  import opened Tlb
  import opened Cpu
  import opened Regions
  import opened Mmu
  import opened Vuart
  import opened Mmio
  import opened Vcpu
  import opened Virq
  import opened Timers
  import opened SchedulerSpec
  import opened Rescheduling
  import opened Handlers
  import opened Steps
  import opened Traps
  import opened GuestSpace

  /** ms[k] is the machine before trap ts[k]; no handler halts. */
  ghost predicate IsRun(ms: seq<Machine>, ts: seq<Trap>) {
    |ms| == |ts| + 1 && InvM(ms[0]) &&
    forall k :: 0 <= k < |ts| ==> Returns(ms[k], ts[k], ms[k + 1])
  }

  ghost predicate Returns(m: Machine, t: Trap, m': Machine) {
    m.Shape() && Possible(m, t) && Local(m, t).1 != Halt && m' == Step(m, t)
  }

  /** The invariant over whole runs, and the VMs' tables stay who they are. */
  lemma {:induction false} RunInv(ms: seq<Machine>, ts: seq<Trap>, k: nat)
    requires IsRun(ms, ts) && k < |ms|
    ensures InvM(ms[k]) && ms[k].sched.vms == ms[0].sched.vms
    decreases k
  {
    hide Local, InvM, Step, Possible, Rescheduled, Prepared;
    if k > 0 {
      RunInv(ms, ts, k - 1);
      assert Returns(ms[k - 1], ts[k - 1], ms[k]);
      StepInv(ms[k - 1], ts[k - 1]);
    }
  }

  // ----- The boot sequence -----

  /** Guest i after hv_vcpu_init and hv_vcpu_timer_start_periodic; guest 0 is the one running. */
  function GuestAtBoot(i: nat, cpsr: Word, now: nat, period: nat): VcpuVal {
    FreshVcpu(i, Some(i), GUEST_BASE, 0, cpsr).(timer := Timer(true, now + period, period),
                                                 state := if i == 0 then Running else Runnable)
  }

  /** n guest vCPUs, and the idle vCPU last. */
  function BootVcpus(n: nat, cpsr: Word, idleEntry: Word, idleStack: Word, now: nat, period: nat): (vs: seq<VcpuVal>)
    requires 1 <= n < IDLE_VCPU_ID && period > 0
    ensures |vs| == n + 1
  {
    seq(n, i requires 0 <= i < n => GuestAtBoot(i, cpsr, now, period)) +
    [FreshVcpu(IDLE_VCPU_ID, None, idleEntry, idleStack, cpsr).(state := Idle)]
  }

  /** The first entry to lower mode. hcr is what HCR held before. */
  function Boot(vs: seq<VcpuVal>, vms: seq<VmVal>, cpu: CpuVal, later: nat, line: Line): Machine
    requires |vs| >= 2 && |vms| == |vs| - 1
  {
    var hcr := With(With(With(cpu.hcr, HCR_TWI, true), HCR_IMO, true), HCR_VM, true);
    var entered := CpuVal(vs[0].context.frame, vs[0].context.banked, cpu.vbar, hcr, vms[0].vttbr, VTCR_DEFAULT,
                          Rearmed(vs, |vs| - 1, later));
    Machine(Sched(vs, 0, entered, vms), seq(|vms|, _ => UART_ZERO), line, 0)
  }

  lemma BootInv(n: nat, cpsr: Word, idleEntry: Word, idleStack: Word, now: nat, period: nat,
                vms: seq<VmVal>, cpu: CpuVal, later: nat, line: Line)
    requires 1 <= n < IDLE_VCPU_ID && period > 0 && |vms| == n && !Has(cpu.hcr, HCR_VI)
    ensures InvM(Boot(BootVcpus(n, cpsr, idleEntry, idleStack, now, period), vms, cpu, later, line))
  {
    hide With, Has, IsSet, Rearmed, FreshContext;
    var vs := BootVcpus(n, cpsr, idleEntry, idleStack, now, period);
    var h1 := With(cpu.hcr, HCR_TWI, true);
    var h2 := With(h1, HCR_IMO, true);
    forall flag | flag in {HCR_TWI, HCR_VI, HCR_VM, HCR_IMO}
      ensures Has(With(h2, HCR_VM, true), flag) <==> flag != HCR_VI
    {
      FlagsIndependent(cpu.hcr, HCR_TWI, true, flag);
      FlagsIndependent(h1, HCR_IMO, true, flag);
      FlagsIndependent(h2, HCR_VM, true, flag);
    }
    ZeroMeansNone(0);
    RearmBound(vs, n, later);
    var s := Boot(vs, vms, cpu, later, line).sched;
    assert forall i :: 0 <= i < |vs| ==> VcpuOk(vs[i], i, n);
    assert FlagsOk(s);
  }

  /** What each vCPU starts from: a guest at its RAM's first address, 0x20000, with zero registers, in the mode given
      and with its periodic timer running; the idle vCPU at its own entry, with its stack in r0 and both stack
      pointers. */
  lemma BootRegisters(n: nat, cpsr: Word, idleEntry: Word, idleStack: Word, now: nat, period: nat,
                      vms: seq<VmVal>, cpu: CpuVal, later: nat, line: Line, i: nat)
    requires 1 <= n < IDLE_VCPU_ID && period > 0 && |vms| == n && i <= n
    ensures var m := Boot(BootVcpus(n, cpsr, idleEntry, idleStack, now, period), vms, cpu, later, line);
      var (v, x, stack) := (m.sched.vcpus[i], RegsOf(m.sched, i), if i == n then idleStack else 0);
      x.frame == Frame([stack, 0, 0, 0, 0, 0, 0, 0, 0, 0, 0, 0, 0], 0, 0, if i == n then idleEntry else 0x2_0000, cpsr,
                       0, 0, 0, 0) &&
      x.banked == Banked(stack, stack, 0, 0, 0, 0, 0) && v.pending == 0 && v.active == 0 &&
      v.timer == (if i == n then Timer(false, 0, 0) else Timer(true, now + period, period)) &&
      v.state == (if i == n then Idle else if i == 0 then Running else Runnable) &&
      v.vm == (if i == n then None else Some(i)) && m.sched.cur == 0 && m.sched.cpu.vttbr == vms[0].vttbr &&
      forall j :: 0 <= j < n ==> m.uarts[j] == Uart(0, 0, 0, 0, 0, 0, 0, 0, 0, 0)
  {
    hide With, Rearmed;
  }

  // ----- What a handler writes into the registers of the vCPU that trapped -----

  /** The result in r0 of a hypercall, if it gives one. */
  function CallResult(m: Machine, f: Frame): Option<Word>
    requires m.Shape()
  {
    var v, call, arg := m.Current(), f.r[0], f.r[1];
    if call == 0 then Some(1)
    else if call == 1 then Some(0xf)
    else if call == 5 || call == 10 then Some(0)
    else if call == 6 then Some(m.irqCount)
    else if call == 7 then
      Some(if LowestFrom(v.pending, 0).None? then 0xffff_fffd else LowestFrom(v.pending, 0).value)
    else if call == 8 then Some(if arg < 32 && BitAt(v.active, arg) then 0 else 0xffff_fffe)
    else if call == 11 then Some(v.Frequency())
    else None
  }

  /** Where the instruction after a trapped one lies: 4 bytes on, or 2 if bit 25 of the syndrome is clear. */
  function NextInstruction(f: Frame): Word {
    (f.elr + if f.hsr / 0x200_0000 % 2 == 1 then 4 else 2) % 0x1_0000_0000
  }

  /** The frame a trap leaves: r0 for a hypercall, the return address after WFI, and the loaded register
      and the return address after an emulated access. */
  function Written(m: Machine, t: Trap): Frame
    requires m.Shape()
  {
    var f, v := t.frame, m.Current();
    if f.exceptionType != 5 then f
    else if HsrEc(f.hsr) == 0x12 then
      if f.r[0] == 9 then f.(r := f.r[0 := t.now])
      else if CallResult(m, f).Some? then f.(r := f.r[0 := CallResult(m, f).value])
      else f
    else if v.vm.None? then f
    else if HsrEc(f.hsr) == 1 then f.(elr := NextInstruction(f))
    else
      var o := HandleFault(f, m.uarts[v.vm.value], m.line.(rx := m.line.rx + t.received),
                           m.sched.vms[v.vm.value].regions, DecodeFault(f));
      if o.ok then o.frame.(elr := NextInstruction(f)) else f
  }

  function Resumed(m: Machine, t: Trap): Registers
    requires m.Shape()
  {
    Registers(Written(m, t), t.banked, t.vbar)
  }

  lemma HypercallWrites(m: Machine, t: Trap)
    requires InvM(m) && m.sched.cur < m.sched.Guests() && Hypercall(Enter(m, t), t).1 != Halt
    requires t.frame.exceptionType == EXCEPTION_LOWER_SYNC && HsrEc(t.frame.hsr) == EC_HVC_A32
    ensures Hypercall(Enter(m, t), t).0.sched.cpu ==
      Hypercall(Enter(m, t), t).0.sched.cpu.(frame := Written(m, t), banked := t.banked, vbar := t.vbar)
  {
    hide With, HsrEc, Rearmed, LowestFrom, VcpuVal.Frequency, FlagsOk, Virq.Disjoint, NoneRunnable, BitAt;
    hide CompleteResultOf;
    NotIdle(m.sched);
    CompleteIs(m.Current(), t.frame.r[1]);
  }

  lemma AbortWrites(m: Machine, t: Trap)
    requires InvM(m) && GuestAbort(Enter(m, t), t).1 != Halt && t.frame.exceptionType == EXCEPTION_LOWER_SYNC
    requires HsrEc(t.frame.hsr) in {EC_PREFETCH_ABORT_LOWER, EC_DATA_ABORT_LOWER}
    ensures GuestAbort(Enter(m, t), t).0.sched.cpu ==
      GuestAbort(Enter(m, t), t).0.sched.cpu.(frame := Written(m, t), banked := t.banked, vbar := t.vbar)
  {
    hide With, HsrEc, Rearmed, HandleFault, DecodeFault, FlagsOk, NoneRunnable, Frame.Advanced;
    IdleIsLast(m.sched);
    NotIdle(m.sched);
    var e := Enter(m, t);
    var rs := e.sched.vms[m.sched.cur].regions;
    UnhandledChangesNothing(t.frame, e.uarts[m.sched.cur], e.line, rs, DecodeFault(t.frame));
    HandledChangesOneRegister(t.frame, e.uarts[m.sched.cur], e.line, rs, DecodeFault(t.frame));
    AdvancedIsNext(HandleFault(t.frame, e.uarts[m.sched.cur], e.line, rs, DecodeFault(t.frame)).frame);
    var found := Find(rs, DecodeFault(t.frame).ipa);
    if found.None? || !rs[found.value].kind.Mmio? {
      NotMmioUnhandled(t.frame, e.uarts[m.sched.cur], e.line, rs, DecodeFault(t.frame));
    }
  }

  lemma NotMmioUnhandled(f: Frame, u: Uart, line: Line, rs: seq<Region>, fault: Fault)
    requires var found := Find(rs, fault.ipa); found.None? || !rs[found.value].kind.Mmio?
    ensures !HandleFault(f, u, line, rs, fault).ok
  {
  }

  lemma LocalWrites(m: Machine, t: Trap)
    requires InvM(m) && Possible(m, t) && Local(m, t).1 != Halt
    ensures Local(m, t).0.sched.cpu ==
      Local(m, t).0.sched.cpu.(frame := Written(m, t), banked := t.banked, vbar := t.vbar)
  {
    hide With, HsrEc, And, Rearmed, HandleFault, DecodeFault, FlagsOk, NoneRunnable, Hypercall, GuestAbort, Delivered;
    hide AnyDelivered, CallResult, Frame.Advanced;
    IdleIsLast(m.sched);
    AdvancedIsNext(t.frame);
    var f := t.frame;
    if f.exceptionType == EXCEPTION_LOWER_SYNC {
      if HsrEc(f.hsr) == EC_HVC_A32 {
        HypercallWrites(m, t);
      } else if HsrEc(f.hsr) in {EC_PREFETCH_ABORT_LOWER, EC_DATA_ABORT_LOWER} {
        AbortWrites(m, t);
      }
    }
  }

  // ----- Context isolation -----

  /** No trap touches any vCPU but the current one, except that the timer interrupt delivers to all guests. */
  lemma LocalOthers(m: Machine, t: Trap, i: nat)
    requires InvM(m) && i < |m.sched.vcpus| && i != m.sched.cur
    ensures Local(m, t).0.sched.vcpus[i] ==
      if IsTimerTrap(t) && i < m.sched.Guests() then DeliverOne(m.sched.vcpus[i], t.now) else m.sched.vcpus[i]
  {
    hide With, HsrEc, And, Rearmed, HandleFault, DecodeFault, FlagsOk, NoneRunnable, DeliverOne, ClaimOn, CompleteOn;
    hide CompleteResultOf;
    hide VcpuVal.Frequency, InvM;
  }

  /** One trap and the return from it: the registers of the vCPU that trapped are what the handler wrote,
      every other vCPU keeps its own. */
  lemma StepRegs(m: Machine, t: Trap, i: nat)
    requires InvM(m) && Possible(m, t) && Local(m, t).1 != Halt && i < |m.sched.vcpus|
    ensures RegsOf(Step(m, t).sched, i) == if i == m.sched.cur then Resumed(m, t) else RegsOf(m.sched, i)
  {
    hide Local, Written, Possible, IsTimerTrap, FlagsOk, Ready, NoneRunnable, Step;
    StepInv(m, t);
    LocalWrites(m, t);
    if i != m.sched.cur {
      LocalOthers(m, t, i);
      DeliverKeepsContext(m.sched.vcpus[i], t.now);
    }
  }

  lemma DeliverKeepsContext(v: VcpuVal, now: nat)
    ensures DeliverOne(v, now).context == v.context
  {
  }

  /** Context isolation over whole runs: a vCPU comes back with the registers of its own last trap, as the
      handler of that trap left them, whatever ran in between. */
  lemma {:induction false} ResumesOwnContext(ms: seq<Machine>, ts: seq<Trap>, i: nat, k: nat, n: nat)
    requires IsRun(ms, ts) && k < n <= |ts| && ms[k].sched.cur == i
    requires forall j :: k < j < n ==> ms[j].sched.cur != i
    ensures ms[k].Shape() && i < |ms[n].sched.vcpus| && RegsOf(ms[n].sched, i) == Resumed(ms[k], ts[k])
    decreases n
  {
    hide Local, InvM, Step, Possible, Resumed, RegsOf;
    RunInv(ms, ts, n - 1);
    assert Returns(ms[n - 1], ts[n - 1], ms[n]);
    if n - 1 == k {
      CurInRange(ms[k]);
      StepRegs(ms[k], ts[k], i);
    } else {
      ResumesOwnContext(ms, ts, i, k, n - 1);
      StepRegs(ms[n - 1], ts[n - 1], i);
    }
  }

  lemma CurInRange(m: Machine)
    requires InvM(m)
    ensures m.Shape() && m.sched.cur < |m.sched.vcpus|
  {
  }

  /** Before its first trap a vCPU starts with the context it was given at boot. */
  lemma {:induction false} StartsWithBootContext(ms: seq<Machine>, ts: seq<Trap>, i: nat, n: nat)
    requires IsRun(ms, ts) && n <= |ts| && i < |ms[0].sched.vcpus|
    requires forall j :: 0 <= j < n ==> ms[j].sched.cur != i
    ensures i < |ms[n].sched.vcpus| && RegsOf(ms[n].sched, i) == RegsOf(ms[0].sched, i)
    decreases n
  {
    hide Local, InvM, Step, Possible, Resumed, RegsOf;
    if n > 0 {
      StartsWithBootContext(ms, ts, i, n - 1);
      RunInv(ms, ts, n - 1);
      assert Returns(ms[n - 1], ts[n - 1], ms[n]);
      StepRegs(ms[n - 1], ts[n - 1], i);
    }
  }
}
