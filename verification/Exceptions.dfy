/** hyp-exceptions.c and hypercall.c: the handlers that change the hypervisor in place, proved against Handlers.

    The clock and the pending interrupts that a handler reads are the fields of its Trap argument. */
module Exceptions {
  import opened Wrappers
  import opened Bits
  import opened Tlb
  import opened Cpu
  import opened Regions
  import opened Vuart
  import opened Mmio
  import opened Vcpu
  import opened Virq
  import opened Timers
  import opened Vm
  import opened SchedulerSpec
  import opened Scheduler
  import opened Handlers

  datatype Action = Return | HaltAction

  function ActionOf(d: Decision): Action {
    if d == Halt then HaltAction else Return
  }

  class Hypervisor {
    const scheduler: HvScheduler
    const cpu: Cpu
    const uarts: VirtualUarts
    var counter: Word

    constructor (scheduler: HvScheduler, cpu: Cpu, uarts: VirtualUarts)
      ensures this.scheduler == scheduler && this.cpu == cpu && this.uarts == uarts && counter == 0
    {
      this.scheduler := scheduler;
      this.cpu := cpu;
      this.uarts := uarts;
      counter := 0;
    }

    /** Every VM has its own device, found by its id. */
    predicate Valid()
      reads this, scheduler, scheduler.vcpus, scheduler.vms
    {
      scheduler.Valid() && uarts.vuarts.Length == |scheduler.vms| &&
      forall i :: 0 <= i < |scheduler.vms| ==> scheduler.vms[i].id == i
    }

    function View(): (m: Machine)
      requires Valid()
      reads this, scheduler, scheduler.vcpus, scheduler.vms, cpu, set vm | vm in scheduler.vms :: vm.stage2
      reads uarts.vuarts, uarts.console
      ensures m.Shape()
    {
      Machine(scheduler.View(cpu), uarts.vuarts[..], uarts.console.line, counter)
    }

    // ----- hypercall.c -----

    method CallVirqClaim()
      requires Valid()
      modifies scheduler.curVcpu, cpu
      ensures Valid() && View() == Handlers.CallVirqClaim(old(View()))
      ensures Calls(old(cpu.log)) ==> Calls(cpu.log)
    {
      hide With, ClaimOn, HvScheduler.VmValues, Calls, SyncVirq;
      var line := Claim(scheduler.curVcpu);
      scheduler.OneChanged(scheduler.curIdx);
      scheduler.SyncVirqs(cpu);
      cpu.frame := cpu.frame.WithReg0(if line.None? then ERR_NO_PENDING else line.value);
    }

    method CallVirqComplete()
      requires Valid()
      modifies scheduler.curVcpu, cpu
      ensures Valid() && View() == Handlers.CallVirqComplete(old(View()))
      ensures Calls(old(cpu.log)) ==> Calls(cpu.log)
    {
      hide With, CompleteOn, CompleteResultOf, HvScheduler.VmValues, Calls, SyncVirq;
      var res := Complete(scheduler.curVcpu, cpu.frame.r[1]);
      scheduler.OneChanged(scheduler.curIdx);
      scheduler.SyncVirqs(cpu);
      cpu.frame := cpu.frame.WithReg0(if res == Completed then SUCCESS else ERR_INVALID);
    }

    /** How a guest is stopped, up to the rearming of the one-shot */
    method ExitCurrent(t: Trap)
      requires Valid()
      modifies scheduler.curVcpu`timer, scheduler.curVcpu`state, cpu`oneShot
      ensures Valid() && cpu.log == old(cpu.log)
      ensures View() == var m := old(View()); m.(sched := Stop(m.sched, t.later))
    {
      hide Rearmed, HvScheduler.VmValues;
      scheduler.curVcpu.TimerDisable();
      scheduler.curVcpu.state := Exited;
      scheduler.OneChanged(scheduler.curIdx);
      scheduler.RearmPhysical(t.later, cpu);
    }

    /** The exit hypercall, and stop_current_guest_vcpu */
    method StopCurrent(t: Trap)
      requires Valid()
      modifies scheduler`curIdx, scheduler`curVcpu, scheduler.vcpus, cpu
      ensures Valid() && View() == Concluded(Handlers.StopCurrent(old(View()), t))
      ensures Calls(old(cpu.log)) ==> Calls(cpu.log)
    {
      hide Stop, HvScheduler.VmValues, HvScheduler.Values, Calls, SchedulerSpec.Advance;
      ExitCurrent(t);
      scheduler.Advance(cpu);
    }

    /** The result of a hypercall */
    method SetReg0(value: Word)
      requires Valid()
      modifies cpu`frame
      ensures Valid() && View() == old(View()).WithReg0(value) && cpu.log == old(cpu.log)
    {
      hide HvScheduler.VmValues, HvScheduler.Values;
      cpu.frame := cpu.frame.WithReg0(value);
    }

    method PutChar(value: Word)
      requires Valid()
      modifies uarts.console
      ensures Valid() && View() == var m := old(View()); m.(line := m.line.(tx := m.line.tx + [And32(value, 0xff)]))
    {
      hide HvScheduler.VmValues, HvScheduler.Values;
      uarts.console.Put8(value);
    }

    method TimerFrequency()
      requires Valid()
      modifies cpu`frame
      ensures Valid() && cpu.log == old(cpu.log)
      ensures var m := old(View());
        View() == m.WithReg0(if m.Current().IsIdleVcpu() then 0 else m.Current().Frequency())
    {
      hide HvScheduler.VmValues;
      var vcpu := scheduler.curVcpu.Value();
      SetReg0(if vcpu.IsIdleVcpu() then 0 else vcpu.Frequency());
    }

    /** hv_vcpu_timer_delay of the current vCPU, and the rearming after it */
    method DelayCurrent(t: Trap, ticks: nat)
      requires Valid() && ticks != 0
      modifies scheduler.curVcpu`timer, scheduler.curVcpu`state, cpu`oneShot
      ensures Valid() && cpu.log == old(cpu.log)
      ensures var m := old(View());
        var d := m.WithCurrent(m.Current().Delayed(t.now, ticks));
        View() == d.(sched := Rearm(d.sched, t.later))
    {
      hide Rearmed, HvScheduler.VmValues;
      scheduler.curVcpu.TimerDelay(t.now, ticks);
      scheduler.OneChanged(scheduler.curIdx);
      scheduler.RearmPhysical(t.later, cpu);
    }

    method CallDelay(t: Trap)
      requires Valid()
      modifies scheduler`curIdx, scheduler`curVcpu, scheduler.vcpus, cpu
      ensures Valid() && View() == Concluded(Handlers.CallDelay(old(View()), t))
      ensures Calls(old(cpu.log)) ==> Calls(cpu.log)
    {
      hide Rearm, HvScheduler.VmValues, HvScheduler.Values, Calls, SchedulerSpec.Advance, VcpuVal.Delayed;
      var ticks := cpu.frame.r[1];
      IdIsInView();
      if scheduler.curVcpu.id == IDLE_VCPU_ID {
        SetReg0(ERR_INVALID);
        return;
      }
      if ticks == 0 {
        SetReg0(SUCCESS);
        return;
      }
      DelayCurrent(t, ticks);
      SetReg0(SUCCESS);
      scheduler.Advance(cpu);
    }

    lemma IdIsInView()
      requires Valid()
      ensures View().Current() == scheduler.curVcpu.Value()
    {
    }

    /** hyp_handle_guest_hypercall */
    method Hypercall(t: Trap) returns (action: Action)
      requires Valid()
      modifies scheduler`curIdx, scheduler`curVcpu, scheduler.vcpus, cpu, uarts.console
      ensures Valid() && View() == Concluded(Handlers.Hypercall(old(View()), t))
      ensures action == ActionOf(Handlers.Hypercall(old(View()), t).1)
      ensures Calls(old(cpu.log)) ==> Calls(cpu.log)
    {
      hide HvScheduler.Values, HvScheduler.VmValues, Calls;
      hide Stop, Handlers.CallVirqClaim, Handlers.CallVirqComplete, Handlers.CallDelay, SchedulerSpec.Yield;
      hide VcpuVal.Frequency;
      var call, arg := cpu.frame.r[0], cpu.frame.r[1];
      action := Return;
      if call == CALL_GET_ABI_VERSION {
        SetReg0(ABI_VERSION);
      } else if call == CALL_GET_FEATURES {
        SetReg0(ALL_FEATURES);
      } else if call == CALL_EXIT {
        StopCurrent(t);
      } else if call == CALL_YIELD {
        scheduler.Yield(cpu);
      } else if call == CALL_PUTCHAR {
        PutChar(arg);
        SetReg0(SUCCESS);
      } else if call == CALL_GET_HYP_IRQ_COUNT {
        SetReg0(counter);
      } else if call == CALL_VIRQ_CLAIM {
        CallVirqClaim();
      } else if call == CALL_VIRQ_COMPLETE {
        CallVirqComplete();
      } else if call == CALL_TIMER_GET_TICKS {
        SetReg0(t.now);
      } else if call == CALL_TIMER_DELAY_TICKS {
        CallDelay(t);
      } else if call == CALL_TIMER_GET_FREQ {
        TimerFrequency();
      } else {
        SetReg0(ERR_UNKNOWN);
        action := HaltAction;
      }
    }

    // ----- hyp-exceptions.c -----

    /** One turn of deliver_expired_timers */
    method DeliverTo(vcpu: HvVcpu, now: nat) returns (delivered: bool)
      modifies vcpu`pending, vcpu`state, vcpu`timer
      ensures vcpu.Value() == DeliverOne(old(vcpu.Value()), now) && delivered == Delivers(old(vcpu.Value()), now)
    {
      hide IsSet, SetBit, NextDeadline;
      var expired := vcpu.TimerExpired(now);
      if vcpu.state == Idle || vcpu.state == Exited || !expired {
        return false;
      }
      var res := Raise(vcpu, VIRQ_TIMER);
      if res == RaiseBusy {
        vcpu.TimerAdvance(now);
        return true;
      }
      if res != Raised {
        return false;
      }
      vcpu.TimerAdvance(now);
      return true;
    }

    /** deliver_expired_timers */
    method DeliverExpiredTimers(now: nat) returns (delivered: bool)
      requires Valid()
      modifies scheduler.vcpus
      ensures Valid()
      ensures var m := old(View());
        View() == m.(sched := m.sched.(vcpus := Delivered(m.sched.vcpus, |m.sched.vcpus| - 1, now)))
      ensures delivered == old(AnyDelivered(scheduler.Values(), |scheduler.vcpus| - 1, now))
    {
      hide DeliverOne, Delivers, HvScheduler.VmValues;
      ghost var vs := scheduler.Values();
      delivered := false;
      for i := 0 to |scheduler.vcpus| - 1
        invariant Valid() && View() == old(View()).(sched := old(View()).sched.(vcpus := Delivered(vs, i, now)))
        invariant delivered == AnyDelivered(vs, i, now)
      {
        label before: assert scheduler.Values()[i] == vs[i];
        var one := DeliverTo(scheduler.vcpus[i], now);
        scheduler.OneChanged@before(i);
        assert scheduler.Values() == Delivered(vs, i + 1, now);
        delivered := delivered || one;
      }
    }

    method Count()
      requires Valid()
      modifies this`counter
      ensures Valid() && View() == old(View()).Counted()
    {
      counter := (counter + 1) % 0x1_0000_0000;
    }

    method DeliverAndSync(t: Trap)
      requires Valid()
      modifies scheduler.vcpus, cpu
      ensures Valid() && View() == Handlers.DeliverAndSync(old(View()), t)
      ensures Calls(old(cpu.log)) ==> Calls(cpu.log)
    {
      hide Delivered, AnyDelivered, Rearmed, SyncVirq, HvScheduler.VmValues, HvScheduler.Values, Calls;
      var delivered := DeliverExpiredTimers(t.now);
      scheduler.RearmPhysical(t.later, cpu);
      if delivered {
        scheduler.SyncVirqs(cpu);
      }
    }

    /** The BCM timer path of handle_irq */
    method TimerIrq(t: Trap)
      requires Valid()
      modifies this`counter, scheduler`curIdx, scheduler`curVcpu, scheduler.vcpus, cpu
      ensures Valid() && View() == Concluded(Handlers.TimerIrq(old(View()), t))
      ensures Calls(old(cpu.log)) ==> Calls(cpu.log)
    {
      hide Handlers.DeliverAndSync, SchedulerSpec.Advance, HvScheduler.VmValues, HvScheduler.Values, Calls;
      ghost var m := View();
      Count();
      DeliverAndSync(t);
      DeliveryKeepsIdle(m.Counted(), t);
      IdIsInView();
      if scheduler.curVcpu.id == IDLE_VCPU_ID {
        scheduler.Advance(cpu);
      }
    }

    method EmulateAccess(vm: HvVm) returns (ok: bool)
      requires Valid() && vm in scheduler.vms && vm.id < uarts.vuarts.Length
      modifies cpu`frame, uarts.vuarts, uarts.console
      ensures Valid() && cpu.log == old(cpu.log)
      ensures var m := old(View());
        var o := HandleFault(m.Frame(), m.uarts[vm.id], m.line, vm.regions, DecodeFault(m.Frame()));
        ok == o.ok && View() == m.WithFrame(o.frame).(uarts := m.uarts[vm.id := o.uart], line := o.line)
    {
      hide HandleFault, DecodeFault, HvScheduler.VmValues, HvScheduler.Values;
      ok := HandleMmioFault(cpu, vm, DecodeFault(cpu.frame), uarts);
    }

    method AdvanceInstr()
      requires Valid()
      modifies cpu`frame
      ensures Valid() && View() == old(View()).WithFrame(old(View()).Frame().Advanced()) && cpu.log == old(cpu.log)
    {
      hide HvScheduler.VmValues, HvScheduler.Values, Frame.Advanced;
      cpu.frame := cpu.frame.Advanced();
    }

    method MmioAbort(t: Trap, vm: nat)
      requires Valid() && vm < |scheduler.vms|
      modifies scheduler`curIdx, scheduler`curVcpu, scheduler.vcpus, cpu, uarts.vuarts, uarts.console
      ensures Valid() && View() == Concluded(Handlers.MmioAbort(old(View()), t, vm))
      ensures Calls(old(cpu.log)) ==> Calls(cpu.log)
    {
      hide HandleFault, DecodeFault, HvScheduler.Values, Frame.Advanced, Handlers.StopCurrent, Calls;
      var ok := EmulateAccess(scheduler.vms[vm]);
      if ok {
        AdvanceInstr();
      } else {
        StopCurrent(t);
      }
    }

    /** handle_guest_abort */
    method GuestAbort(t: Trap) returns (action: Action)
      requires Valid()
      modifies scheduler`curIdx, scheduler`curVcpu, scheduler.vcpus, cpu, uarts.vuarts, uarts.console
      ensures Valid() && View() == Concluded(Handlers.GuestAbort(old(View()), t))
      ensures action == ActionOf(Handlers.GuestAbort(old(View()), t).1)
      ensures Calls(old(cpu.log)) ==> Calls(cpu.log)
    {
      hide Find, DecodeFault, HvScheduler.Values, Handlers.StopCurrent, Handlers.MmioAbort, Calls;
      IdIsInView();
      var vcpu := scheduler.curVcpu;
      if vcpu.id == IDLE_VCPU_ID || vcpu.vm.None? {
        return HaltAction;
      }
      var vm := scheduler.vms[vcpu.vm.value];
      var found := vm.FindRegion(DecodeFault(cpu.frame).ipa);
      if found.Some? && vm.regions[found.value].kind.Mmio? {
        MmioAbort(t, vcpu.vm.value);
      } else {
        StopCurrent(t);
      }
      return Return;
    }

    method Wfi()
      requires Valid()
      modifies scheduler`curIdx, scheduler`curVcpu, scheduler.vcpus, cpu
      ensures Valid()
      ensures View() == var m := old(View()); var (s, d) := SchedulerSpec.Wfi(m.sched); Concluded((m.(sched := s), d))
      ensures Calls(old(cpu.log)) ==> Calls(cpu.log)
    {
      hide SchedulerSpec.Wfi, Decide, HvScheduler.VmValues, HvScheduler.Values, Calls;
      scheduler.HandleWfi(cpu);
    }

    /** handle_lower_sync */
    method LowerSync(t: Trap) returns (action: Action)
      requires Valid()
      modifies scheduler`curIdx, scheduler`curVcpu, scheduler.vcpus, cpu, uarts.vuarts, uarts.console
      ensures Valid() && View() == Concluded(Handlers.LowerSync(old(View()), t))
      ensures action == ActionOf(Handlers.LowerSync(old(View()), t).1)
      ensures Calls(old(cpu.log)) ==> Calls(cpu.log)
    {
      hide HvScheduler.VmValues, HvScheduler.Values, Handlers.Hypercall, Handlers.GuestAbort, HsrEc, HsrIss, And, Calls;
      hide SchedulerSpec.Advance, SchedulerSpec.EnterIdle;
      var ec, iss := HsrEc(cpu.frame.hsr), HsrIss(cpu.frame.hsr);
      if !EcValidFromLower(ec) {
        return HaltAction;
      }
      if ec == EC_HVC_A32 {
        if And(iss, 0xffff) != 0 {
          return HaltAction;
        }
        action := Hypercall(t);
      } else if ec == EC_WFI_WFE {
        if And(iss, 1) != 0 {
          return HaltAction;
        }
        Wfi();
        action := Return;
      } else if ec == EC_PREFETCH_ABORT_LOWER || ec == EC_DATA_ABORT_LOWER {
        action := GuestAbort(t);
      } else {
        action := HaltAction;
      }
    }

    /** handle_irq */
    method Irq(t: Trap) returns (action: Action)
      requires Valid()
      modifies this`counter, scheduler`curIdx, scheduler`curVcpu, scheduler.vcpus, cpu
      ensures Valid() && View() == Concluded(Handlers.Irq(old(View()), t))
      ensures action == ActionOf(Handlers.Irq(old(View()), t).1)
      ensures Calls(old(cpu.log)) ==> Calls(cpu.log)
    {
      hide HvScheduler.VmValues, HvScheduler.Values, Handlers.DeliverAndSync, SchedulerSpec.Advance, Calls;
      if t.genPending {
        Count();
        scheduler.Advance(cpu);
        return Return;
      }
      if t.bcmPending {
        TimerIrq(t);
        return Return;
      }
      return HaltAction;
    }

    /** hyp_handle_exception */
    method HandleException(t: Trap) returns (action: Action)
      requires Valid()
      modifies this`counter, scheduler`curIdx, scheduler`curVcpu, scheduler.vcpus, cpu, uarts.vuarts, uarts.console
      ensures Valid() && View() == Concluded(Handlers.HandleException(old(View()), t))
      ensures action == ActionOf(Handlers.HandleException(old(View()), t).1)
      ensures Calls(old(cpu.log)) ==> Calls(cpu.log)
    {
      hide HvScheduler.VmValues, HvScheduler.Values, Handlers.LowerSync, Handlers.Irq, HsrEc, Calls;
      var kind := cpu.frame.exceptionType;
      if kind == EXCEPTION_HVC_FROM_HYP {
        action := if HsrEc(cpu.frame.hsr) == EC_HVC_A32 then Return else HaltAction;
      } else if kind == EXCEPTION_LOWER_SYNC {
        action := LowerSync(t);
      } else if kind == EXCEPTION_IRQ {
        action := Irq(t);
      } else {
        action := HaltAction;
      }
    }
  }

  lemma DeliveryKeepsIdle(m: Machine, t: Trap)
    requires m.Shape()
    ensures Handlers.DeliverAndSync(m, t).Current().IsIdleVcpu() == m.Current().IsIdleVcpu()
  {
    hide With, Rearmed, SetBit, NextDeadline;
  }
}
