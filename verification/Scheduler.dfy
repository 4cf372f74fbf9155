/** scheduler.c: the scheduler that changes its vCPUs, the live registers and the HCR flags in place. */
module Scheduler {
  import opened Wrappers
  import opened Tlb
  import opened Cpu
  import opened Vcpu
  import opened Virq
  import opened Timers
  import opened Mmu
  import opened Vm
  import opened SchedulerSpec

  lemma WrapIsMod(start: nat, offset: nat, n: nat)
    requires start < n && offset <= n
    ensures (start + offset) % n == Wrap(start + offset, n)
  {
    if start + offset >= n {
      assert start + offset == n + (start + offset - n);
      ModOnce(start + offset - n, n);
    }
  }

  lemma ModOnce(x: nat, n: nat)
    requires x < n
    ensures (n + x) % n == x
  {
  }

  class HvScheduler {
    const vms: seq<HvVm>
    const vcpus: seq<HvVcpu>
    var curIdx: nat
    var curVcpu: HvVcpu

    /** The static scheduler, before hv_scheduler_init. */
    constructor (vms: seq<HvVm>, vcpus: seq<HvVcpu>)
      requires |vcpus| >= 1
      ensures this.vms == vms && this.vcpus == vcpus && curIdx == 0 && curVcpu == vcpus[0]
    {
      this.vms := vms;
      this.vcpus := vcpus;
      curIdx := 0;
      curVcpu := vcpus[0];
    }

    /** The arrays hold distinct objects, and cur_vcpu is the one cur_idx names. */
    predicate Valid()
      reads this, vcpus
    {
      |vcpus| >= 2 && |vms| == |vcpus| - 1 && curIdx < |vcpus| && curVcpu == vcpus[curIdx] &&
      (forall i, j :: 0 <= i < j < |vcpus| ==> vcpus[i] != vcpus[j]) &&
      forall i :: 0 <= i < |vcpus| ==> vcpus[i].vm.Some? ==> vcpus[i].vm.value < |vms|
    }

    function Values(): (vs: seq<VcpuVal>)
      reads vcpus
      ensures |vs| == |vcpus|
    {
      seq(|vcpus|, i requires 0 <= i < |vcpus| reads vcpus => vcpus[i].Value())
    }

    function VmValues(): (vs: seq<VmVal>)
      reads vms, set vm | vm in vms :: vm.stage2
      ensures |vs| == |vms|
    {
      seq(|vms|, i requires 0 <= i < |vms| reads vms, set vm | vm in vms :: vm.stage2 =>
        VmVal(VttbrFor(vms[i].vmid, vms[i].stage2.rootPa), vms[i].regions))
    }

    /** The scheduler's state with the CPU's, as the specification sees it. */
    function View(cpu: Cpu): (s: Sched)
      requires Valid()
      reads this, vcpus, cpu, vms, set vm | vm in vms :: vm.stage2
      ensures s.Shape()
    {
      Sched(Values(), curIdx, cpu.Value(), VmValues())
    }

    /** Only vCPU i has changed. */
    twostate lemma OneChanged(i: nat)
      requires i < |vcpus| && forall j :: 0 <= j < |vcpus| && j != i ==> vcpus[j].Value() == old(vcpus[j].Value())
      ensures Values() == old(Values())[i := vcpus[i].Value()]
    {
    }

    /** hv_scheduler_sync_traps */
    method SyncTraps(nextIdx: nat, cpu: Cpu)
      requires Valid()
      modifies cpu`hcr, cpu`log
      ensures cpu.hcr == With(old(cpu.hcr), HCR_TWI, nextIdx != |vcpus| - 1)
      ensures cpu.log == old(cpu.log) + [if nextIdx != |vcpus| - 1 then SetHcr(HCR_TWI) else ClearHcr(HCR_TWI)]
    {
      if nextIdx == |vcpus| - 1 {
        cpu.ClearHcrBit(HCR_TWI);
      } else {
        cpu.SetHcrBit(HCR_TWI);
      }
    }

    /** hv_scheduler_pick_next_idx */
    method PickNextIdx() returns (next: Option<nat>)
      requires Valid()
      ensures next == PickNext(Values(), curIdx)
    {
      for offset := 1 to |vcpus| + 1
        invariant PickNext(Values(), curIdx) == PickFrom(Values(), curIdx, offset)
      {
        WrapIsMod(curIdx, offset, |vcpus|);
        var idx := (curIdx + offset) % |vcpus|;
        if idx == |vcpus| - 1 {
          continue;
        }
        if vcpus[idx].state == Runnable {
          return Some(idx);
        }
      }
      return None;
    }

    /** hv_scheduler_has_runnable */
    method HasRunnable() returns (found: bool)
      requires Valid()
      ensures found <==> exists i: nat :: RunnableGuest(Values(), i)
    {
      for i := 0 to |vcpus| - 1
        invariant forall j: nat :: j < i ==> !RunnableGuest(Values(), j)
      {
        if vcpus[i].state == Runnable {
          assert RunnableGuest(Values(), i);
          return true;
        }
      }
      return false;
    }

    method ActivateFor(vcpu: HvVcpu, cpu: Cpu)
      requires Valid() && vcpu in vcpus
      modifies cpu`hcr, cpu`vtcr, cpu`vttbr, cpu`log
      ensures View(cpu) == SchedulerSpec.Activate(old(View(cpu)), vcpu.Value())
      ensures Calls(old(cpu.log)) ==> Calls(cpu.log)
    {
      hide With, VttbrFor, Calls, IsCall;
      ActivateVcpu(if vcpu.vm.None? then None else Some(vms[vcpu.vm.value]), cpu);
      LogActivation(old(cpu.log), cpu.log, cpu.vttbr);
    }

    /** Traps and address translation for the current vCPU, as both hv_scheduler_switch_to and
        hv_scheduler_enter_idle set them. */
    method SyncAndActivate(cpu: Cpu)
      requires Valid()
      modifies cpu`hcr, cpu`vtcr, cpu`vttbr, cpu`log
      ensures View(cpu) == SchedulerSpec.SyncAndActivate(old(View(cpu)))
      ensures Calls(old(cpu.log)) ==> Calls(cpu.log)
    {
      hide With, VttbrFor, Calls, IsCall, SchedulerSpec.Activate;
      SyncTraps(curIdx, cpu);
      LogFlag(old(cpu.log), HCR_TWI);
      ActivateFor(curVcpu, cpu);
    }

    method MarkRunning(cpu: Cpu, next: nat)
      requires Valid() && next < |vcpus|
      modifies this`curIdx, this`curVcpu, vcpus[next]
      ensures Valid() && View(cpu) == SchedulerSpec.MarkRunning(old(View(cpu)), next) && curIdx == next
    {
      hide VttbrFor;
      vcpus[next].state := Running;
      curIdx := next;
      curVcpu := vcpus[next];
      OneChanged(next);
    }

    /** hv_vcpu_load of the current vCPU */
    method LoadCurrent(cpu: Cpu)
      requires Valid()
      modifies curVcpu`context, cpu`frame, cpu`banked, cpu`vbar
      ensures Valid() && View(cpu) == SchedulerSpec.LoadCurrent(old(View(cpu)))
    {
      hide VttbrFor;
      curVcpu.Load(cpu);
      OneChanged(curIdx);
    }

    /** hv_virq_sync of the current vCPU */
    method SyncVirqs(cpu: Cpu)
      requires Valid()
      modifies cpu`hcr, cpu`log
      ensures View(cpu) == SyncVirq(old(View(cpu)), old(View(cpu)).Current())
      ensures Calls(old(cpu.log)) ==> Calls(cpu.log)
    {
      hide With, VttbrFor, Calls, IsCall;
      Virq.Sync(curVcpu, cpu);
      LogFlag(old(cpu.log), HCR_VI);
    }

    /** A running current vCPU goes back among the runnable ones. */
    method Demote(cpu: Cpu)
      requires Valid()
      modifies curVcpu`state
      ensures Valid() && View(cpu) == PutBack(old(View(cpu)))
    {
      hide VttbrFor;
      if curVcpu.state == Running {
        curVcpu.state := if curVcpu.id == IDLE_VCPU_ID then Idle else Runnable;
      }
      OneChanged(curIdx);
    }

    /** The first half of hv_scheduler_switch_to: the current vCPU is saved and no longer running. */
    method SaveCurrent(cpu: Cpu)
      requires Valid()
      modifies curVcpu
      ensures Valid() && View(cpu) == PutBack(Saved(old(View(cpu))))
    {
      hide VttbrFor, PutBack;
      curVcpu.Save(cpu);
      OneChanged(curIdx);
      Demote(cpu);
    }

    /** The second half: vCPU next gets the CPU. */
    method Resume(cpu: Cpu, next: nat)
      requires Valid() && next < |vcpus|
      modifies this`curIdx, this`curVcpu, vcpus[next], cpu
      ensures Valid() && View(cpu) == Resumed(old(View(cpu)), next)
      ensures Calls(old(cpu.log)) ==> Calls(cpu.log)
    {
      hide With, Calls, HvScheduler.VmValues, HvScheduler.Values, SchedulerSpec.SyncAndActivate;
      hide SchedulerSpec.MarkRunning, SchedulerSpec.LoadCurrent, SyncVirq;
      MarkRunning(cpu, next);
      SyncAndActivate(cpu);
      LoadCurrent(cpu);
      SyncVirqs(cpu);
    }

    /** hv_scheduler_switch_to */
    method SwitchTo(cpu: Cpu, next: nat)
      requires Valid() && next < |vcpus|
      modifies this`curIdx, this`curVcpu, vcpus, cpu
      ensures Valid() && View(cpu) == SchedulerSpec.SwitchTo(old(View(cpu)), next)
      ensures Calls(old(cpu.log)) ==> Calls(cpu.log)
    {
      hide Saved, PutBack, SchedulerSpec.Resumed, Calls, HvScheduler.VmValues, HvScheduler.Values;
      SaveCurrent(cpu);
      Resume(cpu, next);
    }

    /** hv_scheduler_enter_idle */
    method EnterIdle(cpu: Cpu)
      requires Valid()
      modifies this`curIdx, this`curVcpu, vcpus, cpu
      ensures Valid() && View(cpu) == SchedulerSpec.EnterIdle(old(View(cpu)))
      ensures Calls(old(cpu.log)) ==> Calls(cpu.log)
    {
      hide With, Calls, SchedulerSpec.SwitchTo, SchedulerSpec.SyncAndActivate, SyncVirq, HvScheduler.VmValues;
      hide HvScheduler.Values;
      var idle := |vcpus| - 1;
      if curVcpu == vcpus[idle] {
        MarkRunning(cpu, idle);
        SyncAndActivate(cpu);
        SyncVirqs(cpu);
      } else {
        SwitchTo(cpu, idle);
      }
    }

    /** hv_scheduler_advance */
    method Advance(cpu: Cpu)
      requires Valid()
      modifies this`curIdx, this`curVcpu, vcpus, cpu
      ensures Valid() && View(cpu) == SchedulerSpec.Advance(old(View(cpu)))
      ensures Calls(old(cpu.log)) ==> Calls(cpu.log)
    {
      hide Calls, SchedulerSpec.SwitchTo, SchedulerSpec.EnterIdle, PickNext, HvScheduler.VmValues, HvScheduler.Values;
      hide PutBack;
      Demote(cpu);
      var next := PickNextIdx();
      if next.None? {
        EnterIdle(cpu);
      } else {
        SwitchTo(cpu, next.value);
      }
    }

    /** hv_scheduler_yield */
    method Yield(cpu: Cpu)
      requires Valid()
      modifies this`curIdx, this`curVcpu, vcpus, cpu
      ensures Valid() && View(cpu) == SchedulerSpec.Yield(old(View(cpu)))
      ensures Calls(old(cpu.log)) ==> Calls(cpu.log)
    {
      hide Calls, SchedulerSpec.SwitchTo, PickNext, HvScheduler.VmValues;
      var cur := curVcpu;
      cur.state := Runnable;
      OneChanged(curIdx);
      var next := PickNextIdx();
      if next.None? || vcpus[next.value] == cur {
        cur.state := Running;
        OneChanged(curIdx);
        return;
      }
      SwitchTo(cpu, next.value);
    }

    /** hv_scheduler_handle_wfi */
    method HandleWfi(cpu: Cpu)
      requires Valid()
      modifies this`curIdx, this`curVcpu, vcpus, cpu
      ensures Valid() && View(cpu) == (var (s, d) := Wfi(old(View(cpu))); Decide(s, d))
      ensures Calls(old(cpu.log)) ==> Calls(cpu.log)
    {
      hide With, Calls, SchedulerSpec.Advance, SchedulerSpec.EnterIdle, Frame.Advanced, HvScheduler.VmValues;
      if curVcpu.id == IDLE_VCPU_ID {
        EnterIdle(cpu);
        return;
      }
      cpu.frame := cpu.frame.Advanced();
      if curVcpu.pending != 0 {
        SyncVirqs(cpu);
        return;
      }
      curVcpu.Block();
      OneChanged(curIdx);
      Advance(cpu);
    }

    /** hv_vtimer_rearm_physical */
    method RearmPhysical(now: nat, cpu: Cpu)
      requires Valid()
      modifies cpu`oneShot
      ensures View(cpu) == Rearm(old(View(cpu)), now)
    {
      hide HvScheduler.VmValues, Ticks;
      var earliest: Option<nat> := None;
      for i := 0 to |vcpus| - 1
        invariant earliest == Earliest(Values(), i)
      {
        var vcpu := vcpus[i];
        if vcpu.state == Idle || vcpu.state == Exited || !vcpu.timer.enabled {
          continue;
        }
        if earliest.None? || vcpu.timer.deadline < earliest.value {
          earliest := Some(vcpu.timer.deadline);
        }
      }
      if earliest.None? {
        cpu.oneShot := Disarmed;
        return;
      }
      var delta := if earliest.value > now then earliest.value - now else 1;
      if delta > TIM_ARM_TIMER_MAX_DELTA_US {
        delta := TIM_ARM_TIMER_MAX_DELTA_US;
      }
      ArmUsec(delta, cpu);
    }
  }

  lemma LogFlag(log: seq<Tlb.Op>, bit: nat)
    requires bit != HCR_VM
    ensures Calls(log) ==> Calls(log + [SetHcr(bit)]) && Calls(log + [ClearHcr(bit)])
  {
    hide Calls;
    if Calls(log) {
      CallsAppend(log, [SetHcr(bit)]);
      CallsAppend(log, [ClearHcr(bit)]);
    }
  }

  lemma LogActivation(log: seq<Tlb.Op>, log': seq<Tlb.Op>, vttbr: nat)
    requires log' == log + DeactivateOps() || log' == log + ActivateOps(vttbr)
    ensures Calls(log) ==> Calls(log')
  {
    hide Calls;
    if Calls(log) {
      CallsAppend(log, if log' == log + DeactivateOps() then DeactivateOps() else ActivateOps(vttbr));
    }
  }
}
