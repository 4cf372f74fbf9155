/** scheduler.c as functions on values: which vCPU runs next, and what a switch does to the saved contexts,
    the live registers and the HCR flags. */
module SchedulerSpec {
  import opened Wrappers
  import opened Tlb
  import opened Cpu
  import opened Vcpu
  import opened Virq
  import opened Timers
  import opened Regions
  import opened Mmu

  /** What running a VM needs of its HvVm, fixed once the VM is built. */
  datatype VmVal = VmVal(vttbr: nat, regions: seq<Region>)

  /** The scheduler with the CPU it switches. The last vCPU is the idle one; cur is cur_idx, and cur_vcpu
      points to vcpus[cur]. */
  datatype Sched = Sched(vcpus: seq<VcpuVal>, cur: nat, cpu: CpuVal, vms: seq<VmVal>)
  {
    function Guests(): int {
      |vcpus| - 1
    }

    predicate Shape() {
      |vcpus| >= 2 && cur < |vcpus| && |vms| == |vcpus| - 1 &&
      forall i :: 0 <= i < |vcpus| ==> vcpus[i].vm.Some? ==> vcpus[i].vm.value < |vms|
    }

    function Current(): VcpuVal
      requires cur < |vcpus|
    {
      vcpus[cur]
    }

    function WithVcpu(i: nat, v: VcpuVal): Sched
      requires i < |vcpus|
    {
      this.(vcpus := vcpus[i := v])
    }
  }

  // ----- Picking -----

  function Wrap(x: nat, n: nat): nat {
    if x >= n then x - n else x
  }

  /** The search of hv_scheduler_pick_next_idx from a given offset on. */
  function PickFrom(vs: seq<VcpuVal>, start: nat, offset: nat): (idx: Option<nat>)
    requires start < |vs| && 1 <= offset <= |vs| + 1
    ensures idx.Some? ==> idx.value < |vs| - 1 && vs[idx.value].state == Runnable
    decreases |vs| + 1 - offset
  {
    if offset > |vs| then None
    else
      var idx := Wrap(start + offset, |vs|);
      if idx != |vs| - 1 && vs[idx].state == Runnable then Some(idx) else PickFrom(vs, start, offset + 1)
  }

  function PickNext(vs: seq<VcpuVal>, start: nat): (idx: Option<nat>)
    requires start < |vs|
    ensures idx.Some? ==> idx.value < |vs| - 1 && vs[idx.value].state == Runnable
  {
    PickFrom(vs, start, 1)
  }

  /** How far ahead of start index v lies in round-robin order: 1 for the next one, n for start itself. */
  function Offset(start: nat, v: nat, n: nat): int {
    if v > start then v - start else v - start + n
  }

  predicate RunnableGuest(vs: seq<VcpuVal>, i: nat) {
    i < |vs| - 1 && vs[i].state == Runnable
  }

  lemma {:induction false} PickFromIsNearest(vs: seq<VcpuVal>, start: nat, offset: nat)
    requires start < |vs| && 1 <= offset <= |vs| + 1
    requires forall i: nat :: RunnableGuest(vs, i) ==> Offset(start, i, |vs|) >= offset
    ensures match PickFrom(vs, start, offset)
      case None => forall i: nat :: !RunnableGuest(vs, i)
      case Some(idx) =>
        RunnableGuest(vs, idx) &&
        forall i: nat :: RunnableGuest(vs, i) ==> Offset(start, idx, |vs|) <= Offset(start, i, |vs|)
    decreases |vs| + 1 - offset
  {
    if offset <= |vs| {
      var idx := Wrap(start + offset, |vs|);
      assert Offset(start, idx, |vs|) == offset;
      if !(idx != |vs| - 1 && vs[idx].state == Runnable) {
        forall i: nat | RunnableGuest(vs, i)
          ensures Offset(start, i, |vs|) >= offset + 1
        {
          assert i != idx;
        }
        PickFromIsNearest(vs, start, offset + 1);
      }
    }
  }

  /** Round robin: the nearest runnable guest ahead of start, and none only if no guest is runnable. */
  lemma PickNextIsNearest(vs: seq<VcpuVal>, start: nat)
    requires start < |vs|
    ensures match PickNext(vs, start)
      case None => forall i: nat :: !RunnableGuest(vs, i)
      case Some(idx) =>
        RunnableGuest(vs, idx) &&
        forall i: nat :: RunnableGuest(vs, i) ==> Offset(start, idx, |vs|) <= Offset(start, i, |vs|)
  {
    PickFromIsNearest(vs, start, 1);
  }

  // ----- Switching -----

  /** hv_mmu_activate_vcpu */
  function Activate(s: Sched, v: VcpuVal): Sched
    requires v.vm.Some? ==> v.vm.value < |s.vms|
  {
    match v.vm
    case None => s.(cpu := s.cpu.(hcr := With(s.cpu.hcr, HCR_VM, false)))
    case Some(i) =>
      s.(cpu := s.cpu.(vtcr := VTCR_DEFAULT, vttbr := s.vms[i].vttbr, hcr := With(s.cpu.hcr, HCR_VM, true)))
  }

  /** hv_virq_sync */
  function SyncVirq(s: Sched, v: VcpuVal): Sched {
    s.(cpu := s.cpu.(hcr := With(s.cpu.hcr, HCR_VI, v.pending != 0)))
  }

  /** hv_scheduler_sync_traps */
  function SyncTraps(s: Sched, idx: nat): Sched {
    s.(cpu := s.cpu.(hcr := With(s.cpu.hcr, HCR_TWI, idx != |s.vcpus| - 1)))
  }

  /** hv_vcpu_save of the live registers into the current vCPU */
  function Saved(s: Sched): (r: Sched)
    requires s.Shape()
    ensures r.Shape() && r.cur == s.cur && |r.vcpus| == |s.vcpus|
  {
    s.WithVcpu(s.cur, s.Current().(context := Context(s.cpu.frame, s.cpu.banked, s.cpu.vbar, s.cpu.vbar)))
  }

  function Demoted(v: VcpuVal): VcpuVal {
    if v.state == Running then v.(state := if v.IsIdleVcpu() then Idle else Runnable) else v
  }

  /** s with its current vCPU put back among the runnable ones, if it was running. */
  function PutBack(s: Sched): (r: Sched)
    requires s.Shape()
    ensures r.Shape() && r.cur == s.cur && |r.vcpus| == |s.vcpus|
  {
    s.WithVcpu(s.cur, Demoted(s.Current()))
  }

  /** hv_vcpu_load of the current vCPU; it takes VBAR from the second copy, and refreshes the first. */
  function LoadCurrent(s: Sched): (r: Sched)
    requires s.cur < |s.vcpus|
    ensures |r.vcpus| == |s.vcpus| && r.cur == s.cur
  {
    var c := s.Current().context;
    s.WithVcpu(s.cur, s.Current().(context := c.(vbar := c.sysVbar))).(
      cpu := s.cpu.(frame := c.frame, banked := c.banked, vbar := c.sysVbar))
  }

  function MarkRunning(s: Sched, next: nat): Sched
    requires next < |s.vcpus|
  {
    s.WithVcpu(next, s.vcpus[next].(state := Running)).(cur := next)
  }

  /** hv_scheduler_sync_traps and hv_mmu_activate_vcpu for the current vCPU */
  function SyncAndActivate(s: Sched): (r: Sched)
    requires s.Shape()
    ensures r.vcpus == s.vcpus && r.cur == s.cur
  {
    Activate(SyncTraps(s, s.cur), s.Current())
  }

  /** vCPU next gets the CPU. */
  function Resumed(s: Sched, next: nat): (r: Sched)
    requires s.Shape() && next < |s.vcpus|
    ensures |r.vcpus| == |s.vcpus|
  {
    var loaded := LoadCurrent(SyncAndActivate(MarkRunning(s, next)));
    SyncVirq(loaded, loaded.Current())
  }

  /** hv_scheduler_switch_to */
  function SwitchTo(s: Sched, next: nat): (r: Sched)
    requires s.Shape() && next < |s.vcpus|
    ensures |r.vcpus| == |s.vcpus|
  {
    Resumed(PutBack(Saved(s)), next)
  }

  /** hv_scheduler_enter_idle */
  function EnterIdle(s: Sched): (r: Sched)
    requires s.Shape()
    ensures |r.vcpus| == |s.vcpus|
  {
    var idle := |s.vcpus| - 1;
    if s.cur == idle then
      var active := SyncAndActivate(MarkRunning(s, idle));
      SyncVirq(active, active.Current())
    else SwitchTo(s, idle)
  }

  /** hv_scheduler_advance */
  function Advance(s: Sched): (r: Sched)
    requires s.Shape()
    ensures |r.vcpus| == |s.vcpus|
  {
    var demoted := PutBack(s);
    match PickNext(demoted.vcpus, s.cur)
    case None => EnterIdle(demoted)
    case Some(next) => SwitchTo(demoted, next)
  }

  /** hv_scheduler_yield */
  function Yield(s: Sched): (r: Sched)
    requires s.Shape()
    ensures |r.vcpus| == |s.vcpus|
  {
    var ready := s.WithVcpu(s.cur, s.Current().(state := Runnable));
    match PickNext(ready.vcpus, s.cur)
    case None => s.WithVcpu(s.cur, s.Current().(state := Running))
    case Some(next) =>
      if next == s.cur then s.WithVcpu(s.cur, s.Current().(state := Running)) else SwitchTo(ready, next)
  }

  // ----- How a handler ends -----

  /** What a handler hands over to: the interrupted vCPU, nothing (HYP_ACTION_HALT), or one of the
      scheduler's entry points. */
  datatype Decision = Resume | Halt | ToAdvance | ToYield | ToIdle

  function Decide(s: Sched, d: Decision): (r: Sched)
    requires s.Shape()
    ensures |r.vcpus| == |s.vcpus|
  {
    match d
    case Resume | Halt => s
    case ToAdvance => Advance(s)
    case ToYield => Yield(s)
    case ToIdle => EnterIdle(s)
  }

  /** hv_scheduler_handle_wfi, up to the scheduling decision */
  function Wfi(s: Sched): (r: (Sched, Decision))
    requires s.Shape()
    ensures r.0.Shape()
  {
    if s.Current().IsIdleVcpu() then (s, ToIdle)
    else
      var stepped := s.(cpu := s.cpu.(frame := s.cpu.frame.Advanced()));
      if s.Current().pending != 0 then (SyncVirq(stepped, s.Current()), Resume)
      else (stepped.WithVcpu(s.cur, s.Current().(state := Blocked)), ToAdvance)
  }

  /** hv_vtimer_rearm_physical */
  function Rearm(s: Sched, now: nat): Sched
    requires |s.vcpus| >= 1
  {
    s.(cpu := s.cpu.(oneShot := Rearmed(s.vcpus, |s.vcpus| - 1, now)))
  }

  /** hv_vcpu_timer_disable, EXITED and hv_vtimer_rearm_physical: how a guest is stopped */
  function Stop(s: Sched, now: nat): (r: Sched)
    requires s.Shape()
    ensures r.Shape()
  {
    Rearm(s.WithVcpu(s.cur, s.Current().(timer := TIMER_OFF, state := Exited)), now)
  }
}
