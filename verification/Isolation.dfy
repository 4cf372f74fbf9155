/** From the boot sequence to physical isolation over whole runs. */
module Isolation {
  import opened Wrappers
  import opened Bits
  import opened Descriptors
  import opened PageTable
  import opened Tlb
  import opened Cpu
  import opened Regions
  import opened Mmu
  import opened Stage2
  import opened Vm
  import opened Vcpu
  import opened Virq
  import opened Timers
  import opened SchedulerSpec
  import opened Scheduler
  import opened Rescheduling
  import opened Handlers
  import opened Steps
  import opened Runs
  import opened GuestSpace

  // ----- The boot sequence -----

  /** The scheduler's arrays: distinct vCPUs, one more than there are VMs. */
  ghost predicate Arrays(s: HvScheduler) {
    |s.vcpus| >= 2 && |s.vms| == |s.vcpus| - 1 && |s.vms| < IDLE_VCPU_ID &&
    forall i, j :: 0 <= i < j < |s.vcpus| ==> s.vcpus[i] != s.vcpus[j]
  }

  /** vcpus[i].vm = &vm[i], and no other field of any vCPU is looked at before hv_vcpu_init. */
  method AssignVms(s: HvScheduler)
    requires Arrays(s)
    modifies s.vcpus
    ensures forall i :: 0 <= i < |s.vms| ==> s.vcpus[i].vm == Some(i)
    ensures s.vcpus[|s.vms|].vm == None
  {
    for i := 0 to |s.vcpus|
      invariant forall j :: 0 <= j < i ==> s.vcpus[j].vm == None
    {
      s.vcpus[i].id, s.vcpus[i].vm, s.vcpus[i].state := i, None, Idle;
      s.vcpus[i].pending, s.vcpus[i].active := 0, 0;
    }
    for i := 0 to |s.vms|
      invariant forall j :: 0 <= j < i ==> s.vcpus[j].vm == Some(j)
      invariant forall j :: i <= j < |s.vcpus| ==> s.vcpus[j].vm == None
    {
      s.vcpus[i].vm := Some(i);
    }
  }

  /** What hv_scheduler_init leaves of the vCPUs: the idle one ready, the guests' VMs set. */
  ghost predicate Initialised(s: HvScheduler, cpsr: Word, idleEntry: Word, idleStack: Word)
    reads s, s.vcpus
  {
    s.Valid() && s.curIdx == 0 && (forall i :: 0 <= i < |s.vms| ==> s.vcpus[i].vm == Some(i)) &&
    s.vcpus[|s.vms|].Value() == FreshVcpu(IDLE_VCPU_ID, None, idleEntry, idleStack, cpsr).(state := Idle)
  }

  method InitVcpus(s: HvScheduler, cpsr: Word, idleEntry: Word, idleStack: Word)
    requires Arrays(s)
    modifies s`curIdx, s`curVcpu, s.vcpus
    ensures Initialised(s, cpsr, idleEntry, idleStack)
  {
    hide FreshContext;
    s.curIdx := 0;
    AssignVms(s);
    var idle := s.vcpus[|s.vms|];
    idle.Init(IDLE_VCPU_ID, idleEntry, idleStack, cpsr);
    idle.state := Idle;
    s.vcpus[0].state := Runnable;
    s.curVcpu := s.vcpus[0];
  }

  /** hv_scheduler_init */
  method InitScheduler(s: HvScheduler, pools: TablePools, cpsr: Word, idleEntry: Word, idleStack: Word, cpu: Cpu)
    requires Arrays(s) && Separate(pools, s.vms)
    modifies s`curIdx, s`curVcpu, s.vcpus, s.vms, set vm | vm in s.vms :: vm.stage2
    modifies pools.descs, cpu`hcr, cpu`log
    ensures Initialised(s, cpsr, idleEntry, idleStack) && FirstBuilt(pools, s.vms, |s.vms|)
    ensures cpu.hcr == With(old(cpu.hcr), HCR_TWI, true)
    ensures Calls(old(cpu.log)) ==> Calls(cpu.log)
  {
    hide Arrays, Separate, FirstBuilt, GuestBuilt, Initialised, With, Calls;
    BuildGuests(pools, s.vms, cpu);
    InitVcpus(s, cpsr, idleEntry, idleStack);
    LogFlag(cpu.log, HCR_TWI);
    cpu.SetHcrBit(HCR_TWI);
  }

  /** One turn of init_guest_vcpus */
  method InitGuest(s: HvScheduler, i: nat, cpsr: Word, now: nat, period: nat)
    requires Arrays(s) && i < |s.vms| && s.vcpus[i].vm == Some(i) && period > 0
    modifies s.vcpus[i]
    ensures s.vcpus[i].Value() == GuestAtBoot(i, cpsr, now, period).(state := Runnable)
  {
    s.vcpus[i].Init(i, GUEST_BASE, 0, cpsr);
    s.vcpus[i].TimerStartPeriodic(now, period);
  }

  /** init_guest_vcpus: every guest gets its entry point and its periodic timer, and guest 0 is running. */
  method InitGuests(s: HvScheduler, cpsr: Word, idleEntry: Word, idleStack: Word, now: nat, period: nat)
    requires Arrays(s) && Initialised(s, cpsr, idleEntry, idleStack) && period > 0
    modifies s`curIdx, s`curVcpu, s.vcpus
    ensures s.Valid() && s.curIdx == 0
    ensures s.Values() == BootVcpus(|s.vms|, cpsr, idleEntry, idleStack, now, period)
  {
    hide FreshContext;
    ghost var n := |s.vms|;
    for i := 0 to |s.vms|
      invariant forall j :: 0 <= j < i ==> s.vcpus[j].Value() == GuestAtBoot(j, cpsr, now, period).(state := Runnable)
      invariant forall j :: i <= j < n ==> s.vcpus[j].vm == Some(j)
      invariant s.vcpus[n].Value() == FreshVcpu(IDLE_VCPU_ID, None, idleEntry, idleStack, cpsr).(state := Idle)
    {
      InitGuest(s, i, cpsr, now, period);
    }
    s.curIdx := 0;
    s.curVcpu := s.vcpus[0];
    s.vcpus[0].state := Running;
    var vs := BootVcpus(n, cpsr, idleEntry, idleStack, now, period);
    assert forall j :: 0 <= j <= n ==> s.vcpus[j].Value() == vs[j];
  }

  /** hv_vcpu_enter_initial for guest 0: its VM's tables are activated and its registers loaded. */
  method EnterInitial(s: HvScheduler, cpu: Cpu)
    requires s.Valid() && s.curIdx == 0 && s.curVcpu.vm == Some(0)
    modifies cpu`hcr, cpu`vtcr, cpu`vttbr, cpu`log, cpu`frame, cpu`banked
    ensures s.View(cpu) == old(s.View(cpu)).(cpu := CpuVal(
      s.curVcpu.context.frame, s.curVcpu.context.banked, old(cpu.vbar), With(old(cpu.hcr), HCR_VM, true),
      s.VmValues()[0].vttbr, VTCR_DEFAULT, old(cpu.oneShot)))
    ensures Calls(old(cpu.log)) ==> Calls(cpu.log)
  {
    hide With, Calls;
    s.ActivateFor(s.curVcpu, cpu);
    cpu.frame := s.curVcpu.context.frame;
    cpu.banked := s.curVcpu.context.banked;
  }

  /** The scheduler and its guests, up to the entry into guest 0. */
  method Prepare(s: HvScheduler, pools: TablePools, cpsr: Word, idleEntry: Word, idleStack: Word,
                 now: nat, period: nat, later: nat, cpu: Cpu)
    requires Arrays(s) && Separate(pools, s.vms) && period > 0
    modifies s`curIdx, s`curVcpu, s.vcpus, s.vms, set vm | vm in s.vms :: vm.stage2, pools.descs
    modifies cpu`hcr, cpu`oneShot, cpu`log
    ensures s.Valid() && s.curIdx == 0 && FirstBuilt(pools, s.vms, |s.vms|)
    ensures s.Values() == BootVcpus(|s.vms|, cpsr, idleEntry, idleStack, now, period)
    ensures cpu.hcr == With(With(old(cpu.hcr), HCR_TWI, true), HCR_IMO, true)
    ensures cpu.oneShot == Rearmed(s.Values(), |s.vms|, later)
    ensures Calls(old(cpu.log)) ==> Calls(cpu.log)
  {
    hide Arrays, Separate, FirstBuilt, GuestBuilt, Initialised, With, Calls, BootVcpus, Rearmed, HvScheduler.VmValues;
    InitScheduler(s, pools, cpsr, idleEntry, idleStack, cpu);
    LogFlag(cpu.log, HCR_IMO);
    cpu.SetHcrBit(HCR_IMO);
    InitGuests(s, cpsr, idleEntry, idleStack, now, period);
    s.RearmPhysical(later, cpu);
  }

  /** The whole boot sequence: what it leaves is the state Boot describes, over tables built as intended. */
  method BootAll(s: HvScheduler, pools: TablePools, cpsr: Word, idleEntry: Word, idleStack: Word,
                 now: nat, period: nat, later: nat, cpu: Cpu)
    requires Arrays(s) && Separate(pools, s.vms) && period > 0
    modifies s`curIdx, s`curVcpu, s.vcpus, s.vms, set vm | vm in s.vms :: vm.stage2, pools.descs, cpu
    ensures s.Valid() && FirstBuilt(pools, s.vms, |s.vms|)
    ensures var vs := BootVcpus(|s.vms|, cpsr, idleEntry, idleStack, now, period);
      s.View(cpu) == Boot(vs, s.VmValues(), old(cpu.Value()), later, Vuart.Line([], [])).sched
    ensures Calls(old(cpu.log)) ==> Calls(cpu.log)
  {
    hide Separate, FirstBuilt, With, Calls, BootVcpus, Rearmed, HvScheduler.VmValues;
    Prepare(s, pools, cpsr, idleEntry, idleStack, now, period, later, cpu);
    FirstGuest(|s.vms|, cpsr, idleEntry, idleStack, now, period);
    assert s.curVcpu.Value() == s.Values()[0];
    EnterInitial(s, cpu);
  }

  lemma FirstGuest(n: nat, cpsr: Word, idleEntry: Word, idleStack: Word, now: nat, period: nat)
    requires 1 <= n < IDLE_VCPU_ID && period > 0
    ensures BootVcpus(n, cpsr, idleEntry, idleStack, now, period)[0].vm == Some(0)
  {
  }

  // ----- Physical memory -----

  /** Physical memory holds the tables of every VM, as BuildGuests left them. */
  ghost predicate Backed(mem: nat -> nat, vms: seq<VmVal>, xs: seq<Tables>) {
    |xs| == |vms| && SlotBase(|vms|) <= UINT32_LIMIT &&
    forall i :: 0 <= i < |vms| ==> InMemory(mem, vms[i].vttbr, i, xs[i])
  }

  /** a is in guest i's slot. */
  predicate InSlot(a: nat, i: nat) {
    SlotBase(i) <= a < SlotBase(i) + GUEST_SLOT_SIZE
  }

  /** a is in the pool that x's tables were taken from. */
  predicate InPool(a: nat, x: Tables) {
    x.pool.pa <= a < x.pool.pa + x.pool.pages * PAGE_SIZE
  }

  ghost predicate OutsideSlots(a: nat, n: nat) {
    forall j: nat :: j < n ==> !InSlot(a, j)
  }

  /** The linker puts the table pools outside the slots of all guests. */
  ghost predicate Apart(xs: seq<Tables>) {
    forall i, a :: 0 <= i < |xs| && InPool(a, xs[i]) ==> OutsideSlots(a, |xs|)
  }

  /** vm's tables are where the hardware looks for them. */
  ghost predicate InRam(vm: HvVm, mem: nat -> nat)
    reads vm, vm.stage2, vm.stage2.pools.descs
  {
    vm.stage2.Placed() && Holds(mem, vm.stage2.Tables(), vm.stage2.pool)
  }

  /** The array of pools lies below the first slot or above the last. */
  predicate PoolsOutside(pools: TablePools, n: nat) {
    pools.pa + pools.vms * (pools.pages * PAGE_SIZE) <= SlotBase(0) || SlotBase(n) <= pools.pa
  }

  ghost function TablesOf(vm: HvVm): Tables
    requires vm.stage2.Placed()
    reads vm, vm.stage2, vm.stage2.pools.descs
  {
    Tables(vm.stage2.Tables(), vm.stage2.pool, vm.stage2.tree)
  }

  lemma {:induction false} TablesUpTo(vms: seq<HvVm>, mem: nat -> nat, n: nat) returns (xs: seq<Tables>)
    requires n <= |vms| && forall i :: 0 <= i < |vms| ==> InRam(vms[i], mem)
    ensures |xs| == n && forall i :: 0 <= i < n ==> InRam(vms[i], mem) && xs[i] == TablesOf(vms[i])
    decreases n
  {
    hide TablesOf, Holds;
    xs := [];
    if n > 0 {
      xs := TablesUpTo(vms, mem, n - 1);
      xs := xs + [TablesOf(vms[n - 1])];
    }
  }

  /** What BootAll leaves is what the isolation theorem starts from. */
  lemma BootIsBacked(s: HvScheduler, pools: TablePools, mem: nat -> nat) returns (xs: seq<Tables>)
    requires Separate(pools, s.vms) && FirstBuilt(pools, s.vms, |s.vms|) && PoolsOutside(pools, |s.vms|)
    requires forall i :: 0 <= i < |s.vms| ==> InRam(s.vms[i], mem)
    ensures Backed(mem, s.VmValues(), xs) && Apart(xs)
  {
    hide GuestBuilt, InMemory, VttbrFor, SlotBase, InSlot, TablesOf, Holds, PoolsOutside, OutsideSlots, InPool;
    var vs := s.VmValues();
    xs := TablesUpTo(s.vms, mem, |s.vms|);
    forall i | 0 <= i < |vs|
      ensures InMemory(mem, vs[i].vttbr, i, xs[i])
    {
      BackedAt(s.vms[i], i, mem);
    }
    forall i, a | 0 <= i < |xs| && InPool(a, xs[i])
      ensures OutsideSlots(a, |xs|)
    {
      PoolApart(pools, s.vms[i], i, |s.vms|, a);
    }
  }

  lemma BackedAt(vm: HvVm, i: nat, mem: nat -> nat)
    requires GuestBuilt(vm, i) && InRam(vm, mem)
    ensures InMemory(mem, VttbrFor(vm.vmid, vm.stage2.rootPa), i, TablesOf(vm))
  {
    hide GuestBuilt, InMemory, VttbrFor;
    BuiltInMemory(vm, i, mem);
  }

  lemma PoolApart(pools: TablePools, vm: HvVm, i: nat, n: nat, a: nat)
    requires GuestBuilt(vm, i) && vm.stage2.pools == pools && i < n <= pools.vms && PoolsOutside(pools, n)
    requires InPool(a, TablesOf(vm))
    ensures OutsideSlots(a, n)
  {
    hide GuestBuilt;
    PoolWithin(pools, vm, i);
    forall j: nat | j < n
      ensures !InSlot(a, j)
    {
      SlotsOrdered(j, n);
    }
  }

  lemma PoolWithin(pools: TablePools, vm: HvVm, i: nat)
    requires GuestBuilt(vm, i) && vm.stage2.pools == pools && i < pools.vms
    ensures vm.stage2.Placed()
    ensures pools.pa <= vm.stage2.pool.pa
    ensures vm.stage2.pool.pa + vm.stage2.pool.pages * PAGE_SIZE <= pools.pa + pools.vms * (pools.pages * PAGE_SIZE)
  {
    hide TableOk, IsTree, PageMap, PolicyMap, GuestRegions;
    PoolsDisjoint(i, pools.vms, pools.pages * PAGE_SIZE);
  }

  lemma SlotsOrdered(j: nat, n: nat)
    requires j < n
    ensures SlotBase(0) <= SlotBase(j) && SlotBase(j) + GUEST_SLOT_SIZE <= SlotBase(n)
  {
  }

  lemma SlotFits(i: nat, n: nat)
    requires i < n && SlotBase(n) <= UINT32_LIMIT
    ensures SlotBase(i) + GUEST_SLOT_SIZE <= UINT32_LIMIT
  {
  }

  // ----- Guest stores -----

  /** A store of a guest: an address as the guest sees it, and what the 8-byte cell there then holds. */
  datatype GuestStore = GuestStore(ipa: nat, value: nat)

  /** The cell of an address. */
  function Cell(pa: nat): nat {
    pa - pa % 8
  }

  /** Where a store goes: through the tables in memory, as the hardware finds them at that moment. */
  function Target(mem: nat -> nat, vttbr: nat, ipa: nat): Option<nat> {
    if ipa >= UINT32_LIMIT then None
    else
      match HardwareAccess(mem, vttbr, ipa / PAGE_SIZE, ToStore)
      case None => None
      case Some(page) => Some(Cell(page + ipa % PAGE_SIZE))
  }

  function Written(mem: nat -> nat, cell: nat, value: nat): nat -> nat {
    a => if a == cell then value else mem(a)
  }

  /** Memory after a guest's stores; one that does not translate faults and stores nothing. */
  function AfterStores(mem: nat -> nat, vttbr: nat, sts: seq<GuestStore>): nat -> nat
    decreases |sts|
  {
    if sts == [] then mem
    else
      var before := AfterStores(mem, vttbr, sts[..|sts| - 1]);
      var st := sts[|sts| - 1];
      match Target(before, vttbr, st.ipa)
      case None => before
      case Some(cell) => Written(before, cell, st.value)
  }

  lemma TargetInSlot(mem: nat -> nat, vms: seq<VmVal>, xs: seq<Tables>, i: nat, ipa: nat)
    requires Backed(mem, vms, xs) && i < |vms|
    ensures Target(mem, vms[i].vttbr, ipa).Some? ==> InSlot(Target(mem, vms[i].vttbr, ipa).value, i)
  {
    hide InMemory, HardwareAccess;
    SlotFits(i, |vms|);
    if ipa < UINT32_LIMIT {
      HardwareStaysInSlot(mem, vms[i].vttbr, i, xs[i], ipa, ToStore);
      CellInSlot(SlotBase(i) + (ipa - GUEST_BASE), i);
    }
  }

  lemma CellInSlot(pa: int, i: nat)
    requires pa >= 0
    ensures InSlot(pa, i) ==> InSlot(Cell(pa), i)
  {
    assert SlotBase(i) == 8 * (SlotBase(i) / 8);
  }

  /** A store into a slot leaves every VM's tables as they are. */
  lemma StoreKeepsTables(mem: nat -> nat, vms: seq<VmVal>, xs: seq<Tables>, i: nat, cell: nat, value: nat)
    requires Backed(mem, vms, xs) && Apart(xs) && i < |vms| && InSlot(cell, i)
    ensures Backed(Written(mem, cell, value), vms, xs)
  {
    hide InSlot, IsTree, PageMap, PolicyMap, GuestRegions, VttbrFor, SlotBase;
    forall j | 0 <= j < |vms|
      ensures InMemory(Written(mem, cell, value), vms[j].vttbr, j, xs[j])
    {
      assert InMemory(mem, vms[j].vttbr, j, xs[j]);
      assert InPool(cell, xs[j]) ==> OutsideSlots(cell, |xs|);
      TablesHold(mem, xs[j], cell, value);
    }
  }

  lemma TablesHold(mem: nat -> nat, x: Tables, cell: nat, value: nat)
    requires IsTree(x.t, x.pool, x.tree) && Holds(mem, x.t, x.pool)
    requires !InPool(cell, x)
    ensures Holds(Written(mem, cell, value), x.t, x.pool)
  {
    hide Linked, Branch;
    Root(x.t, x.pool, x.tree);
    forall s | 0 <= s < |x.t|
      ensures Written(mem, cell, value)(x.pool.pa + 8 * s) == x.t[s]
    {
      assert mem(x.pool.pa + 8 * s) == x.t[s];
    }
  }

  /** However a guest stores, it changes only its own slot and no VM's tables. */
  lemma {:induction false} StoresStayInSlot(mem: nat -> nat, vms: seq<VmVal>, xs: seq<Tables>, i: nat,
                                            sts: seq<GuestStore>)
    requires Backed(mem, vms, xs) && Apart(xs) && i < |vms|
    ensures Backed(AfterStores(mem, vms[i].vttbr, sts), vms, xs)
    ensures forall a: nat :: !InSlot(a, i) ==> AfterStores(mem, vms[i].vttbr, sts)(a) == mem(a)
    decreases |sts|
  {
    hide Backed, Apart, Target, InSlot;
    if sts != [] {
      var st := sts[|sts| - 1];
      StoresStayInSlot(mem, vms, xs, i, sts[..|sts| - 1]);
      var before := AfterStores(mem, vms[i].vttbr, sts[..|sts| - 1]);
      TargetInSlot(before, vms, xs, i, st.ipa);
      var cell := Target(before, vms[i].vttbr, st.ipa);
      if cell.Some? {
        StoreKeepsTables(before, vms, xs, i, cell.value, st.value);
      }
    }
  }

  // ----- Physical isolation -----

  /** A run with physical memory: before each trap the current guest makes any stores it likes, through the
      tables in memory; the idle vCPU makes none. The hypervisor's own data is in no slot and no pool. */
  ghost predicate IsMemoryRun(ms: seq<Machine>, ts: seq<Trap>, mems: seq<nat -> nat>, stores: seq<seq<GuestStore>>) {
    IsRun(ms, ts) && |mems| == |ms| && |stores| == |ts| &&
    forall k :: 0 <= k < |ts| ==> mems[k + 1] == MemoryAfter(mems[k], ms[k], stores[k])
  }

  function MemoryAfter(mem: nat -> nat, m: Machine, sts: seq<GuestStore>): nat -> nat {
    if m.sched.cur < m.sched.Guests() then AfterStores(mem, m.sched.cpu.vttbr, sts) else mem
  }

  /** VTTBR is the current guest's own. */
  lemma RunningVttbr(ms: seq<Machine>, ts: seq<Trap>, k: nat)
    requires IsRun(ms, ts) && k < |ms|
    ensures ms[k].sched.vms == ms[0].sched.vms && ms[k].sched.Guests() == |ms[k].sched.vms|
    ensures var s := ms[k].sched;
      s.cur < s.Guests() ==>
        Has(s.cpu.hcr, HCR_VM) && s.cpu.vttbr == s.vms[s.cur].vttbr && s.cpu.vtcr == 0x40
  {
    hide Returns, Has, NoneRunnable, Covered;
    RunInv(ms, ts, k);
    if ms[k].sched.cur < ms[k].sched.Guests() {
      NotIdle(ms[k].sched);
    }
  }

  /** The tables of all VMs stay as built through the whole run. */
  lemma {:induction false} TablesStay(ms: seq<Machine>, ts: seq<Trap>, mems: seq<nat -> nat>,
                                      stores: seq<seq<GuestStore>>, xs: seq<Tables>, k: nat)
    requires IsMemoryRun(ms, ts, mems, stores) && k < |ms| && Backed(mems[0], ms[0].sched.vms, xs) && Apart(xs)
    ensures Backed(mems[k], ms[0].sched.vms, xs)
    decreases k
  {
    hide IsRun, Backed, Apart, AfterStores;
    if k > 0 {
      TablesStay(ms, ts, mems, stores, xs, k - 1);
      SizesOfRun(ms, ts, mems, stores);
      RunningVttbr(ms, ts, k - 1);
      if ms[k - 1].sched.cur < ms[k - 1].sched.Guests() {
        StoresStayInSlot(mems[k - 1], ms[0].sched.vms, xs, ms[k - 1].sched.cur, stores[k - 1]);
      }
    }
  }

  lemma SizesOfRun(ms: seq<Machine>, ts: seq<Trap>, mems: seq<nat -> nat>, stores: seq<seq<GuestStore>>)
    requires IsMemoryRun(ms, ts, mems, stores)
    ensures |ms| == |ts| + 1 == |mems| && |stores| == |ts|
  {
  }

  /** What another guest does to memory, guest j never sees: its slot changes only while j itself runs. */
  lemma {:induction false} SlotsIsolated(ms: seq<Machine>, ts: seq<Trap>, mems: seq<nat -> nat>,
                                         stores: seq<seq<GuestStore>>, xs: seq<Tables>, j: nat, k: nat, n: nat, a: nat)
    requires IsMemoryRun(ms, ts, mems, stores) && Backed(mems[0], ms[0].sched.vms, xs) && Apart(xs)
    requires k <= n < |ms| && InSlot(a, j) && forall l :: k <= l < n ==> ms[l].sched.cur != j
    ensures mems[n](a) == mems[k](a)
    decreases n
  {
    hide IsRun, Backed, Apart, AfterStores, InSlot;
    if k < n {
      SlotsIsolated(ms, ts, mems, stores, xs, j, k, n - 1, a);
      SizesOfRun(ms, ts, mems, stores);
      RunningVttbr(ms, ts, n - 1);
      var i := ms[n - 1].sched.cur;
      if i < ms[n - 1].sched.Guests() {
        TablesStay(ms, ts, mems, stores, xs, n - 1);
        StoresStayInSlot(mems[n - 1], ms[0].sched.vms, xs, i, stores[n - 1]);
        NotInTwoSlots(a, i, j);
      }
    }
  }

  lemma NotInTwoSlots(a: nat, i: nat, j: nat)
    requires i != j && InSlot(a, j)
    ensures !InSlot(a, i)
  {
    SlotsDisjoint(j, i, a);
  }

  /** After any trap of any run, whatever the guests have stored, if a guest runs then stage 2 is on, VTTBR
      carries its own VMID, and the hardware lets exactly the guest's fetches, loads and stores to its RAM window
      through, into its own slot of physical memory. */
  lemma GuestsStayInTheirSlots(ms: seq<Machine>, ts: seq<Trap>, mems: seq<nat -> nat>, stores: seq<seq<GuestStore>>,
                               xs: seq<Tables>, k: nat, ipa: nat, access: AccessKind)
    requires IsMemoryRun(ms, ts, mems, stores) && k < |ms| && Backed(mems[0], ms[0].sched.vms, xs) && Apart(xs)
    requires ms[k].sched.cur < ms[k].sched.Guests() && ipa < UINT32_LIMIT
    ensures k < |mems|
    ensures var (i, cpu) := (ms[k].sched.cur, ms[k].sched.cpu);
      var page := HardwareAccess(mems[k], cpu.vttbr, ipa / PAGE_SIZE, access);
      Has(cpu.hcr, HCR_VM) && cpu.vtcr == 0x40 && Shr(cpu.vttbr, VTTBR_VMID_SHIFT) == And(i, VTTBR_VMID_MASK) &&
      (page.Some? <==> GUEST_BASE <= ipa < GUEST_BASE + GUEST_RAM_SIZE) &&
      (page.Some? ==> page.value + ipa % PAGE_SIZE == SlotBase(i) + (ipa - GUEST_BASE))
  {
    hide IsRun, Has, And, Shr, InMemory, HardwareAccess, Apart;
    SizesOfRun(ms, ts, mems, stores);
    RunningVttbr(ms, ts, k);
    TablesStay(ms, ts, mems, stores, xs, k);
    var (i, vms) := (ms[k].sched.cur, ms[0].sched.vms);
    SlotFits(i, |vms|);
    HardwareStaysInSlot(mems[k], vms[i].vttbr, i, xs[i], ipa, access);
    VttbrNamesVm(mems[k], vms[i].vttbr, i, xs[i]);
  }

  lemma VttbrNamesVm(mem: nat -> nat, vttbr: nat, i: nat, x: Tables)
    requires InMemory(mem, vttbr, i, x)
    ensures Shr(vttbr, VTTBR_VMID_SHIFT) == And(i, VTTBR_VMID_MASK)
  {
    hide And, Shr, VttbrFor, Linked, Branch, PageMap;
    Root(x.t, x.pool, x.tree);
    VttbrFields(i, x.pool.TablePa(0));
  }
}
