/** The operation log against the tables themselves: after any sequence of maps, unmaps and switches of any
    VMs, the log's tables are the descriptors' and the TLB agrees with them. */
module Coherence {
  import opened Wrappers
  import opened Descriptors
  import opened PageTable
  import opened Regions
  import opened Stage2
  import opened Tlb
  import opened Cpu
  import opened Vm
  import opened Mmu
  import opened GuestSpace

  /** One call the hypervisor may make for VM number vm. */
  datatype Call =
    | MapCall(vm: nat, ipa: nat, pa: nat, size: nat, attrs: nat)
    | UnmapCall(vm: nat, ipa: nat)
    | ActivateCall(vm: nat)
    | DeactivateCall

  /** VMs with valid tables in different pools of one array. */
  ghost predicate AllPooled(pools: TablePools, vms: seq<HvVm>)
    reads vms, set vm | vm in vms :: vm.stage2, pools.descs
  {
    Own(pools, vms) && forall i :: 0 <= i < |vms| ==> Pooled(vms[i], i)
  }

  ghost predicate Own(pools: TablePools, vms: seq<HvVm>) {
    pools.Ok() && |vms| <= pools.vms && (forall i :: 0 <= i < |vms| ==> vms[i].stage2.pools == pools) &&
    forall i, j :: 0 <= i < |vms| && 0 <= j < |vms| && i != j ==> vms[i] != vms[j] && vms[i].stage2 != vms[j].stage2
  }

  ghost function RootOf(vm: HvVm): nat
    reads vm.stage2
  {
    vm.stage2.rootPa
  }

  ghost function MapOf(vm: HvVm, i: nat): map<nat, Leaf>
    requires Pooled(vm, i)
    reads vm, vm.stage2, vm.stage2.pools.descs
  {
    vm.stage2.Map()
  }

  /** m translates through each VM's root exactly what that VM's descriptors say. */
  ghost predicate Agrees(m: Tlb.Mmu, pools: TablePools, vms: seq<HvVm>)
    requires AllPooled(pools, vms)
    reads vms, set vm | vm in vms :: vm.stage2, pools.descs
  {
    forall i :: 0 <= i < |vms| ==> m.MapAt(RootOf(vms[i])) == MapOf(vms[i], i)
  }

  /** Different VMs have different roots. */
  lemma RootsDiffer(a: HvVm, i: nat, b: HvVm, j: nat)
    requires Pooled(a, i) && Pooled(b, j) && a.stage2.pools == b.stage2.pools && i != j
    ensures RootOf(a) != RootOf(b)
  {
    hide TableOk, IsTree;
    var size := a.stage2.pools.pages * PAGE_SIZE;
    if i < j {
      PoolsDisjoint(i, j, size);
    } else {
      PoolsDisjoint(j, i, size);
    }
  }

  // ----- What one call logs -----

  /** ops change the tables at root from a to b, and no others. */
  ghost predicate Changes(m: Tlb.Mmu, ops: seq<Op>, root: nat, b: map<nat, Leaf>) {
    Run(m, ops).MapAt(root) == b && forall r :: r != root ==> Run(m, ops).MapAt(r) == m.MapAt(r)
  }

  lemma KeepsMaps(m: Tlb.Mmu, op: Op)
    requires !op.Store?
    ensures m.Apply(op).maps == m.maps
  {
  }

  lemma MapChanges(m: Tlb.Mmu, root: nat, v: nat, pa: nat, attrs: nat, n: nat)
    ensures Changes(m, MapOps(root, v, pa, attrs, n), root, m.MapAt(root) + PageRun(v, pa, attrs, n))
  {
    hide PageRun, Tlb.Mmu.Apply, StoreOps;
    forall r
      ensures r != root ==> Run(m, MapOps(root, v, pa, attrs, n)).MapAt(r) == m.MapAt(r)
      ensures Run(m, MapOps(root, v, pa, attrs, n)).MapAt(root) == m.MapAt(root) + PageRun(v, pa, attrs, n)
    {
      StoresMap(m, root, v, pa, attrs, n, r);
      var m1 := Run(m, StoreOps(root, v, pa, attrs, n));
      RunAppend(m, StoreOps(root, v, pa, attrs, n), [TlbiAll]);
      RunOne(m1, TlbiAll);
      KeepsMaps(m1, TlbiAll);
    }
  }

  lemma UnmapChanges(m: Tlb.Mmu, root: nat, v: nat)
    ensures Changes(m, UnmapOps(root, v), root, m.MapAt(root) - {v})
    ensures Changes(m, [TlbiIpa(v)], root, m.MapAt(root))
  {
    hide Tlb.Mmu.Apply;
    forall r
      ensures r != root ==> Run(m, UnmapOps(root, v)).MapAt(r) == m.MapAt(r)
    {
      UnmapStores(m, root, v, r);
    }
    UnmapStores(m, root, v, root);
    RunOne(m, TlbiIpa(v));
    KeepsMaps(m, TlbiIpa(v));
  }

  lemma SwitchChanges(m: Tlb.Mmu, vttbr: nat, r: nat)
    ensures Run(m, ActivateOps(vttbr)).MapAt(r) == m.MapAt(r)
    ensures Run(m, DeactivateOps()).MapAt(r) == m.MapAt(r)
  {
    hide Tlb.Mmu.Apply;
    var ops := ActivateOps(vttbr);
    var m1 := m.Apply(ops[0]);
    var m2 := m1.Apply(ops[1]);
    assert ops == [ops[0]] + ([ops[1]] + [ops[2]]);
    RunAppend(m, [ops[0]], [ops[1]] + [ops[2]]);
    RunAppend(m1, [ops[1]], [ops[2]]);
    RunOne(m, ops[0]);
    RunOne(m1, ops[1]);
    RunOne(m2, ops[2]);
    KeepsMaps(m, ops[0]);
    KeepsMaps(m1, ops[1]);
    KeepsMaps(m2, ops[2]);
    var off := DeactivateOps();
    var n1 := m.Apply(off[0]);
    assert off == [off[0]] + [off[1]];
    RunAppend(m, [off[0]], [off[1]]);
    RunOne(m, off[0]);
    RunOne(n1, off[1]);
    KeepsMaps(m, off[0]);
    KeepsMaps(n1, off[1]);
  }

  // ----- One call on the tables -----

  /** VM i's tables have just changed, and the log's view with them from m to m2. */
  datatype Change = Change(pools: TablePools, vms: seq<HvVm>, i: nat, m: Tlb.Mmu, m2: Tlb.Mmu)

  /** The other VMs' tables are where they were, in the array and in the log. */
  twostate lemma OthersAgree(c: Change)
    requires old(AllPooled(c.pools, c.vms)) && old(Agrees(c.m, c.pools, c.vms)) && c.i < |c.vms|
    requires forall j :: 0 <= j < |c.vms| && j != c.i ==> unchanged(c.vms[j]) && unchanged(c.vms[j].stage2)
    requires Pooled(c.vms[c.i], c.i) && c.vms[c.i].stage2.OnlyOwnPool()
    requires RootOf(c.vms[c.i]) == old(RootOf(c.vms[c.i])) && c.m2.MapAt(RootOf(c.vms[c.i])) == MapOf(c.vms[c.i], c.i)
    requires forall r :: r != RootOf(c.vms[c.i]) ==> c.m2.MapAt(r) == c.m.MapAt(r)
    ensures AllPooled(c.pools, c.vms) && Agrees(c.m2, c.pools, c.vms)
  {
    hide Pooled, HvStage2.OnlyOwnPool, PageMap;
    forall j | 0 <= j < |c.vms| && j != c.i
      ensures Pooled(c.vms[j], j) && MapOf(c.vms[j], j) == old(MapOf(c.vms[j], j))
      ensures RootOf(c.vms[j]) != RootOf(c.vms[c.i])
    {
      PoolKept(Neighbours(c.vms[j], j, c.vms[c.i], c.i));
      RootsDiffer(c.vms[j], j, c.vms[c.i], c.i);
    }
  }

  lemma OutcomeMaps(t: seq<nat>, used: nat, t': seq<nat>, used': nat, pool: Pool, v: nat, pa: nat, attrs: nat,
                    n: nat, res: Status, count: nat)
    requires MapOutcome(t, used, t', used', pool, v, pa, attrs, n, res, count)
    ensures Sized(t, pool) && Sized(t', pool) && PageMap(t', pool) == PageMap(t, pool) + PageRun(v, pa, attrs, count)
  {
  }

  /** Nothing was added to the log. */
  lemma RunNothing(m: Tlb.Mmu)
    ensures Run(m, []) == m
  {
  }

  /** hv_stage2_map_region on VM i, with any arguments */
  method MapOne(pools: TablePools, vms: seq<HvVm>, i: nat, ipa: nat, pa: nat, size: nat, attrs: nat, cpu: Cpu,
                ghost m: Tlb.Mmu) returns (ghost added: seq<Op>)
    requires AllPooled(pools, vms) && i < |vms| && Agrees(m, pools, vms)
    modifies vms[i].stage2, pools.descs, cpu`log
    ensures AllPooled(pools, vms) && Agrees(Run(m, added), pools, vms)
    ensures cpu.log == old(cpu.log) + added && (added == [] || IsCall(added))
  {
    hide TableOk, IsTree, PageMap, PageRun, MapOutcome, MapCheck, MapOps, IsCall, Run, HvStage2.OnlyOwnPool;
    var vm := vms[i];
    ghost var v := ipa / PAGE_SIZE;
    ghost var t, used := vm.stage2.Tables(), vm.stage2.poolUsed;
    var res, count := vm.MapRegion(ipa, pa, size, attrs, cpu);
    added := [];
    RunNothing(m);
    if MapCheck(vm.regions, ipa, pa, size) == OK {
      added := MapOps(vm.stage2.rootPa, v, pa, attrs, count);
      OutcomeMaps(t, used, vm.stage2.Tables(), vm.stage2.poolUsed, vm.stage2.pool, v, pa, attrs,
                  size / PAGE_SIZE, res, count);
      MapIsCall(vm.stage2.rootPa, v, pa, attrs, count);
      MapChanges(m, vm.stage2.rootPa, v, pa, attrs, count);
      OthersAgree(Change(pools, vms, i, m, Run(m, added)));
    }
  }

  /** hv_stage2_unmap_page on VM i, with any argument */
  method UnmapOne(pools: TablePools, vms: seq<HvVm>, i: nat, ipa: nat, cpu: Cpu, ghost m: Tlb.Mmu)
    returns (ghost added: seq<Op>)
    requires AllPooled(pools, vms) && i < |vms| && Agrees(m, pools, vms)
    modifies pools.descs, cpu`log
    ensures AllPooled(pools, vms) && Agrees(Run(m, added), pools, vms)
    ensures cpu.log == old(cpu.log) + added && (added == [] || IsCall(added))
  {
    hide TableOk, IsTree, PageMap, UnmapOps, IsCall, Run, Walk, Aligned, Contains, HvStage2.OnlyOwnPool;
    var vm := vms[i];
    ghost var v, root := ipa / PAGE_SIZE, vm.stage2.rootPa;
    ghost var t := vm.stage2.Tables();
    var res := vm.UnmapPage(ipa, cpu);
    added := [];
    RunNothing(m);
    if res == OK {
      var found := Walk(t, vm.stage2.pool, v).Some?;
      added := if found then UnmapOps(root, v) else [TlbiIpa(v)];
      if !found {
        UnwalkedIsUnmapped(t, vm.stage2.pool, v);
      }
      MapIsCall(root, v, 0, 0, 0);
      UnmapChanges(m, root, v);
      OthersAgree(Change(pools, vms, i, m, Run(m, added)));
    }
  }

  /** hv_mmu_activate_vcpu for a vCPU of VM number vm, or of none */
  method SwitchOne(pools: TablePools, vms: seq<HvVm>, vm: Option<nat>, cpu: Cpu, ghost m: Tlb.Mmu)
    returns (ghost added: seq<Op>)
    requires AllPooled(pools, vms) && (vm.Some? ==> vm.value < |vms|) && Agrees(m, pools, vms)
    modifies cpu`hcr, cpu`vtcr, cpu`vttbr, cpu`log
    ensures AllPooled(pools, vms) && Agrees(Run(m, added), pools, vms)
    ensures cpu.log == old(cpu.log) + added && IsCall(added)
  {
    hide Pooled, ActivateOps, DeactivateOps, IsCall, Run, With, VttbrFor;
    ActivateVcpu(if vm.None? then None else Some(vms[vm.value]), cpu);
    added := if vm.None? then DeactivateOps() else ActivateOps(cpu.vttbr);
    SwitchIsCall(cpu.vttbr);
    forall i | 0 <= i < |vms|
      ensures Run(m, added).MapAt(RootOf(vms[i])) == m.MapAt(RootOf(vms[i]))
    {
      SwitchChanges(m, cpu.vttbr, RootOf(vms[i]));
    }
  }

  lemma SwitchIsCall(vttbr: nat)
    ensures IsCall(ActivateOps(vttbr)) && IsCall(DeactivateOps())
  {
  }

  // ----- Any sequence of calls -----

  predicate CallsVms(calls: seq<Call>, n: nat) {
    forall k :: 0 <= k < |calls| ==> !calls[k].DeactivateCall? ==> calls[k].vm < n
  }

  method MakeCall(pools: TablePools, vms: seq<HvVm>, call: Call, cpu: Cpu, ghost m: Tlb.Mmu)
    returns (ghost added: seq<Op>)
    requires AllPooled(pools, vms) && Agrees(m, pools, vms) && (!call.DeactivateCall? ==> call.vm < |vms|)
    modifies set vm | vm in vms :: vm.stage2, pools.descs, cpu
    ensures AllPooled(pools, vms) && Agrees(Run(m, added), pools, vms)
    ensures cpu.log == old(cpu.log) + added && (added == [] || IsCall(added))
  {
    hide AllPooled, Agrees, Run, IsCall;
    match call
    case MapCall(i, ipa, pa, size, attrs) => added := MapOne(pools, vms, i, ipa, pa, size, attrs, cpu, m);
    case UnmapCall(i, ipa) => added := UnmapOne(pools, vms, i, ipa, cpu, m);
    case ActivateCall(i) => added := SwitchOne(pools, vms, Some(i), cpu, m);
    case DeactivateCall => added := SwitchOne(pools, vms, None, cpu, m);
  }

  /** After any sequence of calls on any VMs, successful or not, the log is whole calls and its tables are the
      descriptors'. */
  method MakeCalls(pools: TablePools, vms: seq<HvVm>, calls: seq<Call>, cpu: Cpu, ghost m: Tlb.Mmu)
    returns (ghost added: seq<Op>)
    requires AllPooled(pools, vms) && Agrees(m, pools, vms) && CallsVms(calls, |vms|)
    modifies set vm | vm in vms :: vm.stage2, pools.descs, cpu
    ensures AllPooled(pools, vms) && Agrees(Run(m, added), pools, vms)
    ensures cpu.log == old(cpu.log) + added && Calls(added)
  {
    hide AllPooled, Agrees, Run, IsCall, Calls;
    added := [];
    RunNothing(m);
    NoCalls();
    for k := 0 to |calls|
      invariant AllPooled(pools, vms) && Agrees(Run(m, added), pools, vms)
      invariant cpu.log == old(cpu.log) + added && Calls(added)
    {
      ghost var more := MakeCall(pools, vms, calls[k], cpu, Run(m, added));
      RunAppend(m, added, more);
      if more == [] {
        assert added + more == added;
      } else {
        CallsAppend(added, more);
      }
      added := added + more;
    }
  }

  lemma NoCalls()
    ensures Calls([])
  {
  }

  /** A VM's tables map nothing that its regions do not allow. */
  lemma PooledWithin(vm: HvVm, i: nat)
    requires Pooled(vm, i)
    ensures Within(vm.regions, MapOf(vm, i))
  {
    hide IsTree, TableOk, PageMap, Within;
  }

  // ----- What the hardware caches meanwhile -----

  /** Caching changes no table and no register. */
  lemma {:induction false} FillsKeepMaps(m: Tlb.Mmu, m2: Tlb.Mmu, ops: seq<Op>)
    requires m2 == m.(tlb := m2.tlb)
    ensures var (a, b) := (Run(m, ops), Run(m2, WithoutFills(ops))); b == a.(tlb := b.tlb)
    decreases |ops|
  {
    if ops != [] {
      if ops[0].Fill? {
        FillsKeepMaps(m.Apply(ops[0]), m2, ops[1..]);
      } else {
        Head(ops);
        FillsKeepMaps(m.Apply(ops[0]), m2.Apply(ops[0]), ops[1..]);
      }
    }
  }

  /** So at the end of any sequence of calls, with the hardware caching whatever it likes at any moment, every
      entry the current guest can hit agrees with the descriptors of the VM whose root VTTBR names, and leads to a page
      that the VM's regions allow. */
  lemma EntriesAgree(pools: TablePools, vms: seq<HvVm>, m: Tlb.Mmu, ops: seq<Op>, i: nat, e: Entry)
    requires AllPooled(pools, vms) && i < |vms| && m.Coherent() && Calls(WithoutFills(ops))
    requires Agrees(Run(m, WithoutFills(ops)), pools, vms)
    requires var n := Run(m, ops); n.enabled && n.Root() == RootOf(vms[i]) && e in n.tlb && e.vmid == n.Vmid()
    ensures e.v in MapOf(vms[i], i) && MapOf(vms[i], i)[e.v] == e.leaf
    ensures Allowed(vms[i].regions, e.v, e.leaf.pa)
  {
    hide Pooled, Calls, Allowed, Run, WithoutFills;
    AlwaysCoherent(m, ops);
    FillsKeepMaps(m, m, ops);
    assert Run(m, ops).Active() == Run(m, WithoutFills(ops)).MapAt(RootOf(vms[i]));
    PooledWithin(vms[i], i);
  }
}
