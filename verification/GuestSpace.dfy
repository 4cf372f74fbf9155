/** The address spaces hv_scheduler_init gives its guests: the same guest-physical layout for all, each backed by
    its own slot of physical memory. */
module GuestSpace {
  import opened Wrappers
  import opened Bits
  import opened Descriptors
  import opened PageTable
  import opened TableCount
  import opened Regions
  import opened Stage2
  import opened Tlb
  import opened Cpu
  import opened Vm
  import opened Mmu

  const GUEST_BASE := 0x2_0000
  const GUEST_SLOT_SIZE := 0x1_0000
  const GUEST_RAM_SIZE := GUEST_SLOT_SIZE - PAGE_SIZE
  const GUEST_UART_BASE := 0x1000_0000
  const PAGE_NORMAL_NC_RW := 0x4d7

  function SlotBase(i: nat): nat {
    GUEST_BASE + i * GUEST_SLOT_SIZE
  }

  /** Guest i's RAM, the guard page after it, and the emulated UART. */
  function GuestRegions(i: nat): seq<Region> {
    [ Region(GUEST_BASE, GUEST_RAM_SIZE, SlotBase(i), PAGE_NORMAL_NC_RW, Ram, NoDevice),
      Region(GUEST_BASE + GUEST_RAM_SIZE, PAGE_SIZE, 0, 0, RamGuard, NoDevice),
      Region(GUEST_UART_BASE, PAGE_SIZE, 0, 0, RegionType.Mmio, MmioDevice.Vuart) ]
  }

  lemma GuestRegionsOk(i: nat)
    requires SlotBase(i) + GUEST_SLOT_SIZE <= UINT32_LIMIT
    ensures TableOk(GuestRegions(i)) && TableOk(GuestRegions(i)[..1]) && TableOk(GuestRegions(i)[..2])
    ensures forall k :: 0 <= k < 3 ==> RegionValid(GuestRegions(i)[k])
  {
    hide Aligned;
    forall k | 0 <= k < 3
      ensures RegionValid(GuestRegions(i)[k])
    {
      var r := GuestRegions(i)[k];
      AlignedIsMultiple(r.ipaBase);
      AlignedIsMultiple(r.size);
      AlignedIsMultiple(r.paBase);
    }
  }

  /** A guest with nothing but its root table lacks two: one for its 1 GB block, one for its 2 MB block. */
  lemma GuestNeedsThree(t: seq<nat>, pool: Pool, tree: Tree, i: nat)
    requires IsTree(t, pool, tree) && |tree.level| == 1 && TableOk(GuestRegions(i))
    ensures |PolicyLacking(t, pool, GuestRegions(i), 3)| == 2
  {
    hide Linked, Branch, RegionValid, L2Table, L3Table, Lacking;
    Root(t, pool, tree);
    OnlyRoot(t, pool, tree);
    RamLacking(t, pool);
    var rs := GuestRegions(i);
    var blocks := {Giga(0), Mega(0)};
    assert PolicyLacking(t, pool, rs, 0) == {};
    assert PolicyLacking(t, pool, rs, 1) == {} + blocks == blocks;
    assert PolicyLacking(t, pool, rs, 2) == blocks + {} == blocks;
    assert PolicyLacking(t, pool, rs, 3) == blocks + {} == blocks;
  }

  lemma OnlyRoot(t: seq<nat>, pool: Pool, tree: Tree)
    requires IsTree(t, pool, tree) && |tree.level| == 1
    ensures Sized(t, pool)
    ensures forall w: nat {:trigger L2Table(t, pool, w)} | w < PAGE_NUMBERS :: L2Table(t, pool, w).None?
    ensures forall w: nat {:trigger L3Table(t, pool, w)} | w < PAGE_NUMBERS :: L3Table(t, pool, w).None?
  {
    hide Linked, Branch;
    forall w: nat | w < PAGE_NUMBERS
      ensures L2Table(t, pool, w).None? && L3Table(t, pool, w).None?
    {
      WalkInTree(t, pool, tree, w);
    }
  }

  lemma RamLacking(t: seq<nat>, pool: Pool)
    requires Sized(t, pool)
    requires forall w: nat {:trigger L2Table(t, pool, w)} | w < PAGE_NUMBERS :: L2Table(t, pool, w).None?
    requires forall w: nat {:trigger L3Table(t, pool, w)} | w < PAGE_NUMBERS :: L3Table(t, pool, w).None?
    ensures Lacking(t, pool, GUEST_BASE / PAGE_SIZE, GUEST_RAM_SIZE / PAGE_SIZE) == {Giga(0), Mega(0)}
  {
    hide L2Table, L3Table;
    var first := GUEST_BASE / PAGE_SIZE;
    assert L2Table(t, pool, first).None? && L3Table(t, pool, first).None? && first / 0x40000 == 0 && first / 0x200 == 0;
  }

  /** A page of normal, non-cacheable memory that a guest may read, write and execute: access flag (bit 10) set,
      S2AP (bits 7:6) both on, MemAttr (bits 5:2) 0b0101 and XN (bit 54) clear. */
  predicate NormalRw(attrs: nat) {
    BitAt(attrs, 10) && BitAt(attrs, 7) && BitAt(attrs, 6) &&
    !BitAt(attrs, 5) && BitAt(attrs, 4) && !BitAt(attrs, 3) && BitAt(attrs, 2) && !BitAt(attrs, 54)
  }

  lemma GuestAttributes()
    ensures NormalRw(Or(DescAttrs(PAGE_NORMAL_NC_RW), 3))
  {
    hide Or, DescAttrs, BitAt;
    AttributeBits();
    forall i: nat | i < 64
      ensures BitAt(Or(DescAttrs(PAGE_NORMAL_NC_RW), 3), i) <==>
              i < 2 || ((i < 12 || 40 <= i < 64) && BitAt(PAGE_NORMAL_NC_RW, i))
    {
      LeafBits(0, PAGE_NORMAL_NC_RW, i);
    }
  }

  lemma AttributeBits()
    ensures NormalRw(PAGE_NORMAL_NC_RW)
  {
    assert BitAt(0x4d7, 10) && BitAt(0x4d7, 7) && BitAt(0x4d7, 6);
    assert !BitAt(0x4d7, 5) && BitAt(0x4d7, 4) && !BitAt(0x4d7, 3) && BitAt(0x4d7, 2);
    hide BitAt, Shr;
    BitIsShr(PAGE_NORMAL_NC_RW, 54);
    ShrAdd(PAGE_NORMAL_NC_RW, 12, 42);
    ShrPage(PAGE_NORMAL_NC_RW);
    BitIsShr(0, 42);
    ZeroHasNoBit(42);
  }

  lemma NormalPermits(attrs: nat, access: AccessKind)
    requires NormalRw(attrs)
    ensures Permits(attrs, access)
  {
  }

  /** What guest i can reach: its RAM window, and there exactly its slot less the guard page, as normal memory with
      every right. */
  lemma GuestReach(i: nat, m: map<nat, Leaf>, ipa: nat)
    requires SlotBase(i) + GUEST_SLOT_SIZE <= UINT32_LIMIT && m == PolicyMap(GuestRegions(i), 3)
    ensures ipa / PAGE_SIZE in m <==> GUEST_BASE <= ipa < GUEST_BASE + GUEST_RAM_SIZE
    ensures ipa / PAGE_SIZE in m ==>
      m[ipa / PAGE_SIZE].pa + ipa % PAGE_SIZE == SlotBase(i) + (ipa - GUEST_BASE) && NormalRw(m[ipa / PAGE_SIZE].attrs)
  {
    hide RegionValid, PolicyMap, NormalRw, Or, DescAttrs;
    GuestAttributes();
    var rs := GuestRegions(i);
    GuestRegionsOk(i);
    PolicyMapAt(rs, 3, ipa);
    assert Contains(rs[0], ipa) <==> GUEST_BASE <= ipa < GUEST_BASE + GUEST_RAM_SIZE;
  }

  /** What every address of a guest is: RAM, the guard page above it, the emulated UART, or nothing. */
  lemma GuestLayout(i: nat, ipa: nat)
    ensures var (rs, found) := (GuestRegions(i), Find(GuestRegions(i), ipa));
      if 0x2_0000 <= ipa < 0x2_f000 then found.Some? && rs[found.value].kind == Ram
      else if 0x2_f000 <= ipa < 0x3_0000 then found.Some? && rs[found.value].kind == RamGuard
      else if 0x1000_0000 <= ipa < 0x1000_1000 then
        found.Some? && rs[found.value].kind == RegionType.Mmio && rs[found.value].device == MmioDevice.Vuart &&
        rs[found.value].ipaBase == 0x1000_0000
      else found.None?
  {
    hide FindFrom;
    var rs := GuestRegions(i);
    assert Contains(rs[0], ipa) <==> 0x2_0000 <= ipa < 0x2_f000;
    assert Contains(rs[1], ipa) <==> 0x2_f000 <= ipa < 0x3_0000;
    assert Contains(rs[2], ipa) <==> 0x1000_0000 <= ipa < 0x1000_1000;
  }

  /** The slots of two guests share no address. */
  lemma SlotsDisjoint(i: nat, j: nat, pa: nat)
    requires i != j && SlotBase(i) <= pa < SlotBase(i) + GUEST_SLOT_SIZE
    ensures !(SlotBase(j) <= pa < SlotBase(j) + GUEST_SLOT_SIZE)
  {
  }

  // ----- Building -----

  /** vm's tables are valid and lie in slot i of the pools. */
  ghost predicate Pooled(vm: HvVm, i: nat)
    reads vm, vm.stage2, vm.stage2.pools.descs
  {
    var s := vm.stage2;
    vm.Valid() && s.base == i * (s.pools.pages * DESCS_PER_TABLE) && s.pool.pages == s.pools.pages &&
    s.pool.pa == s.pools.pa + i * (s.pools.pages * PAGE_SIZE)
  }

  /** VM i is set up as hv_scheduler_init means to. */
  ghost predicate GuestBuilt(vm: HvVm, i: nat)
    reads vm, vm.stage2, vm.stage2.pools.descs
  {
    Pooled(vm, i) && vm.id == i && vm.vmid == i && vm.regions == GuestRegions(i) &&
    vm.stage2.Map() == PolicyMap(GuestRegions(i), 3)
  }

  /** The three hv_vm_add_region calls: none of them is refused. */
  method AddGuestRegions(vm: HvVm, i: nat)
    requires vm.regions == [] && SlotBase(i) + GUEST_SLOT_SIZE <= UINT32_LIMIT
    modifies vm`regions
    ensures vm.regions == GuestRegions(i) && TableOk(vm.regions)
  {
    hide RegionValid;
    var rs := GuestRegions(i);
    GuestRegionsOk(i);
    assert rs[..1] == [rs[0]] && rs[..2] == [rs[0], rs[1]];
    var res := vm.AddRegion(rs[0]);
    assert vm.regions == [rs[0]];
    res := vm.AddRegion(rs[1]);
    assert vm.regions == [rs[0], rs[1]];
    res := vm.AddRegion(rs[2]);
  }

  /** One turn of hv_scheduler_init's loop over the guests. It fails exactly if the pool has fewer than three
      pages. */
  method BuildGuest(vm: HvVm, i: nat, cpu: Cpu) returns (built: bool)
    requires vm.stage2.pools.Ok() && i < vm.stage2.pools.vms && SlotBase(i) + GUEST_SLOT_SIZE <= UINT32_LIMIT
    modifies vm, vm.stage2, vm.stage2.pools.descs, cpu`log
    ensures built <==> vm.stage2.pools.pages >= 3
    ensures built ==> GuestBuilt(vm, i)
    ensures vm.stage2.base == i * (vm.stage2.pools.pages * DESCS_PER_TABLE)
    ensures vm.stage2.pool.pages == vm.stage2.pools.pages && vm.stage2.OnlyOwnPool()
    ensures Calls(old(cpu.log)) ==> Calls(cpu.log)
  {
    hide IsTree, PageMap, TableOk, PolicyMap, BuildOutcome, Calls, GuestRegions, PolicyLacking;
    var res := vm.Init(i, i);
    AddGuestRegions(vm, i);
    GuestNeedsThree(vm.stage2.Tables(), vm.stage2.pool, vm.stage2.tree, i);
    ghost var n, count;
    RegionCount(i);
    res, n, count := vm.BuildStage2(cpu);
    UsedFits(vm.stage2);
    BuildSucceeds(i, vm.stage2.Map(), vm.stage2.poolUsed, vm.stage2.pool.pages, res, n, count);
    built := res == OK;
  }

  lemma RegionCount(i: nat)
    ensures |GuestRegions(i)| == 3
  {
  }

  lemma UsedFits(s: HvStage2)
    requires s.Valid()
    ensures s.poolUsed <= s.pool.pages
  {
    hide Linked, Branch;
  }

  lemma BuildSucceeds(i: nat, m: map<nat, Leaf>, used: nat, pages: nat, res: Status, n: nat, count: nat)
    requires BuildOutcome(GuestRegions(i), map[], 1, 2, m, used, pages, res, n, count) && used <= pages
    ensures res == OK <==> pages >= 3
    ensures res == OK ==> m == PolicyMap(GuestRegions(i), 3)
  {
    hide PolicyMap;
    BuildFitsIff(GuestRegions(i), map[], 1, 2, m, used, pages, res, n, count);
    assert map[] + PolicyMap(GuestRegions(i), 3) == PolicyMap(GuestRegions(i), 3);
  }

  /** The VM of slot j, and the VM of slot i, whose tables have just changed. */
  datatype Neighbours = Neighbours(vm: HvVm, j: nat, changed: HvVm, i: nat)

  /** What one VM does to its tables leaves another's alone: their pools are different parts of the array. */
  twostate lemma PoolKept(n: Neighbours)
    requires old(Pooled(n.vm, n.j)) && unchanged(n.vm) && unchanged(n.vm.stage2) && n.i != n.j
    requires Pooled(n.changed, n.i) && n.changed.stage2.pools == n.vm.stage2.pools && n.changed.stage2.OnlyOwnPool()
    ensures Pooled(n.vm, n.j) && n.vm.stage2.Tables() == old(n.vm.stage2.Tables())
    ensures n.vm.stage2.Map() == old(n.vm.stage2.Map())
  {
    hide IsTree, PageMap, TableOk, Pool.Ok;
    var s := n.vm.stage2;
    var size := s.pools.pages * DESCS_PER_TABLE;
    if n.i < n.j {
      PoolsDisjoint(n.i, n.j, size);
    } else {
      PoolsDisjoint(n.j, n.i, size);
    }
    assert s.pools.descs[s.base..s.base + size] == old(s.pools.descs[s.base..s.base + size]);
  }

  /** VMs with their own tables, in different pools of one array. */
  ghost predicate Separate(pools: TablePools, vms: seq<HvVm>) {
    pools.Ok() && pools.pages >= 3 && |vms| <= pools.vms && SlotBase(|vms|) <= UINT32_LIMIT &&
    (forall i :: 0 <= i < |vms| ==> vms[i].stage2.pools == pools) &&
    forall i, j :: 0 <= i < |vms| && 0 <= j < |vms| && i != j ==> vms[i] != vms[j] && vms[i].stage2 != vms[j].stage2
  }

  ghost predicate FirstBuilt(pools: TablePools, vms: seq<HvVm>, n: nat)
    requires Separate(pools, vms)
    reads vms, set vm | vm in vms :: vm.stage2, pools.descs
  {
    n <= |vms| && forall i :: 0 <= i < n ==> GuestBuilt(vms[i], i)
  }

  /** One turn of the loop, seen from the guests built before. */
  method BuildNext(pools: TablePools, vms: seq<HvVm>, i: nat, cpu: Cpu)
    requires Separate(pools, vms) && i < |vms| && FirstBuilt(pools, vms, i)
    modifies vms[i], vms[i].stage2, pools.descs, cpu`log
    ensures FirstBuilt(pools, vms, i + 1)
    ensures Calls(old(cpu.log)) ==> Calls(cpu.log)
  {
    hide Pooled, Calls, Separate, GuestRegions, PolicyMap, HvStage2.OnlyOwnPool;
    SeparateAt(pools, vms, i);
    var built := BuildGuest(vms[i], i, cpu);
    forall j | 0 <= j < i
      ensures GuestBuilt(vms[j], j)
    {
      SeparateAt(pools, vms, j);
      PoolKept(Neighbours(vms[j], j, vms[i], i));
    }
  }

  lemma SeparateAt(pools: TablePools, vms: seq<HvVm>, i: nat)
    requires Separate(pools, vms) && i < |vms|
    ensures pools.Ok() && pools.pages >= 3 && vms[i].stage2.pools == pools && i < pools.vms
    ensures SlotBase(i) + GUEST_SLOT_SIZE <= UINT32_LIMIT
    ensures forall j :: 0 <= j < |vms| && i != j ==> vms[i] != vms[j] && vms[i].stage2 != vms[j].stage2
  {
  }

  /** hv_scheduler_init's loop: every guest ends up with exactly its own layout, in its own pool. */
  method BuildGuests(pools: TablePools, vms: seq<HvVm>, cpu: Cpu)
    requires Separate(pools, vms)
    modifies vms, set vm | vm in vms :: vm.stage2, pools.descs, cpu`log
    ensures FirstBuilt(pools, vms, |vms|)
    ensures Calls(old(cpu.log)) ==> Calls(cpu.log)
  {
    hide GuestBuilt, Calls, Separate;
    for i := 0 to |vms|
      invariant FirstBuilt(pools, vms, i)
      invariant Calls(old(cpu.log)) ==> Calls(cpu.log)
    {
      BuildNext(pools, vms, i, cpu);
    }
  }

  // ----- What the hardware lets a guest reach -----

  /** One VM's tables and where they lie. */
  datatype Tables = Tables(t: seq<nat>, pool: Pool, tree: Tree)

  /** Physical memory holds tables for guest i, and vttbr names them. */
  ghost predicate InMemory(mem: nat -> nat, vttbr: nat, i: nat, x: Tables) {
    IsTree(x.t, x.pool, x.tree) && Holds(mem, x.t, x.pool) &&
    PageMap(x.t, x.pool) == PolicyMap(GuestRegions(i), 3) && vttbr == VttbrFor(i, x.pool.TablePa(0))
  }

  lemma BuiltInMemory(vm: HvVm, i: nat, mem: nat -> nat)
    requires GuestBuilt(vm, i) && Holds(mem, vm.stage2.Tables(), vm.stage2.pool)
    ensures InMemory(mem, VttbrFor(vm.vmid, vm.stage2.rootPa), i,
                     Tables(vm.stage2.Tables(), vm.stage2.pool, vm.stage2.tree))
  {
    hide IsTree, PageMap, PolicyMap, GuestRegions, Holds, VttbrFor, TableOk;
  }

  /** With guest i's VTTBR the hardware lets every fetch, load and store to an address of its RAM window through,
      and none elsewhere; each ends up in the guest's own slot, at the same offset and never in the last page. */
  lemma HardwareStaysInSlot(mem: nat -> nat, vttbr: nat, i: nat, x: Tables, ipa: nat, access: AccessKind)
    requires InMemory(mem, vttbr, i, x) && SlotBase(i) + GUEST_SLOT_SIZE <= UINT32_LIMIT && ipa < UINT32_LIMIT
    ensures var page := HardwareAccess(mem, vttbr, ipa / PAGE_SIZE, access);
      (page.Some? <==> GUEST_BASE <= ipa < GUEST_BASE + GUEST_RAM_SIZE) &&
      (page.Some? ==> page.value + ipa % PAGE_SIZE == SlotBase(i) + (ipa - GUEST_BASE) < SlotBase(i) + GUEST_RAM_SIZE)
  {
    var (t, pool, tree) := (x.t, x.pool, x.tree);
    hide Linked, Branch, PolicyMap, GuestRegions, Holds, VttbrFor, HardwareWalk, Walk, NormalRw, Permits, LeafOf;
    GuestReach(i, PageMap(t, pool), ipa);
    HardwareAgrees(mem, t, pool, tree, i, ipa / PAGE_SIZE);
    LookupIsMap(t, pool, ipa / PAGE_SIZE);
    if ipa / PAGE_SIZE in PageMap(t, pool) {
      NormalPermits(PageMap(t, pool)[ipa / PAGE_SIZE].attrs, access);
    }
  }
}
