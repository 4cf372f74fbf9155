/** stage2.c: one VM's stage-2 tables, carved from the static pool and changed in place. */
module Stage2 {
  import opened Wrappers
  import opened Bits
  import opened Descriptors
  import opened PageTable
  import opened PageTableSteps
  import opened TableCount
  import opened Tlb
  import opened Cpu

  datatype Status = OK | ErrInval | ErrRange | ErrNoTables | ErrMapped | ErrUnmapped

  /** stage2_table_pools: vms pools of `pages` pages each, in one array at physical address pa. */
  class TablePools {
    const vms: nat
    const pages: nat
    const pa: nat
    const descs: array<nat>

    ghost predicate Ok() {
      pages >= 1 && pa % PAGE_SIZE == 0 && pa + vms * (pages * PAGE_SIZE) <= UINT32_LIMIT &&
      descs.Length == vms * (pages * DESCS_PER_TABLE)
    }

    constructor (vms: nat, pages: nat, pa: nat)
      requires pages >= 1 && pa % PAGE_SIZE == 0 && pa + vms * (pages * PAGE_SIZE) <= UINT32_LIMIT
      ensures Ok() && this.vms == vms && this.pages == pages && this.pa == pa && fresh(descs)
    {
      this.vms := vms;
      this.pages := pages;
      this.pa := pa;
      this.descs := new nat[vms * (pages * DESCS_PER_TABLE)];
    }
  }

  lemma {:induction false} Monotone(m: nat, n: nat, size: nat)
    requires m <= n
    ensures m * size <= n * size
    decreases n
  {
    if m < n {
      Monotone(m, n - 1, size);
    }
  }

  /** The pools of two VMs do not meet: pool i ends before any later pool starts. */
  lemma PoolsDisjoint(i: nat, j: nat, size: nat)
    requires i < j
    ensures i * size + size <= j * size
  {
    Monotone(i + 1, j, size);
  }

  lemma PagesAligned(pa: nat, id: nat, pages: nat)
    requires pa % PAGE_SIZE == 0
    ensures (pa + id * (pages * PAGE_SIZE)) % PAGE_SIZE == 0
  {
    assert id * (pages * PAGE_SIZE) == (id * pages) * PAGE_SIZE;
  }

  class HvStage2 {
    const pools: TablePools
    var base: nat  // pool_va, as an index into the pools
    var pool: Pool  // pool_pages and pool_pa
    var rootPa: nat
    var poolUsed: nat
    ghost var tree: Tree

    constructor (pools: TablePools)
      ensures this.pools == pools
    {
      this.pools := pools;
    }

    predicate Placed()
      reads this
    {
      pool.Ok() && rootPa == pool.TablePa(0) && base + pool.pages * DESCS_PER_TABLE <= pools.descs.Length
    }

    ghost function Tables(): (t: seq<nat>)
      requires Placed()
      reads this, pools.descs
      ensures Sized(t, pool)
    {
      pools.descs[base..base + pool.pages * DESCS_PER_TABLE]
    }

    ghost predicate Valid()
      reads this, pools.descs
    {
      Placed() && IsTree(Tables(), pool, tree) && poolUsed == |tree.level|
    }

    /** What this VM's guest can reach: page number to physical page address and attributes. */
    ghost function Map(): map<nat, Leaf>
      requires Placed()
      reads this, pools.descs
    {
      PageMap(Tables(), pool)
    }

    /** Nothing of any other VM's pool is written. */
    twostate predicate OnlyOwnPool()
      reads this, pools.descs
    {
      forall i :: 0 <= i < pools.descs.Length && !(base <= i < base + pool.pages * DESCS_PER_TABLE) ==>
        pools.descs[i] == old(pools.descs[i])
    }

    function Desc(slot: nat): nat
      requires Placed() && slot < pool.pages * DESCS_PER_TABLE
      reads this, pools.descs
    {
      pools.descs[base + slot]
    }

    method SetDesc(slot: nat, desc: nat)
      requires Placed() && slot < pool.pages * DESCS_PER_TABLE
      modifies pools.descs
      ensures Tables() == old(Tables())[slot := desc] && OnlyOwnPool()
    {
      pools.descs[base + slot] := desc;
    }

    /** stage2_zero_table */
    method ZeroTable(page: nat)
      requires Placed() && page < pool.pages
      modifies pools.descs
      ensures Zeroed(old(Tables()), Tables(), page) && OnlyOwnPool()
    {
      var start := base + page * DESCS_PER_TABLE;
      for i := 0 to DESCS_PER_TABLE
        invariant forall j :: 0 <= j < pools.descs.Length ==>
          pools.descs[j] == if start <= j < start + i then DESC_INVALID else old(pools.descs[j])
      {
        pools.descs[start + i] := DESC_INVALID;
      }
    }

    /** stage2_alloc_table: the next page of the pool, cleared. */
    method AllocTable() returns (page: Option<nat>)
      requires Placed() && poolUsed <= pool.pages
      modifies this`poolUsed, pools.descs
      ensures page == if old(poolUsed) < pool.pages then Some(old(poolUsed)) else None
      ensures page.Some? ==> poolUsed == old(poolUsed) + 1 && Zeroed(old(Tables()), Tables(), page.value)
      ensures page.None? ==> poolUsed == old(poolUsed) && Tables() == old(Tables())
      ensures OnlyOwnPool()
    {
      if poolUsed >= pool.pages {
        return None;
      }
      ZeroTable(poolUsed);
      page := Some(poolUsed);
      poolUsed := poolUsed + 1;
    }

    /** The allocating half of stage2_next_table: a cleared page is hung under the empty entry e. */
    method HangTable(e: nat) returns (page: Option<nat>)
      requires Valid() && e < poolUsed * DESCS_PER_TABLE && tree.level[e / DESCS_PER_TABLE] < 3
      requires Desc(e) == DESC_INVALID
      modifies this`poolUsed, this`tree, pools.descs
      ensures Valid() && OnlyOwnPool() && Map() == old(Map())
      ensures page.None? ==> old(poolUsed) == pool.pages && Tables() == old(Tables()) && tree == old(tree)
      ensures page.Some? ==> old(poolUsed) < pool.pages && page.value == old(poolUsed)
      ensures page.Some? ==> Hung(old(Tables()), Tables(), pool, e, page.value) && tree == Grown(old(tree), e)
    {
      hide Linked, Branch, TableDesc, And, IsTableOrPage, PageMap;
      ghost var t0 := Tables();
      page := AllocTable();
      if page.None? {
        return;
      }
      ghost var t1 := Tables();
      SetDesc(e, TableDesc(pool.TablePa(page.value)));
      HangStep(t0, t1, Tables(), pool, tree, e);
      tree := Grown(tree, e);
    }

    /** stage2_next_table: the table under slot e, allocated if the entry is empty. */
    method NextTable(e: nat) returns (page: Option<nat>)
      requires Valid() && e < poolUsed * DESCS_PER_TABLE && tree.level[e / DESCS_PER_TABLE] < 3
      modifies this`poolUsed, this`tree, pools.descs
      ensures Valid() && OnlyOwnPool() && Map() == old(Map())
      ensures page.Some? ==> NextTo(old(Tables()), Tables(), pool, old(tree), tree, e, page.value)
      ensures page.None? ==> !old(IsTableOrPage(Desc(e))) && old(poolUsed) == pool.pages
      ensures page.None? ==> Tables() == old(Tables()) && tree == old(tree)
    {
      assert Branch(Tables(), pool, tree, e);
      InvalidDesc(pool);
      if IsTableOrPage(Desc(e)) {
        return pool.DescToTable(Desc(e));
      }
      if IsValid(Desc(e)) {
        return None;
      }
      page := HangTable(e);
    }

    /** stage2_page_index at the three levels */
    method Indices(ipa: nat) returns (l1: nat, l2: nat, l3: nat)
      requires ipa < UINT32_LIMIT
      ensures l1 == L1Slot(ipa / PAGE_SIZE)
      ensures l2 == ipa / PAGE_SIZE / 0x200 % 0x200
      ensures l3 == ipa / PAGE_SIZE % 0x200
    {
      IndexFields(ipa);
      l1, l2, l3 := PageIndex(ipa, L1_SHIFT), PageIndex(ipa, L2_SHIFT), PageIndex(ipa, L3_SHIFT);
    }

    /** stage2_walk_l3 with alloc == 0 */
    method WalkL3(ipa: nat) returns (slot: Option<nat>)
      requires Valid() && ipa < UINT32_LIMIT
      ensures slot == Walk(Tables(), pool, ipa / PAGE_SIZE)
    {
      hide IsTree;
      WalkInTree(Tables(), pool, tree, ipa / PAGE_SIZE);
      var i1, i2, i3 := Indices(ipa);
      var l2 := pool.DescToTable(Desc(i1));
      if l2.None? {
        return None;
      }
      var l3 := pool.DescToTable(Desc(l2.value * DESCS_PER_TABLE + i2));
      if l3.None? {
        return None;
      }
      return Some(l3.value * DESCS_PER_TABLE + i3);
    }

    /** stage2_walk_l3 with alloc == 1, from the root to the level 2 table. */
    method WalkL2Alloc(i1: nat, ghost v: nat) returns (l2: Option<nat>)
      requires Valid() && v < PAGE_NUMBERS && i1 == L1Slot(v)
      modifies this`poolUsed, this`tree, pools.descs
      ensures Valid() && OnlyOwnPool() && Map() == old(Map())
      ensures l2.None? ==> old(poolUsed) == poolUsed == pool.pages && old(Missing(Tables(), pool, v)) == 2
      ensures l2.Some? ==> NextTo(old(Tables()), Tables(), pool, old(tree), tree, L1Slot(v), l2.value)
    {
      NotTable(pool, Tables()[i1]);
      Root(Tables(), pool, tree);
      l2 := NextTable(i1);
    }

    /** stage2_walk_l3 with alloc == 1, from the level 2 table to the level 3 table. */
    method WalkL2ToL3Alloc(l2: nat, i2: nat, ghost v: nat) returns (l3: Option<nat>)
      requires Valid() && v < PAGE_NUMBERS && i2 == v / 0x200 % 0x200
      requires l2 < |tree.level| && tree.level[l2] == 2
      modifies this`poolUsed, this`tree, pools.descs
      ensures Valid() && OnlyOwnPool() && Map() == old(Map())
      ensures l3.None? ==> old(poolUsed) == poolUsed == pool.pages && !old(IsTableOrPage(Tables()[L2Slot(l2, v)]))
      ensures l3.Some? ==> NextTo(old(Tables()), Tables(), pool, old(tree), tree, L2Slot(l2, v), l3.value)
    {
      var e := l2 * DESCS_PER_TABLE + i2;
      assert e == L2Slot(l2, v);
      l3 := NextTable(e);
    }

    /** stage2_walk_l3 with alloc == 1: missing tables are added, and they are what decides failure. */
    method WalkL3Alloc(ipa: nat) returns (slot: Option<nat>)
      requires Valid() && ipa < UINT32_LIMIT
      modifies this`poolUsed, this`tree, pools.descs
      ensures Valid() && OnlyOwnPool() && Map() == old(Map())
      ensures slot.None? ==> old(poolUsed) + old(Missing(Tables(), pool, ipa / PAGE_SIZE)) > poolUsed == pool.pages
      ensures slot.Some? ==> slot == Walk(Tables(), pool, ipa / PAGE_SIZE)
      ensures slot.Some? ==> poolUsed == old(poolUsed) + old(Missing(Tables(), pool, ipa / PAGE_SIZE))
      ensures slot.Some? ==> Opened(old(Tables()), Tables(), pool, ipa / PAGE_SIZE)
    {
      hide IsTree, NextTo, Opened, Missing, PageMap, L1Slot, L2Table, L3Table, IsTableOrPage;
      ghost var v, t0, tree0 := ipa / PAGE_SIZE, Tables(), tree;
      var i1, i2, i3 := Indices(ipa);
      var l2 := WalkL2Alloc(i1, v);
      if l2.None? {
        return None;
      }
      ghost var t1, tree1 := Tables(), tree;
      NextLevel(t0, t1, pool, tree0, tree1, v, l2.value);
      var l3 := WalkL2ToL3Alloc(l2.value, i2, v);
      if l3.None? {
        NextMissing(t0, t1, pool, tree0, tree1, v, l2.value);
        return None;
      }
      NextTwice(t0, t1, Tables(), pool, tree0, tree1, tree, v, l2.value, l3.value);
      return Some(l3.value * DESCS_PER_TABLE + i3);
    }

    /** The last step of stage2_map_page: the page descriptor is filled in, unless it is valid already. */
    method FillPage(slot: nat, ghost v: nat, pa: nat, attrs: nat, cpu: Cpu) returns (filled: bool)
      requires Valid() && v < PAGE_NUMBERS && Walk(Tables(), pool, v) == Some(slot)
      requires pa < UINT32_LIMIT && pa % PAGE_SIZE == 0
      modifies pools.descs, cpu`log
      ensures Valid() && OnlyOwnPool()
      ensures filled ==> SameTables(old(Tables()), Tables(), pool)
      ensures filled <==> v !in old(Map())
      ensures filled ==> IsPageFor(Desc(slot), pa, attrs)
      ensures Map() == if filled then old(Map())[v := PageLeaf(pa, attrs)] else old(Map())
      ensures cpu.log == old(cpu.log) + if filled then [Store(rootPa, v, Some(PageLeaf(pa, attrs)))] else []
    {
      hide Linked, Branch, PageMap, SameTables, Walk, PageDesc, And, Or, TableDesc, IsPageFor;
      hide PageLeaf, LeafOf;
      ghost var t := Tables();
      LeafState(t, pool, tree, v);
      if IsValid(Desc(slot)) {
        return false;
      }
      PageDescRoundTrip(pa, attrs);
      LeafOfPageDesc(pa, attrs);
      PageDescBits(pa, attrs);
      SetDesc(slot, PageDesc(pa, attrs));
      FillAddsPage(t, Tables(), pool, tree, v, PageDesc(pa, attrs));
      cpu.log := cpu.log + [Store(rootPa, v, Some(PageLeaf(pa, attrs)))];
      return true;
    }

    /** stage2_map_page */
    method MapPage(ipa: nat, pa: nat, attrs: nat, cpu: Cpu) returns (res: Status)
      requires Valid() && ipa < UINT32_LIMIT && pa < UINT32_LIMIT && pa % PAGE_SIZE == 0
      modifies this`poolUsed, this`tree, pools.descs, cpu`log
      ensures Valid() && OnlyOwnPool()
      ensures res in {OK, ErrMapped, ErrNoTables}
      ensures res == ErrMapped <==> ipa / PAGE_SIZE in old(Map())
      ensures res == ErrNoTables <==> old(poolUsed) + old(Missing(Tables(), pool, ipa / PAGE_SIZE)) > pool.pages
      ensures Map() == if res == OK then old(Map())[ipa / PAGE_SIZE := PageLeaf(pa, attrs)] else old(Map())
      ensures cpu.log == old(cpu.log) +
        if res == OK then [Store(rootPa, ipa / PAGE_SIZE, Some(PageLeaf(pa, attrs)))] else []
      ensures res == ErrNoTables ==> poolUsed == pool.pages
      ensures res == OK ==> poolUsed == old(poolUsed) + old(Missing(Tables(), pool, ipa / PAGE_SIZE))
      ensures res == OK ==> Opened(old(Tables()), Tables(), pool, ipa / PAGE_SIZE)
    {
      hide IsTree, Opened, Missing, PageMap, Walk, PageLeaf, IsPageFor;
      ghost var v, t0 := ipa / PAGE_SIZE, Tables();
      Root(t0, pool, tree);
      MappedHasTables(t0, pool, v);
      var slot := WalkL3Alloc(ipa);
      if slot.None? {
        return ErrNoTables;
      }
      ghost var t1 := Tables();
      Root(t1, pool, tree);
      var filled := FillPage(slot.value, v, pa, attrs, cpu);
      if !filled {
        return ErrMapped;
      }
      OpenedThenFilled(t0, t1, Tables(), pool, v);
      return OK;
    }

    /** The write of hv_stage2_unmap_page: the page descriptor is cleared, and the page leaves the map. */
    method ClearPage(slot: nat, ghost v: nat, cpu: Cpu)
      requires Valid() && v < PAGE_NUMBERS && Walk(Tables(), pool, v) == Some(slot)
      modifies pools.descs, cpu`log
      ensures Valid() && OnlyOwnPool()
      ensures Map() == old(Map()) - {v} && SameTables(old(Tables()), Tables(), pool)
      ensures cpu.log == old(cpu.log) + [Store(rootPa, v, None)]
    {
      hide Linked, Branch, PageMap, Walk;
      ghost var t := Tables();
      SetDesc(slot, DESC_INVALID);
      ClearRemovesPage(t, Tables(), pool, tree, v);
      cpu.log := cpu.log + [Store(rootPa, v, None)];
    }

    /** hv_stage2_translate */
    method Translate(ipa: nat) returns (res: Status, pa: nat)
      requires Valid()
      ensures res == if ipa >= UINT32_LIMIT then ErrInval else if ipa / PAGE_SIZE in Map() then OK else ErrUnmapped
      ensures res == OK ==> pa == Map()[ipa / PAGE_SIZE].pa + ipa % PAGE_SIZE
    {
      hide IsTree, Walk;
      if !Fits32(ipa) {
        return ErrInval, 0;
      }
      var slot := WalkL3(ipa);
      LookupIsMap(Tables(), pool, ipa / PAGE_SIZE);
      if slot.None? || !IsTableOrPage(Desc(slot.value)) {
        return ErrUnmapped, 0;
      }
      AddrWithOffset(Desc(slot.value), ipa);
      return OK, Or(DescAddr(Desc(slot.value)), And(ipa, PAGE_SIZE - 1));
    }

    /** hv_stage2_init: slot `id` of the static pools, emptied. */
    method Init(id: nat) returns (res: Status)
      requires pools.Ok()
      modifies this, pools.descs
      ensures res == if id < pools.vms then OK else ErrInval
      ensures res != OK ==> unchanged(this) && unchanged(pools.descs)
      ensures res == OK ==> Valid() && OnlyOwnPool() && Map() == map[] && poolUsed == 1
      ensures res == OK ==> forall s :: 0 <= s < |Tables()| ==> Tables()[s] == DESC_INVALID
      ensures res == OK ==> base == id * (pools.pages * DESCS_PER_TABLE)
      ensures res == OK ==> pool == Pool(pools.pages, pools.pa + id * (pools.pages * PAGE_SIZE))
    {
      if id >= pools.vms {
        return ErrInval;
      }
      PoolsDisjoint(id, pools.vms, pools.pages * DESCS_PER_TABLE);
      PoolsDisjoint(id, pools.vms, pools.pages * PAGE_SIZE);
      base := id * (pools.pages * DESCS_PER_TABLE);
      pool := Pool(pools.pages, pools.pa + id * (pools.pages * PAGE_SIZE));
      PagesAligned(pools.pa, id, pools.pages);
      poolUsed := 1;
      rootPa := pool.TablePa(0);
      tree := ROOT_ONLY;
      ZeroAll();
      EmptyTree(Tables(), pool);
      return OK;
    }

    method ZeroAll()
      requires Placed()
      modifies pools.descs
      ensures OnlyOwnPool() && forall s :: 0 <= s < |Tables()| ==> Tables()[s] == DESC_INVALID
    {
      for page := 0 to pool.pages
        invariant OnlyOwnPool()
        invariant forall s :: 0 <= s < page * DESCS_PER_TABLE ==> Tables()[s] == DESC_INVALID
      {
        ZeroTable(page);
      }
    }
  }
}
