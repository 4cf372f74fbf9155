/** vm.c and the region-level half of stage2.c: a guest's address space, its policy and its tables. */
module Vm {
  import opened Wrappers
  import opened Descriptors
  import opened PageTable
  import opened PageTableSteps
  import opened TableCount
  import opened PageRuns
  import opened Regions
  import opened Stage2
  import opened Tlb
  import opened Cpu

  datatype VmStatus = VmOk | VmErrInval | VmErrFull | VmErrOverlap

  /** hv_stage2_map_region's checks, before it touches any table. */
  predicate MapArgsValid(ipa: nat, pa: nat, size: nat) {
    Aligned(ipa) && Aligned(pa) && Aligned(size) && size != 0 &&
    ipa + size - 1 < UINT64_LIMIT && pa + size - 1 < UINT64_LIMIT
  }

  predicate MapArgsInRange(rs: seq<Region>, ipa: nat, pa: nat, size: nat) {
    ipa + size - 1 < UINT32_LIMIT && pa + size - 1 < UINT32_LIMIT &&
    exists i :: 0 <= i < |rs| && Contains(rs[i], ipa) && ContainsMapping(rs[i], ipa, pa, size)
  }

  /** The verdict of those checks. */
  function MapCheck(rs: seq<Region>, ipa: nat, pa: nat, size: nat): Status {
    if !MapArgsValid(ipa, pa, size) then ErrInval
    else if !MapArgsInRange(rs, ipa, pa, size) then ErrRange
    else OK
  }

  /** r is RAM and has all of [ipa, ipa + size), at pa. */
  predicate Backs(r: Region, ipa: nat, pa: nat, size: nat) {
    r.kind.Ram? && r.ipaBase <= ipa && ipa + size <= r.ipaBase + r.size && pa == r.paBase + (ipa - r.ipaBase)
  }

  /** Which mappings are let through: whole pages that one RAM region has, where that region has them. The other
      verdicts come in that order: pages or sizes that are not whole or wrap around, then everything else. */
  lemma MapCheckIs(rs: seq<Region>, ipa: nat, pa: nat, size: nat)
    requires TableOk(rs)
    ensures MapCheck(rs, ipa, pa, size) == ErrInval <==>
      ipa % 0x1000 != 0 || pa % 0x1000 != 0 || size % 0x1000 != 0 || size == 0 ||
      ipa + size > 0x1_0000_0000_0000_0000 || pa + size > 0x1_0000_0000_0000_0000
    ensures MapCheck(rs, ipa, pa, size) == OK <==>
      ipa % 0x1000 == 0 && pa % 0x1000 == 0 && size % 0x1000 == 0 && size > 0 &&
      exists i :: 0 <= i < |rs| && Backs(rs[i], ipa, pa, size)
    ensures MapCheck(rs, ipa, pa, size) in {OK, ErrInval, ErrRange}
  {
    hide Aligned, RegionValid;
    AlignedIsMultiple(ipa);
    AlignedIsMultiple(pa);
    AlignedIsMultiple(size);
    forall i | 0 <= i < |rs| && size > 0
      ensures Backs(rs[i], ipa, pa, size) <==> Contains(rs[i], ipa) && ContainsMapping(rs[i], ipa, pa, size)
      ensures Backs(rs[i], ipa, pa, size) ==> ipa + size <= UINT32_LIMIT && pa + size <= UINT32_LIMIT
    {
      ValidRegion(rs[i]);
    }
  }

  /** Nothing is mapped but what the policy allows: each page of m lies in a RAM region of rs, and is where that region
      has it. */
  ghost predicate Within(rs: seq<Region>, m: map<nat, Leaf>) {
    forall v :: v in m ==> Allowed(rs, v, m[v].pa)
  }

  ghost predicate Allowed(rs: seq<Region>, v: nat, pa: nat) {
    exists i :: 0 <= i < |rs| && Backs(rs[i], v * PAGE_SIZE, pa, PAGE_SIZE)
  }

  lemma WithinRun(rs: seq<Region>, m: map<nat, Leaf>, ipa: nat, pa: nat, size: nat, attrs: nat, count: nat)
    requires TableOk(rs) && Within(rs, m) && MapCheck(rs, ipa, pa, size) == OK && count <= size / PAGE_SIZE
    ensures Within(rs, m + PageRun(ipa / PAGE_SIZE, pa, attrs, count))
  {
    hide TableOk, MapCheck;
    MapCheckIs(rs, ipa, pa, size);
    var i :| 0 <= i < |rs| && Backs(rs[i], ipa, pa, size);
    var v := ipa / PAGE_SIZE;
    forall w: nat | v <= w < v + count
      ensures Allowed(rs, w, PageAt(v, pa, attrs, w).pa)
    {
      assert Backs(rs[i], w * PAGE_SIZE, PageAt(v, pa, attrs, w).pa, PAGE_SIZE);
    }
  }

  lemma WithinMore(rs: seq<Region>, r: Region, m: map<nat, Leaf>)
    requires Within(rs, m)
    ensures Within(rs + [r], m)
  {
    forall v | v in m
      ensures Allowed(rs + [r], v, m[v].pa)
    {
      var i :| 0 <= i < |rs| && Backs(rs[i], v * PAGE_SIZE, m[v].pa, PAGE_SIZE);
      assert (rs + [r])[i] == rs[i];
    }
  }

  /** What hv_stage2_map_region may do to tables t with a run of n pages from v, once its arguments are
      accepted: map a prefix of the run and nothing else, and say truthfully why it stopped. */
  ghost predicate MapOutcome(t: seq<nat>, used: nat, t': seq<nat>, used': nat, pool: Pool,
                             v: nat, pa: nat, attrs: nat, n: nat, res: Status, count: nat)
  {
    Sized(t, pool) && Sized(t', pool) && v + n <= PAGE_NUMBERS && count <= n &&
    PageMap(t', pool) == PageMap(t, pool) + PageRun(v, pa, attrs, count) &&
    (forall w: nat | w in PageMap(t, pool) :: !(v <= w < v + count)) &&
    match res
    case OK => count == n && used' == used + TablesNeeded(t, pool, v, n) && RunOpened(t, t', pool, v, n)
    case ErrMapped => count < n && v + count in PageMap(t, pool)
    case ErrNoTables => count < n && used' == pool.pages && used + TablesNeeded(t, pool, v, n) > pool.pages
    case _ => false
  }

  /** Exact allocation, for a whole run: if none of it is mapped yet, it succeeds exactly when the pool
      has room for the tables it lacks. */
  lemma RunFitsIff(t: seq<nat>, used: nat, t': seq<nat>, used': nat, pool: Pool,
                   v: nat, pa: nat, attrs: nat, n: nat, res: Status, count: nat)
    requires MapOutcome(t, used, t', used', pool, v, pa, attrs, n, res, count) && used' <= pool.pages
    requires forall i :: v <= i < v + n ==> i !in PageMap(t, pool)
    ensures res == OK <==> used + TablesNeeded(t, pool, v, n) <= pool.pages
    ensures res != OK ==> res == ErrNoTables
  {
  }

  lemma LastPage(r: Region, ipa: nat)
    requires Contains(r, ipa) && r.ipaBase % PAGE_SIZE == 0 && r.size % PAGE_SIZE == 0 && ipa % PAGE_SIZE == 0
    ensures ipa - r.ipaBase <= r.size - PAGE_SIZE
  {
  }

  lemma UnwalkedIsUnmapped(t: seq<nat>, pool: Pool, v: nat)
    requires Sized(t, pool) && v < PAGE_NUMBERS && Walk(t, pool, v).None?
    ensures PageMap(t, pool) - {v} == PageMap(t, pool)
    ensures SameTables(t, t, pool)
  {
  }

  /** An upper bound on the tables the first n regions need. */
  function PolicyBlocks(rs: seq<Region>, n: nat): nat
    requires n <= |rs|
  {
    if n == 0 then 0
    else PolicyBlocks(rs, n - 1) +
         if rs[n - 1].kind.Ram? then BlocksTouched(rs[n - 1].ipaBase / PAGE_SIZE, rs[n - 1].size / PAGE_SIZE) else 0
  }

  lemma {:induction false} PolicyGrows(rs: seq<Region>, k: nat, n: nat, v: nat)
    requires k <= n <= |rs| && v in PolicyMap(rs, k)
    ensures v in PolicyMap(rs, n)
    decreases n
  {
    if k < n {
      PolicyGrows(rs, k, n - 1, v);
    }
  }

  /** An accepted RAM region passes the checks of hv_stage2_map_region. */
  lemma RegionPassesChecks(rs: seq<Region>, i: nat)
    requires TableOk(rs) && i < |rs| && rs[i].kind.Ram?
    ensures MapCheck(rs, rs[i].ipaBase, rs[i].paBase, rs[i].size) == OK
  {
    ValidRegion(rs[i]);
    assert Contains(rs[i], rs[i].ipaBase);
  }

  lemma RegionRun(r: Region)
    requires RegionValid(r)
    ensures r.ipaBase / PAGE_SIZE + r.size / PAGE_SIZE <= PAGE_NUMBERS
  {
    ValidRegion(r);
  }

  /** The blocks that region r touches and t has no table for. */
  ghost function RegionLacking(t: seq<nat>, pool: Pool, r: Region): set<Block>
    requires Sized(t, pool) && RegionValid(r)
  {
    RegionRun(r);
    if r.kind.Ram? then Lacking(t, pool, r.ipaBase / PAGE_SIZE, r.size / PAGE_SIZE) else {}
  }

  /** The blocks that the first n regions touch and t has no table for, each once. */
  ghost function PolicyLacking(t: seq<nat>, pool: Pool, rs: seq<Region>, n: nat): set<Block>
    requires Sized(t, pool) && TableOk(rs) && n <= |rs|
  {
    if n == 0 then {} else PolicyLacking(t, pool, rs, n - 1) + RegionLacking(t, pool, rs[n - 1])
  }

  lemma {:induction false} PolicyLackingGrows(t: seq<nat>, pool: Pool, rs: seq<Region>, k: nat, n: nat)
    requires Sized(t, pool) && TableOk(rs) && k <= n <= |rs|
    ensures PolicyLacking(t, pool, rs, k) <= PolicyLacking(t, pool, rs, n)
    decreases n
  {
    hide Sized, TableOk, RegionLacking;
    if k < n {
      PolicyLackingGrows(t, pool, rs, k, n - 1);
    }
  }

  lemma SubsetCounts(a: set<Block>, b: set<Block>)
    requires a <= b
    ensures |a| <= |b|
  {
    assert b == a + (b - a);
  }

  lemma UnionCounts(a: set<Block>, b: set<Block>)
    ensures |a + b| == |a| + |b - a| && |b - a| <= |b|
  {
    assert a + b == a + (b - a) && a !! b - a;
    SubsetCounts(b - a, b);
  }

  /** A build never needs more tables than there are blocks, counted region by region. */
  lemma {:induction false} BlocksBoundLacking(t: seq<nat>, pool: Pool, rs: seq<Region>, n: nat)
    requires Sized(t, pool) && TableOk(rs) && n <= |rs|
    ensures |PolicyLacking(t, pool, rs, n)| <= PolicyBlocks(rs, n)
    decreases n
  {
    hide Sized, RegionValid, Lacking, TablesNeeded, BlocksTouched;
    if n > 0 {
      BlocksBoundLacking(t, pool, rs, n - 1);
      var r := rs[n - 1];
      RegionRun(r);
      LackingCounts(t, pool, r.ipaBase / PAGE_SIZE, r.size / PAGE_SIZE);
      BlocksSuffice(t, pool, r.ipaBase / PAGE_SIZE, r.size / PAGE_SIZE);
      UnionCounts(PolicyLacking(t, pool, rs, n - 1), RegionLacking(t, pool, r));
    }
  }

  /** t has the tables of t0 and those of the given blocks. */
  ghost predicate HasAlso(t0: seq<nat>, t: seq<nat>, pool: Pool, blocks: set<Block>)
    requires Sized(t0, pool) && Sized(t, pool)
  {
    forall w: nat {:trigger L2Table(t, pool, w)} {:trigger L3Table(t, pool, w)} | w < PAGE_NUMBERS ::
      (L2Table(t, pool, w).None? <==> L2Table(t0, pool, w).None? && Giga(w / 0x40000) !in blocks) &&
      (L3Table(t, pool, w).None? <==> L3Table(t0, pool, w).None? && Mega(w / 0x200) !in blocks)
  }

  /** What a run lacks now is what it lacked at first, but for the blocks that have come. */
  lemma LackingNow(t0: seq<nat>, t: seq<nat>, pool: Pool, blocks: set<Block>, v: nat, n: nat)
    requires Sized(t0, pool) && Sized(t, pool) && v + n <= PAGE_NUMBERS && HasAlso(t0, t, pool, blocks)
    ensures Lacking(t, pool, v, n) == Lacking(t0, pool, v, n) - blocks
  {
    hide Sized, L2Table, L3Table;
    forall w: nat | v <= w < v + n
      ensures L2Table(t, pool, w).None? <==> L2Table(t0, pool, w).None? && Giga(w / 0x40000) !in blocks
      ensures L3Table(t, pool, w).None? <==> L3Table(t0, pool, w).None? && Mega(w / 0x200) !in blocks
    {
    }
  }

  lemma OpensAlso(t0: seq<nat>, t: seq<nat>, t': seq<nat>, pool: Pool, blocks: set<Block>, v: nat, n: nat)
    requires Sized(t0, pool) && Sized(t, pool) && Sized(t', pool) && v + n <= PAGE_NUMBERS
    requires HasAlso(t0, t, pool, blocks) && RunOpened(t, t', pool, v, n)
    ensures HasAlso(t0, t', pool, blocks + Lacking(t0, pool, v, n))
  {
    hide Sized, L2Table, L3Table, Lacking, RunOpened;
    LackingNow(t0, t, pool, blocks, v, n);
    forall w: nat | w < PAGE_NUMBERS
      ensures var all := blocks + Lacking(t0, pool, v, n);
        (L2Table(t', pool, w).None? <==> L2Table(t0, pool, w).None? && Giga(w / 0x40000) !in all) &&
        (L3Table(t', pool, w).None? <==> L3Table(t0, pool, w).None? && Mega(w / 0x200) !in all)
    {
      OpenedLacks(t, t', pool, v, n, w);
      assert L2Table(t, pool, w).None? <==> L2Table(t0, pool, w).None? && Giga(w / 0x40000) !in blocks;
      assert L3Table(t, pool, w).None? <==> L3Table(t0, pool, w).None? && Mega(w / 0x200) !in blocks;
    }
  }

  /** The first i regions are in the tables t, on top of what t0 held; each block they lacked has cost one
      page. */
  ghost predicate Built(rs: seq<Region>, t0: seq<nat>, used0: nat, t: seq<nat>, used: nat, pool: Pool, i: nat)
    requires Sized(t0, pool) && Sized(t, pool) && TableOk(rs)
  {
    i <= |rs| && PageMap(t, pool) == PageMap(t0, pool) + PolicyMap(rs, i) &&
    used == used0 + |PolicyLacking(t0, pool, rs, i)| && HasAlso(t0, t, pool, PolicyLacking(t0, pool, rs, i))
  }

  /** The first count pages of a region. */
  ghost function RunOf(r: Region, count: nat): map<nat, Leaf> {
    PageRun(r.ipaBase / PAGE_SIZE, r.paBase, r.attrs, count)
  }

  /** What hv_vm_build_stage2 may answer when its regions lack `need` tables, and what the tables then map. */
  ghost predicate BuildOutcome(rs: seq<Region>, m0: map<nat, Leaf>, used0: nat, need: nat, m: map<nat, Leaf>, used: nat,
                               pages: nat, res: Status, n: nat, count: nat)
  {
    match res
    case OK => n == |rs| && m == m0 + PolicyMap(rs, n) && used == used0 + need
    case ErrMapped =>
      n < |rs| && m == m0 + PolicyMap(rs, n) + RunOf(rs[n], count) &&
      exists v :: v in m0 && v in PolicyMap(rs, |rs|)
    case ErrNoTables =>
      n < |rs| && m == m0 + PolicyMap(rs, n) + RunOf(rs[n], count) &&
      used == pages && used0 + need > pages
    case _ => false
  }

  /** Exact allocation, for a whole build: if none of its pages is mapped yet, it succeeds exactly when the
      pool has room for every table its regions lack. */
  lemma BuildFitsIff(rs: seq<Region>, m0: map<nat, Leaf>, used0: nat, need: nat, m: map<nat, Leaf>, used: nat,
                     pages: nat, res: Status, n: nat, count: nat)
    requires BuildOutcome(rs, m0, used0, need, m, used, pages, res, n, count) && used <= pages
    requires forall v :: v in m0 ==> v !in PolicyMap(rs, |rs|)
    ensures res == OK <==> used0 + need <= pages
    ensures res != OK ==> res == ErrNoTables
  {
  }

  lemma BuildStart(rs: seq<Region>, t0: seq<nat>, used0: nat, pool: Pool)
    requires Sized(t0, pool) && TableOk(rs)
    ensures Built(rs, t0, used0, t0, used0, pool, 0)
  {
    assert PageMap(t0, pool) + PolicyMap(rs, 0) == PageMap(t0, pool);
  }

  lemma BuildSkip(rs: seq<Region>, t0: seq<nat>, used0: nat, t: seq<nat>, used: nat, pool: Pool, i: nat)
    requires Sized(t0, pool) && Sized(t, pool) && TableOk(rs)
    requires i < |rs| && !rs[i].kind.Ram? && Built(rs, t0, used0, t, used, pool, i)
    ensures Built(rs, t0, used0, t, used, pool, i + 1)
  {
    hide HasAlso, TableOk, RegionValid;
    assert PolicyMap(rs, i) + map[] == PolicyMap(rs, i);
    assert PolicyLacking(t0, pool, rs, i) + {} == PolicyLacking(t0, pool, rs, i);
  }

  lemma BuildMore(rs: seq<Region>, t0: seq<nat>, used0: nat, t: seq<nat>, used: nat, t': seq<nat>, used': nat,
                  pool: Pool, i: nat, count: nat)
    requires Sized(t0, pool) && Sized(t, pool) && TableOk(rs)
    requires i < |rs| && rs[i].kind.Ram? && Built(rs, t0, used0, t, used, pool, i)
    requires MapOutcome(t, used, t', used', pool, rs[i].ipaBase / PAGE_SIZE, rs[i].paBase, rs[i].attrs,
                        rs[i].size / PAGE_SIZE, OK, count)
    ensures Sized(t', pool) && Built(rs, t0, used0, t', used', pool, i + 1)
  {
    hide PageMap, PageRun, HasAlso, RegionValid, Lacking, TablesNeeded, RunOpened;
    var v, n := rs[i].ipaBase / PAGE_SIZE, rs[i].size / PAGE_SIZE;
    var blocks := PolicyLacking(t0, pool, rs, i);
    RegionCosts(t0, t, pool, blocks, v, n);
    OpensAlso(t0, t, t', pool, blocks, v, n);
    MapPlusAssoc(PageMap(t0, pool), PolicyMap(rs, i), RegionPages(rs[i]));
  }

  /** What one more region costs. */
  lemma RegionCosts(t0: seq<nat>, t: seq<nat>, pool: Pool, blocks: set<Block>, v: nat, n: nat)
    requires Sized(t0, pool) && Sized(t, pool) && v + n <= PAGE_NUMBERS && HasAlso(t0, t, pool, blocks)
    ensures |blocks + Lacking(t0, pool, v, n)| == |blocks| + TablesNeeded(t, pool, v, n)
  {
    hide Sized, Lacking, TablesNeeded, HasAlso;
    LackingNow(t0, t, pool, blocks, v, n);
    LackingCounts(t, pool, v, n);
    UnionCounts(blocks, Lacking(t0, pool, v, n));
  }

  lemma BuildFail(rs: seq<Region>, t0: seq<nat>, used0: nat, t: seq<nat>, used: nat, t': seq<nat>, used': nat,
                  pool: Pool, i: nat, res: Status, count: nat)
    requires Sized(t0, pool) && Sized(t, pool) && TableOk(rs)
    requires i < |rs| && rs[i].kind.Ram? && Built(rs, t0, used0, t, used, pool, i) && res != OK
    requires MapOutcome(t, used, t', used', pool, rs[i].ipaBase / PAGE_SIZE, rs[i].paBase, rs[i].attrs,
                        rs[i].size / PAGE_SIZE, res, count)
    ensures Sized(t', pool) &&
      BuildOutcome(rs, PageMap(t0, pool), used0, |PolicyLacking(t0, pool, rs, |rs|)|, PageMap(t', pool), used',
                   pool.pages, res, i, count)
  {
    hide PageMap, PageRun, HasAlso, TableOk, Lacking, TablesNeeded, RunOpened, RegionPages;
    var v, n := rs[i].ipaBase / PAGE_SIZE, rs[i].size / PAGE_SIZE;
    if res == ErrNoTables {
      FailureCosts(rs, t0, t, pool, i);
    } else {
      FailureCollides(rs, PageMap(t0, pool), i, v + count);
    }
  }

  /** If region i does not fit, the whole policy does not. */
  lemma FailureCosts(rs: seq<Region>, t0: seq<nat>, t: seq<nat>, pool: Pool, i: nat)
    requires Sized(t0, pool) && Sized(t, pool) && TableOk(rs) && i < |rs| && rs[i].kind.Ram?
    requires rs[i].ipaBase / PAGE_SIZE + rs[i].size / PAGE_SIZE <= PAGE_NUMBERS
    requires HasAlso(t0, t, pool, PolicyLacking(t0, pool, rs, i))
    ensures |PolicyLacking(t0, pool, rs, i)| + TablesNeeded(t, pool, rs[i].ipaBase / PAGE_SIZE, rs[i].size / PAGE_SIZE)
            <= |PolicyLacking(t0, pool, rs, |rs|)|
  {
    hide HasAlso, Lacking, TablesNeeded;
    RegionCosts(t0, t, pool, PolicyLacking(t0, pool, rs, i), rs[i].ipaBase / PAGE_SIZE, rs[i].size / PAGE_SIZE);
    PolicyLackingGrows(t0, pool, rs, i + 1, |rs|);
    SubsetCounts(PolicyLacking(t0, pool, rs, i + 1), PolicyLacking(t0, pool, rs, |rs|));
  }

  /** If a page of region i is mapped already, it was so from the start. */
  lemma FailureCollides(rs: seq<Region>, m0: map<nat, Leaf>, i: nat, w: nat)
    requires TableOk(rs) && i < |rs| && rs[i].kind.Ram? && w in m0 + PolicyMap(rs, i)
    requires rs[i].ipaBase / PAGE_SIZE <= w < rs[i].ipaBase / PAGE_SIZE + rs[i].size / PAGE_SIZE
    ensures w in m0 && w in PolicyMap(rs, |rs|)
  {
    hide PageRun, TableOk;
    InRun(rs[i], w);
    PolicyDisjoint(rs, i, w);
    PolicyGrows(rs, i + 1, |rs|, w);
  }

  lemma InRun(r: Region, w: nat)
    requires r.kind.Ram? && r.ipaBase / PAGE_SIZE <= w < r.ipaBase / PAGE_SIZE + r.size / PAGE_SIZE
    ensures w in RegionPages(r)
  {
  }

  lemma BuildEnd(rs: seq<Region>, t0: seq<nat>, used0: nat, t: seq<nat>, used: nat, pool: Pool, count: nat)
    requires Sized(t0, pool) && Sized(t, pool) && TableOk(rs) && Built(rs, t0, used0, t, used, pool, |rs|)
    ensures BuildOutcome(rs, PageMap(t0, pool), used0, |PolicyLacking(t0, pool, rs, |rs|)|, PageMap(t, pool), used,
                         pool.pages, OK, |rs|, count)
  {
  }

  lemma MapPlusAssoc(a: map<nat, Leaf>, b: map<nat, Leaf>, c: map<nat, Leaf>)
    ensures (a + b) + c == a + (b + c)
  {
  }

  lemma MapArgsFit(rs: seq<Region>, ipa: nat, pa: nat, size: nat)
    requires MapCheck(rs, ipa, pa, size) == OK
    ensures ipa + size <= UINT32_LIMIT && pa + size <= UINT32_LIMIT
    ensures ipa % PAGE_SIZE == 0 && pa % PAGE_SIZE == 0 && size % PAGE_SIZE == 0
  {
    MapArgsArithmetic(ipa, pa, size);
  }

  lemma MapArgsArithmetic(ipa: nat, pa: nat, size: nat)
    requires MapArgsValid(ipa, pa, size)
    ensures ipa % PAGE_SIZE == 0 && pa % PAGE_SIZE == 0 && size % PAGE_SIZE == 0 && size >= PAGE_SIZE
  {
    AlignedIsMultiple(ipa);
    AlignedIsMultiple(pa);
    AlignedIsMultiple(size);
  }

  /** The guest's whole view of memory after a build from empty tables: an address translates exactly if a
      RAM region contains it, at that region's offset and with its attributes; guards, devices and unlisted
      addresses do not. */
  lemma BuiltTranslation(rs: seq<Region>, used0: nat, need: nat, m: map<nat, Leaf>, used: nat, pages: nat,
                         n: nat, count: nat, ipa: nat)
    requires TableOk(rs) && BuildOutcome(rs, map[], used0, need, m, used, pages, OK, n, count)
    ensures ipa / PAGE_SIZE in m <==> exists i :: 0 <= i < |rs| && rs[i].kind.Ram? && Contains(rs[i], ipa)
    ensures forall i :: 0 <= i < |rs| && Contains(rs[i], ipa) ==>
      if rs[i].kind.Ram? then ipa / PAGE_SIZE in m && LeafServes(m[ipa / PAGE_SIZE], rs[i], ipa)
      else ipa / PAGE_SIZE !in m
  {
    hide LeafServes;
    assert m == PolicyMap(rs, |rs|);
    PolicyMapAt(rs, |rs|, ipa);
    forall i, j | 0 <= i < |rs| && 0 <= j < |rs| && Contains(rs[i], ipa) && Contains(rs[j], ipa)
      ensures i == j
    {
      OneRegion(rs, i, j, ipa);
    }
  }

  /** What the hardware caches of a region's pages, stored and flushed by MapRegion, can be trusted. */
  lemma MapIsCall(root: nat, v: nat, pa: nat, attrs: nat, n: nat)
    ensures IsCall(MapOps(root, v, pa, attrs, n)) && IsCall(UnmapOps(root, v)) && IsCall([TlbiIpa(v)])
  {
  }

  /** The logged stores of a mapping give the tables at root just the pages that the page map gained, and an
      unmapping takes just its page, so the log's view of the tables stays that of the descriptors. */
  lemma {:induction false} StoresMap(m: Mmu, root: nat, v: nat, pa: nat, attrs: nat, n: nat, other: nat)
    ensures Run(m, StoreOps(root, v, pa, attrs, n)).MapAt(root) == m.MapAt(root) + PageRun(v, pa, attrs, n)
    ensures other != root ==> Run(m, StoreOps(root, v, pa, attrs, n)).MapAt(other) == m.MapAt(other)
    decreases n
  {
    hide PageLeaf, Mmu.Apply, Mmu.MapAt, PageRun;
    if n == 0 {
      NoRun(m.MapAt(root), v, pa, attrs);
    } else {
      var last := Store(root, v + (n - 1), Some(PageLeaf(pa + (n - 1) * PAGE_SIZE, attrs)));
      var m1 := Run(m, StoreOps(root, v, pa, attrs, n - 1));
      StoresMap(m, root, v, pa, attrs, n - 1, other);
      RunAppend(m, StoreOps(root, v, pa, attrs, n - 1), [last]);
      RunOne(m1, last);
      StoreApplied(m1, root, last.v, last.leaf.value, other);
      PageRunGrows(m.MapAt(root), v, pa, attrs, n - 1);
    }
  }

  lemma StoreApplied(m: Mmu, root: nat, v: nat, leaf: Leaf, other: nat)
    ensures m.Apply(Store(root, v, Some(leaf))).MapAt(root) == m.MapAt(root)[v := leaf]
    ensures other != root ==> m.Apply(Store(root, v, Some(leaf))).MapAt(other) == m.MapAt(other)
  {
  }

  lemma RunOne(m: Mmu, op: Op)
    ensures Run(m, [op]) == m.Apply(op)
  {
    assert [op][1..] == [];
  }

  lemma UnmapStores(m: Mmu, root: nat, v: nat, other: nat)
    ensures Run(m, UnmapOps(root, v)).MapAt(root) == m.MapAt(root) - {v}
    ensures other != root ==> Run(m, UnmapOps(root, v)).MapAt(other) == m.MapAt(other)
  {
    assert UnmapOps(root, v) == [Store(root, v, None)] + [TlbiIpa(v)];
    RunAppend(m, [Store(root, v, None)], [TlbiIpa(v)]);
    RunOne(m, Store(root, v, None));
    RunOne(m.Apply(Store(root, v, None)), TlbiIpa(v));
  }

  lemma LogGrows(log: seq<Op>, root: nat, v: nat, pa: nat, attrs: nat, n: nat)
    ensures Calls(log) ==> Calls(log + MapOps(root, v, pa, attrs, n))
  {
    hide Calls, IsCall;
    MapIsCall(root, v, pa, attrs, n);
    if Calls(log) {
      CallsAppend(log, MapOps(root, v, pa, attrs, n));
    }
  }

  class HvVm {
    var id: nat
    var vmid: nat
    var regions: seq<Region>
    const stage2: HvStage2

    constructor (pools: TablePools)
      ensures fresh(stage2) && stage2.pools == pools
    {
      stage2 := new HvStage2(pools);
    }

    /** The tables are a tree, the region table is accepted, and the tables map nothing the regions do not allow. */
    ghost predicate Valid()
      reads this, stage2, stage2.pools.descs
    {
      stage2.Valid() && TableOk(regions) && Within(regions, stage2.Map())
    }

    /** hv_vm_init */
    method Init(id: nat, vmid: nat) returns (res: Status)
      requires stage2.pools.Ok()
      modifies this, stage2, stage2.pools.descs
      ensures res == if id < stage2.pools.vms then OK else ErrInval
      ensures res != OK ==> unchanged(this) && unchanged(stage2) && unchanged(stage2.pools.descs)
      ensures res == OK ==> Valid() && this.id == id && this.vmid == vmid && regions == []
      ensures res == OK ==> stage2.Map() == map[] && stage2.poolUsed == 1 && stage2.OnlyOwnPool()
      ensures res == OK ==> stage2.base == id * (stage2.pools.pages * DESCS_PER_TABLE)
      ensures res == OK ==>
        stage2.pool == Pool(stage2.pools.pages, stage2.pools.pa + id * (stage2.pools.pages * PAGE_SIZE))
    {
      if id >= stage2.pools.vms {
        return ErrInval;
      }
      regions := [];
      this.id := id;
      this.vmid := vmid;
      res := stage2.Init(id);
    }

    /** hv_vm_add_region: accepted exactly if valid, not one too many, and sharing no address. */
    method AddRegion(r: Region) returns (res: VmStatus)
      requires TableOk(regions)
      modifies this`regions
      ensures TableOk(regions)
      ensures old(Valid()) ==> Valid()
      ensures regions == if res == VmOk then old(regions) + [r] else old(regions)
      ensures res == VmErrInval <==> !RegionValid(r)
      ensures res == VmErrFull <==> RegionValid(r) && |old(regions)| == MAX_VM_REGIONS
      ensures res == VmErrOverlap ==>
        RegionValid(r) && exists i, ipa :: 0 <= i < |old(regions)| && Contains(old(regions)[i], ipa) && Contains(r, ipa)
      ensures res == VmOk ==>
        forall i, ipa :: 0 <= i < |old(regions)| && Contains(old(regions)[i], ipa) ==> !Contains(r, ipa)
    {
      hide Aligned, Within, PageMap, IsTree;
      if !RegionValid(r) {
        return VmErrInval;
      }
      if |regions| >= MAX_VM_REGIONS {
        return VmErrFull;
      }
      for i := 0 to |regions|
        invariant regions == old(regions)
        invariant forall j :: 0 <= j < i ==> !Overlap(regions[j], r)
        invariant forall j, ipa :: 0 <= j < i && Contains(regions[j], ipa) ==> !Contains(r, ipa)
      {
        OverlapMeansShared(regions[i], r);
        if Overlap(regions[i], r) {
          return VmErrOverlap;
        }
      }
      if stage2.Valid() && Within(regions, stage2.Map()) {
        WithinMore(regions, r, stage2.Map());
      }
      regions := regions + [r];
      return VmOk;
    }

    /** hv_vm_find_region */
    method FindRegion(ipa: nat) returns (found: Option<nat>)
      ensures found == Find(regions, ipa)
    {
      for i := 0 to |regions|
        invariant Find(regions, ipa) == FindFrom(regions, i, ipa)
      {
        if Contains(regions[i], ipa) {
          return Some(i);
        }
      }
      return None;
    }

    /** One iteration of hv_stage2_map_region's loop. */
    method MapNext(ghost t0: seq<nat>, ghost used0: nat, ghost v: nat, ghost pa0: nat, ghost k: nat,
                   ipa: nat, pa: nat, attrs: nat, cpu: Cpu) returns (res: Status)
      requires stage2.Valid() && Sized(t0, stage2.pool) && v + k < PAGE_NUMBERS
      requires AfterRun(stage2.pool, t0, used0, stage2.Tables(), stage2.poolUsed, v, pa0, attrs, k)
      requires ipa == (v + k) * PAGE_SIZE && pa == pa0 + k * PAGE_SIZE < UINT32_LIMIT && pa % PAGE_SIZE == 0
      modifies stage2`poolUsed, stage2`tree, stage2.pools.descs, cpu`log
      ensures stage2.Valid() && stage2.OnlyOwnPool() && res in {OK, ErrMapped, ErrNoTables}
      ensures res == OK ==> AfterRun(stage2.pool, t0, used0, stage2.Tables(), stage2.poolUsed, v, pa0, attrs, k + 1)
      ensures res != OK ==> stage2.Map() == old(stage2.Map())
      ensures res == ErrMapped ==> v + k in PageMap(t0, stage2.pool)
      ensures res == ErrNoTables ==> stage2.poolUsed == stage2.pool.pages
      ensures res == ErrNoTables ==> used0 + TablesNeeded(t0, stage2.pool, v, k + 1) > stage2.pool.pages
      ensures cpu.log == old(cpu.log) +
        if res == OK then [Store(stage2.rootPa, v + k, Some(PageLeaf(pa, attrs)))] else []
    {
      hide IsTree, AfterRun, Opened, PageMap, TablesNeeded, Missing, PageLeaf;
      ghost var t1, used1 := stage2.Tables(), stage2.poolUsed;
      assert ipa / PAGE_SIZE == v + k;
      RunFailure(stage2.pool, t0, used0, t1, used1, v, pa0, attrs, k);
      res := stage2.MapPage(ipa, pa, attrs, cpu);
      if res == OK {
        RunSuccess(stage2.pool, t0, used0, t1, used1, stage2.Tables(), stage2.poolUsed, v, pa0, attrs, k);
      }
    }

    /** The loop of hv_stage2_map_region: as many of the pages as get mapped, in order. */
    method MapPages(ipa: nat, pa: nat, size: nat, attrs: nat, cpu: Cpu) returns (res: Status, ghost count: nat)
      requires stage2.Valid()
      requires ipa % PAGE_SIZE == 0 && pa % PAGE_SIZE == 0 && size % PAGE_SIZE == 0
      requires ipa + size <= UINT32_LIMIT && pa + size <= UINT32_LIMIT
      modifies stage2`poolUsed, stage2`tree, stage2.pools.descs, cpu`log
      ensures stage2.Valid() && stage2.OnlyOwnPool()
      ensures cpu.log == old(cpu.log) + StoreOps(stage2.rootPa, ipa / PAGE_SIZE, pa, attrs, count)
      ensures MapOutcome(old(stage2.Tables()), old(stage2.poolUsed), stage2.Tables(), stage2.poolUsed, stage2.pool,
                         ipa / PAGE_SIZE, pa, attrs, size / PAGE_SIZE, res, count)
    {
      hide TableOk, IsTree, AfterRun, PageMap, PageRun, TablesNeeded, PageLeaf;
      ghost var v, n, t0, used0 := ipa / PAGE_SIZE, size / PAGE_SIZE, stage2.Tables(), stage2.poolUsed;
      RunStart(stage2.pool, t0, used0, v, pa, attrs);
      var offset := 0;
      count := 0;
      while offset < size
        invariant offset == count * PAGE_SIZE <= size && count <= n
        invariant stage2.Valid() && stage2.OnlyOwnPool()
        invariant AfterRun(stage2.pool, t0, used0, stage2.Tables(), stage2.poolUsed, v, pa, attrs, count)
        invariant cpu.log == old(cpu.log) + StoreOps(stage2.rootPa, v, pa, attrs, count)
      {
        ghost var tables, used := stage2.Tables(), stage2.poolUsed;
        res := MapNext(t0, used0, v, pa, count, ipa + offset, pa + offset, attrs, cpu);
        if res != OK {
          NeededGrows(t0, stage2.pool, v, count + 1, n);
          RunResult(stage2.pool, t0, used0, tables, used, v, pa, attrs, count);
          return;
        }
        offset := offset + PAGE_SIZE;
        count := count + 1;
      }
      RunResult(stage2.pool, t0, used0, stage2.Tables(), stage2.poolUsed, v, pa, attrs, count);
      res := OK;
    }

    /** The checks of hv_stage2_map_region. */
    method CheckMapArgs(ipa: nat, pa: nat, size: nat) returns (res: Status)
      requires TableOk(regions)
      ensures res == MapCheck(regions, ipa, pa, size)
    {
      hide RegionValid;
      if !(Aligned(ipa) && Aligned(pa) && Aligned(size) && size != 0) {
        return ErrInval;
      }
      if ipa + size - 1 >= UINT64_LIMIT || pa + size - 1 >= UINT64_LIMIT {
        return ErrInval;
      }
      if !Fits32(ipa + size - 1) || !Fits32(pa + size - 1) {
        return ErrRange;
      }
      var found := FindRegion(ipa);
      if found.None? || !ContainsMapping(regions[found.value], ipa, pa, size) {
        forall i | 0 <= i < |regions| && Contains(regions[i], ipa)
          ensures !ContainsMapping(regions[i], ipa, pa, size)
        {
          OneRegion(regions, i, found.value, ipa);
        }
        return ErrRange;
      }
      return OK;
    }

    /** hv_stage2_map_region: checks, the loop, and a TLB flush on every way out of the loop. */
    method MapRegion(ipa: nat, pa: nat, size: nat, attrs: nat, cpu: Cpu) returns (res: Status, ghost count: nat)
      requires Valid()
      modifies stage2`poolUsed, stage2`tree, stage2.pools.descs, cpu`log
      ensures Valid() && stage2.OnlyOwnPool()
      ensures MapCheck(regions, ipa, pa, size) != OK ==>
        res == MapCheck(regions, ipa, pa, size) && unchanged(stage2) && unchanged(stage2.pools.descs) && unchanged(cpu)
      ensures MapCheck(regions, ipa, pa, size) == OK ==>
        cpu.log == old(cpu.log) + MapOps(stage2.rootPa, ipa / PAGE_SIZE, pa, attrs, count) &&
        MapOutcome(old(stage2.Tables()), old(stage2.poolUsed), stage2.Tables(), stage2.poolUsed, stage2.pool,
                   ipa / PAGE_SIZE, pa, attrs, size / PAGE_SIZE, res, count)
    {
      hide TableOk, MapArgsInRange, TablesNeeded, IsTree, PageMap, Within, MapCheck;
      ghost var m := stage2.Map();
      res := CheckMapArgs(ipa, pa, size);
      if res != OK {
        return res, 0;
      }
      MapArgsFit(regions, ipa, pa, size);
      res, count := MapPages(ipa, pa, size, attrs, cpu);
      WithinRun(regions, m, ipa, pa, size, attrs, count);
      cpu.InvalidateAll();
    }

    /** hv_stage2_unmap_page: exactly one page leaves the map, and no table comes or goes. */
    method UnmapPage(ipa: nat, cpu: Cpu) returns (res: Status)
      requires Valid()
      modifies stage2.pools.descs, cpu`log
      ensures Valid() && stage2.OnlyOwnPool()
      ensures res ==
        if !Aligned(ipa) then ErrInval
        else if !exists i :: 0 <= i < |regions| && Contains(regions[i], ipa) then ErrRange
        else OK
      ensures res != OK ==> unchanged(stage2.pools.descs) && unchanged(cpu)
      ensures res == OK ==> ipa < UINT32_LIMIT && stage2.Map() == old(stage2.Map()) - {ipa / PAGE_SIZE}
      ensures res == OK ==> SameTables(old(stage2.Tables()), stage2.Tables(), stage2.pool)
      ensures res == OK ==>
        var found := old(Walk(stage2.Tables(), stage2.pool, ipa / PAGE_SIZE)).Some?;
        cpu.log == old(cpu.log) +
          if found then UnmapOps(stage2.rootPa, ipa / PAGE_SIZE) else [TlbiIpa(ipa / PAGE_SIZE)]
    {
      hide IsTree, RegionValid, PageMap, Walk, Aligned;
      if !Aligned(ipa) {
        return ErrInval;
      }
      var found := FindRegion(ipa);
      if found.None? {
        return ErrRange;
      }
      var r := regions[found.value];
      ValidRegion(r);
      AlignedIsMultiple(ipa);
      LastPage(r, ipa);
      if ipa < r.ipaBase || ipa - r.ipaBase > r.size - PAGE_SIZE {
        return ErrRange;
      }
      ghost var t := stage2.Tables();
      var slot := stage2.WalkL3(ipa);
      if slot.Some? {
        stage2.ClearPage(slot.value, ipa / PAGE_SIZE, cpu);
      } else {
        UnwalkedIsUnmapped(t, stage2.pool, ipa / PAGE_SIZE);
      }
      cpu.InvalidateIpa(ipa);
      return OK;
    }

    /** How many tables the policy still needs. */
    ghost function TablesLacking(): nat
      requires Valid()
      reads this, stage2, stage2.pools.descs
    {
      |PolicyLacking(stage2.Tables(), stage2.pool, regions, |regions|)|
    }

    /** hv_vm_build_stage2: the tables come to hold what the policy asks for, or a prefix of it. */
    method BuildStage2(cpu: Cpu) returns (res: Status, ghost n: nat, ghost count: nat)
      requires Valid()
      modifies stage2`poolUsed, stage2`tree, stage2.pools.descs, cpu`log
      ensures Valid() && stage2.OnlyOwnPool()
      ensures BuildOutcome(regions, old(stage2.Map()), old(stage2.poolUsed), old(TablesLacking()), stage2.Map(),
                           stage2.poolUsed, stage2.pool.pages, res, n, count)
      ensures Calls(old(cpu.log)) ==> Calls(cpu.log)
    {
      hide TableOk, IsTree, PageMap, RegionValid, Built, BuildOutcome, MapOutcome, MapCheck, MapOps, IsCall, Calls;
      ghost var t0, used0 := stage2.Tables(), stage2.poolUsed;
      n, count := 0, 0;
      BuildStart(regions, t0, used0, stage2.pool);
      for i := 0 to |regions|
        invariant Valid() && stage2.OnlyOwnPool() && n == i
        invariant Calls(old(cpu.log)) ==> Calls(cpu.log)
        invariant Built(regions, t0, used0, stage2.Tables(), stage2.poolUsed, stage2.pool, i)
      {
        var region := regions[i];
        ghost var t, used := stage2.Tables(), stage2.poolUsed;
        if !region.kind.Ram? {
          BuildSkip(regions, t0, used0, t, used, stage2.pool, i);
        } else {
          RegionPassesChecks(regions, i);
          ghost var log := cpu.log;
          res, count := MapRegion(region.ipaBase, region.paBase, region.size, region.attrs, cpu);
          LogGrows(log, stage2.rootPa, region.ipaBase / PAGE_SIZE, region.paBase, region.attrs, count);
          if res != OK {
            BuildFail(regions, t0, used0, t, used, stage2.Tables(), stage2.poolUsed, stage2.pool, i, res, count);
            return;
          }
          BuildMore(regions, t0, used0, t, used, stage2.Tables(), stage2.poolUsed, stage2.pool, i, count);
        }
        n := n + 1;
      }
      BuildEnd(regions, t0, used0, stage2.Tables(), stage2.poolUsed, stage2.pool, count);
      res := OK;
    }
  }

  /** Map a page, unmap it, map it again: the middle state translates as the first did, and the second
      mapping cannot fail. */
  method MapUnmapMap(vm: HvVm, ipa: nat, pa: nat, attrs: nat, cpu: Cpu)
    returns (mapped: bool, ghost before: map<nat, Leaf>, ghost between: map<nat, Leaf>)
    requires vm.Valid() && MapCheck(vm.regions, ipa, pa, PAGE_SIZE) == OK
    modifies vm.stage2`poolUsed, vm.stage2`tree, vm.stage2.pools.descs, cpu`log
    ensures vm.Valid() && before == old(vm.stage2.Map())
    ensures mapped ==> between == before && vm.stage2.Map() == before[ipa / PAGE_SIZE := PageLeaf(pa, attrs)]
  {
    hide IsTree, PageMap, TableOk, MapOps, Walk, PageLeaf;
    before := vm.stage2.Map();
    between := before;
    var n := PAGE_SIZE / PAGE_SIZE;
    ghost var v, t0 := ipa / PAGE_SIZE, vm.stage2.Tables();
    var res, count := vm.MapRegion(ipa, pa, PAGE_SIZE, attrs, cpu);
    if res != OK {
      return false, before, between;
    }
    ghost var t1 := vm.stage2.Tables();
    OnePage(before, v, pa, attrs);
    MapArgsArithmetic(ipa, pa, PAGE_SIZE);
    MappedHasTables(t1, vm.stage2.pool, v);
    var unmapped := vm.UnmapPage(ipa, cpu);
    ghost var t2, used := vm.stage2.Tables(), vm.stage2.poolUsed;
    between := vm.stage2.Map();
    assert between == before;
    StillHasTables(t1, t2, vm.stage2.pool, v);
    Root(t2, vm.stage2.pool, vm.stage2.tree);
    res, count := vm.MapRegion(ipa, pa, PAGE_SIZE, attrs, cpu);
    RunFitsIff(t2, used, vm.stage2.Tables(), vm.stage2.poolUsed, vm.stage2.pool, v, pa, attrs, 1, res, count);
    assert res == OK;
    mapped := true;
  }

  lemma OnePage(m: map<nat, Leaf>, v: nat, pa: nat, attrs: nat)
    ensures m + PageRun(v, pa, attrs, 1) == m[v := PageLeaf(pa, attrs)]
    ensures v !in m ==> (m[v := PageLeaf(pa, attrs)]) - {v} == m
  {
    hide PageLeaf;
  }

  lemma StillHasTables(t: seq<nat>, t': seq<nat>, pool: Pool, v: nat)
    requires Sized(t, pool) && Sized(t', pool) && v < PAGE_NUMBERS && SameTables(t, t', pool)
    requires Missing(t, pool, v) == 0
    ensures TablesNeeded(t', pool, v, 1) == 0
  {
    assert TablesNeeded(t', pool, v, 0) == 0;
    assert L2Table(t', pool, v).Some? && L3Table(t', pool, v).Some?;
  }
}
