/** vm.c, the policy half: which regions a VM may have, and what they say about an address. */
module Regions {
  import opened Wrappers
  import opened Bits
  import opened Descriptors

  const MAX_VM_REGIONS := 8

  datatype RegionType = Ram | RamGuard | Mmio
  datatype MmioDevice = NoDevice | Vuart
  datatype Region = Region(ipaBase: nat, size: nat, paBase: nat, attrs: nat, kind: RegionType, device: MmioDevice)

  /** hv_vm_fits_v1_32bit */
  predicate FitsV1(base: nat, size: nat) {
    if base > 0xffff_ffff || size > UINT32_LIMIT then false else base <= UINT32_LIMIT - size
  }

  /** hv_vm_region_valid */
  predicate RegionValid(r: Region) {
    if r.size == 0 || !Aligned(r.ipaBase) || !Aligned(r.size) then false
    else if !FitsV1(r.ipaBase, r.size) then false
    else if r.kind.Ram? && (!Aligned(r.paBase) || !FitsV1(r.paBase, r.size)) then false
    else if r.kind.Mmio? then r.device != NoDevice
    else r.kind.Ram? || r.kind.RamGuard?
  }

  /** hv_vm_region_contains */
  predicate Contains(r: Region, ipa: nat) {
    ipa >= r.ipaBase && ipa - r.ipaBase < r.size
  }

  /** hv_vm_regions_overlap */
  predicate Overlap(a: Region, b: Region) {
    a.ipaBase < b.ipaBase + b.size && b.ipaBase < a.ipaBase + a.size
  }

  /** stage2_region_contains_mapping */
  predicate ContainsMapping(r: Region, ipa: nat, pa: nat, size: nat) {
    if !r.kind.Ram? || size == 0 || ipa < r.ipaBase || size > r.size || ipa - r.ipaBase > r.size - size then false
    else pa == r.paBase + (ipa - r.ipaBase)
  }

  /** A region table the hypervisor accepts: valid regions, no two of which overlap. */
  ghost predicate TableOk(rs: seq<Region>) {
    |rs| <= MAX_VM_REGIONS &&
    (forall i :: 0 <= i < |rs| ==> RegionValid(rs[i])) &&
    (forall i, j :: 0 <= i < j < |rs| ==> !Overlap(rs[i], rs[j]))
  }

  /** hv_vm_find_region's scan from region i on. */
  function FindFrom(rs: seq<Region>, i: nat, ipa: nat): (found: Option<nat>)
    requires i <= |rs|
    ensures found.Some? ==> i <= found.value < |rs| && Contains(rs[found.value], ipa)
    ensures found.None? ==> forall j :: i <= j < |rs| ==> !Contains(rs[j], ipa)
    decreases |rs| - i
  {
    if i == |rs| then None else if Contains(rs[i], ipa) then Some(i) else FindFrom(rs, i + 1, ipa)
  }

  function Find(rs: seq<Region>, ipa: nat): (found: Option<nat>)
    ensures found.Some? ==> found.value < |rs| && Contains(rs[found.value], ipa)
    ensures found.None? ==> forall j :: 0 <= j < |rs| ==> !Contains(rs[j], ipa)
  {
    FindFrom(rs, 0, ipa)
  }

  /** The page offset of an address never decides which region it is in. */
  lemma FindByPage(rs: seq<Region>, ipa: nat)
    requires TableOk(rs)
    ensures Find(rs, ipa) == Find(rs, ipa - ipa % PAGE_SIZE)
  {
    hide RegionValid, Overlap, Contains;
    forall i | 0 <= i < |rs|
      ensures Contains(rs[i], ipa) <==> Contains(rs[i], ipa - ipa % PAGE_SIZE)
    {
      RegionByPage(rs[i], ipa);
    }
    var a, b := Find(rs, ipa), Find(rs, ipa - ipa % PAGE_SIZE);
    if a.Some? && b.Some? {
      OneRegion(rs, a.value, b.value, ipa);
    }
  }

  /** Overlap is exactly sharing an address. */
  lemma OverlapMeansShared(a: Region, b: Region)
    requires a.size > 0 && b.size > 0
    ensures Overlap(a, b) <==> exists ipa :: Contains(a, ipa) && Contains(b, ipa)
    ensures forall ipa: nat :: Contains(a, ipa) <==> a.ipaBase <= ipa < a.ipaBase + a.size
  {
    if Overlap(a, b) {
      var ipa := if a.ipaBase < b.ipaBase then b.ipaBase else a.ipaBase;
      assert Contains(a, ipa) && Contains(b, ipa);
    }
  }

  /** An address is in at most one region of an accepted table. */
  lemma OneRegion(rs: seq<Region>, i: nat, j: nat, ipa: nat)
    requires TableOk(rs) && i < |rs| && j < |rs| && Contains(rs[i], ipa) && Contains(rs[j], ipa)
    ensures i == j
  {
    if i != j {
      assert Overlap(rs[i], rs[j]) && Overlap(rs[j], rs[i]);
    }
  }

  /** Which regions are valid, in arithmetic: whole pages that end by 4 GB, for RAM in physical memory too, and with a
      device if they are for one. */
  lemma RegionValidIff(r: Region)
    ensures RegionValid(r) <==>
      r.size > 0 && r.size % 0x1000 == 0 && r.ipaBase % 0x1000 == 0 && r.ipaBase + r.size <= 0x1_0000_0000 &&
      (r.kind.Ram? ==> r.paBase % 0x1000 == 0 && r.paBase + r.size <= 0x1_0000_0000) &&
      (r.kind.Mmio? ==> r.device != NoDevice)
  {
    hide Aligned;
    AlignedIsMultiple(r.ipaBase);
    AlignedIsMultiple(r.size);
    AlignedIsMultiple(r.paBase);
  }

  /** What a valid region looks like in arithmetic. */
  lemma ValidRegion(r: Region)
    requires RegionValid(r)
    ensures r.size > 0 && r.size % PAGE_SIZE == 0 && r.ipaBase % PAGE_SIZE == 0 && r.ipaBase + r.size <= UINT32_LIMIT
    ensures r.kind.Ram? ==> r.paBase % PAGE_SIZE == 0 && r.paBase + r.size <= UINT32_LIMIT
  {
    hide RegionValid;
    RegionValidIff(r);
  }

  /** Regions are whole pages, so the page offset never decides which region an address is in. */
  lemma RegionByPage(r: Region, ipa: nat)
    requires RegionValid(r)
    ensures Contains(r, ipa) <==> Contains(r, ipa - ipa % PAGE_SIZE)
  {
    ValidRegion(r);
    var first, pages := r.ipaBase / PAGE_SIZE, r.size / PAGE_SIZE;
    assert r.ipaBase == first * PAGE_SIZE && r.size == pages * PAGE_SIZE;
    assert Contains(r, ipa) <==> first <= ipa / PAGE_SIZE < first + pages;
  }

  function PageAt(v: nat, pa: nat, attrs: nat, w: nat): Leaf
    requires v <= w
  {
    PageLeaf(pa + (w - v) * PAGE_SIZE, attrs)
  }

  /** n consecutive pages mapped to n consecutive physical pages, all with the same attributes. */
  ghost function PageRun(v: nat, pa: nat, attrs: nat, n: nat): map<nat, Leaf> {
    map w | v <= w < v + n :: PageAt(v, pa, attrs, w)
  }

  lemma NoRun(m: map<nat, Leaf>, v: nat, pa: nat, attrs: nat)
    ensures m + PageRun(v, pa, attrs, 0) == m
  {
  }

  lemma PageRunGrows(m: map<nat, Leaf>, v: nat, pa: nat, attrs: nat, k: nat)
    ensures (m + PageRun(v, pa, attrs, k))[v + k := PageLeaf(pa + k * PAGE_SIZE, attrs)] ==
            m + PageRun(v, pa, attrs, k + 1)
  {
    hide PageLeaf;
  }

  /** The pages one region puts in the guest's map: all of a RAM region, none of a guard or device. */
  ghost function RegionPages(r: Region): (m: map<nat, Leaf>) {
    if r.kind.Ram? then PageRun(r.ipaBase / PAGE_SIZE, r.paBase, r.attrs, r.size / PAGE_SIZE) else map[]
  }

  /** The map the first n regions ask for. */
  ghost function PolicyMap(rs: seq<Region>, n: nat): map<nat, Leaf>
    requires n <= |rs|
  {
    if n == 0 then map[] else PolicyMap(rs, n - 1) + RegionPages(rs[n - 1])
  }

  /** l maps the page of ipa to where region r has it, with the region's attributes. */
  ghost predicate LeafServes(l: Leaf, r: Region, ipa: nat) {
    l.pa + ipa % PAGE_SIZE == r.paBase + (ipa - r.ipaBase) && l.attrs == Or(DescAttrs(r.attrs), 3)
  }

  lemma RegionPagesAt(r: Region, ipa: nat)
    requires RegionValid(r)
    ensures ipa / PAGE_SIZE in RegionPages(r) <==> r.kind.Ram? && Contains(r, ipa)
    ensures ipa / PAGE_SIZE in RegionPages(r) ==> LeafServes(RegionPages(r)[ipa / PAGE_SIZE], r, ipa)
  {
    hide Or, DescAttrs;
    ValidRegion(r);
    var first, pages := r.ipaBase / PAGE_SIZE, r.size / PAGE_SIZE;
    assert r.ipaBase == first * PAGE_SIZE && r.size == pages * PAGE_SIZE;
    assert Contains(r, ipa) <==> first <= ipa / PAGE_SIZE < first + pages;
  }

  /** The policy, address by address: an IPA is mapped exactly if a RAM region contains it, and then to
      that region's physical address at the same offset, with that region's attributes. */
  lemma {:induction false} PolicyMapAt(rs: seq<Region>, n: nat, ipa: nat)
    requires TableOk(rs) && n <= |rs|
    ensures ipa / PAGE_SIZE in PolicyMap(rs, n) <==> exists i :: 0 <= i < n && rs[i].kind.Ram? && Contains(rs[i], ipa)
    ensures forall i :: 0 <= i < n && rs[i].kind.Ram? && Contains(rs[i], ipa) ==>
      LeafServes(PolicyMap(rs, n)[ipa / PAGE_SIZE], rs[i], ipa)
    decreases n
  {
    hide LeafServes;
    if n > 0 {
      PolicyMapAt(rs, n - 1, ipa);
      RegionPagesAt(rs[n - 1], ipa);
      forall i | 0 <= i < n && rs[i].kind.Ram? && Contains(rs[i], ipa)
        ensures LeafServes(PolicyMap(rs, n)[ipa / PAGE_SIZE], rs[i], ipa)
      {
        if Contains(rs[n - 1], ipa) {
          OneRegion(rs, i, n - 1, ipa);
        }
      }
    }
  }

  /** Region n brings only pages that no earlier region has. */
  lemma PolicyDisjoint(rs: seq<Region>, n: nat, v: nat)
    requires TableOk(rs) && n < |rs| && v in RegionPages(rs[n])
    ensures v !in PolicyMap(rs, n)
  {
    var ipa := v * PAGE_SIZE;
    RegionPagesAt(rs[n], ipa);
    PolicyMapAt(rs, n, ipa);
  }
}
