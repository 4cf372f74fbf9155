/** When a stage-2 TLB agrees with the tables.

    The hypervisor's page-table stores, TLB maintenance and MMU register writes are one stream of
    operations. Between any two of them the hardware may cache any translation of the tables VTTBR
    names, provided HCR.VM is set. */
module Tlb {
  import opened Bits
  import opened Descriptors
  import opened Wrappers

  const HCR_VM := 0x1
  const VTTBR_VMID_SHIFT := 48
  const VTTBR_VMID_MASK := 0xff

  datatype Op =
    | Store(root: nat, v: nat, leaf: Option<Leaf>)  // the page descriptor of v in the tables at root
    | TlbiAll  // hyp_invalidate_stage2_tlb_all
    | TlbiIpa(v: nat)  // hyp_invalidate_stage2_tlb_ipa, for the current VMID
    | WriteVttbr(vttbr: nat)
    | SetHcr(bit: nat)
    | ClearHcr(bit: nat)
    | Fill(v: nat)  // the hardware caches what v translates to now, if anything

  datatype Entry = Entry(vmid: nat, v: nat, leaf: Leaf)

  /** What each root table translates, the MMU registers, and the TLB. */
  datatype Mmu = Mmu(maps: map<nat, map<nat, Leaf>>, vttbr: nat, enabled: bool, tlb: set<Entry>)
  {
    function Vmid(): nat {
      Shr(vttbr, VTTBR_VMID_SHIFT)
    }

    function Root(): nat {
      And(vttbr, ADDR_MASK)
    }

    function MapAt(root: nat): map<nat, Leaf> {
      if root in maps then maps[root] else map[]
    }

    function Active(): map<nat, Leaf> {
      MapAt(Root())
    }

    /** Every cached entry the guest can hit agrees with the active tables. */
    ghost predicate Coherent() {
      enabled ==> forall e :: e in tlb && e.vmid == Vmid() ==> e.v in Active() && Active()[e.v] == e.leaf
    }

    function Stored(root: nat, v: nat, leaf: Option<Leaf>): Mmu {
      this.(maps := maps[root := if leaf.Some? then MapAt(root)[v := leaf.value] else MapAt(root) - {v}])
    }

    function Apply(op: Op): Mmu {
      match op
      case Store(root, v, leaf) => Stored(root, v, leaf)
      case TlbiAll => this.(tlb := {})
      case TlbiIpa(v) => this.(tlb := set e | e in tlb && !(e.vmid == Vmid() && e.v == v))
      case WriteVttbr(value) => this.(vttbr := value)
      case SetHcr(bit) => if bit == HCR_VM then this.(enabled := true) else this
      case ClearHcr(bit) => if bit == HCR_VM then this.(enabled := false) else this
      case Fill(v) =>
        if enabled && v in Active() then this.(tlb := tlb + {Entry(Vmid(), v, Active()[v])}) else this
    }
  }

  function Run(m: Mmu, ops: seq<Op>): Mmu
    decreases |ops|
  {
    if ops == [] then m else Run(m.Apply(ops[0]), ops[1..])
  }

  /** The hypervisor's own operations in a stream. */
  function WithoutFills(ops: seq<Op>): seq<Op> {
    if ops == [] then []
    else if ops[0].Fill? then WithoutFills(ops[1..])
    else [ops[0]] + WithoutFills(ops[1..])
  }

  // ----- The operation sequences of the code -----

  /** hv_stage2_unmap_page, when the walk finds an entry. */
  function UnmapOps(root: nat, v: nat): seq<Op> {
    [Store(root, v, None), TlbiIpa(v)]
  }

  /** hv_stage2_map_region, for the pages it got through. */
  function MapOps(root: nat, v: nat, pa: nat, attrs: nat, n: nat): seq<Op> {
    StoreOps(root, v, pa, attrs, n) + [TlbiAll]
  }

  function StoreOps(root: nat, v: nat, pa: nat, attrs: nat, n: nat): seq<Op> {
    if n == 0 then []
    else
      StoreOps(root, v, pa, attrs, n - 1) +
      [Store(root, v + (n - 1), Some(PageLeaf(pa + (n - 1) * PAGE_SIZE, attrs)))]
  }

  /** hv_mmu_activate_vcpu */
  function ActivateOps(vttbr: nat): seq<Op> {
    [WriteVttbr(vttbr), TlbiAll, SetHcr(HCR_VM)]
  }

  /** hv_mmu_deactivate_stage2 */
  function DeactivateOps(): seq<Op> {
    [ClearHcr(HCR_VM), TlbiAll]
  }

  /** A change of an HCR flag other than VM. */
  predicate OtherFlag(op: Op) {
    (op.SetHcr? || op.ClearHcr?) && op.bit != HCR_VM
  }

  /** One whole call of the hypervisor that touches the tables or the MMU. Mapping a region and
      deactivating stage 2 are the calls that end in a flush; an unmap that finds no table only
      invalidates. */
  predicate IsCall(ops: seq<Op>) {
    || (|ops| >= 1 && ops[|ops| - 1] == TlbiAll)
    || (|ops| == 2 && ops[0].Store? && ops == UnmapOps(ops[0].root, ops[0].v))
    || (|ops| == 1 && (ops[0].TlbiIpa? || OtherFlag(ops[0])))
    || (|ops| == 3 && ops[0].WriteVttbr? && ops == ActivateOps(ops[0].vttbr))
  }

  // ----- Coherence -----

  /** The first operation of a stream that does not start with a fill. */
  lemma Head(ops: seq<Op>)
    requires ops != [] && !ops[0].Fill?
    ensures WithoutFills(ops) != [] && ops[0] == WithoutFills(ops)[0]
    ensures WithoutFills(ops[1..]) == WithoutFills(ops)[1..]
  {
  }

  lemma FillKeepsCoherent(m: Mmu, v: nat)
    requires m.Coherent()
    ensures m.Apply(Fill(v)).Coherent()
  {
  }

  /** Once the TLB is coherent, caching more of the current tables keeps it so. */
  lemma {:induction false} FillsKeepCoherent(m: Mmu, ops: seq<Op>)
    requires m.Coherent() && WithoutFills(ops) == []
    ensures Run(m, ops).Coherent()
    decreases |ops|
  {
    if ops != [] {
      FillKeepsCoherent(m, ops[0].v);
      FillsKeepCoherent(m.Apply(ops[0]), ops[1..]);
    }
  }

  /** A flush makes any TLB coherent, whatever was done before it. */
  lemma {:induction false} FlushedAtEnd(m: Mmu, ops: seq<Op>)
    requires var own := WithoutFills(ops); own != [] && own[|own| - 1] == TlbiAll
    ensures Run(m, ops).Coherent()
    decreases |ops|
  {
    var own, rest := WithoutFills(ops), WithoutFills(ops[1..]);
    if ops[0].Fill? {
      FlushedAtEnd(m.Apply(ops[0]), ops[1..]);
    } else if rest == [] {
      FillsKeepCoherent(m.Apply(ops[0]), ops[1..]);
    } else {
      assert rest[|rest| - 1] == own[|own| - 1];
      FlushedAtEnd(m.Apply(ops[0]), ops[1..]);
    }
  }

  /** Coherent except that v may still be cached after its descriptor was cleared. */
  ghost predicate CoherentBut(m: Mmu, v: nat) {
    m.enabled ==> forall e :: e in m.tlb && e.vmid == m.Vmid() && e.v != v ==>
      e.v in m.Active() && m.Active()[e.v] == e.leaf
  }

  /** Invalidating one page is enough after clearing that page. */
  lemma {:induction false} InvalidatedPage(m: Mmu, ops: seq<Op>, v: nat)
    requires CoherentBut(m, v) && WithoutFills(ops) == [TlbiIpa(v)]
    ensures Run(m, ops).Coherent()
    decreases |ops|
  {
    if ops[0].Fill? {
      InvalidatedPage(m.Apply(ops[0]), ops[1..], v);
    } else {
      Head(ops);
      FillsKeepCoherent(m.Apply(ops[0]), ops[1..]);
    }
  }

  lemma {:induction false} UnmapKeepsCoherent(m: Mmu, ops: seq<Op>, root: nat, v: nat)
    requires m.Coherent() && WithoutFills(ops) == UnmapOps(root, v)
    ensures Run(m, ops).Coherent()
    decreases |ops|
  {
    if ops[0].Fill? {
      FillKeepsCoherent(m, ops[0].v);
      UnmapKeepsCoherent(m.Apply(ops[0]), ops[1..], root, v);
    } else {
      Head(ops);
      assert WithoutFills(ops[1..]) == [TlbiIpa(v)];
      InvalidatedPage(m.Apply(ops[0]), ops[1..], v);
    }
  }

  lemma {:induction false} EnabledAtEnd(m: Mmu, ops: seq<Op>)
    requires (m.enabled ==> m.Coherent()) && WithoutFills(ops) == [SetHcr(HCR_VM)] && m.(enabled := true).Coherent()
    ensures Run(m, ops).Coherent()
    decreases |ops|
  {
    if ops[0].Fill? {
      EnabledAtEnd(m.Apply(ops[0]), ops[1..]);
    } else {
      Head(ops);
      FillsKeepCoherent(m.Apply(ops[0]), ops[1..]);
    }
  }

  lemma {:induction false} FlushThenEnable(m: Mmu, ops: seq<Op>)
    requires WithoutFills(ops) == [TlbiAll, SetHcr(HCR_VM)]
    ensures Run(m, ops).Coherent()
    decreases |ops|
  {
    if ops[0].Fill? {
      FlushThenEnable(m.Apply(ops[0]), ops[1..]);
    } else {
      Head(ops);
      assert WithoutFills(ops[1..]) == [TlbiAll, SetHcr(HCR_VM)][1..] == [SetHcr(HCR_VM)];
      EnabledAtEnd(m.Apply(ops[0]), ops[1..]);
    }
  }

  /** Switching to another VM needs no coherence beforehand: the flush before HCR.VM gives it. */
  lemma {:induction false} ActivateMakesCoherent(m: Mmu, ops: seq<Op>, vttbr: nat)
    requires WithoutFills(ops) == ActivateOps(vttbr)
    ensures Run(m, ops).Coherent()
    decreases |ops|
  {
    if ops[0].Fill? {
      ActivateMakesCoherent(m.Apply(ops[0]), ops[1..], vttbr);
    } else {
      Head(ops);
      assert WithoutFills(ops[1..]) == [TlbiAll, SetHcr(HCR_VM)];
      FlushThenEnable(m.Apply(ops[0]), ops[1..]);
    }
  }

  /** A lone invalidation (an unmap whose walk found no table) keeps coherence. */
  lemma {:induction false} LoneInvalidation(m: Mmu, ops: seq<Op>, v: nat)
    requires m.Coherent() && WithoutFills(ops) == [TlbiIpa(v)]
    ensures Run(m, ops).Coherent()
  {
    InvalidatedPage(m, ops, v);
  }

  lemma {:induction false} FlagKeepsCoherent(m: Mmu, ops: seq<Op>)
    requires m.Coherent() && |WithoutFills(ops)| == 1 && OtherFlag(WithoutFills(ops)[0])
    ensures Run(m, ops).Coherent()
    decreases |ops|
  {
    if ops[0].Fill? {
      FillKeepsCoherent(m, ops[0].v);
      FlagKeepsCoherent(m.Apply(ops[0]), ops[1..]);
    } else {
      Head(ops);
      FillsKeepCoherent(m.Apply(ops[0]), ops[1..]);
    }
  }

  lemma CallKeepsCoherent(m: Mmu, ops: seq<Op>)
    requires m.Coherent() && IsCall(WithoutFills(ops))
    ensures Run(m, ops).Coherent()
  {
    var own := WithoutFills(ops);
    if own[|own| - 1] == TlbiAll {
      FlushedAtEnd(m, ops);
    } else if |own| == 2 {
      UnmapKeepsCoherent(m, ops, own[0].root, own[0].v);
    } else if |own| == 1 && own[0].TlbiIpa? {
      LoneInvalidation(m, ops, own[0].v);
    } else if |own| == 1 {
      FlagKeepsCoherent(m, ops);
    } else {
      ActivateMakesCoherent(m, ops, own[0].vttbr);
    }
  }

  /** A log made of whole calls. */
  ghost predicate Calls(log: seq<Op>)
    decreases |log|
  {
    log == [] || exists k :: 0 < k <= |log| && IsCall(log[..k]) && Calls(log[k..])
  }

  lemma {:induction false} CallsAppend(log: seq<Op>, call: seq<Op>)
    requires Calls(log) && IsCall(call)
    ensures Calls(log + call)
    decreases |log|
  {
    hide IsCall;
    if log == [] {
      assert (log + call)[..|call|] == call && (log + call)[|call|..] == [];
      CallNotEmpty(call);
    } else {
      var k :| 0 < k <= |log| && IsCall(log[..k]) && Calls(log[k..]);
      CallsAppend(log[k..], call);
      assert (log + call)[..k] == log[..k] && (log + call)[k..] == log[k..] + call;
    }
  }

  lemma CallNotEmpty(call: seq<Op>)
    requires IsCall(call)
    ensures |call| > 0
  {
  }

  lemma {:induction false} RunAppend(m: Mmu, a: seq<Op>, b: seq<Op>)
    ensures Run(m, a + b) == Run(Run(m, a), b)
    decreases |a|
  {
    hide Mmu.Apply;
    if a == [] {
      assert a + b == b;
    } else {
      assert (a + b)[1..] == a[1..] + b;
      RunAppend(m.Apply(a[0]), a[1..], b);
    }
  }

  /** Where in a stream the hypervisor has done its first k operations. */
  lemma {:induction false} SplitOwn(ops: seq<Op>, k: nat) returns (j: nat)
    requires k <= |WithoutFills(ops)|
    ensures j <= |ops| && WithoutFills(ops[..j]) == WithoutFills(ops)[..k]
    ensures WithoutFills(ops[j..]) == WithoutFills(ops)[k..]
    decreases |ops|
  {
    if k == 0 {
      j := 0;
      assert ops[..0] == [] && ops[0..] == ops;
    } else {
      var i := SplitOwn(ops[1..], if ops[0].Fill? then k else k - 1);
      j := i + 1;
      assert ops[..j][1..] == ops[1..][..i] && ops[j..] == ops[1..][i..];
    }
  }

  /** TLB coherence over whole runs: at the end of every map, unmap and vCPU switch, whatever the hardware
      cached in between, every entry the guest can hit agrees with the active tables. */
  lemma {:induction false} AlwaysCoherent(m: Mmu, ops: seq<Op>)
    requires m.Coherent() && Calls(WithoutFills(ops))
    ensures Run(m, ops).Coherent()
    decreases |WithoutFills(ops)|
  {
    hide IsCall, Mmu.Coherent, WithoutFills;
    var own := WithoutFills(ops);
    if own == [] {
      FillsKeepCoherent(m, ops);
    } else {
      var k :| 0 < k <= |own| && IsCall(own[..k]) && Calls(own[k..]);
      var j := SplitOwn(ops, k);
      CallKeepsCoherent(m, ops[..j]);
      AlwaysCoherent(Run(m, ops[..j]), ops[j..]);
      RunAppend(m, ops[..j], ops[j..]);
      assert ops == ops[..j] + ops[j..];
    }
  }

  /** VMID tags alone would not do: a page unmapped in an inactive VM is still cached when that VM is
      switched back in, unless the switch flushes. */
  lemma SwitchWithoutFlushIsStale(m: Mmu, other: nat, root: nat, v: nat, leaf: Leaf)
    requires m.enabled && m.Coherent() && And(other, ADDR_MASK) == root != m.Root()
    requires Shr(other, VTTBR_VMID_SHIFT) != m.Vmid() && Entry(Shr(other, VTTBR_VMID_SHIFT), v, leaf) in m.tlb
    ensures !Run(m, UnmapOps(root, v) + [WriteVttbr(other), SetHcr(HCR_VM)]).Coherent()
  {
    hide And, Shr;
    var ops := UnmapOps(root, v) + [WriteVttbr(other), SetHcr(HCR_VM)];
    var m1 := m.Apply(ops[0]);
    var m2 := m1.Apply(ops[1]);
    var m3 := m2.Apply(ops[2]);
    var m4 := m3.Apply(ops[3]);
    assert Run(m, ops) == Run(m1, ops[1..]);
    assert ops[1..][1..] == ops[2..] && ops[2..][1..] == ops[3..] && ops[3..][1..] == [];
    assert Run(m1, ops[1..]) == Run(m2, ops[2..]) == Run(m3, ops[3..]) == m4;
    assert Entry(Shr(other, VTTBR_VMID_SHIFT), v, leaf) in m4.tlb;
    assert v !in m4.Active();
  }
}
