/** mmu.c: VTTBR, and what the hardware's own table walk makes of it. */
module Mmu {
  import opened Wrappers
  import opened Bits
  import opened Descriptors
  import opened PageTable
  import opened Tlb
  import opened Cpu
  import opened Vm

  const VTCR_DEFAULT := 0x40  // T0SZ = 0 (32-bit IPA), SL0 = 1 (start at level 1)

  /** hv_mmu_vttbr_for_vm */
  function VttbrFor(vmid: nat, rootPa: nat): nat {
    Or(Shl(And(vmid, VTTBR_VMID_MASK), VTTBR_VMID_SHIFT), And(rootPa, ADDR_MASK))
  }

  lemma VmidMissesAddress(vmid: nat)
    ensures And(Shl(vmid, 48), ADDR_MASK) == 0
  {
    ShrOfShl(vmid, 12, 36);
    ShlAdd(vmid, 28, 8);
    LowOfShl(Shl(vmid, 8), 28);
    MissesAddress(Shl(vmid, 48));
  }

  /** VTTBR names its VM: the root table and the low 8 bits of the VMID come back out of it. */
  lemma VttbrFields(vmid: nat, rootPa: nat)
    requires rootPa % PAGE_SIZE == 0 && rootPa < 0x100_0000_0000
    ensures And(VttbrFor(vmid, rootPa), ADDR_MASK) == rootPa
    ensures Shr(VttbrFor(vmid, rootPa), VTTBR_VMID_SHIFT) == And(vmid, VTTBR_VMID_MASK)
  {
    hide Shl, Shr, And, Ones;
    var id := And(vmid, VTTBR_VMID_MASK);
    AlignedAddr(rootPa);
    VmidMissesAddress(id);
    AndOr(Shl(id, 48), rootPa, ADDR_MASK);
    BelowVmid(rootPa);
    assert And(Or(Shl(id, 48), rootPa), ADDR_MASK) == Or(0, rootPa);
    OrDisjoint(id, rootPa, 48);
    ShrOfSum(id, rootPa, 48);
  }

  lemma BelowVmid(pa: nat)
    requires pa < 0x100_0000_0000
    ensures pa <= Ones(48)
  {
    Masks();
    OnesGrow(40, 48);
    assert Ones(32) == 0xffff_ffff;
    assert Ones(36) == 0xf_ffff_ffff;
    assert Ones(40) == 0xff_ffff_ffff;
  }

  /** Physical memory, at 8-byte descriptor granularity, holds tables t in pool. */
  ghost predicate Holds(mem: nat -> nat, t: seq<nat>, pool: Pool)
    requires Sized(t, pool)
  {
    forall s :: 0 <= s < |t| ==> mem(pool.pa + 8 * s) == t[s]
  }

  /** The hardware's walk from a level 2 table: it trusts the table address it reads. */
  function HardwareLower(mem: nat -> nat, table: nat, v: nat): Option<Leaf> {
    var l2 := mem(table + 8 * (v / 0x200 % 0x200));
    if !IsTableOrPage(l2) then None
    else
      var l3 := mem(DescAddr(l2) + 8 * (v % 0x200));
      if IsTableOrPage(l3) then Some(LeafOf(l3)) else None
  }

  /** The hardware's walk of three levels of long descriptors from VTTBR (section G4.5 of the Arm
      Architecture Reference Manual for Armv8). */
  function HardwareWalk(mem: nat -> nat, vttbr: nat, v: nat): Option<Leaf> {
    var l1 := mem(And(vttbr, ADDR_MASK) + 8 * (v / 0x40000));
    if IsTableOrPage(l1) then HardwareLower(mem, DescAddr(l1), v) else None
  }

  datatype AccessKind = ToFetch | ToLoad | ToStore

  /** Whether a leaf lets an access through: the access flag (bit 10) is set, S2AP allows reads (bit 6) for a
      fetch or load and writes (bit 7) for a store, and a fetch is not forbidden by XN (bit 54). */
  predicate Permits(attrs: nat, access: AccessKind) {
    BitAt(attrs, 10) &&
    match access
    case ToFetch => BitAt(attrs, 6) && !BitAt(attrs, 54)
    case ToLoad => BitAt(attrs, 6)
    case ToStore => BitAt(attrs, 7)
  }

  /** Where an access to page v ends up, unless it faults. */
  function HardwareAccess(mem: nat -> nat, vttbr: nat, v: nat, access: AccessKind): Option<nat> {
    match HardwareWalk(mem, vttbr, v)
    case None => None
    case Some(leaf) => if Permits(leaf.attrs, access) then Some(leaf.pa) else None
  }

  lemma BranchAddr(t: seq<nat>, pool: Pool, tree: Tree, s: nat)
    requires IsTree(t, pool, tree) && s < |tree.level| * DESCS_PER_TABLE && tree.level[s / DESCS_PER_TABLE] < 3
    ensures if IsTableOrPage(t[s]) then
              pool.DescToTable(t[s]).Some? && DescAddr(t[s]) == pool.TablePa(pool.DescToTable(t[s]).value)
            else pool.DescToTable(t[s]) == None
  {
    assert Branch(t, pool, tree, s);
    InvalidDesc(pool);
    if IsTableOrPage(t[s]) {
      var k := pool.DescToTable(t[s]).value;
      assert Linked(t, pool, tree, k);
      TableDescRoundTrip(pool.TablePa(k));
    }
  }

  /** From a level 2 table of the tree on, hardware and software walk alike. */
  lemma LowerAgrees(mem: nat -> nat, t: seq<nat>, pool: Pool, tree: Tree, v: nat)
    requires IsTree(t, pool, tree) && Holds(mem, t, pool) && v < PAGE_NUMBERS && L2Table(t, pool, v).Some?
    ensures HardwareLower(mem, pool.TablePa(L2Table(t, pool, v).value), v) == Lookup(t, pool, v)
  {
    hide Linked, Branch, Holds, IsTableOrPage, DescAddr, DescAttrs, Pool.DescToTable, L2Table;
    WalkInTree(t, pool, tree, v);
    var l2 := L2Table(t, pool, v).value;
    var s := L2Slot(l2, v);
    MemAt(mem, t, pool, l2, v / 0x200 % 0x200);
    BranchAddr(t, pool, tree, s);
    if IsTableOrPage(t[s]) {
      MemAt(mem, t, pool, pool.DescToTable(t[s]).value, v % 0x200);
    }
  }

  /** With VTTBR set for a VM, the hardware translates exactly what that VM's page map says. */
  lemma HardwareAgrees(mem: nat -> nat, t: seq<nat>, pool: Pool, tree: Tree, vmid: nat, v: nat)
    requires IsTree(t, pool, tree) && Holds(mem, t, pool) && v < PAGE_NUMBERS
    ensures HardwareWalk(mem, VttbrFor(vmid, pool.TablePa(0)), v) == Lookup(t, pool, v)
    ensures v in PageMap(t, pool) <==> HardwareWalk(mem, VttbrFor(vmid, pool.TablePa(0)), v).Some?
  {
    hide Linked, Branch, VttbrFor, Holds, IsTableOrPage, DescAddr, DescAttrs, And, Shr, Pool.DescToTable, HardwareLower;
    Root(t, pool, tree);
    VttbrFields(vmid, pool.TablePa(0));
    MemAt(mem, t, pool, 0, L1Slot(v));
    BranchAddr(t, pool, tree, L1Slot(v));
    if L2Table(t, pool, v).Some? {
      LowerAgrees(mem, t, pool, tree, v);
    }
  }

  lemma MemAt(mem: nat -> nat, t: seq<nat>, pool: Pool, page: nat, i: nat)
    requires Sized(t, pool) && Holds(mem, t, pool) && page < pool.pages && i < DESCS_PER_TABLE
    ensures mem(pool.TablePa(page) + 8 * i) == t[page * DESCS_PER_TABLE + i]
  {
    assert mem(pool.pa + 8 * (page * DESCS_PER_TABLE + i)) == t[page * DESCS_PER_TABLE + i];
  }

  /** hv_mmu_deactivate_stage2 */
  method DeactivateStage2(cpu: Cpu)
    modifies cpu`hcr, cpu`log
    ensures cpu.hcr == With(old(cpu.hcr), HCR_VM, false) && cpu.log == old(cpu.log) + DeactivateOps()
  {
    cpu.ClearHcrBit(HCR_VM);
    cpu.InvalidateAll();
  }

  /** hv_mmu_activate_vcpu, for a vCPU of VM vm or of none: VTTBR is written and the TLB flushed before HCR.VM
      is set. */
  method ActivateVcpu(vm: Option<HvVm>, cpu: Cpu)
    modifies cpu`hcr, cpu`vtcr, cpu`vttbr, cpu`log
    ensures cpu.hcr == With(old(cpu.hcr), HCR_VM, vm.Some?)
    ensures vm.None? ==> cpu.vtcr == old(cpu.vtcr) && cpu.vttbr == old(cpu.vttbr)
    ensures vm.None? ==> cpu.log == old(cpu.log) + DeactivateOps()
    ensures vm.Some? ==> cpu.vtcr == VTCR_DEFAULT && cpu.vttbr == VttbrFor(vm.value.vmid, vm.value.stage2.rootPa)
    ensures vm.Some? ==> cpu.log == old(cpu.log) + ActivateOps(cpu.vttbr)
  {
    hide VttbrFor, With;
    if vm.None? {
      DeactivateStage2(cpu);
      return;
    }
    cpu.vtcr := VTCR_DEFAULT;
    cpu.SetVttbr(VttbrFor(vm.value.vmid, vm.value.stage2.rootPa));
    cpu.InvalidateAll();
    cpu.SetHcrBit(HCR_VM);
  }
}
