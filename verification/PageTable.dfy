/** The shape of one VM's stage-2 tables, seen as the sequence of descriptors in its pool.

    Page k of the pool holds descriptors k*512 .. k*512+511; page 0 is the level 1 root. A "slot" is
    the index of a descriptor in the pool, and a "page number" v is an IPA divided by 4 KB. */
module PageTable {
  import opened Wrappers
  import opened Descriptors

  const PAGE_NUMBERS := 0x10_0000  // 4 KB pages in the 32-bit IPA range

  /** HvStage2's constant part: how many pages the pool has, and its physical address. */
  datatype Pool = Pool(pages: nat, pa: nat)
  {
    /** What the linker gives: a page-aligned pool that ends below 4 GB. */
    predicate Ok() {
      pages >= 1 && pa % PAGE_SIZE == 0 && pa + pages * PAGE_SIZE <= UINT32_LIMIT
    }

    /** stage2_table_pa */
    function TablePa(page: nat): nat {
      pa + page * PAGE_SIZE
    }

    /** stage2_desc_to_table: the pool page a table descriptor names. */
    function DescToTable(desc: nat): (page: Option<nat>)
      ensures page.Some? ==> page.value < pages
    {
      if !IsTableOrPage(desc) then None
      else
        var addr := DescAddr(desc);
        if addr < pa || !Aligned(addr - pa) then None
        else
          var page := (addr - pa) / PAGE_SIZE;
          if page >= pages then None else Some(page)
    }
  }

  /** A table descriptor made for a pool page is decoded to that page. */
  lemma DescToTableRoundTrip(pool: Pool, page: nat)
    requires pool.Ok() && page < pool.pages
    ensures pool.DescToTable(TableDesc(pool.TablePa(page))) == Some(page)
    ensures IsTableOrPage(TableDesc(pool.TablePa(page))) && TableDesc(pool.TablePa(page)) != DESC_INVALID
  {
    hide TableDesc, DescAddr, IsTableOrPage, Aligned;
    TableDescRoundTrip(pool.TablePa(page));
    AlignedIsMultiple(page * PAGE_SIZE);
    LowBits(TableDesc(pool.TablePa(page)));
  }

  predicate Sized(t: seq<nat>, pool: Pool) {
    pool.Ok() && |t| == pool.pages * DESCS_PER_TABLE
  }

  // ----- The walk -----

  function L1Slot(v: nat): (s: nat)
    requires v < PAGE_NUMBERS
    ensures s < DESCS_PER_TABLE
  {
    v / 0x40000
  }

  function L2Slot(table: nat, v: nat): (s: nat)
    ensures s / DESCS_PER_TABLE == table && s % DESCS_PER_TABLE == v / 0x200 % 0x200
  {
    table * DESCS_PER_TABLE + v / 0x200 % 0x200
  }

  function L3Slot(table: nat, v: nat): (s: nat)
    ensures s / DESCS_PER_TABLE == table && s % DESCS_PER_TABLE == v % 0x200
  {
    table * DESCS_PER_TABLE + v % 0x200
  }

  /** The level 2 table for page number v. */
  function L2Table(t: seq<nat>, pool: Pool, v: nat): (page: Option<nat>)
    requires Sized(t, pool) && v < PAGE_NUMBERS
    ensures page.Some? ==> page.value < pool.pages
  {
    pool.DescToTable(t[L1Slot(v)])
  }

  /** The level 3 table for page number v. */
  function L3Table(t: seq<nat>, pool: Pool, v: nat): (page: Option<nat>)
    requires Sized(t, pool) && v < PAGE_NUMBERS
    ensures page.Some? ==> page.value < pool.pages
  {
    match L2Table(t, pool, v)
    case None => None
    case Some(l2) => pool.DescToTable(t[L2Slot(l2, v)])
  }

  /** stage2_walk_l3 without allocation: the slot of the page descriptor for v. */
  function Walk(t: seq<nat>, pool: Pool, v: nat): (slot: Option<nat>)
    requires Sized(t, pool) && v < PAGE_NUMBERS
    ensures slot.Some? ==> slot.value < |t|
  {
    match L3Table(t, pool, v)
    case None => None
    case Some(l3) => Some(L3Slot(l3, v))
  }

  /** The physical page v translates to, and how it may be accessed. */
  function Lookup(t: seq<nat>, pool: Pool, v: nat): Option<Leaf>
    requires Sized(t, pool) && v < PAGE_NUMBERS
  {
    match Walk(t, pool, v)
    case None => None
    case Some(slot) => if IsTableOrPage(t[slot]) then Some(LeafOf(t[slot])) else None
  }

  /** The finite map the tables stand for: page number to physical page address and attributes. */
  ghost function PageMap(t: seq<nat>, pool: Pool): map<nat, Leaf>
    requires Sized(t, pool)
  {
    map v | 0 <= v < PAGE_NUMBERS && Lookup(t, pool, v).Some? :: Lookup(t, pool, v).value
  }

  /** How many tables a mapping of v would have to allocate. */
  function Missing(t: seq<nat>, pool: Pool, v: nat): (n: nat)
    requires Sized(t, pool) && v < PAGE_NUMBERS
  {
    if L2Table(t, pool, v).None? then 2 else if L3Table(t, pool, v).None? then 1 else 0
  }

  // ----- The tree -----

  /** For each allocated page: its level, and the slot of the one entry that points to it. */
  datatype Tree = Tree(level: seq<nat>, parent: seq<nat>)

  const ROOT_ONLY := Tree([1], [0])

  /** Page k hangs off its parent slot, one level down, in a page allocated before it. */
  ghost predicate Linked(t: seq<nat>, pool: Pool, tree: Tree, k: nat)
    requires Sized(t, pool) && |tree.level| == |tree.parent| <= pool.pages && k < |tree.level|
  {
    var s := tree.parent[k];
    s / DESCS_PER_TABLE < k && 2 <= tree.level[k] == tree.level[s / DESCS_PER_TABLE] + 1 <= 3 &&
    t[s] == TableDesc(pool.TablePa(k))
  }

  /** An entry of a level 1 or 2 table is empty, or is the parent entry of an allocated page. */
  ghost predicate Branch(t: seq<nat>, pool: Pool, tree: Tree, s: nat)
    requires Sized(t, pool) && |tree.level| == |tree.parent| && s < |t|
  {
    t[s] == DESC_INVALID ||
    (IsTableOrPage(t[s]) &&
     var page := pool.DescToTable(t[s]);
     page.Some? && 1 <= page.value < |tree.level| && tree.parent[page.value] == s)
  }

  /** The allocated pages form a three-level tree: exactly one entry points to each page but the root. */
  ghost predicate IsTree(t: seq<nat>, pool: Pool, tree: Tree) {
    Sized(t, pool) &&
    1 <= |tree.level| == |tree.parent| <= pool.pages &&
    tree.level[0] == 1 &&
    (forall k :: 1 <= k < |tree.level| ==> Linked(t, pool, tree, k)) &&
    (forall s :: 0 <= s < |tree.level| * DESCS_PER_TABLE && tree.level[s / DESCS_PER_TABLE] < 3 ==>
      Branch(t, pool, tree, s)) &&
    (forall s :: 0 <= s < |tree.level| * DESCS_PER_TABLE && tree.level[s / DESCS_PER_TABLE] == 3 ==>
      t[s] == DESC_INVALID || IsTableOrPage(t[s]))
  }

  lemma Root(t: seq<nat>, pool: Pool, tree: Tree)
    requires IsTree(t, pool, tree)
    ensures Sized(t, pool) && 1 <= |tree.level| <= pool.pages && tree.level[0] == 1
  {
  }

  lemma InvalidDesc(pool: Pool)
    ensures !IsTableOrPage(DESC_INVALID) && !IsValid(DESC_INVALID) && pool.DescToTable(DESC_INVALID) == None
  {
    LowBits(DESC_INVALID);
  }

  /** The walk stays inside the tree and comes back up by the parent entries. */
  lemma WalkInTree(t: seq<nat>, pool: Pool, tree: Tree, v: nat)
    requires IsTree(t, pool, tree) && v < PAGE_NUMBERS
    ensures var l2 := L2Table(t, pool, v);
            l2.Some? ==> 1 <= l2.value < |tree.level| && tree.level[l2.value] == 2 &&
                         tree.parent[l2.value] == L1Slot(v)
    ensures var l3 := L3Table(t, pool, v);
            l3.Some? ==> L2Table(t, pool, v).Some? && 1 <= l3.value < |tree.level| && tree.level[l3.value] == 3 &&
                         tree.parent[l3.value] == L2Slot(L2Table(t, pool, v).value, v)
  {
    InvalidDesc(pool);
    assert Branch(t, pool, tree, L1Slot(v));
    var l2 := L2Table(t, pool, v);
    if l2.Some? {
      assert Linked(t, pool, tree, l2.value);
      var s := L2Slot(l2.value, v);
      assert Branch(t, pool, tree, s);
      var l3 := L3Table(t, pool, v);
      if l3.Some? {
        assert Linked(t, pool, tree, l3.value);
      }
    }
  }

  /** No aliasing: two page numbers never share a page descriptor. */
  lemma WalkInjective(t: seq<nat>, pool: Pool, tree: Tree, v: nat, w: nat)
    requires IsTree(t, pool, tree) && v < PAGE_NUMBERS && w < PAGE_NUMBERS
    requires Walk(t, pool, v).Some? && Walk(t, pool, v) == Walk(t, pool, w)
    ensures v == w
  {
    hide Linked, Branch, L1Slot, L2Table, Pool.DescToTable;
    WalkInTree(t, pool, tree, v);
    WalkInTree(t, pool, tree, w);
    var s := Walk(t, pool, v).value;
    assert L3Table(t, pool, v).value == s / DESCS_PER_TABLE == L3Table(t, pool, w).value;
    var p := tree.parent[s / DESCS_PER_TABLE];
    assert L2Table(t, pool, v).value == p / DESCS_PER_TABLE == L2Table(t, pool, w).value;
    assert v % 0x200 == w % 0x200 && v / 0x200 % 0x200 == w / 0x200 % 0x200;
    SameIndices(v, w);
  }

  lemma SameIndices(v: nat, w: nat)
    requires v < PAGE_NUMBERS && w < PAGE_NUMBERS && L1Slot(v) == L1Slot(w)
    requires v % 0x200 == w % 0x200 && v / 0x200 % 0x200 == w / 0x200 % 0x200
    ensures v == w
  {
    var a, b := v / 0x200, w / 0x200;
    assert a / 0x200 == v / 0x40000 && b / 0x200 == w / 0x40000;
    assert a == 0x200 * (a / 0x200) + a % 0x200 && b == 0x200 * (b / 0x200) + b % 0x200;
    assert v == 0x200 * a + v % 0x200 && w == 0x200 * b + w % 0x200;
  }
}
