/** What the three writes of stage2.c do to the tables: filling a page descriptor, clearing a fresh
    pool page, and hanging that page under an empty entry. */
module PageTableSteps {
  import opened Wrappers
  import opened Descriptors
  import opened PageTable

  /** Two table states in which every walk takes the same way. */
  ghost predicate SameTables(t: seq<nat>, t': seq<nat>, pool: Pool)
    requires Sized(t, pool) && Sized(t', pool)
  {
    forall v: nat {:trigger L2Table(t', pool, v)} {:trigger L3Table(t', pool, v)} | v < PAGE_NUMBERS ::
      L2Table(t', pool, v) == L2Table(t, pool, v) && L3Table(t', pool, v) == L3Table(t, pool, v)
  }

  /** Writing a page descriptor, or clearing one, changes no table. */
  lemma LeafKeepsTables(t: seq<nat>, t': seq<nat>, pool: Pool, tree: Tree, s: nat, desc: nat)
    requires IsTree(t, pool, tree) && s < |tree.level| * DESCS_PER_TABLE && tree.level[s / DESCS_PER_TABLE] == 3
    requires t' == t[s := desc]
    ensures Sized(t', pool) && SameTables(t, t', pool)
  {
    forall v: nat | v < PAGE_NUMBERS
      ensures L2Table(t', pool, v) == L2Table(t, pool, v) && L3Table(t', pool, v) == L3Table(t, pool, v)
    {
      WalkInTree(t, pool, tree, v);
    }
  }

  lemma LeafKeepsTree(t: seq<nat>, t': seq<nat>, pool: Pool, tree: Tree, s: nat, desc: nat)
    requires IsTree(t, pool, tree) && s < |tree.level| * DESCS_PER_TABLE && tree.level[s / DESCS_PER_TABLE] == 3
    requires t' == t[s := desc] && (desc == DESC_INVALID || IsTableOrPage(desc))
    ensures IsTree(t', pool, tree)
  {
    forall k | 1 <= k < |tree.level|
      ensures Linked(t', pool, tree, k)
    {
      assert Linked(t, pool, tree, k);
    }
    forall q | 0 <= q < |tree.level| * DESCS_PER_TABLE && tree.level[q / DESCS_PER_TABLE] < 3
      ensures Branch(t', pool, tree, q)
    {
      assert Branch(t, pool, tree, q);
    }
  }

  /** Only page number v sees a write to its own page descriptor. */
  lemma LeafIsLocal(t: seq<nat>, t': seq<nat>, pool: Pool, tree: Tree, v: nat, desc: nat, w: nat)
    requires IsTree(t, pool, tree) && v < PAGE_NUMBERS && w < PAGE_NUMBERS
    requires Walk(t, pool, v).Some? && t' == t[Walk(t, pool, v).value := desc]
    ensures Sized(t', pool)
    ensures Lookup(t', pool, w) ==
      if w != v then Lookup(t, pool, w) else if IsTableOrPage(desc) then Some(LeafOf(desc)) else None
  {
    var s := Walk(t, pool, v).value;
    WalkInTree(t, pool, tree, v);
    LeafKeepsTables(t, t', pool, tree, s, desc);
    assert L3Table(t', pool, w) == L3Table(t, pool, w);
    if w != v && Walk(t, pool, w) == Some(s) {
      WalkInjective(t, pool, tree, v, w);
    }
  }

  /** Filling a page descriptor adds one page to the map. */
  lemma FillAddsPage(t: seq<nat>, t': seq<nat>, pool: Pool, tree: Tree, v: nat, desc: nat)
    requires IsTree(t, pool, tree) && v < PAGE_NUMBERS && IsTableOrPage(desc)
    requires Walk(t, pool, v).Some? && t' == t[Walk(t, pool, v).value := desc]
    ensures IsTree(t', pool, tree) && SameTables(t, t', pool)
    ensures PageMap(t', pool) == PageMap(t, pool)[v := LeafOf(desc)]
  {
    var s := Walk(t, pool, v).value;
    WalkInTree(t, pool, tree, v);
    LeafKeepsTables(t, t', pool, tree, s, desc);
    LeafKeepsTree(t, t', pool, tree, s, desc);
    forall w: nat | w < PAGE_NUMBERS
      ensures Lookup(t', pool, w) == if w == v then Some(LeafOf(desc)) else Lookup(t, pool, w)
    {
      LeafIsLocal(t, t', pool, tree, v, desc, w);
    }
  }

  /** Clearing a page descriptor removes one page from the map. */
  lemma ClearRemovesPage(t: seq<nat>, t': seq<nat>, pool: Pool, tree: Tree, v: nat)
    requires IsTree(t, pool, tree) && v < PAGE_NUMBERS
    requires Walk(t, pool, v).Some? && t' == t[Walk(t, pool, v).value := DESC_INVALID]
    ensures IsTree(t', pool, tree) && SameTables(t, t', pool)
    ensures PageMap(t', pool) == PageMap(t, pool) - {v}
  {
    hide Linked, Branch, LeafOf, Pool.DescToTable, L3Table;
    var s := Walk(t, pool, v).value;
    WalkInTree(t, pool, tree, v);
    LeafKeepsTables(t, t', pool, tree, s, DESC_INVALID);
    LeafKeepsTree(t, t', pool, tree, s, DESC_INVALID);
    InvalidDesc(pool);
    forall w: nat | w < PAGE_NUMBERS
      ensures Lookup(t', pool, w) == if w == v then None else Lookup(t, pool, w)
    {
      LeafIsLocal(t, t', pool, tree, v, DESC_INVALID, w);
    }
  }

  /** t' is t with pool page k cleared. */
  ghost predicate Zeroed(t: seq<nat>, t': seq<nat>, k: nat) {
    |t'| == |t| &&
    forall s :: 0 <= s < |t| ==> t'[s] == if s / DESCS_PER_TABLE == k then DESC_INVALID else t[s]
  }

  /** Clearing a page that is not allocated yet is not observable. */
  lemma ZeroFree(t: seq<nat>, t': seq<nat>, pool: Pool, tree: Tree, k: nat)
    requires IsTree(t, pool, tree) && |tree.level| <= k && Zeroed(t, t', k)
    ensures IsTree(t', pool, tree) && SameTables(t, t', pool)
    ensures PageMap(t', pool) == PageMap(t, pool)
  {
    forall i | 1 <= i < |tree.level|
      ensures Linked(t', pool, tree, i)
    {
      assert Linked(t, pool, tree, i);
    }
    forall q | 0 <= q < |tree.level| * DESCS_PER_TABLE && tree.level[q / DESCS_PER_TABLE] < 3
      ensures Branch(t', pool, tree, q)
    {
      assert Branch(t, pool, tree, q);
    }
    forall v: nat | v < PAGE_NUMBERS
      ensures L2Table(t', pool, v) == L2Table(t, pool, v) && L3Table(t', pool, v) == L3Table(t, pool, v)
      ensures Lookup(t', pool, v) == Lookup(t, pool, v)
    {
      WalkInTree(t, pool, tree, v);
    }
  }

  /** The tree with the next pool page hung under slot e. */
  ghost function Grown(tree: Tree, e: nat): (grown: Tree)
    requires |tree.level| == |tree.parent| && e / DESCS_PER_TABLE < |tree.level|
  {
    Tree(tree.level + [tree.level[e / DESCS_PER_TABLE] + 1], tree.parent + [e])
  }

  /** What it takes to hang the (cleared) next pool page under the empty entry e. */
  ghost predicate CanLink(t: seq<nat>, t': seq<nat>, pool: Pool, tree: Tree, e: nat) {
    IsTree(t, pool, tree) && |tree.level| < pool.pages &&
    (forall s :: |tree.level| * DESCS_PER_TABLE <= s < (|tree.level| + 1) * DESCS_PER_TABLE ==> t[s] == DESC_INVALID) &&
    e < |tree.level| * DESCS_PER_TABLE && tree.level[e / DESCS_PER_TABLE] < 3 && t[e] == DESC_INVALID &&
    t' == t[e := TableDesc(pool.TablePa(|tree.level|))]
  }

  lemma LinkKeepsTree(t: seq<nat>, t': seq<nat>, pool: Pool, tree: Tree, e: nat)
    requires CanLink(t, t', pool, tree, e)
    ensures IsTree(t', pool, Grown(tree, e))
  {
    var k := |tree.level|;
    var tree' := Grown(tree, e);
    DescToTableRoundTrip(pool, k);
    if e / DESCS_PER_TABLE > 0 {
      assert Linked(t, pool, tree, e / DESCS_PER_TABLE);
    }
    forall i | 1 <= i < |tree'.level|
      ensures Linked(t', pool, tree', i)
    {
      if i < k {
        assert Linked(t, pool, tree, i);
        DescToTableRoundTrip(pool, i);
      }
    }
    forall q | 0 <= q < |tree'.level| * DESCS_PER_TABLE && tree'.level[q / DESCS_PER_TABLE] < 3
      ensures Branch(t', pool, tree', q)
    {
      if q < k * DESCS_PER_TABLE {
        assert Branch(t, pool, tree, q);
      }
    }
  }

  /** Hanging an empty table under e: the walks through e now reach it, and no translation changes. */
  lemma LinkWalk(t: seq<nat>, t': seq<nat>, pool: Pool, tree: Tree, e: nat, v: nat)
    requires CanLink(t, t', pool, tree, e) && v < PAGE_NUMBERS
    ensures Sized(t', pool)
    ensures L2Table(t', pool, v) == if L1Slot(v) == e then Some(|tree.level|) else L2Table(t, pool, v)
    ensures L3Table(t', pool, v) ==
      if L2Table(t, pool, v).Some? && L2Slot(L2Table(t, pool, v).value, v) == e then Some(|tree.level|)
      else L3Table(t, pool, v)
    ensures Lookup(t', pool, v) == Lookup(t, pool, v)
  {
    var k := |tree.level|;
    DescToTableRoundTrip(pool, k);
    InvalidDesc(pool);
    WalkInTree(t, pool, tree, v);
    if L1Slot(v) == e {
      assert t'[L2Slot(k, v)] == DESC_INVALID;
    }
  }

  /** How the tables look from every page number once page k hangs under slot e. */
  ghost predicate Hung(t: seq<nat>, t': seq<nat>, pool: Pool, e: nat, k: nat)
    requires Sized(t, pool) && Sized(t', pool)
  {
    forall v: nat {:trigger L2Table(t', pool, v)} {:trigger L3Table(t', pool, v)} | v < PAGE_NUMBERS ::
      var l2 := L2Table(t, pool, v);
      L2Table(t', pool, v) == (if L1Slot(v) == e then Some(k) else l2) &&
      L3Table(t', pool, v) == (if l2.Some? && L2Slot(l2.value, v) == e then Some(k) else L3Table(t, pool, v))
  }

  lemma LinkKeepsMap(t: seq<nat>, t': seq<nat>, pool: Pool, tree: Tree, e: nat)
    requires CanLink(t, t', pool, tree, e)
    ensures Sized(t', pool) && PageMap(t', pool) == PageMap(t, pool)
  {
    forall v: nat | v < PAGE_NUMBERS
      ensures Lookup(t', pool, v) == Lookup(t, pool, v)
    {
      LinkWalk(t, t', pool, tree, e, v);
    }
  }

  /** Clearing a free page and hanging it under e, together. */
  lemma HangStep(t0: seq<nat>, t1: seq<nat>, t2: seq<nat>, pool: Pool, tree: Tree, e: nat)
    requires IsTree(t0, pool, tree) && |tree.level| < pool.pages && Zeroed(t0, t1, |tree.level|)
    requires e < |tree.level| * DESCS_PER_TABLE && tree.level[e / DESCS_PER_TABLE] < 3 && t0[e] == DESC_INVALID
    requires t2 == t1[e := TableDesc(pool.TablePa(|tree.level|))]
    ensures IsTree(t2, pool, Grown(tree, e)) && PageMap(t2, pool) == PageMap(t0, pool)
    ensures Hung(t0, t2, pool, e, |tree.level|)
  {
    ZeroFree(t0, t1, pool, tree, |tree.level|);
    assert CanLink(t1, t2, pool, tree, e);
    LinkKeepsTree(t1, t2, pool, tree, e);
    LinkKeepsMap(t1, t2, pool, tree, e);
    forall v: nat | v < PAGE_NUMBERS
      ensures L2Table(t2, pool, v) == if L1Slot(v) == e then Some(|tree.level|) else L2Table(t0, pool, v)
      ensures L3Table(t2, pool, v) ==
        if L2Table(t0, pool, v).Some? && L2Slot(L2Table(t0, pool, v).value, v) == e then Some(|tree.level|)
        else L3Table(t0, pool, v)
    {
      assert L3Table(t1, pool, v) == L3Table(t0, pool, v);
      LinkWalk(t1, t2, pool, tree, e, v);
    }
  }

  /** The root alone, cleared, is a tree that maps nothing. */
  lemma EmptyTree(t: seq<nat>, pool: Pool)
    requires Sized(t, pool) && forall s :: 0 <= s < |t| ==> t[s] == DESC_INVALID
    ensures IsTree(t, pool, ROOT_ONLY) && PageMap(t, pool) == map[]
  {
    InvalidDesc(pool);
    assert forall v: nat | v < PAGE_NUMBERS :: L2Table(t, pool, v) == None;
  }
}
