/** How many pool pages a set of mappings costs. */
module TableCount {
  import opened Wrappers
  import opened Descriptors
  import opened PageTable
  import opened PageTableSteps

  /** The valid entries of the tables at one level. */
  ghost function ValidEntries(t: seq<nat>, pool: Pool, tree: Tree, level: nat): set<nat>
    requires IsTree(t, pool, tree)
  {
    set s | 0 <= s < |tree.level| * DESCS_PER_TABLE && tree.level[s / DESCS_PER_TABLE] == level && IsTableOrPage(t[s])
  }

  ghost function Parents(tree: Tree, n: nat): set<nat>
    requires n <= |tree.parent|
  {
    set k | 1 <= k < n :: tree.parent[k]
  }

  lemma {:induction false} ParentsDistinct(t: seq<nat>, pool: Pool, tree: Tree, n: nat)
    requires IsTree(t, pool, tree) && 1 <= n <= |tree.level|
    ensures |Parents(tree, n)| == n - 1
  {
    if n == 1 {
      assert Parents(tree, 1) == {};
    } else {
      ParentsDistinct(t, pool, tree, n - 1);
      var s := tree.parent[n - 1];
      assert Linked(t, pool, tree, n - 1);
      DescToTableRoundTrip(pool, n - 1);
      forall k | 1 <= k < n - 1
        ensures tree.parent[k] != s
      {
        assert Linked(t, pool, tree, k);
        DescToTableRoundTrip(pool, k);
      }
      assert Parents(tree, n) == Parents(tree, n - 1) + {s};
    }
  }

  /** Every allocated page but the root is paid for by exactly one valid level 1 or level 2 entry. */
  lemma ExactAllocation(t: seq<nat>, pool: Pool, tree: Tree)
    requires IsTree(t, pool, tree)
    ensures |tree.level| == 1 + |ValidEntries(t, pool, tree, 1)| + |ValidEntries(t, pool, tree, 2)|
  {
    var one, two := ValidEntries(t, pool, tree, 1), ValidEntries(t, pool, tree, 2);
    var parents := Parents(tree, |tree.level|);
    forall s
      ensures s in parents <==> s in one + two
    {
      if s in parents {
        var k :| 1 <= k < |tree.level| && tree.parent[k] == s;
        assert Linked(t, pool, tree, k);
        DescToTableRoundTrip(pool, k);
      }
      if s in one + two {
        assert Branch(t, pool, tree, s);
        InvalidDesc(pool);
        assert tree.parent[pool.DescToTable(t[s]).value] == s;
      }
    }
    assert parents == one + two && one !! two;
    ParentsDistinct(t, pool, tree, |tree.level|);
  }

  /** Tables that mapping page i of a run from v has to add, if the pages before it have theirs. */
  function NewTables(t: seq<nat>, pool: Pool, v: nat, i: nat): nat
    requires Sized(t, pool) && v + i < PAGE_NUMBERS
  {
    var w := v + i;
    (if L2Table(t, pool, w).None? && (i == 0 || (w - 1) / 0x40000 != w / 0x40000) then 1 else 0) +
    (if L3Table(t, pool, w).None? && (i == 0 || (w - 1) / 0x200 != w / 0x200) then 1 else 0)
  }

  /** The missing level 2 and level 3 tables of the 1 GB and 2 MB blocks that n pages from v touch. */
  function TablesNeeded(t: seq<nat>, pool: Pool, v: nat, n: nat): nat
    requires Sized(t, pool) && v + n <= PAGE_NUMBERS
  {
    if n == 0 then 0 else TablesNeeded(t, pool, v, n - 1) + NewTables(t, pool, v, n - 1)
  }

  /** t' has tables for w0 and otherwise exactly those of t. */
  ghost predicate Opened(t: seq<nat>, t': seq<nat>, pool: Pool, w0: nat)
    requires Sized(t, pool) && Sized(t', pool)
  {
    forall w: nat {:trigger L2Table(t', pool, w)} {:trigger L3Table(t', pool, w)} | w < PAGE_NUMBERS ::
      (L2Table(t', pool, w).None? <==> L2Table(t, pool, w).None? && w / 0x40000 != w0 / 0x40000) &&
      (L3Table(t', pool, w).None? <==> L3Table(t, pool, w).None? && w / 0x200 != w0 / 0x200)
  }

  /** The k pages of a run from v touch the block of w, for blocks of the given size. */
  predicate Touches(v: nat, k: nat, w: nat, size: nat)
    requires size > 0
  {
    k > 0 && v / size <= w / size <= (v + k - 1) / size
  }

  /** After k pages of a run from v: t' has tables for their blocks and otherwise exactly those of t. */
  ghost predicate RunOpened(t: seq<nat>, t': seq<nat>, pool: Pool, v: nat, k: nat)
    requires Sized(t, pool) && Sized(t', pool)
  {
    forall w: nat {:trigger L2Table(t', pool, w)} {:trigger L3Table(t', pool, w)} | w < PAGE_NUMBERS ::
      (L2Table(t', pool, w).None? <==> L2Table(t, pool, w).None? && !Touches(v, k, w, 0x40000)) &&
      (L3Table(t', pool, w).None? <==> L3Table(t, pool, w).None? && !Touches(v, k, w, 0x200))
  }

  lemma TouchesMore(v: nat, k: nat, w: nat, size: nat)
    requires size == 0x40000 || size == 0x200
    ensures Touches(v, k + 1, w, size) <==> Touches(v, k, w, size) || w / size == (v + k) / size
    ensures k > 0 ==> (v + k - 1) / size <= (v + k) / size <= (v + k - 1) / size + 1 && v / size <= (v + k) / size
  {
  }

  lemma RunStep(t: seq<nat>, t1: seq<nat>, t2: seq<nat>, pool: Pool, v: nat, k: nat)
    requires Sized(t, pool) && Sized(t1, pool) && Sized(t2, pool) && v + k < PAGE_NUMBERS
    requires RunOpened(t, t1, pool, v, k) && Opened(t1, t2, pool, v + k)
    ensures RunOpened(t, t2, pool, v, k + 1)
  {
    hide Touches, Sized, L2Table, L3Table;
    forall w: nat | w < PAGE_NUMBERS
      ensures L2Table(t2, pool, w).None? <==> L2Table(t, pool, w).None? && !Touches(v, k + 1, w, 0x40000)
      ensures L3Table(t2, pool, w).None? <==> L3Table(t, pool, w).None? && !Touches(v, k + 1, w, 0x200)
    {
      TouchesMore(v, k, w, 0x40000);
      TouchesMore(v, k, w, 0x200);
      assert L2Table(t1, pool, w).None? <==> L2Table(t, pool, w).None? && !Touches(v, k, w, 0x40000);
      assert L2Table(t2, pool, w).None? <==> L2Table(t1, pool, w).None? && w / 0x40000 != (v + k) / 0x40000;
      assert L3Table(t2, pool, w).None? <==> L3Table(t1, pool, w).None? && w / 0x200 != (v + k) / 0x200;
    }
  }

  lemma RunMissing(t: seq<nat>, t1: seq<nat>, pool: Pool, v: nat, k: nat)
    requires Sized(t, pool) && Sized(t1, pool) && v + k < PAGE_NUMBERS && RunOpened(t, t1, pool, v, k)
    ensures Missing(t1, pool, v + k) == NewTables(t, pool, v, k)
  {
    hide Sized, L2Table, L3Table;
    TouchesMore(v, k, v + k, 0x40000);
    TouchesMore(v, k, v + k, 0x200);
    MissingParts(t1, pool, v + k);
    assert L2Table(t1, pool, v + k).None? <==> L2Table(t, pool, v + k).None? && !Touches(v, k, v + k, 0x40000);
    assert L3Table(t1, pool, v + k).None? <==> L3Table(t, pool, v + k).None? && !Touches(v, k, v + k, 0x200);
  }

  lemma MissingParts(t: seq<nat>, pool: Pool, w: nat)
    requires Sized(t, pool) && w < PAGE_NUMBERS
    ensures Missing(t, pool, w) ==
      (if L2Table(t, pool, w).None? then 1 else 0) + (if L3Table(t, pool, w).None? then 1 else 0)
  {
  }

  // ----- Missing tables as a set -----

  /** A 1 GB block of a level 2 table, or a 2 MB block of a level 3 table. */
  datatype Block = Giga(n: nat) | Mega(n: nat)

  /** The blocks that n pages from v touch and that t has no table for. */
  ghost function Lacking(t: seq<nat>, pool: Pool, v: nat, n: nat): set<Block>
    requires Sized(t, pool) && v + n <= PAGE_NUMBERS
  {
    (set w: nat | v <= w < v + n && L2Table(t, pool, w).None? :: Giga(w / 0x40000)) +
    (set w: nat | v <= w < v + n && L3Table(t, pool, w).None? :: Mega(w / 0x200))
  }

  /** The tables of a page are those of its blocks. */
  lemma SameTablesInBlock(t: seq<nat>, pool: Pool, v: nat, w: nat)
    requires Sized(t, pool) && v < PAGE_NUMBERS && w < PAGE_NUMBERS
    ensures v / 0x40000 == w / 0x40000 ==> L2Table(t, pool, v) == L2Table(t, pool, w)
    ensures v / 0x200 == w / 0x200 ==> L3Table(t, pool, v) == L3Table(t, pool, w)
  {
    SameBlock(v, w);
  }

  lemma InLacking(t: seq<nat>, pool: Pool, v: nat, n: nat, w: nat)
    requires Sized(t, pool) && v + n <= PAGE_NUMBERS && w < PAGE_NUMBERS
    ensures Giga(w / 0x40000) in Lacking(t, pool, v, n) <==> L2Table(t, pool, w).None? && Touches(v, n, w, 0x40000)
    ensures Mega(w / 0x200) in Lacking(t, pool, v, n) <==> L3Table(t, pool, w).None? && Touches(v, n, w, 0x200)
  {
    hide Sized, L2Table, L3Table;
    forall x: nat | v <= x < v + n
      ensures x / 0x40000 == w / 0x40000 ==> L2Table(t, pool, x) == L2Table(t, pool, w)
      ensures x / 0x200 == w / 0x200 ==> L3Table(t, pool, x) == L3Table(t, pool, w)
    {
      SameTablesInBlock(t, pool, x, w);
    }
    if Touches(v, n, w, 0x40000) {
      var x := Meet(v, n, w, 0x40000);
    }
    if Touches(v, n, w, 0x200) {
      var x := Meet(v, n, w, 0x200);
    }
  }

  /** A page of the run in the block of w. */
  lemma Meet(v: nat, n: nat, w: nat, size: nat) returns (x: nat)
    requires (size == 0x40000 || size == 0x200) && Touches(v, n, w, size)
    ensures v <= x < v + n && x / size == w / size
  {
    x := if w < v then v else if w < v + n then w else v + n - 1;
  }

  /** TablesNeeded counts exactly these blocks. */
  lemma {:induction false} LackingCounts(t: seq<nat>, pool: Pool, v: nat, n: nat)
    requires Sized(t, pool) && v + n <= PAGE_NUMBERS
    ensures |Lacking(t, pool, v, n)| == TablesNeeded(t, pool, v, n)
    decreases n
  {
    hide Sized, L2Table, L3Table, NewTables, Lacking;
    if n == 0 {
      LackingNone(t, pool, v);
    } else {
      LackingCounts(t, pool, v, n - 1);
      LackingGrows(t, pool, v, n - 1);
    }
  }

  lemma LackingNone(t: seq<nat>, pool: Pool, v: nat)
    requires Sized(t, pool) && v <= PAGE_NUMBERS
    ensures Lacking(t, pool, v, 0) == {}
  {
  }

  function IfMissing(b: Block, missing: bool): set<Block> {
    if missing then {b} else {}
  }

  lemma CountWith(s: set<Block>, b: Block, missing: bool)
    ensures |s + IfMissing(b, missing)| == |s| + if missing && b !in s then 1 else 0
  {
    if b in s {
      assert s + IfMissing(b, missing) == s;
    } else if !missing {
      assert s + IfMissing(b, missing) == s;
    }
  }

  lemma LackingStep(t: seq<nat>, pool: Pool, v: nat, k: nat)
    requires Sized(t, pool) && v + k < PAGE_NUMBERS
    ensures var w := v + k;
      Lacking(t, pool, v, k + 1) ==
        Lacking(t, pool, v, k) + IfMissing(Giga(w / 0x40000), L2Table(t, pool, w).None?)
          + IfMissing(Mega(w / 0x200), L3Table(t, pool, w).None?)
  {
    hide Sized, L2Table, L3Table;
  }

  lemma LackingGrows(t: seq<nat>, pool: Pool, v: nat, k: nat)
    requires Sized(t, pool) && v + k < PAGE_NUMBERS
    ensures |Lacking(t, pool, v, k + 1)| == |Lacking(t, pool, v, k)| + NewTables(t, pool, v, k)
  {
    hide Sized, L2Table, L3Table, Lacking, IfMissing;
    var w, before := v + k, Lacking(t, pool, v, k);
    var giga, mega := Giga(w / 0x40000), Mega(w / 0x200);
    LackingStep(t, pool, v, k);
    InLacking(t, pool, v, k, w);
    TouchesMore(v, k, w, 0x40000);
    TouchesMore(v, k, w, 0x200);
    CountWith(before, giga, L2Table(t, pool, w).None?);
    CountWith(before + IfMissing(giga, L2Table(t, pool, w).None?), mega, L3Table(t, pool, w).None?);
    assert mega in before + IfMissing(giga, L2Table(t, pool, w).None?) <==> mega in before by {
      NotGiga(giga, mega, L2Table(t, pool, w).None?);
    }
  }

  lemma NotGiga(giga: Block, mega: Block, missing: bool)
    requires giga.Giga? && mega.Mega?
    ensures mega !in IfMissing(giga, missing)
  {
  }

  /** Once the run has its tables, t' lacks what t lacked but these blocks. */
  lemma OpenedLacks(t: seq<nat>, t': seq<nat>, pool: Pool, v: nat, k: nat, w: nat)
    requires Sized(t, pool) && Sized(t', pool) && v + k <= PAGE_NUMBERS && w < PAGE_NUMBERS
    requires RunOpened(t, t', pool, v, k)
    ensures L2Table(t', pool, w).None? <==> L2Table(t, pool, w).None? && Giga(w / 0x40000) !in Lacking(t, pool, v, k)
    ensures L3Table(t', pool, w).None? <==> L3Table(t, pool, w).None? && Mega(w / 0x200) !in Lacking(t, pool, v, k)
  {
    hide Sized, L2Table, L3Table, Lacking;
    InLacking(t, pool, v, k, w);
    assert L2Table(t', pool, w).None? <==> L2Table(t, pool, w).None? && !Touches(v, k, w, 0x40000);
    assert L3Table(t', pool, w).None? <==> L3Table(t, pool, w).None? && !Touches(v, k, w, 0x200);
  }

  lemma {:induction false} NeededGrows(t: seq<nat>, pool: Pool, v: nat, k: nat, n: nat)
    requires Sized(t, pool) && k <= n && v + n <= PAGE_NUMBERS
    ensures TablesNeeded(t, pool, v, k) <= TablesNeeded(t, pool, v, n)
    decreases n
  {
    if k < n {
      NeededGrows(t, pool, v, k, n - 1);
    }
  }

  /** How many 1 GB blocks plus 2 MB blocks n pages from v touch. */
  function BlocksTouched(v: nat, n: nat): nat {
    if n == 0 then 0
    else ((v + n - 1) / 0x40000 - v / 0x40000 + 1) + ((v + n - 1) / 0x200 - v / 0x200 + 1)
  }

  /** Whatever the tables hold already, a run never costs more than one table per block it touches. */
  lemma {:induction false} BlocksSuffice(t: seq<nat>, pool: Pool, v: nat, n: nat)
    requires Sized(t, pool) && v + n <= PAGE_NUMBERS
    ensures TablesNeeded(t, pool, v, n) <= BlocksTouched(v, n)
    decreases n
  {
    if n == 1 {
      assert TablesNeeded(t, pool, v, 0) == 0;
    } else if n > 1 {
      BlocksSuffice(t, pool, v, n - 1);
      NewTablesAtEdges(t, pool, v, n - 1);
    }
  }

  lemma NewTablesAtEdges(t: seq<nat>, pool: Pool, v: nat, i: nat)
    requires Sized(t, pool) && 1 <= i && v + i < PAGE_NUMBERS
    ensures NewTables(t, pool, v, i) <=
      ((v + i) / 0x40000 - (v + i - 1) / 0x40000) + ((v + i) / 0x200 - (v + i - 1) / 0x200)
  {
  }

  /** What one successful stage2_next_table on slot e does. */
  ghost predicate NextTo(t: seq<nat>, t': seq<nat>, pool: Pool, tree: Tree, tree': Tree, e: nat, page: nat) {
    IsTree(t, pool, tree) && IsTree(t', pool, tree') && e < |tree.level| * DESCS_PER_TABLE &&
    if IsTableOrPage(t[e]) then pool.DescToTable(t[e]) == Some(page) && t' == t && tree' == tree
    else page == |tree.level| && tree' == Grown(tree, e) && Hung(t, t', pool, e, page)
  }

  lemma NotTable(pool: Pool, desc: nat)
    ensures !IsTableOrPage(desc) ==> pool.DescToTable(desc) == None
  {
  }

  /** After the level 1 step the level 2 table is in place. */
  lemma NextLevel(t0: seq<nat>, t1: seq<nat>, pool: Pool, tree0: Tree, tree1: Tree, v: nat, l2: nat)
    requires v < PAGE_NUMBERS && NextTo(t0, t1, pool, tree0, tree1, L1Slot(v), l2)
    ensures L2Table(t1, pool, v) == Some(l2) && l2 < |tree1.level| && tree1.level[l2] == 2
    ensures |tree1.level| == |tree0.level| + if L2Table(t0, pool, v).None? then 1 else 0
    ensures t1[L2Slot(l2, v)] == DESC_INVALID || IsTableOrPage(t1[L2Slot(l2, v)])
    ensures L3Table(t1, pool, v) == L3Table(t0, pool, v)
  {
    NotTable(pool, t0[L1Slot(v)]);
    WalkInTree(t0, pool, tree0, v);
    assert L2Table(t1, pool, v) == Some(l2);
    WalkInTree(t1, pool, tree1, v);
    assert Branch(t1, pool, tree1, L2Slot(l2, v));
    if !IsTableOrPage(t0[L1Slot(v)]) {
      assert L3Table(t0, pool, v).None?;
    }
  }

  /** The level 2 step found no entry and no free page. */
  lemma NextMissing(t0: seq<nat>, t1: seq<nat>, pool: Pool, tree0: Tree, tree1: Tree, v: nat, l2: nat)
    requires v < PAGE_NUMBERS && NextTo(t0, t1, pool, tree0, tree1, L1Slot(v), l2)
    requires L2Slot(l2, v) < |t1| && !IsTableOrPage(t1[L2Slot(l2, v)])
    ensures |tree0.level| + Missing(t0, pool, v) == |tree1.level| + 1
  {
    NextLevel(t0, t1, pool, tree0, tree1, v, l2);
    NotTable(pool, t1[L2Slot(l2, v)]);
  }

  /** Both steps together: v has its tables, its block's neighbours share them, nobody else's changed. */
  lemma NextTwice(t0: seq<nat>, t1: seq<nat>, t2: seq<nat>, pool: Pool, tree0: Tree, tree1: Tree, tree2: Tree,
                  v: nat, l2: nat, l3: nat)
    requires v < PAGE_NUMBERS && NextTo(t0, t1, pool, tree0, tree1, L1Slot(v), l2)
    requires NextTo(t1, t2, pool, tree1, tree2, L2Slot(l2, v), l3)
    ensures L3Table(t2, pool, v) == Some(l3)
    ensures |tree2.level| == |tree0.level| + Missing(t0, pool, v)
    ensures Opened(t0, t2, pool, v)
  {
    NextLevel(t0, t1, pool, tree0, tree1, v, l2);
    NotTable(pool, t1[L2Slot(l2, v)]);
    if !IsTableOrPage(t1[L2Slot(l2, v)]) {
      assert L2Slot(l2, v) != L1Slot(v) by { WalkInTree(t1, pool, tree1, v); }
      assert L2Table(t2, pool, v) == L2Table(t1, pool, v);
    }
    forall w: nat | w < PAGE_NUMBERS
      ensures L2Table(t2, pool, w).None? <==> L2Table(t0, pool, w).None? && w / 0x40000 != v / 0x40000
      ensures L3Table(t2, pool, w).None? <==> L3Table(t0, pool, w).None? && w / 0x200 != v / 0x200
    {
      NextTwiceElsewhere(t0, t1, t2, pool, tree0, tree1, tree2, v, l2, l3, w);
    }
  }

  lemma FirstStepElsewhere(t0: seq<nat>, t1: seq<nat>, pool: Pool, tree0: Tree, tree1: Tree, v: nat, l2: nat, w: nat)
    requires v < PAGE_NUMBERS && w < PAGE_NUMBERS && NextTo(t0, t1, pool, tree0, tree1, L1Slot(v), l2)
    ensures L2Table(t1, pool, w).None? <==> L2Table(t0, pool, w).None? && w / 0x40000 != v / 0x40000
    ensures L3Table(t1, pool, w) == L3Table(t0, pool, w)
  {
    NotTable(pool, t0[L1Slot(v)]);
    WalkInTree(t0, pool, tree0, w);
    if !IsTableOrPage(t0[L1Slot(v)]) {
      assert L2Table(t1, pool, w) == if L1Slot(w) == L1Slot(v) then Some(l2) else L2Table(t0, pool, w);
    }
  }

  lemma SameBlock(v: nat, w: nat)
    ensures v / 0x200 == w / 0x200 <==> v / 0x40000 == w / 0x40000 && v / 0x200 % 0x200 == w / 0x200 % 0x200
  {
    assert v / 0x200 / 0x200 == v / 0x40000;
    assert w / 0x200 / 0x200 == w / 0x40000;
  }

  lemma SecondStepElsewhere(t1: seq<nat>, t2: seq<nat>, pool: Pool, tree1: Tree, tree2: Tree,
                            v: nat, l2: nat, l3: nat, w: nat)
    requires v < PAGE_NUMBERS && w < PAGE_NUMBERS && IsTree(t1, pool, tree1) && L2Table(t1, pool, v) == Some(l2)
    requires NextTo(t1, t2, pool, tree1, tree2, L2Slot(l2, v), l3)
    ensures L2Table(t2, pool, w) == L2Table(t1, pool, w)
    ensures L3Table(t2, pool, w).None? <==> L3Table(t1, pool, w).None? && w / 0x200 != v / 0x200
  {
    hide Linked, Branch;
    WalkInTree(t1, pool, tree1, v);
    WalkInTree(t1, pool, tree1, w);
    SameBlock(v, w);
    if !IsTableOrPage(t1[L2Slot(l2, v)]) {
      assert L2Table(t2, pool, w) == L2Table(t1, pool, w);
      if L2Table(t1, pool, w).Some? && L2Slot(L2Table(t1, pool, w).value, w) == L2Slot(l2, v) {
        assert L2Table(t1, pool, w).value == L2Slot(l2, v) / DESCS_PER_TABLE == l2;
      }
    }
  }

  lemma NextTwiceElsewhere(t0: seq<nat>, t1: seq<nat>, t2: seq<nat>, pool: Pool,
                           tree0: Tree, tree1: Tree, tree2: Tree, v: nat, l2: nat, l3: nat, w: nat)
    requires v < PAGE_NUMBERS && NextTo(t0, t1, pool, tree0, tree1, L1Slot(v), l2)
    requires NextTo(t1, t2, pool, tree1, tree2, L2Slot(l2, v), l3) && w < PAGE_NUMBERS
    ensures L2Table(t2, pool, w).None? <==> L2Table(t0, pool, w).None? && w / 0x40000 != v / 0x40000
    ensures L3Table(t2, pool, w).None? <==> L3Table(t0, pool, w).None? && w / 0x200 != v / 0x200
  {
    NextLevel(t0, t1, pool, tree0, tree1, v, l2);
    FirstStepElsewhere(t0, t1, pool, tree0, tree1, v, l2, w);
    SecondStepElsewhere(t1, t2, pool, tree1, tree2, v, l2, l3, w);
  }

  /** A mapped page has all its tables. */
  lemma MappedHasTables(t: seq<nat>, pool: Pool, v: nat)
    requires Sized(t, pool) && v < PAGE_NUMBERS
    ensures v in PageMap(t, pool) ==> Missing(t, pool, v) == 0
    ensures Missing(t, pool, v) <= 2
  {
  }

  /** stage2_map_page's test of bit 0 tells exactly whether the page is mapped. */
  lemma LeafState(t: seq<nat>, pool: Pool, tree: Tree, v: nat)
    requires IsTree(t, pool, tree) && v < PAGE_NUMBERS && Walk(t, pool, v).Some?
    ensures Walk(t, pool, v).value < |t|
    ensures IsValid(t[Walk(t, pool, v).value]) <==> v in PageMap(t, pool)
  {
    var s := Walk(t, pool, v).value;
    WalkInTree(t, pool, tree, v);
    LowBits(t[s]);
    InvalidDesc(pool);
  }

  lemma OpenedThenFilled(t0: seq<nat>, t1: seq<nat>, t2: seq<nat>, pool: Pool, v: nat)
    requires Sized(t0, pool) && Sized(t1, pool) && Sized(t2, pool)
    requires Opened(t0, t1, pool, v) && SameTables(t1, t2, pool)
    ensures Opened(t0, t2, pool, v)
  {
  }

  lemma LookupIsMap(t: seq<nat>, pool: Pool, v: nat)
    requires Sized(t, pool) && v < PAGE_NUMBERS
    ensures var s := Walk(t, pool, v);
      if s.Some? && IsTableOrPage(t[s.value]) then
        v in PageMap(t, pool) && PageMap(t, pool)[v] == LeafOf(t[s.value])
      else v !in PageMap(t, pool)
  {
  }
}
