/** The loop of hv_stage2_map_region as a statement about tables: after k pages of a run starting at
    page number v, what the tables map and how many pool pages they hold, told from the tables before. */
module PageRuns {
  import opened Descriptors
  import opened PageTable
  import opened TableCount
  import opened Regions

  ghost predicate AfterRun(pool: Pool, t0: seq<nat>, used0: nat, t: seq<nat>, used: nat,
                           v: nat, pa: nat, attrs: nat, k: nat)
    requires Sized(t0, pool) && Sized(t, pool) && v + k <= PAGE_NUMBERS
  {
    PageMap(t, pool) == PageMap(t0, pool) + PageRun(v, pa, attrs, k) &&
    (forall w: nat | w in PageMap(t0, pool) :: !(v <= w < v + k)) &&
    RunOpened(t0, t, pool, v, k) &&
    used == used0 + TablesNeeded(t0, pool, v, k)
  }

  lemma RunStart(pool: Pool, t0: seq<nat>, used0: nat, v: nat, pa: nat, attrs: nat)
    requires Sized(t0, pool) && v <= PAGE_NUMBERS
    ensures AfterRun(pool, t0, used0, t0, used0, v, pa, attrs, 0)
  {
    assert PageMap(t0, pool) + PageRun(v, pa, attrs, 0) == PageMap(t0, pool);
  }

  /** What it means for page k of the run to fail, in terms of the tables before the run. */
  lemma RunFailure(pool: Pool, t0: seq<nat>, used0: nat, t: seq<nat>, used: nat, v: nat, pa: nat, attrs: nat, k: nat)
    requires Sized(t0, pool) && Sized(t, pool) && v + k < PAGE_NUMBERS
    requires AfterRun(pool, t0, used0, t, used, v, pa, attrs, k)
    ensures v + k in PageMap(t, pool) <==> v + k in PageMap(t0, pool)
    ensures used + Missing(t, pool, v + k) == used0 + TablesNeeded(t0, pool, v, k + 1)
  {
    RunMissing(t0, t, pool, v, k);
  }

  lemma RunSuccess(pool: Pool, t0: seq<nat>, used0: nat, t: seq<nat>, used: nat, t': seq<nat>, used': nat,
                   v: nat, pa: nat, attrs: nat, k: nat)
    requires Sized(t0, pool) && Sized(t, pool) && Sized(t', pool) && v + k < PAGE_NUMBERS
    requires AfterRun(pool, t0, used0, t, used, v, pa, attrs, k) && v + k !in PageMap(t0, pool)
    requires PageMap(t', pool) == PageMap(t, pool)[v + k := PageLeaf(pa + k * PAGE_SIZE, attrs)]
    requires Opened(t, t', pool, v + k) && used' == used + Missing(t, pool, v + k)
    ensures AfterRun(pool, t0, used0, t', used', v, pa, attrs, k + 1)
  {
    hide RunOpened, Opened, PageMap, PageRun, Missing;
    RunFailure(pool, t0, used0, t, used, v, pa, attrs, k);
    RunStep(t0, t, t', pool, v, k);
    PageRunGrows(PageMap(t0, pool), v, pa, attrs, k);
  }

  lemma RunResult(pool: Pool, t0: seq<nat>, used0: nat, t: seq<nat>, used: nat, v: nat, pa: nat, attrs: nat, k: nat)
    requires Sized(t0, pool) && Sized(t, pool) && v + k <= PAGE_NUMBERS
    requires AfterRun(pool, t0, used0, t, used, v, pa, attrs, k)
    ensures PageMap(t, pool) == PageMap(t0, pool) + PageRun(v, pa, attrs, k)
    ensures forall w: nat | w in PageMap(t0, pool) :: !(v <= w < v + k)
    ensures used == used0 + TablesNeeded(t0, pool, v, k) && RunOpened(t0, t, pool, v, k)
  {
  }
}
