/** LRUManagedCache, its statistics objects and run_simulation, as the source updates them in place. */
module ManagedCache {
  import opened Recency
  import opened EvictionSpec
  import opened EvictionSim

  class QueryStats {
    var hits: nat
    var misses: nat
    var installs: nat
    var shortages: nat

    constructor ()
      ensures hits == misses == installs == shortages == 0
    {
      hits, misses, installs, shortages := 0, 0, 0, 0;
    }

    // The counters as part of a run's state.
    ghost function With(pool: Pool, evictions: nat): World
      reads this
    {
      World(pool, hits, misses, installs, shortages, evictions)
    }
  }

  class StepStats {
    var hits: nat
    var misses: nat
    var installs: nat
    var shortages: nat
    var step: int
    var cpuEvictions: nat
    var residentCount: nat
    var freeSlots: nat

    constructor (step: int, cpuEvictions: nat)
      ensures this.step == step && hits == misses == installs == shortages == 0
      ensures this.cpuEvictions == cpuEvictions
    {
      hits, misses, installs, shortages := 0, 0, 0, 0;
      this.step, this.cpuEvictions, residentCount, freeSlots := step, cpuEvictions, 0, 0;
    }

    ghost function With(pool: Pool): World
      reads this
    {
      World(pool, hits, misses, installs, shortages, cpuEvictions)
    }

    // The counters and the pool sizes recorded when the step ended.
    ghost predicate Records(w: World)
      reads this
    {
      With(w.pool) == w && residentCount == |w.pool.order| && freeSlots == |w.pool.free|
    }

    method Add(other: QueryStats)
      modifies this
      ensures hits == old(hits) + other.hits && misses == old(misses) + other.misses
      ensures installs == old(installs) + other.installs && shortages == old(shortages) + other.shortages
      ensures step == old(step) && cpuEvictions == old(cpuEvictions)
    {
      hits := hits + other.hits;
      misses := misses + other.misses;
      installs := installs + other.installs;
      shortages := shortages + other.shortages;
    }

    // total.add(step_stats) and the line after it.
    method AddStep(other: StepStats)
      requires other != this
      modifies this
      ensures hits == old(hits) + other.hits && misses == old(misses) + other.misses
      ensures installs == old(installs) + other.installs && shortages == old(shortages) + other.shortages
      ensures step == old(step) && cpuEvictions == old(cpuEvictions) + other.cpuEvictions
    {
      hits := hits + other.hits;
      misses := misses + other.misses;
      installs := installs + other.installs;
      shortages := shortages + other.shortages;
      cpuEvictions := cpuEvictions + other.cpuEvictions;
    }
  }

  class LRUManagedCache {
    var freeSlotTarget: nat
    var freeSlots: seq<int>
    var order: seq<TokenKey>
    var slotOf: map<TokenKey, int>

    ghost function Contents(): Pool
      reads this
    {
      Pool(freeSlotTarget, order, slotOf, freeSlots)
    }

    constructor (totalSlots: nat, target: nat)
      ensures Contents() == Fresh(totalSlots, target).pool
    {
      freeSlotTarget := if target <= totalSlots then target else totalSlots;
      freeSlots := Countdown(totalSlots);
      order, slotOf := [], map[];
    }

    // The constructor's argument checks: negative sizes are rejected, in this order.
    static method Create(totalSlots: int, target: int) returns (error: string, cache: LRUManagedCache?)
      ensures totalSlots < 0 ==> error == "total_slots must be non-negative" && cache == null
      ensures totalSlots >= 0 && target < 0 ==>
                error == "free_slot_target must be non-negative" && cache == null
      ensures totalSlots >= 0 && target >= 0 ==>
                error == "" && cache != null && fresh(cache) && cache.Contents() == Fresh(totalSlots, target).pool
    {
      if totalSlots < 0 {
        return "total_slots must be non-negative", null;
      }
      if target < 0 {
        return "free_slot_target must be non-negative", null;
      }
      error := "";
      cache := new LRUManagedCache(totalSlots, target);
    }

    method PrepareFreeSlots() returns (evicted: nat)
      modifies this
      ensures Contents() == EvictTo(old(Contents()), Need(old(Contents()))) && evicted == Need(old(Contents()))
    {
      ghost var p := Contents();
      evicted := 0;
      while |freeSlots| < freeSlotTarget && order != []
        invariant evicted <= Need(p) && Contents() == EvictTo(p, evicted)
        invariant freeSlotTarget == p.target
        invariant |order| == |p.order| - evicted && |freeSlots| == |p.free| + evicted
        decreases |order|
      {
        var t := order[0];
        order := order[1..];
        freeSlots := freeSlots + [SlotAt(slotOf, t)];
        slotOf := slotOf - {t};
        evicted := evicted + 1;
      }
    }

    // One token of resolve_query.
    method ResolveOne(token: TokenKey, stats: QueryStats)
      modifies this, stats
      ensures stats.With(Contents(), 0) == Apply(old(stats.With(Contents(), 0)), Use(token))
    {
      if token in slotOf {
        stats.hits := stats.hits + 1;
        order := Without(order, token) + [token];
        return;
      }
      stats.misses := stats.misses + 1;
      if freeSlots != [] {
        slotOf := slotOf[token := Last(freeSlots)];
        order := order + [token];
        freeSlots := freeSlots[..|freeSlots| - 1];
        stats.installs := stats.installs + 1;
      } else {
        stats.shortages := stats.shortages + 1;
      }
    }

    // The counters start at zero and end as those of a run over the listed tokens.
    method ResolveQuery(tokens: seq<TokenKey>) returns (stats: QueryStats)
      modifies this
      ensures fresh(stats)
      ensures stats.With(Contents(), 0) == Run(Started(old(Contents()), 0), Uses(tokens))
    {
      ghost var w := Started(Contents(), 0);
      stats := new QueryStats();
      for i := 0 to |tokens|
        invariant fresh(stats) && stats.With(Contents(), 0) == RunTo(w, Uses(tokens), i)
      {
        UsesNext(w, tokens, i + 1);
        ResolveOne(tokens[i], stats);
      }
    }
  }

  // The pool once room has been made.
  ghost function Prepared(p: Pool): Pool {
    EvictTo(p, Need(p))
  }

  function Started(pool: Pool, evictions: nat): World {
    World(pool, 0, 0, 0, 0, evictions)
  }

  // The request loop of one step.
  method ResolveRequests(cache: LRUManagedCache, lists: seq<seq<TokenKey>>, stats: StepStats)
    requires (stats as object) != cache
    modifies cache, stats
    ensures stats.With(cache.Contents()) ==
            Run(old(stats.With(cache.Contents())), RequestEvents(lists, |lists|))
    ensures stats.step == old(stats.step)
  {
    ghost var w := stats.With(cache.Contents());
    for r := 0 to |lists|
      invariant stats.step == old(stats.step)
      invariant stats.With(cache.Contents()) == Run(w, RequestEvents(lists, r))
    {
      RequestRun(w, lists, r);
      var q := cache.ResolveQuery(lists[r]);
      stats.Add(q);
    }
  }

  // One step of the simulation: make room, then resolve every request's list. ready is the pool in between.
  method RunStep(cache: LRUManagedCache, lists: seq<seq<TokenKey>>, step: int)
    returns (stats: StepStats, ghost ready: Pool)
    modifies cache
    ensures fresh(stats) && stats.step == step && (stats as object) != cache
    ensures stats.Records(Run(Started(old(cache.Contents()), 0), StepEvents(lists)))
    ensures cache.Contents() == Run(Started(old(cache.Contents()), 0), StepEvents(lists)).pool
    ensures ready == Prepared(old(cache.Contents()))
  {
    StepRun(Started(cache.Contents(), 0), lists);
    var evicted := cache.PrepareFreeSlots();
    ready := cache.Contents();
    stats := new StepStats(step, evicted);
    ResolveRequests(cache, lists, stats);
    stats.residentCount := |cache.order|;
    stats.freeSlots := |cache.freeSlots|;
  }

  lemma StepRun(w: World, lists: seq<seq<TokenKey>>)
    ensures Run(w, StepEvents(lists)) == Run(Apply(w, Prepare), RequestEvents(lists, |lists|))
  {
    AppendRun(w, [Prepare], RequestEvents(lists, |lists|));
    assert RunTo(w, [Prepare], 0) == w;
    assert Run(w, [Prepare]) == Apply(w, Prepare);
  }

  lemma RequestRun(w: World, lists: seq<seq<TokenKey>>, r: nat)
    requires r < |lists|
    ensures var v := Run(w, RequestEvents(lists, r));
            Run(w, RequestEvents(lists, r + 1)) == Plus(Run(Started(v.pool, 0), Uses(lists[r])), v)
  {
    AppendRun(w, RequestEvents(lists, r), Uses(lists[r]));
  }

  lemma WorkloadRun(w: World, workload: seq<seq<seq<TokenKey>>>, s: nat)
    requires s < |workload|
    ensures Run(w, WorkloadEvents(workload, s + 1)) ==
            Plus(StepWorld(w, workload, s), Run(w, WorkloadEvents(workload, s)))
  {
    AppendRun(w, WorkloadEvents(workload, s), StepEvents(workload[s]));
  }

  // What step s adds to the totals.
  ghost function StepWorld(w: World, workload: seq<seq<seq<TokenKey>>>, s: nat): World
    requires s < |workload|
  {
    Run(Zeroed(Run(w, WorkloadEvents(workload, s))), StepEvents(workload[s]))
  }

  // Step s, and its counters added to the totals.
  method CountStep(c: Config, workload: seq<seq<seq<TokenKey>>>, s: nat, cache: LRUManagedCache, total: StepStats)
    returns (stats: StepStats, ghost ready: Pool)
    requires (total as object) != cache && s < |workload|
    requires total.With(cache.Contents()) == Before(c, workload, s)
    modifies cache, total
    ensures fresh(stats) && (stats as object) != cache
    ensures stats.step == s && stats.Records(StepWorld(Fresh(TotalSlots(c), FreeSlotTarget(c)), workload, s))
    ensures total.With(cache.Contents()) == Before(c, workload, s + 1)
    ensures ready == Prepared(Before(c, workload, s).pool)
  {
    WorkloadRun(Fresh(TotalSlots(c), FreeSlotTarget(c)), workload, s);
    stats, ready := RunStep(cache, workload[s], s);
    total.AddStep(stats);
  }

  // The pools between the prepare and the queries of each step.
  ghost predicate AllReady(c: Config, workload: seq<seq<seq<TokenKey>>>, readies: seq<Pool>) {
    && |readies| <= |workload|
    && forall s | 0 <= s < |readies| :: readies[s] == Prepared(Before(c, workload, s).pool)
  }

  // The records of the steps, in order.
  ghost predicate AllRecorded(c: Config, workload: seq<seq<seq<TokenKey>>>, steps: seq<StepStats>)
    requires |steps| <= |workload|
    reads steps
  {
    forall s | 0 <= s < |steps| ::
      steps[s].step == s && steps[s].Records(StepWorld(Fresh(TotalSlots(c), FreeSlotTarget(c)), workload, s))
  }

  // No query of the first s steps runs short.
  ghost predicate NoneShort(c: Config, workload: seq<seq<seq<TokenKey>>>, s: nat)
    requires s <= |workload|
  {
    forall i | 0 <= i < s :: StepWorld(Fresh(TotalSlots(c), FreeSlotTarget(c)), workload, i).shortages == 0
  }

  lemma {:induction false} NoneShortBefore(c: Config, workload: seq<seq<seq<TokenKey>>>, s: nat)
    requires s <= |workload| && NoneShort(c, workload, s)
    ensures Before(c, workload, s).shortages == 0
  {
    var w := Fresh(TotalSlots(c), FreeSlotTarget(c));
    if s == 0 {
      assert Before(c, workload, 0) == w;
    } else {
      NoneShortBefore(c, workload, s - 1);
      WorkloadRun(w, workload, s - 1);
    }
  }

  lemma ReadyIsMostRecent(c: Config, workload: seq<seq<seq<TokenKey>>>, readies: seq<Pool>)
    requires AllReady(c, workload, readies) && |readies| == |workload|
    ensures forall s | 0 <= s < |workload| && NoneShort(c, workload, s) ::
              MostRecent(readies[s].order, UsedTokens(workload, s), KeptSlots(c))
  {
    forall s | 0 <= s < |workload| && NoneShort(c, workload, s)
      ensures MostRecent(readies[s].order, UsedTokens(workload, s), KeptSlots(c))
    {
      NoneShortBefore(c, workload, s);
      PreparedResidents(c, workload, s);
    }
  }

  lemma ReadyNext(c: Config, workload: seq<seq<seq<TokenKey>>>, readies: seq<Pool>, ready: Pool)
    requires AllReady(c, workload, readies) && |readies| < |workload|
    requires ready == Prepared(Before(c, workload, |readies|).pool)
    ensures AllReady(c, workload, readies + [ready])
  {
  }

  lemma RecordedNext(c: Config, workload: seq<seq<seq<TokenKey>>>, steps: seq<StepStats>, stats: StepStats)
    requires |steps| < |workload| && AllRecorded(c, workload, steps) && stats.step == |steps|
    requires stats.Records(StepWorld(Fresh(TotalSlots(c), FreeSlotTarget(c)), workload, |steps|))
    ensures AllRecorded(c, workload, steps + [stats])
  {
  }

  // The next step, its record and the pool in between.
  method NextStep(c: Config, workload: seq<seq<seq<TokenKey>>>, cache: LRUManagedCache, total: StepStats,
                  before: seq<StepStats>, ghost pools: seq<Pool>)
    returns (steps: seq<StepStats>, ghost readies: seq<Pool>)
    requires (total as object) != cache && total !in before && |before| == |pools| < |workload|
    requires total.With(cache.Contents()) == Before(c, workload, |before|)
    requires AllRecorded(c, workload, before) && AllReady(c, workload, pools)
    modifies cache, total
    ensures total !in steps && |steps| == |readies| == |before| + 1
    ensures total.With(cache.Contents()) == Before(c, workload, |steps|)
    ensures AllRecorded(c, workload, steps) && AllReady(c, workload, readies)
  {
    var stats;
    ghost var ready;
    stats, ready := CountStep(c, workload, |before|, cache, total);
    RecordedNext(c, workload, before, stats);
    ReadyNext(c, workload, pools, ready);
    steps, readies := before + [stats], pools + [ready];
  }

  // run_simulation on a given workload: the cache, the totals and every step record are those of the run;
  // and until a query runs short, the pool that each step starts its queries with holds exactly the most
  // recently used tokens that the configured sizes leave room for.
  method RunSimulation(c: Config, workload: seq<seq<seq<TokenKey>>>)
    returns (cache: LRUManagedCache, steps: seq<StepStats>, total: StepStats, ghost readies: seq<Pool>)
    ensures var w := Fresh(TotalSlots(c), FreeSlotTarget(c));
            && cache.Contents() == Run(w, WorkloadEvents(workload, |workload|)).pool
            && total.Records(Run(w, WorkloadEvents(workload, |workload|)))
            && |steps| == |workload|
            && forall s | 0 <= s < |steps| :: steps[s].step == s && steps[s].Records(StepWorld(w, workload, s))
    ensures |readies| == |workload|
    ensures forall s | 0 <= s < |workload| && (forall i | 0 <= i < s :: steps[i].shortages == 0) ::
              MostRecent(readies[s].order, UsedTokens(workload, s), KeptSlots(c))
  {
    cache := new LRUManagedCache(TotalSlots(c), FreeSlotTarget(c));
    total := new StepStats(-1, 0);
    steps, readies := [], [];
    for s := 0 to |workload|
      invariant fresh(cache) && fresh(total) && (total as object) != cache
      invariant total !in steps && |steps| == |readies| == s
      invariant total.With(cache.Contents()) == Before(c, workload, s)
      invariant AllRecorded(c, workload, steps) && AllReady(c, workload, readies)
    {
      steps, readies := NextStep(c, workload, cache, total, steps, readies);
    }
    total.residentCount := |cache.order|;
    total.freeSlots := |cache.freeSlots|;
    ReadyIsMostRecent(c, workload, readies);
    assert forall s | 0 <= s < |workload| && (forall i | 0 <= i < s :: steps[i].shortages == 0) ::
        NoneShort(c, workload, s);
  }
}
