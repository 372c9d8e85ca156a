/** The managed-token pool of the eviction simulator as a state machine over prepare and use events, and
    its invariants over every run. */
module EvictionSpec {
  import opened Compaction
  import opened Recency

  datatype TokenKey = TokenKey(reqId: nat, tokenId: nat)

  // Residents in LRU order with their slots, and the stack of free slots (the top is the last entry).
  datatype Pool = Pool(target: nat, order: seq<TokenKey>, slotOf: map<TokenKey, int>, free: seq<int>)

  datatype Event = Prepare | Use(token: TokenKey)

  datatype World = World(pool: Pool, hits: nat, misses: nat, installs: nat, shortages: nat, evictions: nat)

  function SlotAt(slotOf: map<TokenKey, int>, t: TokenKey): int {
    if t in slotOf then slotOf[t] else -1
  }

  // popitem(last=False), then push the slot.
  function EvictOne(p: Pool): Pool {
    if p.order == [] then p
    else
      var t := p.order[0];
      Pool(p.target, p.order[1..], p.slotOf - {t}, p.free + [SlotAt(p.slotOf, t)])
  }

  function EvictTo(p: Pool, k: nat): Pool {
    if k == 0 then p else EvictOne(EvictTo(p, k - 1))
  }

  // How many evictions the free target asks for and the residents allow.
  function Need(p: Pool): (k: nat)
    ensures k <= |p.order|
  {
    if |p.free| >= p.target then 0
    else if p.target - |p.free| <= |p.order| then p.target - |p.free| else |p.order|
  }

  function Resolve(p: Pool, t: TokenKey): Pool {
    if t in p.slotOf then p.(order := Without(p.order, t) + [t])
    else if p.free == [] then p
    else Pool(p.target, p.order + [t], p.slotOf[t := Last(p.free)], p.free[..|p.free| - 1])
  }

  function Apply(w: World, e: Event): World {
    match e
    case Prepare =>
      World(EvictTo(w.pool, Need(w.pool)), w.hits, w.misses, w.installs, w.shortages,
            w.evictions + Need(w.pool))
    case Use(t) =>
      var p := Resolve(w.pool, t);
      if t in w.pool.slotOf then World(p, w.hits + 1, w.misses, w.installs, w.shortages, w.evictions)
      else if w.pool.free == [] then World(p, w.hits, w.misses + 1, w.installs, w.shortages + 1, w.evictions)
      else World(p, w.hits, w.misses + 1, w.installs + 1, w.shortages, w.evictions)
  }

  function RunTo(w: World, events: seq<Event>, n: nat): World
    requires n <= |events|
  {
    if n == 0 then w else Apply(RunTo(w, events, n - 1), events[n - 1])
  }

  function Countdown(n: nat): (s: seq<int>)
    ensures |s| == n
  {
    seq(n, k requires 0 <= k < n => n - 1 - k)
  }

  function Fresh(total: nat, target: nat): World {
    World(Pool(if target <= total then target else total, [], map[], Countdown(total)), 0, 0, 0, 0, 0)
  }

  // ---- the pool invariant --------------------------------------------------------------------------

  ghost predicate Slots(p: Pool, total: nat) {
    && |p.free| + |p.order| == total
    && Distinct(p.free) && (forall i | 0 <= i < |p.free| :: 0 <= p.free[i] < total)
    && (forall t | t in p.slotOf :: 0 <= p.slotOf[t] < total && p.slotOf[t] !in p.free)
    && (forall t, u | t in p.slotOf && u in p.slotOf && p.slotOf[t] == p.slotOf[u] :: t == u)
  }

  // Residents and slot map agree, and free slots and held slots split the pool.
  ghost predicate Valid(p: Pool, total: nat) {
    && p.target <= total
    && Distinct(p.order) && (forall t :: t in p.slotOf <==> t in p.order)
    && Slots(p, total)
  }

  lemma EvictOneKeeps(p: Pool, total: nat)
    requires Valid(p, total)
    ensures Valid(EvictOne(p), total)
  {
    if p.order != [] {
      assert p.order[0] in p.slotOf;
    }
  }

  lemma ResolveKeeps(p: Pool, total: nat, t: TokenKey)
    requires Valid(p, total)
    ensures Valid(Resolve(p, t), total)
  {
    if t in p.slotOf {
      WithoutDistinct(p.order, t);
      forall u
        ensures u in Without(p.order, t) <==> u in p.order && u != t
      {
        WithoutMembers(p.order, t, u);
      }
    } else if p.free != [] {
      assert Last(p.free) in p.free && Last(p.free) !in p.free[..|p.free| - 1];
    }
  }

  lemma {:induction false} EvictToKeeps(p: Pool, total: nat, k: nat)
    requires Valid(p, total) && k <= |p.order|
    ensures Valid(EvictTo(p, k), total)
    ensures EvictTo(p, k).order == p.order[k..] && EvictTo(p, k).target == p.target
  {
    if k > 0 {
      EvictToKeeps(p, total, k - 1);
      EvictOneKeeps(EvictTo(p, k - 1), total);
    }
  }

  lemma ApplyKeeps(w: World, total: nat, e: Event)
    requires Valid(w.pool, total)
    ensures Valid(Apply(w, e).pool, total)
  {
    match e
    case Prepare => EvictToKeeps(w.pool, total, Need(w.pool));
    case Use(t) => ResolveKeeps(w.pool, total, t);
  }

  lemma FreshValid(total: nat, target: nat)
    ensures Valid(Fresh(total, target).pool, total)
  {
  }

  // Over every run the pool is conserved: free and held slots split it, and every install is either
  // still resident or was evicted.
  lemma {:induction false} RunKeeps(total: nat, target: nat, events: seq<Event>, n: nat)
    requires n <= |events|
    ensures var w := RunTo(Fresh(total, target), events, n);
            && Valid(w.pool, total)
            && w.pool.target == Fresh(total, target).pool.target
            && w.installs == w.evictions + |w.pool.order|
            && w.misses == w.installs + w.shortages
            && w.hits + w.misses == |History(events, n)|
  {
    if n == 0 {
      FreshValid(total, target);
    } else {
      RunKeeps(total, target, events, n - 1);
      var w := RunTo(Fresh(total, target), events, n - 1);
      ApplyKeeps(w, total, events[n - 1]);
      CountsMove(w, total, events[n - 1]);
    }
  }

  lemma CountsMove(w: World, total: nat, e: Event)
    requires Valid(w.pool, total)
    ensures var r := Apply(w, e);
            && r.pool.target == w.pool.target
            && r.installs - r.evictions - |r.pool.order| == w.installs - w.evictions - |w.pool.order|
            && r.misses - r.installs - r.shortages == w.misses - w.installs - w.shortages
            && r.hits + r.misses == w.hits + w.misses + if e.Use? then 1 else 0
  {
    match e
    case Prepare => EvictToKeeps(w.pool, total, Need(w.pool));
    case Use(t) =>
      if t in w.pool.slotOf {
        WithoutDistinct(w.pool.order, t);
      }
  }

  // Every slot of the pool is free or held by exactly one resident.
  lemma SlotsCovered(p: Pool, total: nat, slot: int)
    requires Valid(p, total) && 0 <= slot < total
    ensures slot in p.free || exists t :: t in p.slotOf && p.slotOf[t] == slot
  {
    var held := seq(|p.order|, i requires 0 <= i < |p.order| => SlotAt(p.slotOf, p.order[i]));
    forall i | 0 <= i < |held|
      ensures 0 <= held[i] < total && held[i] !in p.free
    {
      assert p.order[i] in p.slotOf;
    }
    forall i, j | 0 <= i < j < |p.free + held|
      ensures (p.free + held)[i] != (p.free + held)[j]
    {
      if i >= |p.free| {
        assert p.order[i - |p.free|] in p.slotOf && p.order[j - |p.free|] in p.slotOf;
      } else if j >= |p.free| {
        assert (p.free + held)[i] in p.free;
      }
    }
    DistinctCovers(p.free + held, slot);
    var k :| 0 <= k < |p.free + held| && (p.free + held)[k] == slot;
    if k >= |p.free| {
      assert p.order[k - |p.free|] in p.slotOf;
    }
  }

  // The tokens used so far, in order.
  function History(events: seq<Event>, n: nat): seq<TokenKey>
    requires n <= |events|
  {
    if n == 0 then []
    else if events[n - 1].Use? then History(events, n - 1) + [events[n - 1].token]
    else History(events, n - 1)
  }
}
