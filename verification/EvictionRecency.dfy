/** What the simulator's pool holds: exactly the most recent distinct tokens. Consequences: the stack
    property, and when shortages cannot happen. */
module EvictionRecency {
  import opened Compaction
  import opened Recency
  import opened EvictionSpec

  // The whole history's distinct tokens by last use.
  function Recent(events: seq<Event>, n: nat): seq<TokenKey>
    requires n <= |events|
  {
    ByLastUse(History(events, n), |History(events, n)|)
  }

  lemma {:induction false} ByLastUsePrefix(h: seq<TokenKey>, more: seq<TokenKey>, n: nat)
    requires n <= |h| <= |more| && forall i | 0 <= i < n :: more[i] == h[i]
    ensures ByLastUse(more, n) == ByLastUse(h, n)
  {
    if n > 0 {
      ByLastUsePrefix(h, more, n - 1);
    }
  }

  // The slots a prepare leaves to residents.
  function Capacity(total: nat, target: nat): nat {
    if target <= total then total - target else 0
  }

  function Used(r: seq<TokenKey>, e: Event): seq<TokenKey> {
    match e
    case Prepare => r
    case Use(t) => Without(r, t) + [t]
  }

  lemma RecentStep(events: seq<Event>, n: nat)
    requires n < |events|
    ensures Recent(events, n + 1) == Used(Recent(events, n), events[n])
    ensures Distinct(Recent(events, n))
  {
    var h := History(events, n);
    ByLastUseDistinct(h, |h|);
    if events[n].Use? {
      ByLastUsePrefix(h, h + [events[n].token], |h|);
    }
  }

  // The residents are the most recent ones, and at least as many as the guaranteed capacity allows.
  ghost predicate Tracks(p: Pool, r: seq<TokenKey>, capacity: int) {
    IsSuffix(p.order, r) && |p.order| >= Min(capacity, |r|)
  }

  lemma TrackPrepare(p: Pool, total: nat, r: seq<TokenKey>)
    requires Valid(p, total) && Tracks(p, r, total - p.target)
    ensures Tracks(EvictTo(p, Need(p)), r, total - p.target)
    ensures |EvictTo(p, Need(p)).order| == Min(total - p.target, |r|)
  {
    EvictToKeeps(p, total, Need(p));
    SuffixOfSuffix(p.order, r, Need(p));
  }

  lemma TrackUse(p: Pool, total: nat, r: seq<TokenKey>, t: TokenKey)
    requires Valid(p, total) && Distinct(r) && Tracks(p, r, total - p.target)
    requires t in p.slotOf || p.free != []
    ensures Tracks(Resolve(p, t), Without(r, t) + [t], total - p.target)
  {
    WithoutDistinct(r, t);
    WithoutDistinct(p.order, t);
    if t in p.slotOf {
      SuffixesNest(p.order, r, r, t);
      SuffixHit(p.order, r, t);
    } else {
      SuffixMiss(p.order, r, t);
    }
  }

  // A shortage is exactly what breaks it: a token that finds no slot leaves the residents no longer a
  // suffix, unless there is no pool at all.
  lemma ShortageBreaksSuffix(p: Pool, total: nat, r: seq<TokenKey>, t: TokenKey)
    requires Valid(p, total) && Distinct(r) && IsSuffix(p.order, r)
    ensures IsSuffix(Resolve(p, t).order, Without(r, t) + [t]) <==>
            t in p.slotOf || p.free != [] || total == 0
  {
    if t in p.slotOf {
      SuffixHit(p.order, r, t);
    } else if p.free != [] {
      SuffixMiss(p.order, r, t);
    } else if total > 0 {
      assert Last(p.order) != t;
    }
  }

  lemma {:induction false} ShortagesGrow(w: World, events: seq<Event>, m: nat, n: nat)
    requires m <= n <= |events|
    ensures RunTo(w, events, m).shortages <= RunTo(w, events, n).shortages
    decreases n
  {
    if m < n {
      ShortagesGrow(w, events, m, n - 1);
    }
  }

  // What a run without shortages knows about its pool: r is the recency order of its history.
  ghost predicate Following(w: World, total: nat, r: seq<TokenKey>) {
    Valid(w.pool, total) && Distinct(r) && Tracks(w.pool, r, total - w.pool.target)
  }

  lemma FollowStep(w: World, total: nat, r: seq<TokenKey>, e: Event)
    requires Following(w, total, r) && Apply(w, e).shortages == w.shortages
    ensures Tracks(Apply(w, e).pool, Used(r, e), total - w.pool.target)
    ensures e.Prepare? ==> |Apply(w, e).pool.order| == Min(total - w.pool.target, |r|)
  {
    match e
    case Prepare => TrackPrepare(w.pool, total, r);
    case Use(t) => FollowUse(w, total, r, t);
  }

  lemma FollowUse(w: World, total: nat, r: seq<TokenKey>, t: TokenKey)
    requires Following(w, total, r) && Apply(w, Use(t)).shortages == w.shortages
    ensures Tracks(Apply(w, Use(t)).pool, Without(r, t) + [t], total - w.pool.target)
  {
    UsedPool(w, t);
    TrackUse(w.pool, total, r, t);
  }

  lemma UsedPool(w: World, t: TokenKey)
    ensures Apply(w, Use(t)).pool == Resolve(w.pool, t)
    ensures Apply(w, Use(t)).shortages == w.shortages <==> t in w.pool.slotOf || w.pool.free != []
  {
  }

  lemma {:induction false} RunFollows(total: nat, target: nat, events: seq<Event>, n: nat, w: World)
    requires n <= |events| && w == RunTo(Fresh(total, target), events, n) && w.shortages == 0
    ensures Following(w, total, Recent(events, n))
  {
    RunKeeps(total, target, events, n);
    if n > 0 {
      var before := RunTo(Fresh(total, target), events, n - 1);
      ShortagesGrow(Fresh(total, target), events, n - 1, n);
      RunFollows(total, target, events, n - 1, before);
      RecentStep(events, n - 1);
      ByLastUseDistinct(History(events, n), |History(events, n)|);
      FollowNext(before, total, Recent(events, n - 1), events[n - 1], Recent(events, n));
    }
  }

  lemma FollowNext(w: World, total: nat, r: seq<TokenKey>, e: Event, next: seq<TokenKey>)
    requires Following(w, total, r) && Apply(w, e).shortages == w.shortages
    requires Valid(Apply(w, e).pool, total) && Distinct(next) && next == Used(r, e)
    ensures Following(Apply(w, e), total, next)
  {
    FollowStep(w, total, r, e);
    CountsMove(w, total, e);
  }

  // Right after a prepare.
  lemma PreparedLength(total: nat, target: nat, events: seq<Event>, n: nat, before: World)
    requires n < |events| && events[n] == Prepare && before == RunTo(Fresh(total, target), events, n)
    requires before.shortages == 0
    ensures |Apply(before, Prepare).pool.order| == Min(Capacity(total, target), |Recent(events, n + 1)|)
  {
    RunFollows(total, target, events, n, before);
    RunKeeps(total, target, events, n);
    RecentStep(events, n);
    FollowStep(before, total, Recent(events, n), Prepare);
  }

  // In every run without shortages the resident order is a suffix of the recency order at every point,
  // and right after a prepare it is exactly the min(total - target, distinct) most recent tokens.
  lemma ResidentsAreMostRecent(total: nat, target: nat, events: seq<Event>, n: nat, w: World)
    requires n <= |events| && w == RunTo(Fresh(total, target), events, n) && w.shortages == 0
    ensures IsSuffix(w.pool.order, Recent(events, n))
    ensures n > 0 && events[n - 1].Prepare? ==>
              |w.pool.order| == Min(Capacity(total, target), |Recent(events, n)|)
  {
    RunFollows(total, target, events, n, w);
    if n > 0 && events[n - 1].Prepare? {
      ShortagesGrow(Fresh(total, target), events, n - 1, n);
      PreparedLength(total, target, events, n - 1, RunTo(Fresh(total, target), events, n - 1));
    }
  }

  // ---- stack property ------------------------------------------------------------------------------

  lemma UseLength(p: Pool, total: nat, t: TokenKey)
    requires Valid(p, total) && (t in p.slotOf || p.free != [])
    ensures |Resolve(p, t).order| == |p.order| + if t in p.slotOf then 0 else 1
  {
    WithoutDistinct(p.order, t);
  }

  ghost predicate Nested(w1: World, w2: World) {
    w1.hits <= w2.hits && |w1.pool.order| <= |w2.pool.order|
  }

  // One event keeps the smaller pool's residents no more than, hence inside, the larger pool's.
  lemma NestedStep(w1: World, total1: nat, w2: World, total2: nat, r: seq<TokenKey>, e: Event)
    requires Following(w1, total1, r) && Following(w2, total2, r) && Nested(w1, w2)
    requires total1 - w1.pool.target <= total2 - w2.pool.target
    requires Apply(w1, e).shortages == w1.shortages && Apply(w2, e).shortages == w2.shortages
    ensures Nested(Apply(w1, e), Apply(w2, e))
  {
    match e
    case Prepare =>
      TrackPrepare(w1.pool, total1, r);
      TrackPrepare(w2.pool, total2, r);
    case Use(t) =>
      SuffixesNest(w1.pool.order, w2.pool.order, r, t);
      UseLength(w1.pool, total1, t);
      UseLength(w2.pool, total2, t);
  }

  lemma {:induction false} RunsNest(total1: nat, target1: nat, total2: nat, target2: nat, events: seq<Event>,
                                    n: nat, w1: World, w2: World)
    requires n <= |events| && Capacity(total1, target1) <= Capacity(total2, target2)
    requires w1 == RunTo(Fresh(total1, target1), events, n) && w1.shortages == 0
    requires w2 == RunTo(Fresh(total2, target2), events, n) && w2.shortages == 0
    ensures Nested(w1, w2)
  {
    if n > 0 {
      var f1, f2 := Fresh(total1, target1), Fresh(total2, target2);
      ShortagesGrow(f1, events, n - 1, n);
      ShortagesGrow(f2, events, n - 1, n);
      var v1, v2 := RunTo(f1, events, n - 1), RunTo(f2, events, n - 1);
      RunsNest(total1, target1, total2, target2, events, n - 1, v1, v2);
      RunFollows(total1, target1, events, n - 1, v1);
      RunFollows(total2, target2, events, n - 1, v2);
      RunKeeps(total1, target1, events, n - 1);
      RunKeeps(total2, target2, events, n - 1);
      NestedStep(v1, total1, v2, total2, Recent(events, n - 1), events[n - 1]);
    }
  }

  // Two no-shortage runs on the same events: the run with less guaranteed capacity never holds a token
  // the other does not, and never has more hits.
  lemma Inclusion(total1: nat, target1: nat, total2: nat, target2: nat, events: seq<Event>, n: nat)
    requires n <= |events| && Capacity(total1, target1) <= Capacity(total2, target2)
    requires RunTo(Fresh(total1, target1), events, n).shortages == 0
    requires RunTo(Fresh(total2, target2), events, n).shortages == 0
    ensures var w1, w2 := RunTo(Fresh(total1, target1), events, n), RunTo(Fresh(total2, target2), events, n);
            w1.hits <= w2.hits && forall t | t in w1.pool.slotOf :: t in w2.pool.slotOf
  {
    var w1, w2 := RunTo(Fresh(total1, target1), events, n), RunTo(Fresh(total2, target2), events, n);
    RunsNest(total1, target1, total2, target2, events, n, w1, w2);
    RunFollows(total1, target1, events, n, w1);
    RunFollows(total2, target2, events, n, w2);
    forall t | t in w1.pool.slotOf
      ensures t in w2.pool.slotOf
    {
      SuffixesNest(w1.pool.order, w2.pool.order, Recent(events, n), t);
    }
  }
}
