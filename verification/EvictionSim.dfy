/** LRUManagedCache and run_simulation, tied to the event machine; and the configurations in which no
    query ever finds the free list empty. */
module EvictionSim {
  import opened Compaction
  import opened Options
  import opened EvictionRecency
  import opened EvictionSpec
  import opened Recency

  const TOPK_PER_REQ := 2048

  // ---- the events of a workload --------------------------------------------------------------------

  function Uses(tokens: seq<TokenKey>): (e: seq<Event>)
    ensures |e| == |tokens| && forall i | 0 <= i < |tokens| :: e[i] == Use(tokens[i])
  {
    seq(|tokens|, i requires 0 <= i < |tokens| => Use(tokens[i]))
  }

  // One query list per request.
  function RequestEvents(lists: seq<seq<TokenKey>>, r: nat): seq<Event>
    requires r <= |lists|
  {
    if r == 0 then [] else RequestEvents(lists, r - 1) + Uses(lists[r - 1])
  }

  function StepEvents(lists: seq<seq<TokenKey>>): seq<Event> {
    [Prepare] + RequestEvents(lists, |lists|)
  }

  function WorkloadEvents(workload: seq<seq<seq<TokenKey>>>, s: nat): seq<Event>
    requires s <= |workload|
  {
    if s == 0 then [] else WorkloadEvents(workload, s - 1) + StepEvents(workload[s - 1])
  }

  function Run(w: World, events: seq<Event>): World {
    RunTo(w, events, |events|)
  }

  lemma {:induction false} RunPrefix(w: World, a: seq<Event>, b: seq<Event>, n: nat)
    requires n <= |a|
    ensures RunTo(w, a + b, n) == RunTo(w, a, n)
  {
    if n > 0 {
      RunPrefix(w, a, b, n - 1);
    }
  }

  lemma {:induction false} RunConcat(w: World, a: seq<Event>, b: seq<Event>, k: nat)
    requires k <= |b|
    ensures RunTo(w, a + b, |a| + k) == RunTo(Run(w, a), b, k)
  {
    if k == 0 {
      RunPrefix(w, a, b, |a|);
    } else {
      RunConcat(w, a, b, k - 1);
    }
  }

  // Counters only ever accumulate, so they can be summed step by step.
  function Plus(w: World, base: World): World {
    World(w.pool, base.hits + w.hits, base.misses + w.misses, base.installs + w.installs,
          base.shortages + w.shortages, base.evictions + w.evictions)
  }

  function Zeroed(w: World): World {
    World(w.pool, 0, 0, 0, 0, 0)
  }

  lemma {:induction false} RunAdds(w: World, events: seq<Event>, n: nat)
    requires n <= |events|
    ensures RunTo(w, events, n) == Plus(RunTo(Zeroed(w), events, n), w)
  {
    if n > 0 {
      RunAdds(w, events, n - 1);
    }
  }

  lemma AppendRun(w: World, a: seq<Event>, b: seq<Event>)
    ensures Run(w, a + b) == Run(Run(w, a), b) == Plus(Run(Zeroed(Run(w, a)), b), Run(w, a))
  {
    RunConcat(w, a, b, |b|);
    RunAdds(Run(w, a), b, |b|);
  }

  // ---- no shortages --------------------------------------------------------------------------------

  function TokenSet(tokens: seq<TokenKey>, n: nat): set<TokenKey>
    requires n <= |tokens|
  {
    if n == 0 then {} else TokenSet(tokens, n - 1) + {tokens[n - 1]}
  }

  lemma {:induction false} TokenSetGrows(tokens: seq<TokenKey>, m: nat, n: nat)
    requires m <= n <= |tokens|
    ensures |TokenSet(tokens, m)| <= |TokenSet(tokens, n)|
    decreases n
  {
    if m < n {
      TokenSetGrows(tokens, m, n - 1);
      if tokens[n - 1] in TokenSet(tokens, n - 1) {
        assert TokenSet(tokens, n) == TokenSet(tokens, n - 1);
      }
    }
  }

  // r was reached from w by using the tokens seen: they are resident, and cost at most a slot each.
  ghost predicate Spent(w: World, r: World, total: nat, seen: set<TokenKey>) {
    && Valid(r.pool, total) && r.pool.target == w.pool.target && r.shortages == w.shortages
    && |r.pool.free| + |seen| >= |w.pool.free|
    && forall t | t in seen :: t in r.pool.slotOf
  }

  lemma SpendOne(w: World, r: World, total: nat, seen: set<TokenKey>, t: TokenKey)
    requires Spent(w, r, total, seen) && |seen + {t}| <= |w.pool.free|
    ensures Spent(w, Apply(r, Use(t)), total, seen + {t})
  {
    ResolveKeeps(r.pool, total, t);
    if t in seen {
      assert seen + {t} == seen;
    } else {
      assert |seen + {t}| == |seen| + 1;
    }
  }

  lemma UsesNext(w: World, tokens: seq<TokenKey>, n: nat)
    requires 0 < n <= |tokens|
    ensures RunTo(w, Uses(tokens), n) == Apply(RunTo(w, Uses(tokens), n - 1), Use(tokens[n - 1]))
  {
  }

  // A query list takes no more slots than it has distinct tokens.
  lemma {:induction false} ListTakes(w: World, total: nat, tokens: seq<TokenKey>, n: nat)
    requires Valid(w.pool, total) && n <= |tokens|
    requires |TokenSet(tokens, |tokens|)| <= |w.pool.free|
    ensures Spent(w, RunTo(w, Uses(tokens), n), total, TokenSet(tokens, n))
  {
    if n == 0 {
      assert RunTo(w, Uses(tokens), n) == w && TokenSet(tokens, n) == {};
    } else {
      ListTakes(w, total, tokens, n - 1);
      TokenSetGrows(tokens, n, |tokens|);
      UsesNext(w, tokens, n);
      SpendOne(w, RunTo(w, Uses(tokens), n - 1), total, TokenSet(tokens, n - 1), tokens[n - 1]);
    }
  }

  // Every request of the step asks for at most 2048 distinct tokens.
  ghost predicate TopK(lists: seq<seq<TokenKey>>) {
    forall i | 0 <= i < |lists| :: |TokenSet(lists[i], |lists[i]|)| <= TOPK_PER_REQ
  }

  lemma {:induction false} RequestsTake(w: World, total: nat, lists: seq<seq<TokenKey>>, r: nat)
    requires Valid(w.pool, total) && r <= |lists| && TopK(lists) && |lists| * TOPK_PER_REQ <= |w.pool.free|
    ensures var v := Run(w, RequestEvents(lists, r));
            && Valid(v.pool, total) && v.pool.target == w.pool.target
            && v.shortages == w.shortages && |v.pool.free| + r * TOPK_PER_REQ >= |w.pool.free|
  {
    if r > 0 {
      RequestsTake(w, total, lists, r - 1);
      var v := Run(w, RequestEvents(lists, r - 1));
      ListTakes(v, total, lists[r - 1], |lists[r - 1]|);
      AppendRun(w, RequestEvents(lists, r - 1), Uses(lists[r - 1]));
    }
  }

  lemma StepTakes(w: World, total: nat, lists: seq<seq<TokenKey>>)
    requires Valid(w.pool, total) && TopK(lists) && |lists| * TOPK_PER_REQ <= w.pool.target
    ensures var v := Run(w, StepEvents(lists));
            Valid(v.pool, total) && v.pool.target == w.pool.target && v.shortages == w.shortages
  {
    ApplyKeeps(w, total, Prepare);
    EvictToKeeps(w.pool, total, Need(w.pool));
    var prepared := Apply(w, Prepare);
    assert RunTo(w, [Prepare], 0) == w;
    assert Run(w, [Prepare]) == prepared;
    RequestsTake(prepared, total, lists, |lists|);
    AppendRun(w, [Prepare], RequestEvents(lists, |lists|));
  }

  datatype Config = Config(reqNum: nat, hbmSlotsPerReq: nat, freeSlotsTargetPerReq: Option<nat>)

  function TotalSlots(c: Config): nat {
    c.reqNum * c.hbmSlotsPerReq
  }

  function FreeSlotTarget(c: Config): nat {
    var perReq := if c.freeSlotsTargetPerReq.None? then TOPK_PER_REQ else c.freeSlotsTargetPerReq.value;
    if TotalSlots(c) <= c.reqNum * perReq then TotalSlots(c) else c.reqNum * perReq
  }

  ghost predicate TopKWorkload(c: Config, workload: seq<seq<seq<TokenKey>>>) {
    forall s | 0 <= s < |workload| :: |workload[s]| == c.reqNum && TopK(workload[s])
  }

  // With at least 2048 slots and a free target of at least 2048 per request, no step of any workload of
  // topK lists can run short.
  lemma {:induction false} NoShortages(c: Config, workload: seq<seq<seq<TokenKey>>>, s: nat)
    requires s <= |workload| && TopKWorkload(c, workload) && c.hbmSlotsPerReq >= TOPK_PER_REQ
    requires c.freeSlotsTargetPerReq.Some? ==> c.freeSlotsTargetPerReq.value >= TOPK_PER_REQ
    ensures var w := Run(Fresh(TotalSlots(c), FreeSlotTarget(c)), WorkloadEvents(workload, s));
            && Valid(w.pool, TotalSlots(c)) && w.pool.target == FreeSlotTarget(c)
            && w.shortages == 0
  {
    if s == 0 {
      FreshValid(TotalSlots(c), FreeSlotTarget(c));
    } else {
      NoShortages(c, workload, s - 1);
      TargetCovers(c);
      var w := Fresh(TotalSlots(c), FreeSlotTarget(c));
      StepTakes(Run(w, WorkloadEvents(workload, s - 1)), TotalSlots(c), workload[s - 1]);
      AppendRun(w, WorkloadEvents(workload, s - 1), StepEvents(workload[s - 1]));
    }
  }

  lemma TargetCovers(c: Config)
    requires c.hbmSlotsPerReq >= TOPK_PER_REQ
    requires c.freeSlotsTargetPerReq.Some? ==> c.freeSlotsTargetPerReq.value >= TOPK_PER_REQ
    ensures c.reqNum * TOPK_PER_REQ <= FreeSlotTarget(c) <= TotalSlots(c)
  {
    TimesMonotone(c.reqNum, TOPK_PER_REQ, c.hbmSlotsPerReq);
    if c.freeSlotsTargetPerReq.Some? {
      TimesMonotone(c.reqNum, TOPK_PER_REQ, c.freeSlotsTargetPerReq.value);
    }
  }

  // ---- the configured sizes --------------------------------------------------------------------------

  // Every token of the lists, request after request.
  function ListedTokens(lists: seq<seq<TokenKey>>, r: nat): seq<TokenKey>
    requires r <= |lists|
  {
    if r == 0 then [] else ListedTokens(lists, r - 1) + lists[r - 1]
  }

  // Every token of the first s steps, in the order of use.
  function UsedTokens(workload: seq<seq<seq<TokenKey>>>, s: nat): seq<TokenKey>
    requires s <= |workload|
  {
    if s == 0 then [] else UsedTokens(workload, s - 1) + ListedTokens(workload[s - 1], |workload[s - 1]|)
  }

  lemma {:induction false} HistoryConcat(a: seq<Event>, b: seq<Event>, n: nat)
    requires n <= |b|
    ensures History(a + b, |a| + n) == History(a, |a|) + History(b, n)
  {
    if n == 0 {
      HistoryPrefix(a, b, |a|);
      assert History(a, |a|) + [] == History(a, |a|);
    } else {
      HistoryConcat(a, b, n - 1);
      assert (a + b)[|a| + n - 1] == b[n - 1];
      if b[n - 1].Use? {
        assert History(a, |a|) + (History(b, n - 1) + [b[n - 1].token]) ==
               History(a, |a|) + History(b, n - 1) + [b[n - 1].token];
      }
    }
  }

  function TokensOf(events: seq<Event>): seq<TokenKey> {
    History(events, |events|)
  }

  lemma HistoryJoined(a: seq<Event>, b: seq<Event>)
    ensures TokensOf(a + b) == TokensOf(a) + TokensOf(b)
  {
    HistoryConcat(a, b, |b|);
  }

  lemma {:induction false} HistoryPrefix(a: seq<Event>, b: seq<Event>, n: nat)
    requires n <= |a|
    ensures History(a + b, n) == History(a, n)
  {
    if n > 0 {
      HistoryPrefix(a, b, n - 1);
      assert (a + b)[n - 1] == a[n - 1];
    }
  }

  lemma {:induction false} UsesHistory(tokens: seq<TokenKey>, n: nat)
    requires n <= |tokens|
    ensures History(Uses(tokens), n) == tokens[..n]
  {
    if n > 0 {
      UsesHistory(tokens, n - 1);
      assert tokens[..n] == tokens[..n - 1] + [tokens[n - 1]];
    }
  }

  lemma ListHistory(tokens: seq<TokenKey>)
    ensures TokensOf(Uses(tokens)) == tokens
  {
    UsesHistory(tokens, |tokens|);
    assert tokens[..|tokens|] == tokens;
  }

  lemma {:induction false} RequestsHistory(lists: seq<seq<TokenKey>>, r: nat)
    requires r <= |lists|
    ensures TokensOf(RequestEvents(lists, r)) == ListedTokens(lists, r)
  {
    if r > 0 {
      RequestsHistory(lists, r - 1);
      HistoryJoined(RequestEvents(lists, r - 1), Uses(lists[r - 1]));
      ListHistory(lists[r - 1]);
    }
  }

  lemma StepHistory(lists: seq<seq<TokenKey>>)
    ensures TokensOf(StepEvents(lists)) == ListedTokens(lists, |lists|)
  {
    var e := RequestEvents(lists, |lists|);
    RequestsHistory(lists, |lists|);
    HistoryJoined([Prepare], e);
    assert History([Prepare], 0) == [];
    assert TokensOf([Prepare]) == [];
    assert [] + TokensOf(e) == TokensOf(e);
  }

  // The tokens of a workload's events are the tokens of its lists, in order.
  lemma {:induction false} WorkloadHistory(workload: seq<seq<seq<TokenKey>>>, s: nat)
    requires s <= |workload|
    ensures TokensOf(WorkloadEvents(workload, s)) == UsedTokens(workload, s)
  {
    if s > 0 {
      WorkloadHistory(workload, s - 1);
      StepHistory(workload[s - 1]);
      HistoryJoined(WorkloadEvents(workload, s - 1), StepEvents(workload[s - 1]));
    }
  }

  // What is free for residents when step s starts, in the configured numbers: 2048 slots a request are kept
  // back when no other number is given, and all of them when more are asked for than there are.
  function KeptSlots(c: Config): nat {
    match c.freeSlotsTargetPerReq
    case None => if c.hbmSlotsPerReq <= 2048 then 0 else c.reqNum * (c.hbmSlotsPerReq - 2048)
    case Some(perReq) => if c.hbmSlotsPerReq <= perReq then 0 else c.reqNum * (c.hbmSlotsPerReq - perReq)
  }

  // The order is the last tokens by last use, as many as there is room for.
  ghost predicate MostRecent(order: seq<TokenKey>, used: seq<TokenKey>, room: nat) {
    var recent := ByLastUse(used, |used|);
    order == recent[|recent| - Min(room, |recent|)..]
  }

  ghost function Before(c: Config, workload: seq<seq<seq<TokenKey>>>, s: nat): World
    requires s <= |workload|
  {
    Run(Fresh(TotalSlots(c), FreeSlotTarget(c)), WorkloadEvents(workload, s))
  }

  // As long as no query has run short, the residents right after the prepare of step s are exactly the
  // most recently used tokens of the steps before, as many as the configured numbers leave room for.
  lemma PreparedResidents(c: Config, workload: seq<seq<seq<TokenKey>>>, s: nat)
    requires s <= |workload| && Before(c, workload, s).shortages == 0
    ensures MostRecent(Apply(Before(c, workload, s), Prepare).pool.order, UsedTokens(workload, s), KeptSlots(c))
  {
    var e, w := WorkloadEvents(workload, s), Fresh(TotalSlots(c), FreeSlotTarget(c));
    var all := e + [Prepare];
    WorkloadHistory(workload, s);
    HistoryJoined(e, [Prepare]);
    assert History([Prepare], 0) == [];
    assert TokensOf([Prepare]) == [];
    assert TokensOf(e) + [] == TokensOf(e);
    PrepareLast(w, e);
    KeptIsCapacity(c);
    ResidentsAreMostRecent(TotalSlots(c), FreeSlotTarget(c), all, |all|, Apply(Run(w, e), Prepare));
  }

  lemma PrepareLast(w: World, e: seq<Event>)
    ensures RunTo(w, e + [Prepare], |e| + 1) == Apply(Run(w, e), Prepare)
  {
    RunPrefix(w, e, [Prepare], |e|);
    assert (e + [Prepare])[|e|] == Prepare;
  }

  lemma KeptIsCapacity(c: Config)
    ensures Capacity(TotalSlots(c), FreeSlotTarget(c)) == KeptSlots(c)
  {
    var perReq := if c.freeSlotsTargetPerReq.None? then 2048 else c.freeSlotsTargetPerReq.value;
    if perReq <= c.hbmSlotsPerReq {
      TimesMonotone(c.reqNum, perReq, c.hbmSlotsPerReq);
      assert c.reqNum * (c.hbmSlotsPerReq - perReq) == c.reqNum * c.hbmSlotsPerReq - c.reqNum * perReq;
    } else {
      TimesMonotone(c.reqNum, c.hbmSlotsPerReq, perReq);
    }
  }
}
