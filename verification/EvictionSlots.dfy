/** Which slots the simulator's pool gives away: those of a new pool from 0 up, and a freed slot again first. */
module EvictionSlots {
  import opened Compaction
  import opened Recency
  import opened EvictionSpec
  import opened EvictionRecency
  import opened EvictionSim

  // The first n tokens hold the slots 0, 1, ..., n - 1.
  ghost predicate FilledUp(p: Pool, total: nat, tokens: seq<TokenKey>, n: nat)
    requires n <= |tokens| && n <= total
  {
    && p.free == Countdown(total)[..total - n] && (forall t :: t in p.slotOf <==> t in tokens[..n])
    && forall i | 0 <= i < n :: SlotAt(p.slotOf, tokens[i]) == i
  }

  lemma FillNext(p: Pool, total: nat, tokens: seq<TokenKey>, n: nat)
    requires n < |tokens| <= total && Distinct(tokens) && FilledUp(p, total, tokens, n)
    ensures FilledUp(Resolve(p, tokens[n]), total, tokens, n + 1)
  {
    assert tokens[n] !in tokens[..n];
    assert Last(p.free) == n && p.free[..|p.free| - 1] == Countdown(total)[..total - (n + 1)];
    var r := Resolve(p, tokens[n]);
    forall t
      ensures t in r.slotOf <==> t in tokens[..n + 1]
    {
      assert tokens[..n + 1] == tokens[..n] + [tokens[n]];
    }
    forall i | 0 <= i < n
      ensures SlotAt(r.slotOf, tokens[i]) == i
    {
      assert tokens[i] in tokens[..n];
    }
  }

  // New tokens take the slots of a new pool from 0 up.
  lemma {:induction false} NewSlots(total: nat, target: nat, tokens: seq<TokenKey>, n: nat)
    requires n <= |tokens| <= total && Distinct(tokens)
    ensures FilledUp(RunTo(Fresh(total, target), Uses(tokens), n).pool, total, tokens, n)
  {
    if n > 0 {
      NewSlots(total, target, tokens, n - 1);
      UsesNext(Fresh(total, target), tokens, n);
      var before := RunTo(Fresh(total, target), Uses(tokens), n - 1);
      UsedPool(before, tokens[n - 1]);
      FillNext(before.pool, total, tokens, n - 1);
    }
  }

  // The slot evicted last is the first to be given away again.
  lemma EvictedSlotReused(p: Pool, total: nat, t: TokenKey)
    requires Valid(p, total) && Need(p) > 0
    ensures var r := EvictTo(p, Need(p));
            t !in r.slotOf ==> SlotAt(Resolve(r, t).slotOf, t) == SlotAt(p.slotOf, p.order[Need(p) - 1])
  {
    var k := Need(p);
    EvictToKeeps(p, total, k - 1);
    assert EvictTo(p, k - 1).order[0] == p.order[k - 1];
    EvictedKeeps(p, total, k - 1, p.order[k - 1]);
  }

  // The tokens not evicted keep their slots.
  lemma {:induction false} EvictedKeeps(p: Pool, total: nat, k: nat, t: TokenKey)
    requires Valid(p, total) && k <= |p.order| && t in p.order[k..]
    ensures t in EvictTo(p, k).slotOf && SlotAt(EvictTo(p, k).slotOf, t) == SlotAt(p.slotOf, t)
  {
    if k > 0 {
      EvictToKeeps(p, total, k - 1);
      LaterStays(p.order, k, t);
      EvictedKeeps(p, total, k - 1, t);
      OtherKept(EvictTo(p, k - 1), t);
    }
  }

  lemma OtherKept(p: Pool, t: TokenKey)
    requires p.order != [] && t in p.slotOf && t != p.order[0]
    ensures t in EvictOne(p).slotOf && SlotAt(EvictOne(p).slotOf, t) == SlotAt(p.slotOf, t)
  {
  }

  lemma LaterStays(order: seq<TokenKey>, k: nat, t: TokenKey)
    requires Distinct(order) && 0 < k <= |order| && t in order[k..]
    ensures t in order[k - 1..] && t != order[k - 1] && order[k - 1..][0] == order[k - 1]
  {
    var i :| 0 <= i < |order[k..]| && order[k..][i] == t;
    assert order[k + i] == t && order[k - 1..][i + 1] == t;
  }
}
