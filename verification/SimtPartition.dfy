/** Phases 2 and 3 of the SIMT kernel: per-thread counts over contiguous chunks of the order list,
    exclusive prefix sums, and the scatter into hit and evictable lists. */
module SimtPartition {
  import opened Compaction
  import opened SimtMachine

  // Chunk t of n positions is [Bound(t), Bound(t + 1)), empty when the chunks overshoot.
  function Bound(n: nat, threads: nat, t: nat): (b: nat)
    requires threads > 0
    ensures b <= n
  {
    Min(ChunkBegin(n, threads, t), n)
  }

  lemma BoundsCover(n: nat, threads: nat)
    requires threads > 0
    ensures Bound(n, threads, 0) == 0 && Bound(n, threads, threads) == n
  {
    var c := CeilDiv(n, threads);
    assert n + threads - 1 == c * threads + (n + threads - 1) % threads;
  }

  lemma BoundNext(n: nat, threads: nat, t: nat)
    requires threads > 0
    ensures Bound(n, threads, t) <= Bound(n, threads, t + 1)
    ensures Bound(n, threads, t + 1) == Min(ChunkBegin(n, threads, t) + CeilDiv(n, threads), n)
  {
    assert (t + 1) * CeilDiv(n, threads) == t * CeilDiv(n, threads) + CeilDiv(n, threads);
  }

  lemma OwnerOf(n: nat, threads: nat, x: nat) returns (t: nat)
    requires threads > 0 && x < n
    ensures t < threads && Bound(n, threads, t) <= x < Bound(n, threads, t + 1)
  {
    var c := CeilDiv(n, threads);
    BoundsCover(n, threads);
    t := 0;
    while x >= Bound(n, threads, t + 1)
      invariant t < threads && Bound(n, threads, t) <= x
      decreases threads - t
    {
      t := t + 1;
    }
  }

  // A thread inside its chunk of an n-element list.
  predicate InChunk(n: nat, threads: nat, t: nat, pos: nat)
    requires threads > 0
  {
    var lo := ChunkBegin(n, threads, t);
    lo <= pos <= lo + CeilDiv(n, threads) && (pos <= n || pos == lo)
  }

  lemma ChunkStep(n: nat, threads: nat, t: nat, pos: nat)
    requires threads > 0 && InChunk(n, threads, t, pos)
    ensures Bound(n, threads, t) <= Min(pos, n) <= Bound(n, threads, t + 1)
    ensures pos < Bound(n, threads, t + 1) ==> pos < n && InChunk(n, threads, t, pos + 1)
    ensures pos >= Bound(n, threads, t + 1) ==> Min(pos, n) == Bound(n, threads, t + 1)
  {
    BoundNext(n, threads, t);
  }

  // Set flags within [lo, hi).
  function Between(f: seq<bool>, lo: nat, hi: nat): int
    requires lo <= |f| && hi <= |f|
  {
    Rank(f, hi) - Rank(f, lo)
  }

  // f and g are the hit flag and its complement along the order list.
  ghost predicate LruFlags(k: Kernel, m: Mem, f: seq<bool>, g: seq<bool>) {
    && |f| == |g| == |m.lru|
    && (forall i: nat | i < |f| :: f[i] == k.HitFlagAt(m, i) && f[i] != g[i])
    && (forall i | 0 <= i < |m.lru| :: 0 <= m.lru[i] < |m.hitFlags|)
    && |m.hitSlots| == |m.evictableSlots| == |m.lru|
    && |m.hitCounts| == |m.evictCounts| == k.threads && |m.counters| == 4
  }

  // Phases 2 and 3 write nothing but counts, totals and the two lists.
  ghost predicate PartitionFrame(m: Mem, m': Mem) {
    m' == m.(hitCounts := m'.hitCounts, evictCounts := m'.evictCounts, hitSlots := m'.hitSlots,
             evictableSlots := m'.evictableSlots, counters := m'.counters)
  }

  // ---- phase 2 ---------------------------------------------------------------------------------

  ghost predicate CountLocalOk(k: Kernel, f: seq<bool>, g: seq<bool>, m: Mem, t: nat, l: Local)
    requires 0 < k.threads && LruFlags(k, m, f, g) && t < k.threads
  {
    var n := |f|;
    && l.pc in {CountLru, StoreLru, Barrier}
    && InChunk(n, k.threads, t, l.pos)
    && l.hits == Between(f, Bound(n, k.threads, t), Min(l.pos, n))
    && l.evicts == Between(g, Bound(n, k.threads, t), Min(l.pos, n))
    && (l.pc != CountLru ==> Min(l.pos, n) == Bound(n, k.threads, t + 1))
    && (l.pc == Barrier ==> m.hitCounts[t] == l.hits && m.evictCounts[t] == l.evicts)
  }

  ghost predicate CountInv(k: Kernel, f: seq<bool>, g: seq<bool>, m: Mem, ls: seq<Local>)
    requires 0 < k.threads == |ls|
  {
    LruFlags(k, m, f, g) && forall t: nat | t < |ls| :: CountLocalOk(k, f, g, m, t, ls[t])
  }

  lemma CountLocal(k: Kernel, f: seq<bool>, g: seq<bool>, m: Mem, t: nat, l: Local)
    requires 0 < k.threads && t < k.threads && l.pc != Barrier
    requires LruFlags(k, m, f, g) && CountLocalOk(k, f, g, m, t, l)
    ensures k.InBounds(m, t, l)
    ensures var e := k.CountLruStep(m, t, l);
            && PartitionFrame(m, e.mem) && LruFlags(k, e.mem, f, g)
            && CountLocalOk(k, f, g, e.mem, t, e.local)
            && (forall u: nat | u < k.threads && u != t ::
                  e.mem.hitCounts[u] == m.hitCounts[u] && e.mem.evictCounts[u] == m.evictCounts[u])
  {
    if l.pc == CountLru {
      CountMove(k, f, g, m, t, l);
    }
  }

  lemma CountMove(k: Kernel, f: seq<bool>, g: seq<bool>, m: Mem, t: nat, l: Local)
    requires 0 < k.threads && t < k.threads && l.pc == CountLru
    requires LruFlags(k, m, f, g) && CountLocalOk(k, f, g, m, t, l)
    ensures k.InBounds(m, t, l)
    ensures k.CountLruStep(m, t, l).mem == m && CountLocalOk(k, f, g, m, t, k.CountLruStep(m, t, l).local)
  {
    ChunkStep(|f|, k.threads, t, l.pos);
    BoundNext(|f|, k.threads, t);
  }

  lemma CountKeeps(k: Kernel, f: seq<bool>, g: seq<bool>, m: Mem, ls: seq<Local>, t: nat)
    requires 0 < k.threads == |ls| && t < |ls| && ls[t].pc != Barrier
    requires CountInv(k, f, g, m, ls)
    ensures k.InBounds(m, t, ls[t])
    ensures var e := k.CountLruStep(m, t, ls[t]);
            CountInv(k, f, g, e.mem, ls[t := e.local]) && PartitionFrame(m, e.mem)
  {
    var e := k.CountLruStep(m, t, ls[t]);
    CountLocal(k, f, g, m, t, ls[t]);
    forall u: nat | u < |ls| && u != t
      ensures CountLocalOk(k, f, g, e.mem, u, ls[u])
    {
      assert CountLocalOk(k, f, g, m, u, ls[u]);
    }
  }

  // ---- phase 3 ---------------------------------------------------------------------------------

  ghost predicate Counted(k: Kernel, f: seq<bool>, g: seq<bool>, m: Mem)
    requires 0 < k.threads && LruFlags(k, m, f, g)
  {
    var n := |f|;
    forall t: nat | t < k.threads ::
      && m.hitCounts[t] == Between(f, Bound(n, k.threads, t), Bound(n, k.threads, t + 1))
      && m.evictCounts[t] == Between(g, Bound(n, k.threads, t), Bound(n, k.threads, t + 1))
  }

  ghost predicate ScatterLocalOk(k: Kernel, f: seq<bool>, g: seq<bool>, m: Mem, t: nat, l: Local)
    requires 0 < k.threads && LruFlags(k, m, f, g) && t < k.threads
  {
    var n := |f|;
    var lo, hi := Bound(n, k.threads, t), Bound(n, k.threads, t + 1);
    && l.pc in {SumLru, Scatter, StoreLruTotals, Barrier}
    && InChunk(n, k.threads, t, l.pos)
    && l.hits == Between(f, lo, hi) && l.evicts == Between(g, lo, hi)
    && (if l.pc == SumLru then
          && l.i <= t && l.pos == ChunkBegin(n, k.threads, t)
          && l.hitPrefix == Rank(f, Bound(n, k.threads, l.i)) && l.evictPrefix == Rank(g, Bound(n, k.threads, l.i))
        else
          && l.hitPrefix == Rank(f, lo) && l.evictPrefix == Rank(g, lo)
          && l.hitOffset == Rank(f, Min(l.pos, n)) && l.evictOffset == Rank(g, Min(l.pos, n))
          && (l.pc != Scatter ==> Min(l.pos, n) == hi))
    && (l.pc == Barrier && t == k.threads - 1 ==> m.counters[0] == Rank(f, n) && m.counters[1] == Rank(g, n))
  }

  ghost predicate Placed(f: seq<bool>, g: seq<bool>, m: Mem, x: nat)
    requires |f| == |g| == |m.lru| && x < |f|
  {
    Scattered(m.lru, f, m.hitSlots, x) && Scattered(m.lru, g, m.evictableSlots, x)
  }

  ghost predicate AllPlaced(k: Kernel, f: seq<bool>, g: seq<bool>, m: Mem, ls: seq<Local>)
    requires 0 < k.threads == |ls| && |f| == |g| == |m.lru|
  {
    forall t: nat, x: nat | t < |ls| && Bound(|f|, k.threads, t) <= x < Min(ls[t].pos, |f|) :: Placed(f, g, m, x)
  }

  ghost predicate ScatterInv(k: Kernel, f: seq<bool>, g: seq<bool>, m: Mem, ls: seq<Local>)
    requires 0 < k.threads == |ls|
  {
    && LruFlags(k, m, f, g) && Counted(k, f, g, m)
    && (forall t: nat | t < |ls| :: ScatterLocalOk(k, f, g, m, t, ls[t]))
    && AllPlaced(k, f, g, m, ls)
  }

  ghost predicate ScatterStepOk(k: Kernel, f: seq<bool>, g: seq<bool>, m: Mem, t: nat, l: Local)
    requires t < k.threads
  {
    var e := k.ScatterStep(m, t, l);
    && k.InBounds(m, t, l)
    && LruFlags(k, e.mem, f, g) && Counted(k, f, g, e.mem) && PartitionFrame(m, e.mem)
    && ScatterLocalOk(k, f, g, e.mem, t, e.local)
    && ((l.pc == StoreLruTotals && t == k.threads - 1) || e.mem.counters == m.counters)
  }

  // One thread's registers, program point by program point.
  lemma ScatterLocal(k: Kernel, f: seq<bool>, g: seq<bool>, m: Mem, t: nat, l: Local)
    requires t < k.threads && l.pc != Barrier
    requires LruFlags(k, m, f, g) && Counted(k, f, g, m) && ScatterLocalOk(k, f, g, m, t, l)
    ensures ScatterStepOk(k, f, g, m, t, l)
  {
    if l.pc == SumLru {
      ScatterLocalSum(k, f, g, m, t, l);
    } else if l.pc == Scatter {
      ScatterLocalMove(k, f, g, m, t, l);
    } else {
      ScatterLocalStore(k, f, g, m, t, l);
    }
  }

  lemma ScatterLocalSum(k: Kernel, f: seq<bool>, g: seq<bool>, m: Mem, t: nat, l: Local)
    requires t < k.threads && l.pc == SumLru
    requires LruFlags(k, m, f, g) && Counted(k, f, g, m) && ScatterLocalOk(k, f, g, m, t, l)
    ensures ScatterStepOk(k, f, g, m, t, l)
  {
    assert k.ScatterStep(m, t, l).mem == m;
  }

  lemma ScatterLocalStore(k: Kernel, f: seq<bool>, g: seq<bool>, m: Mem, t: nat, l: Local)
    requires t < k.threads && l.pc == StoreLruTotals
    requires LruFlags(k, m, f, g) && Counted(k, f, g, m) && ScatterLocalOk(k, f, g, m, t, l)
    ensures ScatterStepOk(k, f, g, m, t, l)
  {
    BoundsCover(|f|, k.threads);
  }

  lemma ScatterLocalMove(k: Kernel, f: seq<bool>, g: seq<bool>, m: Mem, t: nat, l: Local)
    requires t < k.threads && l.pc == Scatter
    requires LruFlags(k, m, f, g) && Counted(k, f, g, m) && ScatterLocalOk(k, f, g, m, t, l)
    ensures ScatterStepOk(k, f, g, m, t, l)
  {
    if l.pos < Bound(|f|, k.threads, t + 1) {
      ScatterLocalAdvance(k, f, g, m, t, l);
    } else {
      BoundNext(|f|, k.threads, t);
      assert k.ScatterStep(m, t, l).mem == m;
    }
  }

  lemma ScatterLocalAdvance(k: Kernel, f: seq<bool>, g: seq<bool>, m: Mem, t: nat, l: Local)
    requires t < k.threads && l.pc == Scatter && l.pos < Bound(|f|, k.threads, t + 1)
    requires LruFlags(k, m, f, g) && Counted(k, f, g, m) && ScatterLocalOk(k, f, g, m, t, l)
    ensures ScatterStepOk(k, f, g, m, t, l)
  {
    ScatterWrites(k, f, g, m, t, l);
    ScatterRegisters(k, f, g, m, t, l);
  }

  // The step writes one entry of one of the two lists ...
  lemma ScatterWrites(k: Kernel, f: seq<bool>, g: seq<bool>, m: Mem, t: nat, l: Local)
    requires t < k.threads && l.pc == Scatter && l.pos < Bound(|f|, k.threads, t + 1)
    requires LruFlags(k, m, f, g) && Counted(k, f, g, m) && ScatterLocalOk(k, f, g, m, t, l)
    ensures var e := k.ScatterStep(m, t, l);
            && k.InBounds(m, t, l) && LruFlags(k, e.mem, f, g) && Counted(k, f, g, e.mem)
            && PartitionFrame(m, e.mem) && e.mem.counters == m.counters
  {
    BoundNext(|f|, k.threads, t);
    RankMonotone(f, l.pos, |f|);
    RankMonotone(g, l.pos, |f|);
    var e := k.ScatterStep(m, t, l);
    assert e.mem == m.(hitSlots := e.mem.hitSlots, evictableSlots := e.mem.evictableSlots);
    assert Counted(k, f, g, e.mem);
  }

  // ... and advances the thread's registers with it.
  lemma ScatterRegisters(k: Kernel, f: seq<bool>, g: seq<bool>, m: Mem, t: nat, l: Local)
    requires t < k.threads && l.pc == Scatter && l.pos < Bound(|f|, k.threads, t + 1)
    requires LruFlags(k, m, f, g) && Counted(k, f, g, m) && ScatterLocalOk(k, f, g, m, t, l)
    ensures ScatterLocalOk(k, f, g, k.ScatterStep(m, t, l).mem, t, k.ScatterStep(m, t, l).local)
  {
    ChunkStep(|f|, k.threads, t, l.pos);
    BoundNext(|f|, k.threads, t);
    assert Rank(f, l.pos + 1) == Rank(f, l.pos) + if f[l.pos] then 1 else 0;
    assert Rank(g, l.pos + 1) == Rank(g, l.pos) + if g[l.pos] then 1 else 0;
  }

  lemma ScatterKeeps(k: Kernel, f: seq<bool>, g: seq<bool>, m: Mem, ls: seq<Local>, t: nat)
    requires 0 < k.threads == |ls| && t < |ls| && ls[t].pc != Barrier
    requires ScatterInv(k, f, g, m, ls)
    ensures k.InBounds(m, t, ls[t])
    ensures var e := k.ScatterStep(m, t, ls[t]);
            ScatterInv(k, f, g, e.mem, ls[t := e.local]) && PartitionFrame(m, e.mem)
  {
    var l := ls[t];
    var e := k.ScatterStep(m, t, l);
    ScatterLocal(k, f, g, m, t, l);
    forall u: nat | u < |ls| && u != t
      ensures ScatterLocalOk(k, f, g, e.mem, u, ls[u])
    {
      assert ScatterLocalOk(k, f, g, m, u, ls[u]);
    }
    ScatterPlaces(k, f, g, m, ls, t);
  }

  // A step places its own element and disturbs none that is in place.
  lemma ScatterOnePlaced(k: Kernel, f: seq<bool>, g: seq<bool>, m: Mem, t: nat, l: Local, x: nat)
    requires t < k.threads && l.pc != Barrier && x < |f|
    requires LruFlags(k, m, f, g) && Counted(k, f, g, m) && ScatterLocalOk(k, f, g, m, t, l)
    requires Placed(f, g, m, x) || (l.pc == Scatter && l.pos < k.LruEnd(m, t) && x == l.pos)
    ensures Placed(f, g, k.ScatterStep(m, t, l).mem, x)
  {
    ScatterLocal(k, f, g, m, t, l);
    if l.pc == Scatter && l.pos < k.LruEnd(m, t) {
      if f[l.pos] {
        ScatterOne(m.lru, f, m.hitSlots, l.pos, x);
      } else {
        ScatterOne(m.lru, g, m.evictableSlots, l.pos, x);
      }
    }
  }

  lemma ScatterPlaces(k: Kernel, f: seq<bool>, g: seq<bool>, m: Mem, ls: seq<Local>, t: nat)
    requires 0 < k.threads == |ls| && t < |ls| && ls[t].pc != Barrier
    requires ScatterInv(k, f, g, m, ls)
    ensures var e := k.ScatterStep(m, t, ls[t]);
            |f| == |g| == |e.mem.lru| && AllPlaced(k, f, g, e.mem, ls[t := e.local])
  {
    var l := ls[t];
    var e := k.ScatterStep(m, t, l);
    var n := |f|;
    ScatterLocal(k, f, g, m, t, l);
    assert ScatterLocalOk(k, f, g, m, t, l);
    forall u: nat, x: nat | u < |ls| && Bound(n, k.threads, u) <= x < Min(ls[t := e.local][u].pos, n)
      ensures Placed(f, g, e.mem, x)
    {
      var advancing := e.local.pos != l.pos && x == l.pos;
      if !advancing {
        assert Bound(n, k.threads, u) <= x < Min(ls[u].pos, n);
        assert Placed(f, g, m, x);
      }
      ScatterOnePlaced(k, f, g, m, t, l, x);
    }
  }

  // At the barrier the two lists are the sequential stable filters.
  ghost predicate Partitioned(f: seq<bool>, g: seq<bool>, m: Mem) {
    && |f| == |g| == |m.lru|
    && Rank(f, |f|) <= |m.hitSlots| && m.hitSlots[..Rank(f, |f|)] == Compact(m.lru, f)
    && Rank(g, |g|) <= |m.evictableSlots| && m.evictableSlots[..Rank(g, |g|)] == Compact(m.lru, g)
    && |m.counters| == 4 && m.counters[1] == Rank(g, |g|)
  }

  lemma ScatterDone(k: Kernel, f: seq<bool>, g: seq<bool>, m: Mem, ls: seq<Local>)
    requires 0 < k.threads == |ls| && ScatterInv(k, f, g, m, ls)
    requires forall t | 0 <= t < |ls| :: ls[t].pc == Barrier
    ensures Partitioned(f, g, m)
  {
    var n := |f|;
    forall x: nat | x < n
      ensures Placed(f, g, m, x)
    {
      var t := OwnerOf(n, k.threads, x);
      assert ScatterLocalOk(k, f, g, m, t, ls[t]);
    }
    forall x: nat | x < n
      ensures Scattered(m.lru, f, m.hitSlots, x) && Scattered(m.lru, g, m.evictableSlots, x)
    {
      assert Placed(f, g, m, x);
    }
    ScatterIsCompact(m.lru, f, m.hitSlots);
    ScatterIsCompact(m.lru, g, m.evictableSlots);
    assert ScatterLocalOk(k, f, g, m, k.threads - 1, ls[k.threads - 1]);
  }
}
