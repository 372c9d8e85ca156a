/** Runs of batches: how long a token stays resident, and in what sense the batch order is LRU. */
module LruRuns {
  import opened Compaction
  import opened Mappings
  import opened LookupSpec
  import opened LookupReference

  // One batch and the positions that represented its misses (any choice: kernel or reference).
  datatype Round = Round(query: seq<int>, winners: seq<bool>)

  // One batch of at most maxQueries queries with a legal choice of representatives.
  ghost predicate IsRound(before: Tables, b: Round, after: Tables, maxQueries: nat) {
    && |b.query| <= maxQueries && |b.query| <= |before.slotToToken|
    && IsChoice(before, b.query, b.winners)
    && Rank(b.winners, |b.winners|) <= |Evictable(before, b.query)|
    && after == Batch(before, b.query, b.winners).tables
  }

  // A run: states[n] is the state before round n, states[|rounds|] the last one.
  ghost predicate IsRun(states: seq<Tables>, rounds: seq<Round>, maxQueries: nat) {
    && |states| == |rounds| + 1 && Consistent(states[0])
    && forall n: nat | n < |rounds| :: RoundInRun(states, rounds, maxQueries, n)
  }

  ghost predicate RoundInRun(states: seq<Tables>, rounds: seq<Round>, maxQueries: nat, n: nat)
    requires n < |rounds| && |states| == |rounds| + 1
  {
    IsRound(states[n], rounds[n], states[n + 1], maxQueries)
  }

  ghost predicate SameSizes(a: Tables, b: Tables) {
    && |a.tokenToSlot| == |b.tokenToSlot| && |a.slotToToken| == |b.slotToToken| && |a.lru| == |b.lru|
  }

  // Safety over whole runs: the order stays a permutation and the two maps stay mutually inverse.
  lemma {:induction false} RunKeepsConsistent(states: seq<Tables>, rounds: seq<Round>, maxQueries: nat, n: nat)
    requires IsRun(states, rounds, maxQueries) && n < |states|
    ensures Consistent(states[n]) && SameSizes(states[0], states[n])
  {
    if n > 0 {
      RunKeepsConsistent(states, rounds, maxQueries, n - 1);
      assert RoundInRun(states, rounds, maxQueries, n - 1);
      BatchKeepsConsistent(states[n - 1], rounds[n - 1].query, rounds[n - 1].winners);
      OrderAfter(states[n - 1], rounds[n - 1].query, rounds[n - 1].winners);
    }
  }

  lemma RoundAt(states: seq<Tables>, rounds: seq<Round>, maxQueries: nat, n: nat)
    requires IsRun(states, rounds, maxQueries) && n < |rounds|
    ensures ValidBatch(states[n], rounds[n].query, rounds[n].winners) && |rounds[n].query| <= maxQueries
    ensures states[n + 1] == BatchOf(states[n], rounds[n].query, rounds[n].winners).tables
    ensures SameSizes(states[0], states[n]) && SameSizes(states[0], states[n + 1])
  {
    RunKeepsConsistent(states, rounds, maxQueries, n);
    RunKeepsConsistent(states, rounds, maxQueries, n + 1);
    assert RoundInRun(states, rounds, maxQueries, n);
  }

  // ---- retention -------------------------------------------------------------------------------

  // The slot is among the d most recent entries of the order.
  ghost predicate AmongRecent(st: Tables, slot: int, d: nat) {
    exists k | 0 <= k < |st.lru| :: k + d >= |st.lru| && st.lru[k] == slot
  }

  // The new order block by block, with the counts that place each block.
  lemma NewOrderBlocks(st: Tables, q: seq<int>, w: seq<bool>)
    requires ValidBatch(st, q, w)
    ensures var victims, n := Evictable(st, q), Rank(w, |w|);
            && n <= |victims| && n + |Hits(st, q)| <= |q|
            && BatchOf(st, q, w).tables.lru == victims[n..] + victims[..n] + Hits(st, q)
            && |victims| + |Hits(st, q)| == |st.lru|
  {
    EnoughVictims(st, q, w);
    HitOrEvict(st, q);
  }

  // A slot used by the batch moves into the last |q| entries.
  lemma HitIsRecent(st: Tables, q: seq<int>, w: seq<bool>, slot: int)
    requires ValidBatch(st, q, w) && slot in HitSlots(st, q) && slot in st.lru
    ensures AmongRecent(BatchOf(st, q, w).tables, slot, |q|)
  {
    NewOrderBlocks(st, q, w);
    var i :| 0 <= i < |st.lru| && st.lru[i] == slot;
    CompactAt(st.lru, HitAt(st, q), |st.lru|, i);
    var at := |Evictable(st, q)| + Rank(HitAt(st, q), i);
    BlocksLate(Evictable(st, q), Hits(st, q), Rank(w, |w|), at);
    assert BatchOf(st, q, w).tables.lru[at] == slot;
  }

  lemma GivenIsRecent(st: Tables, q: seq<int>, w: seq<bool>, slot: int)
    requires ValidBatch(st, q, w) && IsVictim(Evictable(st, q), Rank(w, |w|), slot)
    ensures AmongRecent(BatchOf(st, q, w).tables, slot, |q|)
  {
    NewOrderBlocks(st, q, w);
    var victims, n := Evictable(st, q), Rank(w, |w|);
    var k :| 0 <= k < n && victims[k] == slot;
    BlocksLate(victims, Hits(st, q), n, |victims| - n + k);
    assert BatchOf(st, q, w).tables.lru[|victims| - n + k] == slot;
  }

  lemma BlocksLate(victims: seq<int>, hits: seq<int>, n: nat, at: nat)
    requires n <= |victims| && |victims| - n <= at < |victims| + |hits|
    ensures var order := victims[n..] + victims[..n] + hits;
            && at + n + |hits| >= |order|
            && order[at] == if at < |victims| then victims[at - (|victims| - n)] else hits[at - |victims|]
  {
  }

  // Any other slot sinks by at most |q| entries, so it is safe while d + |q| fits the table.
  lemma UnusedSinksSlowly(st: Tables, q: seq<int>, w: seq<bool>, slot: int, d: nat)
    requires ValidBatch(st, q, w) && AmongRecent(st, slot, d) && d + |q| <= |st.lru|
    requires slot !in HitSlots(st, q)
    ensures !IsVictim(Evictable(st, q), Rank(w, |w|), slot)
    ensures AmongRecent(BatchOf(st, q, w).tables, slot, d + |q|)
  {
    var i :| 0 <= i < |st.lru| && i + d >= |st.lru| && st.lru[i] == slot;
    SinksAt(st, q, w, i, d);
  }

  lemma SinksAt(st: Tables, q: seq<int>, w: seq<bool>, i: nat, d: nat)
    requires ValidBatch(st, q, w) && i < |st.lru| && i + d >= |st.lru| && d + |q| <= |st.lru|
    requires st.lru[i] !in HitSlots(st, q)
    ensures !IsVictim(Evictable(st, q), Rank(w, |w|), st.lru[i])
    ensures AmongRecent(BatchOf(st, q, w).tables, st.lru[i], d + |q|)
  {
    NewOrderBlocks(st, q, w);
    var rank := EvictableRank(st, q, i);
    NotAVictim(st, q, Rank(w, |w|), rank);
    StaysEarly(BatchOf(st, q, w).tables, Evictable(st, q), Hits(st, q), Rank(w, |w|), rank, d + |q|);
  }

  lemma StaysEarly(after: Tables, victims: seq<int>, hits: seq<int>, n: nat, rank: nat, d: nat)
    requires n <= rank < |victims| && after.lru == victims[n..] + victims[..n] + hits
    requires rank - n + d >= |after.lru|
    ensures AmongRecent(after, victims[rank], d)
  {
    assert after.lru[rank - n] == victims[rank];
  }

  // An evictable entry past the first n is not among them.
  lemma NotAVictim(st: Tables, q: seq<int>, n: nat, rank: nat)
    requires Consistent(st) && n <= rank < |Evictable(st, q)|
    ensures !IsVictim(Evictable(st, q), n, Evictable(st, q)[rank])
  {
    EvictableIsGood(st, q);
  }

  // An entry that is not hit is evictable at its place minus the hits before it.
  lemma EvictableRank(st: Tables, q: seq<int>, i: nat) returns (rank: nat)
    requires i < |st.lru| && st.lru[i] !in HitSlots(st, q)
    ensures rank < |Evictable(st, q)| && Evictable(st, q)[rank] == st.lru[i]
    ensures i - |Hits(st, q)| <= rank
  {
    var f, g := HitAt(st, q), EvictAt(st, q);
    RankComplement(f, g, i);
    RankMonotone(f, i, |st.lru|);
    CompactAt(st.lru, g, |st.lru|, i);
    rank := Rank(g, i);
  }

  // Queries in a number of full batches.
  function Total(batches: nat, maxQueries: nat): nat {
    if batches == 0 then 0 else Total(batches - 1, maxQueries) + maxQueries
  }

  lemma {:induction false} TotalIsProduct(batches: nat, maxQueries: nat)
    ensures Total(batches, maxQueries) == batches * maxQueries
  {
    if batches > 0 {
      TotalIsProduct(batches - 1, maxQueries);
      assert batches * maxQueries == (batches - 1) * maxQueries + maxQueries;
    }
  }

  // Retention bound: a token queried in batch i is still resident, in the same slot, after every batch j
  // with (j - i + 1) * maxQueries <= slots.
  lemma {:induction false} Retention(states: seq<Tables>, rounds: seq<Round>, maxQueries: nat, i: nat, j: nat,
                                     token: int)
    requires IsRun(states, rounds, maxQueries) && i <= j < |rounds|
    requires InRange(states[0], token) && token in rounds[i].query
    requires Total(j - i + 1, maxQueries) <= |states[0].slotToToken|
    ensures Stays(states[i + 1], states[j + 1], token, Total(j - i + 1, maxQueries))
    decreases j
  {
    RoundAt(states, rounds, maxQueries, j);
    if i == j {
      QueriedIsRecent(states[j], rounds[j].query, rounds[j].winners, token, maxQueries);
    } else {
      Retention(states, rounds, maxQueries, i, j - 1, token);
      OneMoreRound(states[j], rounds[j].query, rounds[j].winners, token, Total(j - i, maxQueries), maxQueries);
    }
  }

  // The token has the same slot in both states, and that slot is among the recent entries of the later one.
  ghost predicate Stays(first: Tables, now: Tables, token: int, recent: nat) {
    && InRange(first, token) && Resident(now, token)
    && now.tokenToSlot[token] == first.tokenToSlot[token]
    && AmongRecent(now, now.tokenToSlot[token], recent)
  }

  // With 10K slots and batches of 2K queries a queried token survives four further batches.
  lemma FourMoreBatches(states: seq<Tables>, rounds: seq<Round>, i: nat, j: nat, token: int)
    requires IsRun(states, rounds, 2048) && i <= j <= i + 4 && j < |rounds|
    requires |states[0].slotToToken| == 10240
    requires InRange(states[0], token) && token in rounds[i].query
    ensures Resident(states[j + 1], token)
  {
    TotalIsProduct(j - i + 1, 2048);
    Retention(states, rounds, 2048, i, j, token);
  }

  lemma RecentWidens(st: Tables, slot: int, d: nat, e: nat)
    requires AmongRecent(st, slot, d) && d <= e
    ensures AmongRecent(st, slot, e)
  {
    var k :| 0 <= k < |st.lru| && k + d >= |st.lru| && st.lru[k] == slot;
    assert k + e >= |st.lru|;
  }

  lemma QueriedIsRecent(st: Tables, q: seq<int>, w: seq<bool>, token: int, maxQueries: nat)
    requires ValidBatch(st, q, w) && InRange(st, token) && token in q && |q| <= maxQueries
    ensures var o := BatchOf(st, q, w).tables;
            && |o.tokenToSlot| == |st.tokenToSlot| && o.tokenToSlot[token] >= 0
            && AmongRecent(o, o.tokenToSlot[token], maxQueries)
  {
    TokenAfter(st, q, w, token);
    var slot := BatchOf(st, q, w).tables.tokenToSlot[token];
    if Resident(st, token) {
      var p :| 0 <= p < |q| && q[p] == token;
      assert slot in HitSlots(st, q);
    }
    DistinctCovers(st.lru, slot);
    if slot in HitSlots(st, q) {
      HitIsRecent(st, q, w, slot);
    } else {
      GivenIsRecent(st, q, w, slot);
    }
    RecentWidens(BatchOf(st, q, w).tables, slot, |q|, maxQueries);
  }

  lemma OneMoreRound(st: Tables, q: seq<int>, w: seq<bool>, token: int, d: nat, maxQueries: nat)
    requires ValidBatch(st, q, w) && Resident(st, token) && |q| <= maxQueries
    requires AmongRecent(st, st.tokenToSlot[token], d) && d + maxQueries <= |st.lru|
    ensures var o := BatchOf(st, q, w).tables;
            && |o.tokenToSlot| == |st.tokenToSlot| && o.tokenToSlot[token] == st.tokenToSlot[token]
            && AmongRecent(o, st.tokenToSlot[token], d + maxQueries)
  {
    var slot := st.tokenToSlot[token];
    TokenAfter(st, q, w, token);
    if slot in HitSlots(st, q) {
      BatchInstalled(st, q, w);
      DistinctCovers(st.lru, slot);
      HitIsRecent(st, q, w, slot);
      RecentWidens(BatchOf(st, q, w).tables, slot, |q|, d + maxQueries);
      assert !IsVictim(Evictable(st, q), Rank(w, |w|), slot);
      HitTokenKept(st, q, w, token);
    } else {
      UnusedSinksSlowly(st, q, w, slot, d);
      RecentWidens(BatchOf(st, q, w).tables, slot, d + |q|, d + maxQueries);
    }
  }

  lemma HitTokenKept(st: Tables, q: seq<int>, w: seq<bool>, token: int)
    requires ValidBatch(st, q, w) && Resident(st, token) && st.tokenToSlot[token] in HitSlots(st, q)
    ensures token in q
  {
    var p :| 0 <= p < |q| && Resident(st, q[p]) && st.tokenToSlot[q[p]] == st.tokenToSlot[token];
    assert st.slotToToken[st.tokenToSlot[q[p]]] == q[p];
  }

  // ---- recency ---------------------------------------------------------------------------------

  // The batch answered some query with this slot.
  ghost predicate Used(st: Tables, q: seq<int>, w: seq<bool>, slot: int)
    requires ValidBatch(st, q, w)
  {
    exists p | 0 <= p < |q| :: BatchOf(st, q, w).slotIds[p] == slot
  }

  // Number of the last of the first n rounds that used the slot, 0 if none did.
  ghost function LastBatch(states: seq<Tables>, rounds: seq<Round>, n: nat, slot: int): (r: nat)
    requires n <= |rounds| && |states| == |rounds| + 1
    ensures r <= n
  {
    if n == 0 then 0
    else if ValidBatch(states[n - 1], rounds[n - 1].query, rounds[n - 1].winners)
            && Used(states[n - 1], rounds[n - 1].query, rounds[n - 1].winners, slot) then n
    else LastBatch(states, rounds, n - 1, slot)
  }

  // The slots a batch answers with are exactly the hit slots and the slots it gave away.
  lemma UsedSlots(st: Tables, q: seq<int>, w: seq<bool>, slot: int)
    requires ValidBatch(st, q, w) && 0 <= slot < |st.slotToToken|
    ensures Used(st, q, w, slot) <==>
            slot in HitSlots(st, q) || IsVictim(Evictable(st, q), Rank(w, |w|), slot)
  {
    var o := BatchOf(st, q, w);
    BatchInstalled(st, q, w);
    if Used(st, q, w, slot) {
      var p :| 0 <= p < |q| && o.slotIds[p] == slot;
      TokenAfter(st, q, w, q[p]);
      assert Resident(st, q[p]) ==> st.tokenToSlot[q[p]] in HitSlots(st, q);
    }
    if slot in HitSlots(st, q) {
      var p :| 0 <= p < |q| && Resident(st, q[p]) && st.tokenToSlot[q[p]] == slot;
      TokenAfter(st, q, w, q[p]);
      assert o.slotIds[p] == slot;
    }
    if IsVictim(Evictable(st, q), Rank(w, |w|), slot) {
      var k :| 0 <= k < Rank(w, |w|) && Evictable(st, q)[k] == slot;
      var p := CompactSource(q, w, |q|, k);
      assert Get(o.tables.tokenToSlot, q[p]) == slot;
      assert o.slotIds[p] == slot;
    }
  }

  ghost predicate SortedByUse(states: seq<Tables>, rounds: seq<Round>, n: nat)
    requires n <= |rounds| && |states| == |rounds| + 1
  {
    var lru := states[n].lru;
    forall a, b | 0 <= a < b < |lru| :: LastBatch(states, rounds, n, lru[a]) <= LastBatch(states, rounds, n, lru[b])
  }

  // Over any run the order list is sorted by the last batch that used each slot.
  lemma {:induction false} OrderIsRecency(states: seq<Tables>, rounds: seq<Round>, maxQueries: nat, n: nat)
    requires IsRun(states, rounds, maxQueries) && n <= |rounds|
    ensures SortedByUse(states, rounds, n)
  {
    if n > 0 {
      OrderIsRecency(states, rounds, maxQueries, n - 1);
      var lru := states[n].lru;
      forall a, b | 0 <= a < b < |lru|
        ensures LastBatch(states, rounds, n, lru[a]) <= LastBatch(states, rounds, n, lru[b])
      {
        RecencyStep(states, rounds, maxQueries, n, a, b);
      }
    }
  }

  lemma RecencyStep(states: seq<Tables>, rounds: seq<Round>, maxQueries: nat, n: nat, a: nat, b: nat)
    requires IsRun(states, rounds, maxQueries) && 0 < n <= |rounds| && SortedByUse(states, rounds, n - 1)
    requires a < b < |states[n].lru|
    ensures LastBatch(states, rounds, n, states[n].lru[a]) <= LastBatch(states, rounds, n, states[n].lru[b])
  {
    var before, q, w := states[n - 1], rounds[n - 1].query, rounds[n - 1].winners;
    RoundAt(states, rounds, maxQueries, n - 1);
    if b < |Evictable(before, q)| - Rank(w, |w|) {
      StaleKept(before, q, w, a, b);
    } else {
      LateUsed(before, q, w, b);
    }
  }

  // An untouched entry moves to the front part and is not used.
  lemma StaleAt(st: Tables, q: seq<int>, w: seq<bool>, a: nat)
    requires ValidBatch(st, q, w) && a < |Evictable(st, q)| - Rank(w, |w|)
    ensures var lru := BatchOf(st, q, w).tables.lru;
            a < |lru| && lru[a] == Evictable(st, q)[Rank(w, |w|) + a] && !Used(st, q, w, lru[a])
  {
    NewOrderBlocks(st, q, w);
    StaleUnused(st, q, w, Rank(w, |w|) + a);
  }

  // Two untouched entries keep their order.
  lemma StaleKept(st: Tables, q: seq<int>, w: seq<bool>, a: nat, b: nat)
    requires ValidBatch(st, q, w) && a < b < |Evictable(st, q)| - Rank(w, |w|)
    ensures var lru := BatchOf(st, q, w).tables.lru;
            && b < |lru| && !Used(st, q, w, lru[a]) && !Used(st, q, w, lru[b])
            && exists i, j | 0 <= i < j < |st.lru| :: st.lru[i] == lru[a] && st.lru[j] == lru[b]
  {
    StaleAt(st, q, w, a);
    StaleAt(st, q, w, b);
    StaleSorted(st, q, Rank(w, |w|) + a, Rank(w, |w|) + b);
  }

  // Evictable slots keep their relative order.
  lemma StaleSorted(st: Tables, q: seq<int>, a: nat, b: nat)
    requires a < b < |Evictable(st, q)|
    ensures exists i, j | 0 <= i < j < |st.lru| :: st.lru[i] == Evictable(st, q)[a] && st.lru[j] == Evictable(st, q)[b]
  {
    var g := EvictAt(st, q);
    var i := CompactSource(st.lru, g, |st.lru|, a);
    var j := CompactSource(st.lru, g, |st.lru|, b);
    if j < i {
      RankMonotone(g, j, i);
    }
  }

  lemma LateUsed(st: Tables, q: seq<int>, w: seq<bool>, at: nat)
    requires ValidBatch(st, q, w) && |Evictable(st, q)| - Rank(w, |w|) <= at < |BatchOf(st, q, w).tables.lru|
    ensures Used(st, q, w, BatchOf(st, q, w).tables.lru[at])
  {
    NewOrderBlocks(st, q, w);
    var victims, m := Evictable(st, q), Rank(w, |w|);
    BlocksLate(victims, Hits(st, q), m, at);
    HitsFacts(st, q);
    EvictableIsGood(st, q);
    var slot := BatchOf(st, q, w).tables.lru[at];
    assert at < |victims| ==> IsVictim(victims, m, slot);
    UsedSlots(st, q, w, slot);
  }

  // An evictable slot beyond the ones given away is not used by the batch.
  lemma StaleUnused(st: Tables, q: seq<int>, w: seq<bool>, k: nat)
    requires ValidBatch(st, q, w) && Rank(w, |w|) <= k < |Evictable(st, q)|
    ensures !Used(st, q, w, Evictable(st, q)[k])
  {
    BatchInstalled(st, q, w);
    UsedSlots(st, q, w, Evictable(st, q)[k]);
  }

  // Hence no slot given away was used more recently than a slot that neither was hit nor given away.
  lemma VictimsAreLeastRecent(states: seq<Tables>, rounds: seq<Round>, maxQueries: nat, n: nat, victim: nat,
                              survivor: nat)
    requires IsRun(states, rounds, maxQueries) && n < |rounds|
    requires victim < Rank(rounds[n].winners, |rounds[n].winners|) <= survivor
    requires survivor < |Evictable(states[n], rounds[n].query)|
    ensures var evictable := Evictable(states[n], rounds[n].query);
            LastBatch(states, rounds, n, evictable[victim]) <= LastBatch(states, rounds, n, evictable[survivor])
  {
    OrderIsRecency(states, rounds, maxQueries, n);
    StaleSorted(states[n], rounds[n].query, victim, survivor);
  }
}
