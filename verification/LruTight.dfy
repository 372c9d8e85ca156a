/** The retention bound cannot be improved: for all sizes there is a run that loses a token in the first batch
    past it. */
module LruTight {
  import opened Compaction
  import opened Mappings
  import opened LookupSpec
  import opened LruRuns

  // ---- a pool cannot hold more tokens than slots -------------------------------------------------------

  lemma ResidentsFit(st: Tables, n: nat)
    requires Consistent(st) && forall t | 0 <= t < n :: Resident(st, t)
    ensures n <= |st.slotToToken|
  {
    var held := (slot: int) => Get(st.slotToToken, slot);
    forall t | t in Below(n)
      ensures exists slot | slot in Below(|st.slotToToken|) :: held(slot) == t
    {
      assert Resident(st, t);
      var slot := st.tokenToSlot[t];
      assert slot in Below(|st.slotToToken|);
      assert held(slot) == Get(st.slotToToken, slot);
    }
    ImageNotLarger(Below(|st.slotToToken|), Below(n), held);
  }

  lemma SomeoneMissing(st: Tables, n: nat) returns (token: int)
    requires Consistent(st) && |st.slotToToken| < n
    ensures 0 <= token < n && !Resident(st, token)
  {
    if forall t | 0 <= t < n :: Resident(st, t) {
      ResidentsFit(st, n);
      assert false;
    }
    token :| 0 <= token < n && !Resident(st, token);
  }

  // ---- batches of new tokens ---------------------------------------------------------------------------

  // Batch b queries maxQueries tokens that no other batch queries.
  function NewTokens(b: nat, maxQueries: nat): (q: seq<int>)
    ensures |q| == maxQueries && forall x | 0 <= x < maxQueries :: q[x] == Total(b, maxQueries) + x
  {
    seq(maxQueries, x requires 0 <= x < maxQueries => Total(b, maxQueries) + x)
  }

  lemma {:induction false} InSomeBatch(token: int, n: nat, maxQueries: nat) returns (b: nat)
    requires 0 <= token < Total(n, maxQueries)
    ensures b < n && token in NewTokens(b, maxQueries)
  {
    if token < Total(n - 1, maxQueries) {
      b := InSomeBatch(token, n - 1, maxQueries);
    } else {
      b := n - 1;
      assert NewTokens(b, maxQueries)[token - Total(b, maxQueries)] == token;
    }
  }

  function Unused(n: nat): (s: seq<int>)
    ensures |s| == n && forall i | 0 <= i < n :: s[i] == NOT_FOUND
  {
    seq(n, i requires 0 <= i < n => NOT_FOUND)
  }

  function EmptyTables(slots: nat, tokens: nat): (st: Tables)
    ensures Consistent(st) && |st.slotToToken| == slots && |st.tokenToSlot| == tokens
  {
    Tables(Unused(tokens), Unused(slots), Arange(slots))
  }

  ghost predicate NewTokenRun(states: seq<Tables>, rounds: seq<Round>, slots: nat, tokens: nat, maxQueries: nat) {
    && IsRun(states, rounds, maxQueries) && states[0] == EmptyTables(slots, tokens)
    && forall b | 0 <= b < |rounds| :: rounds[b].query == NewTokens(b, maxQueries)
  }

  // The run of n such batches on an empty pool.
  lemma {:induction false} MakeRun(slots: nat, tokens: nat, maxQueries: nat, n: nat)
    returns (states: seq<Tables>, rounds: seq<Round>)
    requires maxQueries <= slots
    ensures NewTokenRun(states, rounds, slots, tokens, maxQueries) && |rounds| == n
  {
    if n == 0 {
      states, rounds := [EmptyTables(slots, tokens)], [];
    } else {
      states, rounds := MakeRun(slots, tokens, maxQueries, n - 1);
      var st, q := states[n - 1], NewTokens(n - 1, maxQueries);
      RunKeepsConsistent(states, rounds, maxQueries, n - 1);
      FirstIsChoice(st, q);
      EnoughVictims(st, q, FirstChoice(st, q));
      var round, after := Round(q, FirstChoice(st, q)), Batch(st, q, FirstChoice(st, q)).tables;
      assert IsRound(st, round, after, maxQueries);
      ExtendRun(states, rounds, maxQueries, round, after);
      states, rounds := states + [after], rounds + [round];
    }
  }

  lemma ExtendRun(states: seq<Tables>, rounds: seq<Round>, maxQueries: nat, round: Round, after: Tables)
    requires IsRun(states, rounds, maxQueries) && IsRound(states[|rounds|], round, after, maxQueries)
    ensures IsRun(states + [after], rounds + [round], maxQueries)
  {
    forall n: nat | n < |rounds| + 1
      ensures RoundInRun(states + [after], rounds + [round], maxQueries, n)
    {
      if n < |rounds| {
        assert RoundInRun(states, rounds, maxQueries, n);
      }
    }
  }

  lemma {:induction false} TotalMonotone(m: nat, n: nat, maxQueries: nat)
    requires m <= n
    ensures Total(m, maxQueries) <= Total(n, maxQueries)
    decreases n
  {
    if m < n {
      TotalMonotone(m, n - 1, maxQueries);
    }
  }

  // For every pool size and batch size, and the first batch j that is past the retention bound, there is a
  // run after whose batch j some token of batch 0 is gone.
  lemma RetentionTight(slots: nat, maxQueries: nat, j: nat)
    returns (states: seq<Tables>, rounds: seq<Round>, token: int)
    requires maxQueries <= slots && Total(j, maxQueries) <= slots < Total(j + 1, maxQueries)
    ensures IsRun(states, rounds, maxQueries) && |rounds| == j + 1 && |states[0].slotToToken| == slots
    ensures InRange(states[0], token) && token in rounds[0].query && !Resident(states[j + 1], token)
  {
    states, rounds := MakeRun(slots, Total(j + 1, maxQueries), maxQueries, j + 1);
    RunKeepsConsistent(states, rounds, maxQueries, j + 1);
    token := SomeoneMissing(states[j + 1], Total(j + 1, maxQueries));
    var b := InSomeBatch(token, j + 1, maxQueries);
    if b > 0 {
      TotalMonotone(j - b + 1, j, maxQueries);
      Retention(states, rounds, maxQueries, b, j, token);
    }
  }
}
