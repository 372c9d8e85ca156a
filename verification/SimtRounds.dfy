/** A finished kernel launch is one round of the run model, so every theorem about runs holds of runs of
    the concurrent kernel. */
module SimtRounds {
  import opened Compaction
  import opened Mappings
  import opened LookupSpec
  import opened LookupReference
  import opened LruRuns
  import opened SimtMachine
  import opened SimtRefinement
  import opened SimtSchedules

  function TablesOf(m: Mem): Tables {
    Tables(m.tokenToSlot, m.slotToToken, m.lru)
  }

  // Whatever the schedule: the tables are consistent again, no CLAIMING mark survives, and the launch is
  // a round for the winners it recorded.
  lemma FinishedKernelIsRound(k: Kernel, st: Tables, s: State, schedule: seq<nat>)
    requires Ready(k, st, s) && k.Finished(k.Run(s, schedule))
    ensures var m := k.Run(s, schedule).mem;
            && IsRound(st, Round(k.query, m.missMask), TablesOf(m), |k.query|)
            && Consistent(TablesOf(m))
            && CLAIMING !in m.tokenToSlot
  {
    KernelRefinesBatch(k, st, s, schedule);
    BatchKeepsConsistent(st, k.query, k.Run(s, schedule).mem.missMask);
  }

  // ... and every valid query is answered by a slot that maps back to its token.
  lemma KernelAnswersMapBack(k: Kernel, st: Tables, s: State, schedule: seq<nat>, p: nat)
    requires Ready(k, st, s) && k.Finished(k.Run(s, schedule)) && p < |k.query|
    ensures var m := k.Run(s, schedule).mem;
            && |m.slotIds| == |k.query|
            && if InRange(st, k.query[p])
               then 0 <= m.slotIds[p] < |m.slotToToken| && m.slotToToken[m.slotIds[p]] == k.query[p]
               else m.slotIds[p] == NOT_FOUND
  {
    KernelRefinesBatch(k, st, s, schedule);
    AnswersMapBack(st, k.query, k.Run(s, schedule).mem.missMask, p);
  }

  // ---- a launch whose tables depend on the schedule ----------------------------------------------------

  // The thread that runs alone through the claim phase wins every missing token it queries, and keeps it
  // to the end of the launch.
  lemma LoneThreadWins(k: Kernel, st: Tables, s: State, u: nat) returns (schedule: seq<nat>)
    requires Ready(k, st, s) && u < k.threads
    ensures k.Finished(k.Run(s, schedule)) && |k.Run(s, schedule).mem.missMask| == |k.query|
    ensures forall x: nat | x < |k.query| && x % k.threads == u && Missing(st, k.query[x]) ::
              WonBy(k, k.Run(s, schedule).mem.missMask, u, k.query[x])
  {
    var claiming := ReachClaim(k, st, s);
    var alone := RunAlone(k, st, s, claiming, u);
    RunKeeps(k, st, s, alone);
    schedule := AlwaysFinishable(k, st, s, alone);
    KernelRefinesBatch(k, st, s, schedule);
    forall x: nat | x < |k.query| && x % k.threads == u && Missing(st, k.query[x])
      ensures WonBy(k, k.Run(s, schedule).mem.missMask, u, k.query[x])
    {
      var p := LoneWinner(k, st, k.Run(s, alone), u, x);
      SecuredStays(k, st, s, alone, schedule, p);
    }
  }

  ghost predicate WonBy(k: Kernel, missMask: seq<bool>, u: nat, token: int)
    requires 0 < k.threads && |missMask| == |k.query|
  {
    exists p: nat :: p < |k.query| && p % k.threads == u && k.query[p] == token && missMask[p]
  }

  // Two threads, four free slots, and two missing tokens that each thread queries once.
  const SMALL_KERNEL := Kernel(2, [0, 1, 1, 0])
  const SMALL_TABLES := Tables([NOT_FOUND, NOT_FOUND], [NOT_FOUND, NOT_FOUND, NOT_FOUND, NOT_FOUND], [0, 1, 2, 3])

  function SmallLocal(t: nat): Local {
    Local(Clear, t, 0, 0, 0, 0, 0, 0, 0, 0, 0, 0, 0, 0, 0, 0)
  }

  const SMALL_STATE := State(0, Mem([NOT_FOUND, NOT_FOUND], [NOT_FOUND, NOT_FOUND, NOT_FOUND, NOT_FOUND], [0, 1, 2, 3],
                                    [0, 0, 0, 0], [false, false, false, false],
                                    [false, false, false, false], [0, 0, 0, 0], [0, 0, 0, 0],
                                    [0, 0], [0, 0], [0, 0], [0, 0, 0, 0]),
                             [SmallLocal(0), SmallLocal(1)])

  lemma SmallReady()
    ensures Ready(SMALL_KERNEL, SMALL_TABLES, SMALL_STATE)
  {
  }

  // When one thread wins both tokens, its queries alone are the misses, in its order.
  lemma SmallMask(w: seq<bool>, u: nat)
    requires u < 2 && IsChoice(SMALL_TABLES, SMALL_KERNEL.query, w)
    requires WonBy(SMALL_KERNEL, w, u, 0) && WonBy(SMALL_KERNEL, w, u, 1)
    ensures w == if u == 0 then [true, false, true, false] else [false, true, false, true]
  {
    var q := SMALL_KERNEL.query;
    var p: nat :| p < |q| && p % 2 == u && q[p] == 0 && w[p];
    var r: nat :| r < |q| && r % 2 == u && q[r] == 1 && w[r];
    assert forall i | 0 <= i < |q| && w[i] && q[i] == 0 :: i == p;
    assert forall i | 0 <= i < |q| && w[i] && q[i] == 1 :: i == r;
  }

  lemma SmallVictims()
    ensures Evictable(SMALL_TABLES, SMALL_KERNEL.query) == [0, 1, 2, 3]
  {
    var lru, f := SMALL_TABLES.lru, EvictAt(SMALL_TABLES, SMALL_KERNEL.query);
    assert HitSlots(SMALL_TABLES, SMALL_KERNEL.query) == {};
    assert f == [true, true, true, true];
    assert CompactTo(lru, f, 1) == [0];
    assert CompactTo(lru, f, 2) == [0, 1];
    assert CompactTo(lru, f, 3) == [0, 1, 2];
  }

  lemma SmallMisses(w: seq<bool>, u: nat)
    requires u < 2 && w == if u == 0 then [true, false, true, false] else [false, true, false, true]
    ensures Compact(SMALL_KERNEL.query, w) == if u == 0 then [0, 1] else [1, 0]
  {
    var q := SMALL_KERNEL.query;
    assert CompactTo(q, w, 1) == if u == 0 then [0] else [];
    assert CompactTo(q, w, 2) == if u == 0 then [0] else [1];
    assert CompactTo(q, w, 3) == if u == 0 then [0, 1] else [1];
  }

  lemma SmallInstall(tokens: seq<int>)
    requires tokens == [0, 1] || tokens == [1, 0]
    ensures InstallTo(SMALL_TABLES, tokens, [0, 1, 2, 3], 2).tokenToSlot == tokens
  {
    var one := InstallTo(SMALL_TABLES, tokens, [0, 1, 2, 3], 1);
    assert InstallTo(SMALL_TABLES, tokens, [0, 1, 2, 3], 0) ==
           Mapping(SMALL_TABLES.tokenToSlot, SMALL_TABLES.slotToToken);
    assert one.slotToToken == [tokens[0], NOT_FOUND, NOT_FOUND, NOT_FOUND];
  }

  // Running either thread first through the claim phase: not only the mask but the tables differ.
  lemma TablesDependOnSchedule() returns (first: seq<nat>, second: seq<nat>)
    ensures Ready(SMALL_KERNEL, SMALL_TABLES, SMALL_STATE)
    ensures SMALL_KERNEL.Finished(SMALL_KERNEL.Run(SMALL_STATE, first))
    ensures SMALL_KERNEL.Finished(SMALL_KERNEL.Run(SMALL_STATE, second))
    ensures SMALL_KERNEL.Run(SMALL_STATE, first).mem.tokenToSlot == [0, 1]
    ensures SMALL_KERNEL.Run(SMALL_STATE, second).mem.tokenToSlot == [1, 0]
  {
    SmallReady();
    first := SmallRun(0);
    second := SmallRun(1);
  }

  lemma SmallRun(u: nat) returns (schedule: seq<nat>)
    requires u < 2
    ensures SMALL_KERNEL.Finished(SMALL_KERNEL.Run(SMALL_STATE, schedule))
    ensures SMALL_KERNEL.Run(SMALL_STATE, schedule).mem.tokenToSlot == if u == 0 then [0, 1] else [1, 0]
  {
    SmallReady();
    schedule := LoneThreadWins(SMALL_KERNEL, SMALL_TABLES, SMALL_STATE, u);
    KernelRefinesBatch(SMALL_KERNEL, SMALL_TABLES, SMALL_STATE, schedule);
    SmallOutcome(SMALL_KERNEL.Run(SMALL_STATE, schedule).mem, u);
  }

  lemma SmallOutcome(m: Mem, u: nat)
    requires u < 2 && IsChoice(SMALL_TABLES, SMALL_KERNEL.query, m.missMask)
    requires Rank(m.missMask, |m.missMask|) <= |Evictable(SMALL_TABLES, SMALL_KERNEL.query)|
    requires TablesOf(m) == Batch(SMALL_TABLES, SMALL_KERNEL.query, m.missMask).tables
    requires forall x: nat | x < 4 && x % 2 == u && Missing(SMALL_TABLES, SMALL_KERNEL.query[x]) ::
               WonBy(SMALL_KERNEL, m.missMask, u, SMALL_KERNEL.query[x])
    ensures m.tokenToSlot == if u == 0 then [0, 1] else [1, 0]
  {
    assert u % 2 == u && (2 + u) % 2 == u;
    assert SMALL_KERNEL.query[u] == u && SMALL_KERNEL.query[2 + u] == 1 - u;
    assert WonBy(SMALL_KERNEL, m.missMask, u, SMALL_KERNEL.query[u]);
    assert WonBy(SMALL_KERNEL, m.missMask, u, SMALL_KERNEL.query[2 + u]);
    SmallMask(m.missMask, u);
    SmallVictims();
    SmallMisses(m.missMask, u);
    SmallInstall(if u == 0 then [0, 1] else [1, 0]);
  }
}
