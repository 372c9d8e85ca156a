/** Schedules of the SIMT kernel: no deadlock, termination of every phase, and exactly when the result
    does not depend on the schedule. */
module SimtSchedules {
  import opened Compaction
  import opened LookupSpec
  import opened SimtMachine
  import opened SimtClaim
  import opened SimtPartition
  import opened SimtReplace
  import opened SimtRefinement

  // ---- termination -----------------------------------------------------------------------------

  function Left(n: nat, pos: nat): nat {
    if pos < n then n - pos else 0
  }

  // Bound on the steps a thread still takes before the next barrier.
  function Remaining(slots: nat, queries: nat, t: nat, l: Local): int {
    match l.pc
    case Clear => 2 + Left(slots, l.pos)
    case ClearCounters => 1
    case ClaimInit => 6 * Left(queries, l.pos) + 1
    case ClaimRead => 6 * Left(queries, l.pos)
    case ClaimHit => 6 * Left(queries, l.pos) - 1
    case ClaimCas => 6 * Left(queries, l.pos) - 1
    case ClaimPost => 6 * Left(queries, l.pos) - 2
    case CountLru => 2 + Left(slots, l.pos)
    case StoreLru => 1
    case SumLru => 3 + Left(slots, l.pos) + Left(t, l.i)
    case Scatter => 2 + Left(slots, l.pos)
    case StoreLruTotals => 1
    case CountMiss => 2 + Left(queries, l.pos)
    case StoreMiss => 1
    case SumMiss => 3 + 6 * Left(queries, l.pos) + Left(t, l.i)
    case Pick => 2 + 6 * Left(queries, l.pos)
    case ClearOld => 6 * Left(queries, l.pos) + 1
    case SetSlot => 6 * Left(queries, l.pos)
    case SetToken => 6 * Left(queries, l.pos) - 1
    case SetId => 6 * Left(queries, l.pos) - 2
    case StoreMissTotal => 1
    case Rewrite => 2 + queries + Left(slots, l.pos)
    case Resolve => 1 + Left(queries, l.pos)
    case Barrier => 0
  }

  function Work(k: Kernel, slots: nat, ls: seq<Local>, n: nat): int
    requires n <= |ls|
  {
    if n == 0 then 0 else Work(k, slots, ls, n - 1) + Remaining(slots, |k.query|, n - 1, ls[n - 1])
  }

  lemma {:induction false} WorkUpdate(k: Kernel, slots: nat, ls: seq<Local>, n: nat, t: nat, l: Local)
    requires n <= |ls| && t < |ls|
    ensures Work(k, slots, ls[t := l], n) == Work(k, slots, ls, n) +
            if t < n then Remaining(slots, |k.query|, t, l) - Remaining(slots, |k.query|, t, ls[t]) else 0
  {
    if n > 0 {
      WorkUpdate(k, slots, ls, n - 1, t, l);
    }
  }

  // Inside its claim or its replacement a thread is at a query position.
  ghost predicate AtQuery(k: Kernel, l: Local) {
    l.pc in {ClaimRead, ClaimHit, ClaimCas, ClaimPost, ClearOld, SetSlot, SetToken, SetId} ==>
      l.pos < |k.query|
  }

  // The program counter belongs to the phase.
  predicate PcOf(phase: nat, pc: Pc) {
    pc == Barrier ||
    if phase == 0 then pc in {Clear, ClearCounters}
    else if phase == 1 then pc in {ClaimInit, ClaimRead, ClaimHit, ClaimCas, ClaimPost}
    else if phase == 2 then pc in {CountLru, StoreLru}
    else if phase == 3 then pc in {SumLru, Scatter, StoreLruTotals}
    else if phase == 4 then pc in {CountMiss, StoreMiss}
    else if phase == 5 then pc in {SumMiss, Pick, ClearOld, SetSlot, SetToken, SetId, StoreMissTotal}
    else pc in {Rewrite, Resolve}
  }

  lemma PcClaim(k: Kernel, st: Tables, m: Mem, ls: seq<Local>, t: nat)
    requires 0 < k.threads == |ls| && t < |ls| && ClaimInv(k, st, m, ls)
    ensures AtQuery(k, ls[t]) && PcOf(1, ls[t].pc)
  {
    assert ClaimLocalOk(k, st, m, ls[t]);
  }

  lemma PcPartition(k: Kernel, f: seq<bool>, g: seq<bool>, m: Mem, ls: seq<Local>, t: nat)
    requires 0 < k.threads == |ls| && t < |ls|
    ensures CountInv(k, f, g, m, ls) ==> AtQuery(k, ls[t]) && PcOf(2, ls[t].pc)
    ensures ScatterInv(k, f, g, m, ls) ==> AtQuery(k, ls[t]) && PcOf(3, ls[t].pc)
  {
    if CountInv(k, f, g, m, ls) {
      assert CountLocalOk(k, f, g, m, t, ls[t]);
    }
    if ScatterInv(k, f, g, m, ls) {
      assert ScatterLocalOk(k, f, g, m, t, ls[t]);
    }
  }

  lemma PcMiss(k: Kernel, w: seq<bool>, m: Mem, ls: seq<Local>, t: nat)
    requires MissInv(k, w, m, ls) && t < |ls|
    ensures AtQuery(k, ls[t]) && PcOf(4, ls[t].pc)
  {
    assert MissLocalOk(k, w, m, t, ls[t]);
  }

  lemma PcReplace(k: Kernel, pl: Plan, m: Mem, ls: seq<Local>, t: nat)
    requires ReplaceMem(k, pl, m) && |ls| == k.threads && AllReplaceLocalOk(k, pl, m, ls) && t < |ls|
    ensures AtQuery(k, ls[t]) && PcOf(5, ls[t].pc)
  {
    assert ReplaceLocalOk(k, pl, m, t, ls[t]);
  }

  lemma AtQueryAlways(k: Kernel, st: Tables, phase: nat, m: Mem, ls: seq<Local>, t: nat)
    requires 0 < k.threads == |ls| && t < |ls| && phase < LAST_PHASE && PhaseInv(k, st, phase, m, ls)
    ensures AtQuery(k, ls[t]) && PcOf(phase, ls[t].pc)
  {
    if phase == 1 {
      PcClaim(k, st, m, ls, t);
    } else if phase == 2 || phase == 3 {
      PcPartition(k, HitAt(st, k.query), EvictAt(st, k.query), m, ls, t);
    } else if phase == 4 {
      PcMiss(k, m.missMask, m, ls, t);
    } else if phase == 5 {
      PcReplace(k, PlanOf(k, st, m), m, ls, t);
    }
  }

  lemma SlotCount(k: Kernel, st: Tables, phase: nat, m: Mem, ls: seq<Local>)
    requires 0 < k.threads == |ls| && phase < LAST_PHASE && PhaseInv(k, st, phase, m, ls)
    requires Consistent(st)
    ensures |m.slotToToken| == |m.lru| == |st.slotToToken|
  {
    if phase == 6 {
      HitOrEvict(st, k.query);
    }
  }

  ghost predicate Decreases(k: Kernel, m: Mem, t: nat, l: Local, l': Local) {
    0 <= Remaining(|m.lru|, |k.query|, t, l') < Remaining(|m.lru|, |k.query|, t, l)
  }

  lemma DecreasesClaim(k: Kernel, m: Mem, t: nat, l: Local)
    requires 0 < k.threads && AtQuery(k, l) && PcOf(1, l.pc) && l.pc != Barrier
    ensures Decreases(k, m, t, l, k.ClaimStep(m, l).local)
  {
  }

  lemma DecreasesEarly(k: Kernel, m: Mem, t: nat, l: Local)
    requires 0 < k.threads && AtQuery(k, l) && l.pc != Barrier && |m.slotToToken| == |m.lru|
    ensures PcOf(0, l.pc) ==> Decreases(k, m, t, l, k.ClearStep(m, t, l).local)
    ensures PcOf(1, l.pc) ==> Decreases(k, m, t, l, k.ClaimStep(m, l).local)
    ensures PcOf(2, l.pc) ==> Decreases(k, m, t, l, k.CountLruStep(m, t, l).local)
  {
    if PcOf(1, l.pc) {
      DecreasesClaim(k, m, t, l);
    }
  }

  lemma DecreasesMiddle(k: Kernel, m: Mem, t: nat, l: Local)
    requires 0 < k.threads && l.pc != Barrier
    ensures PcOf(3, l.pc) ==> Decreases(k, m, t, l, k.ScatterStep(m, t, l).local)
    ensures PcOf(4, l.pc) ==> Decreases(k, m, t, l, k.CountMissStep(m, t, l).local)
  {
  }

  lemma DecreasesPick(k: Kernel, m: Mem, t: nat, l: Local)
    requires 0 < k.threads && l.pc in {SumMiss, Pick, StoreMissTotal}
    ensures Decreases(k, m, t, l, k.ReplaceStep(m, t, l).local)
  {
  }

  lemma DecreasesInstall(k: Kernel, m: Mem, t: nat, l: Local)
    requires 0 < k.threads && AtQuery(k, l) && l.pc in {ClearOld, SetSlot, SetToken, SetId}
    ensures Decreases(k, m, t, l, k.ReplaceStep(m, t, l).local)
  {
  }

  lemma DecreasesFinish(k: Kernel, m: Mem, t: nat, l: Local)
    requires 0 < k.threads && l.pc in {Rewrite, Resolve}
    ensures Decreases(k, m, t, l, k.FinishStep(m, t, l).local)
  {
  }

  lemma DecreasesLate(k: Kernel, m: Mem, t: nat, l: Local)
    requires 0 < k.threads && AtQuery(k, l) && l.pc != Barrier
    ensures PcOf(5, l.pc) ==> Decreases(k, m, t, l, k.ReplaceStep(m, t, l).local)
    ensures PcOf(6, l.pc) ==> Decreases(k, m, t, l, k.FinishStep(m, t, l).local)
  {
    if l.pc in {SumMiss, Pick, StoreMissTotal} {
      DecreasesPick(k, m, t, l);
    } else if l.pc in {ClearOld, SetSlot, SetToken, SetId} {
      DecreasesInstall(k, m, t, l);
    } else if l.pc in {Rewrite, Resolve} {
      DecreasesFinish(k, m, t, l);
    }
  }

  // Every step of a thread that is not waiting brings it closer to the next barrier.
  lemma StepDecreases(k: Kernel, st: Tables, s: State, t: nat)
    requires Consistent(st) && Inv(k, st, s) && s.phase < LAST_PHASE
    requires t < |s.locals| && s.locals[t].pc != Barrier
    ensures var s' := k.Step(s, t);
            && s'.phase == s.phase && |s'.locals| == |s.locals|
            && (forall u | 0 <= u < |s.locals| && u != t :: s'.locals[u] == s.locals[u])
            && Decreases(k, s.mem, t, s.locals[t], s'.locals[t])
            && Work(k, |st.slotToToken|, s'.locals, |s'.locals|) < Work(k, |st.slotToToken|, s.locals, |s.locals|)
  {
    var l := s.locals[t];
    AtQueryAlways(k, st, s.phase, s.mem, s.locals, t);
    SlotCount(k, st, s.phase, s.mem, s.locals);
    DecreasesEarly(k, s.mem, t, l);
    DecreasesMiddle(k, s.mem, t, l);
    DecreasesLate(k, s.mem, t, l);
    StepIsThreadStep(k, s, t);
    var l' := k.ThreadStep(s.phase, s.mem, t, l).local;
    WorkUpdate(k, |st.slotToToken|, s.locals, |s.locals|, t, l');
  }

  lemma RemainingPositive(k: Kernel, slots: nat, t: nat, l: Local)
    requires AtQuery(k, l)
    ensures 0 <= Remaining(slots, |k.query|, t, l)
    ensures l.pc != Barrier ==> 0 < Remaining(slots, |k.query|, t, l)
  {
  }

  lemma {:induction false} WorkPositive(k: Kernel, slots: nat, ls: seq<Local>, n: nat)
    requires n <= |ls| && forall t | 0 <= t < |ls| :: AtQuery(k, ls[t])
    ensures 0 <= Work(k, slots, ls, n)
  {
    if n > 0 {
      WorkPositive(k, slots, ls, n - 1);
      RemainingPositive(k, slots, n - 1, ls[n - 1]);
    }
  }

  lemma WorkIsNatural(k: Kernel, st: Tables, s: State)
    requires Inv(k, st, s) && s.phase < LAST_PHASE
    ensures 0 <= Work(k, |st.slotToToken|, s.locals, |s.locals|)
  {
    forall t | 0 <= t < |s.locals|
      ensures AtQuery(k, s.locals[t])
    {
      AtQueryAlways(k, st, s.phase, s.mem, s.locals, t);
    }
    WorkPositive(k, |st.slotToToken|, s.locals, |s.locals|);
  }

  // A launch the kernel accepts.
  ghost predicate Ready(k: Kernel, st: Tables, s: State) {
    0 < k.threads && Consistent(st) && |k.query| <= |st.slotToToken| && k.Launch(st, s)
  }

  lemma RunExtend(k: Kernel, s: State, prefix: seq<nat>, t: nat)
    requires 0 < k.threads
    ensures k.Run(s, prefix + [t]) == k.Step(k.Run(s, prefix), t)
  {
    assert (prefix + [t])[..|prefix + [t]| - 1] == prefix;
  }

  function WorkLeft(k: Kernel, st: Tables, s: State): int {
    Work(k, |st.slotToToken|, s.locals, |s.locals|)
  }

  // Scheduling a runnable thread moves only that thread, and reduces the work left in the phase.
  lemma RunnableMoves(k: Kernel, st: Tables, s: State, prefix: seq<nat>, t: nat)
    requires Ready(k, st, s)
    requires var r := k.Run(s, prefix);
             !k.Finished(r) && t < |r.locals| && r.locals[t].pc != Barrier
    ensures var r, r' := k.Run(s, prefix), k.Run(s, prefix + [t]);
            && r'.phase == r.phase && |r'.locals| == |r.locals| == k.threads
            && (forall u | 0 <= u < |r.locals| && u != t :: r'.locals[u] == r.locals[u])
            && 0 <= WorkLeft(k, st, r') < WorkLeft(k, st, r)
  {
    var r := k.Run(s, prefix);
    RunKeeps(k, st, s, prefix);
    RunExtend(k, s, prefix, t);
    StepDecreases(k, st, r, t);
    StepKeeps(k, st, r, t);
    WorkIsNatural(k, st, k.Step(r, t));
  }

  lemma BarrierOpens(k: Kernel, st: Tables, s: State, prefix: seq<nat>)
    requires Ready(k, st, s)
    requires var r := k.Run(s, prefix); !k.Finished(r) && AtBarrier(r.locals)
    ensures var r := k.Run(s, prefix);
            |r.locals| == k.threads
            && k.Run(s, prefix + [0]) == State(r.phase + 1, r.mem, Entered(k, r.mem, r.phase + 1, r.locals))
  {
    RunKeeps(k, st, s, prefix);
    RunExtend(k, s, prefix, 0);
    StepOpensBarrier(k, k.Run(s, prefix), 0);
  }

  lemma PhaseBounded(k: Kernel, st: Tables, s: State, prefix: seq<nat>)
    requires Ready(k, st, s)
    ensures k.Run(s, prefix).phase <= LAST_PHASE && |k.Run(s, prefix).locals| == k.threads
  {
    RunKeeps(k, st, s, prefix);
  }

  // From any point of any run the threads can all be brought to the next barrier ...
  lemma {:induction false} Drain(k: Kernel, st: Tables, s: State, prefix: seq<nat>) returns (schedule: seq<nat>)
    requires Ready(k, st, s) && !k.Finished(k.Run(s, prefix)) && 0 <= WorkLeft(k, st, k.Run(s, prefix))
    ensures prefix <= schedule
    ensures var r := k.Run(s, schedule); r.phase == k.Run(s, prefix).phase && AtBarrier(r.locals)
    decreases WorkLeft(k, st, k.Run(s, prefix))
  {
    var r := k.Run(s, prefix);
    if t :| 0 <= t < |r.locals| && r.locals[t].pc != Barrier {
      RunnableMoves(k, st, s, prefix, t);
      schedule := Drain(k, st, s, prefix + [t]);
    } else {
      schedule := prefix;
    }
  }

  // ... and from there to the end of the kernel: no schedule, however unfair so far, gets stuck.
  lemma {:induction false} AlwaysFinishable(k: Kernel, st: Tables, s: State, prefix: seq<nat>)
    returns (schedule: seq<nat>)
    requires Ready(k, st, s)
    ensures prefix <= schedule && k.Finished(k.Run(s, schedule))
    decreases LAST_PHASE - k.Run(s, prefix).phase
  {
    PhaseBounded(k, st, s, prefix);
    if k.Finished(k.Run(s, prefix)) {
      schedule := prefix;
    } else {
      RunKeeps(k, st, s, prefix);
      WorkIsNatural(k, st, k.Run(s, prefix));
      var drained := Drain(k, st, s, prefix);
      BarrierOpens(k, st, s, drained);
      schedule := AlwaysFinishable(k, st, s, drained + [0]);
    }
  }

  // ---- schedule independence -------------------------------------------------------------------

  // All occurrences of a missing token belong to one thread.
  ghost predicate DuplicatesOnOneThread(k: Kernel, st: Tables)
    requires 0 < k.threads
  {
    forall i: nat, j: nat | i < j < |k.query| && k.query[i] == k.query[j] && Missing(st, k.query[i]) ::
      i % k.threads == j % k.threads
  }

  lemma OwnFirstIsFirst(k: Kernel, st: Tables, w: seq<bool>)
    requires 0 < k.threads && IsChoice(st, k.query, w) && OwnFirst(k, w) && DuplicatesOnOneThread(k, st)
    ensures w == FirstChoice(st, k.query)
  {
    forall p: nat | p < |w|
      ensures w[p] == IsFirst(st, k.query, p)
    {
      if IsFirst(st, k.query, p) {
        assert Chosen(k.query, w, k.query[p]);
      }
    }
  }

  // The winner of a token keeps it until the end of the claim phase ...
  lemma WonStays(k: Kernel, st: Tables, s: State, t: nat, p: nat)
    requires Consistent(st) && Inv(k, st, s) && s.phase == 1 && t < |s.locals| && s.locals[t].pc != Barrier
    requires Won(k, s.mem, s.locals, p)
    ensures var s' := k.Step(s, t);
            |s'.locals| == k.threads && |s'.mem.missMask| == |k.query| && Won(k, s'.mem, s'.locals, p)
  {
    var l := s.locals[t];
    StepIsThreadStep(k, s, t);
    if l.pc == ClaimCas {
      assert ClaimLocalOk(k, st, s.mem, l);
      PassedAfter(k, s.locals, t, k.ClaimStep(s.mem, l).local);
    } else {
      QuietWon(k, st, s.mem, s.locals, t, p);
    }
  }

  // ... and no later phase writes the mask.
  lemma MaskKept(k: Kernel, phase: nat, m: Mem, t: nat, l: Local)
    requires 0 < k.threads && 2 <= phase < LAST_PHASE
    ensures k.ThreadStep(phase, m, t, l).mem.missMask == m.missMask
  {
  }

  // Position p holds its token at this point of the run, for good.
  ghost predicate Secured(k: Kernel, s: State, p: nat) {
    && 0 < k.threads == |s.locals| && |s.mem.missMask| == |k.query| && p < |k.query|
    && 1 <= s.phase
    && if s.phase == 1 then Won(k, s.mem, s.locals, p) else s.mem.missMask[p]
  }

  lemma SecuredStep(k: Kernel, st: Tables, s: State, t: nat, p: nat)
    requires Consistent(st) && |k.query| <= |st.slotToToken| && Inv(k, st, s) && Secured(k, s, p)
    ensures Secured(k, k.Step(s, t), p)
  {
    if s.phase < LAST_PHASE && t < |s.locals| {
      if s.locals[t].pc != Barrier {
        if s.phase == 1 {
          StepIsThreadStep(k, s, t);
          WonStays(k, st, s, t, p);
        } else {
          StepIsThreadStep(k, s, t);
          MaskKept(k, s.phase, s.mem, t, s.locals[t]);
        }
      } else if k.AllWaiting(s) {
        StepOpensBarrier(k, s, t);
        if s.phase == 1 {
          assert ClaimLocalOk(k, st, s.mem, s.locals[p % k.threads]);
        }
      }
    }
  }

  lemma {:induction false} SecuredStays(k: Kernel, st: Tables, s: State, prefix: seq<nat>, schedule: seq<nat>, p: nat)
    requires Ready(k, st, s) && prefix <= schedule && Secured(k, k.Run(s, prefix), p)
    ensures Secured(k, k.Run(s, schedule), p)
    decreases |schedule|
  {
    if |prefix| < |schedule| {
      var n := |schedule| - 1;
      SecuredStays(k, st, s, prefix, schedule[..n], p);
      SecuredNext(k, st, s, schedule[..n], schedule[n], p);
      assert schedule == schedule[..n] + [schedule[n]];
    } else {
      assert schedule == prefix;
    }
  }

  lemma SecuredNext(k: Kernel, st: Tables, s: State, prefix: seq<nat>, t: nat, p: nat)
    requires Ready(k, st, s) && Secured(k, k.Run(s, prefix), p)
    ensures Secured(k, k.Run(s, prefix + [t]), p)
  {
    RunKeeps(k, st, s, prefix);
    RunExtend(k, s, prefix, t);
    SecuredStep(k, st, k.Run(s, prefix), t, p);
  }

  lemma ReachClaim(k: Kernel, st: Tables, s: State) returns (prefix: seq<nat>)
    requires Ready(k, st, s)
    ensures var r := k.Run(s, prefix);
            r.phase == 1 && |r.locals| == k.threads
            && forall t | 0 <= t < k.threads :: r.locals[t].pc == ClaimInit && r.locals[t].pos == t
  {
    RunKeeps(k, st, s, []);
    WorkIsNatural(k, st, k.Run(s, []));
    var drained := Drain(k, st, s, []);
    BarrierOpens(k, st, s, drained);
    prefix := drained + [0];
  }

  // Scheduling one thread only brings it to the barrier while the others stand still.
  lemma {:induction false} RunAlone(k: Kernel, st: Tables, s: State, prefix: seq<nat>, u: nat)
    returns (schedule: seq<nat>)
    requires Ready(k, st, s) && u < k.threads
    requires !k.Finished(k.Run(s, prefix)) && |k.Run(s, prefix).locals| == k.threads
    ensures prefix <= schedule
    ensures var r, r' := k.Run(s, prefix), k.Run(s, schedule);
            && r'.phase == r.phase && |r'.locals| == k.threads && r'.locals[u].pc == Barrier
            && forall v | 0 <= v < k.threads && v != u :: r'.locals[v] == r.locals[v]
    decreases WorkLeft(k, st, k.Run(s, prefix))
  {
    if k.Run(s, prefix).locals[u].pc == Barrier {
      schedule := prefix;
    } else {
      RunnableMoves(k, st, s, prefix, u);
      schedule := RunAlone(k, st, s, prefix + [u], u);
    }
  }

  // Whoever runs alone through the claim phase wins every missing token it queries.
  lemma LoneWinner(k: Kernel, st: Tables, r: State, u: nat, x: nat) returns (p: nat)
    requires Consistent(st) && Inv(k, st, r) && r.phase == 1 && u < k.threads && r.locals[u].pc == Barrier
    requires forall v | 0 <= v < k.threads && v != u :: r.locals[v].pc == ClaimInit && r.locals[v].pos == v
    requires x < |k.query| && x % k.threads == u && Missing(st, k.query[x])
    ensures p % k.threads == u && Secured(k, r, p) && k.query[p] == k.query[x]
  {
    assert ClaimLocalOk(k, st, r.mem, r.locals[u]);
    assert PassedOk(k, st, r.mem, x);
    assert SomeoneWon(k, r.mem, r.locals, k.query[x]);
    p :| p < |k.query| && Won(k, r.mem, r.locals, p) && k.query[p] == k.query[x];
    var v := p % k.threads;
    if v != u && p < v {
      ModUnique(p, 0, p, k.threads);
    }
  }

  // If a missing token is queried from two threads, some schedule lets another position than f win it.
  lemma AnotherThreadWins(k: Kernel, st: Tables, s: State, x: nat, f: nat) returns (schedule: seq<nat>)
    requires Ready(k, st, s) && x < |k.query| && f < |k.query|
    requires k.query[x] == k.query[f] && Missing(st, k.query[x]) && x % k.threads != f % k.threads
    ensures var r := k.Run(s, schedule); k.Finished(r) && |r.mem.missMask| == |k.query| && !r.mem.missMask[f]
  {
    var u := x % k.threads;
    var claiming := ReachClaim(k, st, s);
    var alone := RunAlone(k, st, s, claiming, u);
    RunKeeps(k, st, s, alone);
    var p := LoneWinner(k, st, k.Run(s, alone), u, x);
    schedule := AlwaysFinishable(k, st, s, alone);
    SecuredStays(k, st, s, alone, schedule, p);
    KernelRefinesBatch(k, st, s, schedule);
  }

  function ResultOf(m: Mem): Outcome {
    Outcome(Tables(m.tokenToSlot, m.slotToToken, m.lru), m.slotIds, m.missMask)
  }

  lemma IndependentHere(k: Kernel, st: Tables, s: State, schedule: seq<nat>)
    requires Ready(k, st, s) && DuplicatesOnOneThread(k, st) && k.Finished(k.Run(s, schedule))
    ensures ResultOf(k.Run(s, schedule).mem) == Reference(st, k.query)
  {
    RunKeeps(k, st, s, schedule);
    OwnFirstIsFirst(k, st, k.Run(s, schedule).mem.missMask);
  }

  lemma DependentHere(k: Kernel, st: Tables, s: State) returns (schedule: seq<nat>)
    requires Ready(k, st, s) && !DuplicatesOnOneThread(k, st)
    ensures k.Finished(k.Run(s, schedule))
    ensures ResultOf(k.Run(s, schedule).mem) != Reference(st, k.query)
  {
    var i: nat, j: nat :| i < j < |k.query| && k.query[i] == k.query[j] && Missing(st, k.query[i])
                          && i % k.threads != j % k.threads;
    var f := FirstOccurrence(k.query, i);
    var x := if f % k.threads != i % k.threads then i else j;
    schedule := AnotherThreadWins(k, st, s, x, f);
    assert Reference(st, k.query).missMask[f];
  }

  // The kernel equals the sequential reference under every schedule exactly when no missing token is
  // queried from two different threads.
  lemma ScheduleIndependence(k: Kernel, st: Tables, s: State)
    requires Ready(k, st, s)
    ensures DuplicatesOnOneThread(k, st) <==>
            forall schedule :: k.Finished(k.Run(s, schedule)) ==>
              ResultOf(k.Run(s, schedule).mem) == Reference(st, k.query)
  {
    if DuplicatesOnOneThread(k, st) {
      forall schedule | k.Finished(k.Run(s, schedule))
        ensures ResultOf(k.Run(s, schedule).mem) == Reference(st, k.query)
      {
        IndependentHere(k, st, s, schedule);
      }
    } else {
      var schedule := DependentHere(k, st, s);
    }
  }

  // In particular the result is schedule-independent when no missing token repeats.
  lemma NoRepeatsExact(k: Kernel, st: Tables, s: State, schedule: seq<nat>)
    requires Ready(k, st, s) && k.Finished(k.Run(s, schedule))
    requires forall i: nat, j: nat | i < j < |k.query| && Missing(st, k.query[i]) :: k.query[i] != k.query[j]
    ensures ResultOf(k.Run(s, schedule).mem) == Reference(st, k.query)
  {
    ScheduleIndependence(k, st, s);
  }
}
