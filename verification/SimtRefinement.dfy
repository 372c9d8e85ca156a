/** The SIMT kernel refines the sequential batch: whatever the schedule, the final memory is the outcome
    of the sequential specification for the representatives that won the compare-and-swap. */
module SimtRefinement {
  import opened Compaction
  import opened Mappings
  import opened LookupSpec
  import opened SimtMachine
  import opened SimtClaim
  import opened SimtPartition
  import opened SimtReplace
  import opened SimtFinish

  ghost predicate AfterClaim(k: Kernel, st: Tables, m: Mem)
    requires 0 < k.threads
  {
    Claimed(k, st, m) && OwnFirst(k, m.missMask)
  }

  function PlanOf(k: Kernel, st: Tables, m: Mem): Plan {
    Plan(st, k.query, m.missMask, Evictable(st, k.query))
  }

  ghost predicate Chosenly(k: Kernel, st: Tables, w: seq<bool>)
    requires 0 < k.threads
  {
    && IsChoice(st, k.query, w) && OwnFirst(k, w)
    && Rank(w, |w|) <= |Evictable(st, k.query)|
  }

  ghost predicate DuringReplace(k: Kernel, st: Tables, m: Mem, ls: seq<Local>)
    requires 0 < k.threads
  {
    && k.Shape(st, m) && m.lru == st.lru
    && Chosenly(k, st, m.missMask)
    && Partitioned(HitAt(st, k.query), EvictAt(st, k.query), m)
    && ReplaceInv(k, PlanOf(k, st, m), m, ls)
  }

  ghost predicate DuringFinish(k: Kernel, st: Tables, m: Mem, ls: seq<Local>)
    requires 0 < k.threads
  {
    Chosenly(k, st, m.missMask) && FinishInv(k, Batch(st, k.query, m.missMask), m, ls)
  }

  ghost predicate Final(k: Kernel, st: Tables, m: Mem)
    requires 0 < k.threads
  {
    && Chosenly(k, st, m.missMask)
    && Outcome(Tables(m.tokenToSlot, m.slotToToken, m.lru), m.slotIds, m.missMask)
       == Batch(st, k.query, m.missMask)
  }

  // The invariant of each phase, on the memory and the registers.
  ghost predicate PhaseInv(k: Kernel, st: Tables, phase: nat, m: Mem, ls: seq<Local>)
    requires 0 < k.threads == |ls|
  {
    if phase == 0 then ClearInv(k, st, m, ls)
    else if phase == 1 then ClaimInv(k, st, m, ls)
    else if phase == 2 then DuringCount(k, st, m, ls)
    else if phase == 3 then DuringScatter(k, st, m, ls)
    else if phase == 4 then DuringMiss(k, st, m, ls)
    else if phase == 5 then DuringReplace(k, st, m, ls)
    else if phase == 6 then DuringFinish(k, st, m, ls)
    else phase == LAST_PHASE && Final(k, st, m)
  }

  ghost predicate DuringCount(k: Kernel, st: Tables, m: Mem, ls: seq<Local>)
    requires 0 < k.threads == |ls|
  {
    AfterClaim(k, st, m) && CountInv(k, HitAt(st, k.query), EvictAt(st, k.query), m, ls)
  }

  ghost predicate DuringScatter(k: Kernel, st: Tables, m: Mem, ls: seq<Local>)
    requires 0 < k.threads == |ls|
  {
    AfterClaim(k, st, m) && ScatterInv(k, HitAt(st, k.query), EvictAt(st, k.query), m, ls)
  }

  ghost predicate DuringMiss(k: Kernel, st: Tables, m: Mem, ls: seq<Local>)
    requires 0 < k.threads == |ls|
  {
    && AfterClaim(k, st, m)
    && Partitioned(HitAt(st, k.query), EvictAt(st, k.query), m)
    && MissInv(k, m.missMask, m, ls)
  }

  ghost predicate Inv(k: Kernel, st: Tables, s: State) {
    0 < k.threads == |s.locals| && PhaseInv(k, st, s.phase, s.mem, s.locals)
  }

  // ---- steps inside a phase --------------------------------------------------------------------

  lemma ClaimedFrame(k: Kernel, st: Tables, m: Mem, m': Mem)
    requires Claimed(k, st, m) && k.Shape(st, m')
    requires PartitionFrame(m, m') || m' == m.(missCounts := m'.missCounts)
    ensures Claimed(k, st, m')
  {
  }

  lemma CountThread(k: Kernel, st: Tables, m: Mem, ls: seq<Local>, t: nat)
    requires 0 < k.threads == |ls| && t < |ls| && ls[t].pc != Barrier && DuringCount(k, st, m, ls)
    ensures k.InBounds(m, t, ls[t])
    ensures var e := k.CountLruStep(m, t, ls[t]); DuringCount(k, st, e.mem, ls[t := e.local])
  {
    var e := k.CountLruStep(m, t, ls[t]);
    CountKeeps(k, HitAt(st, k.query), EvictAt(st, k.query), m, ls, t);
    ClaimedFrame(k, st, m, e.mem);
  }

  lemma ScatterThread(k: Kernel, st: Tables, m: Mem, ls: seq<Local>, t: nat)
    requires 0 < k.threads == |ls| && t < |ls| && ls[t].pc != Barrier && DuringScatter(k, st, m, ls)
    ensures k.InBounds(m, t, ls[t])
    ensures var e := k.ScatterStep(m, t, ls[t]); DuringScatter(k, st, e.mem, ls[t := e.local])
  {
    var e := k.ScatterStep(m, t, ls[t]);
    ScatterKeeps(k, HitAt(st, k.query), EvictAt(st, k.query), m, ls, t);
    ClaimedFrame(k, st, m, e.mem);
  }

  lemma MissThread(k: Kernel, st: Tables, m: Mem, ls: seq<Local>, t: nat)
    requires 0 < k.threads == |ls| && t < |ls| && ls[t].pc != Barrier && DuringMiss(k, st, m, ls)
    ensures k.InBounds(m, t, ls[t])
    ensures var e := k.CountMissStep(m, t, ls[t]); DuringMiss(k, st, e.mem, ls[t := e.local])
  {
    var e := k.CountMissStep(m, t, ls[t]);
    MissKeeps(k, m.missMask, m, ls, t);
    ClaimedFrame(k, st, m, e.mem);
  }

  lemma ReplaceThread(k: Kernel, st: Tables, m: Mem, ls: seq<Local>, t: nat)
    requires 0 < k.threads == |ls| && t < |ls| && ls[t].pc != Barrier && DuringReplace(k, st, m, ls)
    ensures k.InBounds(m, t, ls[t])
    ensures var e := k.ReplaceStep(m, t, ls[t]); DuringReplace(k, st, e.mem, ls[t := e.local])
  {
    ReplaceKeeps(k, PlanOf(k, st, m), m, ls, t);
  }

  lemma FinishThread(k: Kernel, st: Tables, m: Mem, ls: seq<Local>, t: nat)
    requires 0 < k.threads == |ls| && t < |ls| && ls[t].pc != Barrier && DuringFinish(k, st, m, ls)
    ensures k.InBounds(m, t, ls[t])
    ensures var e := k.FinishStep(m, t, ls[t]); DuringFinish(k, st, e.mem, ls[t := e.local])
  {
    FinishKeeps(k, Batch(st, k.query, m.missMask), m, ls, t);
    assert k.FinishStep(m, t, ls[t]).mem.missMask == m.missMask;
  }

  lemma ThreadKeeps(k: Kernel, st: Tables, phase: nat, m: Mem, ls: seq<Local>, t: nat)
    requires Consistent(st) && 0 < k.threads == |ls| && phase < LAST_PHASE && PhaseInv(k, st, phase, m, ls)
    requires t < |ls| && ls[t].pc != Barrier
    ensures k.InBounds(m, t, ls[t])
    ensures var e := k.ThreadStep(phase, m, t, ls[t]); PhaseInv(k, st, phase, e.mem, ls[t := e.local])
  {
    if phase == 0 {
      ClearKeeps(k, st, m, ls, t);
    } else if phase == 1 {
      ClaimKeeps(k, st, m, ls, t);
    } else if phase == 2 {
      CountThread(k, st, m, ls, t);
    } else if phase == 3 {
      ScatterThread(k, st, m, ls, t);
    } else if phase == 4 {
      MissThread(k, st, m, ls, t);
    } else if phase == 5 {
      ReplaceThread(k, st, m, ls, t);
    } else {
      FinishThread(k, st, m, ls, t);
    }
  }

  // ---- barriers --------------------------------------------------------------------------------

  function Entered(k: Kernel, m: Mem, phase: nat, ls: seq<Local>): (r: seq<Local>)
    requires k.threads > 0
    ensures |r| == |ls|
  {
    seq(|ls|, u requires 0 <= u < |ls| => k.Enter(m, phase, u, ls[u]))
  }

  ghost predicate AtBarrier(ls: seq<Local>) {
    forall t | 0 <= t < |ls| :: ls[t].pc == Barrier
  }

  lemma OwnPosition(k: Kernel, ls: seq<Local>)
    requires 0 < k.threads == |ls| && forall t | 0 <= t < |ls| :: ls[t].pos == t
    ensures Strided(k, ls) && forall x: nat :: !Passed(k, ls, x)
  {
    forall t | 0 <= t < |ls|
      ensures ls[t].pos % k.threads == t
    {
      ModUnique(t, 0, t, k.threads);
    }
    forall x: nat
      ensures !Passed(k, ls, x)
    {
      if x < k.threads {
        ModUnique(x, 0, x, k.threads);
      }
    }
  }

  lemma EnterClaim(k: Kernel, st: Tables, m: Mem, ls: seq<Local>)
    requires 0 < k.threads == |ls| && ClearInv(k, st, m, ls) && AtBarrier(ls)
    ensures ClaimInv(k, st, m, Entered(k, m, 1, ls))
  {
    var ls' := Entered(k, m, 1, ls);
    OwnPosition(k, ls');
    forall x: nat | x < |m.hitFlags|
      ensures !m.hitFlags[x]
    {
      assert Passed(k, ls, x);
    }
    assert forall p: nat :: !Won(k, m, ls', p);
  }

  lemma EnterCount(k: Kernel, st: Tables, m: Mem, ls: seq<Local>)
    requires Consistent(st) && 0 < k.threads == |ls| && ClaimInv(k, st, m, ls) && AtBarrier(ls)
    ensures AfterClaim(k, st, m)
    ensures CountInv(k, HitAt(st, k.query), EvictAt(st, k.query), m, Entered(k, m, 2, ls))
  {
    ClaimDone(k, st, m, ls);
    var f, g := HitAt(st, k.query), EvictAt(st, k.query);
    assert LruFlags(k, m, f, g);
    forall t: nat | t < |ls|
      ensures CountLocalOk(k, f, g, m, t, Entered(k, m, 2, ls)[t])
    {
    }
  }

  lemma EnterScatter(k: Kernel, f: seq<bool>, g: seq<bool>, m: Mem, ls: seq<Local>)
    requires 0 < k.threads == |ls| && CountInv(k, f, g, m, ls) && AtBarrier(ls)
    ensures ScatterInv(k, f, g, m, Entered(k, m, 3, ls))
  {
    forall t: nat | t < |ls|
      ensures m.hitCounts[t] == Between(f, Bound(|f|, k.threads, t), Bound(|f|, k.threads, t + 1))
      ensures m.evictCounts[t] == Between(g, Bound(|f|, k.threads, t), Bound(|f|, k.threads, t + 1))
      ensures ScatterLocalOk(k, f, g, m, t, Entered(k, m, 3, ls)[t])
    {
      assert CountLocalOk(k, f, g, m, t, ls[t]);
      BoundsCover(|f|, k.threads);
    }
  }

  lemma EnterMiss(k: Kernel, st: Tables, m: Mem, ls: seq<Local>)
    requires 0 < k.threads == |ls| && Claimed(k, st, m)
    ensures MissInv(k, m.missMask, m, Entered(k, m, 4, ls))
  {
    forall t: nat | t < |ls|
      ensures MissLocalOk(k, m.missMask, m, t, Entered(k, m, 4, ls)[t])
    {
    }
  }

  lemma EnterReplaceLocals(k: Kernel, pl: Plan, m: Mem, ls: seq<Local>)
    requires pl.w == m.missMask && pl.q == k.query
    requires MissInv(k, pl.w, m, ls) && AtBarrier(ls)
    requires |m.slotIds| == |pl.q|
    requires |m.tokenToSlot| == |pl.st.tokenToSlot| && |m.slotToToken| == |pl.st.slotToToken|
    requires Rank(pl.w, |pl.w|) <= |pl.victims| <= |m.evictableSlots|
    requires m.evictableSlots[..|pl.victims|] == pl.victims
    ensures ReplaceMem(k, pl, m)
    ensures AllReplaceLocalOk(k, pl, m, Entered(k, m, 5, ls))
  {
    forall t: nat | t < k.threads
      ensures m.missCounts[t] == Between(pl.w, Bound(|pl.w|, k.threads, t), Bound(|pl.w|, k.threads, t + 1))
      ensures ls[t].misses == m.missCounts[t]
    {
      assert MissLocalOk(k, pl.w, m, t, ls[t]);
    }
    assert ReplaceMem(k, pl, m);
    BoundsCover(|pl.w|, k.threads);
    forall t: nat | t < |ls|
      ensures ReplaceLocalOk(k, pl, m, t, Entered(k, m, 5, ls)[t])
    {
    }
  }

  lemma EnterReplaceCells(k: Kernel, st: Tables, m: Mem)
    requires Consistent(st) && 0 < k.threads && Claimed(k, st, m)
    requires PlanOf(k, st, m).Valid()
    ensures RestOk(PlanOf(k, st, m), m)
    ensures forall p: nat | p < |k.query| && m.missMask[p] :: WinnerOk(PlanOf(k, st, m), m, p, 0)
  {
    var pl := PlanOf(k, st, m);
    forall p: nat | p < |k.query| && m.missMask[p]
      ensures WinnerOk(pl, m, p, 0)
    {
      pl.VictimFacts(p);
      assert m.slotIds[p] == HitId(st, k.query, p);
      var oldToken := pl.OldToken(p);
      assert oldToken >= 0 ==> m.tokenToSlot[oldToken] == st.tokenToSlot[oldToken];
    }
    forall token | 0 <= token < |m.tokenToSlot| && !Picked(pl.q, pl.w, pl.Count(), token)
      ensures m.tokenToSlot[token] == st.tokenToSlot[token]
    {
      if Missing(st, token) && token in k.query {
        var p :| 0 <= p < |k.query| && m.missMask[p] && k.query[p] == token by {
          var r :| 0 <= r < |k.query| && k.query[r] == token;
          assert Chosen(k.query, m.missMask, k.query[r]);
        }
        pl.VictimFacts(p);
      }
    }
  }

  lemma EnterReplaceWinners(k: Kernel, pl: Plan, m: Mem, ls: seq<Local>)
    requires pl.Valid() && 0 < k.threads == |ls| && pl.q == k.query
    requires forall p: nat | p < |pl.w| && pl.w[p] :: WinnerOk(pl, m, p, 0)
    ensures WinnersInstalled(k, pl, m, Entered(k, m, 5, ls))
  {
    forall t: nat, p: nat | t < |ls| && p < |pl.w| && pl.w[p] && Owns(|pl.w|, k.threads, t, p)
      ensures Stage(Entered(k, m, 5, ls)[t], p) == 0
    {
    }
  }

  lemma EnterReplace(k: Kernel, st: Tables, m: Mem, ls: seq<Local>)
    requires Consistent(st) && |k.query| <= |st.slotToToken| && 0 < k.threads == |ls| && AtBarrier(ls)
    requires DuringMiss(k, st, m, ls)
    ensures DuringReplace(k, st, m, Entered(k, m, 5, ls))
  {
    var pl := PlanOf(k, st, m);
    EnterReplaceValid(k, st, m);
    EnterReplaceLocals(k, pl, m, ls);
    EnterReplaceCells(k, st, m);
    EnterReplaceWinners(k, pl, m, ls);
  }

  lemma EnterReplaceValid(k: Kernel, st: Tables, m: Mem)
    requires Consistent(st) && |k.query| <= |st.slotToToken| && 0 < k.threads && AfterClaim(k, st, m)
    ensures PlanOf(k, st, m).Valid() && Chosenly(k, st, m.missMask)
  {
    EnoughVictims(st, k.query, m.missMask);
    EvictableIsGood(st, k.query);
  }

  // The lists and totals in memory spell out the new order of the specification.
  lemma NewOrder(k: Kernel, m: Mem, hits: seq<int>, evictable: seq<int>, misses: nat, x: nat)
    requires misses <= |evictable| <= |m.evictableSlots| && m.evictableSlots[..|evictable|] == evictable
    requires |hits| <= |m.hitSlots| && m.hitSlots[..|hits|] == hits
    requires |m.counters| == 4 && m.counters[1] == |evictable| && m.counters[2] == misses
    requires x < |hits| + |evictable|
    ensures k.NewOrderAt(m, x) == (evictable[misses..] + evictable[..misses] + hits)[x]
  {
    var stale := |evictable| - misses;
    if x < stale {
      assert m.evictableSlots[misses + x] == evictable[misses + x];
    } else if x < |evictable| {
      assert m.evictableSlots[x - stale] == evictable[x - stale];
    } else {
      assert m.hitSlots[x - |evictable|] == hits[x - |evictable|];
    }
  }

  lemma ResidentKept(st: Tables, q: seq<int>, w: seq<bool>, n: nat, m: Mapping, token: int)
    requires Consistent(st) && IsChoice(st, q, w) && n <= |Evictable(st, q)|
    requires Installed(st, q, w, Evictable(st, q), n, m)
    requires token in q && Resident(st, token)
    ensures m.tokenToSlot[token] == st.tokenToSlot[token]
  {
    EvictableIsGood(st, q);
    assert st.tokenToSlot[token] in HitSlots(st, q);
  }

  lemma ReplacedOutcome(k: Kernel, st: Tables, m: Mem)
    requires Consistent(st) && 0 < k.threads && k.Shape(st, m) && Chosenly(k, st, m.missMask)
    requires PlanOf(k, st, m).Valid() && Replaced(PlanOf(k, st, m), m)
    ensures var o := Batch(st, k.query, m.missMask);
            && m.tokenToSlot == o.tables.tokenToSlot && m.slotToToken == o.tables.slotToToken
            && (forall p: nat | p < |k.query| ::
                  || m.slotIds[p] == o.slotIds[p]
                  || (m.slotIds[p] == NOT_FOUND && 0 <= k.query[p] < |m.tokenToSlot|))
  {
    var pl := PlanOf(k, st, m);
    var q, w := k.query, m.missMask;
    var now := Mapping(m.tokenToSlot, m.slotToToken);
    InstallToInstalled(st, q, w, pl.victims, pl.Count());
    InstalledUnique(st, q, w, pl.victims, now, InstallTo(st, Compact(q, w), pl.victims, pl.Count()));
    forall p: nat | p < |q|
      ensures m.slotIds[p] == SlotIdsOf(m.tokenToSlot, q)[p]
              || (m.slotIds[p] == NOT_FOUND && 0 <= q[p] < |m.tokenToSlot|)
    {
      if w[p] {
        pl.VictimFacts(p);
        RankMonotone(w, p, |w|);
      } else if Resident(st, q[p]) {
        ResidentKept(st, q, w, pl.Count(), now, q[p]);
      }
    }
  }

  lemma EnterFinish(k: Kernel, st: Tables, m: Mem, ls: seq<Local>)
    requires Consistent(st) && 0 < k.threads == |ls| && AtBarrier(ls) && DuringReplace(k, st, m, ls)
    ensures DuringFinish(k, st, m, Entered(k, m, 6, ls))
  {
    ReplaceDone(k, PlanOf(k, st, m), m, ls);
    ReplacedOutcome(k, st, m);
    FinishReady(k, st, m);
    FinishStart(k, Batch(st, k.query, m.missMask), m, ls);
  }

  lemma FinishStart(k: Kernel, o: Outcome, m: Mem, ls: seq<Local>)
    requires 0 < k.threads == |ls| && FinishMem(k, o, m)
    requires forall p: nat | p < |k.query| ::
               || m.slotIds[p] == o.slotIds[p]
               || (m.slotIds[p] == NOT_FOUND && 0 <= k.query[p] < |m.tokenToSlot|)
    ensures FinishInv(k, o, m, Entered(k, m, 6, ls))
  {
    OwnPosition(k, Entered(k, m, 6, ls));
  }

  lemma FinishReady(k: Kernel, st: Tables, m: Mem)
    requires Consistent(st) && 0 < k.threads && k.Shape(st, m) && m.lru == st.lru && Chosenly(k, st, m.missMask)
    requires Partitioned(HitAt(st, k.query), EvictAt(st, k.query), m)
    requires m.counters[2] == Rank(m.missMask, |m.missMask|)
    requires m.tokenToSlot == Batch(st, k.query, m.missMask).tables.tokenToSlot
    requires m.slotToToken == Batch(st, k.query, m.missMask).tables.slotToToken
    ensures FinishMem(k, Batch(st, k.query, m.missMask), m)
  {
    HitOrEvict(st, k.query);
    var o := Batch(st, k.query, m.missMask);
    forall x: nat | x < |m.lru|
      ensures k.NewOrderAt(m, x) == o.tables.lru[x]
    {
      NewOrder(k, m, Hits(st, k.query), Evictable(st, k.query), m.counters[2], x);
    }
  }

  lemma BarrierKeeps(k: Kernel, st: Tables, phase: nat, m: Mem, ls: seq<Local>)
    requires Consistent(st) && |k.query| <= |st.slotToToken|
    requires 0 < k.threads == |ls| && PhaseInv(k, st, phase, m, ls) && phase < LAST_PHASE && AtBarrier(ls)
    ensures PhaseInv(k, st, phase + 1, m, Entered(k, m, phase + 1, ls))
  {
    var f, g := HitAt(st, k.query), EvictAt(st, k.query);
    if phase == 0 {
      EnterClaim(k, st, m, ls);
    } else if phase == 1 {
      EnterCount(k, st, m, ls);
    } else if phase == 2 {
      EnterScatter(k, f, g, m, ls);
    } else if phase == 3 {
      ScatterDone(k, f, g, m, ls);
      EnterMiss(k, st, m, ls);
    } else if phase == 4 {
      EnterReplace(k, st, m, ls);
    } else if phase == 5 {
      EnterFinish(k, st, m, ls);
    } else {
      FinishDone(k, Batch(st, k.query, m.missMask), m, ls);
    }
  }

  // ---- all schedules ---------------------------------------------------------------------------

  lemma StepKeeps(k: Kernel, st: Tables, s: State, t: nat)
    requires Consistent(st) && |k.query| <= |st.slotToToken| && Inv(k, st, s)
    ensures Inv(k, st, k.Step(s, t))
  {
    if s.phase < LAST_PHASE && t < |s.locals| {
      if s.locals[t].pc != Barrier {
        ThreadStepKeeps(k, st, s, t);
      } else if k.AllWaiting(s) {
        BarrierStepKeeps(k, st, s, t);
      }
    }
  }

  lemma ThreadStepKeeps(k: Kernel, st: Tables, s: State, t: nat)
    requires Consistent(st) && Inv(k, st, s)
    requires s.phase < LAST_PHASE && t < |s.locals| && s.locals[t].pc != Barrier
    ensures Inv(k, st, k.Step(s, t))
  {
    ThreadKeeps(k, st, s.phase, s.mem, s.locals, t);
    StepIsThreadStep(k, s, t);
  }

  lemma BarrierStepKeeps(k: Kernel, st: Tables, s: State, t: nat)
    requires Consistent(st) && |k.query| <= |st.slotToToken| && Inv(k, st, s)
    requires s.phase < LAST_PHASE && t < |s.locals| && k.AllWaiting(s)
    ensures Inv(k, st, k.Step(s, t))
  {
    BarrierKeeps(k, st, s.phase, s.mem, s.locals);
    StepOpensBarrier(k, s, t);
  }

  lemma StepIsThreadStep(k: Kernel, s: State, t: nat)
    requires 0 < k.threads && s.phase < LAST_PHASE && t < |s.locals| && s.locals[t].pc != Barrier
    ensures var e := k.ThreadStep(s.phase, s.mem, t, s.locals[t]);
            k.Step(s, t) == State(s.phase, e.mem, s.locals[t := e.local])
  {
  }

  lemma StepOpensBarrier(k: Kernel, s: State, t: nat)
    requires 0 < k.threads && s.phase < LAST_PHASE && t < |s.locals| && k.AllWaiting(s)
    ensures k.Step(s, t) == State(s.phase + 1, s.mem, Entered(k, s.mem, s.phase + 1, s.locals))
  {
  }

  lemma LaunchInv(k: Kernel, st: Tables, s: State)
    requires 0 < k.threads && Consistent(st) && k.Launch(st, s)
    ensures Inv(k, st, s)
  {
    OwnPosition(k, s.locals);
  }

  lemma {:induction false} RunKeeps(k: Kernel, st: Tables, s: State, schedule: seq<nat>)
    requires 0 < k.threads && Consistent(st) && |k.query| <= |st.slotToToken| && k.Launch(st, s)
    ensures Inv(k, st, k.Run(s, schedule))
    decreases |schedule|
  {
    if schedule == [] {
      LaunchInv(k, st, s);
    } else {
      var n := |schedule| - 1;
      RunKeeps(k, st, s, schedule[..n]);
      StepKeeps(k, st, k.Run(s, schedule[..n]), schedule[n]);
    }
  }

  // Main theorem: every schedule that finishes computes the sequential batch for its own winners,
  // each distinct missing token having exactly one winner.
  lemma KernelRefinesBatch(k: Kernel, st: Tables, s: State, schedule: seq<nat>)
    requires 0 < k.threads && Consistent(st) && |k.query| <= |st.slotToToken| && k.Launch(st, s)
    requires k.Finished(k.Run(s, schedule))
    ensures var m := k.Run(s, schedule).mem;
            && IsChoice(st, k.query, m.missMask)
            && Rank(m.missMask, |m.missMask|) <= |Evictable(st, k.query)|
            && Outcome(Tables(m.tokenToSlot, m.slotToToken, m.lru), m.slotIds, m.missMask)
               == Batch(st, k.query, m.missMask)
  {
    RunKeeps(k, st, s, schedule);
  }

  // No step of any schedule leaves an array, takes the branch for a slot observed by the
  // compare-and-swap, or lets `evictable_count - miss_count` underflow.
  lemma NeverOutOfBounds(k: Kernel, st: Tables, s: State, schedule: seq<nat>, t: nat)
    requires 0 < k.threads && Consistent(st) && |k.query| <= |st.slotToToken| && k.Launch(st, s)
    requires !k.Finished(k.Run(s, schedule))
    requires t < k.threads
    ensures var r := k.Run(s, schedule); t < |r.locals| && k.InBounds(r.mem, t, r.locals[t])
  {
    RunKeeps(k, st, s, schedule);
    var r := k.Run(s, schedule);
    if r.locals[t].pc != Barrier {
      ThreadKeeps(k, st, r.phase, r.mem, r.locals, t);
    }
  }
}
