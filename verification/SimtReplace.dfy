/** Phases 4 and 5 of the SIMT kernel: miss compaction and victim replacement. The writes of different
    winners touch different cells, so they commute. */
module SimtReplace {
  import opened Compaction
  import opened Mappings
  import opened LookupSpec
  import opened SimtMachine
  import opened SimtPartition

  // ---- phase 4 ---------------------------------------------------------------------------------

  ghost predicate MissShape(k: Kernel, w: seq<bool>, m: Mem) {
    && 0 < k.threads == |m.missCounts|
    && m.missMask == w && |w| == |k.query| && |m.counters| == 4
  }

  ghost predicate MissLocalOk(k: Kernel, w: seq<bool>, m: Mem, t: nat, l: Local)
    requires MissShape(k, w, m) && t < k.threads
  {
    var n := |w|;
    && l.pc in {CountMiss, StoreMiss, Barrier}
    && InChunk(n, k.threads, t, l.pos)
    && l.misses == Between(w, Bound(n, k.threads, t), Min(l.pos, n))
    && (l.pc != CountMiss ==> Min(l.pos, n) == Bound(n, k.threads, t + 1))
    && (l.pc == Barrier ==> m.missCounts[t] == l.misses)
  }

  ghost predicate MissInv(k: Kernel, w: seq<bool>, m: Mem, ls: seq<Local>) {
    && MissShape(k, w, m) && |ls| == k.threads
    && forall t: nat | t < |ls| :: MissLocalOk(k, w, m, t, ls[t])
  }

  lemma MissKeeps(k: Kernel, w: seq<bool>, m: Mem, ls: seq<Local>, t: nat)
    requires MissInv(k, w, m, ls) && t < |ls| && ls[t].pc != Barrier
    ensures k.InBounds(m, t, ls[t])
    ensures var e := k.CountMissStep(m, t, ls[t]);
            MissInv(k, w, e.mem, ls[t := e.local]) && e.mem == m.(missCounts := e.mem.missCounts)
  {
    var e := k.CountMissStep(m, t, ls[t]);
    assert MissLocalOk(k, w, m, t, ls[t]);
    ChunkStep(|w|, k.threads, t, ls[t].pos);
    BoundNext(|w|, k.threads, t);
    assert MissLocalOk(k, w, e.mem, t, e.local);
    forall u: nat | u < |ls| && u != t
      ensures MissLocalOk(k, w, e.mem, u, ls[u])
    {
      assert MissLocalOk(k, w, m, u, ls[u]);
    }
  }

  // ---- phase 5 ---------------------------------------------------------------------------------

  // The batch being installed: representatives w and the evictable slots in order.
  datatype Plan = Plan(st: Tables, q: seq<int>, w: seq<bool>, victims: seq<int>) {

    ghost predicate Valid() {
      && Consistent(st) && IsChoice(st, q, w)
      && Rank(w, |w|) <= |victims| && GoodVictims(st, victims)
    }

    function Count(): nat {
      Rank(w, |w|)
    }

    function Victim(p: nat): int
      requires p < |w|
    {
      Get(victims, Rank(w, p))
    }

    function OldToken(p: nat): int
      requires p < |w|
    {
      Get(st.slotToToken, Victim(p))
    }

    lemma VictimFacts(p: nat)
      requires Valid() && p < |w| && w[p]
      ensures 0 <= Victim(p) < |st.slotToToken| && IsVictim(victims, Count(), Victim(p))
      ensures Rank(w, p) < |victims| && Victim(p) == victims[Rank(w, p)]
      ensures OldToken(p) == NOT_FOUND
              || (0 <= OldToken(p) < |st.tokenToSlot| && st.tokenToSlot[OldToken(p)] == Victim(p))
      ensures Missing(st, q[p]) && Picked(q, w, Count(), q[p])
    {
      RankMonotone(w, p, |w|);
    }

    // By the inverse maps, the cells of different winners are different cells.
    lemma Separate(p: nat, r: nat)
      requires Valid() && p < |w| && r < |w| && w[p] && w[r]
      ensures p != r ==> Victim(p) != Victim(r) && q[p] != q[r]
      ensures p != r && 0 <= OldToken(p) ==> OldToken(p) != OldToken(r)
      ensures OldToken(p) != q[r]
    {
      VictimFacts(p);
      VictimFacts(r);
      if p != r && Rank(w, p) == Rank(w, r) {
        RankInjective(w, p, r);
      }
    }
  }

  // Progress of winner p: 0 untouched, 1 picked, 2 old token cleared, 3 slot set, 4 token set, 5 done.
  function Stage(l: Local, p: nat): nat {
    if p < l.pos then 5
    else if p > l.pos then 0
    else
      match l.pc
      case ClearOld => 1
      case SetSlot => 2
      case SetToken => 3
      case SetId => 4
      case _ => 0
  }

  ghost predicate ReplaceMem(k: Kernel, pl: Plan, m: Mem) {
    && pl.q == k.query && |pl.w| == |pl.q|
    && 0 < k.threads == |m.missCounts|
    && m.missMask == pl.w && |m.counters| == 4 && |m.slotIds| == |pl.q|
    && |m.tokenToSlot| == |pl.st.tokenToSlot| && |m.slotToToken| == |pl.st.slotToToken|
    && Rank(pl.w, |pl.w|) <= |pl.victims| <= |m.evictableSlots|
    && m.evictableSlots[..|pl.victims|] == pl.victims
    && (forall t: nat | t < k.threads ::
          m.missCounts[t] == Between(pl.w, Bound(|pl.w|, k.threads, t), Bound(|pl.w|, k.threads, t + 1)))
  }

  ghost predicate ReplaceShape(k: Kernel, pl: Plan, m: Mem) {
    pl.Valid() && ReplaceMem(k, pl, m)
  }

  // Winner p addresses cells that exist.
  ghost predicate CellsExist(pl: Plan, p: nat) {
    && p < |pl.w| == |pl.q|
    && Rank(pl.w, p) < |pl.victims|
    && 0 <= pl.Victim(p) < |pl.st.slotToToken|
    && (pl.OldToken(p) == NOT_FOUND || 0 <= pl.OldToken(p) < |pl.st.tokenToSlot|)
    && 0 <= pl.q[p] < |pl.st.tokenToSlot|
  }

  // The four cells of winner p at a given stage.
  ghost predicate WinnerOk(pl: Plan, m: Mem, p: nat, stage: nat)
    requires pl.Valid() && p < |pl.w| && pl.w[p]
  {
    var victim := pl.Victim(p);
    var oldToken := pl.OldToken(p);
    && Get(m.slotToToken, victim) == (if stage >= 3 then pl.q[p] else oldToken)
    && Get(m.tokenToSlot, pl.q[p]) == (if stage >= 4 then victim else CLAIMING)
    && (oldToken >= 0 ==> Get(m.tokenToSlot, oldToken) == if stage >= 2 then NOT_FOUND else victim)
    && Get(m.slotIds, p) == (if stage >= 5 then victim else NOT_FOUND)
  }

  // Everything that is not a cell of some winner keeps its value.
  ghost predicate RestOk(pl: Plan, m: Mem)
    requires pl.Valid()
  {
    && (forall slot | 0 <= slot < |m.slotToToken| && !IsVictim(pl.victims, pl.Count(), slot) ::
          Get(m.slotToToken, slot) == Get(pl.st.slotToToken, slot))
    && (forall token | 0 <= token < |m.tokenToSlot| && !Picked(pl.q, pl.w, pl.Count(), token)
                       && !IsVictim(pl.victims, pl.Count(), Get(pl.st.tokenToSlot, token)) ::
          Get(m.tokenToSlot, token) == Get(pl.st.tokenToSlot, token))
    && (forall p: nat | p < |pl.w| && !pl.w[p] ::
          Get(m.slotIds, p) == if Resident(pl.st, pl.q[p]) then pl.st.tokenToSlot[pl.q[p]] else NOT_FOUND)
  }

  ghost predicate SumMissOk(k: Kernel, w: seq<bool>, t: nat, l: Local)
    requires 0 < k.threads
  {
    && l.i <= t && l.pos == ChunkBegin(|w|, k.threads, t)
    && l.missPrefix == Rank(w, Bound(|w|, k.threads, l.i))
  }

  ghost predicate InReplacement(l: Local) {
    l.pc == ClearOld || l.pc == SetSlot || l.pc == SetToken || l.pc == SetId
  }

  ghost predicate PickOk(k: Kernel, pl: Plan, t: nat, l: Local)
    requires 0 < k.threads
  {
    var n := |pl.w|;
    && l.missPrefix == Rank(pl.w, Bound(n, k.threads, t))
    && (if InReplacement(l) then
          && l.pos < Bound(n, k.threads, t + 1) && pl.w[l.pos]
          && l.missOffset == Rank(pl.w, l.pos) + 1
          && l.victim == pl.Victim(l.pos) && l.victimToken == pl.OldToken(l.pos)
        else
          && (l.pc == Pick || l.pc == StoreMissTotal || l.pc == Barrier)
          && l.missOffset == Rank(pl.w, Min(l.pos, n))
          && (l.pc != Pick ==> Min(l.pos, n) == Bound(n, k.threads, t + 1)))
  }

  ghost predicate ReplaceLocalOk(k: Kernel, pl: Plan, m: Mem, t: nat, l: Local)
    requires ReplaceMem(k, pl, m) && t < k.threads
  {
    var n := |pl.w|;
    && InChunk(n, k.threads, t, l.pos)
    && l.misses == Between(pl.w, Bound(n, k.threads, t), Bound(n, k.threads, t + 1))
    && (if l.pc == SumMiss then SumMissOk(k, pl.w, t, l) else PickOk(k, pl, t, l))
    && (l.pc == Barrier && t == k.threads - 1 ==> m.counters[2] == Rank(pl.w, n))
  }

  ghost predicate AllReplaceLocalOk(k: Kernel, pl: Plan, m: Mem, ls: seq<Local>)
    requires ReplaceMem(k, pl, m) && |ls| == k.threads
  {
    forall t: nat | t < |ls| :: ReplaceLocalOk(k, pl, m, t, ls[t])
  }

  predicate Owns(n: nat, threads: nat, t: nat, p: nat)
    requires threads > 0
  {
    Bound(n, threads, t) <= p < Bound(n, threads, t + 1)
  }

  ghost predicate WinnersInstalled(k: Kernel, pl: Plan, m: Mem, ls: seq<Local>)
    requires pl.Valid() && 0 < k.threads == |ls|
  {
    forall t: nat, p: nat | t < |ls| && p < |pl.w| && pl.w[p] && Owns(|pl.w|, k.threads, t, p) ::
      WinnerOk(pl, m, p, Stage(ls[t], p))
  }

  ghost predicate ReplaceInv(k: Kernel, pl: Plan, m: Mem, ls: seq<Local>) {
    && ReplaceShape(k, pl, m) && |ls| == k.threads
    && AllReplaceLocalOk(k, pl, m, ls)
    && WinnersInstalled(k, pl, m, ls)
    && RestOk(pl, m)
  }

  ghost predicate ReplaceFrame(m: Mem, m': Mem) {
    && m' == m.(tokenToSlot := m'.tokenToSlot, slotToToken := m'.slotToToken,
                slotIds := m'.slotIds, counters := m'.counters)
    && |m'.counters| == |m.counters|
    && (2 <= |m.counters| ==> m'.counters[1] == m.counters[1])
  }

  // What the step of a thread inside the replacement of winner p writes.
  function WriteStage(pl: Plan, m: Mem, p: nat, stage: nat): Mem
    requires p < |pl.w| == |pl.q|
  {
    var victim := pl.Victim(p);
    if stage == 1 then m.(tokenToSlot := Put(m.tokenToSlot, pl.OldToken(p), NOT_FOUND))
    else if stage == 2 then m.(slotToToken := Put(m.slotToToken, victim, pl.q[p]))
    else if stage == 3 then m.(tokenToSlot := Put(m.tokenToSlot, pl.q[p], victim))
    else m.(slotIds := Put(m.slotIds, p, victim))
  }

  // The write of winner p advances p and leaves every other winner where it is.
  lemma WriteOwn(k: Kernel, pl: Plan, m: Mem, p: nat, stage: nat)
    requires ReplaceShape(k, pl, m) && p < |pl.w| && pl.w[p] && 1 <= stage <= 4
    requires WinnerOk(pl, m, p, stage)
    ensures WinnerOk(pl, WriteStage(pl, m, p, stage), p, stage + 1)
  {
    pl.VictimFacts(p);
    pl.Separate(p, p);
  }

  lemma WriteOther(k: Kernel, pl: Plan, m: Mem, p: nat, stage: nat, r: nat, s: nat)
    requires ReplaceShape(k, pl, m) && p < |pl.w| && pl.w[p] && 1 <= stage <= 4
    requires r < |pl.w| && pl.w[r] && r != p && WinnerOk(pl, m, r, s)
    ensures WinnerOk(pl, WriteStage(pl, m, p, stage), r, s)
  {
    pl.VictimFacts(p);
    pl.VictimFacts(r);
    pl.Separate(r, p);
    pl.Separate(p, r);
  }

  lemma WriteRest(k: Kernel, pl: Plan, m: Mem, p: nat, stage: nat)
    requires ReplaceShape(k, pl, m) && p < |pl.w| && pl.w[p] && 1 <= stage <= 4 && RestOk(pl, m)
    ensures RestOk(pl, WriteStage(pl, m, p, stage))
  {
    pl.VictimFacts(p);
  }

  lemma ReplaceKeeps(k: Kernel, pl: Plan, m: Mem, ls: seq<Local>, t: nat)
    requires ReplaceInv(k, pl, m, ls) && t < |ls| && ls[t].pc != Barrier
    ensures k.InBounds(m, t, ls[t])
    ensures var e := k.ReplaceStep(m, t, ls[t]);
            ReplaceInv(k, pl, e.mem, ls[t := e.local]) && ReplaceFrame(m, e.mem)
  {
    var l := ls[t];
    assert ReplaceLocalOk(k, pl, m, t, l);
    if InReplacement(l) {
      ReplaceWrite(k, pl, m, ls, t);
    } else {
      ReplaceQuiet(k, pl, m, ls, t);
    }
  }

  lemma ReplaceWriteMem(k: Kernel, pl: Plan, m: Mem, t: nat, l: Local)
    requires ReplaceMem(k, pl, m) && t < k.threads && PickOk(k, pl, t, l)
    requires InReplacement(l) && CellsExist(pl, l.pos)
    ensures k.InBounds(m, t, l)
    ensures var e := k.ReplaceStep(m, t, l);
            && e.mem == WriteStage(pl, m, l.pos, Stage(l, l.pos))
            && ReplaceFrame(m, e.mem) && e.mem.counters == m.counters
  {
  }

  lemma WriteStageMem(k: Kernel, pl: Plan, m: Mem, p: nat, stage: nat)
    requires ReplaceMem(k, pl, m) && p < |pl.w|
    ensures ReplaceMem(k, pl, WriteStage(pl, m, p, stage))
  {
  }

  lemma ReplaceWriteLocal(k: Kernel, pl: Plan, m: Mem, t: nat, l: Local)
    requires ReplaceMem(k, pl, m) && t < k.threads && ReplaceLocalOk(k, pl, m, t, l)
    requires InReplacement(l)
    ensures var l' := k.ReplaceStep(m, t, l).local;
            && l'.pc in {SetSlot, SetToken, SetId, Pick} && l'.misses == l.misses
            && InChunk(|pl.w|, k.threads, t, l'.pos) && PickOk(k, pl, t, l')
  {
    if l.pc == SetId {
      ReplaceLastWrite(k, pl, m, t, l);
    }
  }

  lemma ReplaceLastWrite(k: Kernel, pl: Plan, m: Mem, t: nat, l: Local)
    requires ReplaceMem(k, pl, m) && t < k.threads && ReplaceLocalOk(k, pl, m, t, l)
    requires l.pc == SetId
    ensures var l' := k.ReplaceStep(m, t, l).local;
            && l'.pc == Pick && l'.misses == l.misses
            && InChunk(|pl.w|, k.threads, t, l'.pos) && PickOk(k, pl, t, l')
  {
    NextPick(k, pl, t, l, l.(pc := Pick, pos := l.pos + 1));
    assert k.ReplaceStep(m, t, l).local == l.(pc := Pick, pos := l.pos + 1);
  }

  lemma NextPick(k: Kernel, pl: Plan, t: nat, l: Local, l': Local)
    requires t < k.threads && InChunk(|pl.w|, k.threads, t, l.pos) && PickOk(k, pl, t, l)
    requires l.pc == SetId && l' == l.(pc := Pick, pos := l.pos + 1)
    ensures InChunk(|pl.w|, k.threads, t, l'.pos) && PickOk(k, pl, t, l')
  {
    PassWinner(pl.w, k.threads, t, l.pos);
  }

  lemma PassWinner(w: seq<bool>, threads: nat, t: nat, pos: nat)
    requires t < threads && pos < |w| && w[pos]
    requires InChunk(|w|, threads, t, pos) && pos < Bound(|w|, threads, t + 1)
    ensures InChunk(|w|, threads, t, pos + 1) && Min(pos + 1, |w|) == pos + 1
    ensures Rank(w, pos + 1) == Rank(w, pos) + 1
  {
    ChunkStep(|w|, threads, t, pos);
    BoundNext(|w|, threads, t);
  }

  lemma WriteStages(k: Kernel, m: Mem, t: nat, l: Local)
    requires t < k.threads && InReplacement(l)
    ensures var e := k.ReplaceStep(m, t, l);
            && Stage(e.local, l.pos) == Stage(l, l.pos) + 1
            && (forall p: nat | p != l.pos :: Stage(e.local, p) == Stage(l, p))
  {
  }

  // A step that keeps the other threads' registers valid keeps them all.
  lemma ReplaceLocals(k: Kernel, pl: Plan, m: Mem, m': Mem, ls: seq<Local>, t: nat, l: Local)
    requires |ls| == k.threads && t < |ls| && ReplaceMem(k, pl, m) && ReplaceMem(k, pl, m')
    requires AllReplaceLocalOk(k, pl, m, ls)
    requires t == k.threads - 1 || m'.counters == m.counters
    requires ReplaceLocalOk(k, pl, m', t, l)
    ensures AllReplaceLocalOk(k, pl, m', ls[t := l])
  {
    forall u: nat | u < |ls| && u != t
      ensures ReplaceLocalOk(k, pl, m', u, ls[u])
    {
      assert ReplaceLocalOk(k, pl, m, u, ls[u]);
    }
  }

  lemma WriteWinners(k: Kernel, pl: Plan, m: Mem, ls: seq<Local>, t: nat, l: Local)
    requires ReplaceShape(k, pl, m) && |ls| == k.threads && t < |ls| && WinnersInstalled(k, pl, m, ls)
    requires InReplacement(ls[t]) && ls[t].pos < |pl.w| && pl.w[ls[t].pos]
    requires Owns(|pl.w|, k.threads, t, ls[t].pos)
    requires Stage(l, ls[t].pos) == Stage(ls[t], ls[t].pos) + 1
    requires forall p: nat | p != ls[t].pos :: Stage(l, p) == Stage(ls[t], p)
    ensures WinnersInstalled(k, pl, WriteStage(pl, m, ls[t].pos, Stage(ls[t], ls[t].pos)), ls[t := l])
  {
    var pos, stage := ls[t].pos, Stage(ls[t], ls[t].pos);
    assert WinnerOk(pl, m, pos, stage);
    WriteOwn(k, pl, m, pos, stage);
    forall u: nat, p: nat | u < |ls| && p < |pl.w| && pl.w[p] && Owns(|pl.w|, k.threads, u, p)
      ensures WinnerOk(pl, WriteStage(pl, m, pos, stage), p, Stage(ls[t := l][u], p))
    {
      assert WinnerOk(pl, m, p, Stage(ls[u], p));
      if p != pos {
        WriteOther(k, pl, m, pos, stage, p, Stage(ls[u], p));
      } else {
        OwnerUnique(|pl.w|, k.threads, t, u, p);
      }
    }
  }

  lemma WriteAssembled(k: Kernel, pl: Plan, m: Mem, m': Mem, ls: seq<Local>, t: nat, l: Local)
    requires ReplaceInv(k, pl, m, ls) && t < |ls| && InReplacement(ls[t])
    requires ls[t].pos < |pl.w| && m' == WriteStage(pl, m, ls[t].pos, Stage(ls[t], ls[t].pos))
    requires Stage(l, ls[t].pos) == Stage(ls[t], ls[t].pos) + 1
    requires forall p: nat | p != ls[t].pos :: Stage(l, p) == Stage(ls[t], p)
    requires ReplaceMem(k, pl, m') && ReplaceLocalOk(k, pl, m', t, l)
    ensures ReplaceInv(k, pl, m', ls[t := l])
  {
    assert ReplaceLocalOk(k, pl, m, t, ls[t]);
    ReplaceLocals(k, pl, m, m', ls, t, l);
    ChunkStep(|pl.w|, k.threads, t, ls[t].pos);
    WriteWinners(k, pl, m, ls, t, l);
    WriteRest(k, pl, m, ls[t].pos, Stage(ls[t], ls[t].pos));
  }

  lemma ReplaceWrite(k: Kernel, pl: Plan, m: Mem, ls: seq<Local>, t: nat)
    requires ReplaceInv(k, pl, m, ls) && t < |ls| && InReplacement(ls[t])
    ensures k.InBounds(m, t, ls[t])
    ensures var e := k.ReplaceStep(m, t, ls[t]);
            ReplaceInv(k, pl, e.mem, ls[t := e.local]) && ReplaceFrame(m, e.mem)
  {
    var l := ls[t];
    assert ReplaceLocalOk(k, pl, m, t, l);
    pl.VictimFacts(l.pos);
    var e := ReplaceWriteStep(k, pl, m, t, l);
    WriteAssembled(k, pl, m, e.mem, ls, t, e.local);
  }

  lemma ReplaceWriteStep(k: Kernel, pl: Plan, m: Mem, t: nat, l: Local) returns (e: Effect)
    requires ReplaceMem(k, pl, m) && t < k.threads && ReplaceLocalOk(k, pl, m, t, l)
    requires InReplacement(l) && CellsExist(pl, l.pos)
    ensures k.InBounds(m, t, l) && e == k.ReplaceStep(m, t, l)
    ensures e.mem == WriteStage(pl, m, l.pos, Stage(l, l.pos)) && ReplaceFrame(m, e.mem)
    ensures ReplaceMem(k, pl, e.mem) && ReplaceLocalOk(k, pl, e.mem, t, e.local)
    ensures Stage(e.local, l.pos) == Stage(l, l.pos) + 1
    ensures forall p: nat | p != l.pos :: Stage(e.local, p) == Stage(l, p)
  {
    e := k.ReplaceStep(m, t, l);
    ReplaceWriteMem(k, pl, m, t, l);
    WriteStageMem(k, pl, m, l.pos, Stage(l, l.pos));
    ReplaceWriteLocal(k, pl, m, t, l);
    WriteStages(k, m, t, l);
  }

  lemma BoundMonotone(n: nat, threads: nat, t: nat, u: nat)
    requires threads > 0 && t <= u
    ensures Bound(n, threads, t) <= Bound(n, threads, u)
    decreases u
  {
    if t < u {
      BoundMonotone(n, threads, t, u - 1);
      BoundNext(n, threads, u - 1);
    }
  }

  lemma OwnerUnique(n: nat, threads: nat, t: nat, u: nat, p: nat)
    requires threads > 0 && Owns(n, threads, t, p) && Owns(n, threads, u, p)
    ensures t == u
  {
    if t < u {
      BoundMonotone(n, threads, t + 1, u);
    } else if u < t {
      BoundMonotone(n, threads, u + 1, t);
    }
  }

  lemma ReplaceQuietMem(k: Kernel, pl: Plan, m: Mem, t: nat, l: Local)
    requires ReplaceMem(k, pl, m) && t < k.threads && ReplaceLocalOk(k, pl, m, t, l)
    requires !InReplacement(l) && l.pc != Barrier
    requires PickSound(k, pl, m, t, l)
    ensures k.InBounds(m, t, l)
    ensures var e := k.ReplaceStep(m, t, l);
            && e.mem == m.(counters := e.mem.counters)
            && ReplaceMem(k, pl, e.mem) && ReplaceFrame(m, e.mem)
            && ((l.pc == StoreMissTotal && t == k.threads - 1) || e.mem == m)
  {
    ChunkStep(|pl.w|, k.threads, t, l.pos);
    BoundNext(|pl.w|, k.threads, t);
  }

  // A thread about to pick a winner finds its cells untouched.
  ghost predicate PickSound(k: Kernel, pl: Plan, m: Mem, t: nat, l: Local)
    requires 0 < k.threads
  {
    l.pc == Pick && l.pos < |pl.w| && pl.w[l.pos] && Owns(|pl.w|, k.threads, t, l.pos) ==>
      CellsExist(pl, l.pos) && Get(m.slotToToken, pl.Victim(l.pos)) == pl.OldToken(l.pos)
  }

  lemma ReplaceQuietLocal(k: Kernel, pl: Plan, m: Mem, t: nat, l: Local)
    requires ReplaceMem(k, pl, m) && t < k.threads && ReplaceLocalOk(k, pl, m, t, l)
    requires !InReplacement(l) && l.pc != Barrier
    requires PickSound(k, pl, m, t, l)
    ensures var e := k.ReplaceStep(m, t, l);
            ReplaceMem(k, pl, e.mem) && ReplaceLocalOk(k, pl, e.mem, t, e.local)
  {
    ChunkStep(|pl.w|, k.threads, t, l.pos);
    BoundNext(|pl.w|, k.threads, t);
    if l.pc == SumMiss {
      SumMissLocal(k, pl, m, t, l);
    } else if l.pc == StoreMissTotal {
      BoundsCover(|pl.w|, k.threads);
    } else {
      PickLocal(k, pl, m, t, l);
    }
  }

  lemma SumMissLocal(k: Kernel, pl: Plan, m: Mem, t: nat, l: Local)
    requires ReplaceMem(k, pl, m) && t < k.threads && ReplaceLocalOk(k, pl, m, t, l) && l.pc == SumMiss
    ensures var e := k.ReplaceStep(m, t, l); e.mem == m && ReplaceLocalOk(k, pl, m, t, e.local)
  {
    ChunkStep(|pl.w|, k.threads, t, l.pos);
  }

  lemma PickLocal(k: Kernel, pl: Plan, m: Mem, t: nat, l: Local)
    requires ReplaceMem(k, pl, m) && t < k.threads && ReplaceLocalOk(k, pl, m, t, l) && l.pc == Pick
    requires PickSound(k, pl, m, t, l)
    ensures var e := k.ReplaceStep(m, t, l); e.mem == m && ReplaceLocalOk(k, pl, m, t, e.local)
  {
    var l' := k.ReplaceStep(m, t, l).local;
    PickStep(k, pl, m, t, l);
    PickRegisters(k, pl, t, l, l');
  }

  lemma PickStep(k: Kernel, pl: Plan, m: Mem, t: nat, l: Local)
    requires ReplaceMem(k, pl, m) && t < k.threads && ReplaceLocalOk(k, pl, m, t, l) && l.pc == Pick
    requires PickSound(k, pl, m, t, l)
    ensures k.ReplaceStep(m, t, l).mem == m
    ensures Picks(k, pl, t, l, k.ReplaceStep(m, t, l).local)
  {
    ChunkStep(|pl.w|, k.threads, t, l.pos);
    BoundNext(|pl.w|, k.threads, t);
  }

  predicate Picks(k: Kernel, pl: Plan, t: nat, l: Local, l': Local)
    requires 0 < k.threads
  {
    if l.pos >= Bound(|pl.w|, k.threads, t + 1) then l' == l.(pc := StoreMissTotal)
    else
      && l.pos < |pl.w|
      && if !pl.w[l.pos] then l' == l.(pos := l.pos + 1)
         else l' == l.(pc := ClearOld, missOffset := l.missOffset + 1, victim := pl.Victim(l.pos),
                       victimToken := pl.OldToken(l.pos))
  }

  lemma PickRegisters(k: Kernel, pl: Plan, t: nat, l: Local, l': Local)
    requires 0 < k.threads && l.pc == Pick && Picks(k, pl, t, l, l')
    requires InChunk(|pl.w|, k.threads, t, l.pos) && PickOk(k, pl, t, l)
    ensures InChunk(|pl.w|, k.threads, t, l'.pos) && PickOk(k, pl, t, l')
  {
    ChunkStep(|pl.w|, k.threads, t, l.pos);
    if l.pos < Bound(|pl.w|, k.threads, t + 1) && !pl.w[l.pos] {
      assert Rank(pl.w, l.pos + 1) == Rank(pl.w, l.pos);
    }
  }

  // A quiet step moves past positions that are not winners, or picks one.
  lemma QuietStages(k: Kernel, pl: Plan, m: Mem, t: nat, l: Local, p: nat)
    requires ReplaceMem(k, pl, m) && t < k.threads && !InReplacement(l) && l.pc != Barrier
    requires l.pc == SumMiss || l.pc == Pick || l.pc == StoreMissTotal
    requires p < |pl.w| && pl.w[p]
    ensures var e := k.ReplaceStep(m, t, l);
            Stage(e.local, p) == Stage(l, p) || (Stage(l, p) == 0 && Stage(e.local, p) == 1)
  {
  }

  lemma QuietWinners(k: Kernel, pl: Plan, m: Mem, m': Mem, ls: seq<Local>, t: nat, l: Local)
    requires pl.Valid() && 0 < k.threads == |ls| && t < |ls| && WinnersInstalled(k, pl, m, ls)
    requires m' == m.(counters := m'.counters)
    requires forall p: nat | p < |pl.w| && pl.w[p] ::
               Stage(l, p) == Stage(ls[t], p) || (Stage(ls[t], p) == 0 && Stage(l, p) == 1)
    ensures WinnersInstalled(k, pl, m', ls[t := l])
  {
    forall u: nat, p: nat | u < |ls| && p < |pl.w| && pl.w[p] && Owns(|pl.w|, k.threads, u, p)
      ensures WinnerOk(pl, m', p, Stage(ls[t := l][u], p))
    {
      assert WinnerOk(pl, m, p, Stage(ls[u], p));
    }
  }

  lemma ReplaceQuietStep(k: Kernel, pl: Plan, m: Mem, t: nat, l: Local) returns (e: Effect)
    requires ReplaceMem(k, pl, m) && t < k.threads && ReplaceLocalOk(k, pl, m, t, l)
    requires !InReplacement(l) && l.pc != Barrier
    requires PickSound(k, pl, m, t, l)
    ensures k.InBounds(m, t, l) && e == k.ReplaceStep(m, t, l)
    ensures e.mem == m.(counters := e.mem.counters) && ReplaceFrame(m, e.mem)
    ensures (l.pc == StoreMissTotal && t == k.threads - 1) || e.mem == m
    ensures ReplaceMem(k, pl, e.mem) && ReplaceLocalOk(k, pl, e.mem, t, e.local)
    ensures forall p: nat | p < |pl.w| && pl.w[p] ::
              Stage(e.local, p) == Stage(l, p) || (Stage(l, p) == 0 && Stage(e.local, p) == 1)
  {
    e := k.ReplaceStep(m, t, l);
    ReplaceQuietMem(k, pl, m, t, l);
    ReplaceQuietLocal(k, pl, m, t, l);
    forall p: nat | p < |pl.w| && pl.w[p]
      ensures Stage(e.local, p) == Stage(l, p) || (Stage(l, p) == 0 && Stage(e.local, p) == 1)
    {
      QuietStages(k, pl, m, t, l, p);
    }
  }

  lemma PickIsSound(k: Kernel, pl: Plan, m: Mem, ls: seq<Local>, t: nat)
    requires pl.Valid() && 0 < k.threads == |ls| && t < |ls| && WinnersInstalled(k, pl, m, ls)
    ensures PickSound(k, pl, m, t, ls[t])
  {
    var l := ls[t];
    if l.pc == Pick && l.pos < |pl.w| && pl.w[l.pos] && Owns(|pl.w|, k.threads, t, l.pos) {
      assert WinnerOk(pl, m, l.pos, Stage(l, l.pos));
      pl.VictimFacts(l.pos);
    }
  }

  lemma ReplaceQuiet(k: Kernel, pl: Plan, m: Mem, ls: seq<Local>, t: nat)
    requires ReplaceInv(k, pl, m, ls) && t < |ls| && !InReplacement(ls[t]) && ls[t].pc != Barrier
    ensures k.InBounds(m, t, ls[t])
    ensures var e := k.ReplaceStep(m, t, ls[t]);
            ReplaceInv(k, pl, e.mem, ls[t := e.local]) && ReplaceFrame(m, e.mem)
  {
    PickIsSound(k, pl, m, ls, t);
    assert ReplaceLocalOk(k, pl, m, t, ls[t]);
    var e := ReplaceQuietStep(k, pl, m, t, ls[t]);
    ReplaceLocals(k, pl, m, e.mem, ls, t, e.local);
    QuietWinners(k, pl, m, e.mem, ls, t, e.local);
  }

  // At the barrier the tables are exactly what the sequential installation computes.
  ghost predicate Replaced(pl: Plan, m: Mem)
    requires pl.Valid()
  {
    && Installed(pl.st, pl.q, pl.w, pl.victims, pl.Count(), Mapping(m.tokenToSlot, m.slotToToken))
    && |m.slotIds| == |pl.q| && |m.counters| == 4
    && (forall p: nat | p < |pl.w| ::
          m.slotIds[p] ==
          if pl.w[p] then pl.Victim(p)
          else if Resident(pl.st, pl.q[p]) then pl.st.tokenToSlot[pl.q[p]] else NOT_FOUND)
    && m.counters[2] == pl.Count()
  }

  lemma ReplaceDone(k: Kernel, pl: Plan, m: Mem, ls: seq<Local>)
    requires ReplaceInv(k, pl, m, ls)
    requires forall t | 0 <= t < |ls| :: ls[t].pc == Barrier
    ensures Replaced(pl, m)
  {
    forall p: nat | p < |pl.w| && pl.w[p]
      ensures WinnerOk(pl, m, p, 5)
    {
      WinnerDone(k, pl, m, ls, p);
    }
    assert ReplaceLocalOk(k, pl, m, k.threads - 1, ls[k.threads - 1]);
    ReplaceInstalled(pl, m);
    forall p: nat | p < |pl.w|
      ensures m.slotIds[p] ==
              if pl.w[p] then pl.Victim(p)
              else if Resident(pl.st, pl.q[p]) then pl.st.tokenToSlot[pl.q[p]] else NOT_FOUND
    {
      assert pl.w[p] ==> WinnerOk(pl, m, p, 5);
      assert Get(m.slotIds, p) == m.slotIds[p];
    }
  }

  lemma StageAtBarrier(k: Kernel, pl: Plan, t: nat, l: Local, p: nat)
    requires 0 < k.threads && l.pc == Barrier && PickOk(k, pl, t, l)
    requires p < |pl.w| && Owns(|pl.w|, k.threads, t, p)
    ensures Stage(l, p) == 5
  {
  }

  lemma WinnerAt(k: Kernel, pl: Plan, m: Mem, ls: seq<Local>, t: nat, p: nat)
    requires pl.Valid() && 0 < k.threads == |ls| && WinnersInstalled(k, pl, m, ls)
    requires t < |ls| && p < |pl.w| && pl.w[p] && Owns(|pl.w|, k.threads, t, p)
    ensures WinnerOk(pl, m, p, Stage(ls[t], p))
  {
  }

  lemma PickAtBarrier(k: Kernel, pl: Plan, m: Mem, ls: seq<Local>, t: nat)
    requires ReplaceShape(k, pl, m) && |ls| == k.threads && t < |ls|
    requires AllReplaceLocalOk(k, pl, m, ls) && ls[t].pc == Barrier
    ensures PickOk(k, pl, t, ls[t])
  {
    assert ReplaceLocalOk(k, pl, m, t, ls[t]);
  }

  lemma WinnerDone(k: Kernel, pl: Plan, m: Mem, ls: seq<Local>, p: nat)
    requires ReplaceShape(k, pl, m) && |ls| == k.threads
    requires AllReplaceLocalOk(k, pl, m, ls) && WinnersInstalled(k, pl, m, ls)
    requires p < |pl.w| && pl.w[p]
    requires forall t | 0 <= t < |ls| :: ls[t].pc == Barrier
    ensures WinnerOk(pl, m, p, 5)
  {
    var t := OwnerOf(|pl.w|, k.threads, p);
    PickAtBarrier(k, pl, m, ls, t);
    StageAtBarrier(k, pl, t, ls[t], p);
    WinnerAt(k, pl, m, ls, t, p);
  }

  lemma ReplaceInstalled(pl: Plan, m: Mem)
    requires pl.Valid() && RestOk(pl, m)
    requires |m.tokenToSlot| == |pl.st.tokenToSlot| && |m.slotToToken| == |pl.st.slotToToken|
    requires forall p: nat | p < |pl.w| && pl.w[p] :: WinnerOk(pl, m, p, 5)
    ensures Installed(pl.st, pl.q, pl.w, pl.victims, pl.Count(), Mapping(m.tokenToSlot, m.slotToToken))
  {
    forall p | 0 <= p < |pl.q| && pl.w[p] && Rank(pl.w, p) < pl.Count()
      ensures Get(m.tokenToSlot, pl.q[p]) == pl.victims[Rank(pl.w, p)]
      ensures Get(m.slotToToken, pl.victims[Rank(pl.w, p)]) == pl.q[p]
    {
      assert WinnerOk(pl, m, p, 5);
    }
    forall token | 0 <= token < |m.tokenToSlot| && !Picked(pl.q, pl.w, pl.Count(), token)
      ensures m.tokenToSlot[token] ==
              if IsVictim(pl.victims, pl.Count(), pl.st.tokenToSlot[token]) then NOT_FOUND
              else pl.st.tokenToSlot[token]
    {
      if IsVictim(pl.victims, pl.Count(), pl.st.tokenToSlot[token]) {
        var c :| 0 <= c < pl.Count() && pl.victims[c] == pl.st.tokenToSlot[token];
        var p := CompactSource(pl.q, pl.w, |pl.w|, c);
        assert WinnerOk(pl, m, p, 5);
        assert pl.OldToken(p) == token;
      } else {
        assert Get(m.tokenToSlot, token) == Get(pl.st.tokenToSlot, token);
      }
    }
    forall slot | 0 <= slot < |m.slotToToken| && !IsVictim(pl.victims, pl.Count(), slot)
      ensures m.slotToToken[slot] == pl.st.slotToToken[slot]
    {
      assert Get(m.slotToToken, slot) == Get(pl.st.slotToToken, slot);
    }
  }
}
