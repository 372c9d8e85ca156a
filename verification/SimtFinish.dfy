/** Phase 6 of the SIMT kernel: the order rewrite and the resolution of duplicated misses. */
module SimtFinish {
  import opened Compaction
  import opened Mappings
  import opened LookupSpec
  import opened SimtMachine
  import opened SimtClaim

  // Thread x % threads has rewritten entry x, or resolved position x.
  predicate Rewritten(k: Kernel, ls: seq<Local>, x: nat)
    requires 0 < k.threads == |ls|
  {
    ls[x % k.threads].pc != Rewrite || Passed(k, ls, x)
  }

  predicate Resolved(k: Kernel, ls: seq<Local>, x: nat)
    requires 0 < k.threads == |ls|
  {
    ls[x % k.threads].pc != Rewrite && Passed(k, ls, x)
  }

  // Memory on which the last phase computes outcome o.
  ghost predicate FinishMem(k: Kernel, o: Outcome, m: Mem) {
    && m.tokenToSlot == o.tables.tokenToSlot && m.slotToToken == o.tables.slotToToken && m.missMask == o.missMask
    && |m.lru| == |o.tables.lru| && |m.slotIds| == |o.slotIds| == |k.query|
    && o.slotIds == SlotIdsOf(m.tokenToSlot, k.query)
    && |m.counters| == 4 && 0 <= m.counters[2] <= m.counters[1] <= |m.evictableSlots|
    && |m.lru| - m.counters[1] <= |m.hitSlots|
    && (forall x: nat | x < |m.lru| :: k.NewOrderAt(m, x) == o.tables.lru[x])
  }

  ghost predicate FinishInv(k: Kernel, o: Outcome, m: Mem, ls: seq<Local>) {
    && 0 < k.threads == |ls|
    && FinishMem(k, o, m)
    && Strided(k, ls)
    && (forall t | 0 <= t < |ls| :: ls[t].pc in {Rewrite, Resolve, Barrier})
    && (forall t | 0 <= t < |ls| :: ls[t].pc == Barrier ==> ls[t].pos >= |k.query|)
    && (forall x: nat | x < |m.lru| && Rewritten(k, ls, x) :: m.lru[x] == o.tables.lru[x])
    && (forall p: nat | p < |m.slotIds| ::
          || m.slotIds[p] == o.slotIds[p]
          || (!Resolved(k, ls, p) && m.slotIds[p] == NOT_FOUND && 0 <= k.query[p] < |m.tokenToSlot|))
  }

  lemma FinishKeeps(k: Kernel, o: Outcome, m: Mem, ls: seq<Local>, t: nat)
    requires FinishInv(k, o, m, ls) && t < |ls| && ls[t].pc != Barrier
    ensures k.InBounds(m, t, ls[t])
    ensures var e := k.FinishStep(m, t, ls[t]); FinishInv(k, o, e.mem, ls[t := e.local])
  {
    var l := ls[t];
    var e := k.FinishStep(m, t, l);
    if l.pc == Resolve {
      ResolveKeeps(k, o, m, ls, t);
    } else if l.pos < |m.lru| {
      RewriteEntry(k, o, m, ls, t, e.local);
    } else {
      RewriteOver(k, o, m, ls, t, e.local);
    }
  }

  // The order list and the slot ids are not read by the order rewrite.
  lemma FinishMemKept(k: Kernel, o: Outcome, m: Mem, m': Mem)
    requires FinishMem(k, o, m)
    requires m' == m.(lru := m'.lru, slotIds := m'.slotIds)
    requires |m'.lru| == |m.lru| && |m'.slotIds| == |m.slotIds|
    ensures FinishMem(k, o, m')
  {
    assert forall x: nat | x < |m.lru| :: k.NewOrderAt(m', x) == k.NewOrderAt(m, x);
  }

  lemma RewriteEntry(k: Kernel, o: Outcome, m: Mem, ls: seq<Local>, t: nat, l: Local)
    requires FinishInv(k, o, m, ls) && t < |ls| && ls[t].pc == Rewrite && ls[t].pos < |m.lru|
    requires l == ls[t].(pos := ls[t].pos + k.threads)
    ensures FinishInv(k, o, m.(lru := m.lru[ls[t].pos := k.NewOrderAt(m, ls[t].pos)]), ls[t := l])
  {
    var m' := m.(lru := m.lru[ls[t].pos := k.NewOrderAt(m, ls[t].pos)]);
    FinishMemKept(k, o, m, m');
    AdvanceStride(k, ls, t, l);
    assert forall x: nat :: Rewritten(k, ls[t := l], x) ==> Rewritten(k, ls, x) || x == ls[t].pos;
    assert forall p: nat :: Resolved(k, ls[t := l], p) ==> Resolved(k, ls, p);
  }

  // A thread that starts over at its own id has resolved nothing yet.
  lemma RestartPassesNothing(k: Kernel, ls: seq<Local>, t: nat, l: Local, p: nat)
    requires 0 < k.threads == |ls| && t < |ls| && l.pos == t
    ensures t % k.threads == t
    ensures p % k.threads == t ==> !Passed(k, ls[t := l], p)
  {
    ModUnique(t, 0, t, k.threads);
    if p < t {
      ModUnique(p, 0, p, k.threads);
    }
  }

  lemma RewriteOver(k: Kernel, o: Outcome, m: Mem, ls: seq<Local>, t: nat, l: Local)
    requires FinishInv(k, o, m, ls) && t < |ls| && ls[t].pc == Rewrite && ls[t].pos >= |m.lru|
    requires l == ls[t].(pc := Resolve, pos := t)
    ensures FinishInv(k, o, m, ls[t := l])
  {
    RestartPassesNothing(k, ls, t, l, 0);
    assert Strided(k, ls[t := l]);
    assert forall x: nat :: x < |m.lru| && Rewritten(k, ls[t := l], x) ==> Rewritten(k, ls, x);
    forall p: nat | Resolved(k, ls[t := l], p)
      ensures Resolved(k, ls, p)
    {
      RestartPassesNothing(k, ls, t, l, p);
    }
  }

  lemma ResolveKeeps(k: Kernel, o: Outcome, m: Mem, ls: seq<Local>, t: nat)
    requires FinishInv(k, o, m, ls) && t < |ls| && ls[t].pc == Resolve
    ensures var e := k.FinishStep(m, t, ls[t]); FinishInv(k, o, e.mem, ls[t := e.local])
  {
    var l := ls[t];
    var e := k.FinishStep(m, t, l);
    if l.pos < |k.query| {
      AdvanceStride(k, ls, t, e.local);
      assert l.pos % k.threads == t && !Resolved(k, ls, l.pos);
      assert e.mem == m.(slotIds := m.slotIds[l.pos := o.slotIds[l.pos]]);
      FinishMemKept(k, o, m, e.mem);
    }
  }

  lemma FinishDone(k: Kernel, o: Outcome, m: Mem, ls: seq<Local>)
    requires FinishInv(k, o, m, ls)
    requires forall t | 0 <= t < |ls| :: ls[t].pc == Barrier
    ensures Outcome(Tables(m.tokenToSlot, m.slotToToken, m.lru), m.slotIds, m.missMask) == o
  {
    assert forall x: nat | x < |m.lru| :: Rewritten(k, ls, x);
    assert forall p: nat | p < |m.slotIds| :: Resolved(k, ls, p);
  }
}
