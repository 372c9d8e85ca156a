/** The manager's slots: every reset frees all of them, none is lost while every copy succeeds, and exactly
    when one is; and what a preparation makes of every token. */
module KvSlots {
  import opened Compaction
  import opened Mappings
  import opened KvResolver
  import opened KvManager
  import opened KvFailures

  // ---- what a preparation does -----------------------------------------------------------------------

  // The block table's j-th block holds the tokens j * blockSize .., in order.
  lemma BlockAddress<T>(paged: Paged<T>, j: nat, offset: nat)
    requires j < |paged.table| && offset < paged.blockSize
    ensures Covered(paged, j * paged.blockSize + offset)
    ensures Address(paged, j * paged.blockSize + offset) == paged.table[j] * paged.blockSize + offset
  {
    ModUnique(j * paged.blockSize + offset, j, offset, paged.blockSize);
  }

  // A step starts its sequence anew.
  predicate Restarts<T>(l: Layer<T>, s: Step<T>) {
    l.reqId != s.reqId || l.actualSeqLen == 0 || s.seqLen < l.actualSeqLen
  }

  // Exactly when a preparation succeeds: the lengths are legal and fit, and when the sequence starts anew
  // the block table reaches the last token that is not new.
  lemma PreparedExactly<T>(l: Layer<T>, s: Step<T>)
    ensures PrepareFor(l, s).1 == Done <==>
            if Restarts(l, s) then
              && 0 <= s.seqLen <= |l.ctx.tokenState| && 0 <= s.newTokens
              && (s.newTokens < s.seqLen ==>
                    s.paged.blockSize > 0 && (s.seqLen - s.newTokens - 1) / s.paged.blockSize < |s.paged.table|)
            else s.seqLen == l.actualSeqLen || 0 < s.seqLen <= |l.ctx.tokenState|
  {
  }

  // What it makes of every token: a new sequence has its old tokens recorded by address and its new ones in
  // the tail; a sequence that goes on has its last token in the tail and the others as they were.
  lemma PreparedTokens<T>(l: Layer<T>, s: Step<T>, t: nat)
    requires PrepareFor(l, s).1 == Done && t < |l.ctx.tokenState| && |l.ctx.recordAddr| == |l.ctx.tokenState|
    ensures var r := PrepareFor(l, s).0;
            && r.reqId == s.reqId && r.actualSeqLen == s.seqLen && |r.ctx.tokenState| == |l.ctx.tokenState|
            && (Restarts(l, s) ==>
                  && r.ctx.tokenState[t] == (if t < s.seqLen - s.newTokens then ASU_ONLY
                                             else if t < s.seqLen then TAIL_HBM else INVALID)
                  && (t < s.seqLen - s.newTokens ==>
                        Covered(s.paged, t) && r.ctx.recordAddr[t] == Address(s.paged, t)))
            && (!Restarts(l, s) ==>
                  r.ctx.tokenState[t] == if s.seqLen > l.actualSeqLen && t == s.seqLen - 1 then TAIL_HBM
                                         else l.ctx.tokenState[t])
  {
    if Restarts(l, s) && t < s.seqLen - s.newTokens {
      DivMonotone(t, s.seqLen - s.newTokens - 1, s.paged.blockSize);
    }
  }

  // ---- all slots free ----------------------------------------------------------------------------------

  ghost predicate AllFree<T>(c: Ctx<T>) {
    && c.freeCount == |c.slotOwner| && Residents(c) == {}
    && forall slot | 0 <= slot < |c.slotOwner| :: Free(c, slot)
  }

  function Residents<T>(c: Ctx<T>): set<int> {
    set t | t in Below(|c.tokenState|) && Get(c.tokenState, t) == HBM_RESIDENT
  }

  lemma ClearedFree<T>(c: Ctx<T>)
    requires Sizes(c)
    ensures AllFree(Cleared(c))
  {
    var r := Cleared(c);
    forall slot | 0 <= slot < |r.slotOwner|
      ensures Free(r, slot)
    {
      assert Get(r.freeStack, slot) == slot;
    }
  }

  // A new layer, and a layer that starts a sequence anew or stops half-way in doing so, has every slot free.
  lemma ResetFreesAll<T>(l: Layer<T>, s: Step<T>)
    requires Sizes(l.ctx) && Restarts(l, s) && (PrepareFor(l, s).1 == Done || PrepareFor(l, s).0 != l)
    ensures AllFree(PrepareFor(l, s).0.ctx) && AllFree(NewLayer(l.ctx).ctx)
  {
    ClearedFree(l.ctx);
    var r := PrepareFor(l, s).0.ctx;
    assert forall slot | 0 <= slot < |r.slotOwner| :: Free(Cleared(l.ctx), slot) ==> Free(r, slot);
  }

  function Listed(topk: seq<int>): set<int> {
    set t | t in topk
  }

  lemma NoResident<T>(c: Ctx<T>, t: int)
    requires Residents(c) == {}
    ensures Get(c.tokenState, t) != HBM_RESIDENT
  {
    assert t !in Residents(c);
  }

  lemma {:induction false} AllToInstall<T>(c: Ctx<T>, topk: seq<int>, n: nat)
    requires n <= |topk| && Residents(c) == {}
    ensures ToInstall(c, topk, n) == Listed(topk[..n])
  {
    if n > 0 {
      AllToInstall(c, topk, n - 1);
      NoResident(c, topk[n - 1]);
      assert topk[..n] == topk[..n - 1] + [topk[n - 1]];
    }
  }

  // The first list of a sequence resolves if and only if its tokens are in the sequence and stored and its
  // distinct tokens are no more than the slots.
  lemma FirstListExactly<T>(l: Layer<T>, s: Step<T>)
    requires Sizes(l.ctx) && Restarts(l, s) && PrepareFor(l, s).1 == Done && s.paged.blockSize > 0
    ensures Decode(l, s).1.Resolved?
    ensures Decode(l, s).1.slots.Ok? <==>
            && (forall i | 0 <= i < |s.topk| :: 0 <= s.topk[i] < s.seqLen && Stored(s.paged, s.topk[i]))
            && |Listed(s.topk)| <= |l.ctx.slotOwner|
  {
    var ready := PrepareFor(l, s).0;
    ResetKeeps(l, s.reqId, s.seqLen, PrefixLen(s.seqLen, s.newTokens), s.paged);
    ResetFreesAll(l, s);
    AllToInstall(ready.ctx, s.topk, |s.topk|);
    assert s.topk[..|s.topk|] == s.topk;
    ResolveSucceedsExactly(ready.ctx, s.paged, s.seqLen, s.topk, |s.topk|);
    forall i | 0 <= i < |s.topk|
      ensures Resolvable(ready.ctx, s.paged, s.seqLen, s.topk[i]) <==>
              0 <= s.topk[i] < s.seqLen && Stored(s.paged, s.topk[i])
    {
      var t := s.topk[i];
      if 0 <= t < s.seqLen {
        PreparedTokens(l, s, t);
      }
    }
  }

  lemma DistinctPrefix(xs: seq<int>, n: nat)
    requires Distinct(xs) && n < |xs|
    ensures |Listed(xs[..n])| == n && xs[n] !in Listed(xs[..n])
  {
    DistinctCount(xs[..n]);
    assert Listed(xs[..n]) == set x | x in xs[..n];
  }

  // After n distinct new tokens have resolved, n slots are taken and the next token has none.
  lemma TakenInTurn<T>(c: Ctx<T>, paged: Paged<T>, seqLen: int, topk: seq<int>, n: nat)
    requires Good(c, paged) && seqLen <= |c.tokenState| && Residents(c) == {} && Distinct(topk) && n < |topk|
    requires ResolveTo(c, paged, seqLen, topk, n).1.Ok?
    ensures var now := ResolveTo(c, paged, seqLen, topk, n).0;
            now.freeCount == c.freeCount - n && Get(now.tokenState, topk[n]) != HBM_RESIDENT
  {
    ResolveSucceedsExactly(c, paged, seqLen, topk, n);
    AllToInstall(c, topk, n);
    DistinctPrefix(topk, n);
    NoResident(c, topk[n]);
  }

  lemma TopSlot<T>(c: Ctx<T>, paged: Paged<T>, seqLen: int, token: int)
    requires c.freeStack == Arange(|c.freeStack|) && c.freeCount <= |c.freeStack|
    requires Get(c.tokenState, token) != HBM_RESIDENT && ResolveOne(c, paged, seqLen, token).1.Ok?
    ensures var (r, slot) := ResolveOne(c, paged, seqLen, token);
            r.freeStack == c.freeStack && slot == Ok(c.freeCount - 1)
  {
  }

  // From a full stack the n-th new token takes the n-th slot from the top.
  lemma {:induction false} SlotsInTurn<T>(c: Ctx<T>, paged: Paged<T>, seqLen: int, topk: seq<int>, n: nat)
    requires Good(c, paged) && seqLen <= |c.tokenState| && Residents(c) == {} && c.freeCount == |c.freeStack|
    requires c.freeStack == Arange(|c.freeStack|) && Distinct(topk) && n <= |topk|
    requires ResolveTo(c, paged, seqLen, topk, n).1.Ok?
    ensures var (r, slots) := ResolveTo(c, paged, seqLen, topk, n);
            r.freeStack == c.freeStack && forall i | 0 <= i < n :: slots.value[i] == |c.freeStack| - 1 - i
  {
    if n > 0 {
      SlotsInTurn(c, paged, seqLen, topk, n - 1);
      TakenInTurn(c, paged, seqLen, topk, n - 1);
      TopSlot(ResolveTo(c, paged, seqLen, topk, n - 1).0, paged, seqLen, topk[n - 1]);
    }
  }

  // The slots that the first list of a sequence is given, when its tokens are distinct: from the last one down.
  lemma FirstSlots<T>(l: Layer<T>, s: Step<T>, i: nat)
    requires Sizes(l.ctx) && Restarts(l, s) && Distinct(s.topk) && i < |s.topk|
    requires Decode(l, s).1.Resolved? && Decode(l, s).1.slots.Ok?
    ensures Decode(l, s).1.slots.value[i] == |l.ctx.slotOwner| - 1 - i
  {
    ResetKeeps(l, s.reqId, s.seqLen, PrefixLen(s.seqLen, s.newTokens), s.paged);
    ResetFreesAll(l, s);
    SlotsInTurn(PrepareFor(l, s).0.ctx, s.paged, s.seqLen, s.topk, |s.topk|);
  }

  // ---- no slot is lost, except ---------------------------------------------------------------------------

  // Free slots and resident tokens.
  function Balance<T>(c: Ctx<T>): int {
    c.freeCount + |Residents(c)|
  }

  // The token's slot is popped and its copy then fails: its recorded address, or the table's for a tail
  // token, is outside the planes.
  predicate Leaks<T>(c: Ctx<T>, paged: Paged<T>, seqLen: int, token: int) {
    && 0 <= token < seqLen && Get(c.tokenState, token) != HBM_RESIDENT && c.freeCount > 0
    && SourceSlot(c, paged, token).Ok? && !InPlanes(paged, SourceSlot(c, paged, token).value)
  }

  lemma OneBalance<T>(c: Ctx<T>, paged: Paged<T>, seqLen: int, token: int)
    requires Sound(c) && seqLen <= |c.tokenState|
    ensures var r := ResolveOne(c, paged, seqLen, token).0;
            Sound(r) && Balance(r) == Balance(c) - if Leaks(c, paged, seqLen, token) then 1 else 0
  {
    if ResolveOne(c, paged, seqLen, token).1.Ok? {
      ResolveOneSound(c, paged, seqLen, token);
      InstalledBalance(c, paged, seqLen, token);
    } else {
      FailedBalance(c, paged, seqLen, token);
    }
  }

  lemma InstalledBalance<T>(c: Ctx<T>, paged: Paged<T>, seqLen: int, token: int)
    requires Sound(c) && seqLen <= |c.tokenState| && ResolveOne(c, paged, seqLen, token).1.Ok?
    ensures !Leaks(c, paged, seqLen, token)
    ensures Balance(ResolveOne(c, paged, seqLen, token).0) == Balance(c)
  {
    var r := ResolveOne(c, paged, seqLen, token).0;
    if Get(c.tokenState, token) != HBM_RESIDENT {
      assert Residents(r) == Residents(c) + {token} && token !in Residents(c);
    }
  }

  lemma FailedBalance<T>(c: Ctx<T>, paged: Paged<T>, seqLen: int, token: int)
    requires Sound(c) && seqLen <= |c.tokenState| && !ResolveOne(c, paged, seqLen, token).1.Ok?
    ensures var r := ResolveOne(c, paged, seqLen, token).0;
            Sound(r) && Balance(r) == Balance(c) - if Leaks(c, paged, seqLen, token) then 1 else 0
  {
    var r := ResolveOne(c, paged, seqLen, token).0;
    assert r == c || r == c.(freeCount := c.freeCount - 1);
    assert Residents(r) == Residents(c);
    if c.freeCount > 0 {
      assert Get(c.freeStack, c.freeCount - 1) == c.freeStack[c.freeCount - 1];
      PoppedSound(c);
    }
  }

  lemma PoppedSound<T>(c: Ctx<T>)
    requires Sound(c) && c.freeCount > 0
    ensures Sound(c.(freeCount := c.freeCount - 1))
  {
    var r := c.(freeCount := c.freeCount - 1);
    forall t | 0 <= t < |c.tokenState| && c.tokenState[t] == HBM_RESIDENT
      ensures Owned(r, t)
    {
      assert Owned(c, t);
    }
  }

  // Some token of the list leaks when its turn comes.
  ghost predicate ListLeaks<T>(c: Ctx<T>, paged: Paged<T>, seqLen: int, topk: seq<int>, n: nat)
    requires n <= |topk|
  {
    exists i: nat :: i < n && LeaksAt(c, paged, seqLen, topk, i)
  }

  ghost predicate LeaksAt<T>(c: Ctx<T>, paged: Paged<T>, seqLen: int, topk: seq<int>, i: nat)
    requires i < |topk|
  {
    var (before, slots) := ResolveTo(c, paged, seqLen, topk, i);
    slots.Ok? && Leaks(before, paged, seqLen, topk[i])
  }

  // A resolve keeps free slots plus residents, or loses exactly one slot to a leak, which ends it.
  lemma {:induction false} ListBalance<T>(c: Ctx<T>, paged: Paged<T>, seqLen: int, topk: seq<int>, n: nat)
    requires Sound(c) && seqLen <= |c.tokenState| && n <= |topk|
    ensures var (r, slots) := ResolveTo(c, paged, seqLen, topk, n);
            && Sound(r)
            && Balance(r) == Balance(c) - (if ListLeaks(c, paged, seqLen, topk, n) then 1 else 0)
            && (slots.Ok? ==> !ListLeaks(c, paged, seqLen, topk, n))
  {
    if n > 0 {
      ListBalance(c, paged, seqLen, topk, n - 1);
      var (before, slots) := ResolveTo(c, paged, seqLen, topk, n - 1);
      LeaksNext(c, paged, seqLen, topk, n);
      if slots.Ok? {
        OneBalance(before, paged, seqLen, topk[n - 1]);
      }
    }
  }

  lemma LeaksNext<T>(c: Ctx<T>, paged: Paged<T>, seqLen: int, topk: seq<int>, n: nat)
    requires 0 < n <= |topk|
    ensures ListLeaks(c, paged, seqLen, topk, n) <==>
            ListLeaks(c, paged, seqLen, topk, n - 1) || LeaksAt(c, paged, seqLen, topk, n - 1)
  {
    if ListLeaks(c, paged, seqLen, topk, n - 1) {
      var i: nat :| i < n - 1 && LeaksAt(c, paged, seqLen, topk, i);
      assert i < n && LeaksAt(c, paged, seqLen, topk, i);
    }
    if ListLeaks(c, paged, seqLen, topk, n) {
      var i: nat :| i < n && LeaksAt(c, paged, seqLen, topk, i);
      assert i < n - 1 || i == n - 1;
    }
  }

  // The step resolves a list that leaks.
  ghost predicate StepLeaks<T>(l: Layer<T>, s: Step<T>) {
    var (ready, status) := PrepareFor(l, s);
    && status == Done && ready.actualSeqLen >= 0 && s.paged.blockSize != 0
    && ListLeaks(ready.ctx, s.paged, ready.actualSeqLen, s.topk, |s.topk|)
  }

  ghost predicate Conserved<T>(l: Layer<T>) {
    Balance(l.ctx) == |l.ctx.slotOwner|
  }

  // Growth takes no resident token.
  lemma GrowthBalance<T>(l: Layer<T>, held: Paged<T>, s: Step<T>)
    requires LayerOk(l, held) && !Restarts(l, s)
    ensures Balance(PrepareFor(l, s).0.ctx) == Balance(l.ctx)
  {
    assert Residents(PrepareFor(l, s).0.ctx) == Residents(l.ctx);
  }

  // A decode step of a layer that has all its slots keeps them all if and only if it does not leak.
  lemma StepConserves<T>(l: Layer<T>, held: Paged<T>, s: Step<T>)
    requires LayerOk(l, held) && Follows(l, held, s) && Conserved(l)
    ensures Conserved(Decode(l, s).0) <==> !StepLeaks(l, s)
  {
    var (ready, status) := PrepareFor(l, s);
    PrepareKeeps(l, held, s);
    GoodIsSound(ready.ctx, Held(l, held, s));
    ReadyBalance(l, held, s);
    if status == Done && ready.actualSeqLen >= 0 && s.paged.blockSize != 0 {
      ListBalance(ready.ctx, s.paged, ready.actualSeqLen, s.topk, |s.topk|);
    }
  }

  lemma ReadyBalance<T>(l: Layer<T>, held: Paged<T>, s: Step<T>)
    requires LayerOk(l, held) && Conserved(l)
    ensures Conserved(PrepareFor(l, s).0)
  {
    if !Restarts(l, s) {
      GrowthBalance(l, held, s);
    } else if PrepareFor(l, s).0 != l {
      ResetFreesAll(l, s);
    }
  }

  // Over every run of a new layer: as long as no step leaks, free slots and resident tokens are all slots.
  lemma {:induction false} RunConserves<T>(c: Ctx<T>, layers: seq<Layer<T>>, steps: seq<Step<T>>,
                                           helds: seq<Paged<T>>, i: nat)
    requires Sizes(c) && IsRun(layers, steps, helds) && layers[0] == NewLayer(c) && i <= |steps|
    requires forall j | 0 <= j < i :: !StepLeaks(layers[j], steps[j])
    ensures Conserved(layers[i])
  {
    NewLayerOk(c, helds[0]);
    if i == 0 {
      ClearedFree(c);
    } else {
      RunConserves(c, layers, steps, helds, i - 1);
      RunKeeps(layers, steps, helds, i - 1);
      StepConserves(layers[i - 1], helds[i - 1], steps[i - 1]);
    }
  }

  // A leak: one slot, and a block table that sends token 0 past the planes. The slot is gone for the rest
  // of the request: with the table put right, token 0 does not resolve.
  lemma LeakInput()
    ensures var first := Step(Request("r"), 1, 1, Paged([5], 1, [7], [9]), [0]);
            var retry := first.(paged := Paged([0], 1, [7], [9]));
            var l := NewLayer(SMALL_CTX);
            && Conserved(l) && StepLeaks(l, first) && Decode(l, first).1 == Resolved(IndexError)
            && Decode(Decode(l, first).0, retry).1 == Resolved(OutOfSlots)
            && Decode(l, retry).1 == Resolved(Ok([0]))
  {
    var first := Step(Request("r"), 1, 1, Paged([5], 1, [7], [9]), [0]);
    var retry := first.(paged := Paged([0], 1, [7], [9]));
    var l := NewLayer(SMALL_CTX);
    var ready, again := PrepareFor(l, first).0, PrepareFor(l, retry).0;
    ClearedFree(SMALL_CTX);
    assert ready.ctx.tokenState == [TAIL_HBM, INVALID] && again.ctx.tokenState == [TAIL_HBM, INVALID];
    assert ready.ctx.freeStack == [0] && again.ctx.freeStack == [0];
    OneToken(ready.ctx, first.paged, 1, 0);
    OneToken(again.ctx, retry.paged, 1, 0);
    assert ResolveTo(ready.ctx, first.paged, 1, [0], 0) == (ready.ctx, Ok([]));
    assert LeaksAt(ready.ctx, first.paged, 1, [0], 0);
    var left := Decode(l, first).0;
    OneToken(left.ctx, retry.paged, 1, 0);
  }
}
