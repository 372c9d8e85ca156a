/** Where the manager leaves a request without its tokens, or with stale ones: resets that stop half-way, and
    requests that go on with another block table. Exactly when, and an input for each. */
module KvFailures {
  import opened Mappings
  import opened KvResolver
  import opened KvManager

  // ---- resets that stop half-way ---------------------------------------------------------------------

  // The guard of the failing branch: the step resets, its arguments are accepted, and the block table
  // does not reach the last position of the prefix.
  predicate HalfDone<T>(l: Layer<T>, s: Step<T>) {
    var prefix := PrefixLen(s.seqLen, s.newTokens);
    && NeedsReset(l, s.reqId, s.seqLen) && 0 < prefix <= s.seqLen <= |l.ctx.tokenState|
    && !Covered(s.paged, prefix - 1)
  }

  // A failed preparation changes the layer if and only if that is so.
  lemma HalfDoneExactly<T>(l: Layer<T>, s: Step<T>)
    ensures PrepareFor(l, s).1 != Done && PrepareFor(l, s).0 != l <==> HalfDone(l, s)
  {
  }

  // A failed preparation tried again with a block table that reaches the prefix has the effect it would
  // have had at first, if and only if the failure was another one.
  lemma RetryExactly<T>(l: Layer<T>, s: Step<T>, retry: Step<T>)
    requires PrepareFor(l, s).1 != Done
    requires retry.reqId == s.reqId && retry.seqLen == s.seqLen && retry.newTokens == s.newTokens
    requires var prefix := PrefixLen(s.seqLen, s.newTokens); prefix > 0 ==> Covered(retry.paged, prefix - 1)
    ensures PrepareFor(PrepareFor(l, s).0, retry) == PrepareFor(l, retry) <==> !HalfDone(l, s)
  {
    HalfDoneExactly(l, s);
    if HalfDone(l, s) {
      assert PrepareFor(PrepareFor(l, s).0, retry).0.ctx.tokenState[0] == INVALID;
      assert PrepareFor(l, retry).0.ctx.tokenState[0] == ASU_ONLY;
    }
  }

  // The layer serves the request but knows none of its first n tokens.
  ghost predicate Stuck<T>(l: Layer<T>, reqId: ReqId, n: nat) {
    && l.reqId == reqId && 0 < n <= l.actualSeqLen && n <= |l.ctx.tokenState|
    && forall t | 0 <= t < n :: l.ctx.tokenState[t] == INVALID
  }

  lemma HalfDoneIsStuck<T>(l: Layer<T>, s: Step<T>)
    requires HalfDone(l, s)
    ensures s.seqLen > 0 && Stuck(Decode(l, s).0, s.reqId, s.seqLen) && Decode(l, s).0.actualSeqLen == s.seqLen
  {
  }

  // A resolve installs no token of an unknown state.
  lemma {:induction false} InvalidStays<T>(c: Ctx<T>, paged: Paged<T>, seqLen: int, topk: seq<int>, n: nat, t: int)
    requires n <= |topk| && 0 <= t < |c.tokenState| && c.tokenState[t] == INVALID
    ensures Get(ResolveTo(c, paged, seqLen, topk, n).0.tokenState, t) == INVALID
  {
    if n > 0 {
      InvalidStays(c, paged, seqLen, topk, n - 1, t);
    }
  }

  // Only another request, or a shorter sequence, makes a stuck layer reset; every other step keeps it stuck.
  lemma StuckKeeps<T>(l: Layer<T>, reqId: ReqId, n: nat, s: Step<T>)
    requires Stuck(l, reqId, n)
    ensures NeedsReset(l, s.reqId, s.seqLen) <==> s.reqId != reqId || s.seqLen < l.actualSeqLen
    ensures !NeedsReset(l, s.reqId, s.seqLen) ==>
              Stuck(Decode(l, s).0, reqId, n) && Decode(l, s).0.actualSeqLen <= s.seqLen
  {
    if !NeedsReset(l, s.reqId, s.seqLen) {
      var (ready, status) := PrepareFor(l, s);
      assert Stuck(ready, reqId, n);
      if status == Done {
        forall t | 0 <= t < n
          ensures ResolveIn(ready, s).0.ctx.tokenState[t] == INVALID
        {
          InvalidStays(ready.ctx, s.paged, ready.actualSeqLen, s.topk, |s.topk|, t);
        }
      }
    }
  }

  ghost predicate Succeeds(outcome: Outcome) {
    outcome.Resolved? && outcome.slots.Ok?
  }

  // While it is stuck, no list that holds one of those tokens can be resolved.
  lemma StuckFails<T>(l: Layer<T>, reqId: ReqId, n: nat, s: Step<T>, i: nat)
    requires Stuck(l, reqId, n) && !NeedsReset(l, s.reqId, s.seqLen)
    requires i < |s.topk| && 0 <= s.topk[i] < n
    ensures !Succeeds(Decode(l, s).1)
  {
    var (ready, status) := PrepareFor(l, s);
    if status == Done && ready.actualSeqLen >= 0 && s.paged.blockSize != 0 {
      InvalidStays(ready.ctx, s.paged, ready.actualSeqLen, s.topk, i, s.topk[i]);
      assert !ResolveTo(ready.ctx, s.paged, ready.actualSeqLen, s.topk, i + 1).1.Ok?;
      ErrorStays(ready.ctx, s.paged, ready.actualSeqLen, s.topk, i + 1, |s.topk|);
    }
  }

  // Steps i + 1 .. k are of the request of step i, and the sequence never gets shorter.
  ghost predicate SameRequest<T>(steps: seq<Step<T>>, i: nat, k: nat)
    requires i <= k < |steps|
  {
    forall j | i < j <= k :: steps[j].reqId == steps[i].reqId && steps[j].seqLen >= steps[j - 1].seqLen
  }

  lemma {:induction false} StaysStuck<T>(layers: seq<Layer<T>>, steps: seq<Step<T>>, i: nat, k: nat)
    requires Decodes(layers, steps) && i < k < |steps|
    requires HalfDone(layers[i], steps[i]) && SameRequest(steps, i, k)
    ensures steps[i].seqLen > 0 && Stuck(layers[k], steps[i].reqId, steps[i].seqLen)
    ensures layers[k].actualSeqLen <= steps[k - 1].seqLen
    decreases k
  {
    if k == i + 1 {
      HalfDoneIsStuck(layers[i], steps[i]);
    } else {
      StaysStuck(layers, steps, i, k - 1);
      StuckKeeps(layers[k - 1], steps[i].reqId, steps[i].seqLen, steps[k - 1]);
    }
  }

  // A reset that stops half-way is not made up for while the request goes on: no later step resets, and
  // none can resolve a token below the length of the failed one, whatever the caches.
  lemma HalfResetSticks<T>(layers: seq<Layer<T>>, steps: seq<Step<T>>, i: nat, k: nat, p: nat)
    requires Decodes(layers, steps) && i < k < |steps|
    requires HalfDone(layers[i], steps[i]) && SameRequest(steps, i, k)
    requires p < |steps[k].topk| && 0 <= steps[k].topk[p] < steps[i].seqLen
    ensures !NeedsReset(layers[k], steps[k].reqId, steps[k].seqLen)
    ensures !Succeeds(Decode(layers[k], steps[k]).1)
  {
    StaysStuck(layers, steps, i, k);
    StuckKeeps(layers[k], steps[i].reqId, steps[i].seqLen, steps[k]);
    StuckFails(layers[k], steps[i].reqId, steps[i].seqLen, steps[k], p);
  }

  const SMALL_CTX: Ctx<int> :=
    Ctx([INVALID, INVALID], [INVALID, INVALID], [INVALID, INVALID], [INVALID], [0], 1, [0], [0])

  function SmallLayer(): Layer<int> {
    NewLayer(SMALL_CTX)
  }

  // Two tokens, the first of them a prefix, and an empty block table: tried again with a full table the
  // step cannot resolve token 0, which it could have done had it not been tried before.
  lemma HalfResetInput()
    ensures var l, s := SmallLayer(), Step(Request("r"), 2, 1, Paged([], 1, [7, 8], [9, 10]), []);
            var retry := s.(paged := Paged([0, 1], 1, [7, 8], [9, 10]), topk := [0]);
            && HalfDone(l, s)
            && Decode(Decode(l, s).0, retry).1 == Resolved(ValueError)
            && Decode(l, retry).1 == Resolved(Ok([0]))
  {
    var l, s := SmallLayer(), Step(Request("r"), 2, 1, Paged([], 1, [7, 8], [9, 10]), []);
    var retry := s.(paged := Paged([0, 1], 1, [7, 8], [9, 10]), topk := [0]);
    var stuck, ready := Decode(l, s).0, PrepareFor(l, retry).0;
    OneToken(stuck.ctx, retry.paged, 2, 0);
    OneToken(ready.ctx, retry.paged, 2, 0);
    assert ready.ctx.tokenState == [ASU_ONLY, TAIL_HBM] && ready.ctx.recordAddr[0] == 0;
    assert ready.ctx.freeStack == [0];
  }

  lemma OneToken<T>(c: Ctx<T>, paged: Paged<T>, seqLen: int, token: int)
    requires seqLen >= 0 && paged.blockSize > 0
    ensures var (r, slot) := ResolveOne(c, paged, seqLen, token);
            Resolve(c, paged, seqLen, [token]) == (r, if slot.Ok? then Ok([slot.value]) else Error(slot))
  {
    assert ResolveTo(c, paged, seqLen, [token], 0) == (c, Ok([]));
    var (r, slot) := ResolveOne(c, paged, seqLen, token);
    if slot.Ok? {
      assert [] + [slot.value] == [slot.value];
    }
  }

  // ---- requests that go on with another block table ----------------------------------------------------

  // What the invariant says about slots alone: a resident token owns a slot off the free stack.
  ghost predicate Sound<T>(c: Ctx<T>) {
    && Sizes(c) && StackOk(c)
    && forall t | 0 <= t < |c.tokenState| && c.tokenState[t] == HBM_RESIDENT :: Owned(c, t)
  }

  ghost predicate Owned<T>(c: Ctx<T>, t: int)
    requires Sizes(c) && 0 <= t < |c.tokenState|
  {
    0 <= c.slotOfToken[t] < |c.slotOwner| && c.slotOwner[c.slotOfToken[t]] == t && !Free(c, c.slotOfToken[t])
  }

  lemma GoodIsSound<T>(c: Ctx<T>, paged: Paged<T>)
    requires Good(c, paged)
    ensures Sound(c)
  {
    forall t | 0 <= t < |c.tokenState| && c.tokenState[t] == HBM_RESIDENT
      ensures Owned(c, t)
    {
      assert TokenOk(c, paged, t);
    }
  }

  datatype Pair<T> = Nothing | Pair(first: T, second: T)

  // What resolving the token makes it gather: its slot when it is resident, and otherwise its recorded
  // address, or the table's when it is a tail token.
  function Gathered<T>(c: Ctx<T>, paged: Paged<T>, token: int): Pair<T> {
    if Get(c.tokenState, token) == HBM_RESIDENT then
      var slot := Get(c.slotOfToken, token);
      if 0 <= slot < |c.managed0| && slot < |c.managed1| then Pair(c.managed0[slot], c.managed1[slot]) else Nothing
    else
      var source := SourceSlot(c, paged, token);
      if source.Ok? && InPlanes(paged, source.value) then
        Pair(paged.plane0[source.value], paged.plane1[source.value])
      else Nothing
  }

  // What the block table says the token's pair is.
  function Original<T>(paged: Paged<T>, token: int): Pair<T> {
    if Stored(paged, token) then Pair(paged.plane0[Address(paged, token)], paged.plane1[Address(paged, token)])
    else Nothing
  }

  // Resolving a token changes what no token gathers, its own included.
  lemma ResolveOneSound<T>(c: Ctx<T>, paged: Paged<T>, seqLen: int, token: int)
    requires Sound(c) && seqLen <= |c.tokenState| && ResolveOne(c, paged, seqLen, token).1.Ok?
    ensures Sound(ResolveOne(c, paged, seqLen, token).0)
    ensures forall t | 0 <= t < |c.tokenState| ::
              Gathered(ResolveOne(c, paged, seqLen, token).0, paged, t) == Gathered(c, paged, t)
  {
    var r := ResolveOne(c, paged, seqLen, token).0;
    if Get(c.tokenState, token) != HBM_RESIDENT {
      var slot := c.freeStack[c.freeCount - 1];
      assert Get(c.freeStack, c.freeCount - 1) == slot;
      assert Free(c, slot);
      forall y
        ensures Free(r, y) ==> Free(c, y) && y != slot
      {
      }
      forall t | 0 <= t < |c.tokenState| && t != token && c.tokenState[t] == HBM_RESIDENT
        ensures Owned(r, t) && c.slotOfToken[t] != slot
      {
        assert Owned(c, t);
      }
      assert Owned(r, token);
    }
  }

  lemma {:induction false} ResolveSound<T>(c: Ctx<T>, paged: Paged<T>, seqLen: int, topk: seq<int>, n: nat)
    requires Sound(c) && seqLen <= |c.tokenState| && n <= |topk| && ResolveTo(c, paged, seqLen, topk, n).1.Ok?
    ensures var (r, slots) := ResolveTo(c, paged, seqLen, topk, n);
            && Sound(r) && Reported(r, seqLen, topk, slots.value)
            && forall t | 0 <= t < |c.tokenState| :: Gathered(r, paged, t) == Gathered(c, paged, t)
  {
    if n > 0 {
      ResolveSound(c, paged, seqLen, topk, n - 1);
      var (before, slots) := ResolveTo(c, paged, seqLen, topk, n - 1);
      ResolveOneSound(before, paged, seqLen, topk[n - 1]);
      StillReported(before, paged, seqLen, topk, slots.value);
    }
  }

  lemma StillReported<T>(c: Ctx<T>, paged: Paged<T>, seqLen: int, topk: seq<int>, slots: seq<int>)
    requires Sound(c) && seqLen <= |c.tokenState| && |slots| < |topk| && Reported(c, seqLen, topk, slots)
    ensures var (r, slot) := ResolveOne(c, paged, seqLen, topk[|slots|]);
            slot.Ok? ==> Reported(r, seqLen, topk, slots + [slot.value])
  {
    forall i | 0 <= i < |slots|
      ensures Resident(ResolveOne(c, paged, seqLen, topk[|slots|]).0, topk[i], slots[i])
    {
      ResidentStays(c, paged, seqLen, topk[|slots|], topk[i], slots[i]);
    }
  }

  // A successful resolve gathers the original pairs if and only if that is what each listed token's slot
  // or recorded address holds beforehand.
  lemma GatherExactly<T>(c: Ctx<T>, paged: Paged<T>, seqLen: int, topk: seq<int>)
    requires Sound(c) && seqLen <= |c.tokenState| && Resolve(c, paged, seqLen, topk).1.Ok?
    ensures var (r, slots) := Resolve(c, paged, seqLen, topk);
            SameGather(r, paged, topk, slots.value) <==>
            forall i | 0 <= i < |topk| ::
              Stored(paged, topk[i]) && Gathered(c, paged, topk[i]) == Original(paged, topk[i])
  {
    ResolveSound(c, paged, seqLen, topk, |topk|);
    var (r, slots) := Resolve(c, paged, seqLen, topk);
    forall i | 0 <= i < |topk|
      ensures Gathered(c, paged, topk[i]) == Pair(r.managed0[slots.value[i]], r.managed1[slots.value[i]])
    {
      assert Owned(r, topk[i]);
    }
  }

  // A step of a faithful layer, whatever has become of the cache: what it resolves gathers the original
  // pairs exactly when every listed token is up to date once the step is prepared.
  lemma StepGathersExactly<T>(l: Layer<T>, held: Paged<T>, s: Step<T>)
    requires LayerOk(l, held) && Succeeds(Decode(l, s).1)
    ensures var (r, outcome) := Decode(l, s);
            SameGather(r.ctx, s.paged, s.topk, outcome.slots.value) <==>
            forall i | 0 <= i < |s.topk| ::
              && Stored(s.paged, s.topk[i])
              && Gathered(PrepareFor(l, s).0.ctx, s.paged, s.topk[i]) == Original(s.paged, s.topk[i])
  {
    GoodIsSound(l.ctx, held);
    var ready := PrepareFor(l, s).0;
    PreparedSound(l, s);
    GatherExactly(ready.ctx, s.paged, ready.actualSeqLen, s.topk);
  }

  lemma PreparedSound<T>(l: Layer<T>, s: Step<T>)
    requires Sound(l.ctx) && l.actualSeqLen <= |l.ctx.tokenState| && PrepareFor(l, s).1 == Done
    ensures Sound(PrepareFor(l, s).0.ctx) && PrepareFor(l, s).0.actualSeqLen <= |l.ctx.tokenState|
  {
    var r := PrepareFor(l, s).0.ctx;
    if !NeedsReset(l, s.reqId, s.seqLen) {
      forall t | 0 <= t < |r.tokenState| && r.tokenState[t] == HBM_RESIDENT
        ensures Owned(r, t)
      {
        assert Owned(l.ctx, t);
      }
    }
  }

  // The condition can fail: a request that goes on with its two blocks exchanged is not reset, and
  // gathers the pair of the other block for token 0.
  lemma StaleInput()
    ensures var first := Step(Request("r"), 2, 1, Paged([0, 1], 1, [7, 8], [9, 10]), []);
            var second := first.(paged := Paged([1, 0], 1, [7, 8], [9, 10]), topk := [0]);
            var l := Decode(SmallLayer(), first).0;
            var (r, outcome) := Decode(l, second);
            && LayerOk(l, first.paged) && outcome == Resolved(Ok([0]))
            && !SameGather(r.ctx, second.paged, second.topk, [0])
  {
    var first := Step(Request("r"), 2, 1, Paged([0, 1], 1, [7, 8], [9, 10]), []);
    var second := first.(paged := Paged([1, 0], 1, [7, 8], [9, 10]), topk := [0]);
    var ready, l := PrepareFor(SmallLayer(), first).0, Decode(SmallLayer(), first).0;
    NewLayerOk(SMALL_CTX, first.paged);
    DecodeKeeps(SmallLayer(), first.paged, first);
    assert l == ready;
    assert ready.ctx.tokenState == [ASU_ONLY, TAIL_HBM] && ready.ctx.recordAddr[0] == 0;
    assert ready.ctx.freeStack == [0];
    OneToken(ready.ctx, second.paged, 2, 0);
  }
}
