/** The per-layer context of the ASU manager: reset, one-token growth, and runs of decode steps. */
module KvManager {
  import opened Compaction
  import opened Mappings
  import opened KvResolver

  datatype ReqId = NoRequest | Request(name: string)

  datatype Status = Done | BadArgument | Failed

  datatype Layer<T> = Layer(reqId: ReqId, actualSeqLen: int, prefixLen: int, ctx: Ctx<T>)

  function Filled(n: nat, v: int): (s: seq<int>)
    ensures |s| == n && forall i | 0 <= i < n :: s[i] == v
  {
    seq(n, i requires 0 <= i < n => v)
  }

  // ---- reset_state ---------------------------------------------------------------------------------

  // Every token forgotten and every slot free; the managed planes keep their old contents.
  function Cleared<T>(c: Ctx<T>): (r: Ctx<T>)
    ensures SameSizes(r, c)
  {
    Ctx(Filled(|c.tokenState|, INVALID), Filled(|c.recordAddr|, INVALID), Filled(|c.slotOfToken|, INVALID),
        Filled(|c.slotOwner|, INVALID), Arange(|c.freeStack|), |c.freeStack|, c.managed0, c.managed1)
  }

  // A prefix recorded by address, the rest of the sequence still to be found through the block table.
  function Loaded<T>(c: Ctx<T>, paged: Paged<T>, actual: int, prefix: int): (r: Ctx<T>)
    ensures SameSizes(r, c)
  {
    Cleared(c).(
      tokenState := seq(|c.tokenState|, i requires 0 <= i < |c.tokenState| =>
                      if i < prefix then ASU_ONLY else if i < actual then TAIL_HBM else INVALID),
      recordAddr := seq(|c.recordAddr|, i requires 0 <= i < |c.recordAddr| =>
                      if i < prefix && Covered(paged, i) then Address(paged, i) else INVALID))
  }

  function Reset<T>(l: Layer<T>, reqId: ReqId, actual: int, prefix: int, paged: Paged<T>): (Layer<T>, Status) {
    if actual < 0 || prefix < 0 || prefix > actual then (l, BadArgument)
    else if actual > |l.ctx.tokenState| then (l, Failed)
    else if prefix > 0 && !Covered(paged, prefix - 1) then (Layer(reqId, actual, prefix, Cleared(l.ctx)), Failed)
    else (Layer(reqId, actual, prefix, Loaded(l.ctx, paged, actual, prefix)), Done)
  }

  function MarkDecode<T>(l: Layer<T>, token: int): (Layer<T>, Status) {
    if !(0 <= token < |l.ctx.tokenState|) then (l, Failed)
    else
      (l.(actualSeqLen := if token + 1 > l.actualSeqLen then token + 1 else l.actualSeqLen,
          ctx := l.ctx.(tokenState := l.ctx.tokenState[token := TAIL_HBM])),
       Done)
  }

  predicate NeedsReset<T>(l: Layer<T>, reqId: ReqId, seqLen: int) {
    l.reqId != reqId || l.actualSeqLen == 0 || seqLen < l.actualSeqLen
  }

  // max(0, seqLen - newTokens).
  function PrefixLen(seqLen: int, newTokens: int): nat {
    if seqLen - newTokens > 0 then seqLen - newTokens else 0
  }

  // _prepare_asu_layer_context, for one layer; newTokens is attn_metadata.num_actual_tokens.
  function Prepare<T>(l: Layer<T>, reqId: ReqId, seqLen: int, newTokens: int, paged: Paged<T>): (Layer<T>, Status) {
    if NeedsReset(l, reqId, seqLen) then
      Reset(l, reqId, seqLen, PrefixLen(seqLen, newTokens), paged)
    else if seqLen > l.actualSeqLen then MarkDecode(l, seqLen - 1)
    else (l, Done)
  }

  // ---- invariant -----------------------------------------------------------------------------------

  // Faithful to the paged cache, and nothing recorded at or beyond the sequence length.
  ghost predicate LayerOk<T>(l: Layer<T>, paged: Paged<T>) {
    && Good(l.ctx, paged) && 0 <= l.actualSeqLen <= |l.ctx.tokenState|
    && forall t | l.actualSeqLen <= t < |l.ctx.tokenState| :: l.ctx.tokenState[t] == INVALID
  }

  // Every token of the sequence is known, so resolve never meets an unsupported state.
  ghost predicate Known<T>(l: Layer<T>) {
    forall t | 0 <= t < l.actualSeqLen && t < |l.ctx.tokenState| ::
      l.ctx.tokenState[t] in {ASU_ONLY, HBM_RESIDENT, TAIL_HBM}
  }

  lemma DivMonotone(a: int, b: int, d: int)
    requires 0 <= a <= b && d > 0
    ensures a / d <= b / d
  {
    var low, high: nat := b / d, a / d;
    MulStrict(low, high, d);
    assert a == high * d + a % d && b == low * d + b % d;
  }

  lemma ClearedGood<T>(c: Ctx<T>, paged: Paged<T>)
    requires Sizes(c)
    ensures Good(Cleared(c), paged)
  {
  }

  // Whatever reset does past its argument checks, it leaves a good context; on success every token of
  // the sequence is known.
  lemma ResetKeeps<T>(l: Layer<T>, reqId: ReqId, actual: int, prefix: int, paged: Paged<T>)
    requires Sizes(l.ctx)
    ensures var (r, status) := Reset(l, reqId, actual, prefix, paged);
            && (status == Done ==> LayerOk(r, paged) && Known(r) && r.actualSeqLen == actual && r.reqId == reqId)
            && (status != Done ==> r == l || r == Layer(reqId, actual, prefix, Cleared(l.ctx)))
  {
    var (r, status) := Reset(l, reqId, actual, prefix, paged);
    ClearedGood(l.ctx, paged);
    if status == Done {
      forall t | 0 <= t < |r.ctx.tokenState|
        ensures TokenOk(r.ctx, paged, t)
      {
        if t < prefix {
          DivMonotone(t, prefix - 1, paged.blockSize);
        }
      }
    }
  }

  // Growth keeps the context good; it keeps every token known exactly when no position is skipped.
  lemma MarkKeeps<T>(l: Layer<T>, token: int, paged: Paged<T>)
    requires LayerOk(l, paged) && 0 <= token < |l.ctx.tokenState|
    ensures LayerOk(MarkDecode(l, token).0, paged)
    ensures Known(l) ==> (Known(MarkDecode(l, token).0) <==> token <= l.actualSeqLen)
  {
    var r := MarkDecode(l, token).0;
    forall t | 0 <= t < |r.ctx.tokenState|
      ensures TokenOk(r.ctx, paged, t)
    {
      assert TokenOk(l.ctx, paged, t);
    }
    if token > l.actualSeqLen {
      assert r.ctx.tokenState[l.actualSeqLen] == INVALID;
    }
  }

  // The block table only grows at its end, and the pairs of the first n tokens stay where they are.
  ghost predicate Extends<T>(before: Paged<T>, after: Paged<T>, n: int) {
    && after.blockSize == before.blockSize && before.table <= after.table
    && forall t | 0 <= t < n && Stored(before, t) ::
         && Stored(after, t)
         && after.plane0[Address(after, t)] == before.plane0[Address(before, t)]
         && after.plane1[Address(after, t)] == before.plane1[Address(before, t)]
  }

  lemma ExtendKeeps<T>(l: Layer<T>, before: Paged<T>, after: Paged<T>)
    requires LayerOk(l, before) && Extends(before, after, l.actualSeqLen)
    ensures LayerOk(l, after)
  {
    forall t | 0 <= t < |l.ctx.tokenState|
      ensures TokenOk(l.ctx, after, t)
    {
      assert TokenOk(l.ctx, before, t);
    }
  }

  // ---- runs ----------------------------------------------------------------------------------------

  // One decode step of one layer: what the metadata says, and the indices to gather.
  datatype Step<T> = Step(reqId: ReqId, seqLen: int, newTokens: int, paged: Paged<T>, topk: seq<int>)

  // What a step comes to: an error while preparing ends it, and nothing is resolved.
  datatype Outcome = NotPrepared(status: Status) | Resolved(slots: Result<seq<int>>)

  function PrepareFor<T>(l: Layer<T>, s: Step<T>): (Layer<T>, Status) {
    Prepare(l, s.reqId, s.seqLen, s.newTokens, s.paged)
  }

  function ResolveIn<T>(l: Layer<T>, s: Step<T>): (Layer<T>, Result<seq<int>>) {
    var (ctx, slots) := Resolve(l.ctx, s.paged, l.actualSeqLen, s.topk);
    (l.(ctx := ctx), slots)
  }

  function Decode<T>(l: Layer<T>, s: Step<T>): (Layer<T>, Outcome) {
    var (ready, status) := PrepareFor(l, s);
    if status != Done then (ready, NotPrepared(status))
    else
      var (after, slots) := ResolveIn(ready, s);
      (after, Resolved(slots))
  }

  // What a run asks of its environment: when a step goes on with the sequence of the one before, the
  // paged cache has only been extended since.
  ghost predicate Follows<T>(l: Layer<T>, held: Paged<T>, s: Step<T>) {
    PrepareFor(l, s).1 == Done && !NeedsReset(l, s.reqId, s.seqLen) ==> Extends(held, s.paged, l.actualSeqLen)
  }

  // The paged cache the layer is faithful to after a step: a step that is not prepared leaves the old one.
  function Held<T>(l: Layer<T>, held: Paged<T>, s: Step<T>): Paged<T> {
    if PrepareFor(l, s).1 == Done then s.paged else held
  }

  // Preparing keeps the invariant, rejected and half-done resets and rejected growth included.
  lemma PrepareKeeps<T>(l: Layer<T>, held: Paged<T>, s: Step<T>)
    requires LayerOk(l, held) && Follows(l, held, s)
    ensures LayerOk(PrepareFor(l, s).0, Held(l, held, s))
  {
    if NeedsReset(l, s.reqId, s.seqLen) {
      ResetKeeps(l, s.reqId, s.seqLen, PrefixLen(s.seqLen, s.newTokens), s.paged);
      ClearedGood(l.ctx, held);
    } else if PrepareFor(l, s).1 == Done {
      ExtendKeeps(l, held, s.paged);
      if s.seqLen > l.actualSeqLen {
        MarkKeeps(l, s.seqLen - 1, s.paged);
      }
    }
  }

  // States only move towards resident during a resolve.
  lemma {:induction false} ResolveStates<T>(c: Ctx<T>, paged: Paged<T>, seqLen: int, topk: seq<int>, n: nat, t: int)
    requires n <= |topk| && 0 <= t < |c.tokenState|
    ensures var r := ResolveTo(c, paged, seqLen, topk, n).0;
            Get(r.tokenState, t) == Get(c.tokenState, t) || (t < seqLen && Get(r.tokenState, t) == HBM_RESIDENT)
  {
    if n > 0 {
      ResolveStates(c, paged, seqLen, topk, n - 1, t);
    }
  }

  lemma ResolveLayer<T>(l: Layer<T>, s: Step<T>)
    requires LayerOk(l, s.paged)
    ensures var (r, slots) := ResolveIn(l, s);
            && LayerOk(r, s.paged)
            && (slots.Ok? ==> SameGather(r.ctx, s.paged, s.topk, slots.value))
  {
    GatherPreserved(l.ctx, s.paged, l.actualSeqLen, s.topk);
    var after := ResolveIn(l, s).0.ctx;
    forall t | 0 <= t < |l.ctx.tokenState|
      ensures after.tokenState[t] == l.ctx.tokenState[t]
              || (t < l.actualSeqLen && after.tokenState[t] == HBM_RESIDENT)
    {
      ResolveStates(l.ctx, s.paged, l.actualSeqLen, s.topk, |s.topk|, t);
    }
  }

  // One decode step keeps the invariant, and what it resolves gathers the same pairs as the block table.
  lemma DecodeKeeps<T>(l: Layer<T>, held: Paged<T>, s: Step<T>)
    requires LayerOk(l, held) && Follows(l, held, s)
    ensures var (r, outcome) := Decode(l, s);
            && LayerOk(r, Held(l, held, s))
            && (outcome.Resolved? && outcome.slots.Ok? ==>
                  SameGather(r.ctx, s.paged, s.topk, outcome.slots.value))
  {
    PrepareKeeps(l, held, s);
    var (ready, status) := PrepareFor(l, s);
    if status == Done {
      ResolveLayer(ready, s);
    }
  }

  // The states of a layer through some steps.
  ghost predicate Decodes<T>(layers: seq<Layer<T>>, steps: seq<Step<T>>) {
    |layers| == |steps| + 1 && forall i | 0 <= i < |steps| :: layers[i + 1] == Decode(layers[i], steps[i]).0
  }

  // helds are the paged caches the layer is faithful to along the way.
  ghost predicate IsRun<T>(layers: seq<Layer<T>>, steps: seq<Step<T>>, helds: seq<Paged<T>>) {
    && Decodes(layers, steps) && |helds| == |layers|
    && forall i | 0 <= i < |steps| ::
         Follows(layers[i], helds[i], steps[i]) && helds[i + 1] == Held(layers[i], helds[i], steps[i])
  }

  lemma {:induction false} RunKeeps<T>(layers: seq<Layer<T>>, steps: seq<Step<T>>, helds: seq<Paged<T>>, i: nat)
    requires IsRun(layers, steps, helds) && LayerOk(layers[0], helds[0]) && i <= |steps|
    ensures LayerOk(layers[i], helds[i])
  {
    if i > 0 {
      RunKeeps(layers, steps, helds, i - 1);
      DecodeKeeps(layers[i - 1], helds[i - 1], steps[i - 1]);
    }
  }

  // A new context: nothing known, every slot free.
  function NewLayer<T>(c: Ctx<T>): Layer<T> {
    Layer(NoRequest, 0, 0, Cleared(c))
  }

  lemma NewLayerOk<T>(c: Ctx<T>, paged: Paged<T>)
    requires Sizes(c)
    ensures LayerOk(NewLayer(c), paged) && Known(NewLayer(c))
  {
    ClearedGood(c, paged);
  }

  // Every run of decode steps of a new layer, through whatever errors: what each successful resolve
  // reports gathers the original pairs.
  lemma RunGathersOriginals<T>(c: Ctx<T>, layers: seq<Layer<T>>, steps: seq<Step<T>>, helds: seq<Paged<T>>, i: nat)
    requires Sizes(c) && IsRun(layers, steps, helds) && layers[0] == NewLayer(c) && i < |steps|
    ensures var outcome := Decode(layers[i], steps[i]).1;
            outcome.Resolved? && outcome.slots.Ok? ==>
              SameGather(layers[i + 1].ctx, steps[i].paged, steps[i].topk, outcome.slots.value)
  {
    NewLayerOk(c, helds[0]);
    RunKeeps(layers, steps, helds, i);
    DecodeKeeps(layers[i], helds[i], steps[i]);
  }

  // ---- no unsupported state ------------------------------------------------------------------------

  // The step is prepared, and the sequence grows by at most one token.
  ghost predicate Steady<T>(l: Layer<T>, s: Step<T>) {
    PrepareFor(l, s).1 == Done && (!NeedsReset(l, s.reqId, s.seqLen) ==> s.seqLen <= l.actualSeqLen + 1)
  }

  lemma PrepareKnown<T>(l: Layer<T>, held: Paged<T>, s: Step<T>)
    requires LayerOk(l, held) && Known(l) && Steady(l, s)
    ensures Known(PrepareFor(l, s).0)
  {
    if NeedsReset(l, s.reqId, s.seqLen) {
      ResetKeeps(l, s.reqId, s.seqLen, PrefixLen(s.seqLen, s.newTokens), s.paged);
    } else if s.seqLen > l.actualSeqLen {
      MarkKeeps(l, s.seqLen - 1, held);
    }
  }

  lemma {:induction false} KnownResolves<T>(l: Layer<T>, paged: Paged<T>, topk: seq<int>, n: nat)
    requires Known(l) && l.actualSeqLen <= |l.ctx.tokenState| && n <= |topk|
    ensures ResolveTo(l.ctx, paged, l.actualSeqLen, topk, n).1 != ValueError
  {
    if n > 0 {
      KnownResolves(l, paged, topk, n - 1);
      var token := topk[n - 1];
      if 0 <= token < l.actualSeqLen {
        ResolveStates(l.ctx, paged, l.actualSeqLen, topk, n - 1, token);
        assert l.ctx.tokenState[token] in {ASU_ONLY, HBM_RESIDENT, TAIL_HBM};
      }
    }
  }

  lemma KnownStays<T>(l: Layer<T>, s: Step<T>)
    requires Known(l)
    ensures Known(ResolveIn(l, s).0)
  {
    var r := ResolveIn(l, s).0;
    forall t | 0 <= t < l.actualSeqLen && t < |l.ctx.tokenState|
      ensures r.ctx.tokenState[t] in {ASU_ONLY, HBM_RESIDENT, TAIL_HBM}
    {
      assert l.ctx.tokenState[t] in {ASU_ONLY, HBM_RESIDENT, TAIL_HBM};
      ResolveStates(l.ctx, s.paged, l.actualSeqLen, s.topk, |s.topk|, t);
    }
  }

  lemma {:induction false} RunKnown<T>(layers: seq<Layer<T>>, steps: seq<Step<T>>, helds: seq<Paged<T>>, i: nat)
    requires IsRun(layers, steps, helds) && LayerOk(layers[0], helds[0]) && Known(layers[0]) && i <= |steps|
    requires forall j | 0 <= j < i :: Steady(layers[j], steps[j])
    ensures Known(layers[i])
  {
    if i > 0 {
      RunKnown(layers, steps, helds, i - 1);
      RunKeeps(layers, steps, helds, i - 1);
      PrepareKnown(layers[i - 1], helds[i - 1], steps[i - 1]);
      KnownStays(PrepareFor(layers[i - 1], steps[i - 1]).0, steps[i - 1]);
    }
  }

  // While every step is prepared and grows the sequence by at most one token, no resolve of the run
  // meets a token in an unsupported state.
  lemma RunNeverUnsupported<T>(c: Ctx<T>, layers: seq<Layer<T>>, steps: seq<Step<T>>, helds: seq<Paged<T>>, i: nat)
    requires Sizes(c) && IsRun(layers, steps, helds) && layers[0] == NewLayer(c) && i < |steps|
    requires forall j | 0 <= j <= i :: Steady(layers[j], steps[j])
    requires steps[i].paged.blockSize > 0
    ensures Decode(layers[i], steps[i]).1 != Resolved(ValueError)
  {
    NewLayerOk(c, helds[0]);
    RunKnown(layers, steps, helds, i);
    RunKeeps(layers, steps, helds, i);
    PrepareKnown(layers[i], helds[i], steps[i]);
    PrepareKeeps(layers[i], helds[i], steps[i]);
    KnownResolves(PrepareFor(layers[i], steps[i]).0, steps[i].paged, steps[i].topk, |steps[i].topk|);
  }

  // The growth condition is needed: a step that skips a position leaves it in an unsupported state, and
  // resolving it fails.
  lemma SkippedFails<T>(l: Layer<T>, s: Step<T>)
    requires LayerOk(l, s.paged) && !NeedsReset(l, s.reqId, s.seqLen) && PrepareFor(l, s).1 == Done
    requires s.seqLen > l.actualSeqLen + 1 && s.paged.blockSize > 0 && s.topk != [] && s.topk[0] == l.actualSeqLen
    ensures Decode(l, s).1 == Resolved(ValueError)
  {
    var ready := PrepareFor(l, s).0;
    assert ready.ctx.tokenState[l.actualSeqLen] == INVALID;
    FirstFails(ready.ctx, s.paged, ready.actualSeqLen, s.topk, |s.topk|);
  }

  lemma {:induction false} FirstFails<T>(c: Ctx<T>, paged: Paged<T>, seqLen: int, topk: seq<int>, n: nat)
    requires 0 < n <= |topk| && 0 <= topk[0] < seqLen
    requires Get(c.tokenState, topk[0]) !in {ASU_ONLY, HBM_RESIDENT, TAIL_HBM}
    ensures ResolveTo(c, paged, seqLen, topk, n) == (c, ValueError)
  {
    if n > 1 {
      FirstFails(c, paged, seqLen, topk, n - 1);
    } else {
      assert ResolveTo(c, paged, seqLen, topk, 0) == (c, Ok([]));
    }
  }
}
