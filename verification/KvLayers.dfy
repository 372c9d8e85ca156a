/** The manager over all layers: the layer that asks first prepares every layer, and a run of decode steps
    of all layers is a run of each layer on its own. */
module KvLayers {
  import opened KvResolver
  import opened KvManager

  // ---- several layers ------------------------------------------------------------------------------

  // All layers serve the same request at the same length and have room for the same sequences.
  ghost predicate InStep<T>(ls: seq<Layer<T>>) {
    forall i, j | 0 <= i < |ls| && 0 <= j < |ls| ::
      && ls[i].reqId == ls[j].reqId && ls[i].actualSeqLen == ls[j].actualSeqLen
      && |ls[i].ctx.tokenState| == |ls[j].ctx.tokenState|
  }

  // reset_single_request: the first n layers in order, until one fails.
  function ResetTo<T>(ls: seq<Layer<T>>, n: nat, reqId: ReqId, actual: int, prefix: int, paged: Paged<T>)
    : (r: (seq<Layer<T>>, Status))
    requires n <= |ls|
    ensures |r.0| == |ls|
  {
    if n == 0 then (ls, Done)
    else
      var (before, status) := ResetTo(ls, n - 1, reqId, actual, prefix, paged);
      if status != Done then (before, status)
      else
        var (layer, next) := Reset(before[n - 1], reqId, actual, prefix, paged);
        (before[n - 1 := layer], next)
  }

  // mark_decode_token on the first n layers in order, until one fails.
  function MarkTo<T>(ls: seq<Layer<T>>, n: nat, token: int): (r: (seq<Layer<T>>, Status))
    requires n <= |ls|
    ensures |r.0| == |ls|
  {
    if n == 0 then (ls, Done)
    else
      var (before, status) := MarkTo(ls, n - 1, token);
      if status != Done then (before, status)
      else
        var (layer, next) := MarkDecode(before[n - 1], token);
        (before[n - 1 := layer], next)
  }

  // The manager looks at layer i and then resets, or grows, all of them.
  function PrepareAll<T>(ls: seq<Layer<T>>, i: nat, s: Step<T>): (r: (seq<Layer<T>>, Status))
    requires i < |ls|
    ensures |r.0| == |ls|
  {
    if NeedsReset(ls[i], s.reqId, s.seqLen) then
      ResetTo(ls, |ls|, s.reqId, s.seqLen, PrefixLen(s.seqLen, s.newTokens), s.paged)
    else if s.seqLen > ls[i].actualSeqLen then MarkTo(ls, |ls|, s.seqLen - 1)
    else (ls, Done)
  }

  lemma {:induction false} ResetToEach<T>(ls: seq<Layer<T>>, n: nat, reqId: ReqId, actual: int, prefix: int,
                                          paged: Paged<T>)
    requires InStep(ls) && n <= |ls|
    requires n > 0 ==> Reset(ls[0], reqId, actual, prefix, paged).1 == Done
    ensures var (r, status) := ResetTo(ls, n, reqId, actual, prefix, paged);
            && status == Done
            && forall j | 0 <= j < |ls| :: r[j] == if j < n then Reset(ls[j], reqId, actual, prefix, paged).0 else ls[j]
  {
    if n > 0 {
      ResetToEach(ls, n - 1, reqId, actual, prefix, paged);
    }
  }

  lemma {:induction false} ResetToFails<T>(ls: seq<Layer<T>>, n: nat, reqId: ReqId, actual: int, prefix: int,
                                           paged: Paged<T>)
    requires 0 < n <= |ls| && Reset(ls[0], reqId, actual, prefix, paged).1 != Done
    ensures var (layer, status) := Reset(ls[0], reqId, actual, prefix, paged);
            ResetTo(ls, n, reqId, actual, prefix, paged) == (ls[0 := layer], status)
  {
    if n > 1 {
      ResetToFails(ls, n - 1, reqId, actual, prefix, paged);
    } else {
      assert ResetTo(ls, 0, reqId, actual, prefix, paged) == (ls, Done);
    }
  }

  lemma {:induction false} MarkToEach<T>(ls: seq<Layer<T>>, n: nat, token: int)
    requires InStep(ls) && n <= |ls|
    ensures var (r, status) := MarkTo(ls, n, token);
            if n == 0 || 0 <= token < |ls[0].ctx.tokenState| then
              status == Done && forall j | 0 <= j < |ls| :: r[j] == if j < n then MarkDecode(ls[j], token).0 else ls[j]
            else status == Failed && r == ls
  {
    if n > 0 {
      MarkToEach(ls, n - 1, token);
    }
  }

  // The layer serves the step's request at the step's length.
  predicate Settled<T>(l: Layer<T>, s: Step<T>) {
    !NeedsReset(l, s.reqId, s.seqLen) && l.actualSeqLen == s.seqLen
  }

  lemma PreparedSettled<T>(l: Layer<T>, s: Step<T>)
    requires s.seqLen > 0 && PrepareFor(l, s).1 == Done
    ensures Settled(PrepareFor(l, s).0, s)
    ensures |PrepareFor(l, s).0.ctx.tokenState| == |l.ctx.tokenState|
  {
  }

  // Each layer as it would have prepared itself, or, when that fails, no layer but the first changed.
  ghost predicate Together<T>(ls: seq<Layer<T>>, s: Step<T>, r: seq<Layer<T>>, status: Status, j: nat)
    requires j < |ls|
  {
    && status == PrepareFor(ls[j], s).1
    && (status == Done ==> |r| == |ls| && r[j] == PrepareFor(ls[j], s).0)
    && (status != Done ==> r == ls[0 := PrepareFor(ls[0], s).0])
  }

  lemma ResetTogether<T>(ls: seq<Layer<T>>, i: nat, s: Step<T>, j: nat)
    requires InStep(ls) && i < |ls| && j < |ls| && NeedsReset(ls[i], s.reqId, s.seqLen)
    ensures Together(ls, s, PrepareAll(ls, i, s).0, PrepareAll(ls, i, s).1, j)
  {
    var prefix := PrefixLen(s.seqLen, s.newTokens);
    if Reset(ls[0], s.reqId, s.seqLen, prefix, s.paged).1 == Done {
      ResetToEach(ls, |ls|, s.reqId, s.seqLen, prefix, s.paged);
    } else {
      ResetToFails(ls, |ls|, s.reqId, s.seqLen, prefix, s.paged);
    }
  }

  lemma GrowTogether<T>(ls: seq<Layer<T>>, i: nat, s: Step<T>, j: nat)
    requires InStep(ls) && i < |ls| && j < |ls| && !NeedsReset(ls[i], s.reqId, s.seqLen)
    ensures Together(ls, s, PrepareAll(ls, i, s).0, PrepareAll(ls, i, s).1, j)
  {
    if s.seqLen > ls[i].actualSeqLen {
      MarkToEach(ls, |ls|, s.seqLen - 1);
    }
  }

  lemma PreparedInStep<T>(l: Layer<T>, m: Layer<T>, s: Step<T>)
    requires InStep([l, m])
    ensures InStep([PrepareFor(l, s).0, PrepareFor(m, s).0])
  {
    assert [l, m][0] == l && [l, m][1] == m;
  }

  // Whichever layer of layers in step asks first: when its own preparation would succeed, every layer is
  // prepared as it would have prepared itself, all stay in step, and the other layers of the same decode
  // step find nothing left to do. When it would fail, the call fails in the same way, and no layer but
  // the first of all can have changed.
  lemma LayersPreparedTogether<T>(ls: seq<Layer<T>>, i: nat, s: Step<T>)
    requires InStep(ls) && i < |ls|
    ensures var (r, status) := PrepareAll(ls, i, s);
            && (forall j | 0 <= j < |ls| :: Together(ls, s, r, status, j))
            && (status == Done ==> InStep(r))
            && (status == Done && s.seqLen > 0 ==> forall j | 0 <= j < |r| :: Settled(r[j], s))
  {
    var (r, status) := PrepareAll(ls, i, s);
    forall j | 0 <= j < |ls|
      ensures Together(ls, s, r, status, j)
    {
      if NeedsReset(ls[i], s.reqId, s.seqLen) {
        ResetTogether(ls, i, s, j);
      } else {
        GrowTogether(ls, i, s, j);
      }
    }
    if status == Done {
      forall j, k | 0 <= j < |r| && 0 <= k < |r|
        ensures InStep([r[j], r[k]])
      {
        assert Together(ls, s, r, status, j) && Together(ls, s, r, status, k);
        assert InStep([ls[j], ls[k]]);
        PreparedInStep(ls[j], ls[k], s);
      }
      forall j, k | 0 <= j < |r| && 0 <= k < |r|
        ensures r[j].reqId == r[k].reqId && r[j].actualSeqLen == r[k].actualSeqLen
        ensures |r[j].ctx.tokenState| == |r[k].ctx.tokenState|
      {
        var pair := [r[j], r[k]];
        assert InStep(pair);
        assert pair[0].reqId == pair[1].reqId;
      }
      if s.seqLen > 0 {
        forall j | 0 <= j < |r|
          ensures Settled(r[j], s)
        {
          assert Together(ls, s, r, status, j);
          PreparedSettled(ls[j], s);
        }
      }
    }
  }

  // ---- a decode step of all layers -------------------------------------------------------------------

  // The steps of the layers in one decode step: the same metadata and block table, planes and indices of
  // their own.
  ghost predicate SameStep<T>(ss: seq<Step<T>>) {
    forall i, j | 0 <= i < |ss| && 0 <= j < |ss| ::
      && ss[i].reqId == ss[j].reqId && ss[i].seqLen == ss[j].seqLen && ss[i].newTokens == ss[j].newTokens
      && ss[i].paged.table == ss[j].paged.table && ss[i].paged.blockSize == ss[j].paged.blockSize
  }

  // The first k layers, in order, prepare and resolve, until one of them fails: the layers, how many of
  // them had their turn, and whether the last of those failed.
  function DecodeLayers<T>(ls: seq<Layer<T>>, ss: seq<Step<T>>, k: nat): (r: (seq<Layer<T>>, nat, bool))
    requires k <= |ls| == |ss|
    ensures |r.0| == |ls| && r.1 <= k && (!r.2 ==> r.1 == k)
  {
    if k == 0 then (ls, 0, false)
    else
      var (before, turns, failed) := DecodeLayers(ls, ss, k - 1);
      if failed then (before, turns, true)
      else
        var (ready, status) := PrepareAll(before, k - 1, ss[k - 1]);
        if status != Done then (ready, k - 1, true)
        else
          var (layer, slots) := ResolveIn(ready[k - 1], ss[k - 1]);
          (ready[k - 1 := layer], k, !slots.Ok?)
  }

  // Preparing looks at the table, not at the planes.
  lemma PreparedByTable<T>(l: Layer<T>, s: Step<T>, u: Step<T>)
    requires SameStep([s, u])
    ensures PrepareFor(l, s) == PrepareFor(l, u)
  {
    assert [s, u][0] == s && [s, u][1] == u;
    forall i | 0 <= i
      ensures Covered(s.paged, i) == Covered(u.paged, i)
      ensures Covered(s.paged, i) ==> Address(s.paged, i) == Address(u.paged, i)
    {
    }
    var prefix := PrefixLen(s.seqLen, s.newTokens);
    if Reset(l, s.reqId, s.seqLen, prefix, s.paged).1 == Done {
      assert Loaded(l.ctx, s.paged, s.seqLen, prefix) == Loaded(l.ctx, u.paged, u.seqLen, prefix);
    }
  }

  // What layer j has gone through when k layers have had their turn.
  function Column<T>(l: Layer<T>, s: Step<T>, k: nat, j: nat): Layer<T> {
    if k == 0 then l else if j < k then Decode(l, s).0 else PrepareFor(l, s).0
  }

  // That is one decode step of that layer on its own, with nothing to gather when it had no turn.
  lemma ColumnIsStep<T>(l: Layer<T>, s: Step<T>, k: nat, j: nat)
    requires k > 0 && PrepareFor(l, s).1 == Done
    ensures Column(l, s, k, j) == Decode(l, if j < k then s else s.(topk := [])).0
  {
    if j >= k {
      assert Resolve(PrepareFor(l, s).0.ctx, s.paged, PrepareFor(l, s).0.actualSeqLen, []).0 == PrepareFor(l, s).0.ctx;
    }
  }

  ghost predicate Columns<T>(ls: seq<Layer<T>>, ss: seq<Step<T>>, k: nat, r: seq<Layer<T>>)
    requires |ls| == |ss|
  {
    |r| == |ls| && forall j | 0 <= j < |ls| :: r[j] == Column(ls[j], ss[j], k, j)
  }

  // The first layer prepares all of them, each as it would have prepared itself.
  lemma FirstTurn<T>(ls: seq<Layer<T>>, ss: seq<Step<T>>)
    requires InStep(ls) && SameStep(ss) && |ls| == |ss| > 0
    requires PrepareFor(ls[0], ss[0]).1 == Done
    ensures PrepareAll(ls, 0, ss[0]).1 == Done
    ensures forall j | 0 <= j < |ls| ::
              PrepareFor(ls[j], ss[j]).1 == Done && PrepareAll(ls, 0, ss[0]).0[j] == PrepareFor(ls[j], ss[j]).0
  {
    LayersPreparedTogether(ls, 0, ss[0]);
    var (r, status) := PrepareAll(ls, 0, ss[0]);
    assert Together(ls, ss[0], r, status, 0);
    forall j | 0 <= j < |ls|
      ensures PrepareFor(ls[j], ss[j]).1 == Done && r[j] == PrepareFor(ls[j], ss[j]).0
    {
      assert Together(ls, ss[0], r, status, j);
      PreparedByTable(ls[j], ss[0], ss[j]);
    }
  }

  // Some layers have had their turn, each as on its own; only the last of them can have failed.
  ghost predicate Taken<T>(ls: seq<Layer<T>>, ss: seq<Step<T>>, r: seq<Layer<T>>, turns: nat, failed: bool)
    requires |ls| == |ss|
  {
    && 0 < turns <= |ls| && Columns(ls, ss, turns, r)
    && var outcome := Decode(ls[turns - 1], ss[turns - 1]).1;
       outcome.Resolved? && (failed <==> !outcome.slots.Ok?)
  }

  // A decode step of all layers is a decode step of each layer on its own, although only the first one
  // finds anything to prepare, up to the first layer that cannot resolve: so every layer of a run of such
  // steps goes through a run of its own.
  lemma {:induction false} LayersDecodeAlone<T>(ls: seq<Layer<T>>, ss: seq<Step<T>>, k: nat)
    requires InStep(ls) && SameStep(ss) && 0 < k <= |ls| == |ss|
    requires ss[0].seqLen > 0 && PrepareFor(ls[0], ss[0]).1 == Done
    ensures var (r, turns, failed) := DecodeLayers(ls, ss, k);
            Taken(ls, ss, r, turns, failed)
  {
    FirstTurn(ls, ss);
    if k == 1 {
      OneTurn(ls, ss);
    } else {
      LayersDecodeAlone(ls, ss, k - 1);
      var (before, _, failed) := DecodeLayers(ls, ss, k - 1);
      if !failed {
        PreparedSettled(ls[k - 1], ss[k - 1]);
        NextTurn(ls, ss, k, before);
      }
    }
  }

  lemma OneTurn<T>(ls: seq<Layer<T>>, ss: seq<Step<T>>)
    requires |ls| == |ss| > 0 && PrepareAll(ls, 0, ss[0]).1 == Done
    requires forall j | 0 <= j < |ls| ::
              PrepareFor(ls[j], ss[j]).1 == Done && PrepareAll(ls, 0, ss[0]).0[j] == PrepareFor(ls[j], ss[j]).0
    ensures var (r, turns, failed) := DecodeLayers(ls, ss, 1);
            Taken(ls, ss, r, turns, failed)
  {
    assert DecodeLayers(ls, ss, 0) == (ls, 0, false);
    assert PrepareAll(ls, 0, ss[0]).0[0] == PrepareFor(ls[0], ss[0]).0;
  }

  lemma NextTurn<T>(ls: seq<Layer<T>>, ss: seq<Step<T>>, k: nat, before: seq<Layer<T>>)
    requires 1 < k <= |ls| == |ss| && Columns(ls, ss, k - 1, before)
    requires PrepareFor(ls[k - 1], ss[k - 1]).1 == Done && Settled(PrepareFor(ls[k - 1], ss[k - 1]).0, ss[k - 1])
    ensures PrepareAll(before, k - 1, ss[k - 1]) == (before, Done)
    ensures var (layer, slots) := ResolveIn(before[k - 1], ss[k - 1]);
            Taken(ls, ss, before[k - 1 := layer], k, !slots.Ok?)
  {
    assert before[k - 1] == Column(ls[k - 1], ss[k - 1], k - 1, k - 1);
  }

  // What the step has made of one layer.
  lemma ColumnSettled<T>(l: Layer<T>, s: Step<T>, turns: nat, j: nat)
    requires turns > 0 && s.seqLen > 0 && PrepareFor(l, s).1 == Done
    ensures var r := Column(l, s, turns, j);
            r.reqId == s.reqId && r.actualSeqLen == s.seqLen && |r.ctx.tokenState| == |l.ctx.tokenState|
  {
    PreparedSettled(l, s);
  }

  // The layers are in step again after the decode step.
  lemma {:induction false} LayersStayInStep<T>(ls: seq<Layer<T>>, ss: seq<Step<T>>)
    requires InStep(ls) && SameStep(ss) && |ls| == |ss| > 0
    requires ss[0].seqLen > 0 && PrepareFor(ls[0], ss[0]).1 == Done
    ensures InStep(DecodeLayers(ls, ss, |ls|).0)
  {
    LayersDecodeAlone(ls, ss, |ls|);
    FirstTurn(ls, ss);
    var (r, turns, _) := DecodeLayers(ls, ss, |ls|);
    forall j | 0 <= j < |ls|
      ensures r[j].reqId == ss[0].reqId && r[j].actualSeqLen == ss[0].seqLen
      ensures |r[j].ctx.tokenState| == |ls[0].ctx.tokenState|
    {
      ColumnSettled(ls[j], ss[j], turns, j);
    }
  }

  // ---- runs of all layers ----------------------------------------------------------------------------

  // A run of decode steps of all layers, every one of which is prepared: the steps of one column go on
  // from each other as those of a single layer do. helds are the paged caches of the layers so far.
  ghost predicate IsLayersRun<T>(rows: seq<seq<Layer<T>>>, steps: seq<seq<Step<T>>>, helds: seq<seq<Paged<T>>>) {
    && |rows| == |helds| == |steps| + 1 && |helds[0]| == |rows[0]| > 0 && InStep(rows[0])
    && forall i | 0 <= i < |steps| :: LayersStep(rows[i], helds[i], steps[i], rows[i + 1], helds[i + 1])
  }

  ghost predicate LayersStep<T>(ls: seq<Layer<T>>, helds: seq<Paged<T>>, ss: seq<Step<T>>, next: seq<Layer<T>>,
                                caches: seq<Paged<T>>)
  {
    && |ls| == |ss| == |helds| == |caches| > 0 && SameStep(ss)
    && ss[0].seqLen > 0 && PrepareFor(ls[0], ss[0]).1 == Done
    && (forall j | 0 <= j < |ls| :: Follows(ls[j], helds[j], ss[j]) && caches[j] == ss[j].paged)
    && next == DecodeLayers(ls, ss, |ls|).0
  }

  ghost predicate RowShape<T>(ls: seq<Layer<T>>, helds: seq<Paged<T>>, n: nat) {
    |ls| == |helds| == n && InStep(ls)
  }

  lemma NextRow<T>(ls: seq<Layer<T>>, helds: seq<Paged<T>>, ss: seq<Step<T>>, next: seq<Layer<T>>,
                   caches: seq<Paged<T>>, n: nat)
    requires RowShape(ls, helds, n) && LayersStep(ls, helds, ss, next, caches)
    ensures |ss| == n && RowShape(next, caches, n)
  {
    LayersStayInStep(ls, ss);
  }

  // All rows have the same number of layers, in step.
  lemma {:induction false} RowsInStep<T>(rows: seq<seq<Layer<T>>>, steps: seq<seq<Step<T>>>,
                                         helds: seq<seq<Paged<T>>>, n: nat, i: nat)
    requires IsLayersRun(rows, steps, helds) && n == |rows[0]| && i <= |steps|
    ensures RowShape(rows[i], helds[i], n)
  {
    if i > 0 {
      RowsInStep(rows, steps, helds, n, i - 1);
      NextRow(rows[i - 1], helds[i - 1], steps[i - 1], rows[i], helds[i], n);
    }
  }

  // One layer's states, steps and caches; when an earlier layer failed, it gathers nothing.
  ghost function ColumnLayers<T>(rows: seq<seq<Layer<T>>>, j: nat): (r: seq<Layer<T>>)
    requires forall i | 0 <= i < |rows| :: j < |rows[i]|
    ensures |r| == |rows| && forall i | 0 <= i < |rows| :: r[i] == rows[i][j]
  {
    seq(|rows|, i requires 0 <= i < |rows| => rows[i][j])
  }

  ghost function ColumnHelds<T>(helds: seq<seq<Paged<T>>>, j: nat): (r: seq<Paged<T>>)
    requires forall i | 0 <= i < |helds| :: j < |helds[i]|
    ensures |r| == |helds| && forall i | 0 <= i < |helds| :: r[i] == helds[i][j]
  {
    seq(|helds|, i requires 0 <= i < |helds| => helds[i][j])
  }

  function StepTaken<T>(ls: seq<Layer<T>>, ss: seq<Step<T>>, j: nat): Step<T>
    requires |ls| == |ss| && j < |ss|
  {
    if j < DecodeLayers(ls, ss, |ls|).1 then ss[j] else ss[j].(topk := [])
  }

  ghost predicate IsColumn<T>(rows: seq<seq<Layer<T>>>, steps: seq<seq<Step<T>>>, helds: seq<seq<Paged<T>>>, j: nat,
                              layers: seq<Layer<T>>, taken: seq<Step<T>>, caches: seq<Paged<T>>)
  {
    && |layers| == |rows| == |caches| == |helds| == |steps| + 1 && |taken| == |steps|
    && (forall i | 0 <= i < |rows| ::
          j < |rows[i]| && j < |helds[i]| && layers[i] == rows[i][j] && caches[i] == helds[i][j])
    && (forall i | 0 <= i < |steps| :: |rows[i]| == |steps[i]| && taken[i] == StepTaken(rows[i], steps[i], j))
  }

  lemma ColumnStep<T>(ls: seq<Layer<T>>, helds: seq<Paged<T>>, ss: seq<Step<T>>, next: seq<Layer<T>>,
                      caches: seq<Paged<T>>, j: nat)
    requires InStep(ls) && LayersStep(ls, helds, ss, next, caches) && j < |ls|
    ensures |next| == |ls|
    ensures var s := StepTaken(ls, ss, j);
            Follows(ls[j], helds[j], s) && next[j] == Decode(ls[j], s).0 && caches[j] == Held(ls[j], helds[j], s)
  {
    LayersDecodeAlone(ls, ss, |ls|);
    FirstTurn(ls, ss);
    ColumnIsStep(ls[j], ss[j], DecodeLayers(ls, ss, |ls|).1, j);
  }

  // Every column of a run of all layers is a run of that layer.
  lemma ColumnIsRun<T>(rows: seq<seq<Layer<T>>>, steps: seq<seq<Step<T>>>, helds: seq<seq<Paged<T>>>, j: nat)
    returns (layers: seq<Layer<T>>, taken: seq<Step<T>>, caches: seq<Paged<T>>)
    requires IsLayersRun(rows, steps, helds) && j < |rows[0]|
    ensures IsColumn(rows, steps, helds, j, layers, taken, caches) && IsRun(layers, taken, caches)
  {
    forall i | 0 <= i <= |steps|
      ensures RowShape(rows[i], helds[i], |rows[0]|)
      ensures i < |steps| ==> |steps[i]| == |rows[0]|
    {
      RowsInStep(rows, steps, helds, |rows[0]|, i);
      if i < |steps| {
        NextRow(rows[i], helds[i], steps[i], rows[i + 1], helds[i + 1], |rows[0]|);
      }
    }
    layers, caches := ColumnLayers(rows, j), ColumnHelds(helds, j);
    taken := seq(|steps|, i requires 0 <= i < |steps| => StepTaken(rows[i], steps[i], j));
    forall i | 0 <= i < |steps|
      ensures Follows(layers[i], caches[i], taken[i]) && layers[i + 1] == Decode(layers[i], taken[i]).0
      ensures caches[i + 1] == Held(layers[i], caches[i], taken[i])
    {
      ColumnStep(rows[i], helds[i], steps[i], rows[i + 1], helds[i + 1], j);
    }
  }

  // So in every run of decode steps of all layers, each layer that starts faithful, has its turn and can
  // resolve gathers its own original pairs.
  lemma LayersRunGathers<T>(rows: seq<seq<Layer<T>>>, steps: seq<seq<Step<T>>>, helds: seq<seq<Paged<T>>>,
                            i: nat, j: nat)
    requires IsLayersRun(rows, steps, helds) && i < |steps| && j < |rows[0]| && LayerOk(rows[0][j], helds[0][j])
    requires |rows[i]| == |steps[i]| && j < DecodeLayers(rows[i], steps[i], |rows[i]|).1
    ensures j < |rows[i + 1]|
    ensures var outcome := Decode(rows[i][j], steps[i][j]).1;
            outcome.Resolved? && outcome.slots.Ok? ==>
              SameGather(rows[i + 1][j].ctx, steps[i][j].paged, steps[i][j].topk, outcome.slots.value)
  {
    var layers, taken, caches := ColumnIsRun(rows, steps, helds, j);
    RunKeeps(layers, taken, caches, i);
    DecodeKeeps(layers[i], caches[i], taken[i]);
  }
}
