/** lookup_random_update: the host checks, the lookup launch and the update launch behind it. */
module HbmLookupUpdate {
  import opened Compaction
  import opened FlatRows
  import opened GridStride
  import opened Options
  import L = LookupVec
  import U = RandomUpdate

  // The number of elements of a contiguous tensor.
  function Numel(dims: seq<nat>): nat {
    if dims == [] then 1 else dims[0] * Numel(dims[1..])
  }

  lemma OneDimension(n: nat)
    ensures Numel([n]) == n
  {
    assert [n][1..] == [] && Numel([]) == 1;
  }

  lemma LayoutSizes(table: seq<nat>, query: seq<nat>, s: L.LookupShape)
    requires L.Layout(table, query, s)
    ensures Numel(table) == s.reqNum * L.INDEX_SIZE && Numel(query) == s.reqNum * s.queryLen
  {
    OneDimension(L.INDEX_SIZE);
    OneDimension(s.queryLen);
    if !s.singleReq {
      assert table[1..] == [L.INDEX_SIZE] && query[1..] == [s.queryLen];
    }
  }

  // narrow(dim, 0, queryLen) of the padded output, as rows.
  function Narrowed(out: seq<int>, reqNum: nat, padded: nat, queryLen: nat): (rows: seq<seq<int>>)
    requires |out| == reqNum * padded && queryLen <= padded
    ensures |rows| == reqNum
  {
    seq(reqNum, r requires 0 <= r < reqNum => Row(out, padded, reqNum, r)[..queryLen])
  }

  // rows[r][i] == table[r][query[r][i]].
  ghost predicate LooksUp(rows: seq<seq<int>>, table: seq<int>, query: seq<int>, s: L.LookupShape)
    requires L.Buffers(table, query, s)
  {
    && |rows| == s.reqNum
    && forall r: nat | r < s.reqNum ::
         IsLookup(rows[r], Row(table, L.INDEX_SIZE, s.reqNum, r), Row(query, s.queryLen, s.reqNum, r))
  }

  ghost predicate IsLookup(row: seq<int>, tableRow: seq<int>, queryRow: seq<int>) {
    |row| == |queryRow|
    && forall i | 0 <= i < |row| :: 0 <= queryRow[i] < |tableRow| && row[i] == tableRow[queryRow[i]]
  }

  lemma NarrowedLooksUp(table: seq<int>, query: seq<int>, s: L.LookupShape, before: seq<seq<int>>, out: seq<int>,
                        padded: nat)
    requires L.Buffers(table, query, s) && s.queryLen > 0 && padded == L.Tiles(s.queryLen) * L.QUERY_TILE
    requires |out| == s.reqNum * L.Tiles(s.queryLen) * L.QUERY_TILE == s.reqNum * padded && s.queryLen <= padded
    requires |before| == s.reqNum * L.Tiles(s.queryLen)
    requires L.TilesDone(table, query, s, before, L.OutRows(out, s), Below(s.reqNum * L.Tiles(s.queryLen)))
    ensures LooksUp(Narrowed(out, s.reqNum, padded, s.queryLen), table, query, s)
  {
    forall r: nat | r < s.reqNum
      ensures IsLookup(Row(out, padded, s.reqNum, r)[..s.queryLen], Row(table, L.INDEX_SIZE, s.reqNum, r),
                       Row(query, s.queryLen, s.reqNum, r))
    {
      RowLooksUp(table, query, s, before, out, padded, r);
    }
  }

  lemma RowLooksUp(table: seq<int>, query: seq<int>, s: L.LookupShape, before: seq<seq<int>>, out: seq<int>,
                   padded: nat, r: nat)
    requires L.Buffers(table, query, s) && s.queryLen > 0 && padded == L.Tiles(s.queryLen) * L.QUERY_TILE
    requires |out| == s.reqNum * L.Tiles(s.queryLen) * L.QUERY_TILE == s.reqNum * padded && s.queryLen <= padded
    requires |before| == s.reqNum * L.Tiles(s.queryLen) && r < s.reqNum
    requires L.TilesDone(table, query, s, before, L.OutRows(out, s), Below(s.reqNum * L.Tiles(s.queryLen)))
    ensures IsLookup(Row(out, padded, s.reqNum, r)[..s.queryLen], Row(table, L.INDEX_SIZE, s.reqNum, r),
                     Row(query, s.queryLen, s.reqNum, r))
  {
    var tableRow, queryRow := Row(table, L.INDEX_SIZE, s.reqNum, r), Row(query, s.queryLen, s.reqNum, r);
    var row := Row(out, padded, s.reqNum, r)[..s.queryLen];
    forall i | 0 <= i < |row|
      ensures 0 <= queryRow[i] < |tableRow| && row[i] == tableRow[queryRow[i]]
    {
      var pos := Position(r, padded, i);
      PaddedCell(table, query, s, before, out, padded, r, i, pos);
      CellLooksUp(query, s, out, padded, r, i, pos, tableRow);
    }
  }

  lemma Position(r: nat, padded: nat, i: nat) returns (pos: nat)
    ensures pos == r * padded + i
  {
    pos := r * padded + i;
  }

  lemma PaddedCell(table: seq<int>, query: seq<int>, s: L.LookupShape, before: seq<seq<int>>, out: seq<int>,
                   padded: nat, r: nat, i: nat, pos: nat)
    requires L.Buffers(table, query, s) && s.queryLen > 0 && padded == L.Tiles(s.queryLen) * L.QUERY_TILE
    requires |out| == s.reqNum * L.Tiles(s.queryLen) * L.QUERY_TILE && s.queryLen <= padded
    requires |before| == s.reqNum * L.Tiles(s.queryLen) && r < s.reqNum && i < s.queryLen && pos == r * padded + i
    requires L.TilesDone(table, query, s, before, L.OutRows(out, s), Below(s.reqNum * L.Tiles(s.queryLen)))
    ensures pos < |out|
    ensures out[pos] == L.Cell(Row(table, L.INDEX_SIZE, s.reqNum, r), Row(query, s.queryLen, s.reqNum, r), i)
  {
    L.LookedUp(table, query, s, before, out, r, i, pos);
  }

  lemma CellLooksUp(query: seq<int>, s: L.LookupShape, out: seq<int>, padded: nat, r: nat, i: nat, pos: nat,
                    tableRow: seq<int>)
    requires |query| == s.reqNum * s.queryLen && |out| == s.reqNum * padded && |tableRow| == L.INDEX_SIZE
    requires forall j | 0 <= j < |query| :: 0 <= query[j] < L.INDEX_SIZE
    requires r < s.reqNum && i < s.queryLen <= padded && pos == r * padded + i < |out|
    requires out[pos] == L.Cell(tableRow, Row(query, s.queryLen, s.reqNum, r), i)
    ensures var key := Row(query, s.queryLen, s.reqNum, r)[i];
            0 <= key < L.INDEX_SIZE && Row(out, padded, s.reqNum, r)[i] == tableRow[key]
  {
    RowElement(query, s.queryLen, s.reqNum, r, i);
    RowElement(out, padded, s.reqNum, r, i);
  }

  // The states before the update for every query.
  method Lookup(states: array<int>, query: array<int>, s: L.LookupShape, blockNum: nat, order: seq<nat>)
    returns (rows: seq<seq<int>>)
    requires L.Buffers(states[..], query[..], s) && L.Fits(s) && 0 < blockNum <= 64 && EveryCore(order, blockNum)
    ensures LooksUp(rows, states[..], query[..], s)
  {
    var padded := L.AlignUpI64(L.AtLeastOne(s.queryLen), L.QUERY_TILE);
    L.TilesPad(L.AtLeastOne(s.queryLen));
    var outFull := new int[s.reqNum * padded];
    if s.queryLen > 0 {
      L.Regroup(s.reqNum, L.Tiles(s.queryLen));
      ghost var before := L.OutRows(outFull[..], s);
      ghost var _ := L.Launch(states, query, outFull, s, blockNum, order);
      NarrowedLooksUp(states[..], query[..], s, before, outFull[..], padded);
    }
    rows := Narrowed(outFull[..], s.reqNum, padded, s.queryLen);
  }

  // Some shape fits the dimensions.
  ghost predicate Acceptable(table: seq<nat>, states: seq<nat>, query: seq<nat>, news: seq<nat>) {
    exists s: L.LookupShape :: L.Layout(table, query, s) && states == table && news == query && L.Fits(s)
  }

  // The table rows after the call.
  ghost predicate Updated(before: seq<int>, now: seq<int>, query: seq<int>, news: seq<int>, s: L.LookupShape,
                          percent: nat, draws: U.Draws, doUpdate: bool)
    requires U.Buffers(before, query, news, s.reqNum, s.queryLen) && |now| == |before|
  {
    if doUpdate && percent > 0 && s.queryLen > 0 then
      U.PromisedShares(before, now, query, news, s.reqNum, s.queryLen, percent, draws) &&
      forall r: nat | r < s.reqNum ::
        Row(now, U.INDEX_SIZE, s.reqNum, r) == U.Wanted(before, query, news, s.reqNum, s.queryLen, percent, draws, r)
    else now == before
  }

  // Every call: dimensions that do not fit, and shares outside 0..100, are rejected and change nothing;
  // otherwise each query gets the state its token had before the call, however the cores of the two
  // launches are ordered, and the rows are updated as the update kernel specifies.
  method LookupRandomUpdate(tableDims: seq<nat>, stateDims: seq<nat>, queryDims: seq<nat>, newDims: seq<nat>,
                            states: array<int>, query: array<int>, news: array<int>, percent: int, blockDim: int,
                            doUpdate: bool, draws: U.Draws, orders: nat -> seq<nat>)
    returns (result: Option<(L.LookupShape, seq<seq<int>>)>)
    requires states.Length == Numel(stateDims) && query.Length == Numel(queryDims) && news.Length == Numel(newDims)
    requires states != query && states != news
    requires forall i | 0 <= i < query.Length :: 0 <= query[i] < L.INDEX_SIZE
    requires forall n: nat | 0 < n <= 64 :: EveryCore(orders(n), n)
    modifies states
    ensures result.Some? <==> Acceptable(tableDims, stateDims, queryDims, newDims) && 0 <= percent <= 100
    ensures result.None? ==> states[..] == old(states[..])
    ensures result.Some? ==>
              var (s, rows) := result.value;
              && L.Layout(tableDims, queryDims, s) && L.Fits(s)
              && L.Buffers(old(states[..]), query[..], s) && LooksUp(rows, old(states[..]), query[..], s)
              && U.Buffers(old(states[..]), query[..], news[..], s.reqNum, s.queryLen)
              && Updated(old(states[..]), states[..], query[..], news[..], s, percent, draws, doUpdate)
  {
    var checked := L.CheckLookupShapes(tableDims, stateDims, queryDims, newDims);
    OnlyAccepted(tableDims, stateDims, queryDims, newDims);
    if checked.Rejected? || percent < 0 || percent > 100 {
      return None;
    }
    var s := checked.shape;
    L.CheckLookupShapesExactly(tableDims, stateDims, queryDims, newDims, s);
    LayoutSizes(tableDims, queryDims, s);
    FitsLimits(s);
    var bd := L.ClampBlockDim(blockDim);
    var updateBd := L.ClampBlockDim(if blockDim < s.reqNum then blockDim else s.reqNum);
    var rows := Lookup(states, query, s, bd, orders(bd));
    if s.queryLen > 0 && doUpdate && percent > 0 {
      U.Launch(states, query, news, s.reqNum, s.queryLen, percent, draws, updateBd, orders(updateBd));
    }
    result := Some((s, rows));
  }

  lemma OnlyAccepted(table: seq<nat>, states: seq<nat>, query: seq<nat>, news: seq<nat>)
    ensures L.CheckLookupShapes(table, states, query, news).Accepted? <==> Acceptable(table, states, query, news)
  {
    var checked := L.CheckLookupShapes(table, states, query, news);
    forall s: L.LookupShape
      ensures checked == L.Accepted(s) <==>
              L.Layout(table, query, s) && states == table && news == query && L.Fits(s)
    {
      L.CheckLookupShapesExactly(table, states, query, news, s);
    }
    if checked.Accepted? {
      assert checked == L.Accepted(checked.shape);
    }
  }

  lemma FitsLimits(s: L.LookupShape)
    requires L.Fits(s)
    ensures s.queryLen < 0x1_0000_0000
    ensures s.reqNum * U.INDEX_SIZE < 0x1_0000_0000 && s.reqNum * s.queryLen < 0x1_0000_0000
  {
    if s.queryLen > 0 {
      L.NoWrap(s);
      L.TilesPad(s.queryLen);
      L.AtLeastOnce(s.reqNum, L.Tiles(s.queryLen) * L.QUERY_TILE);
    }
  }
}
