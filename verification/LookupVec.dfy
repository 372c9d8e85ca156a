/** KernelHbmLookupVec and the shape checks that keep its 32-bit arithmetic from wrapping. */
module LookupVec {
  import opened Compaction
  import opened FlatRows
  import opened GridStride
  import opened Uint32

  const INDEX_SIZE := 131072
  const QUERY_TILE := 64

  // ---- the host checks -----------------------------------------------------------------------------

  datatype LookupShape = LookupShape(reqNum: nat, queryLen: nat, singleReq: bool)

  datatype Checked = Accepted(shape: LookupShape) | Rejected

  function AlignUpI64(x: nat, align: nat): nat
    requires align > 0
  {
    (x + align - 1) / align * align
  }

  function AtLeastOne(n: nat): nat {
    if n < 1 then 1 else n
  }

  function ClampBlockDim(blockDim: int): (r: nat)
    ensures 1 <= r <= 64 && (1 <= blockDim <= 64 ==> r == blockDim)
    ensures (blockDim < 1 ==> r == 1) && (blockDim > 64 ==> r == 64)
  {
    if blockDim < 1 then 1 else if blockDim > 64 then 64 else blockDim
  }

  // The dimensions of table_keys, table_states, query_keys and new_states.
  function CheckLookupShapes(table: seq<nat>, states: seq<nat>, query: seq<nat>, news: seq<nat>): Checked {
    if !((|table| == 1 || |table| == 2) && states == table && news == query) then Rejected
    else if |table| == 1 then
      if !(table[0] == INDEX_SIZE && |query| == 1) then Rejected else CheckSizes(1, query[0], true)
    else if !(table[1] == INDEX_SIZE && |query| == 2 && query[0] == table[0]) then Rejected
    else CheckSizes(table[0], query[1], false)
  }

  function CheckSizes(reqNum: nat, queryLen: nat, singleReq: bool): Checked {
    var padded := AlignUpI64(AtLeastOne(queryLen), QUERY_TILE);
    var tiles := padded / QUERY_TILE;
    if reqNum < 1 || reqNum > MAX || queryLen > MAX then Rejected
    else if tiles == 0 || reqNum > MAX / tiles || reqNum > MAX / INDEX_SIZE then Rejected
    else if queryLen > 0 && (reqNum > MAX / queryLen || padded == 0 || reqNum > MAX / padded) then Rejected
    else Accepted(LookupShape(reqNum, queryLen, singleReq))
  }

  // Tiles of a query row, and its padded length.
  function Tiles(queryLen: nat): nat {
    (queryLen + QUERY_TILE - 1) / QUERY_TILE
  }

  lemma TilesPad(queryLen: nat)
    ensures AlignUpI64(queryLen, QUERY_TILE) == Tiles(queryLen) * QUERY_TILE
    ensures queryLen <= Tiles(queryLen) * QUERY_TILE < queryLen + QUERY_TILE
    ensures AlignUpI64(AtLeastOne(queryLen), QUERY_TILE) / QUERY_TILE == Tiles(AtLeastOne(queryLen)) > 0
  {
  }

  lemma QuotientBound(r: nat, d: nat)
    requires d > 0
    ensures r <= MAX / d <==> r * d <= MAX
  {
    var q := MAX / d;
    assert q * d <= MAX < q * d + d;
    MulStrict(q, r, d);
    if r <= q {
      MulStrict(r, q + 1, d);
      assert (r + 1) * d == r * d + d && (q + 1) * d == q * d + d;
    }
  }

  // No row, tile or element number of a launch of this shape needs more than 32 bits.
  ghost predicate Fits(s: LookupShape) {
    && 1 <= s.reqNum && s.reqNum * INDEX_SIZE <= MAX
    && s.reqNum * (Tiles(s.queryLen) * QUERY_TILE) <= MAX
  }

  // The checks accept well-formed dimensions exactly when every flat index fits 32 bits.
  lemma AcceptsExactly(reqNum: nat, queryLen: nat, singleReq: bool)
    ensures CheckSizes(reqNum, queryLen, singleReq) ==
            if Fits(LookupShape(reqNum, queryLen, singleReq)) then Accepted(LookupShape(reqNum, queryLen, singleReq))
            else Rejected
  {
    TilesPad(queryLen);
    var tiles := Tiles(AtLeastOne(queryLen));
    var padded := tiles * QUERY_TILE;
    TilesPad(AtLeastOne(queryLen));
    QuotientBound(reqNum, INDEX_SIZE);
    QuotientBound(reqNum, tiles);
    QuotientBound(reqNum, padded);
    SizesNest(reqNum, queryLen);
    if queryLen > 0 {
      QuotientBound(reqNum, queryLen);
    }
  }

  // The dimensions of the table and of the queries, in the layout without or with a request dimension.
  predicate Layout(table: seq<nat>, query: seq<nat>, s: LookupShape) {
    if s.singleReq then s.reqNum == 1 && table == [INDEX_SIZE] && query == [s.queryLen]
    else table == [s.reqNum, INDEX_SIZE] && query == [s.reqNum, s.queryLen]
  }

  // The checks return a shape exactly when the dimensions agree in its layout and every flat index of a
  // launch of it fits 32 bits; they reject all other dimensions.
  lemma CheckLookupShapesExactly(table: seq<nat>, states: seq<nat>, query: seq<nat>, news: seq<nat>, s: LookupShape)
    ensures CheckLookupShapes(table, states, query, news) == Accepted(s) <==>
            Layout(table, query, s) && states == table && news == query && Fits(s)
  {
    AcceptsExactly(s.reqNum, s.queryLen, s.singleReq);
    if |table| == 1 && |query| == 1 {
      AcceptsExactly(1, query[0], true);
    }
    if |table| == 2 && |query| == 2 {
      AcceptsExactly(table[0], query[1], false);
    }
  }

  // The products with smaller factors fit when the padded one does.
  lemma SizesNest(reqNum: nat, queryLen: nat)
    ensures var tiles := Tiles(AtLeastOne(queryLen));
            && reqNum * tiles <= reqNum * (tiles * QUERY_TILE) && reqNum * queryLen <= reqNum * (tiles * QUERY_TILE)
            && (reqNum >= 1 ==> queryLen <= reqNum * (tiles * QUERY_TILE))
            && (reqNum * INDEX_SIZE <= MAX ==> reqNum * QUERY_TILE <= MAX)
  {
    var tiles := Tiles(AtLeastOne(queryLen));
    TilesPad(AtLeastOne(queryLen));
    TimesMonotone(reqNum, tiles, tiles * QUERY_TILE);
    TimesMonotone(reqNum, queryLen, tiles * QUERY_TILE);
    if reqNum >= 1 {
      AtLeastOnce(reqNum, tiles * QUERY_TILE);
    }
  }

  lemma AtLeastOnce(n: nat, x: nat)
    requires n >= 1
    ensures x <= n * x
  {
  }

  // In numbers: 131072 table entries a request, and query rows padded to multiples of 64.
  lemma FitsExactly(s: LookupShape)
    ensures Fits(s) <==>
            && 1 <= s.reqNum && s.reqNum * 131072 < 0x1_0000_0000
            && s.reqNum * ((s.queryLen + 63) / 64 * 64) < 0x1_0000_0000
  {
  }

  // Every 32-bit intermediate of the kernel keeps its value, the strided tile counter included.
  lemma NoWrap(s: LookupShape)
    requires Fits(s) && s.queryLen > 0
    ensures U32(s.queryLen + QUERY_TILE - 1) == s.queryLen + QUERY_TILE - 1
    ensures U32(Tiles(s.queryLen) * QUERY_TILE) == Tiles(s.queryLen) * QUERY_TILE
    ensures s.reqNum * Tiles(s.queryLen) + QUERY_TILE <= MAX
    ensures U32(s.reqNum * Tiles(s.queryLen)) == s.reqNum * Tiles(s.queryLen)
    ensures s.reqNum * s.queryLen <= MAX
  {
    var tiles := Tiles(s.queryLen);
    TilesPad(s.queryLen);
    SizesNest(s.reqNum, s.queryLen);
    AtLeastOnce(s.reqNum, tiles * QUERY_TILE);
    Regroup(s.reqNum, tiles);
  }

  lemma Regroup(n: nat, tiles: nat)
    ensures n * (tiles * QUERY_TILE) == n * tiles * QUERY_TILE
  {
  }

  // ---- the kernel ----------------------------------------------------------------------------------

  ghost predicate Buffers(table: seq<int>, query: seq<int>, s: LookupShape) {
    && |table| == s.reqNum * INDEX_SIZE && |query| == s.reqNum * s.queryLen
    && forall i | 0 <= i < |query| :: 0 <= query[i] < INDEX_SIZE
  }

  // The state looked up by a query, or the padding value beyond the end of the row.
  function Cell(tableRow: seq<int>, queryRow: seq<int>, col: nat): int {
    if col < |queryRow| then (if 0 <= queryRow[col] < |tableRow| then tableRow[queryRow[col]] else 0) else 0
  }

  // The 64 cells of a row from column qBase on.
  function RowCells(tableRow: seq<int>, queryRow: seq<int>, qBase: nat): (cells: seq<int>)
    ensures |cells| == QUERY_TILE && forall i | 0 <= i < QUERY_TILE :: cells[i] == Cell(tableRow, queryRow, qBase + i)
  {
    seq(QUERY_TILE, i requires 0 <= i < QUERY_TILE => Cell(tableRow, queryRow, qBase + i))
  }

  // The cells of tile t: tiles are numbered row by row.
  function TileCells(table: seq<int>, query: seq<int>, s: LookupShape, t: nat): (cells: seq<int>)
    requires Buffers(table, query, s) && s.queryLen > 0 && t < s.reqNum * Tiles(s.queryLen)
    ensures |cells| == QUERY_TILE
  {
    TileOwner(s, t);
    var r := t / Tiles(s.queryLen);
    RowCells(Row(table, INDEX_SIZE, s.reqNum, r), Row(query, s.queryLen, s.reqNum, r),
             (t - r * Tiles(s.queryLen)) * QUERY_TILE)
  }

  lemma TileOwner(s: LookupShape, t: nat)
    requires s.queryLen > 0 && t < s.reqNum * Tiles(s.queryLen)
    ensures var tiles := Tiles(s.queryLen);
            && tiles > 0 && t / tiles < s.reqNum && 0 <= t - t / tiles * tiles < tiles
            && t / tiles * tiles <= t
  {
    var tiles := Tiles(s.queryLen);
    TilesPad(s.queryLen);
    assert t == t / tiles * tiles + t % tiles;
    MulStrict(t / tiles, s.reqNum, tiles);
    MulStrict(s.reqNum, t / tiles + 1, tiles);
  }

  // Both branches of the tile body: the listed states, then zeros.
  method FillTile(table: array<int>, query: array<int>, outTile: array<int>, indexBase: nat, queryPos: nat, valid: nat)
    requires outTile.Length == QUERY_TILE && valid <= QUERY_TILE && queryPos + valid <= query.Length
    requires outTile != table && outTile != query
    requires forall p | queryPos <= p < queryPos + valid :: 0 <= query[p] && indexBase + query[p] < table.Length
    modifies outTile
    ensures forall i | 0 <= i < QUERY_TILE ::
              outTile[i] == if i < valid then table[indexBase + query[queryPos + i]] else 0
  {
    if valid == QUERY_TILE {
      var queryTile := new int[QUERY_TILE];
      forall i | 0 <= i < QUERY_TILE {
        queryTile[i] := query[queryPos + i];
      }
      for i := 0 to QUERY_TILE
        invariant forall j | 0 <= j < QUERY_TILE :: queryTile[j] == query[queryPos + j]
        invariant forall j | 0 <= j < i :: outTile[j] == table[indexBase + query[queryPos + j]]
      {
        var key := queryTile[i];
        outTile[i] := table[indexBase + key];
      }
    } else {
      for i := 0 to valid
        invariant forall j | 0 <= j < i :: outTile[j] == table[indexBase + query[queryPos + j]]
      {
        var key := query[queryPos + i];
        outTile[i] := table[indexBase + key];
      }
      for i := valid to QUERY_TILE
        invariant forall j | 0 <= j < valid :: outTile[j] == table[indexBase + query[queryPos + j]]
        invariant forall j | valid <= j < i :: outTile[j] == 0
      {
        outTile[i] := 0;
      }
    }
  }

  lemma KeysInRange(table: seq<int>, query: seq<int>, s: LookupShape, r: nat, from: nat, count: nat)
    requires Buffers(table, query, s) && r < s.reqNum && from + count <= s.queryLen
    ensures r * s.queryLen + from + count <= |query|
    ensures forall p | r * s.queryLen + from <= p < r * s.queryLen + from + count ::
              0 <= query[p] && r * INDEX_SIZE + query[p] < |table|
  {
    RowInside(|table|, INDEX_SIZE, s.reqNum, r);
    RowInside(|query|, s.queryLen, s.reqNum, r);
  }

  lemma CellAt(table: seq<int>, query: seq<int>, s: LookupShape, r: nat, col: nat, indexBase: nat, p: nat)
    requires Buffers(table, query, s) && r < s.reqNum && col < s.queryLen
    requires indexBase == r * INDEX_SIZE && p == r * s.queryLen + col
    ensures p < |query| && 0 <= query[p] && indexBase + query[p] < |table|
    ensures Cell(Row(table, INDEX_SIZE, s.reqNum, r), Row(query, s.queryLen, s.reqNum, r), col) ==
            table[indexBase + query[p]]
  {
    RowElement(query, s.queryLen, s.reqNum, r, col);
    RowElement(table, INDEX_SIZE, s.reqNum, r, query[p]);
  }

  // What FillTile writes is those cells.
  lemma TileFilled(table: seq<int>, query: seq<int>, s: LookupShape, r: nat, qBase: nat, valid: nat,
                   indexBase: nat, queryPos: nat, tile: seq<int>)
    requires Buffers(table, query, s) && r < s.reqNum
    requires qBase + valid <= s.queryLen && (valid < QUERY_TILE ==> qBase + valid == s.queryLen)
    requires |tile| == QUERY_TILE && valid <= QUERY_TILE && queryPos + valid <= |query|
    requires indexBase == r * INDEX_SIZE && queryPos == r * s.queryLen + qBase
    requires forall p | queryPos <= p < queryPos + valid :: 0 <= query[p] && indexBase + query[p] < |table|
    requires forall i | 0 <= i < QUERY_TILE ::
               tile[i] == if i < valid then table[indexBase + query[queryPos + i]] else 0
    ensures tile == RowCells(Row(table, INDEX_SIZE, s.reqNum, r), Row(query, s.queryLen, s.reqNum, r), qBase)
  {
    forall i | 0 <= i < QUERY_TILE
      ensures tile[i] == Cell(Row(table, INDEX_SIZE, s.reqNum, r), Row(query, s.queryLen, s.reqNum, r), qBase + i)
    {
      if i < valid {
        CellAt(table, query, s, r, qBase + i, indexBase, queryPos + i);
      }
    }
  }

  // DataCopy of one tile into the padded output.
  method CopyOut(out: array<int>, outTile: array<int>, offset: nat, ghost tileId: nat, ghost tiles: nat)
    requires outTile.Length == QUERY_TILE && out != outTile && out.Length == tiles * QUERY_TILE
    requires tileId < tiles && offset == tileId * QUERY_TILE
    modifies out
    ensures Rows(out[..], QUERY_TILE, tiles) == Rows(old(out[..]), QUERY_TILE, tiles)[tileId := outTile[..]]
  {
    RowInside(out.Length, QUERY_TILE, tiles, tileId);
    forall i | 0 <= i < QUERY_TILE {
      out[offset + i] := outTile[i];
    }
    assert forall k | 0 <= k < QUERY_TILE :: out[offset + k] == outTile[k];
    forall k | 0 <= k < out.Length
      ensures out[k] == if offset <= k < offset + QUERY_TILE then outTile[..][k - offset] else old(out[k])
    {
      if offset <= k < offset + QUERY_TILE {
        var j := k - offset;
        assert out[offset + j] == outTile[j];
      }
    }
    CopyRow(old(out[..]), out[..], QUERY_TILE, tiles, tileId, outTile[..]);
  }

  // reqId * width in 32 bits, for a buffer of n rows that fits.
  method RowBase(reqId: nat, width: nat, ghost n: nat) returns (base: nat)
    requires reqId < n && n * width <= MAX
    ensures base == reqId * width && base + width <= n * width
  {
    RowInside(n * width, width, n, reqId);
    base := U32(reqId * width);
  }

  // The tile buffer of one row segment.
  method LookupSegment(table: array<int>, query: array<int>, s: LookupShape, reqId: nat, qBase: nat)
    returns (outTile: array<int>)
    requires Buffers(table[..], query[..], s) && Fits(s) && reqId < s.reqNum && qBase < s.queryLen
    ensures fresh(outTile) && outTile[..] == RowCells(Row(table[..], INDEX_SIZE, s.reqNum, reqId),
                                                     Row(query[..], s.queryLen, s.reqNum, reqId), qBase)
  {
    var valid := if QUERY_TILE < s.queryLen - qBase then QUERY_TILE else s.queryLen - qBase;
    NoWrap(s);
    var indexBase := RowBase(reqId, INDEX_SIZE, s.reqNum);
    var queryBase := RowBase(reqId, s.queryLen, s.reqNum);
    outTile := new int[QUERY_TILE];
    FillSegment(table, query, s, reqId, qBase, valid, indexBase, queryBase + qBase, outTile);
    TileFilled(table[..], query[..], s, reqId, qBase, valid, indexBase, queryBase + qBase, outTile[..]);
  }

  method FillSegment(table: array<int>, query: array<int>, ghost s: LookupShape, ghost reqId: nat, ghost qBase: nat,
                     valid: nat, indexBase: nat, queryPos: nat, outTile: array<int>)
    requires Buffers(table[..], query[..], s) && reqId < s.reqNum && qBase + valid <= s.queryLen
    requires indexBase == reqId * INDEX_SIZE && queryPos == reqId * s.queryLen + qBase
    requires outTile.Length == QUERY_TILE && valid <= QUERY_TILE && outTile != table && outTile != query
    modifies outTile
    ensures queryPos + valid <= query.Length
    ensures forall p | queryPos <= p < queryPos + valid :: 0 <= query[p] && indexBase + query[p] < table.Length
    ensures forall i | 0 <= i < QUERY_TILE ::
              outTile[i] == if i < valid then table[indexBase + query[queryPos + i]] else 0
  {
    KeysInRange(table[..], query[..], s, reqId, qBase, valid);
    assert forall p | queryPos <= p < queryPos + valid :: query[p] == query[..][p];
    FillTile(table, query, outTile, indexBase, queryPos, valid);
  }

  // Which row and column a tile starts at, and where it goes in the padded output.
  method TileParts(s: LookupShape, tileId: nat) returns (reqId: nat, qBase: nat, outPos: nat)
    requires Fits(s) && s.queryLen > 0 && tileId < s.reqNum * Tiles(s.queryLen)
    ensures reqId == tileId / Tiles(s.queryLen) < s.reqNum
    ensures qBase == (tileId - reqId * Tiles(s.queryLen)) * QUERY_TILE < s.queryLen
    ensures outPos == tileId * QUERY_TILE
  {
    NoWrap(s);
    TileOwner(s, tileId);
    TilesPad(s.queryLen);
    var queryTileNum := U32(s.queryLen + QUERY_TILE - 1) / QUERY_TILE;
    var paddedQueryLen := U32(queryTileNum * QUERY_TILE);
    reqId := tileId / queryTileNum;
    qBase := (tileId - reqId * queryTileNum) * QUERY_TILE;
    var outBase := RowBase(reqId, paddedQueryLen, s.reqNum);
    outPos := outBase + qBase;
    Regroup(reqId, queryTileNum);
  }

  // One tile on its core: its 64 cells of the padded output, and no others.
  method LookupTile(table: array<int>, query: array<int>, out: array<int>, s: LookupShape, tileId: nat)
    requires Buffers(table[..], query[..], s) && Fits(s) && s.queryLen > 0
    requires tileId < s.reqNum * Tiles(s.queryLen) && out.Length == s.reqNum * Tiles(s.queryLen) * QUERY_TILE
    requires out != table && out != query
    modifies out
    ensures Rows(out[..], QUERY_TILE, s.reqNum * Tiles(s.queryLen)) ==
            Rows(old(out[..]), QUERY_TILE, s.reqNum * Tiles(s.queryLen))
            [tileId := TileCells(table[..], query[..], s, tileId)]
  {
    var reqId, qBase, outPos := TileParts(s, tileId);
    var outTile := LookupSegment(table, query, s, reqId, qBase);
    CopyOut(out, outTile, outPos, tileId, s.reqNum * Tiles(s.queryLen));
  }

  // Exactly the tiles of a set hold their cells; the others are as before.
  ghost predicate TilesDone(table: seq<int>, query: seq<int>, s: LookupShape, before: seq<seq<int>>,
                            now: seq<seq<int>>, done: set<int>)
    requires Buffers(table, query, s) && s.queryLen > 0
    requires |before| == |now| == s.reqNum * Tiles(s.queryLen)
  {
    forall t: nat | t < |now| :: now[t] == if t in done then TileCells(table, query, s, t) else before[t]
  }

  ghost predicate Launchable(table: array<int>, query: array<int>, out: array<int>, s: LookupShape)
    reads table, query
  {
    && Buffers(table[..], query[..], s) && Fits(s) && s.queryLen > 0 && out != table && out != query
    && out.Length == s.reqNum * Tiles(s.queryLen) * QUERY_TILE
  }

  ghost function OutRows(out: seq<int>, s: LookupShape): (r: seq<seq<int>>)
    requires |out| == s.reqNum * Tiles(s.queryLen) * QUERY_TILE
    ensures |r| == s.reqNum * Tiles(s.queryLen)
  {
    Rows(out, QUERY_TILE, s.reqNum * Tiles(s.queryLen))
  }

  lemma MineEnough(table: seq<int>, query: seq<int>, s: LookupShape, before: seq<seq<int>>, now: seq<seq<int>>,
                   core: nat, blockNum: nat, m: nat)
    requires Buffers(table, query, s) && s.queryLen > 0 && blockNum > 0
    requires |before| == |now| == s.reqNum * Tiles(s.queryLen) <= m
    requires TilesDone(table, query, s, before, now, Mine(core, blockNum, m))
    ensures TilesDone(table, query, s, before, now, Mine(core, blockNum, |now|))
  {
    forall t: nat | t < |now|
      ensures t in Mine(core, blockNum, m) <==> t in Mine(core, blockNum, |now|)
    {
      MineBelow(core, blockNum, |now|, m, t);
    }
  }

  method TotalTiles(s: LookupShape) returns (total: nat)
    requires Fits(s) && s.queryLen > 0
    ensures total == s.reqNum * Tiles(s.queryLen) && total + QUERY_TILE <= MAX
  {
    NoWrap(s);
    var queryTileNum := U32(s.queryLen + QUERY_TILE - 1) / QUERY_TILE;
    total := U32(s.reqNum * queryTileNum);
  }

  method LookupOwn(table: array<int>, query: array<int>, out: array<int>, s: LookupShape, tileId: nat,
                   ghost before: seq<seq<int>>, ghost done: set<int>)
    requires Launchable(table, query, out, s) && |before| == s.reqNum * Tiles(s.queryLen) && tileId < |before|
    requires TilesDone(table[..], query[..], s, before, OutRows(out[..], s), done)
    modifies out
    ensures TilesDone(table[..], query[..], s, before, OutRows(out[..], s), done + {tileId})
  {
    LookupTile(table, query, out, s, tileId);
  }

  // Process on one core: its tiles, each written once, and nothing else. written lists the tiles in the
  // order they are written.
  method Process(table: array<int>, query: array<int>, out: array<int>, s: LookupShape, core: nat, blockNum: nat)
    returns (ghost written: seq<int>)
    requires Launchable(table, query, out, s) && core < blockNum <= 64
    modifies out
    ensures TilesDone(table[..], query[..], s, OutRows(old(out[..]), s), OutRows(out[..], s),
                      Mine(core, blockNum, s.reqNum * Tiles(s.queryLen)))
    ensures OnceEach(written, Mine(core, blockNum, s.reqNum * Tiles(s.queryLen)))
  {
    var totalTileNum := TotalTiles(s);
    ghost var before := OutRows(out[..], s);
    NoneMine(core, blockNum);
    var tileId := core;
    written := [];
    while tileId < totalTileNum
      invariant tileId % blockNum == core && tileId < totalTileNum + QUERY_TILE
      invariant OnceEach(written, Mine(core, blockNum, tileId))
      invariant forall i | 0 <= i < |written| :: written[i] < totalTileNum
      invariant TilesDone(table[..], query[..], s, before, OutRows(out[..], s), Mine(core, blockNum, tileId))
    {
      NextMine(core, blockNum, tileId);
      LookupOwn(table, query, out, s, tileId, before, Mine(core, blockNum, tileId));
      LogOne(written, Mine(core, blockNum, tileId), tileId);
      written := written + [tileId];
      tileId := NextOwn(tileId, core, blockNum);
    }
    MineEnough(table[..], query[..], s, before, OutRows(out[..], s), core, blockNum, tileId);
    LogEnough(written, core, blockNum, totalTileNum, tileId);
  }

  // All cores in any order write every padded cell exactly once: no tile is listed twice, and all are.
  method Launch(table: array<int>, query: array<int>, out: array<int>, s: LookupShape, blockNum: nat, order: seq<nat>)
    returns (ghost written: seq<int>)
    requires Launchable(table, query, out, s) && 0 < blockNum <= 64 && EveryCore(order, blockNum)
    modifies out
    ensures TilesDone(table[..], query[..], s, OutRows(old(out[..]), s), OutRows(out[..], s),
                      Below(s.reqNum * Tiles(s.queryLen)))
    ensures OnceEach(written, Below(s.reqNum * Tiles(s.queryLen)))
  {
    ghost var before := OutRows(out[..], s);
    ghost var count := s.reqNum * Tiles(s.queryLen);
    written := [];
    for i := 0 to |order|
      invariant TilesDone(table[..], query[..], s, before, OutRows(out[..], s), Owned(order, i, blockNum, count))
      invariant OnceEach(written, Owned(order, i, blockNum, count))
    {
      assert order[i] in order;
      ghost var own := Process(table, query, out, s, order[i], blockNum);
      NotYetOwned(order, i, blockNum, count);
      LogAll(written, Owned(order, i, blockNum, count), own, Mine(order[i], blockNum, count));
      written := written + own;
    }
    AllOwned(order, blockNum, count);
  }

  // Cell col of row r is cell col % 64 of tile r * tiles + col / 64.
  lemma CellPosition(reqNum: nat, tiles: nat, r: nat, col: nat, t: nat, i: nat)
    requires r < reqNum && col < tiles * QUERY_TILE
    requires t == r * tiles + col / QUERY_TILE && i == col % QUERY_TILE
    ensures t < reqNum * tiles && tiles > 0 && t / tiles == r && t - r * tiles == col / QUERY_TILE
    ensures t * QUERY_TILE + i == r * (tiles * QUERY_TILE) + col
    ensures (t - r * tiles) * QUERY_TILE + i == col
  {
    MulStrict(r, reqNum, tiles);
    ModUnique(t, r, col / QUERY_TILE, tiles);
    Regroup(r, tiles);
  }

  lemma TileCellsAt(table: seq<int>, query: seq<int>, s: LookupShape, t: nat, r: nat, i: nat, col: nat)
    requires Buffers(table, query, s) && s.queryLen > 0 && t < s.reqNum * Tiles(s.queryLen) && i < QUERY_TILE
    requires r == t / Tiles(s.queryLen) && r < s.reqNum && col == (t - r * Tiles(s.queryLen)) * QUERY_TILE + i
    ensures TileCells(table, query, s, t)[i] ==
            Cell(Row(table, INDEX_SIZE, s.reqNum, r), Row(query, s.queryLen, s.reqNum, r), col)
  {
    TileOwner(s, t);
  }

  // Once every tile is done, out[r][i] == table[r][query[r][i]], and the padding is 0.
  lemma LookedUp(table: seq<int>, query: seq<int>, s: LookupShape, before: seq<seq<int>>, out: seq<int>,
                 r: nat, col: nat, pos: nat)
    requires Buffers(table, query, s) && s.queryLen > 0 && |out| == s.reqNum * Tiles(s.queryLen) * QUERY_TILE
    requires |before| == s.reqNum * Tiles(s.queryLen)
    requires TilesDone(table, query, s, before, OutRows(out, s), Below(s.reqNum * Tiles(s.queryLen)))
    requires r < s.reqNum && col < Tiles(s.queryLen) * QUERY_TILE
    requires pos == r * (Tiles(s.queryLen) * QUERY_TILE) + col
    ensures pos < |out|
    ensures out[pos] == Cell(Row(table, INDEX_SIZE, s.reqNum, r), Row(query, s.queryLen, s.reqNum, r), col)
    ensures col >= s.queryLen ==> out[pos] == 0
  {
    var t := TileOf(s, r, col, pos);
    OutCell(table, query, s, before, out, t, col % QUERY_TILE, pos);
    TileCellsAt(table, query, s, t, r, col % QUERY_TILE, col);
  }

  lemma TileOf(s: LookupShape, r: nat, col: nat, pos: nat) returns (t: nat)
    requires r < s.reqNum && col < Tiles(s.queryLen) * QUERY_TILE
    requires pos == r * (Tiles(s.queryLen) * QUERY_TILE) + col
    ensures t < s.reqNum * Tiles(s.queryLen) && pos == t * QUERY_TILE + col % QUERY_TILE
    ensures Tiles(s.queryLen) > 0 && r == t / Tiles(s.queryLen)
    ensures col == (t - r * Tiles(s.queryLen)) * QUERY_TILE + col % QUERY_TILE
  {
    t := r * Tiles(s.queryLen) + col / QUERY_TILE;
    CellPosition(s.reqNum, Tiles(s.queryLen), r, col, t, col % QUERY_TILE);
  }

  lemma OutCell(table: seq<int>, query: seq<int>, s: LookupShape, before: seq<seq<int>>, out: seq<int>,
                t: nat, i: nat, pos: nat)
    requires Buffers(table, query, s) && s.queryLen > 0 && |out| == s.reqNum * Tiles(s.queryLen) * QUERY_TILE
    requires |before| == s.reqNum * Tiles(s.queryLen)
    requires TilesDone(table, query, s, before, OutRows(out, s), Below(s.reqNum * Tiles(s.queryLen)))
    requires t < s.reqNum * Tiles(s.queryLen) && i < QUERY_TILE && pos == t * QUERY_TILE + i
    ensures pos < |out| && out[pos] == TileCells(table, query, s, t)[i]
  {
    RowAt(out, s.reqNum * Tiles(s.queryLen), t, i, pos);
    assert OutRows(out, s)[t] == TileCells(table, query, s, t);
  }

  lemma RowAt(out: seq<int>, n: nat, t: nat, i: nat, pos: nat)
    requires |out| == n * QUERY_TILE && t < n && i < QUERY_TILE && pos == t * QUERY_TILE + i
    ensures pos < |out| && Rows(out, QUERY_TILE, n)[t][i] == out[pos]
  {
    RowElement(out, QUERY_TILE, n, t, i);
  }
}
