/** The lookup kernel: one vector pass per index tile finds the hits, then a scalar loop re-checks the
    rest and allocates. */
module HbmLookupKernel {
  import opened Compaction
  import opened Mappings
  import opened HbmIndex
  import opened HbmKernels
  import opened VectorUnit

  function Clamp(delta: int, len: nat): int {
    if delta <= 0 then 0 else if delta < len then delta else len - 1
  }

  // Where every query falls relative to the tile at base, and that offset clamped into the tile.
  method ClampPasses(query: array<int>, base: int, len: nat) returns (delta: array<int>, clamp: array<int>)
    requires len > 0
    ensures fresh(delta) && fresh(clamp) && delta != clamp && delta.Length == clamp.Length == query.Length
    ensures forall i | 0 <= i < query.Length :: delta[i] == query[i] - base && clamp[i] == Clamp(query[i] - base, len)
  {
    var helper := new int[query.Length];
    delta, clamp := new int[query.Length], new int[query.Length];
    Adds(delta, query, -base);
    Relu(clamp, delta);
    Adds(helper, clamp, -(len - 1));
    Relu(helper, helper);
    Muls(helper, helper, -1);
    Add(clamp, clamp, helper);
  }

  // The byte offset and mask bit of one query.
  predicate Offered(offset: int, inTile: bool, q: int, base: int, len: nat) {
    && 0 <= offset && offset % INT32_BYTES == 0 && offset / INT32_BYTES < len
    && (inTile <==> base <= q < base + len)
    && (inTile ==> offset / INT32_BYTES == q - base)
  }

  method OffsetPasses(query: array<int>, base: int, len: nat) returns (offset: array<int>, mask: array<bool>)
    requires len > 0
    ensures fresh(offset) && fresh(mask) && offset.Length == mask.Length == query.Length
    ensures forall i | 0 <= i < query.Length :: Offered(offset[i], mask[i], query[i], base, len)
  {
    var delta, clamp := ClampPasses(query, base, len);
    var helper := new int[query.Length];
    offset, mask := new int[query.Length], new bool[query.Length];
    Muls(offset, clamp, INT32_BYTES);
    Muls(helper, clamp, -1);
    Add(helper, helper, delta);
    CompareEq(mask, helper, 0);
  }

  // One tile: exactly the queries inside it take their value from it.
  method SelectTile(query: array<int>, tile: array<int>, base: int, out: array<int>)
    requires out.Length == query.Length && tile.Length > 0 && out != query && out != tile
    modifies out
    ensures forall i | 0 <= i < query.Length ::
              out[i] == if base <= query[i] < base + tile.Length then tile[query[i] - base] else old(out[i])
  {
    var offset, mask := OffsetPasses(query, base, tile.Length);
    assert forall i | 0 <= i < query.Length :: Offered(offset[i], mask[i], query[i], base, tile.Length);
    var candidate := new int[query.Length];
    Gather(candidate, tile, offset);
    Select(out, mask, candidate, out);
  }

  // The hits of the index as it was before any allocation.
  predicate Snapshot(index: seq<int>, query: seq<int>, out: seq<int>, base: int) {
    && |out| == |query|
    && forall i | 0 <= i < |query| ::
         out[i] == if 0 <= query[i] < base then Get(index, query[i]) else NOT_FOUND
  }

  method CopyTile(index: array<int>, base: nat, tileLen: nat) returns (tile: array<int>)
    requires base + tileLen <= index.Length
    ensures fresh(tile) && tile[..] == index[base..base + tileLen]
  {
    tile := new int[tileLen];
    forall i | 0 <= i < tileLen {
      tile[i] := index[base + i];
    }
  }

  // The tile loop: each query is selected by the one tile it falls in.
  method TilePasses(index: array<int>, query: array<int>, out: array<int>, tileLen: nat)
    requires tileLen > 0 && index.Length % tileLen == 0
    requires out.Length == query.Length && out != query && out != index
    modifies out
    ensures Snapshot(index[..], query[..], out[..], index.Length)
  {
    Duplicate(out, NOT_FOUND);
    var base := 0;
    ghost var tiles, done := index.Length / tileLen, 0;
    while base < index.Length
      invariant base == done * tileLen && 0 <= done <= tiles
      invariant Snapshot(index[..], query[..], out[..], base)
      decreases tiles - done
    {
      TileFits(index.Length, tileLen, done);
      var tile := CopyTile(index, base, tileLen);
      ghost var before := out[..];
      SelectTile(query, tile, base, out);
      SnapshotGrows(index[..], query[..], before, out[..], base, tileLen);
      base := base + tileLen;
      done := done + 1;
    }
    TileFits(index.Length, tileLen, done);
  }

  // The tiles cover the index exactly because their length divides it.
  lemma TileFits(length: nat, tileLen: nat, done: nat)
    requires tileLen > 0 && length % tileLen == 0 && done <= length / tileLen
    ensures done * tileLen < length ==> (done + 1) * tileLen <= length && done < length / tileLen
    ensures done * tileLen >= length ==> done * tileLen == length
    ensures (done + 1) * tileLen == done * tileLen + tileLen
  {
    assert length == length / tileLen * tileLen;
    MulStrict(done, length / tileLen, tileLen);
  }

  lemma SnapshotGrows(index: seq<int>, query: seq<int>, before: seq<int>, after: seq<int>, base: nat, len: nat)
    requires Snapshot(index, query, before, base) && |after| == |query| && base + len <= |index|
    requires forall i | 0 <= i < |query| ::
               after[i] == if base <= query[i] < base + len then index[base..base + len][query[i] - base] else before[i]
    ensures Snapshot(index, query, after, base + len)
  {
  }

  // Allocation state after the first n queries: the reference state, the reported slots so far, and the
  // snapshot hits still waiting.
  ghost predicate Allocated(st: Row, q: seq<int>, now: Row, out: seq<int>, n: nat)
    requires n <= |q| && ValidQuery(st, q)
  {
    && now == LookupTo(st, q, n) && |out| == |q|
    && (forall i | 0 <= i < n :: out[i] == SlotOut(st, q)[i])
    && (forall i | n <= i < |q| :: out[i] == st.index[q[i]])
  }

  // A query whose snapshot entry is a hit still finds it; any other is resolved by the reference step.
  lemma AllocatedStep(st: Row, q: seq<int>, now: Row, out: seq<int>, n: nat, slot: int)
    requires ValidQuery(st, q) && n < |q| && Allocated(st, q, now, out, n)
    requires slot == Get(LookupOne(now, q[n]).index, q[n])
    ensures out[n] != NOT_FOUND ==> now.index[q[n]] == out[n] && slot == out[n]
    ensures Allocated(st, q, LookupOne(now, q[n]), out[n := slot], n + 1)
  {
    if out[n] != NOT_FOUND {
      MappedStays(st, q, 0, n, q[n]);
    }
  }

  // One trip around the scalar loop.
  method AllocateOne(r: Request, head: nat, indexId: nat, found: int) returns (newHead: nat, slot: int)
    requires r.Separate() && indexId < r.index.Length
    requires found != NOT_FOUND ==> r.index[indexId] == found
    requires found == NOT_FOUND && r.index[indexId] == NOT_FOUND ==>
               head < r.freeSlots.Length && 0 <= r.freeSlots[head] < r.slotToIndex.Length
    modifies r.index, r.slotToIndex
    ensures r.At(newHead) == LookupOne(old(r.At(head)), indexId)
    ensures slot == r.index[indexId]
  {
    newHead, slot := head, found;
    if slot == NOT_FOUND {
      slot := r.index[indexId];
      if slot == NOT_FOUND {
        slot := r.freeSlots[head];
        newHead := head + 1;
        r.index[indexId] := slot;
        r.slotToIndex[slot] := indexId;
      }
    }
  }

  // One query of the scalar loop, with its answer written back.
  method AllocateAt(r: Request, head: nat, query: array<int>, out: array<int>, i: nat, ghost st: Row)
    returns (newHead: nat)
    requires r.Separate() && r.Apart(query) && r.Apart(out) && query != out && i < query.Length == out.Length
    requires ValidQuery(st, query[..]) && FreeInRange(st) && NoOverrun(st, query[..])
    requires Allocated(st, query[..], r.At(head), out[..], i)
    modifies r.index, r.slotToIndex, out
    ensures Allocated(st, query[..], r.At(newHead), out[..], i + 1)
  {
    ghost var q, now, was := query[..], r.At(head), out[..];
    HeadGrows(st, q, 0, i);
    HeadGrows(st, q, i + 1, |q|);
    AllocatedStep(st, q, now, was, i, Get(LookupOne(now, q[i]).index, q[i]));
    var slot;
    newHead, slot := AllocateOne(r, head, query[i], out[i]);
    out[i] := slot;
    assert out[..] == was[i := slot];
  }

  // The scalar re-check loop after the tile passes.
  method AllocateMisses(r: Request, query: array<int>, out: array<int>)
    requires r.Separate() && r.Apart(query) && r.Apart(out) && query != out
    requires ValidQuery(r.Contents(), query[..]) && FreeInRange(r.Contents())
    requires NoOverrun(r.Contents(), query[..])
    requires Snapshot(r.index[..], query[..], out[..], r.index.Length)
    modifies r`freeHead, r.index, r.slotToIndex, out
    ensures r.Contents() == Lookup(old(r.Contents()), query[..])
    ensures out[..] == SlotOut(old(r.Contents()), query[..])
  {
    ghost var st, q := r.Contents(), query[..];
    var head := r.freeHead;
    for i := 0 to query.Length
      invariant query[..] == q && r.freeHead == st.head && head >= 0
      invariant Allocated(st, q, r.At(head), out[..], i)
    {
      head := AllocateAt(r, head, query, out, i, st);
    }
    r.freeHead := head;
  }

  // The whole lookup of one request equals the one-query-at-a-time reference.
  method LookupKernel(r: Request, query: array<int>, out: array<int>, tileLen: nat)
    requires r.Separate() && r.Apart(query) && r.Apart(out) && query != out && out.Length == query.Length
    requires tileLen > 0 && r.index.Length % tileLen == 0
    requires ValidQuery(r.Contents(), query[..]) && FreeInRange(r.Contents())
    requires NoOverrun(r.Contents(), query[..])
    modifies r`freeHead, r.index, r.slotToIndex, out
    ensures r.Contents() == Lookup(old(r.Contents()), query[..])
    ensures out[..] == SlotOut(old(r.Contents()), query[..])
  {
    TilePasses(r.index, query, out, tileLen);
    AllocateMisses(r, query, out);
  }
}
