/** The AICPU / AICore eviction loop with its bitmap, and the two Python references, all against HbmIndex
    and HbmMaintain. */
module HbmKernels {
  import opened Mappings
  import opened HbmIndex
  import opened HbmMaintain
  import opened SlotBitmap

  function SlotSet(slots: seq<int>): set<int> {
    set slot | slot in slots
  }

  // What the memory accesses need: the ids held by slots, and the free slots, are in range.
  ghost predicate OwnersInRange(slotToIndex: seq<int>, count: nat) {
    forall s | 0 <= s < |slotToIndex| :: slotToIndex[s] == NOT_FOUND || 0 <= slotToIndex[s] < count
  }

  ghost predicate FreeInRange(st: Row) {
    forall k | st.head <= k < |st.freeSlots| :: 0 <= st.freeSlots[k] < |st.slotToIndex|
  }

  ghost predicate SlotsInRange(slots: seq<int>, count: nat) {
    forall i | 0 <= i < |slots| :: 0 <= slots[i] < count
  }

  lemma IdleScan(st: Row, prot: set<int>, start: nat, n: nat)
    requires start < |st.slotToIndex| && st.head == 0
    ensures ScanTo(st, prot, start, n) == st
  {
    if n > 0 {
      IdleScan(st, prot, start, n - 1);
    }
  }

  lemma LapNotOver(st: Row, prot: set<int>, start: nat, n: nat)
    requires start < |st.slotToIndex| && st.head <= |EvictableSlots(st, prot)| && n <= |st.slotToIndex|
    requires ScanTo(st, prot, start, n).head > 0
    ensures n < |st.slotToIndex|
  {
    FinishesExactly(st, prot, start);
  }

  lemma {:induction false} ScanStops(st: Row, prot: set<int>, start: nat, m: nat, n: nat)
    requires start < |st.slotToIndex| && m <= n && ScanTo(st, prot, start, m).head == 0
    ensures ScanTo(st, prot, start, n) == ScanTo(st, prot, start, m)
    decreases n
  {
    if m < n {
      ScanStops(st, prot, start, m, n - 1);
    }
  }

  // ++slot, back to 0 at the end of the row.
  method NextSlot(slot: nat, slots: nat, ghost start: nat, ghost n: nat) returns (next: nat)
    requires start < slots && slot == Cursor(slots, start, n)
    ensures next == Cursor(slots, start, n + 1)
  {
    CursorNext(slots, start, n);
    next := slot + 1;
    if next == slots {
      next := 0;
    }
  }

  // The device buffers of one request.
  class Request {
    const index: array<int>
    const slotToIndex: array<int>
    const freeSlots: array<int>
    var freeHead: nat

    constructor (index: array<int>, slotToIndex: array<int>, freeSlots: array<int>, freeHead: nat)
      ensures this.index == index && this.slotToIndex == slotToIndex && this.freeSlots == freeSlots
      ensures this.freeHead == freeHead
    {
      this.index, this.slotToIndex, this.freeSlots := index, slotToIndex, freeSlots;
      this.freeHead := freeHead;
    }

    ghost predicate Separate() {
      index != slotToIndex && index != freeSlots && slotToIndex != freeSlots
    }

    ghost predicate Apart(o: object) {
      o != index && o != slotToIndex && o != freeSlots
    }

    ghost function Contents(): Row
      reads this, index, slotToIndex, freeSlots
    {
      Row(index[..], slotToIndex[..], freeSlots[..], freeHead)
    }

    // The row with the loop's local head.
    ghost function At(head: nat): Row
      reads index, slotToIndex, freeSlots
    {
      Row(index[..], slotToIndex[..], freeSlots[..], head)
    }

    // Loop body: take the slot away if it is mapped and its bit is clear.
    method VisitSlot(slot: nat, head: nat, protectedSlots: array<bv64>, ghost prot: set<int>)
      returns (newHead: nat)
      requires Separate() && Apart(protectedSlots) && slot < slotToIndex.Length && 0 < head <= freeSlots.Length
      requires slotToIndex[slot] == NOT_FOUND || 0 <= slotToIndex[slot] < index.Length
      requires Represents(protectedSlots[..], slotToIndex.Length, prot)
      modifies index, slotToIndex, freeSlots
      ensures At(newHead) == ScanStep(old(At(head)), prot, slot) && newHead <= head
      ensures forall s | 0 <= s < slotToIndex.Length :: slotToIndex[s] in {NOT_FOUND, old(slotToIndex[s])}
    {
      newHead := head;
      var indexId := slotToIndex[slot];
      var isProtected := IsProtectedSlot(protectedSlots, slot, slotToIndex.Length, prot);
      if indexId != NOT_FOUND && !isProtected {
        slotToIndex[slot] := NOT_FOUND;
        index[indexId] := NOT_FOUND;
        newHead := head - 1;
        freeSlots[newHead] := slot;
        ghost var before := old(At(head));
        assert slotToIndex[..] == before.slotToIndex[slot := NOT_FOUND];
        assert index[..] == before.index[indexId := NOT_FOUND];
        assert freeSlots[..] == before.freeSlots[newHead := slot];
      }
    }

    // The scan loop from a given start, once the bitmap is built.
    method Scan(start: nat, head0: nat, protectedSlots: array<bv64>, ghost prot: set<int>)
      returns (head: nat)
      requires Separate() && Apart(protectedSlots) && start < slotToIndex.Length && head0 <= freeSlots.Length
      requires OwnersInRange(slotToIndex[..], index.Length)
      requires Represents(protectedSlots[..], slotToIndex.Length, prot)
      requires head0 <= |EvictableSlots(At(head0), prot)|
      modifies index, slotToIndex, freeSlots
      ensures At(head) == Maintain(old(At(head0)), prot, start)
    {
      ghost var st := At(head0);
      head := head0;
      var slot := start;
      ghost var n, words := 0, protectedSlots[..];
      CursorNext(slotToIndex.Length, start, 0);
      while head > 0
        invariant n <= slotToIndex.Length && slot == Cursor(slotToIndex.Length, start, n)
        invariant head <= head0 && At(head) == ScanTo(st, prot, start, n)
        invariant OwnersInRange(slotToIndex[..], index.Length)
        invariant protectedSlots[..] == words
        decreases slotToIndex.Length - n
      {
        LapNotOver(st, prot, start, n);
        head := VisitSlot(slot, head, protectedSlots, prot);
        slot := NextSlot(slot, slotToIndex.Length, start, n);
        n := n + 1;
      }
      ScanStops(st, prot, start, n, slotToIndex.Length);
    }

    // MaintainEviction for one request; hash is the value of Hash32(seed ^ reqId).
    method MaintainEviction(lastQuerySlots: array<int>, hash: nat)
      requires Separate() && slotToIndex.Length > 0 && freeHead <= freeSlots.Length
      requires Apart(lastQuerySlots)
      requires OwnersInRange(slotToIndex[..], index.Length)
      requires SlotsInRange(lastQuerySlots[..], slotToIndex.Length)
      requires freeHead <= |EvictableSlots(Contents(), SlotSet(lastQuerySlots[..]))|
      modifies this`freeHead, index, slotToIndex, freeSlots
      ensures Contents() ==
              Maintain(old(Contents()), SlotSet(lastQuerySlots[..]), hash % slotToIndex.Length)
    {
      ghost var prot := SlotSet(lastQuerySlots[..]);
      var start := hash % slotToIndex.Length;
      var head := freeHead;
      if head == 0 {
        IdleScan(Contents(), prot, start, slotToIndex.Length);
        return;
      }
      var protectedSlots := MarkAll(lastQuerySlots, slotToIndex.Length);
      head := Scan(start, head, protectedSlots, prot);
      freeHead := head;
    }
  }

  // The bitmap of the last query's slots.
  method MarkAll(lastQuerySlots: array<int>, slots: nat) returns (protectedSlots: array<bv64>)
    requires SlotsInRange(lastQuerySlots[..], slots)
    ensures fresh(protectedSlots) && Represents(protectedSlots[..], slots, SlotSet(lastQuerySlots[..]))
  {
    protectedSlots := new bv64[WordCount(slots)];
    ClearProtectedSlots(protectedSlots, slots);
    for i := 0 to lastQuerySlots.Length
      invariant Represents(protectedSlots[..], slots, SlotSet(lastQuerySlots[..i]))
    {
      assert lastQuerySlots[..i + 1] == lastQuerySlots[..i] + [lastQuerySlots[i]];
      assert SlotSet(lastQuerySlots[..i + 1]) == SlotSet(lastQuerySlots[..i]) + {lastQuerySlots[i]};
      MarkProtectedSlot(protectedSlots, lastQuerySlots[i], slots, SlotSet(lastQuerySlots[..i]));
    }
    assert lastQuerySlots[..lastQuerySlots.Length] == lastQuerySlots[..];
  }

  // expected_maintain for one request, on copies.
  method ExpectedMaintain(st: Row, lastQuerySlots: seq<int>, hash: nat) returns (r: Row)
    requires |st.slotToIndex| > 0 && st.head <= |st.freeSlots|
    requires OwnersInRange(st.slotToIndex, |st.index|)
    requires st.head <= |EvictableSlots(st, SlotSet(lastQuerySlots))|
    ensures r == Maintain(st, SlotSet(lastQuerySlots), hash % |st.slotToIndex|)
  {
    var protectedSlots := SlotSet(lastQuerySlots);
    var index, slotToIndex, freeSlots, head := st.index, st.slotToIndex, st.freeSlots, st.head;
    var start := hash % |slotToIndex|;
    var offset := 0;
    while head > 0
      invariant offset <= |st.slotToIndex| && 0 <= head <= st.head
      invariant Row(index, slotToIndex, freeSlots, head) == ScanTo(st, protectedSlots, start, offset)
      invariant OwnersInRange(slotToIndex, |index|)
      decreases |st.slotToIndex| - offset
    {
      LapNotOver(st, protectedSlots, start, offset);
      var slot := (start + offset) % |slotToIndex|;
      var indexId := slotToIndex[slot];
      if indexId != NOT_FOUND && slot !in protectedSlots {
        slotToIndex := slotToIndex[slot := NOT_FOUND];
        index := index[indexId := NOT_FOUND];
        head := head - 1;
        freeSlots := freeSlots[head := slot];
      }
      offset := offset + 1;
    }
    r := Row(index, slotToIndex, freeSlots, head);
    ScanStops(st, protectedSlots, start, offset, |slotToIndex|);
  }

  // expected_lookup_allocate for one request, on copies; reading past the free list is an IndexError.
  method ExpectedLookup(st: Row, query: seq<int>) returns (ok: bool, slotOut: seq<int>, r: Row)
    requires FreeInRange(st) && ValidQuery(st, query)
    ensures ok <==> NoOverrun(st, query)
    ensures ok <==> forall p: nat | p < |query| :: !Overruns(st, query, p)
    ensures ok ==> r == Lookup(st, query) && slotOut == SlotOut(st, query)
  {
    var index, slotToIndex, head := st.index, st.slotToIndex, st.head;
    slotOut, r := [], st;
    NoOverrunMeans(st, query);
    for pos := 0 to |query|
      invariant 0 <= head && Row(index, slotToIndex, st.freeSlots, head) == LookupTo(st, query, pos)
      invariant head == st.head || head <= |st.freeSlots|
      invariant |slotOut| == pos && forall p | 0 <= p < pos :: slotOut[p] == SlotOut(st, query)[p]
    {
      HeadGrows(st, query, 0, pos);
      HeadGrows(st, query, pos + 1, |query|);
      var indexId := query[pos];
      var slot := index[indexId];
      if slot == NOT_FOUND {
        if head >= |st.freeSlots| {
          return false, slotOut, r;
        }
        slot := st.freeSlots[head];
        head := head + 1;
        index := index[indexId := slot];
        slotToIndex := slotToIndex[slot := indexId];
      }
      slotOut := slotOut + [slot];
    }
    ok, r := true, Row(index, slotToIndex, st.freeSlots, head);
  }
}
