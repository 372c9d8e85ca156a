/** Alternating runs of lookup and maintain, the initial states of the reference, and the documented
    smoke call that starts outside the partition and never ends. */
module HbmRuns {
  import opened Compaction
  import opened Mappings
  import opened HbmIndex
  import opened HbmMaintain
  import opened HbmKernels

  datatype Call = Call(query: seq<int>, start: nat)

  // One lookup followed by one maintain that protects the slots just returned.
  function Round(st: Row, call: Call): (r: Row)
    requires call.start < |st.slotToIndex|
    ensures SameShape(r, st)
  {
    Maintain(Lookup(st, call.query), SlotSet(SlotOut(st, call.query)), call.start)
  }

  // Q queries at most, a free list of at least Q, and a pool larger than both together.
  ghost predicate Sized(st: Row, maxQueries: nat) {
    maxQueries <= |st.freeSlots| && |st.freeSlots| + maxQueries <= |st.slotToIndex|
  }

  ghost predicate ValidCall(st: Row, call: Call, maxQueries: nat) {
    |call.query| <= maxQueries && ValidQuery(st, call.query) && call.start < |st.slotToIndex|
  }

  ghost predicate IsRun(rows: seq<Row>, calls: seq<Call>, maxQueries: nat) {
    && |rows| == |calls| + 1
    && forall i | 0 <= i < |calls| ::
         ValidCall(rows[i], calls[i], maxQueries) && rows[i + 1] == Round(rows[i], calls[i])
  }

  lemma SlotSetSize(slots: seq<int>)
    ensures |SlotSet(slots)| <= |slots|
  {
    forall y | y in SlotSet(slots)
      ensures exists x | x in Below(|slots|) :: Get(slots, x) == y
    {
      var i :| 0 <= i < |slots| && slots[i] == y;
      assert i in Below(|slots|) && Get(slots, i) == y;
    }
    ImageNotLarger(Below(|slots|), SlotSet(slots), (i: int) => Get(slots, i));
  }

  lemma LookupFits(st: Row, call: Call, maxQueries: nat)
    requires Partition(st) && st.head == 0 && Sized(st, maxQueries) && ValidCall(st, call, maxQueries)
    ensures st.head + |MissingIds(st, call.query, |call.query|)| <= |st.freeSlots|
    ensures Partition(Lookup(st, call.query))
    ensures Lookup(st, call.query).head == |MissingIds(st, call.query, |call.query|)|
  {
    MissingAtMost(st, call.query, |call.query|);
    LookupKeeps(st, call.query, |call.query|);
  }

  // Maintain always finishes after a lookup: it never searches for slots that are not there.
  lemma MaintainFinishes(st: Row, call: Call, maxQueries: nat)
    requires Partition(st) && st.head == 0 && Sized(st, maxQueries) && ValidCall(st, call, maxQueries)
    ensures var mid := Lookup(st, call.query);
            mid.head <= |EvictableSlots(mid, SlotSet(SlotOut(st, call.query)))|
  {
    LookupFits(st, call, maxQueries);
    SlotSetSize(SlotOut(st, call.query));
    EnoughEvictable(Lookup(st, call.query), SlotSet(SlotOut(st, call.query)));
  }

  // Every id of the query sits in the slot the lookup reported for it.
  ghost predicate StillResident(before: Row, query: seq<int>, after: Row) {
    forall p: nat | p < |query| ::
      0 <= query[p] < |after.index| && after.index[query[p]] == SlotOut(before, query)[p] != NOT_FOUND
  }

  // A round restores head to 0, keeps the partition, and every id of its query is still resident in the
  // slot that was reported for it.
  lemma RoundKeeps(st: Row, call: Call, maxQueries: nat)
    requires Partition(st) && st.head == 0 && Sized(st, maxQueries) && ValidCall(st, call, maxQueries)
    ensures Partition(Round(st, call)) && Round(st, call).head == 0
    ensures StillResident(st, call.query, Round(st, call))
  {
    var mid, prot := Lookup(st, call.query), SlotSet(SlotOut(st, call.query));
    LookupFits(st, call, maxQueries);
    MaintainFinishes(st, call, maxQueries);
    FinishesExactly(mid, prot, call.start);
    ScanKeepsPartition(mid, prot, call.start, |mid.slotToIndex|);
    forall p: nat | p < |call.query|
      ensures Round(st, call).index[call.query[p]] == SlotOut(st, call.query)[p] != NOT_FOUND
    {
      SlotOutFinal(st, call.query, p);
      assert SlotOut(st, call.query)[p] in prot;
      ProtectedStays(mid, prot, call.start, call.query[p]);
    }
  }

  // Over every alternating run: the partition holds and head is 0 between rounds; inside a round head is
  // the number of distinct missing ids and never passes the free list; every queried id stays resident.
  lemma {:induction false} RunKeeps(rows: seq<Row>, calls: seq<Call>, maxQueries: nat, i: nat)
    requires IsRun(rows, calls, maxQueries) && i <= |calls|
    requires Partition(rows[0]) && rows[0].head == 0 && Sized(rows[0], maxQueries)
    ensures Partition(rows[i]) && rows[i].head == 0 && SameShape(rows[i], rows[0])
    ensures i < |calls| ==>
              var mid := Lookup(rows[i], calls[i].query);
              && Partition(mid)
              && mid.head == |MissingIds(rows[i], calls[i].query, |calls[i].query|)| <= |mid.freeSlots|
    ensures i > 0 ==> StillResident(rows[i - 1], calls[i - 1].query, rows[i])
  {
    if i > 0 {
      RunKeeps(rows, calls, maxQueries, i - 1);
      RoundKeeps(rows[i - 1], calls[i - 1], maxQueries);
    }
    if i < |calls| {
      LookupFits(rows[i], calls[i], maxQueries);
    }
  }

  // ---- initial states ----------------------------------------------------------------------------

  // make_index_case: residents 0..resident hold themselves, the rest of the pool is free.
  function IndexCase(ids: nat, slots: nat, resident: nat): (st: Row)
    requires resident <= slots
    ensures |st.index| == ids && |st.slotToIndex| == slots && |st.freeSlots| == slots - resident && st.head == 0
  {
    Row(seq(ids, x requires 0 <= x < ids => if x < resident then x else NOT_FOUND),
        seq(slots, x requires 0 <= x < slots => if x < resident then x else NOT_FOUND),
        seq(slots - resident, k requires 0 <= k < slots - resident => resident + k),
        0)
  }

  lemma IndexCasePartition(ids: nat, slots: nat, resident: nat)
    requires resident <= slots && resident <= ids
    ensures Partition(IndexCase(ids, slots, resident))
  {
    var st := IndexCase(ids, slots, resident);
    forall slot | 0 <= slot < slots
      ensures st.slotToIndex[slot] == NOT_FOUND <==> IsFree(st, slot)
    {
      if slot >= resident {
        assert st.freeSlots[slot - resident] == slot;
      }
    }
  }

  // make_maintain_case: evicted further ids missBase.. sit in the first evicted free slots.
  function MaintainCase(ids: nat, slots: nat, resident: nat, missBase: nat, evicted: nat): (st: Row)
    requires resident + evicted <= slots && resident <= missBase && missBase + evicted <= ids
    ensures |st.index| == ids && |st.slotToIndex| == slots && |st.freeSlots| == slots - resident
    ensures st.head == evicted
  {
    Row(seq(ids, x requires 0 <= x < ids =>
              if x < resident then x else if missBase <= x < missBase + evicted then resident + x - missBase
              else NOT_FOUND),
        seq(slots, x requires 0 <= x < slots =>
              if x < resident then x else if x < resident + evicted then missBase + x - resident else NOT_FOUND),
        seq(slots - resident, k requires 0 <= k < slots - resident => resident + k),
        evicted)
  }

  lemma MaintainCasePartition(ids: nat, slots: nat, resident: nat, missBase: nat, evicted: nat)
    requires resident + evicted <= slots && resident <= missBase && missBase + evicted <= ids
    ensures Partition(MaintainCase(ids, slots, resident, missBase, evicted))
  {
    var st := MaintainCase(ids, slots, resident, missBase, evicted);
    forall slot | 0 <= slot < slots
      ensures st.slotToIndex[slot] == NOT_FOUND <==> IsFree(st, slot)
    {
      if slot >= resident + evicted {
        assert st.freeSlots[slot - resident] == slot;
      }
    }
  }

  // What make_maintain_case builds is make_index_case after a lookup of the evicted ids.
  lemma {:induction false} MaintainCaseIsLookup(ids: nat, slots: nat, resident: nat, missBase: nat, evicted: nat, n: nat)
    requires resident + evicted <= slots && resident <= missBase && missBase + evicted <= ids && n <= evicted
    ensures LookupTo(IndexCase(ids, slots, resident), From(missBase, evicted), n) ==
            MaintainCase(ids, slots, resident, missBase, n)
  {
    var now := MaintainCase(ids, slots, resident, missBase, n);
    if n == 0 {
      var st := IndexCase(ids, slots, resident);
      assert now.index == st.index && now.slotToIndex == st.slotToIndex && now.freeSlots == st.freeSlots;
    } else {
      MaintainCaseIsLookup(ids, slots, resident, missBase, evicted, n - 1);
      var before := MaintainCase(ids, slots, resident, missBase, n - 1);
      var r := LookupOne(before, missBase + n - 1);
      assert r.index == now.index && r.slotToIndex == now.slotToIndex && r.freeSlots == now.freeSlots;
    }
  }

  function From(base: nat, n: nat): (q: seq<int>)
    ensures |q| == n && forall i | 0 <= i < n :: q[i] == base + i
  {
    seq(n, i requires 0 <= i < n => base + i)
  }

  // ---- the smoke call ----------------------------------------------------------------------------

  // All tables empty, free_slots = arange(F), query = arange(F), a pool larger than F.
  function SmokeRow(ids: nat, slots: nat, free: nat, done: nat): (st: Row)
    requires done <= free <= slots && free <= ids
    ensures |st.index| == ids && |st.slotToIndex| == slots && |st.freeSlots| == free && st.head == done
  {
    Row(seq(ids, x requires 0 <= x < ids => if x < done then x else NOT_FOUND),
        seq(slots, x requires 0 <= x < slots => if x < done then x else NOT_FOUND),
        seq(free, k requires 0 <= k < free => k),
        done)
  }

  lemma {:induction false} SmokeLookup(ids: nat, slots: nat, free: nat, n: nat)
    requires n <= free <= slots && free <= ids
    ensures LookupTo(SmokeRow(ids, slots, free, 0), Arange(free), n) == SmokeRow(ids, slots, free, n)
  {
    if n > 0 {
      SmokeLookup(ids, slots, free, n - 1);
      var st, next := SmokeRow(ids, slots, free, n - 1), SmokeRow(ids, slots, free, n);
      assert LookupOne(st, n - 1).index == next.index;
      assert LookupOne(st, n - 1).slotToIndex == next.slotToIndex;
    }
  }

  // After that lookup every mapped slot is protected, so the maintain loop never ends, whatever the start.
  lemma SmokeCallNeverEnds(ids: nat, slots: nat, free: nat, start: nat, n: nat)
    requires 0 < free <= slots && free <= ids && start < slots
    ensures var st := SmokeRow(ids, slots, free, 0);
            var mid := Lookup(st, Arange(free));
            && NoOverrun(st, Arange(free))
            && ScanTo(mid, SlotSet(SlotOut(st, Arange(free))), start, n).head == free > 0
  {
    var st, q := SmokeRow(ids, slots, free, 0), Arange(free);
    SmokeLookup(ids, slots, free, free);
    var mid, out := Lookup(st, q), SlotOut(st, q);
    forall slot | slot in Below(slots)
      ensures !Evictable(mid.slotToIndex, SlotSet(out), slot)
    {
      if slot < free {
        SmokeLookup(ids, slots, free, slot + 1);
        assert out[slot] == slot;
      }
    }
    NothingToTake(mid, SlotSet(out), start, n);
  }

  lemma {:induction false} NothingToTake(st: Row, prot: set<int>, start: nat, n: nat)
    requires start < |st.slotToIndex|
    requires forall slot | slot in Below(|st.slotToIndex|) :: !Evictable(st.slotToIndex, prot, slot)
    ensures ScanTo(st, prot, start, n) == st
  {
    if n > 0 {
      NothingToTake(st, prot, start, n - 1);
      assert Cursor(|st.slotToIndex|, start, n - 1) in Below(|st.slotToIndex|);
    }
  }
}
