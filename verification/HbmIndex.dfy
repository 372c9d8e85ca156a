/** The lookup / maintain protocol over index, slot_to_index, free_slots and free_head
    (asu_hbm_index_common.py): step functions, the partition invariant, and what each operation does. */
module HbmIndex {
  import opened Mappings

  // One request row. Slots freeSlots[head..] are free.
  datatype Row = Row(index: seq<int>, slotToIndex: seq<int>, freeSlots: seq<int>, head: nat)

  ghost predicate SameShape(a: Row, b: Row) {
    && |a.index| == |b.index| && |a.slotToIndex| == |b.slotToIndex| && |a.freeSlots| == |b.freeSlots|
  }

  ghost predicate IsFree(st: Row, slot: int) {
    exists k | st.head <= k < |st.freeSlots| :: st.freeSlots[k] == slot
  }

  ghost predicate FreeListOk(st: Row) {
    && st.head <= |st.freeSlots|
    && (forall k | st.head <= k < |st.freeSlots| :: 0 <= st.freeSlots[k] < |st.slotToIndex|)
    && (forall i, j | st.head <= i < j < |st.freeSlots| :: st.freeSlots[i] != st.freeSlots[j])
  }

  // Mapped slots and freeSlots[head..] partition all slots, and the two maps are mutually inverse.
  ghost predicate Partition(st: Row) {
    && InverseMaps(st.index, st.slotToIndex)
    && FreeListOk(st)
    && (forall slot | 0 <= slot < |st.slotToIndex| :: st.slotToIndex[slot] == NOT_FOUND <==> IsFree(st, slot))
  }

  // ---- lookup ----------------------------------------------------------------------------------

  // One query of the reference: a missing id takes the next free slot.
  function LookupOne(st: Row, id: int): (r: Row)
    ensures SameShape(r, st) && r.freeSlots == st.freeSlots
  {
    if Get(st.index, id) == NOT_FOUND then
      var slot := Get(st.freeSlots, st.head);
      Row(Put(st.index, id, slot), Put(st.slotToIndex, slot, id), st.freeSlots, st.head + 1)
    else st
  }

  function LookupTo(st: Row, q: seq<int>, n: nat): (r: Row)
    requires n <= |q|
    ensures SameShape(r, st) && r.freeSlots == st.freeSlots
  {
    if n == 0 then st else LookupOne(LookupTo(st, q, n - 1), q[n - 1])
  }

  function Lookup(st: Row, q: seq<int>): Row {
    LookupTo(st, q, |q|)
  }

  // No miss reads past the end of the free list.
  predicate NoOverrun(st: Row, q: seq<int>) {
    Lookup(st, q).head <= |st.freeSlots| || Lookup(st, q).head == st.head
  }

  // The slot reported for position p at the time it is processed.
  function SlotOut(st: Row, q: seq<int>): (r: seq<int>)
    ensures |r| == |q|
  {
    seq(|q|, p requires 0 <= p < |q| => Get(LookupTo(st, q, p + 1).index, q[p]))
  }

  predicate ValidQuery(st: Row, q: seq<int>) {
    forall p | 0 <= p < |q| :: 0 <= q[p] < |st.index|
  }

  // The distinct ids among the first n queries that were not mapped before the batch.
  function MissingIds(st: Row, q: seq<int>, n: nat): set<int>
    requires n <= |q|
  {
    if n == 0 then {}
    else if Get(st.index, q[n - 1]) == NOT_FOUND then MissingIds(st, q, n - 1) + {q[n - 1]}
    else MissingIds(st, q, n - 1)
  }

  lemma {:induction false} MissingMembers(st: Row, q: seq<int>, n: nat, id: int)
    requires n <= |q|
    ensures id in MissingIds(st, q, n) <==>
            Get(st.index, id) == NOT_FOUND && exists p | 0 <= p < n :: q[p] == id
  {
    if n > 0 {
      MissingMembers(st, q, n - 1, id);
    }
  }

  lemma {:induction false} MissingAtMost(st: Row, q: seq<int>, n: nat)
    requires n <= |q|
    ensures |MissingIds(st, q, n)| <= n
  {
    if n > 0 {
      MissingAtMost(st, q, n - 1);
    }
  }

  lemma MissingGrows(st: Row, q: seq<int>, n: nat)
    requires n < |q|
    ensures |MissingIds(st, q, n + 1)| ==
            |MissingIds(st, q, n)| +
            if Get(st.index, q[n]) == NOT_FOUND && q[n] !in MissingIds(st, q, n) then 1 else 0
  {
    if q[n] in MissingIds(st, q, n) {
      assert MissingIds(st, q, n) + {q[n]} == MissingIds(st, q, n);
    }
  }

  lemma {:induction false} MissingMonotone(st: Row, q: seq<int>, m: nat, n: nat)
    requires m <= n <= |q|
    ensures |MissingIds(st, q, m)| <= |MissingIds(st, q, n)|
    decreases n
  {
    if m < n {
      MissingMonotone(st, q, m, n - 1);
      MissingGrows(st, q, n - 1);
    }
  }

  lemma LookupOneInverse(st: Row, id: int)
    requires Partition(st) && 0 <= id < |st.index| && st.index[id] == NOT_FOUND && st.head < |st.freeSlots|
    ensures InverseMaps(LookupOne(st, id).index, LookupOne(st, id).slotToIndex)
    ensures st.slotToIndex[st.freeSlots[st.head]] == NOT_FOUND
  {
    assert IsFree(st, st.freeSlots[st.head]);
  }

  lemma LookupOnePartition(st: Row, id: int)
    requires Partition(st) && 0 <= id < |st.index|
    requires st.index[id] == NOT_FOUND ==> st.head < |st.freeSlots|
    ensures Partition(LookupOne(st, id))
    ensures Get(LookupOne(st, id).index, id) != NOT_FOUND
    ensures forall x | 0 <= x < |st.index| && x != id :: LookupOne(st, id).index[x] == st.index[x]
  {
    if st.index[id] == NOT_FOUND {
      LookupOneInverse(st, id);
      var slot := st.freeSlots[st.head];
      var r := LookupOne(st, id);
      forall y
        ensures IsFree(st, y) <==> y == slot || IsFree(r, y)
      {
        if IsFree(st, y) && y != slot {
          var k :| st.head <= k < |st.freeSlots| && st.freeSlots[k] == y;
        }
      }
      assert !IsFree(r, slot);
    }
  }

  // Ids mapped before keep their slot; the missing ids, and only they, get one.
  ghost predicate MapsExactly(before: Row, after: Row, missing: set<int>) {
    forall x | 0 <= x < |before.index| ::
      if Get(before.index, x) != NOT_FOUND then Get(after.index, x) == Get(before.index, x)
      else Get(after.index, x) == NOT_FOUND <==> x !in missing
  }

  // Processing n queries keeps the partition, grows head by the number of distinct missing ids, and
  // never moves an id that is already mapped.
  lemma {:induction false} LookupKeeps(st: Row, q: seq<int>, n: nat)
    requires Partition(st) && ValidQuery(st, q) && n <= |q|
    requires st.head + |MissingIds(st, q, n)| <= |st.freeSlots|
    ensures Partition(LookupTo(st, q, n))
    ensures LookupTo(st, q, n).head == st.head + |MissingIds(st, q, n)|
    ensures MapsExactly(st, LookupTo(st, q, n), MissingIds(st, q, n))
  {
    if n > 0 {
      MissingGrows(st, q, n - 1);
      LookupKeeps(st, q, n - 1);
      LookupStepKeeps(st, LookupTo(st, q, n - 1), MissingIds(st, q, n - 1), q[n - 1]);
    }
  }

  lemma LookupStepKeeps(st: Row, now: Row, missing: set<int>, id: int)
    requires Partition(now) && SameShape(now, st) && 0 <= id < |st.index|
    requires MapsExactly(st, now, missing)
    requires Get(st.index, id) == NOT_FOUND && id !in missing ==> now.head < |now.freeSlots|
    ensures Partition(LookupOne(now, id))
    ensures LookupOne(now, id).head ==
            now.head + if Get(st.index, id) == NOT_FOUND && id !in missing then 1 else 0
    ensures MapsExactly(st, LookupOne(now, id),
                        if Get(st.index, id) == NOT_FOUND then missing + {id} else missing)
  {
    assert Get(now.index, id) == NOT_FOUND <==> Get(st.index, id) == NOT_FOUND && id !in missing;
    LookupOnePartition(now, id);
  }

  lemma {:induction false} MappedStays(st: Row, q: seq<int>, m: nat, n: nat, id: int)
    requires m <= n <= |q| && 0 <= id < |st.index|
    requires Get(LookupTo(st, q, m).index, id) != NOT_FOUND
    ensures Get(LookupTo(st, q, n).index, id) == Get(LookupTo(st, q, m).index, id)
    decreases n
  {
    if m < n {
      MappedStays(st, q, m, n - 1, id);
    }
  }

  // The reported slots are the final slots: every queried id is mapped and reported where it ends up.
  lemma SlotOutFinal(st: Row, q: seq<int>, p: nat)
    requires Partition(st) && ValidQuery(st, q) && p < |q|
    requires st.head + |MissingIds(st, q, |q|)| <= |st.freeSlots|
    ensures var r := Lookup(st, q);
            && SlotOut(st, q)[p] == r.index[q[p]]
            && 0 <= SlotOut(st, q)[p] < |r.slotToIndex| && r.slotToIndex[SlotOut(st, q)[p]] == q[p]
  {
    QueriedIsMapped(st, q, p);
    MappedStays(st, q, p + 1, |q|, q[p]);
    LookupKeeps(st, q, |q|);
  }

  lemma QueryMapsExactly(st: Row, q: seq<int>, p: nat)
    requires Partition(st) && ValidQuery(st, q) && p < |q|
    requires st.head + |MissingIds(st, q, |q|)| <= |st.freeSlots|
    ensures MapsExactly(st, LookupTo(st, q, p + 1), MissingIds(st, q, p + 1))
  {
    MissingMonotone(st, q, p + 1, |q|);
    LookupKeeps(st, q, p + 1);
  }

  lemma QueriedIsMapped(st: Row, q: seq<int>, p: nat)
    requires Partition(st) && ValidQuery(st, q) && p < |q|
    requires st.head + |MissingIds(st, q, |q|)| <= |st.freeSlots|
    ensures Get(LookupTo(st, q, p + 1).index, q[p]) != NOT_FOUND
  {
    QueryMapsExactly(st, q, p);
    MappedExactly(st, LookupTo(st, q, p + 1), MissingIds(st, q, p + 1), q[p]);
  }

  lemma MappedExactly(before: Row, after: Row, missing: set<int>, id: int)
    requires MapsExactly(before, after, missing) && 0 <= id < |before.index|
    requires Get(before.index, id) == NOT_FOUND ==> id in missing
    ensures Get(after.index, id) != NOT_FOUND
  {
  }

  // Exactly when the free list suffices: distinct missing ids, not queries, are what counts.
  lemma FreeListSuffices(st: Row, q: seq<int>)
    requires Partition(st) && ValidQuery(st, q)
    ensures Lookup(st, q).head <= |st.freeSlots| <==> st.head + |MissingIds(st, q, |q|)| <= |st.freeSlots|
  {
    if st.head + |MissingIds(st, q, |q|)| <= |st.freeSlots| {
      LookupKeeps(st, q, |q|);
    } else {
      Exhausted(st, q, |q|);
    }
  }

  // On partitioned rows no miss overruns the free list exactly when the distinct missing ids fit it.
  lemma NoOverrunExactly(st: Row, q: seq<int>)
    requires Partition(st) && ValidQuery(st, q)
    ensures NoOverrun(st, q) <==> st.head + |MissingIds(st, q, |q|)| <= |st.freeSlots|
  {
    FreeListSuffices(st, q);
  }

  // Query p misses when its turn comes and finds the free list used up.
  ghost predicate Overruns(st: Row, q: seq<int>, p: nat)
    requires p < |q|
  {
    Get(LookupTo(st, q, p).index, q[p]) == NOT_FOUND && LookupTo(st, q, p).head >= |st.freeSlots|
  }

  // On every row: exactly when no query does.
  lemma NoOverrunMeans(st: Row, q: seq<int>)
    ensures NoOverrun(st, q) <==> forall p: nat | p < |q| :: !Overruns(st, q, p)
  {
    if forall p: nat | p < |q| :: !Overruns(st, q, p) {
      OverrunFrom(st, q, |q|);
    }
    forall p: nat | p < |q| && Overruns(st, q, p)
      ensures !NoOverrun(st, q)
    {
      HeadGrows(st, q, 0, p);
      HeadGrows(st, q, p + 1, |q|);
    }
  }

  lemma {:induction false} OverrunFrom(st: Row, q: seq<int>, n: nat)
    requires n <= |q| && forall p: nat | p < n :: !Overruns(st, q, p)
    ensures LookupTo(st, q, n).head == st.head || LookupTo(st, q, n).head <= |st.freeSlots|
  {
    if n > 0 {
      OverrunFrom(st, q, n - 1);
      assert !Overruns(st, q, n - 1);
    }
  }

  lemma {:induction false} HeadGrows(st: Row, q: seq<int>, m: nat, n: nat)
    requires m <= n <= |q|
    ensures LookupTo(st, q, m).head <= LookupTo(st, q, n).head
    decreases n
  {
    if m < n {
      HeadGrows(st, q, m, n - 1);
    }
  }

  lemma {:induction false} Exhausted(st: Row, q: seq<int>, n: nat)
    requires Partition(st) && ValidQuery(st, q) && n <= |q|
    requires st.head + |MissingIds(st, q, n)| > |st.freeSlots|
    ensures Lookup(st, q).head > |st.freeSlots|
  {
    if n > 0 {
      MissingGrows(st, q, n - 1);
      if st.head + |MissingIds(st, q, n - 1)| > |st.freeSlots| {
        Exhausted(st, q, n - 1);
      } else {
        FirstOverrun(st, q, n);
        HeadGrows(st, q, n, |q|);
      }
    }
  }

  lemma FirstOverrun(st: Row, q: seq<int>, n: nat)
    requires Partition(st) && ValidQuery(st, q) && 0 < n <= |q|
    requires st.head + |MissingIds(st, q, n - 1)| <= |st.freeSlots| < st.head + |MissingIds(st, q, n)|
    ensures LookupTo(st, q, n).head > |st.freeSlots|
  {
    MissingGrows(st, q, n - 1);
    LookupKeeps(st, q, n - 1);
    assert Get(LookupTo(st, q, n - 1).index, q[n - 1]) == NOT_FOUND;
  }
}
