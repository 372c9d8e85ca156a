/** The cyclic eviction scan of the maintain operation: its closed form, exactly when it ends, and why
    it always ends on rows whose mapped and free slots partition the pool. */
module HbmMaintain {
  import opened Compaction
  import opened Mappings
  import opened HbmIndex

  predicate Evictable(slotToIndex: seq<int>, prot: set<int>, slot: int) {
    Get(slotToIndex, slot) != NOT_FOUND && slot !in prot
  }

  // One trip around the scan loop, guarded by head > 0.
  function ScanStep(st: Row, prot: set<int>, slot: int): (r: Row)
    ensures SameShape(r, st)
  {
    if st.head > 0 && Evictable(st.slotToIndex, prot, slot) then
      Row(Put(st.index, Get(st.slotToIndex, slot), NOT_FOUND), Put(st.slotToIndex, slot, NOT_FOUND),
          Put(st.freeSlots, st.head - 1, slot), st.head - 1)
    else st
  }

  // The slot visited after n steps from start, wrapping at the end of the row.
  function Cursor(slots: nat, start: nat, n: nat): nat
    requires start < slots
  {
    (start + n) % slots
  }

  function ScanTo(st: Row, prot: set<int>, start: nat, n: nat): (r: Row)
    requires start < |st.slotToIndex|
    ensures SameShape(r, st)
  {
    if n == 0 then st
    else ScanStep(ScanTo(st, prot, start, n - 1), prot, Cursor(|st.slotToIndex|, start, n - 1))
  }

  // ---- one lap -----------------------------------------------------------------------------------

  lemma CursorNext(slots: nat, start: nat, n: nat)
    requires start < slots
    ensures Cursor(slots, start, 0) == start
    ensures var next := Cursor(slots, start, n) + 1;
            Cursor(slots, start, n + 1) == if next == slots then 0 else next
  {
    var q, r := (start + n) / slots, (start + n) % slots;
    if r + 1 == slots {
      assert start + n + 1 == (q + 1) * slots + 0;
      ModUnique(start + n + 1, q + 1, 0, slots);
    } else {
      ModUnique(start + n + 1, q, r + 1, slots);
    }
    ModUnique(start, 0, start, slots);
  }

  // Within one lap every slot is visited once.
  function Visit(slots: nat, start: nat, slot: nat): (o: nat)
    requires start < slots && slot < slots
    ensures o < slots
  {
    if slot >= start then slot - start else slot + slots - start
  }

  lemma VisitUnique(slots: nat, start: nat, slot: nat, o: nat)
    requires start < slots && slot < slots && o < slots
    ensures Cursor(slots, start, o) == slot <==> o == Visit(slots, start, slot)
  {
    if start + o < slots {
      ModUnique(start + o, 0, start + o, slots);
    } else {
      ModUnique(start + o, 1, start + o - slots, slots);
    }
  }

  // Which visits of the first lap find an evictable slot.
  function Flags(st: Row, prot: set<int>, start: nat): (f: seq<bool>)
    requires start < |st.slotToIndex|
    ensures |f| == |st.slotToIndex|
  {
    var slots := |st.slotToIndex|;
    seq(slots, o requires 0 <= o < slots => Evictable(st.slotToIndex, prot, Cursor(slots, start, o)))
  }

  function Lap(slots: nat, start: nat): (s: seq<int>)
    requires start < slots
    ensures |s| == slots
  {
    seq(slots, o requires 0 <= o < slots => Cursor(slots, start, o))
  }

  // Visit o takes its slot away when fewer than head slots were taken before it.
  predicate Taken(f: seq<bool>, head: nat, n: nat, o: nat)
    requires o < |f|
  {
    o < n && f[o] && Rank(f, o) < head
  }

  ghost predicate SlotAfter(st: Row, prot: set<int>, start: nat, n: nat, slot: nat)
    requires start < |st.slotToIndex| && slot < |st.slotToIndex|
  {
    ScanTo(st, prot, start, n).slotToIndex[slot] ==
      if Taken(Flags(st, prot, start), st.head, n, Visit(|st.slotToIndex|, start, slot)) then NOT_FOUND
      else st.slotToIndex[slot]
  }

  lemma {:induction false} ScanSlots(st: Row, prot: set<int>, start: nat, n: nat)
    requires start < |st.slotToIndex| && n <= |st.slotToIndex|
    ensures ScanTo(st, prot, start, n).head == st.head - Min(st.head, Rank(Flags(st, prot, start), n))
    ensures forall slot: nat | slot < |st.slotToIndex| :: SlotAfter(st, prot, start, n, slot)
  {
    if n > 0 {
      ScanSlots(st, prot, start, n - 1);
      var here := Cursor(|st.slotToIndex|, start, n - 1);
      VisitUnique(|st.slotToIndex|, start, here, n - 1);
      assert SlotAfter(st, prot, start, n - 1, here);
      forall slot: nat | slot < |st.slotToIndex|
        ensures SlotAfter(st, prot, start, n, slot)
      {
        VisitUnique(|st.slotToIndex|, start, slot, n - 1);
        assert SlotAfter(st, prot, start, n - 1, slot);
      }
    }
  }

  // The first n visits put their victims, first victim last, just below the old head.
  ghost predicate FreeAfter(st: Row, after: Row, victims: seq<int>, j: nat)
    requires j < |st.freeSlots| == |after.freeSlots|
  {
    after.freeSlots[j] ==
      if after.head <= j < st.head then Get(victims, st.head - 1 - j) else st.freeSlots[j]
  }

  // One visit, with or without a victim.
  lemma FreeStep(st: Row, prot: set<int>, before: Row, victims: seq<int>, here: int, taken: bool, j: nat)
    requires SameShape(before, st) && st.head <= |st.freeSlots| && j < |st.freeSlots|
    requires before.head == st.head - Min(st.head, |victims|) && FreeAfter(st, before, victims, j)
    requires before.head > 0 ==> (Evictable(before.slotToIndex, prot, here) <==> taken)
    ensures FreeAfter(st, ScanStep(before, prot, here), victims + (if taken then [here] else []), j)
  {
  }

  lemma {:induction false} ScanFreeList(st: Row, prot: set<int>, start: nat, n: nat)
    requires start < |st.slotToIndex| && n <= |st.slotToIndex| && st.head <= |st.freeSlots|
    ensures forall j: nat | j < |st.freeSlots| ::
              FreeAfter(st, ScanTo(st, prot, start, n),
                        CompactTo(Lap(|st.slotToIndex|, start), Flags(st, prot, start), n), j)
  {
    if n > 0 {
      ScanFreeList(st, prot, start, n - 1);
      ScanSlots(st, prot, start, n - 1);
      var slots, f := |st.slotToIndex|, Flags(st, prot, start);
      var before, here := ScanTo(st, prot, start, n - 1), Cursor(slots, start, n - 1);
      VisitUnique(slots, start, here, n - 1);
      assert SlotAfter(st, prot, start, n - 1, here);
      forall j: nat | j < |st.freeSlots|
        ensures FreeAfter(st, ScanTo(st, prot, start, n), CompactTo(Lap(slots, start), f, n), j)
      {
        FreeStep(st, prot, before, CompactTo(Lap(slots, start), f, n - 1), here, f[n - 1], j);
      }
    }
  }

  // ---- termination -------------------------------------------------------------------------------

  function EvictableSlots(st: Row, prot: set<int>): set<int> {
    set slot | slot in Below(|st.slotToIndex|) && Evictable(st.slotToIndex, prot, slot)
  }

  lemma VisitsCountSlots(st: Row, prot: set<int>, start: nat)
    requires start < |st.slotToIndex|
    ensures Rank(Flags(st, prot, start), |st.slotToIndex|) == |EvictableSlots(st, prot)|
  {
    var slots, f := |st.slotToIndex|, Flags(st, prot, start);
    var visits, found := FlagSet(f, slots), EvictableSlots(st, prot);
    RankIsCardinality(f, slots);
    var cursor := (o: int) => if o >= 0 then Cursor(slots, start, o) else 0;
    var visit := (slot: int) => if 0 <= slot < slots then Visit(slots, start, slot) else 0;
    forall slot | slot in found
      ensures visit(slot) in visits && cursor(visit(slot)) == slot
    {
      VisitUnique(slots, start, slot, Visit(slots, start, slot));
    }
    forall o | o in visits
      ensures cursor(o) in found && visit(cursor(o)) == o
    {
      VisitUnique(slots, start, Cursor(slots, start, o), o);
    }
    ImageNotLarger(visits, found, cursor);
    ImageNotLarger(found, visits, visit);
  }

  // After a full lap either head has reached 0 or nothing evictable is left: later steps do nothing.
  lemma LapIsEnough(st: Row, prot: set<int>, start: nat, slot: nat)
    requires start < |st.slotToIndex| && slot < |st.slotToIndex|
    ensures var lap := ScanTo(st, prot, start, |st.slotToIndex|);
            ScanStep(lap, prot, slot) == lap
  {
    var slots, f := |st.slotToIndex|, Flags(st, prot, start);
    ScanSlots(st, prot, start, slots);
    assert SlotAfter(st, prot, start, slots, slot);
    var o := Visit(slots, start, slot);
    VisitUnique(slots, start, slot, o);
    RankMonotone(f, o, slots);
  }

  lemma {:induction false} AfterTheLap(st: Row, prot: set<int>, start: nat, n: nat)
    requires start < |st.slotToIndex| <= n
    ensures ScanTo(st, prot, start, n) == ScanTo(st, prot, start, |st.slotToIndex|)
  {
    if n > |st.slotToIndex| {
      AfterTheLap(st, prot, start, n - 1);
      LapIsEnough(st, prot, start, Cursor(|st.slotToIndex|, start, n - 1));
    }
  }

  // The scan loop ends exactly when enough slots are evictable, and then within one lap.
  lemma FinishesExactly(st: Row, prot: set<int>, start: nat)
    requires start < |st.slotToIndex|
    ensures (exists n: nat :: ScanTo(st, prot, start, n).head == 0) <==> st.head <= |EvictableSlots(st, prot)|
    ensures st.head <= |EvictableSlots(st, prot)| <==> ScanTo(st, prot, start, |st.slotToIndex|).head == 0
  {
    var slots := |st.slotToIndex|;
    ScanSlots(st, prot, start, slots);
    VisitsCountSlots(st, prot, start);
    forall n: nat | ScanTo(st, prot, start, n).head == 0
      ensures ScanTo(st, prot, start, slots).head == 0
    {
      if n >= slots {
        AfterTheLap(st, prot, start, n);
      } else {
        ScanSlots(st, prot, start, n);
        RankMonotone(Flags(st, prot, start), n, slots);
      }
    }
  }

  // ---- the partition ------------------------------------------------------------------------------

  lemma StepClears(st: Row, prot: set<int>, slot: nat)
    requires Partition(st) && slot < |st.slotToIndex| && st.head > 0 && Evictable(st.slotToIndex, prot, slot)
    ensures InverseMaps(ScanStep(st, prot, slot).index, ScanStep(st, prot, slot).slotToIndex)
    ensures !IsFree(st, slot)
  {
  }

  lemma StepKeepsPartition(st: Row, prot: set<int>, slot: nat)
    requires Partition(st) && slot < |st.slotToIndex|
    ensures Partition(ScanStep(st, prot, slot))
  {
    if st.head > 0 && Evictable(st.slotToIndex, prot, slot) {
      StepClears(st, prot, slot);
      var r := ScanStep(st, prot, slot);
      assert forall k | st.head <= k < |st.freeSlots| :: r.freeSlots[k] == st.freeSlots[k];
      forall y
        ensures IsFree(r, y) <==> y == slot || IsFree(st, y)
      {
        if IsFree(st, y) {
          var k :| st.head <= k < |st.freeSlots| && st.freeSlots[k] == y;
          assert r.freeSlots[k] == y;
        }
        assert r.freeSlots[r.head] == slot;
      }
    }
  }

  lemma {:induction false} ScanKeepsPartition(st: Row, prot: set<int>, start: nat, n: nat)
    requires Partition(st) && start < |st.slotToIndex|
    ensures Partition(ScanTo(st, prot, start, n))
  {
    if n > 0 {
      ScanKeepsPartition(st, prot, start, n - 1);
      StepKeepsPartition(ScanTo(st, prot, start, n - 1), prot, Cursor(|st.slotToIndex|, start, n - 1));
    }
  }

  // A pool of at least free-list length plus protected slots always has head slots to give back.
  lemma EnoughEvictable(st: Row, prot: set<int>)
    requires Partition(st) && |st.freeSlots| + |prot| <= |st.slotToIndex|
    ensures st.head <= |EvictableSlots(st, prot)|
  {
    var suffix := FreeSet(st);
    FreeSetSize(st);
    var found := EvictableSlots(st, prot);
    forall slot | slot in Below(|st.slotToIndex|)
      ensures slot in found + prot + suffix
    {
      assert st.slotToIndex[slot] == NOT_FOUND <==> IsFree(st, slot);
    }
    SubsetNotLarger(Below(|st.slotToIndex|), found + prot + suffix);
  }

  ghost function FreeSet(st: Row): set<int> {
    set slot | slot in st.freeSlots && IsFree(st, slot)
  }

  lemma FreeSetSize(st: Row)
    requires FreeListOk(st)
    ensures |FreeSet(st)| <= |st.freeSlots| - st.head
  {
    var at := (k: int) => Get(st.freeSlots, st.head + k);
    forall slot | slot in FreeSet(st)
      ensures exists k | k in Below(|st.freeSlots| - st.head) :: at(k) == slot
    {
      var k :| st.head <= k < |st.freeSlots| && st.freeSlots[k] == slot;
      var d := k - st.head;
      assert d in Below(|st.freeSlots| - st.head);
      assert at(d) == Get(st.freeSlots, st.head + d);
    }
    ImageNotLarger(Below(|st.freeSlots| - st.head), FreeSet(st), at);
  }

  // ---- the whole operation -----------------------------------------------------------------------

  function Maintain(st: Row, prot: set<int>, start: nat): (r: Row)
    requires start < |st.slotToIndex|
    ensures SameShape(r, st)
  {
    ScanTo(st, prot, start, |st.slotToIndex|)
  }

  // The head first mapped unprotected slots met in cyclic order from start.
  function Victims(st: Row, prot: set<int>, start: nat): (v: seq<int>)
    requires start < |st.slotToIndex|
    ensures |v| <= st.head
  {
    var found := Compact(Lap(|st.slotToIndex|, start), Flags(st, prot, start));
    found[..Min(st.head, |found|)]
  }

  // How many steps after start the slot is met.
  function Distance(slots: nat, start: nat, slot: int): int {
    if slot >= start then slot - start else slot - start + slots
  }

  // The evictable slots met before this one.
  function MetBefore(st: Row, prot: set<int>, start: nat, slot: int): set<int> {
    set s | s in Below(|st.slotToIndex|) && Evictable(st.slotToIndex, prot, s)
            && Distance(|st.slotToIndex|, start, s) < Distance(|st.slotToIndex|, start, slot)
  }

  // The victims are the evictable slots with fewer than head evictable slots between start and them, nearest
  // first, going up and wrapping at the end of the row.
  lemma VictimsExactly(st: Row, prot: set<int>, start: nat, slot: nat)
    requires start < |st.slotToIndex| && slot < |st.slotToIndex|
    ensures slot in Victims(st, prot, start) <==>
            Evictable(st.slotToIndex, prot, slot) && |MetBefore(st, prot, start, slot)| < st.head
    ensures var v := Victims(st, prot, start);
            forall i, j | 0 <= i < j < |v| ::
              Distance(|st.slotToIndex|, start, v[i]) < Distance(|st.slotToIndex|, start, v[j])
  {
    var slots, f := |st.slotToIndex|, Flags(st, prot, start);
    var o := Visit(slots, start, slot);
    VisitUnique(slots, start, slot, o);
    TakenAreVictims(st, prot, start, slot);
    MetBeforeSize(st, prot, start, slot);
    var v := Victims(st, prot, start);
    forall i, j | 0 <= i < j < |v|
      ensures Distance(slots, start, v[i]) < Distance(slots, start, v[j])
    {
      VictimsOrdered(st, prot, start, i, j);
    }
  }

  // The flags set before a visit are the evictable slots met before its slot.
  lemma MetBeforeSize(st: Row, prot: set<int>, start: nat, slot: nat)
    requires start < |st.slotToIndex| && slot < |st.slotToIndex|
    ensures |MetBefore(st, prot, start, slot)| ==
            Rank(Flags(st, prot, start), Visit(|st.slotToIndex|, start, slot))
  {
    var slots, f, o := |st.slotToIndex|, Flags(st, prot, start), Visit(|st.slotToIndex|, start, slot);
    var visits, met := FlagSet(f, o), MetBefore(st, prot, start, slot);
    RankIsCardinality(f, o);
    var cursor := (x: int) => if x >= 0 then Cursor(slots, start, x) else 0;
    var visit := (s: int) => if 0 <= s < slots then Visit(slots, start, s) else 0;
    forall s | s in met
      ensures visit(s) in visits && cursor(visit(s)) == s
    {
      VisitUnique(slots, start, s, Visit(slots, start, s));
    }
    forall x | x in visits
      ensures cursor(x) in met && visit(cursor(x)) == x
    {
      VisitUnique(slots, start, Cursor(slots, start, x), x);
    }
    ImageNotLarger(visits, met, cursor);
    ImageNotLarger(met, visits, visit);
  }

  lemma VictimsOrdered(st: Row, prot: set<int>, start: nat, i: nat, j: nat)
    requires start < |st.slotToIndex| && i < j < |Victims(st, prot, start)|
    ensures var v := Victims(st, prot, start);
            Distance(|st.slotToIndex|, start, v[i]) < Distance(|st.slotToIndex|, start, v[j])
  {
    var slots, f := |st.slotToIndex|, Flags(st, prot, start);
    var lap, v := Lap(slots, start), Victims(st, prot, start);
    var x := CompactSource(lap, f, slots, i);
    var y := CompactSource(lap, f, slots, j);
    if y < x {
      RankMonotone(f, y, x);
    }
    VisitUnique(slots, start, v[i], x);
    VisitUnique(slots, start, v[j], y);
  }

  // Maintain empties exactly those slots and stacks them on the free list, first victim deepest.
  lemma MaintainExact(st: Row, prot: set<int>, start: nat)
    requires start < |st.slotToIndex| && st.head <= |EvictableSlots(st, prot)| && st.head <= |st.freeSlots|
    ensures var r, v := Maintain(st, prot, start), Victims(st, prot, start);
            && r.head == 0 && |v| == st.head
            && (forall k: nat | k < st.head :: r.freeSlots[st.head - 1 - k] == v[k])
            && r.freeSlots[st.head..] == st.freeSlots[st.head..]
            && (forall slot: nat | slot < |st.slotToIndex| ::
                  r.slotToIndex[slot] == if slot in v then NOT_FOUND else st.slotToIndex[slot])
  {
    var slots, f := |st.slotToIndex|, Flags(st, prot, start);
    FinishesExactly(st, prot, start);
    VisitsCountSlots(st, prot, start);
    ScanFreeList(st, prot, start, slots);
    ScanSlots(st, prot, start, slots);
    var r, v, found := Maintain(st, prot, start), Victims(st, prot, start), Compact(Lap(slots, start), f);
    forall k: nat | k < st.head
      ensures r.freeSlots[st.head - 1 - k] == v[k]
    {
      assert FreeAfter(st, r, found, st.head - 1 - k);
    }
    forall j: nat | st.head <= j < |st.freeSlots|
      ensures r.freeSlots[j] == st.freeSlots[j]
    {
      assert FreeAfter(st, r, found, j);
    }
    forall slot: nat | slot < slots
      ensures r.slotToIndex[slot] == if slot in v then NOT_FOUND else st.slotToIndex[slot]
    {
      assert SlotAfter(st, prot, start, slots, slot);
      TakenAreVictims(st, prot, start, slot);
    }
  }

  lemma {:induction false} ScanClearsOnly(st: Row, prot: set<int>, start: nat, n: nat, id: nat)
    requires start < |st.slotToIndex| && id < |st.index|
    ensures ScanTo(st, prot, start, n).index[id] in {NOT_FOUND, st.index[id]}
  {
    if n > 0 {
      ScanClearsOnly(st, prot, start, n - 1, id);
    }
  }

  // On partitioned rows the ids of those slots, and no others, are forgotten.
  lemma MaintainForgets(st: Row, prot: set<int>, start: nat, id: nat)
    requires Partition(st) && start < |st.slotToIndex| && st.head <= |EvictableSlots(st, prot)| && id < |st.index|
    ensures Maintain(st, prot, start).index[id] ==
            if st.index[id] in Victims(st, prot, start) then NOT_FOUND else st.index[id]
  {
    MaintainExact(st, prot, start);
    ScanKeepsPartition(st, prot, start, |st.slotToIndex|);
    ScanClearsOnly(st, prot, start, |st.slotToIndex|, id);
    var slot := st.index[id];
    if slot != NOT_FOUND {
      assert st.slotToIndex[slot] == id;
      assert Maintain(st, prot, start).slotToIndex[slot] ==
             if slot in Victims(st, prot, start) then NOT_FOUND else id;
    }
  }

  lemma TakenAreVictims(st: Row, prot: set<int>, start: nat, slot: nat)
    requires start < |st.slotToIndex| && slot < |st.slotToIndex|
    ensures Taken(Flags(st, prot, start), st.head, |st.slotToIndex|, Visit(|st.slotToIndex|, start, slot))
            <==> slot in Victims(st, prot, start)
  {
    var slots, f := |st.slotToIndex|, Flags(st, prot, start);
    var lap, o, v := Lap(slots, start), Visit(slots, start, slot), Victims(st, prot, start);
    VisitUnique(slots, start, slot, o);
    if Taken(f, st.head, slots, o) {
      CompactAt(lap, f, slots, o);
      assert v[Rank(f, o)] == slot;
    }
    if slot in v {
      var k :| 0 <= k < |v| && v[k] == slot;
      var i := CompactSource(lap, f, slots, k);
      VisitUnique(slots, start, slot, i);
    }
  }

  // A protected mapped slot, and the id it holds, survive the scan.
  lemma ProtectedStays(st: Row, prot: set<int>, start: nat, id: int)
    requires Partition(st) && start < |st.slotToIndex|
    requires 0 <= id < |st.index| && st.index[id] != NOT_FOUND && st.index[id] in prot
    ensures Maintain(st, prot, start).index[id] == st.index[id]
  {
    var slot := st.index[id];
    var slots := |st.slotToIndex|;
    ScanSlots(st, prot, start, slots);
    assert SlotAfter(st, prot, start, slots, slot);
    VisitUnique(slots, start, slot, Visit(slots, start, slot));
    ScanKeepsPartition(st, prot, start, slots);
    assert Maintain(st, prot, start).slotToIndex[slot] == id;
  }
}
