/** Grid-stride loops: core c of B takes items c, c + B, c + 2B, ...; every item has exactly one core. */
module GridStride {
  import opened Compaction
  import opened Uint32

  // The items below next that belong to one core.
  function Mine(core: nat, blockNum: nat, next: nat): set<int>
    requires blockNum > 0
  {
    set r | r in Below(next) && r % blockNum == core
  }

  lemma NextMine(core: nat, blockNum: nat, item: nat)
    requires core < blockNum && item % blockNum == core
    ensures Mine(core, blockNum, item + blockNum) == Mine(core, blockNum, item) + {item}
    ensures (item + blockNum) % blockNum == core
  {
    StrideStep(item, blockNum);
    forall r: int
      ensures r in Mine(core, blockNum, item + blockNum) <==> r in Mine(core, blockNum, item) + {item}
    {
      if item <= r < item + blockNum && r % blockNum == core {
        StrideGap(item, r, blockNum);
      }
    }
  }

  lemma NoneMine(core: nat, blockNum: nat)
    requires core < blockNum
    ensures Mine(core, blockNum, core) == {} && core % blockNum == core
  {
    ModUnique(core, 0, core, blockNum);
    forall r | r in Mine(core, blockNum, core)
      ensures false
    {
      ModUnique(r, 0, r, blockNum);
    }
  }

  lemma MineBelow(core: nat, blockNum: nat, m: nat, n: nat, r: int)
    requires blockNum > 0 && m <= n && r < m
    ensures r in Mine(core, blockNum, m) <==> r in Mine(core, blockNum, n)
  {
  }

  method NextOwn(item: nat, ghost core: nat, blockNum: nat) returns (next: nat)
    requires core < blockNum && item % blockNum == core && item + blockNum < LIMIT
    ensures next == item + blockNum && next % blockNum == core
  {
    StrideStep(item, blockNum);
    next := U32(item + blockNum);
  }

  // The items of the first i cores of an order.
  function Owned(order: seq<nat>, i: nat, blockNum: nat, count: nat): set<int>
    requires i <= |order| && blockNum > 0
  {
    if i == 0 then {} else Owned(order, i - 1, blockNum, count) + Mine(order[i - 1], blockNum, count)
  }

  lemma {:induction false} OwnedMember(order: seq<nat>, i: nat, blockNum: nat, count: nat, r: int)
    requires i <= |order| && blockNum > 0
    ensures r in Owned(order, i, blockNum, count) <==>
            0 <= r < count && exists j | 0 <= j < i :: order[j] == r % blockNum
  {
    if i > 0 {
      OwnedMember(order, i - 1, blockNum, count, r);
    }
  }

  lemma NotYetOwned(order: seq<nat>, i: nat, blockNum: nat, count: nat)
    requires i < |order| && blockNum > 0 && Distinct(order)
    ensures Owned(order, i, blockNum, count) !! Mine(order[i], blockNum, count)
  {
    forall r | r in Owned(order, i, blockNum, count)
      ensures r !in Mine(order[i], blockNum, count)
    {
      OwnedMember(order, i, blockNum, count, r);
    }
  }

  // The launch order names every core of the grid once.
  ghost predicate EveryCore(order: seq<nat>, blockNum: nat) {
    Distinct(order) && forall c: nat :: c < blockNum <==> c in order
  }

  lemma AllOwned(order: seq<nat>, blockNum: nat, count: nat)
    requires blockNum > 0 && EveryCore(order, blockNum)
    ensures Owned(order, |order|, blockNum, count) == Below(count)
  {
    forall r: int
      ensures r in Owned(order, |order|, blockNum, count) <==> r in Below(count)
    {
      OwnedMember(order, |order|, blockNum, count, r);
      if 0 <= r < count {
        var c: nat := r % blockNum;
        assert c in order;
      }
    }
  }

  // ---- logs ----------------------------------------------------------------------------------------

  // A log of items handled: each item of the set once, and no other.
  ghost predicate OnceEach(log: seq<int>, items: set<int>) {
    Distinct(log) && forall r: int :: r in log <==> r in items
  }

  lemma LogOne(log: seq<int>, items: set<int>, r: int)
    requires OnceEach(log, items) && r !in items
    ensures OnceEach(log + [r], items + {r})
  {
  }

  lemma LogAll(log: seq<int>, items: set<int>, more: seq<int>, others: set<int>)
    requires OnceEach(log, items) && OnceEach(more, others) && items !! others
    ensures OnceEach(log + more, items + others)
  {
    forall i, j | 0 <= i < j < |log + more|
      ensures (log + more)[i] != (log + more)[j]
    {
      if i < |log| <= j {
        assert log[i] in log && more[j - |log|] in more;
      }
    }
  }

  // A core past the last item has handled all of its own.
  lemma LogEnough(log: seq<int>, core: nat, blockNum: nat, count: nat, m: nat)
    requires blockNum > 0 && count <= m && OnceEach(log, Mine(core, blockNum, m))
    requires forall i | 0 <= i < |log| :: log[i] < count
    ensures OnceEach(log, Mine(core, blockNum, count))
  {
  }
}
