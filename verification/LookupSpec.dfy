/** Sequential specification of one lookup / allocate / evict batch (lookup_lru_reference.py),
    parametrised by the position that represents each duplicated missing token. */
module LookupSpec {
  import opened Compaction
  import opened Mappings

  const CLAIMING := -2

  // The two mappings and the slot order from least to most recently used.
  datatype Tables = Tables(tokenToSlot: seq<int>, slotToToken: seq<int>, lru: seq<int>)

  predicate InRange(st: Tables, token: int) {
    0 <= token < |st.tokenToSlot|
  }

  predicate IsPermutation(xs: seq<int>) {
    && (forall i | 0 <= i < |xs| :: 0 <= xs[i] < |xs|)
    && Distinct(xs)
  }

  ghost predicate Inverse(st: Tables) {
    InverseMaps(st.tokenToSlot, st.slotToToken)
  }

  // The state every batch starts from and leaves behind.
  ghost predicate Consistent(st: Tables) {
    && |st.lru| == |st.slotToToken|
    && IsPermutation(st.lru)
    && Inverse(st)
  }

  predicate Missing(st: Tables, token: int) {
    InRange(st, token) && st.tokenToSlot[token] == NOT_FOUND
  }

  predicate Resident(st: Tables, token: int) {
    InRange(st, token) && st.tokenToSlot[token] >= 0
  }

  function HitSlots(st: Tables, q: seq<int>): set<int> {
    set p | 0 <= p < |q| && Resident(st, q[p]) :: st.tokenToSlot[q[p]]
  }

  // Flags over LRU positions: the slot there was hit / may be evicted.
  function HitAt(st: Tables, q: seq<int>): (f: seq<bool>)
    ensures |f| == |st.lru|
  {
    var hit := HitSlots(st, q);
    seq(|st.lru|, i requires 0 <= i < |st.lru| => st.lru[i] in hit)
  }

  function EvictAt(st: Tables, q: seq<int>): (f: seq<bool>)
    ensures |f| == |st.lru|
  {
    var hit := HitSlots(st, q);
    seq(|st.lru|, i requires 0 <= i < |st.lru| => st.lru[i] !in hit)
  }

  function Hits(st: Tables, q: seq<int>): seq<int> {
    Compact(st.lru, HitAt(st, q))
  }

  function Evictable(st: Tables, q: seq<int>): seq<int> {
    Compact(st.lru, EvictAt(st, q))
  }

  // w picks exactly one position of every distinct missing token, and nothing else.
  ghost predicate IsChoice(st: Tables, q: seq<int>, w: seq<bool>) {
    && |w| == |q|
    && (forall p | 0 <= p < |q| && w[p] :: Missing(st, q[p]))
    && (forall p, r | 0 <= p < r < |q| && w[p] && w[r] :: q[p] != q[r])
    && (forall p | 0 <= p < |q| && Missing(st, q[p]) :: Chosen(q, w, q[p]))
  }

  ghost predicate Chosen(q: seq<int>, w: seq<bool>, token: int)
    requires |w| == |q|
  {
    exists p | 0 <= p < |q| :: w[p] && q[p] == token
  }

  // The reference picks the first occurrence.
  predicate IsFirst(st: Tables, q: seq<int>, p: nat)
    requires p < |q|
  {
    Missing(st, q[p]) && forall r | 0 <= r < p :: q[r] != q[p]
  }

  function FirstChoice(st: Tables, q: seq<int>): (w: seq<bool>)
    ensures |w| == |q|
  {
    seq(|q|, p requires 0 <= p < |q| => IsFirst(st, q, p))
  }

  datatype Mapping = Mapping(tokenToSlot: seq<int>, slotToToken: seq<int>)

  // Install one missing token in one victim slot.
  function InstallOne(m: Mapping, token: int, victim: int): Mapping {
    var oldToken := Get(m.slotToToken, victim);
    Mapping(
      Put(Put(m.tokenToSlot, oldToken, NOT_FOUND), token, victim),
      Put(m.slotToToken, victim, token))
  }

  // The n-th chosen miss, in query order, takes the n-th evictable slot.
  function InstallTo(st: Tables, tokens: seq<int>, victims: seq<int>, n: nat): (m: Mapping)
    requires n <= |tokens| && n <= |victims|
    ensures |m.tokenToSlot| == |st.tokenToSlot| && |m.slotToToken| == |st.slotToToken|
  {
    if n == 0 then Mapping(st.tokenToSlot, st.slotToToken)
    else InstallOne(InstallTo(st, tokens, victims, n - 1), tokens[n - 1], victims[n - 1])
  }

  datatype Outcome = Outcome(tables: Tables, slotIds: seq<int>, missMask: seq<bool>)

  function SlotIdsOf(t2s: seq<int>, q: seq<int>): (r: seq<int>)
    ensures |r| == |q|
  {
    seq(|q|, p requires 0 <= p < |q| => if 0 <= q[p] < |t2s| then t2s[q[p]] else NOT_FOUND)
  }

  // The whole batch for a given choice of representatives.
  function Batch(st: Tables, q: seq<int>, w: seq<bool>): Outcome
    requires |w| == |q| && Rank(w, |w|) <= |Evictable(st, q)|
  {
    var misses := Compact(q, w);
    var victims := Evictable(st, q);
    var m := InstallTo(st, misses, victims, |misses|);
    var lru := victims[|misses|..] + victims[..|misses|] + Hits(st, q);
    Outcome(Tables(m.tokenToSlot, m.slotToToken, lru), SlotIdsOf(m.tokenToSlot, q), w)
  }

  // ---- counting: there are always enough evictable slots -------------------------------------

  lemma HitOrEvict(st: Tables, q: seq<int>)
    ensures |Hits(st, q)| + |Evictable(st, q)| == |st.lru|
  {
    RankComplement(HitAt(st, q), EvictAt(st, q), |st.lru|);
  }

  // Each hit slot is named by a query that is not a representative of a miss.
  lemma EnoughVictims(st: Tables, q: seq<int>, w: seq<bool>)
    requires Consistent(st) && IsChoice(st, q, w)
    ensures Rank(w, |w|) + |Hits(st, q)| <= |q|
    ensures |q| <= |st.lru| ==> Rank(w, |w|) <= |Evictable(st, q)|
  {
    HitOrEvict(st, q);
    var rest := seq(|w|, p requires 0 <= p < |w| => !w[p]);
    RankComplement(w, rest, |w|);
    RankIsCardinality(rest, |w|);
    var hits := Hits(st, q);
    CompactDistinct(st.lru, HitAt(st, q));
    DistinctCount(hits);
    var image := set x | x in hits;
    var domain := FlagSet(rest, |w|);
    var f := (p: int) => if 0 <= p < |q| then Get(st.tokenToSlot, q[p]) else 0;
    forall y | y in image
      ensures exists p | p in domain :: f(p) == y
    {
      var k :| 0 <= k < |hits| && hits[k] == y;
      var i := CompactSource(st.lru, HitAt(st, q), |st.lru|, k);
      var p :| 0 <= p < |q| && Resident(st, q[p]) && st.tokenToSlot[q[p]] == y;
      assert p in domain && f(p) == y;
    }
    ImageNotLarger(domain, image, f);
  }

  // ---- what the sequential installation computes ----------------------------------------------

  // Distinct slots of the table.
  ghost predicate GoodVictims(st: Tables, victims: seq<int>) {
    && Distinct(victims)
    && (forall k | 0 <= k < |victims| :: 0 <= victims[k] < |st.slotToToken|)
  }

  lemma EvictableIsGood(st: Tables, q: seq<int>)
    requires Consistent(st)
    ensures GoodVictims(st, Evictable(st, q))
    ensures forall k | 0 <= k < |Evictable(st, q)| :: Evictable(st, q)[k] !in HitSlots(st, q)
  {
    CompactDistinct(st.lru, EvictAt(st, q));
    forall k | 0 <= k < |Evictable(st, q)|
      ensures 0 <= Evictable(st, q)[k] < |st.slotToToken| && Evictable(st, q)[k] !in HitSlots(st, q)
    {
      var i := CompactSource(st.lru, EvictAt(st, q), |st.lru|, k);
    }
  }

  // Slots given away by the representatives of rank below n.
  ghost predicate IsVictim(victims: seq<int>, n: nat, slot: int) {
    exists k | 0 <= k < n :: k < |victims| && victims[k] == slot
  }

  ghost predicate Picked(q: seq<int>, w: seq<bool>, n: nat, token: int)
    requires |w| == |q|
  {
    exists p | 0 <= p < |q| :: w[p] && Rank(w, p) < n && q[p] == token
  }

  // The tables after the representatives of rank below n have been installed, cell by cell.
  ghost predicate Installed(st: Tables, q: seq<int>, w: seq<bool>, victims: seq<int>, n: nat, m: Mapping)
    requires |w| == |q| && n <= |victims|
  {
    && |m.tokenToSlot| == |st.tokenToSlot| && |m.slotToToken| == |st.slotToToken|
    && (forall p | 0 <= p < |q| && w[p] && Rank(w, p) < n ::
          && Get(m.tokenToSlot, q[p]) == victims[Rank(w, p)]
          && Get(m.slotToToken, victims[Rank(w, p)]) == q[p])
    && (forall token | 0 <= token < |m.tokenToSlot| && !Picked(q, w, n, token) ::
          m.tokenToSlot[token] ==
          if IsVictim(victims, n, st.tokenToSlot[token]) then NOT_FOUND else st.tokenToSlot[token])
    && (forall slot | 0 <= slot < |m.slotToToken| && !IsVictim(victims, n, slot) ::
          m.slotToToken[slot] == st.slotToToken[slot])
  }

  lemma {:induction false} InstallToInstalled(st: Tables, q: seq<int>, w: seq<bool>, victims: seq<int>, n: nat)
    requires Consistent(st) && IsChoice(st, q, w) && GoodVictims(st, victims)
    requires n <= Rank(w, |w|) <= |victims|
    ensures Installed(st, q, w, victims, n, InstallTo(st, Compact(q, w), victims, n))
  {
    if n > 0 {
      InstallToInstalled(st, q, w, victims, n - 1);
      InstalledStep(st, q, w, victims, n, InstallTo(st, Compact(q, w), victims, n - 1));
    }
  }

  lemma InstalledStep(st: Tables, q: seq<int>, w: seq<bool>, victims: seq<int>, n: nat, m: Mapping)
    requires Consistent(st) && IsChoice(st, q, w) && GoodVictims(st, victims)
    requires 0 < n <= Rank(w, |w|) <= |victims|
    requires Installed(st, q, w, victims, n - 1, m)
    ensures Installed(st, q, w, victims, n, InstallOne(m, Compact(q, w)[n - 1], victims[n - 1]))
  {
    var p0 := CompactSource(q, w, |q|, n - 1);
    var victim := victims[n - 1];
    assert !IsVictim(victims, n - 1, victim);
    assert m.slotToToken[victim] == st.slotToToken[victim];
    InstalledAfter(st, q, w, victims, n, m, p0, InstallOne(m, q[p0], victim));
  }

  lemma InstalledAfter(st: Tables, q: seq<int>, w: seq<bool>, victims: seq<int>, n: nat, m: Mapping, p0: nat,
                       after: Mapping)
    requires Consistent(st) && IsChoice(st, q, w) && GoodVictims(st, victims)
    requires 0 < n <= Rank(w, |w|) <= |victims|
    requires Installed(st, q, w, victims, n - 1, m)
    requires p0 < |q| && w[p0] && Rank(w, p0) == n - 1
    requires m.slotToToken[victims[n - 1]] == st.slotToToken[victims[n - 1]]
    requires after == InstallOne(m, q[p0], victims[n - 1])
    ensures Installed(st, q, w, victims, n, after)
  {
    forall p | 0 <= p < |q| && w[p] && Rank(w, p) < n
      ensures Get(after.tokenToSlot, q[p]) == victims[Rank(w, p)]
      ensures Get(after.slotToToken, victims[Rank(w, p)]) == q[p]
    {
      InstalledStepPicked(st, q, w, victims, n, m, p0, p);
    }
    forall t | 0 <= t < |m.tokenToSlot| && !Picked(q, w, n, t)
      ensures after.tokenToSlot[t] ==
              if IsVictim(victims, n, st.tokenToSlot[t]) then NOT_FOUND else st.tokenToSlot[t]
    {
      InstalledStepToken(st, q, w, victims, n, m, p0, t);
    }
    forall slot | 0 <= slot < |m.slotToToken| && !IsVictim(victims, n, slot)
      ensures after.slotToToken[slot] == st.slotToToken[slot]
    {
      assert !IsVictim(victims, n - 1, slot);
      assert slot != victims[n - 1];
    }
  }

  lemma InstalledStepPicked(st: Tables, q: seq<int>, w: seq<bool>, victims: seq<int>, n: nat, m: Mapping, p0: nat,
                            p: nat)
    requires Consistent(st) && IsChoice(st, q, w) && GoodVictims(st, victims)
    requires 0 < n <= |victims| && Installed(st, q, w, victims, n - 1, m)
    requires p0 < |q| && w[p0] && Rank(w, p0) == n - 1
    requires m.slotToToken[victims[n - 1]] == st.slotToToken[victims[n - 1]]
    requires p < |q| && w[p] && Rank(w, p) < n
    ensures Get(InstallOne(m, q[p0], victims[n - 1]).tokenToSlot, q[p]) == victims[Rank(w, p)]
    ensures Get(InstallOne(m, q[p0], victims[n - 1]).slotToToken, victims[Rank(w, p)]) == q[p]
  {
    var oldToken := st.slotToToken[victims[n - 1]];
    if Rank(w, p) == n - 1 {
      RankInjective(w, p, p0);
    } else {
      assert q[p] != q[p0] && q[p] != oldToken;
      assert victims[Rank(w, p)] != victims[n - 1];
    }
  }

  lemma InstalledStepToken(st: Tables, q: seq<int>, w: seq<bool>, victims: seq<int>, n: nat, m: Mapping, p0: nat,
                           t: nat)
    requires Consistent(st) && IsChoice(st, q, w) && GoodVictims(st, victims)
    requires 0 < n <= |victims| && Installed(st, q, w, victims, n - 1, m)
    requires p0 < |q| && w[p0] && Rank(w, p0) == n - 1
    requires m.slotToToken[victims[n - 1]] == st.slotToToken[victims[n - 1]]
    requires t < |m.tokenToSlot| && !Picked(q, w, n, t)
    ensures InstallOne(m, q[p0], victims[n - 1]).tokenToSlot[t] ==
            if IsVictim(victims, n, st.tokenToSlot[t]) then NOT_FOUND else st.tokenToSlot[t]
  {
    assert !Picked(q, w, n - 1, t) && t != q[p0];
    if t == st.slotToToken[victims[n - 1]] {
      assert IsVictim(victims, n, victims[n - 1]);
    } else if st.tokenToSlot[t] == victims[n - 1] {
      assert false;
    } else {
      assert IsVictim(victims, n, st.tokenToSlot[t]) == IsVictim(victims, n - 1, st.tokenToSlot[t]);
    }
  }

  // The cell-by-cell description leaves no freedom.
  lemma InstalledUnique(st: Tables, q: seq<int>, w: seq<bool>, victims: seq<int>, a: Mapping, b: Mapping)
    requires |w| == |q| && Rank(w, |w|) <= |victims|
    requires Installed(st, q, w, victims, Rank(w, |w|), a) && Installed(st, q, w, victims, Rank(w, |w|), b)
    ensures a == b
  {
    var n := Rank(w, |w|);
    forall slot | 0 <= slot < |a.slotToToken|
      ensures a.slotToToken[slot] == b.slotToToken[slot]
    {
      if IsVictim(victims, n, slot) {
        var k :| 0 <= k < n && victims[k] == slot;
        var p := CompactSource(q, w, |q|, k);
        assert Get(a.slotToToken, victims[Rank(w, p)]) == Get(b.slotToToken, victims[Rank(w, p)]);
      }
    }
    forall token | 0 <= token < |a.tokenToSlot|
      ensures a.tokenToSlot[token] == b.tokenToSlot[token]
    {
      if Picked(q, w, n, token) {
        var p :| 0 <= p < |q| && w[p] && Rank(w, p) < n && q[p] == token;
        assert Get(a.tokenToSlot, q[p]) == Get(b.tokenToSlot, q[p]);
      }
    }
    assert a.tokenToSlot == b.tokenToSlot;
    assert a.slotToToken == b.slotToToken;
  }

  // ---- the reference: the first occurrence represents a duplicated miss -------------------------

  // What the sequential reference returns and leaves behind.
  ghost function Reference(st: Tables, q: seq<int>): Outcome
    requires Consistent(st) && |q| <= |st.slotToToken|
  {
    FirstIsChoice(st, q);
    EnoughVictims(st, q, FirstChoice(st, q));
    Batch(st, q, FirstChoice(st, q))
  }

  // A missing token has a first occurrence.
  lemma FirstOccurrence(q: seq<int>, x: nat) returns (f: nat)
    requires x < |q|
    ensures f <= x && q[f] == q[x] && forall r | 0 <= r < f :: q[r] != q[f]
  {
    f := 0;
    while q[f] != q[x]
      invariant f <= x && forall r | 0 <= r < f :: q[r] != q[x]
      decreases x - f
    {
      f := f + 1;
    }
  }

  lemma FirstIsChoice(st: Tables, q: seq<int>)
    ensures IsChoice(st, q, FirstChoice(st, q))
  {
    forall p | 0 <= p < |q| && Missing(st, q[p])
      ensures Chosen(q, FirstChoice(st, q), q[p])
    {
      var f := FirstOccurrence(q, p);
      assert FirstChoice(st, q)[f];
    }
  }
}
