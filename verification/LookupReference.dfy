/** lookup_allocate_evict: the imperative reference, proved to compute the sequential batch on every state
    it accepts, together with what a batch guarantees. */
module LookupReference {
  import opened Compaction
  import opened Mappings
  import opened LookupSpec

  datatype LookupError =
    | LruLength | NotPermutation | SlotOutsideTable | InvalidSlot | TooManyMisses | TokenOutOfRange

  datatype LookupResult =
    | Success(slotIds: seq<int>, missMask: seq<bool>)
    | Failure(error: LookupError)

  predicate SlotsInTable(st: Tables, q: seq<int>, n: nat)
    requires n <= |q|
  {
    forall p | 0 <= p < n && InRange(st, q[p]) :: NOT_FOUND <= st.tokenToSlot[q[p]] < |st.slotToToken|
  }

  // The k-th victim holds no token beyond the token table when its turn comes.
  ghost predicate OldTokenInRange(st: Tables, tokens: seq<int>, victims: seq<int>, k: nat)
    requires k < |tokens| <= |victims|
  {
    Get(InstallTo(st, tokens, victims, k).slotToToken, victims[k]) < |st.tokenToSlot|
  }

  ghost predicate OldTokensInRange(st: Tables, tokens: seq<int>, victims: seq<int>)
    requires |tokens| <= |victims|
  {
    forall k: nat | k < |tokens| :: OldTokenInRange(st, tokens, victims, k)
  }

  // The installation stops at the k-th victim, the first whose old token is beyond the token table.
  ghost predicate StopsAt(st: Tables, tokens: seq<int>, victims: seq<int>, k: nat)
    requires |tokens| <= |victims|
  {
    k < |tokens| && (forall j: nat | j < k :: OldTokenInRange(st, tokens, victims, j))
    && !OldTokenInRange(st, tokens, victims, k)
  }

  // Position pos is the first query whose mapping is neither a slot nor NOT_FOUND, and this is its error.
  ghost predicate OffendsFirst(st: Tables, q: seq<int>, pos: nat, error: LookupError) {
    && pos < |q| && SlotsInTable(st, q, pos) && InRange(st, q[pos])
    && var slot := st.tokenToSlot[q[pos]];
       (slot >= |st.slotToToken| && error == SlotOutsideTable) || (slot < NOT_FOUND && error == InvalidSlot)
  }

  // The inputs on which the reference raises no error.
  ghost predicate Accepts(st: Tables, q: seq<int>) {
    && |st.lru| == |st.slotToToken| && IsPermutation(st.lru)
    && SlotsInTable(st, q, |q|)
    && Rank(FirstChoice(st, q), |q|) <= |Evictable(st, q)|
    && OldTokensInRange(st, Compact(q, FirstChoice(st, q)), Evictable(st, q))
  }

  class LookupState {
    var tokenToSlot: seq<int>
    var slotToToken: seq<int>
    var lru: seq<int>

    constructor (t2s: seq<int>, s2t: seq<int>, order: seq<int>)
      ensures View() == Tables(t2s, s2t, order)
    {
      tokenToSlot, slotToToken, lru := t2s, s2t, order;
    }

    function View(): Tables
      reads this
    {
      Tables(tokenToSlot, slotToToken, lru)
    }

    method LookupAllocateEvict(q: seq<int>) returns (r: LookupResult)
      modifies this
      ensures r.Success? <==> Accepts(old(View()), q)
      ensures r.Success? ==>
                Rank(FirstChoice(old(View()), q), |q|) <= |Evictable(old(View()), q)|
                && Outcome(View(), r.slotIds, r.missMask) == Batch(old(View()), q, FirstChoice(old(View()), q))
      ensures r.Failure? && r.error != TokenOutOfRange ==> View() == old(View())
      ensures r.Failure? && r.error in {SlotOutsideTable, InvalidSlot} <==>
                |old(lru)| == |old(slotToToken)| && IsPermutation(old(lru)) && !SlotsInTable(old(View()), q, |q|)
      ensures r.Failure? && r.error in {SlotOutsideTable, InvalidSlot} ==>
                exists pos :: OffendsFirst(old(View()), q, pos, r.error)
      ensures r == Failure(TokenOutOfRange) ==>
                var tokens, victims := Compact(q, FirstChoice(old(View()), q)), Evictable(old(View()), q);
                && |tokens| <= |victims| && lru == old(lru)
                && exists k :: StopsAt(old(View()), tokens, victims, k)
                               && Mapping(tokenToSlot, slotToToken) == InstallTo(old(View()), tokens, victims, k)
      ensures r == Failure(LruLength) <==> |old(lru)| != |old(slotToToken)|
      ensures r == Failure(NotPermutation) <==> |old(lru)| == |old(slotToToken)| && !IsPermutation(old(lru))
      ensures r == Failure(TooManyMisses) <==>
                && |old(lru)| == |old(slotToToken)| && IsPermutation(old(lru)) && SlotsInTable(old(View()), q, |q|)
                && Rank(FirstChoice(old(View()), q), |q|) > |Evictable(old(View()), q)|
    {
      if |lru| != |slotToToken| {
        return Failure(LruLength);
      }
      if !IsPermutation(lru) {
        return Failure(NotPermutation);
      }
      var scan, missMask, hitSlotSet, uniqueMisses := Classify(q);
      if scan.Bad? {
        return Failure(scan.error);
      }
      var hitSlots, evictableSlots := PartitionOrder(hitSlotSet, q);
      if |uniqueMisses| > |evictableSlots| {
        return Failure(TooManyMisses);
      }
      MissesInTable(View(), q);
      VictimsInTable(View(), q);
      var installed := Install(uniqueMisses, evictableSlots);
      if !installed {
        return Failure(TokenOutOfRange);
      }
      var slotIds := Answers(q);
      var missCount := |uniqueMisses|;
      lru := evictableSlots[missCount..] + evictableSlots[..missCount] + hitSlots;
      return Success(slotIds, missMask);
    }

    // First pass: classify every query against the state before the batch.
    method Classify(q: seq<int>)
      returns (scan: Scan, missMask: seq<bool>, hitSlotSet: set<int>, uniqueMisses: seq<int>)
      ensures scan.Good? <==> SlotsInTable(View(), q, |q|)
      ensures scan.Bad? ==> scan.error in {SlotOutsideTable, InvalidSlot}
                            && exists pos :: OffendsFirst(View(), q, pos, scan.error)
      ensures scan.Good? ==>
                && missMask == FirstChoice(View(), q) && uniqueMisses == Compact(q, missMask)
                && hitSlotSet == HitSlots(View(), q)
    {
      ghost var st := View();
      ghost var first := FirstChoice(st, q);
      missMask, hitSlotSet, uniqueMisses := [], {}, [];
      var pending: set<int> := {};
      for pos := 0 to |q|
        invariant SlotsInTable(st, q, pos)
        invariant missMask == first[..pos]
        invariant hitSlotSet == HitSlots(st, q[..pos])
        invariant uniqueMisses == CompactTo(q, first, pos)
        invariant pending == PendingAt(st, q, pos)
      {
        var token := q[pos];
        HitSlotsExtend(st, q, pos);
        var isMiss := false;
        if 0 <= token < |tokenToSlot| {
          var slot := tokenToSlot[token];
          if slot >= 0 {
            if slot >= |slotToToken| {
              scan := Bad(SlotOutsideTable);
              assert OffendsFirst(st, q, pos, scan.error);
              return;
            }
            hitSlotSet := hitSlotSet + {slot};
          } else if slot == NOT_FOUND && token !in pending {
            pending := pending + {token};
            uniqueMisses := uniqueMisses + [token];
            isMiss := true;
          } else if slot != NOT_FOUND {
            scan := Bad(InvalidSlot);
            assert OffendsFirst(st, q, pos, scan.error);
            return;
          }
        }
        missMask := missMask + [isMiss];
      }
      assert q[..|q|] == q;
      scan := Good;
    }

    // Second pass: the stable partition of the order list.
    method PartitionOrder(hitSlotSet: set<int>, ghost q: seq<int>)
      returns (hitSlots: seq<int>, evictableSlots: seq<int>)
      requires hitSlotSet == HitSlots(View(), q)
      ensures hitSlots == Hits(View(), q) && evictableSlots == Evictable(View(), q)
    {
      hitSlots, evictableSlots := [], [];
      for i := 0 to |lru|
        invariant hitSlots == CompactTo(lru, HitAt(View(), q), i)
        invariant evictableSlots == CompactTo(lru, EvictAt(View(), q), i)
      {
        if lru[i] in hitSlotSet {
          hitSlots := hitSlots + [lru[i]];
        } else {
          evictableSlots := evictableSlots + [lru[i]];
        }
      }
    }

    // Third pass: the n-th unique miss takes the n-th evictable slot.
    method Install(misses: seq<int>, victims: seq<int>) returns (ok: bool)
      requires |misses| <= |victims|
      requires forall k | 0 <= k < |misses| :: 0 <= misses[k] < |tokenToSlot|
      requires forall k | 0 <= k < |victims| :: 0 <= victims[k] < |slotToToken|
      modifies this`tokenToSlot, this`slotToToken
      ensures ok <==> OldTokensInRange(old(View()), misses, victims)
      ensures ok ==> Mapping(tokenToSlot, slotToToken) == InstallTo(old(View()), misses, victims, |misses|)
      ensures !ok ==> exists k :: StopsAt(old(View()), misses, victims, k)
                                  && Mapping(tokenToSlot, slotToToken) == InstallTo(old(View()), misses, victims, k)
    {
      ghost var st := View();
      for rank := 0 to |misses|
        invariant Mapping(tokenToSlot, slotToToken) == InstallTo(st, misses, victims, rank)
        invariant forall k: nat | k < rank :: OldTokenInRange(st, misses, victims, k)
      {
        ok := InstallMiss(misses[rank], victims[rank]);
        if !ok {
          assert StopsAt(st, misses, victims, rank);
          return;
        }
      }
      return true;
    }

    method InstallMiss(token: int, victim: int) returns (ok: bool)
      requires 0 <= token < |tokenToSlot| && 0 <= victim < |slotToToken|
      modifies this`tokenToSlot, this`slotToToken
      ensures ok <==> old(slotToToken[victim]) < |old(tokenToSlot)|
      ensures ok ==> Mapping(tokenToSlot, slotToToken)
                     == InstallOne(Mapping(old(tokenToSlot), old(slotToToken)), token, victim)
      ensures !ok ==> tokenToSlot == old(tokenToSlot) && slotToToken == old(slotToToken)
    {
      var victimToken := slotToToken[victim];
      if victimToken >= 0 {
        if victimToken >= |tokenToSlot| {
          return false;
        }
        tokenToSlot := tokenToSlot[victimToken := NOT_FOUND];
      }
      slotToToken := slotToToken[victim := token];
      tokenToSlot := tokenToSlot[token := victim];
      return true;
    }

    // Fourth pass: every valid query is answered from the updated mapping.
    method Answers(q: seq<int>) returns (slotIds: seq<int>)
      ensures slotIds == SlotIdsOf(tokenToSlot, q)
    {
      slotIds := seq(|q|, _ => NOT_FOUND);
      for pos := 0 to |q|
        invariant |slotIds| == |q|
        invariant forall p | 0 <= p < pos :: slotIds[p] == SlotIdsOf(tokenToSlot, q)[p]
        invariant forall p | pos <= p < |q| :: slotIds[p] == NOT_FOUND
      {
        if 0 <= q[pos] < |tokenToSlot| {
          slotIds := slotIds[pos := tokenToSlot[q[pos]]];
        }
      }
    }
  }

  datatype Scan = Good | Bad(error: LookupError)

  function PendingAt(st: Tables, q: seq<int>, n: nat): set<int>
    requires n <= |q|
  {
    set p | 0 <= p < n && Missing(st, q[p]) :: q[p]
  }

  lemma HitSlotsExtend(st: Tables, q: seq<int>, n: nat)
    requires n < |q|
    ensures HitSlots(st, q[..n + 1]) ==
            HitSlots(st, q[..n]) + (if Resident(st, q[n]) then {st.tokenToSlot[q[n]]} else {})
  {
    var a, b := q[..n], q[..n + 1];
    forall slot | slot in HitSlots(st, b)
      ensures slot in HitSlots(st, a) + (if Resident(st, q[n]) then {st.tokenToSlot[q[n]]} else {})
    {
      var p :| 0 <= p < |b| && Resident(st, b[p]) && st.tokenToSlot[b[p]] == slot;
      if p < n {
        assert a[p] == b[p];
      }
    }
    forall slot | slot in HitSlots(st, a)
      ensures slot in HitSlots(st, b)
    {
      var p :| 0 <= p < |a| && Resident(st, a[p]) && st.tokenToSlot[a[p]] == slot;
      assert b[p] == a[p];
    }
    if Resident(st, q[n]) {
      assert b[n] == q[n];
    }
  }

  lemma VictimsInTable(st: Tables, q: seq<int>)
    requires |st.lru| == |st.slotToToken| && IsPermutation(st.lru)
    ensures forall k | 0 <= k < |Evictable(st, q)| :: 0 <= Evictable(st, q)[k] < |st.slotToToken|
  {
    forall k | 0 <= k < |Evictable(st, q)|
      ensures 0 <= Evictable(st, q)[k] < |st.slotToToken|
    {
      var i := CompactSource(st.lru, EvictAt(st, q), |st.lru|, k);
    }
  }

  lemma MissesInTable(st: Tables, q: seq<int>)
    ensures var misses := Compact(q, FirstChoice(st, q));
            forall k | 0 <= k < |misses| :: InRange(st, misses[k])
  {
    var misses := Compact(q, FirstChoice(st, q));
    forall k | 0 <= k < |misses|
      ensures InRange(st, misses[k])
    {
      var p := CompactSource(q, FirstChoice(st, q), |q|, k);
    }
  }

  // ---- what a batch guarantees -----------------------------------------------------------------

  // The error branches are unreachable from a consistent state when there are enough slots.
  lemma ConsistentAccepted(st: Tables, q: seq<int>)
    requires Consistent(st) && |q| <= |st.slotToToken|
    ensures Accepts(st, q)
  {
    var w := FirstChoice(st, q);
    FirstIsChoice(st, q);
    EnoughVictims(st, q, w);
    EvictableIsGood(st, q);
    forall k: nat | k < Rank(w, |q|)
      ensures OldTokenInRange(st, Compact(q, w), Evictable(st, q), k)
    {
      InstallToInstalled(st, q, w, Evictable(st, q), k);
      assert !IsVictim(Evictable(st, q), k, Evictable(st, q)[k]);
    }
  }

  ghost predicate ValidBatch(st: Tables, q: seq<int>, w: seq<bool>) {
    Consistent(st) && IsChoice(st, q, w) && |q| <= |st.slotToToken|
  }

  function BatchOf(st: Tables, q: seq<int>, w: seq<bool>): Outcome
    requires ValidBatch(st, q, w)
  {
    EnoughVictims(st, q, w);
    Batch(st, q, w)
  }

  lemma BatchInstalled(st: Tables, q: seq<int>, w: seq<bool>)
    requires ValidBatch(st, q, w)
    ensures var o := BatchOf(st, q, w);
            && GoodVictims(st, Evictable(st, q)) && Rank(w, |w|) <= |Evictable(st, q)|
            && (forall k | 0 <= k < |Evictable(st, q)| :: Evictable(st, q)[k] !in HitSlots(st, q))
            && Installed(st, q, w, Evictable(st, q), Rank(w, |w|),
                         Mapping(o.tables.tokenToSlot, o.tables.slotToToken))
  {
    EnoughVictims(st, q, w);
    EvictableIsGood(st, q);
    InstallToInstalled(st, q, w, Evictable(st, q), Rank(w, |w|));
  }

  // A queried token ends up resident, staying where it was if it was resident; a token that was not
  // queried keeps its slot unless that slot was given away.
  lemma TokenAfter(st: Tables, q: seq<int>, w: seq<bool>, token: int)
    requires ValidBatch(st, q, w) && InRange(st, token)
    ensures var t2s, n := BatchOf(st, q, w).tables.tokenToSlot, Rank(w, |w|);
            && |t2s| == |st.tokenToSlot|
            && (Resident(st, token) && token in q ==> t2s[token] == st.tokenToSlot[token])
            && (Missing(st, token) && token in q ==>
                  0 <= t2s[token] < |st.slotToToken| && IsVictim(Evictable(st, q), n, t2s[token]))
            && (token !in q ==>
                  t2s[token] == if IsVictim(Evictable(st, q), n, st.tokenToSlot[token]) then NOT_FOUND
                                else st.tokenToSlot[token])
  {
    BatchInstalled(st, q, w);
    var victims, n := Evictable(st, q), Rank(w, |w|);
    if token in q {
      var r :| 0 <= r < |q| && q[r] == token;
      if Missing(st, token) {
        assert Chosen(q, w, q[r]);
        var p :| 0 <= p < |q| && w[p] && q[p] == token;
        RankMonotone(w, p, |w|);
        assert Get(BatchOf(st, q, w).tables.tokenToSlot, q[p]) == victims[Rank(w, p)];
      } else {
        assert st.tokenToSlot[token] in HitSlots(st, q);
        assert !IsVictim(victims, n, st.tokenToSlot[token]);
        assert !Picked(q, w, n, token);
      }
    } else {
      assert !Picked(q, w, n, token);
    }
  }

  lemma TokensPointBack(st: Tables, q: seq<int>, w: seq<bool>, victims: seq<int>, m: Mapping, token: int)
    requires Consistent(st) && IsChoice(st, q, w) && GoodVictims(st, victims) && Rank(w, |w|) <= |victims|
    requires Installed(st, q, w, victims, Rank(w, |w|), m) && 0 <= token < |m.tokenToSlot|
    ensures m.tokenToSlot[token] == NOT_FOUND
            || (0 <= m.tokenToSlot[token] < |m.slotToToken| && m.slotToToken[m.tokenToSlot[token]] == token)
  {
    if Picked(q, w, Rank(w, |w|), token) {
      var p :| 0 <= p < |q| && w[p] && Rank(w, p) < Rank(w, |w|) && q[p] == token;
      assert Get(m.slotToToken, victims[Rank(w, p)]) == q[p];
    }
  }

  lemma SlotsPointBack(st: Tables, q: seq<int>, w: seq<bool>, victims: seq<int>, m: Mapping, slot: int)
    requires Consistent(st) && IsChoice(st, q, w) && GoodVictims(st, victims) && Rank(w, |w|) <= |victims|
    requires Installed(st, q, w, victims, Rank(w, |w|), m) && 0 <= slot < |m.slotToToken|
    ensures m.slotToToken[slot] == NOT_FOUND
            || (0 <= m.slotToToken[slot] < |m.tokenToSlot| && m.tokenToSlot[m.slotToToken[slot]] == slot)
  {
    var n := Rank(w, |w|);
    if IsVictim(victims, n, slot) {
      var c :| 0 <= c < n && victims[c] == slot;
      var p := CompactSource(q, w, |q|, c);
      assert Get(m.slotToToken, victims[Rank(w, p)]) == q[p] && Get(m.tokenToSlot, q[p]) == victims[Rank(w, p)];
    } else if st.slotToToken[slot] != NOT_FOUND {
      assert !Picked(q, w, n, st.slotToToken[slot]);
    }
  }

  lemma InverseAfter(st: Tables, q: seq<int>, w: seq<bool>)
    requires ValidBatch(st, q, w)
    ensures Inverse(BatchOf(st, q, w).tables)
  {
    BatchInstalled(st, q, w);
    var o := BatchOf(st, q, w).tables;
    var m := Mapping(o.tokenToSlot, o.slotToToken);
    forall token | 0 <= token < |m.tokenToSlot|
      ensures o.tokenToSlot[token] == NOT_FOUND
              || (0 <= o.tokenToSlot[token] < |o.slotToToken| && o.slotToToken[o.tokenToSlot[token]] == token)
    {
      TokensPointBack(st, q, w, Evictable(st, q), m, token);
    }
    forall slot | 0 <= slot < |m.slotToToken|
      ensures o.slotToToken[slot] == NOT_FOUND
              || (0 <= o.slotToToken[slot] < |o.tokenToSlot| && o.tokenToSlot[o.slotToToken[slot]] == slot)
    {
      SlotsPointBack(st, q, w, Evictable(st, q), m, slot);
    }
  }

  lemma DistinctConcat(a: seq<int>, b: seq<int>)
    requires Distinct(a) && Distinct(b)
    requires forall i, j | 0 <= i < |a| && 0 <= j < |b| :: a[i] != b[j]
    ensures Distinct(a + b)
  {
  }

  lemma HitsFacts(st: Tables, q: seq<int>)
    requires Consistent(st)
    ensures Distinct(Hits(st, q))
    ensures forall k | 0 <= k < |Hits(st, q)| :: 0 <= Hits(st, q)[k] < |st.lru| && Hits(st, q)[k] in HitSlots(st, q)
  {
    CompactDistinct(st.lru, HitAt(st, q));
    forall k | 0 <= k < |Hits(st, q)|
      ensures 0 <= Hits(st, q)[k] < |st.lru| && Hits(st, q)[k] in HitSlots(st, q)
    {
      var i := CompactSource(st.lru, HitAt(st, q), |st.lru|, k);
    }
  }

  // The three blocks of the new order are a rearrangement of the old one.
  lemma OrderAfter(st: Tables, q: seq<int>, w: seq<bool>)
    requires ValidBatch(st, q, w)
    ensures |BatchOf(st, q, w).tables.lru| == |st.lru| && IsPermutation(BatchOf(st, q, w).tables.lru)
  {
    BatchInstalled(st, q, w);
    HitOrEvict(st, q);
    HitsFacts(st, q);
    BlocksArePermutation(Evictable(st, q), Hits(st, q), Rank(w, |w|), HitSlots(st, q));
  }

  lemma BlocksArePermutation(evictable: seq<int>, hits: seq<int>, n: nat, hitSlots: set<int>)
    requires n <= |evictable| && Distinct(evictable) && Distinct(hits)
    requires forall k | 0 <= k < |evictable| ::
               0 <= evictable[k] < |evictable| + |hits| && evictable[k] !in hitSlots
    requires forall k | 0 <= k < |hits| :: 0 <= hits[k] < |evictable| + |hits| && hits[k] in hitSlots
    ensures IsPermutation(evictable[n..] + evictable[..n] + hits)
  {
    DistinctConcat(evictable[n..], evictable[..n]);
    DistinctConcat(evictable[n..] + evictable[..n], hits);
  }

  // The invariant of every run.
  lemma BatchKeepsConsistent(st: Tables, q: seq<int>, w: seq<bool>)
    requires ValidBatch(st, q, w)
    ensures var o := BatchOf(st, q, w);
            && Consistent(o.tables)
            && |o.tables.slotToToken| == |st.slotToToken| && |o.tables.tokenToSlot| == |st.tokenToSlot|
  {
    BatchInstalled(st, q, w);
    InverseAfter(st, q, w);
    OrderAfter(st, q, w);
  }

  // Every valid query is answered by the slot that holds its token; the others by NOT_FOUND.
  lemma AnswersMapBack(st: Tables, q: seq<int>, w: seq<bool>, p: nat)
    requires ValidBatch(st, q, w) && p < |q|
    ensures var o := BatchOf(st, q, w);
            if InRange(st, q[p])
            then 0 <= o.slotIds[p] < |o.tables.slotToToken| && o.tables.slotToToken[o.slotIds[p]] == q[p]
            else o.slotIds[p] == NOT_FOUND
  {
    BatchKeepsConsistent(st, q, w);
    if InRange(st, q[p]) {
      TokenAfter(st, q, w, q[p]);
    }
  }
}
