/** Phases 0 and 1 of the SIMT kernel: clearing the hit flags and claiming the missing tokens. */
module SimtClaim {
  import opened Compaction
  import opened Mappings
  import opened LookupSpec
  import opened SimtMachine

  // Strided loops: position x belongs to thread x % threads and is passed once its owner is beyond it.
  predicate Passed(k: Kernel, ls: seq<Local>, x: nat)
    requires 0 < k.threads == |ls|
  {
    x < ls[x % k.threads].pos
  }

  predicate Strided(k: Kernel, ls: seq<Local>)
    requires 0 < k.threads == |ls|
  {
    forall t | 0 <= t < |ls| :: ls[t].pos % k.threads == t
  }

  lemma AdvanceStride(k: Kernel, ls: seq<Local>, t: nat, l: Local)
    requires 0 < k.threads == |ls| && t < |ls| && Strided(k, ls)
    requires l.pos == ls[t].pos + k.threads
    ensures Strided(k, ls[t := l])
    ensures forall x: nat :: Passed(k, ls[t := l], x) <==> Passed(k, ls, x) || x == ls[t].pos
  {
    StrideStep(ls[t].pos, k.threads);
    forall x: nat
      ensures Passed(k, ls[t := l], x) <==> Passed(k, ls, x) || x == ls[t].pos
    {
      if x % k.threads == t && ls[t].pos <= x < l.pos {
        StrideGap(ls[t].pos, x, k.threads);
      }
    }
  }

  ghost predicate TablesKept(st: Tables, m: Mem) {
    m.slotToToken == st.slotToToken && m.lru == st.lru
  }

  // ---- phase 0 ---------------------------------------------------------------------------------

  ghost predicate ClearInv(k: Kernel, st: Tables, m: Mem, ls: seq<Local>)
    requires 0 < k.threads == |ls|
  {
    && k.Shape(st, m) && TablesKept(st, m) && m.tokenToSlot == st.tokenToSlot
    && Strided(k, ls)
    && (forall t | 0 <= t < |ls| :: ls[t].pc in {Clear, ClearCounters, Barrier})
    && (forall t | 0 <= t < |ls| :: ls[t].pc != Clear ==> ls[t].pos >= |st.slotToToken|)
    && (forall x: nat | x < |st.slotToToken| && Passed(k, ls, x) :: !m.hitFlags[x])
  }

  lemma ClearKeeps(k: Kernel, st: Tables, m: Mem, ls: seq<Local>, t: nat)
    requires 0 < k.threads == |ls| && t < |ls| && ls[t].pc != Barrier
    requires ClearInv(k, st, m, ls)
    ensures k.InBounds(m, t, ls[t])
    ensures var e := k.ClearStep(m, t, ls[t]); ClearInv(k, st, e.mem, ls[t := e.local])
  {
    var e := k.ClearStep(m, t, ls[t]);
    if ls[t].pc == Clear && ls[t].pos < |st.slotToToken| {
      AdvanceStride(k, ls, t, e.local);
    }
  }

  // ---- phase 1 ---------------------------------------------------------------------------------

  function HitId(st: Tables, q: seq<int>, p: nat): int
    requires p < |q|
  {
    if Resident(st, q[p]) then st.tokenToSlot[q[p]] else NOT_FOUND
  }

  // Position p has won its token: recorded in the mask, or about to be.
  predicate Won(k: Kernel, m: Mem, ls: seq<Local>, p: nat)
    requires 0 < k.threads == |ls| && |m.missMask| == |k.query|
  {
    p < |k.query| &&
    if Passed(k, ls, p) then m.missMask[p]
    else
      var l := ls[p % k.threads];
      l.pos == p && l.pc == ClaimPost && l.seen == NOT_FOUND
  }

  ghost predicate SomeoneWon(k: Kernel, m: Mem, ls: seq<Local>, token: int)
    requires 0 < k.threads == |ls| && |m.missMask| == |k.query|
  {
    exists p: nat | p < |k.query| :: Won(k, m, ls, p) && k.query[p] == token
  }

  ghost predicate PassedOk(k: Kernel, st: Tables, m: Mem, p: nat)
    requires k.Shape(st, m) && p < |k.query|
  {
    var token := k.query[p];
    && m.slotIds[p] == HitId(st, k.query, p)
    && (m.missMask[p] ==> Missing(st, token))
    && (Missing(st, token) ==> m.tokenToSlot[token] == CLAIMING)
    && (Resident(st, token) ==> 0 <= st.tokenToSlot[token] < |m.hitFlags| && m.hitFlags[st.tokenToSlot[token]])
  }

  ghost predicate ClaimLocalOk(k: Kernel, st: Tables, m: Mem, l: Local)
    requires k.Shape(st, m)
  {
    if l.pc == ClaimInit then true
    else if l.pc == Barrier then l.pos >= |k.query|
    else
      && l.pc in {ClaimRead, ClaimHit, ClaimCas, ClaimPost}
      && l.pos < |k.query| && InRange(st, k.query[l.pos])
      && m.slotIds[l.pos] == NOT_FOUND && !m.missMask[l.pos]
      && (l.pc == ClaimHit ==> Resident(st, k.query[l.pos]) && l.slot == st.tokenToSlot[k.query[l.pos]])
      && (l.pc == ClaimCas ==> Missing(st, k.query[l.pos]))
      && (l.pc == ClaimPost ==>
            && Missing(st, k.query[l.pos]) && (l.seen == NOT_FOUND || l.seen == CLAIMING)
            && m.tokenToSlot[k.query[l.pos]] == CLAIMING)
  }

  ghost predicate LocalsOk(k: Kernel, st: Tables, m: Mem, ls: seq<Local>)
    requires k.Shape(st, m)
  {
    forall t | 0 <= t < |ls| :: ClaimLocalOk(k, st, m, ls[t])
  }

  // A claimed token has a winner; every other token still has its old value.
  ghost predicate TokensOk(k: Kernel, st: Tables, m: Mem, ls: seq<Local>)
    requires 0 < k.threads == |ls| && k.Shape(st, m)
  {
    forall token | 0 <= token < |m.tokenToSlot| ::
      || m.tokenToSlot[token] == st.tokenToSlot[token]
      || (Missing(st, token) && m.tokenToSlot[token] == CLAIMING && SomeoneWon(k, m, ls, token))
  }

  // Winners hold distinct missing tokens, and the first position of a thread wins before its later ones.
  ghost predicate WinnersOk(k: Kernel, st: Tables, m: Mem, ls: seq<Local>)
    requires 0 < k.threads == |ls| && k.Shape(st, m)
  {
    && (forall p: nat | Won(k, m, ls, p) :: Missing(st, k.query[p]) && m.tokenToSlot[k.query[p]] == CLAIMING)
    && (forall p: nat, r: nat | p < r && Won(k, m, ls, p) && Won(k, m, ls, r) :: k.query[p] != k.query[r])
    && (forall p: nat, r: nat | p < r && Won(k, m, ls, r) && p % k.threads == r % k.threads ::
          k.query[p] != k.query[r])
  }

  ghost predicate AllPassedOk(k: Kernel, st: Tables, m: Mem, ls: seq<Local>)
    requires 0 < k.threads == |ls| && k.Shape(st, m)
  {
    forall p: nat | p < |k.query| && Passed(k, ls, p) :: PassedOk(k, st, m, p)
  }

  ghost predicate HitsOk(k: Kernel, st: Tables, m: Mem) {
    forall slot | 0 <= slot < |m.hitFlags| && m.hitFlags[slot] :: slot in HitSlots(st, k.query)
  }

  ghost predicate ClaimInv(k: Kernel, st: Tables, m: Mem, ls: seq<Local>)
    requires 0 < k.threads == |ls|
  {
    && k.Shape(st, m) && TablesKept(st, m)
    && Strided(k, ls)
    && LocalsOk(k, st, m, ls)
    && TokensOk(k, st, m, ls)
    && WinnersOk(k, st, m, ls)
    && AllPassedOk(k, st, m, ls)
    && HitsOk(k, st, m)
  }

  lemma PassedAfter(k: Kernel, ls: seq<Local>, t: nat, l: Local)
    requires 0 < k.threads == |ls| && t < |ls| && Strided(k, ls)
    requires l.pos == ls[t].pos || l.pos == ls[t].pos + k.threads
    ensures Strided(k, ls[t := l])
    ensures forall x: nat :: Passed(k, ls[t := l], x) <==> Passed(k, ls, x) || (l.pos != ls[t].pos && x == ls[t].pos)
  {
    if l.pos == ls[t].pos {
      assert forall x: nat :: Passed(k, ls[t := l], x) <==> Passed(k, ls, x);
    } else {
      AdvanceStride(k, ls, t, l);
    }
  }

  // Every step but the compare-and-swap leaves the set of winners alone.
  lemma QuietWon(k: Kernel, st: Tables, m: Mem, ls: seq<Local>, t: nat, p: nat)
    requires 0 < k.threads == |ls| && t < |ls| && ls[t].pc != Barrier && ls[t].pc != ClaimCas
    requires ClaimInv(k, st, m, ls)
    ensures var e := k.ClaimStep(m, ls[t]);
            k.Shape(st, e.mem) && (Won(k, e.mem, ls[t := e.local], p) <==> Won(k, m, ls, p))
  {
    var e := k.ClaimStep(m, ls[t]);
    assert ClaimLocalOk(k, st, m, ls[t]);
    PassedAfter(k, ls, t, e.local);
    assert ls[t].pos % k.threads == t;
  }

  // The cells a quiet step may touch: its own position, and the flag of a slot it has hit.
  ghost predicate TouchesOnly(k: Kernel, st: Tables, m: Mem, m': Mem, p: nat)
    requires k.Shape(st, m) && k.Shape(st, m')
  {
    && TablesKept(st, m')
    && m'.tokenToSlot == m.tokenToSlot
    && (forall x | 0 <= x < |k.query| && x != p :: m'.slotIds[x] == m.slotIds[x] && m'.missMask[x] == m.missMask[x])
    && (forall slot | 0 <= slot < |m.hitFlags| && m.hitFlags[slot] :: m'.hitFlags[slot])
  }

  lemma QuietLocal(k: Kernel, st: Tables, m: Mem, ls: seq<Local>, t: nat)
    requires Consistent(st) && 0 < k.threads == |ls| && t < |ls|
    requires ls[t].pc != Barrier && ls[t].pc != ClaimCas
    requires ClaimInv(k, st, m, ls)
    ensures var e := k.ClaimStep(m, ls[t]);
            && k.Shape(st, e.mem)
            && TouchesOnly(k, st, m, e.mem, ls[t].pos)
            && HitsOk(k, st, e.mem)
            && ClaimLocalOk(k, st, e.mem, e.local)
            && (e.local.pos == ls[t].pos || e.local.pos == ls[t].pos + k.threads)
            && (e.local.pos != ls[t].pos && ls[t].pos < |k.query| ==> PassedOk(k, st, e.mem, ls[t].pos))
  {
    var l := ls[t];
    assert ClaimLocalOk(k, st, m, l);
    if l.pc == ClaimHit {
      assert l.slot in HitSlots(st, k.query);
    }
  }

  lemma ClaimQuiet(k: Kernel, st: Tables, m: Mem, ls: seq<Local>, t: nat)
    requires Consistent(st) && 0 < k.threads == |ls| && t < |ls|
    requires ls[t].pc != Barrier && ls[t].pc != ClaimCas
    requires ClaimInv(k, st, m, ls)
    ensures var e := k.ClaimStep(m, ls[t]); ClaimInv(k, st, e.mem, ls[t := e.local])
  {
    var e := k.ClaimStep(m, ls[t]);
    QuietLocal(k, st, m, ls, t);
    PassedAfter(k, ls, t, e.local);
    forall p: nat
      ensures Won(k, e.mem, ls[t := e.local], p) <==> Won(k, m, ls, p)
    {
      QuietWon(k, st, m, ls, t, p);
    }
    QuietFrame(k, st, m, e.mem, ls, t, e.local);
  }

  // All that the invariant needs to know about a quiet step.
  lemma QuietFrame(k: Kernel, st: Tables, m: Mem, m': Mem, ls: seq<Local>, t: nat, l: Local)
    requires 0 < k.threads == |ls| && t < |ls| && ClaimInv(k, st, m, ls)
    requires k.Shape(st, m') && TouchesOnly(k, st, m, m', ls[t].pos)
    requires Strided(k, ls[t := l])
    requires forall x: nat :: Passed(k, ls[t := l], x) <==> Passed(k, ls, x) || (l.pos != ls[t].pos && x == ls[t].pos)
    requires forall p: nat :: Won(k, m', ls[t := l], p) <==> Won(k, m, ls, p)
    requires ClaimLocalOk(k, st, m', l)
    requires l.pos != ls[t].pos && ls[t].pos < |k.query| ==> PassedOk(k, st, m', ls[t].pos)
    ensures LocalsOk(k, st, m', ls[t := l]) && TokensOk(k, st, m', ls[t := l])
    ensures WinnersOk(k, st, m', ls[t := l]) && AllPassedOk(k, st, m', ls[t := l])
  {
    var ls' := ls[t := l];
    forall u | 0 <= u < |ls'|
      ensures ClaimLocalOk(k, st, m', ls'[u])
    {
      assert ClaimLocalOk(k, st, m, ls[u]);
      assert u != t ==> ls[u].pos % k.threads != ls[t].pos % k.threads;
    }
    forall token | 0 <= token < |m.tokenToSlot| && SomeoneWon(k, m, ls, token)
      ensures SomeoneWon(k, m', ls', token)
    {
      var p: nat :| p < |k.query| && Won(k, m, ls, p) && k.query[p] == token;
      assert Won(k, m', ls', p);
    }
    forall p: nat | p < |k.query| && Passed(k, ls', p)
      ensures PassedOk(k, st, m', p)
    {
      if p != ls[t].pos {
        assert PassedOk(k, st, m, p);
      } else {
        assert p % k.threads == t && !Passed(k, ls, p);
      }
    }
  }

  // The compare-and-swap wins exactly when nobody has won this token before.
  lemma ClaimSwap(k: Kernel, st: Tables, m: Mem, ls: seq<Local>, t: nat)
    requires Consistent(st) && 0 < k.threads == |ls| && t < |ls| && ls[t].pc == ClaimCas
    requires ClaimInv(k, st, m, ls)
    ensures var e := k.ClaimStep(m, ls[t]); ClaimInv(k, st, e.mem, ls[t := e.local])
  {
    var l := ls[t];
    var e := k.ClaimStep(m, l);
    var token := k.query[l.pos];
    assert ClaimLocalOk(k, st, m, l);
    PassedAfter(k, ls, t, e.local);
    var wins := m.tokenToSlot[token] == NOT_FOUND;
    assert l.pos % k.threads == t;
    assert forall p: nat :: Won(k, e.mem, ls[t := e.local], p) <==> Won(k, m, ls, p) || (wins && p == l.pos);
    if wins {
      WinningSwap(k, st, m, e.mem, ls, t, e.local);
    } else {
      assert e.mem == m;
      QuietFrame(k, st, m, e.mem, ls, t, e.local);
    }
  }

  lemma WinningSwap(k: Kernel, st: Tables, m: Mem, m': Mem, ls: seq<Local>, t: nat, l: Local)
    requires 0 < k.threads == |ls| && t < |ls| && ClaimInv(k, st, m, ls) && ls[t].pc == ClaimCas
    requires ls[t].pos % k.threads == t
    requires ls[t].pos < |k.query| && Missing(st, k.query[ls[t].pos])
    requires m.tokenToSlot[k.query[ls[t].pos]] == NOT_FOUND
    requires m' == m.(tokenToSlot := m.tokenToSlot[k.query[ls[t].pos] := CLAIMING])
    requires l == ls[t].(pc := ClaimPost, seen := NOT_FOUND)
    requires Strided(k, ls[t := l])
    requires forall x: nat :: Passed(k, ls[t := l], x) <==> Passed(k, ls, x)
    requires forall p: nat :: Won(k, m', ls[t := l], p) <==> Won(k, m, ls, p) || p == ls[t].pos
    ensures ClaimInv(k, st, m', ls[t := l])
  {
    var ls' := ls[t := l];
    var token := k.query[l.pos];
    forall u | 0 <= u < |ls'|
      ensures ClaimLocalOk(k, st, m', ls'[u])
    {
      assert ClaimLocalOk(k, st, m, ls[u]);
    }
    assert Won(k, m', ls', l.pos);
    forall x | 0 <= x < |m.tokenToSlot| && (x == token || SomeoneWon(k, m, ls, x))
      ensures SomeoneWon(k, m', ls', x)
    {
      if x != token {
        var p: nat :| p < |k.query| && Won(k, m, ls, p) && k.query[p] == x;
        assert Won(k, m', ls', p);
      }
    }
    forall p: nat | p < l.pos && p % k.threads == l.pos % k.threads
      ensures k.query[p] != token
    {
      assert Passed(k, ls, p) && PassedOk(k, st, m, p);
    }
    forall p: nat | p < |k.query| && Passed(k, ls', p)
      ensures PassedOk(k, st, m', p)
    {
      assert PassedOk(k, st, m, p);
    }
  }

  lemma ClaimKeeps(k: Kernel, st: Tables, m: Mem, ls: seq<Local>, t: nat)
    requires Consistent(st) && 0 < k.threads == |ls| && t < |ls| && ls[t].pc != Barrier
    requires ClaimInv(k, st, m, ls)
    ensures k.InBounds(m, t, ls[t])
    ensures var e := k.ClaimStep(m, ls[t]); ClaimInv(k, st, e.mem, ls[t := e.local])
  {
    assert ClaimLocalOk(k, st, m, ls[t]);
    if ls[t].pc == ClaimCas {
      ClaimSwap(k, st, m, ls, t);
    } else {
      ClaimQuiet(k, st, m, ls, t);
    }
  }

  // What the claim phase leaves behind, whatever the interleaving.
  ghost predicate Claimed(k: Kernel, st: Tables, m: Mem) {
    && k.Shape(st, m) && TablesKept(st, m)
    && IsChoice(st, k.query, m.missMask)
    && (forall token | 0 <= token < |m.tokenToSlot| ::
          m.tokenToSlot[token] ==
          if Missing(st, token) && token in k.query then CLAIMING else st.tokenToSlot[token])
    && (forall p: nat | p < |k.query| :: m.slotIds[p] == HitId(st, k.query, p))
    && (forall slot | 0 <= slot < |m.hitFlags| :: m.hitFlags[slot] <==> slot in HitSlots(st, k.query))
  }

  // Two positions of one thread are tried in order.
  ghost predicate OwnFirst(k: Kernel, w: seq<bool>)
    requires k.threads > 0
  {
    forall p: nat, r: nat | p < r < |k.query| && r < |w| && p % k.threads == r % k.threads && w[r] ::
      k.query[p] != k.query[r]
  }

  lemma ClaimDone(k: Kernel, st: Tables, m: Mem, ls: seq<Local>)
    requires Consistent(st) && 0 < k.threads == |ls| && ClaimInv(k, st, m, ls)
    requires forall t | 0 <= t < |ls| :: ls[t].pc == Barrier
    ensures Claimed(k, st, m) && OwnFirst(k, m.missMask)
  {
    var q := k.query;
    forall p: nat | p < |q|
      ensures Passed(k, ls, p) && PassedOk(k, st, m, p) && (Won(k, m, ls, p) <==> m.missMask[p])
    {
      assert ClaimLocalOk(k, st, m, ls[p % k.threads]);
    }
    forall p | 0 <= p < |q| && Missing(st, q[p])
      ensures Chosen(q, m.missMask, q[p])
    {
      assert PassedOk(k, st, m, p);
      assert SomeoneWon(k, m, ls, q[p]);
    }
    forall token | 0 <= token < |m.tokenToSlot|
      ensures m.tokenToSlot[token] ==
              if Missing(st, token) && token in q then CLAIMING else st.tokenToSlot[token]
    {
      if token in q {
        var p :| 0 <= p < |q| && q[p] == token;
        assert PassedOk(k, st, m, p);
      }
    }
    forall slot | slot in HitSlots(st, q)
      ensures 0 <= slot < |m.hitFlags| && m.hitFlags[slot]
    {
      var p :| 0 <= p < |q| && Resident(st, q[p]) && st.tokenToSlot[q[p]] == slot;
      assert PassedOk(k, st, m, p);
    }
  }
}
