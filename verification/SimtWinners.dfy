/** Which results the schedules of a launch can have: exactly which sets of winners are possible. */
module SimtWinners {
  import opened Compaction
  import opened LookupSpec
  import opened SimtMachine
  import opened SimtClaim
  import opened SimtRefinement
  import opened SimtSchedules

  // ---- the condition -------------------------------------------------------------------------------

  // The thread of position p comes past a missing token that a position of the set is to win before it
  // comes to p.
  ghost predicate Blocked(k: Kernel, st: Tables, wins: set<nat>, p: nat)
    requires 0 < k.threads
  {
    exists r: nat, c: nat :: Precedes(k, st, r, p) && c in wins && c < |k.query| && k.query[c] == k.query[r]
  }

  // The thread of p queries a missing token at r, before p.
  predicate Precedes(k: Kernel, st: Tables, r: nat, p: nat)
    requires 0 < k.threads
  {
    r < p < |k.query| && r % k.threads == p % k.threads && Missing(st, k.query[r])
  }

  // No positions of the mask wait for each other in a circle; in particular none comes after another
  // occurrence of its token on its own thread.
  ghost predicate Acyclic(k: Kernel, st: Tables, w: seq<bool>)
    requires 0 < k.threads
  {
    forall wins: set<nat> :: wins != {} && AllWin(w, wins) ==> exists p :: p in wins && !Blocked(k, st, wins, p)
  }

  ghost predicate AllWin(w: seq<bool>, wins: set<nat>) {
    forall p | p in wins :: p < |w| && w[p]
  }

  // A choice has one winner of each token.
  lemma OneWinner(st: Tables, q: seq<int>, w: seq<bool>, p: nat, r: nat)
    requires IsChoice(st, q, w) && p < |q| && r < |q| && w[p] && w[r] && q[p] == q[r]
    ensures p == r
  {
  }

  // ---- what the claim phase does to winners ----------------------------------------------------------

  // Only a compare-and-swap makes a winner, at the position of its thread.
  lemma WonBySwap(k: Kernel, st: Tables, s: State, t: nat, p: nat)
    requires Consistent(st) && Inv(k, st, s) && s.phase == 1 && t < |s.locals| && s.locals[t].pc != Barrier
    ensures var s' := k.Step(s, t);
            && |s'.locals| == k.threads && |s'.mem.missMask| == |k.query| && s'.phase == 1
            && (Won(k, s'.mem, s'.locals, p) && !Won(k, s.mem, s.locals, p) ==>
                  p == s.locals[t].pos && s.locals[t].pc == ClaimCas && p % k.threads == t)
  {
    var l := s.locals[t];
    StepIsThreadStep(k, s, t);
    if l.pc == ClaimCas {
      assert ClaimLocalOk(k, st, s.mem, l);
      PassedAfter(k, s.locals, t, k.ClaimStep(s.mem, l).local);
    } else {
      QuietWon(k, st, s.mem, s.locals, t, p);
    }
  }

  // Every missing token a thread has passed has a winner.
  lemma PassedHasWinner(k: Kernel, st: Tables, s: State, r: nat) returns (c: nat)
    requires Inv(k, st, s) && s.phase == 1 && r < |k.query| && Passed(k, s.locals, r) && Missing(st, k.query[r])
    ensures c < |k.query| && Won(k, s.mem, s.locals, c) && k.query[c] == k.query[r]
  {
    assert PassedOk(k, st, s.mem, r);
    assert SomeoneWon(k, s.mem, s.locals, k.query[r]);
    c :| c < |k.query| && Won(k, s.mem, s.locals, c) && k.query[c] == k.query[r];
  }

  lemma SameToken(k: Kernel, st: Tables, s: State, p: nat, r: nat)
    requires Inv(k, st, s) && s.phase == 1 && p < |k.query| && r < |k.query| && k.query[p] == k.query[r]
    requires Won(k, s.mem, s.locals, p) && Won(k, s.mem, s.locals, r)
    ensures p == r
  {
  }

  // ---- circular winners are impossible ---------------------------------------------------------------

  // Won during the claim phase, recorded afterwards.
  lemma SecuredInEnd(k: Kernel, st: Tables, s: State, prefix: seq<nat>, schedule: seq<nat>, p: nat)
    requires Ready(k, st, s) && prefix <= schedule && k.Finished(k.Run(s, schedule))
    requires Secured(k, k.Run(s, prefix), p)
    ensures |k.Run(s, schedule).mem.missMask| == |k.query| && k.Run(s, schedule).mem.missMask[p]
  {
    SecuredStays(k, st, s, prefix, schedule, p);
  }

  // The first of some circularly waiting positions to win its token would have to be preceded by another.
  lemma NotFirst(k: Kernel, st: Tables, s: State, prefix: seq<nat>, schedule: seq<nat>, t: nat, wins: set<nat>, p: nat)
    requires Ready(k, st, s) && prefix <= schedule && k.Finished(k.Run(s, schedule))
    requires var w := k.Run(s, schedule).mem.missMask; IsChoice(st, k.query, w) && AllWin(w, wins)
    requires var r := k.Run(s, prefix);
             && r.phase == 1 && t < |r.locals| && r.locals[t].pc == ClaimCas && r.locals[t].pos == p
    requires p % k.threads == t && Blocked(k, st, wins, p)
    ensures exists c :: c in wins && Secured(k, k.Run(s, prefix), c)
  {
    var now, w := k.Run(s, prefix), k.Run(s, schedule).mem.missMask;
    RunKeeps(k, st, s, prefix);
    var r: nat, c: nat :| Precedes(k, st, r, p) && c in wins && c < |k.query| && k.query[c] == k.query[r];
    var x := PassedHasWinner(k, st, now, r);
    assert Secured(k, now, x);
    SecuredInEnd(k, st, s, prefix, schedule, x);
    OneWinner(st, k.query, w, c, x);
  }

  ghost predicate NoneSecured(k: Kernel, s: State, wins: set<nat>) {
    forall c | c in wins :: !Secured(k, s, c)
  }

  lemma EnteringClaim(k: Kernel, st: Tables, s: State, t: nat, p: nat)
    requires Consistent(st) && |k.query| <= |st.slotToToken| && Inv(k, st, s) && s.phase == 0
    ensures !Secured(k, k.Step(s, t), p)
  {
    if t < |s.locals| {
      if s.locals[t].pc != Barrier {
        StepIsThreadStep(k, s, t);
      } else if k.AllWaiting(s) {
        StepOpensBarrier(k, s, t);
        ModBelow(p, k.threads);
      }
    }
  }

  lemma ModBelow(p: nat, d: nat)
    requires d > 0
    ensures p % d <= p
  {
  }

  lemma LeavingClaim(k: Kernel, st: Tables, s: State, t: nat, p: nat)
    requires Inv(k, st, s) && s.phase >= 1 && !(s.phase == 1 && t < |s.locals| && s.locals[t].pc != Barrier)
    requires Consistent(st) && Secured(k, k.Step(s, t), p)
    ensures Secured(k, s, p)
  {
    if s.phase < LAST_PHASE && t < |s.locals| {
      if s.locals[t].pc != Barrier {
        StepIsThreadStep(k, s, t);
        MaskKept(k, s.phase, s.mem, t, s.locals[t]);
      } else if k.AllWaiting(s) {
        StepOpensBarrier(k, s, t);
        if s.phase == 1 {
          assert ClaimLocalOk(k, st, s.mem, s.locals[p % k.threads]);
        }
      }
    }
  }

  // No step lets one of them win as long as none has.
  lemma CircularStep(k: Kernel, st: Tables, s: State, prefix: seq<nat>, t: nat, schedule: seq<nat>, wins: set<nat>,
                     c: nat)
    requires Ready(k, st, s) && prefix <= schedule && k.Finished(k.Run(s, schedule))
    requires var w := k.Run(s, schedule).mem.missMask; IsChoice(st, k.query, w) && AllWin(w, wins)
    requires c in wins && Blocked(k, st, wins, c) && NoneSecured(k, k.Run(s, prefix), wins)
    ensures !Secured(k, k.Step(k.Run(s, prefix), t), c)
  {
    var now := k.Run(s, prefix);
    RunKeeps(k, st, s, prefix);
    if now.phase == 0 {
      EnteringClaim(k, st, now, t, c);
    } else if now.phase == 1 && t < |now.locals| && now.locals[t].pc != Barrier {
      WonBySwap(k, st, now, t, c);
      if Secured(k, k.Step(now, t), c) {
        NotFirst(k, st, s, prefix, schedule, t, wins, c);
      }
    } else if Secured(k, k.Step(now, t), c) {
      LeavingClaim(k, st, now, t, c);
    }
  }

  lemma {:induction false} CircularNeverSecured(k: Kernel, st: Tables, s: State, schedule: seq<nat>, wins: set<nat>,
                                                prefix: seq<nat>)
    requires Ready(k, st, s) && k.Finished(k.Run(s, schedule)) && prefix <= schedule
    requires var w := k.Run(s, schedule).mem.missMask; IsChoice(st, k.query, w) && AllWin(w, wins)
    requires forall p | p in wins :: Blocked(k, st, wins, p)
    ensures NoneSecured(k, k.Run(s, prefix), wins)
    decreases |prefix|
  {
    if prefix != [] {
      var before, t := prefix[..|prefix| - 1], prefix[|prefix| - 1];
      CircularNeverSecured(k, st, s, schedule, wins, before);
      assert prefix == before + [t];
      RunExtend(k, s, before, t);
      forall c | c in wins
        ensures !Secured(k, k.Run(s, prefix), c)
      {
        CircularStep(k, st, s, before, t, schedule, wins, c);
      }
    }
  }

  lemma SecuredAtEnd(k: Kernel, st: Tables, s: State, schedule: seq<nat>, c: nat)
    requires Ready(k, st, s) && k.Finished(k.Run(s, schedule))
    requires c < |k.query| == |k.Run(s, schedule).mem.missMask| && k.Run(s, schedule).mem.missMask[c]
    ensures Secured(k, k.Run(s, schedule), c)
  {
    RunKeeps(k, st, s, schedule);
  }

  lemma CircularHaveNotWon(k: Kernel, st: Tables, s: State, schedule: seq<nat>, wins: set<nat>)
    requires Ready(k, st, s) && k.Finished(k.Run(s, schedule))
    requires var w := k.Run(s, schedule).mem.missMask; IsChoice(st, k.query, w) && AllWin(w, wins)
    requires forall p | p in wins :: Blocked(k, st, wins, p)
    ensures wins == {}
  {
    CircularNeverSecured(k, st, s, schedule, wins, schedule);
    if c :| c in wins {
      SecuredAtEnd(k, st, s, schedule, c);
    }
  }

  lemma NotCircular(k: Kernel, st: Tables, s: State, schedule: seq<nat>, wins: set<nat>)
    requires Ready(k, st, s) && k.Finished(k.Run(s, schedule)) && wins != {}
    requires var w := k.Run(s, schedule).mem.missMask; IsChoice(st, k.query, w) && AllWin(w, wins)
    ensures exists p :: p in wins && !Blocked(k, st, wins, p)
  {
    if !exists p :: p in wins && !Blocked(k, st, wins, p) {
      CircularHaveNotWon(k, st, s, schedule, wins);
    }
  }

  lemma ReachedIsAcyclic(k: Kernel, st: Tables, s: State, schedule: seq<nat>)
    requires Ready(k, st, s) && k.Finished(k.Run(s, schedule))
    ensures Acyclic(k, st, k.Run(s, schedule).mem.missMask)
  {
    KernelRefinesBatch(k, st, s, schedule);
    forall wins: set<nat> | wins != {} && AllWin(k.Run(s, schedule).mem.missMask, wins)
      ensures exists p :: p in wins && !Blocked(k, st, wins, p)
    {
      NotCircular(k, st, s, schedule, wins);
    }
  }

  // ---- all others are possible -----------------------------------------------------------------------

  // In the claim phase, and no position outside the mask has won.
  ghost predicate Towards(k: Kernel, w: seq<bool>, r: State) {
    && 0 < k.threads == |r.locals| && |r.mem.missMask| == |k.query| == |w| && r.phase == 1
    && forall x: nat | x < |k.query| && Won(k, r.mem, r.locals, x) :: w[x]
  }

  // Every missing token the thread of p meets before p has been won by its winner.
  ghost predicate WayFree(k: Kernel, st: Tables, w: seq<bool>, r: State, p: nat)
    requires 0 < k.threads
  {
    forall x: nat :: Precedes(k, st, x, p) ==>
      exists c: nat :: c < |w| && w[c] && Secured(k, r, c) && k.query[c] == k.query[x]
  }

  lemma TowardsStep(k: Kernel, st: Tables, s: State, prefix: seq<nat>, w: seq<bool>, p: nat)
    requires Ready(k, st, s) && IsChoice(st, k.query, w) && p < |k.query| && w[p]
    requires Towards(k, w, k.Run(s, prefix)) && WayFree(k, st, w, k.Run(s, prefix), p)
    requires !Passed(k, k.Run(s, prefix).locals, p)
    ensures var u, r := p % k.threads, k.Run(s, prefix);
            && r.locals[u].pc != Barrier
            && Towards(k, w, k.Run(s, prefix + [u])) && WayFree(k, st, w, k.Run(s, prefix + [u]), p)
            && 0 <= WorkLeft(k, st, k.Run(s, prefix + [u])) < WorkLeft(k, st, r)
  {
    var u, r := p % k.threads, k.Run(s, prefix);
    RunKeeps(k, st, s, prefix);
    assert ClaimLocalOk(k, st, r.mem, r.locals[u]);
    RunnableMoves(k, st, s, prefix, u);
    RunKeeps(k, st, s, prefix + [u]);
    RunExtend(k, s, prefix, u);
    var next := k.Run(s, prefix + [u]);
    forall x: nat | x < |k.query|
      ensures |next.mem.missMask| == |k.query| && |next.locals| == k.threads
      ensures Won(k, next.mem, next.locals, x) ==> w[x]
    {
      WonBySwap(k, st, r, u, x);
      if Won(k, next.mem, next.locals, x) && !Won(k, r.mem, r.locals, x) && x != p {
        assert Precedes(k, st, x, p);
        var c: nat :| c < |w| && w[c] && Secured(k, r, c) && k.query[c] == k.query[x];
        WonStays(k, st, r, u, c);
        SameToken(k, st, next, x, c);
      }
    }
    WayStaysFree(k, st, s, prefix, w, p, u);
  }

  lemma WayStaysFree(k: Kernel, st: Tables, s: State, prefix: seq<nat>, w: seq<bool>, p: nat, u: nat)
    requires Ready(k, st, s) && |w| == |k.query| && WayFree(k, st, w, k.Run(s, prefix), p)
    ensures WayFree(k, st, w, k.Run(s, prefix + [u]), p)
  {
    forall x: nat | Precedes(k, st, x, p)
      ensures exists c: nat :: c < |w| && w[c] && Secured(k, k.Run(s, prefix + [u]), c) && k.query[c] == k.query[x]
    {
      var c: nat :| c < |w| && w[c] && Secured(k, k.Run(s, prefix), c) && k.query[c] == k.query[x];
      SecuredNext(k, st, s, prefix, u, c);
    }
  }

  // Running the thread of p alone until it has passed p lets p win its token.
  lemma {:induction false} WinNext(k: Kernel, st: Tables, s: State, prefix: seq<nat>, w: seq<bool>, p: nat)
    returns (schedule: seq<nat>)
    requires Ready(k, st, s) && IsChoice(st, k.query, w) && p < |k.query| && w[p]
    requires Towards(k, w, k.Run(s, prefix)) && WayFree(k, st, w, k.Run(s, prefix), p)
    requires 0 <= WorkLeft(k, st, k.Run(s, prefix))
    ensures prefix <= schedule && Towards(k, w, k.Run(s, schedule)) && Secured(k, k.Run(s, schedule), p)
    ensures 0 <= WorkLeft(k, st, k.Run(s, schedule))
    decreases WorkLeft(k, st, k.Run(s, prefix))
  {
    var r := k.Run(s, prefix);
    if Passed(k, r.locals, p) {
      RunKeeps(k, st, s, prefix);
      var c := PassedHasWinner(k, st, r, p);
      OneWinner(st, k.query, w, p, c);
      schedule := prefix;
    } else {
      TowardsStep(k, st, s, prefix, w, p);
      schedule := WinNext(k, st, s, prefix + [p % k.threads], w, p);
    }
  }

  // The winners not in left have won.
  ghost predicate WonBut(k: Kernel, w: seq<bool>, r: State, left: set<nat>) {
    forall p: nat | p < |w| && w[p] && p !in left :: Secured(k, r, p)
  }

  // As long as winners are left, one of them has its way free.
  lemma SomeWayFree(k: Kernel, st: Tables, w: seq<bool>, r: State, left: set<nat>) returns (p: nat)
    requires 0 < k.threads && IsChoice(st, k.query, w) && Acyclic(k, st, w)
    requires left != {} && AllWin(w, left) && WonBut(k, w, r, left)
    ensures p in left && WayFree(k, st, w, r, p)
  {
    p :| p in left && !Blocked(k, st, left, p);
    forall x: nat | Precedes(k, st, x, p)
      ensures exists c: nat :: c < |w| && w[c] && Secured(k, r, c) && k.query[c] == k.query[x]
    {
      assert Chosen(k.query, w, k.query[x]);
      var c: nat :| c < |k.query| && w[c] && k.query[c] == k.query[x];
      assert c !in left;
    }
  }

  lemma {:induction false} WinAll(k: Kernel, st: Tables, s: State, prefix: seq<nat>, w: seq<bool>, left: set<nat>)
    returns (schedule: seq<nat>)
    requires Ready(k, st, s) && IsChoice(st, k.query, w) && Acyclic(k, st, w)
    requires Towards(k, w, k.Run(s, prefix)) && 0 <= WorkLeft(k, st, k.Run(s, prefix))
    requires AllWin(w, left) && WonBut(k, w, k.Run(s, prefix), left)
    ensures WonBut(k, w, k.Run(s, schedule), {})
    decreases |left|
  {
    if left == {} {
      schedule := prefix;
    } else {
      var p := SomeWayFree(k, st, w, k.Run(s, prefix), left);
      var further := WinNext(k, st, s, prefix, w, p);
      forall c: nat | c < |w| && w[c] && c !in left - {p}
        ensures Secured(k, k.Run(s, further), c)
      {
        if c != p {
          SecuredStays(k, st, s, prefix, further, c);
        }
      }
      schedule := WinAll(k, st, s, further, w, left - {p});
    }
  }

  lemma NoneWonYet(k: Kernel, st: Tables, s: State, prefix: seq<nat>, w: seq<bool>)
    requires Ready(k, st, s) && |w| == |k.query|
    requires var r := k.Run(s, prefix);
             && r.phase == 1 && |r.locals| == k.threads
             && forall t | 0 <= t < k.threads :: r.locals[t].pc == ClaimInit && r.locals[t].pos == t
    ensures Towards(k, w, k.Run(s, prefix)) && 0 <= WorkLeft(k, st, k.Run(s, prefix))
  {
    var r := k.Run(s, prefix);
    RunKeeps(k, st, s, prefix);
    WorkIsNatural(k, st, r);
    forall x: nat | x < |k.query|
      ensures !Won(k, r.mem, r.locals, x)
    {
      ModBelow(x, k.threads);
    }
  }

  // Two choices, one inside the other, are the same.
  lemma SameChoice(st: Tables, q: seq<int>, w: seq<bool>, v: seq<bool>)
    requires IsChoice(st, q, w) && IsChoice(st, q, v) && forall p | 0 <= p < |q| && w[p] :: v[p]
    ensures v == w
  {
    forall x: nat | x < |q| && v[x]
      ensures w[x]
    {
      assert Chosen(q, w, q[x]);
      var p: nat :| p < |q| && w[p] && q[p] == q[x];
      OneWinner(st, q, v, p, x);
    }
  }

  lemma AcyclicIsReached(k: Kernel, st: Tables, s: State, w: seq<bool>) returns (schedule: seq<nat>)
    requires Ready(k, st, s) && IsChoice(st, k.query, w) && Acyclic(k, st, w)
    ensures k.Finished(k.Run(s, schedule)) && k.Run(s, schedule).mem.missMask == w
  {
    var claiming := ReachClaim(k, st, s);
    NoneWonYet(k, st, s, claiming, w);
    var all := set p: nat | p < |w| && w[p];
    var won := WinAll(k, st, s, claiming, w, all);
    schedule := AlwaysFinishable(k, st, s, won);
    KernelRefinesBatch(k, st, s, schedule);
    forall p: nat | p < |k.query| && w[p]
      ensures k.Run(s, schedule).mem.missMask[p]
    {
      SecuredInEnd(k, st, s, won, schedule, p);
    }
    SameChoice(st, k.query, w, k.Run(s, schedule).mem.missMask);
  }

  // ---- the possible results --------------------------------------------------------------------------

  // A launch can end with these winners if and only if they are one position of every distinct missing
  // token and do not wait for each other in a circle.
  lemma WinnersExactly(k: Kernel, st: Tables, s: State, w: seq<bool>)
    requires Ready(k, st, s)
    ensures (exists schedule :: k.Finished(k.Run(s, schedule)) && k.Run(s, schedule).mem.missMask == w) <==>
            IsChoice(st, k.query, w) && Acyclic(k, st, w)
  {
    if schedule :| k.Finished(k.Run(s, schedule)) && k.Run(s, schedule).mem.missMask == w {
      KernelRefinesBatch(k, st, s, schedule);
      ReachedIsAcyclic(k, st, s, schedule);
    }
    if IsChoice(st, k.query, w) && Acyclic(k, st, w) {
      var schedule := AcyclicIsReached(k, st, s, w);
    }
  }

  // So the possible results are exactly the batches for such winners.
  lemma ResultsExactly(k: Kernel, st: Tables, s: State, o: Outcome)
    requires Ready(k, st, s)
    ensures (exists schedule :: k.Finished(k.Run(s, schedule)) && ResultOf(k.Run(s, schedule).mem) == o) <==>
            && IsChoice(st, k.query, o.missMask) && Acyclic(k, st, o.missMask)
            && Rank(o.missMask, |o.missMask|) <= |Evictable(st, k.query)|
            && o == Batch(st, k.query, o.missMask)
  {
    if schedule :| k.Finished(k.Run(s, schedule)) && ResultOf(k.Run(s, schedule).mem) == o {
      KernelRefinesBatch(k, st, s, schedule);
      ReachedIsAcyclic(k, st, s, schedule);
    }
    if IsChoice(st, k.query, o.missMask) && Acyclic(k, st, o.missMask) {
      var schedule := AcyclicIsReached(k, st, s, o.missMask);
      KernelRefinesBatch(k, st, s, schedule);
    }
  }

  // Two threads cannot each win the token that the other one queries first.
  lemma CrossedWinsImpossible(k: Kernel, st: Tables, s: State, schedule: seq<nat>, a: nat, b: nat, first: nat,
                              second: nat)
    requires Ready(k, st, s) && k.Finished(k.Run(s, schedule))
    requires Precedes(k, st, first, a) && Precedes(k, st, second, b)
    requires k.query[first] == k.query[b] && k.query[second] == k.query[a]
    ensures var w := k.Run(s, schedule).mem.missMask; |w| == |k.query| && !(w[a] && w[b])
  {
    KernelRefinesBatch(k, st, s, schedule);
    if k.Run(s, schedule).mem.missMask[a] && k.Run(s, schedule).mem.missMask[b] {
      NotCircular(k, st, s, schedule, {a, b});
      Crossed(k, st, a, b, first, second);
    }
  }

  lemma Crossed(k: Kernel, st: Tables, a: nat, b: nat, first: nat, second: nat)
    requires 0 < k.threads && Precedes(k, st, first, a) && Precedes(k, st, second, b)
    requires k.query[first] == k.query[b] && k.query[second] == k.query[a]
    ensures forall p | p in {a, b} :: Blocked(k, st, {a, b}, p)
  {
    assert a in {a, b} && b in {a, b};
  }
}
