/** The SIMT lookup kernel as a state machine: every step is one thread performing one access to
    shared memory, a schedule is any sequence of thread ids, and a barrier opens only when every
    thread waits at it. */
module SimtMachine {
  import opened Compaction
  import opened Mappings
  import opened LookupSpec

  // Shared memory of one request: the three tables, the two outputs and the workspace.
  datatype Mem = Mem(
    tokenToSlot: seq<int>, slotToToken: seq<int>, lru: seq<int>,
    slotIds: seq<int>, missMask: seq<bool>,
    hitFlags: seq<bool>, hitSlots: seq<int>, evictableSlots: seq<int>,
    hitCounts: seq<int>, evictCounts: seq<int>, missCounts: seq<int>, counters: seq<int>)

  // Program points; `Barrier` is the synchronisation that ends every phase.
  datatype Pc =
    | Clear | ClearCounters
    | ClaimInit | ClaimRead | ClaimHit | ClaimCas | ClaimPost
    | CountLru | StoreLru
    | SumLru | Scatter | StoreLruTotals
    | CountMiss | StoreMiss
    | SumMiss | Pick | ClearOld | SetSlot | SetToken | SetId | StoreMissTotal
    | Rewrite | Resolve
    | Barrier

  // Registers of one thread.
  datatype Local = Local(
    pc: Pc, pos: nat, i: nat, slot: int, seen: int,
    hits: int, evicts: int, misses: int,
    hitPrefix: int, evictPrefix: int, missPrefix: int,
    hitOffset: int, evictOffset: int, missOffset: int,
    victim: int, victimToken: int)

  datatype State = State(phase: nat, mem: Mem, locals: seq<Local>)

  datatype Effect = Effect(mem: Mem, local: Local)

  const LAST_PHASE := 7

  function CeilDiv(x: nat, y: nat): nat
    requires y > 0
  {
    (x + y - 1) / y
  }

  // Chunked loops: thread t starts here, even when that is beyond the end.
  function ChunkBegin(n: nat, threads: nat, t: nat): nat
    requires threads > 0
  {
    t * CeilDiv(n, threads)
  }

  // The kernel code of one request; `threads` is blockDim.x.
  datatype Kernel = Kernel(threads: nat, query: seq<int>) {

    // Registers on entry to a phase; what the phase does not initialise keeps its value.
    function Enter(m: Mem, phase: nat, t: nat, l: Local): Local
      requires threads > 0
    {
      var lruBegin := ChunkBegin(|m.lru|, threads, t);
      var queryBegin := ChunkBegin(|query|, threads, t);
      if phase == 0 then l.(pc := Clear, pos := t)
      else if phase == 1 then l.(pc := ClaimInit, pos := t)
      else if phase == 2 then l.(pc := CountLru, pos := lruBegin, hits := 0, evicts := 0)
      else if phase == 3 then l.(pc := SumLru, pos := lruBegin, i := 0, hitPrefix := 0, evictPrefix := 0)
      else if phase == 4 then l.(pc := CountMiss, pos := queryBegin, misses := 0)
      else if phase == 5 then l.(pc := SumMiss, pos := queryBegin, i := 0, missPrefix := 0)
      else if phase == 6 then l.(pc := Rewrite, pos := t)
      else l
    }

    function LruEnd(m: Mem, t: nat): nat
      requires threads > 0
    {
      Min(ChunkBegin(|m.lru|, threads, t) + CeilDiv(|m.lru|, threads), |m.lru|)
    }

    function QueryEnd(t: nat): nat
      requires threads > 0
    {
      Min(ChunkBegin(|query|, threads, t) + CeilDiv(|query|, threads), |query|)
    }

    // One access by thread t; every phase has its own code.
    function ThreadStep(phase: nat, m: Mem, t: nat, l: Local): Effect
      requires threads > 0
    {
      if phase == 0 then ClearStep(m, t, l)
      else if phase == 1 then ClaimStep(m, l)
      else if phase == 2 then CountLruStep(m, t, l)
      else if phase == 3 then ScatterStep(m, t, l)
      else if phase == 4 then CountMissStep(m, t, l)
      else if phase == 5 then ReplaceStep(m, t, l)
      else FinishStep(m, t, l)
    }

    function ClearStep(m: Mem, t: nat, l: Local): Effect {
      if l.pc.Clear? then
        if l.pos < |m.slotToToken| then
          Effect(m.(hitFlags := Put(m.hitFlags, l.pos, false)), l.(pos := l.pos + threads))
        else Effect(m, l.(pc := ClearCounters))
      else
        Effect(if t < 4 then m.(counters := Put(m.counters, t, 0)) else m, l.(pc := Barrier))
    }

    function NextQuery(l: Local): Local {
      l.(pc := ClaimInit, pos := l.pos + threads)
    }

    // The plain read and the compare-and-swap are separate steps.
    function ClaimStep(m: Mem, l: Local): Effect {
      var token := Get(query, l.pos);
      match l.pc
      case ClaimInit =>
        if l.pos >= |query| then Effect(m, l.(pc := Barrier))
        else
          var m' := m.(slotIds := Put(m.slotIds, l.pos, NOT_FOUND), missMask := Put(m.missMask, l.pos, false));
          if 0 <= token < |m.tokenToSlot| then Effect(m', l.(pc := ClaimRead)) else Effect(m', NextQuery(l))
      case ClaimRead =>
        var slot := Get(m.tokenToSlot, token);
        if slot >= 0 then Effect(m, l.(pc := ClaimHit, slot := slot))
        else if slot == NOT_FOUND then Effect(m, l.(pc := ClaimCas))
        else Effect(m, NextQuery(l))
      case ClaimHit =>
        Effect(m.(slotIds := Put(m.slotIds, l.pos, l.slot), hitFlags := Put(m.hitFlags, l.slot, true)), NextQuery(l))
      case ClaimCas =>
        var seen := Get(m.tokenToSlot, token);
        Effect(if seen == NOT_FOUND then m.(tokenToSlot := Put(m.tokenToSlot, token, CLAIMING)) else m,
               l.(pc := ClaimPost, seen := seen))
      case _ =>
        if l.seen == NOT_FOUND then Effect(m.(missMask := Put(m.missMask, l.pos, true)), NextQuery(l))
        else if l.seen >= 0 then
          Effect(m.(slotIds := Put(m.slotIds, l.pos, l.seen), hitFlags := Put(m.hitFlags, l.seen, true)), NextQuery(l))
        else Effect(m, NextQuery(l))
    }

    function HitFlagAt(m: Mem, pos: nat): bool {
      var slot := Get(m.lru, pos);
      0 <= slot < |m.hitFlags| && m.hitFlags[slot]
    }

    function CountLruStep(m: Mem, t: nat, l: Local): Effect
      requires threads > 0
    {
      if l.pc.CountLru? then
        if l.pos >= LruEnd(m, t) then Effect(m, l.(pc := StoreLru))
        else if HitFlagAt(m, l.pos) then Effect(m, l.(pos := l.pos + 1, hits := l.hits + 1))
        else Effect(m, l.(pos := l.pos + 1, evicts := l.evicts + 1))
      else
        Effect(m.(hitCounts := Put(m.hitCounts, t, l.hits), evictCounts := Put(m.evictCounts, t, l.evicts)),
               l.(pc := Barrier))
    }

    function ScatterStep(m: Mem, t: nat, l: Local): Effect
      requires threads > 0
    {
      match l.pc
      case SumLru =>
        if l.i < t then
          Effect(m, l.(i := l.i + 1,
                       hitPrefix := l.hitPrefix + Get(m.hitCounts, l.i),
                       evictPrefix := l.evictPrefix + Get(m.evictCounts, l.i)))
        else Effect(m, l.(pc := Scatter, hitOffset := l.hitPrefix, evictOffset := l.evictPrefix))
      case Scatter =>
        if l.pos >= LruEnd(m, t) then Effect(m, l.(pc := StoreLruTotals))
        else if HitFlagAt(m, l.pos) then
          Effect(m.(hitSlots := Put(m.hitSlots, l.hitOffset, Get(m.lru, l.pos))),
                 l.(pos := l.pos + 1, hitOffset := l.hitOffset + 1))
        else
          Effect(m.(evictableSlots := Put(m.evictableSlots, l.evictOffset, Get(m.lru, l.pos))),
                 l.(pos := l.pos + 1, evictOffset := l.evictOffset + 1))
      case _ =>
        Effect(if t == threads - 1
               then m.(counters := Put(Put(m.counters, 0, l.hitPrefix + l.hits), 1, l.evictPrefix + l.evicts))
               else m,
               l.(pc := Barrier))
    }

    function CountMissStep(m: Mem, t: nat, l: Local): Effect
      requires threads > 0
    {
      if l.pc.CountMiss? then
        if l.pos >= QueryEnd(t) then Effect(m, l.(pc := StoreMiss))
        else if l.pos < |m.missMask| && m.missMask[l.pos] then Effect(m, l.(pos := l.pos + 1, misses := l.misses + 1))
        else Effect(m, l.(pos := l.pos + 1))
      else Effect(m.(missCounts := Put(m.missCounts, t, l.misses)), l.(pc := Barrier))
    }

    function ReplaceStep(m: Mem, t: nat, l: Local): Effect
      requires threads > 0
    {
      var token := Get(query, l.pos);
      match l.pc
      case SumMiss =>
        if l.i < t then Effect(m, l.(i := l.i + 1, missPrefix := l.missPrefix + Get(m.missCounts, l.i)))
        else Effect(m, l.(pc := Pick, missOffset := l.missPrefix))
      case Pick =>
        if l.pos >= QueryEnd(t) then Effect(m, l.(pc := StoreMissTotal))
        else if !(l.pos < |m.missMask| && m.missMask[l.pos]) then Effect(m, l.(pos := l.pos + 1))
        else
          var victim := Get(m.evictableSlots, l.missOffset);
          Effect(m, l.(pc := ClearOld, missOffset := l.missOffset + 1, victim := victim,
                       victimToken := Get(m.slotToToken, victim)))
      case ClearOld =>
        Effect(if 0 <= l.victimToken < |m.tokenToSlot|
               then m.(tokenToSlot := Put(m.tokenToSlot, l.victimToken, NOT_FOUND)) else m,
               l.(pc := SetSlot))
      case SetSlot => Effect(m.(slotToToken := Put(m.slotToToken, l.victim, token)), l.(pc := SetToken))
      case SetToken => Effect(m.(tokenToSlot := Put(m.tokenToSlot, token, l.victim)), l.(pc := SetId))
      case SetId => Effect(m.(slotIds := Put(m.slotIds, l.pos, l.victim)), l.(pc := Pick, pos := l.pos + 1))
      case _ =>
        Effect(if t == threads - 1 then m.(counters := Put(m.counters, 2, l.missPrefix + l.misses)) else m,
               l.(pc := Barrier))
    }

    // Entry pos of the new order: untouched slots, then new ones, then hits.
    function NewOrderAt(m: Mem, pos: nat): int {
      var evictable, misses := Get(m.counters, 1), Get(m.counters, 2);
      var stale := evictable - misses;
      if pos < stale then Get(m.evictableSlots, misses + pos)
      else if pos < evictable then Get(m.evictableSlots, pos - stale)
      else Get(m.hitSlots, pos - evictable)
    }

    // The order rewrite and the duplicate resolution share the last phase.
    function FinishStep(m: Mem, t: nat, l: Local): Effect {
      if l.pc.Rewrite? then
        if l.pos >= |m.lru| then Effect(m, l.(pc := Resolve, pos := t))
        else Effect(m.(lru := Put(m.lru, l.pos, NewOrderAt(m, l.pos))), l.(pos := l.pos + threads))
      else
        var token := Get(query, l.pos);
        if l.pos >= |query| then Effect(m, l.(pc := Barrier))
        else if Get(m.slotIds, l.pos) == NOT_FOUND && 0 <= token < |m.tokenToSlot| then
          Effect(m.(slotIds := Put(m.slotIds, l.pos, Get(m.tokenToSlot, token))), l.(pos := l.pos + threads))
        else Effect(m, l.(pos := l.pos + threads))
    }

    predicate AllWaiting(s: State) {
      forall t | 0 <= t < |s.locals| :: s.locals[t].pc == Barrier
    }

    predicate Finished(s: State) {
      s.phase == LAST_PHASE
    }

    // Scheduling thread t; a thread waiting at a closed barrier stays where it is.
    function Step(s: State, t: nat): State
      requires threads > 0
    {
      if s.phase >= LAST_PHASE || t >= |s.locals| then s
      else if s.locals[t].pc != Barrier then
        var e := ThreadStep(s.phase, s.mem, t, s.locals[t]);
        State(s.phase, e.mem, s.locals[t := e.local])
      else if AllWaiting(s) then
        State(s.phase + 1, s.mem,
              seq(|s.locals|, u requires 0 <= u < |s.locals| => Enter(s.mem, s.phase + 1, u, s.locals[u])))
      else s
    }

    function Run(s: State, schedule: seq<nat>): State
      requires threads > 0
      decreases |schedule|
    {
      if schedule == [] then s else Step(Run(s, schedule[..|schedule| - 1]), schedule[|schedule| - 1])
    }

    // Launch: outputs and workspace hold arbitrary values of the allocated sizes.
    ghost predicate Launch(st: Tables, s: State) {
      && s.phase == 0
      && s.mem.tokenToSlot == st.tokenToSlot && s.mem.slotToToken == st.slotToToken && s.mem.lru == st.lru
      && Shape(st, s.mem)
      && |s.locals| == threads
      && forall t | 0 <= t < threads :: s.locals[t].pc == Clear && s.locals[t].pos == t
    }

    ghost predicate Shape(st: Tables, m: Mem) {
      && |m.tokenToSlot| == |st.tokenToSlot|
      && |m.slotToToken| == |m.lru| == |st.slotToToken|
      && |m.slotIds| == |m.missMask| == |query|
      && |m.hitFlags| == |m.hitSlots| == |m.evictableSlots| == |st.slotToToken|
      && |m.hitCounts| == |m.evictCounts| == |m.missCounts| == threads
      && |m.counters| == 4
    }

    // The accesses of the next step of thread t stay inside their arrays.
    ghost predicate InBounds(m: Mem, t: nat, l: Local)
      requires threads > 0
    {
      match l.pc
      case Clear => l.pos < |m.slotToToken| ==> l.pos < |m.hitFlags|
      case ClearCounters => |m.counters| == 4
      case ClaimInit => l.pos < |query| ==> l.pos < |m.slotIds| && l.pos < |m.missMask|
      case ClaimRead => l.pos < |query| && 0 <= query[l.pos] < |m.tokenToSlot|
      case ClaimHit => l.pos < |m.slotIds| && 0 <= l.slot < |m.hitFlags|
      case ClaimCas => l.pos < |query| && 0 <= query[l.pos] < |m.tokenToSlot|
      case ClaimPost => l.pos < |m.missMask| && l.seen < 0
      case CountLru => l.pos < LruEnd(m, t) ==> l.pos < |m.lru| && 0 <= m.lru[l.pos] < |m.hitFlags|
      case StoreLru => t < |m.hitCounts| && t < |m.evictCounts|
      case SumLru => l.i < t ==> l.i < |m.hitCounts| && l.i < |m.evictCounts|
      case Scatter =>
        l.pos < LruEnd(m, t) ==>
          && l.pos < |m.lru| && 0 <= m.lru[l.pos] < |m.hitFlags|
          && (if HitFlagAt(m, l.pos) then 0 <= l.hitOffset < |m.hitSlots|
              else 0 <= l.evictOffset < |m.evictableSlots|)
      case StoreLruTotals => |m.counters| == 4
      case CountMiss => l.pos < QueryEnd(t) ==> l.pos < |m.missMask|
      case StoreMiss => t < |m.missCounts|
      case SumMiss => l.i < t ==> l.i < |m.missCounts|
      case Pick =>
        l.pos < QueryEnd(t) ==>
          && l.pos < |m.missMask|
          && (m.missMask[l.pos] ==>
                && 0 <= l.missOffset < |m.evictableSlots|
                && 0 <= m.evictableSlots[l.missOffset] < |m.slotToToken|)
      case ClearOld => l.victimToken == NOT_FOUND || 0 <= l.victimToken < |m.tokenToSlot|
      case SetSlot => 0 <= l.victim < |m.slotToToken|
      case SetToken => l.pos < |query| && 0 <= query[l.pos] < |m.tokenToSlot|
      case SetId => l.pos < |m.slotIds|
      case StoreMissTotal => |m.counters| == 4
      case Rewrite =>
        |m.counters| == 4 &&
        (l.pos < |m.lru| ==>
           && 0 <= m.counters[2] <= m.counters[1]
           && (if l.pos < m.counters[1] then m.counters[1] <= |m.evictableSlots|
               else l.pos - m.counters[1] < |m.hitSlots|))
      case Resolve => l.pos < |query| ==> l.pos < |m.slotIds|
      case Barrier => true
    }
  }
}
