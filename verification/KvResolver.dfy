/** The ASU resolver: managed slots as a cache of the paged KV planes. The state machine on values, the
    invariant that makes gathering through it meaning-preserving, and exactly when a resolve succeeds. */
module KvResolver {
  import opened Mappings

  const INVALID := -1
  const ASU_ONLY := 0
  const HBM_RESIDENT := 1
  const TAIL_HBM := 2

  datatype Result<T> = Ok(value: T) | IndexError | OutOfSlots | ValueError

  function Error<T, U>(r: Result<T>): Result<U>
    requires !r.Ok?
  {
    match r
    case IndexError => IndexError
    case OutOfSlots => OutOfSlots
    case ValueError => ValueError
  }

  // Per-layer bookkeeping and the two managed planes, one entry per slot.
  datatype Ctx<T> = Ctx(tokenState: seq<int>, recordAddr: seq<int>, slotOfToken: seq<int>,
                        slotOwner: seq<int>, freeStack: seq<int>, freeCount: int,
                        managed0: seq<T>, managed1: seq<T>)

  // What one decode step sees of the paged cache.
  datatype Paged<T> = Paged(table: seq<int>, blockSize: nat, plane0: seq<T>, plane1: seq<T>)

  ghost predicate SameSizes<T>(a: Ctx<T>, b: Ctx<T>) {
    && |a.tokenState| == |b.tokenState| && |a.recordAddr| == |b.recordAddr|
    && |a.slotOfToken| == |b.slotOfToken| && |a.slotOwner| == |b.slotOwner|
    && |a.freeStack| == |b.freeStack| && |a.managed0| == |b.managed0| && |a.managed1| == |b.managed1|
  }

  // ---- addresses -----------------------------------------------------------------------------------

  predicate Covered<T>(paged: Paged<T>, token: int) {
    paged.blockSize > 0 && 0 <= token && token / paged.blockSize < |paged.table|
  }

  // block_table[token / bs] * bs + token % bs.
  function Address<T>(paged: Paged<T>, token: int): int
    requires Covered(paged, token)
  {
    paged.table[token / paged.blockSize] * paged.blockSize + token % paged.blockSize
  }

  predicate InPlanes<T>(paged: Paged<T>, address: int) {
    0 <= address < |paged.plane0| && address < |paged.plane1|
  }

  // The token's key/value pair is where the block table says.
  predicate Stored<T>(paged: Paged<T>, token: int) {
    Covered(paged, token) && InPlanes(paged, Address(paged, token))
  }

  // ---- one token -----------------------------------------------------------------------------------

  function SourceSlot<T>(c: Ctx<T>, paged: Paged<T>, token: int): (r: Result<int>) {
    var state := Get(c.tokenState, token);
    if state == ASU_ONLY then Ok(Get(c.recordAddr, token))
    else if state == TAIL_HBM then (if Covered(paged, token) then Ok(Address(paged, token)) else IndexError)
    else ValueError
  }

  // Pop a slot, copy both planes, record the owner. The slot is gone even when the copy fails.
  function Install<T>(c: Ctx<T>, paged: Paged<T>, token: int, source: int): (r: (Ctx<T>, Result<int>))
    ensures SameSizes(r.0, c)
  {
    if c.freeCount <= 0 then (c, OutOfSlots)
    else
      var slot := Get(c.freeStack, c.freeCount - 1);
      var popped := c.(freeCount := c.freeCount - 1);
      if !InPlanes(paged, source) || !(0 <= slot < |c.managed0| && slot < |c.managed1|) then (popped, IndexError)
      else
        (popped.(managed0 := c.managed0[slot := paged.plane0[source]],
                 managed1 := c.managed1[slot := paged.plane1[source]],
                 tokenState := Put(c.tokenState, token, HBM_RESIDENT),
                 slotOfToken := Put(c.slotOfToken, token, slot),
                 slotOwner := Put(c.slotOwner, slot, token)),
         Ok(slot))
  }

  function ResolveOne<T>(c: Ctx<T>, paged: Paged<T>, seqLen: int, token: int): (r: (Ctx<T>, Result<int>))
    ensures SameSizes(r.0, c)
  {
    if !(0 <= token < seqLen) then (c, IndexError)
    else if Get(c.tokenState, token) == HBM_RESIDENT then (c, Ok(Get(c.slotOfToken, token)))
    else
      var source := SourceSlot(c, paged, token);
      if source.Ok? then Install(c, paged, token, source.value) else (c, source)
  }

  // The first n tokens; the first error ends the call and keeps the state reached so far.
  function ResolveTo<T>(c: Ctx<T>, paged: Paged<T>, seqLen: int, topk: seq<int>, n: nat)
    : (r: (Ctx<T>, Result<seq<int>>))
    requires n <= |topk|
    ensures SameSizes(r.0, c) && (r.1.Ok? ==> |r.1.value| == n)
  {
    if n == 0 then (c, Ok([]))
    else
      var (before, slots) := ResolveTo(c, paged, seqLen, topk, n - 1);
      if !slots.Ok? then (before, slots)
      else
        var (after, slot) := ResolveOne(before, paged, seqLen, topk[n - 1]);
        (after, if slot.Ok? then Ok(slots.value + [slot.value]) else Error(slot))
  }

  function Resolve<T>(c: Ctx<T>, paged: Paged<T>, seqLen: int, topk: seq<int>): (Ctx<T>, Result<seq<int>>) {
    if seqLen < 0 || paged.blockSize == 0 then (c, ValueError)
    else ResolveTo(c, paged, seqLen, topk, |topk|)
  }

  // The first error is the result of the whole call.
  lemma {:induction false} ErrorStays<T>(c: Ctx<T>, paged: Paged<T>, seqLen: int, topk: seq<int>, m: nat, n: nat)
    requires m <= n <= |topk| && !ResolveTo(c, paged, seqLen, topk, m).1.Ok?
    ensures ResolveTo(c, paged, seqLen, topk, n) == ResolveTo(c, paged, seqLen, topk, m)
    decreases n
  {
    if m < n {
      ErrorStays(c, paged, seqLen, topk, m, n - 1);
    }
  }

  // ---- the invariant -------------------------------------------------------------------------------

  ghost predicate Sizes<T>(c: Ctx<T>) {
    && |c.recordAddr| == |c.slotOfToken| == |c.tokenState|
    && |c.slotOwner| == |c.freeStack| == |c.managed0| == |c.managed1|
  }

  ghost predicate StackOk<T>(c: Ctx<T>) {
    && 0 <= c.freeCount <= |c.freeStack|
    && (forall k | 0 <= k < c.freeCount :: 0 <= c.freeStack[k] < |c.slotOwner|)
    && (forall j, k | 0 <= j < k < c.freeCount :: c.freeStack[j] != c.freeStack[k])
  }

  ghost predicate Free<T>(c: Ctx<T>, slot: int) {
    exists k | 0 <= k < c.freeCount :: Get(c.freeStack, k) == slot
  }

  // A resident token owns a slot off the free stack that holds its original key/value pair.
  ghost predicate Faithful<T>(c: Ctx<T>, paged: Paged<T>, token: int)
    requires Sizes(c) && 0 <= token < |c.tokenState|
  {
    var slot := c.slotOfToken[token];
    && 0 <= slot < |c.slotOwner| && c.slotOwner[slot] == token && !Free(c, slot)
    && Stored(paged, token)
    && c.managed0[slot] == paged.plane0[Address(paged, token)]
    && c.managed1[slot] == paged.plane1[Address(paged, token)]
  }

  ghost predicate TokenOk<T>(c: Ctx<T>, paged: Paged<T>, token: int)
    requires Sizes(c) && 0 <= token < |c.tokenState|
  {
    && (c.tokenState[token] == HBM_RESIDENT ==> Faithful(c, paged, token))
    && (c.tokenState[token] == ASU_ONLY ==>
          Covered(paged, token) && c.recordAddr[token] == Address(paged, token))
  }

  ghost predicate Good<T>(c: Ctx<T>, paged: Paged<T>) {
    && Sizes(c) && StackOk(c)
    && forall t | 0 <= t < |c.tokenState| :: TokenOk(c, paged, t)
  }

  // Popping the top of the stack frees no slot and takes one that no resident token owns.
  lemma PopKeeps<T>(c: Ctx<T>, paged: Paged<T>)
    requires Good(c, paged) && c.freeCount > 0
    ensures Good(c.(freeCount := c.freeCount - 1), paged)
    ensures Free(c, c.freeStack[c.freeCount - 1])
    ensures !Free(c.(freeCount := c.freeCount - 1), c.freeStack[c.freeCount - 1])
  {
    var popped := c.(freeCount := c.freeCount - 1);
    assert Get(c.freeStack, c.freeCount - 1) == c.freeStack[c.freeCount - 1];
    forall t | 0 <= t < |c.tokenState|
      ensures TokenOk(popped, paged, t)
    {
      assert TokenOk(c, paged, t);
    }
  }

  lemma InstallOther<T>(c: Ctx<T>, paged: Paged<T>, token: int, source: int, t: int)
    requires Good(c, paged) && 0 <= token < |c.tokenState| && c.freeCount > 0 && InPlanes(paged, source)
    requires 0 <= t < |c.tokenState| && t != token
    ensures TokenOk(Install(c, paged, token, source).0, paged, t)
  {
    PopKeeps(c, paged);
    assert TokenOk(c.(freeCount := c.freeCount - 1), paged, t);
    assert TokenOk(c, paged, t);
  }

  // Installing a token from its own address keeps the invariant, and makes it resident.
  lemma InstallKeeps<T>(c: Ctx<T>, paged: Paged<T>, token: int, source: int)
    requires Good(c, paged) && 0 <= token < |c.tokenState|
    requires Covered(paged, token) && source == Address(paged, token)
    ensures Good(Install(c, paged, token, source).0, paged)
  {
    if c.freeCount > 0 {
      PopKeeps(c, paged);
      if InPlanes(paged, source) {
        var r := Install(c, paged, token, source).0;
        forall t | 0 <= t < |r.tokenState|
          ensures TokenOk(r, paged, t)
        {
          if t != token {
            InstallOther(c, paged, token, source, t);
          }
        }
      }
    }
  }

  // ---- a whole resolve -----------------------------------------------------------------------------

  // Residents keep their slots; nothing is evicted during a resolve.
  ghost predicate Resident<T>(c: Ctx<T>, token: int, slot: int) {
    Get(c.tokenState, token) == HBM_RESIDENT && Get(c.slotOfToken, token) == slot
  }

  lemma ResolveOneKeeps<T>(c: Ctx<T>, paged: Paged<T>, seqLen: int, token: int)
    requires Good(c, paged) && seqLen <= |c.tokenState|
    ensures Good(ResolveOne(c, paged, seqLen, token).0, paged)
    ensures var (r, slot) := ResolveOne(c, paged, seqLen, token);
            slot.Ok? ==> 0 <= token < seqLen && Resident(r, token, slot.value)
  {
    if 0 <= token < seqLen && Get(c.tokenState, token) != HBM_RESIDENT && SourceSlot(c, paged, token).Ok? {
      assert TokenOk(c, paged, token);
      InstallKeeps(c, paged, token, SourceSlot(c, paged, token).value);
    }
  }

  lemma ResidentStays<T>(c: Ctx<T>, paged: Paged<T>, seqLen: int, token: int, t: int, slot: int)
    requires Resident(c, t, slot)
    ensures Resident(ResolveOne(c, paged, seqLen, token).0, t, slot)
  {
  }

  // Every slot reported so far is where its token is resident.
  ghost predicate Reported<T>(c: Ctx<T>, seqLen: int, topk: seq<int>, slots: seq<int>) {
    && |slots| <= |topk|
    && forall i | 0 <= i < |slots| :: 0 <= topk[i] < seqLen && Resident(c, topk[i], slots[i])
  }

  lemma ReportNext<T>(c: Ctx<T>, paged: Paged<T>, seqLen: int, topk: seq<int>, slots: seq<int>, slot: int)
    requires Good(c, paged) && seqLen <= |c.tokenState| && |slots| < |topk| && Reported(c, seqLen, topk, slots)
    requires ResolveOne(c, paged, seqLen, topk[|slots|]).1 == Ok(slot)
    ensures Reported(ResolveOne(c, paged, seqLen, topk[|slots|]).0, seqLen, topk, slots + [slot])
  {
    ResolveOneKeeps(c, paged, seqLen, topk[|slots|]);
    forall i | 0 <= i < |slots|
      ensures Resident(ResolveOne(c, paged, seqLen, topk[|slots|]).0, topk[i], slots[i])
    {
      ResidentStays(c, paged, seqLen, topk[|slots|], topk[i], slots[i]);
    }
  }

  // The invariant holds after every call, failed calls included.
  lemma {:induction false} ResolveKeeps<T>(c: Ctx<T>, paged: Paged<T>, seqLen: int, topk: seq<int>, n: nat)
    requires Good(c, paged) && seqLen <= |c.tokenState| && n <= |topk|
    ensures Good(ResolveTo(c, paged, seqLen, topk, n).0, paged)
    ensures var (r, slots) := ResolveTo(c, paged, seqLen, topk, n);
            slots.Ok? ==> Reported(r, seqLen, topk, slots.value)
  {
    if n > 0 {
      ResolveKeeps(c, paged, seqLen, topk, n - 1);
      var (before, slots) := ResolveTo(c, paged, seqLen, topk, n - 1);
      if slots.Ok? {
        ResolveOneKeeps(before, paged, seqLen, topk[n - 1]);
        var slot := ResolveOne(before, paged, seqLen, topk[n - 1]).1;
        if slot.Ok? {
          ReportNext(before, paged, seqLen, topk, slots.value, slot.value);
        }
      }
    }
  }

  // Gathering through the managed slots equals gathering through the block table, in both planes.
  ghost predicate SameGather<T>(c: Ctx<T>, paged: Paged<T>, topk: seq<int>, slots: seq<int>) {
    && |slots| == |topk|
    && forall i | 0 <= i < |topk| ::
         && 0 <= slots[i] < |c.managed0| && slots[i] < |c.managed1| && Stored(paged, topk[i])
         && c.managed0[slots[i]] == paged.plane0[Address(paged, topk[i])]
         && c.managed1[slots[i]] == paged.plane1[Address(paged, topk[i])]
  }

  lemma GatherPreserved<T>(c: Ctx<T>, paged: Paged<T>, seqLen: int, topk: seq<int>)
    requires Good(c, paged) && seqLen <= |c.tokenState|
    ensures var (r, slots) := Resolve(c, paged, seqLen, topk);
            && Good(r, paged)
            && (slots.Ok? ==> SameGather(r, paged, topk, slots.value))
  {
    ResolveKeeps(c, paged, seqLen, topk, |topk|);
    var (r, slots) := Resolve(c, paged, seqLen, topk);
    if slots.Ok? {
      forall i | 0 <= i < |topk|
        ensures 0 <= topk[i] < |r.tokenState| && Resident(r, topk[i], slots.value[i])
        ensures TokenOk(r, paged, topk[i])
      {
      }
    }
  }

  // ---- exactly when a resolve succeeds ---------------------------------------------------------------

  ghost predicate Resolvable<T>(c: Ctx<T>, paged: Paged<T>, seqLen: int, token: int) {
    && 0 <= token < seqLen
    && (Get(c.tokenState, token) == HBM_RESIDENT
        || (Get(c.tokenState, token) in {ASU_ONLY, TAIL_HBM} && Stored(paged, token)))
  }

  // The distinct tokens among the first n that need a slot.
  function ToInstall<T>(c: Ctx<T>, topk: seq<int>, n: nat): set<int>
    requires n <= |topk|
  {
    if n == 0 then {}
    else if Get(c.tokenState, topk[n - 1]) == HBM_RESIDENT then ToInstall(c, topk, n - 1)
    else ToInstall(c, topk, n - 1) + {topk[n - 1]}
  }

  // Progress after some successful tokens: those installed are resident, the others as they were.
  ghost predicate Progress<T>(c: Ctx<T>, now: Ctx<T>, paged: Paged<T>, seqLen: int, installed: set<int>) {
    && SameSizes(now, c) && now.freeCount == c.freeCount - |installed|
    && (forall t | t in installed :: Resolvable(c, paged, seqLen, t))
    && forall t | 0 <= t < |c.tokenState| ::
         Get(now.tokenState, t) == if t in installed then HBM_RESIDENT else Get(c.tokenState, t)
  }

  function Needed<T>(c: Ctx<T>, installed: set<int>, token: int): set<int> {
    if Get(c.tokenState, token) == HBM_RESIDENT then installed else installed + {token}
  }

  lemma SucceedsOne<T>(c: Ctx<T>, now: Ctx<T>, paged: Paged<T>, seqLen: int, token: int, installed: set<int>)
    requires Good(c, paged) && Good(now, paged) && seqLen <= |c.tokenState|
    requires Progress(c, now, paged, seqLen, installed)
    ensures ResolveOne(now, paged, seqLen, token).1.Ok? <==>
            Resolvable(c, paged, seqLen, token) && |Needed(c, installed, token)| <= c.freeCount
  {
    if 0 <= token < seqLen {
      assert TokenOk(now, paged, token) && TokenOk(c, paged, token);
      if token in installed {
        assert installed + {token} == installed;
      }
    }
  }

  lemma ProgressOne<T>(c: Ctx<T>, now: Ctx<T>, paged: Paged<T>, seqLen: int, token: int, installed: set<int>)
    requires Good(c, paged) && Good(now, paged) && seqLen <= |c.tokenState|
    requires Progress(c, now, paged, seqLen, installed) && ResolveOne(now, paged, seqLen, token).1.Ok?
    ensures Progress(c, ResolveOne(now, paged, seqLen, token).0, paged, seqLen, Needed(c, installed, token))
  {
    SucceedsOne(c, now, paged, seqLen, token, installed);
    if token in installed {
      assert installed + {token} == installed;
    }
  }

  lemma {:induction false} ToInstallGrows<T>(c: Ctx<T>, topk: seq<int>, n: nat)
    requires 0 < n <= |topk|
    ensures |ToInstall(c, topk, n - 1)| <= |ToInstall(c, topk, n)|
  {
    if topk[n - 1] in ToInstall(c, topk, n - 1) {
      assert ToInstall(c, topk, n - 1) + {topk[n - 1]} == ToInstall(c, topk, n - 1);
    }
  }

  ghost predicate AllResolvable<T>(c: Ctx<T>, paged: Paged<T>, seqLen: int, topk: seq<int>, n: nat)
    requires n <= |topk|
  {
    forall i | 0 <= i < n :: Resolvable(c, paged, seqLen, topk[i])
  }

  lemma ResolveNext<T>(c: Ctx<T>, paged: Paged<T>, seqLen: int, topk: seq<int>, n: nat)
    requires 0 < n <= |topk|
    ensures var (before, slots) := ResolveTo(c, paged, seqLen, topk, n - 1);
            var next := ResolveOne(before, paged, seqLen, topk[n - 1]);
            && (ResolveTo(c, paged, seqLen, topk, n).1.Ok? <==> slots.Ok? && next.1.Ok?)
            && (slots.Ok? ==> ResolveTo(c, paged, seqLen, topk, n).0 == next.0)
  {
  }

  lemma SuccessNext<T>(c: Ctx<T>, paged: Paged<T>, seqLen: int, topk: seq<int>, n: nat, before: Ctx<T>, ok: bool)
    requires Good(c, paged) && Good(before, paged) && seqLen <= |c.tokenState| && 0 < n <= |topk|
    requires ok <==> AllResolvable(c, paged, seqLen, topk, n - 1) && |ToInstall(c, topk, n - 1)| <= c.freeCount
    requires ok ==> Progress(c, before, paged, seqLen, ToInstall(c, topk, n - 1))
    ensures var next := ResolveOne(before, paged, seqLen, topk[n - 1]);
            && (ok && next.1.Ok? <==>
                AllResolvable(c, paged, seqLen, topk, n) && |ToInstall(c, topk, n)| <= c.freeCount)
            && (ok && next.1.Ok? ==> Progress(c, next.0, paged, seqLen, ToInstall(c, topk, n)))
  {
    ToInstallGrows(c, topk, n);
    assert ToInstall(c, topk, n) == Needed(c, ToInstall(c, topk, n - 1), topk[n - 1]);
    if ok {
      SucceedsOne(c, before, paged, seqLen, topk[n - 1], ToInstall(c, topk, n - 1));
      if ResolveOne(before, paged, seqLen, topk[n - 1]).1.Ok? {
        ProgressOne(c, before, paged, seqLen, topk[n - 1], ToInstall(c, topk, n - 1));
      }
    }
  }

  // A resolve succeeds exactly when every token is in range, known and stored, and the free slots cover
  // the distinct tokens that are not resident yet; it then takes exactly that many slots.
  lemma {:induction false} ResolveSucceedsExactly<T>(c: Ctx<T>, paged: Paged<T>, seqLen: int, topk: seq<int>, n: nat)
    requires Good(c, paged) && seqLen <= |c.tokenState| && n <= |topk|
    ensures ResolveTo(c, paged, seqLen, topk, n).1.Ok? <==>
            AllResolvable(c, paged, seqLen, topk, n) && |ToInstall(c, topk, n)| <= c.freeCount
    ensures ResolveTo(c, paged, seqLen, topk, n).1.Ok? ==>
              Progress(c, ResolveTo(c, paged, seqLen, topk, n).0, paged, seqLen, ToInstall(c, topk, n))
  {
    if n > 0 {
      ResolveSucceedsExactly(c, paged, seqLen, topk, n - 1);
      ResolveKeeps(c, paged, seqLen, topk, n - 1);
      ResolveNext(c, paged, seqLen, topk, n);
      var (before, slots) := ResolveTo(c, paged, seqLen, topk, n - 1);
      SuccessNext(c, paged, seqLen, topk, n, before, slots.Ok?);
    }
  }

  // ---- which error ends a resolve --------------------------------------------------------------------

  lemma {:induction false} InstallMembers<T>(c: Ctx<T>, topk: seq<int>, n: nat, t: int)
    requires n <= |topk|
    ensures t in ToInstall(c, topk, n) <==> t in topk[..n] && Get(c.tokenState, t) != HBM_RESIDENT
  {
    if n > 0 {
      InstallMembers(c, topk, n - 1, t);
      assert topk[..n] == topk[..n - 1] + [topk[n - 1]];
    }
  }

  // What becomes of position k once the positions before it have resolved, judged by the context before the
  // call: a token that is resident or listed before resolves; any other needs a known state, an entry in the
  // block table, one more free slot, and its pair inside the planes, in this order.
  function Verdict<T>(c: Ctx<T>, paged: Paged<T>, seqLen: int, topk: seq<int>, k: nat): Result<seq<int>>
    requires k < |topk|
  {
    var t := topk[k];
    if !(0 <= t < seqLen) then IndexError
    else if Get(c.tokenState, t) == HBM_RESIDENT || t in topk[..k] then Ok([])
    else if Get(c.tokenState, t) !in {ASU_ONLY, TAIL_HBM} then ValueError
    else if !Covered(paged, t) then IndexError
    else if |ToInstall(c, topk, k)| >= c.freeCount then OutOfSlots
    else if !Stored(paged, t) then IndexError
    else Ok([])
  }

  lemma OneVerdict<T>(c: Ctx<T>, now: Ctx<T>, paged: Paged<T>, seqLen: int, topk: seq<int>, k: nat)
    requires Good(c, paged) && Good(now, paged) && seqLen <= |c.tokenState| && k < |topk|
    requires Progress(c, now, paged, seqLen, ToInstall(c, topk, k))
    ensures var r := ResolveOne(now, paged, seqLen, topk[k]).1;
            if r.Ok? then Verdict(c, paged, seqLen, topk, k).Ok? else Verdict(c, paged, seqLen, topk, k) == Error(r)
  {
    InstallMembers(c, topk, k, topk[k]);
    if 0 <= topk[k] < seqLen {
      assert TokenOk(now, paged, topk[k]) && TokenOk(c, paged, topk[k]);
    }
  }

  // The first position that does not resolve.
  ghost predicate FirstToFail<T>(c: Ctx<T>, paged: Paged<T>, seqLen: int, topk: seq<int>, k: nat)
    requires k < |topk|
  {
    !Verdict(c, paged, seqLen, topk, k).Ok? && forall j | 0 <= j < k :: Verdict(c, paged, seqLen, topk, j).Ok?
  }

  // The result fits the verdicts: a success if all resolve, else the error of the first that does not.
  ghost predicate Judged<T>(c: Ctx<T>, paged: Paged<T>, seqLen: int, topk: seq<int>, n: nat, r: Result<seq<int>>)
    requires n <= |topk|
  {
    && (r.Ok? <==> forall k | 0 <= k < n :: Verdict(c, paged, seqLen, topk, k).Ok?)
    && forall k | 0 <= k < n && FirstToFail(c, paged, seqLen, topk, k) :: r == Verdict(c, paged, seqLen, topk, k)
  }

  lemma JudgedNext<T>(c: Ctx<T>, paged: Paged<T>, seqLen: int, topk: seq<int>, n: nat,
                      before: Result<seq<int>>, after: Result<seq<int>>)
    requires 0 < n <= |topk| && Judged(c, paged, seqLen, topk, n - 1, before)
    requires if !before.Ok? then after == before
             else if after.Ok? then Verdict(c, paged, seqLen, topk, n - 1).Ok?
             else Verdict(c, paged, seqLen, topk, n - 1) == after
    ensures Judged(c, paged, seqLen, topk, n, after)
  {
  }

  lemma VerdictNext<T>(c: Ctx<T>, paged: Paged<T>, seqLen: int, topk: seq<int>, n: nat)
    requires Good(c, paged) && seqLen <= |c.tokenState| && 0 < n <= |topk|
    ensures var (before, after) := (ResolveTo(c, paged, seqLen, topk, n - 1).1, ResolveTo(c, paged, seqLen, topk, n).1);
            if !before.Ok? then after == before
            else if after.Ok? then Verdict(c, paged, seqLen, topk, n - 1).Ok?
            else Verdict(c, paged, seqLen, topk, n - 1) == after
  {
    var (now, slots) := ResolveTo(c, paged, seqLen, topk, n - 1);
    if slots.Ok? {
      ResolveSucceedsExactly(c, paged, seqLen, topk, n - 1);
      ResolveKeeps(c, paged, seqLen, topk, n - 1);
      OneVerdict(c, now, paged, seqLen, topk, n - 1);
    }
  }

  // A resolve succeeds, or fails with the error of the first position that does not resolve.
  lemma {:induction false} ErrorExactly<T>(c: Ctx<T>, paged: Paged<T>, seqLen: int, topk: seq<int>, n: nat)
    requires Good(c, paged) && seqLen <= |c.tokenState| && n <= |topk|
    ensures Judged(c, paged, seqLen, topk, n, ResolveTo(c, paged, seqLen, topk, n).1)
  {
    if n > 0 {
      ErrorExactly(c, paged, seqLen, topk, n - 1);
      VerdictNext(c, paged, seqLen, topk, n);
      JudgedNext(c, paged, seqLen, topk, n, ResolveTo(c, paged, seqLen, topk, n - 1).1,
                 ResolveTo(c, paged, seqLen, topk, n).1);
    }
  }

  // The whole call: a negative length or an empty block is rejected before any token is looked at.
  lemma ResolveOutcome<T>(c: Ctx<T>, paged: Paged<T>, seqLen: int, topk: seq<int>)
    requires Good(c, paged) && seqLen <= |c.tokenState|
    ensures var (r, slots) := Resolve(c, paged, seqLen, topk);
            && (seqLen < 0 || paged.blockSize == 0 ==> r == c && slots == ValueError)
            && (seqLen >= 0 && paged.blockSize > 0 ==> Judged(c, paged, seqLen, topk, |topk|, slots))
  {
    ErrorExactly(c, paged, seqLen, topk, |topk|);
  }
}
