/** The AscendC resolver kernel: the same operation without checks, on flat planes copied element by
    element. What it does on every call that stays inside its tensors, exactly when that is what the
    reference does, and that it gathers the original pairs in any case. */
module KvKernel {
  import opened Mappings
  import opened Options
  import opened FlatRows
  import opened KvResolver

  // ---- the unchecked operation on values -------------------------------------------------------------

  // One token, or nothing when an access would fall outside a tensor. The sequence length is not looked
  // at, and every state but HBM_RESIDENT and ASU_ONLY is taken for a tail token.
  function KernelOne<T>(c: Ctx<T>, paged: Paged<T>, token: int): Option<(Ctx<T>, int)> {
    if !(0 <= token < |c.tokenState|) then None
    else if c.tokenState[token] == HBM_RESIDENT then Some((c, Get(c.slotOfToken, token)))
    else if c.tokenState[token] == ASU_ONLY then KernelInstall(c, paged, token, Get(c.recordAddr, token))
    else if !Covered(paged, token) then None
    else KernelInstall(c, paged, token, Address(paged, token))
  }

  function KernelInstall<T>(c: Ctx<T>, paged: Paged<T>, token: int, source: int): Option<(Ctx<T>, int)> {
    var (r, slot) := Install(c, paged, token, source);
    if c.freeCount <= |c.freeStack| && slot.Ok? then Some((r, slot.value)) else None
  }

  function KernelTo<T>(c: Ctx<T>, paged: Paged<T>, topk: seq<int>, n: nat): (r: Option<(Ctx<T>, seq<int>)>)
    requires n <= |topk|
    ensures r.Some? ==> SameSizes(r.value.0, c) && |r.value.1| == n
  {
    if n == 0 then Some((c, []))
    else
      match KernelTo(c, paged, topk, n - 1)
      case None => None
      case Some((before, slots)) =>
        match KernelOne(before, paged, topk[n - 1])
        case None => None
        case Some((after, slot)) => Some((after, slots + [slot]))
  }

  // ---- against the reference -------------------------------------------------------------------------

  // What the reference checks and the kernel does not.
  predicate Checked<T>(c: Ctx<T>, seqLen: int, token: int) {
    0 <= token < seqLen && Get(c.tokenState, token) in {ASU_ONLY, HBM_RESIDENT, TAIL_HBM}
  }

  lemma KernelOneAgrees<T>(c: Ctx<T>, paged: Paged<T>, seqLen: int, token: int)
    requires seqLen <= |c.tokenState| && c.freeCount <= |c.freeStack|
    ensures var (r, slot) := ResolveOne(c, paged, seqLen, token);
            && (slot.Ok? <==> KernelOne(c, paged, token).Some? && Checked(c, seqLen, token))
            && (slot.Ok? ==> KernelOne(c, paged, token) == Some((r, slot.value)))
            && r.freeCount <= c.freeCount
  {
  }

  // A token in no state the reference knows stays so: nothing installs it.
  lemma {:induction false} UncheckedStays<T>(c: Ctx<T>, paged: Paged<T>, seqLen: int, topk: seq<int>, n: nat, t: int)
    requires n <= |topk| && seqLen <= |c.tokenState|
    ensures var r := ResolveTo(c, paged, seqLen, topk, n).0;
            Checked(r, seqLen, t) <==> Checked(c, seqLen, t)
  {
    if n > 0 {
      UncheckedStays(c, paged, seqLen, topk, n - 1, t);
      var before := ResolveTo(c, paged, seqLen, topk, n - 1).0;
      CheckedStays(before, paged, seqLen, topk[n - 1], t);
    }
  }

  lemma CheckedStays<T>(c: Ctx<T>, paged: Paged<T>, seqLen: int, token: int, t: int)
    requires seqLen <= |c.tokenState|
    ensures Checked(ResolveOne(c, paged, seqLen, token).0, seqLen, t) <==> Checked(c, seqLen, t)
  {
  }

  ghost predicate AllChecked<T>(c: Ctx<T>, seqLen: int, topk: seq<int>, n: nat)
    requires n <= |topk|
  {
    forall i | 0 <= i < n :: Checked(c, seqLen, topk[i])
  }

  // The reference accepts exactly when the kernel stays inside its tensors and everything is checked, and
  // then with the same context and slots.
  ghost predicate Agree<T>(reference: (Ctx<T>, Result<seq<int>>), kernel: Option<(Ctx<T>, seq<int>)>, checked: bool) {
    && (reference.1.Ok? <==> kernel.Some? && checked)
    && (reference.1.Ok? ==> kernel == Some((reference.0, reference.1.value)))
  }

  // The reference accepts a call exactly when the kernel stays inside its tensors and every token is in
  // range and in a known state; then both do the same.
  lemma {:induction false} KernelAgrees<T>(c: Ctx<T>, paged: Paged<T>, seqLen: int, topk: seq<int>, n: nat)
    requires seqLen <= |c.tokenState| && c.freeCount <= |c.freeStack| && n <= |topk|
    ensures Agree(ResolveTo(c, paged, seqLen, topk, n), KernelTo(c, paged, topk, n), AllChecked(c, seqLen, topk, n))
    ensures ResolveTo(c, paged, seqLen, topk, n).0.freeCount <= c.freeCount
  {
    if n > 0 {
      KernelAgrees(c, paged, seqLen, topk, n - 1);
      UncheckedStays(c, paged, seqLen, topk, n - 1, topk[n - 1]);
      var before := ResolveTo(c, paged, seqLen, topk, n - 1).0;
      KernelOneAgrees(before, paged, seqLen, topk[n - 1]);
      AgreeNext(c, paged, seqLen, topk, n);
    }
  }

  lemma AgreeNext<T>(c: Ctx<T>, paged: Paged<T>, seqLen: int, topk: seq<int>, n: nat)
    requires 0 < n <= |topk|
    requires Agree(ResolveTo(c, paged, seqLen, topk, n - 1), KernelTo(c, paged, topk, n - 1),
                   AllChecked(c, seqLen, topk, n - 1))
    requires var before := ResolveTo(c, paged, seqLen, topk, n - 1).0;
             var (r, slot) := ResolveOne(before, paged, seqLen, topk[n - 1]);
             && (slot.Ok? <==> KernelOne(before, paged, topk[n - 1]).Some? && Checked(c, seqLen, topk[n - 1]))
             && (slot.Ok? ==> KernelOne(before, paged, topk[n - 1]) == Some((r, slot.value)))
    ensures Agree(ResolveTo(c, paged, seqLen, topk, n), KernelTo(c, paged, topk, n), AllChecked(c, seqLen, topk, n))
  {
  }

  // The checks make a difference: one INVALID token, a free slot and a block for it. The reference raises
  // an error, the kernel resolves the token.
  lemma UncheckedInput()
    ensures var c: Ctx<int> := Ctx([INVALID], [INVALID], [INVALID], [INVALID], [0], 1, [0], [0]);
            var paged := Paged([0], 1, [7], [9]);
            && Good(c, paged) && Resolve(c, paged, 1, [0]).1 == ValueError
            && KernelTo(c, paged, [0], 1).Some? && KernelTo(c, paged, [0], 1).value.1 == [0]
  {
    var c: Ctx<int> := Ctx([INVALID], [INVALID], [INVALID], [INVALID], [0], 1, [0], [0]);
    var paged := Paged([0], 1, [7], [9]);
    assert ResolveTo(c, paged, 1, [0], 0) == (c, Ok([]));
    assert KernelTo(c, paged, [0], 0) == Some((c, []));
    assert KernelOne(c, paged, 0).Some?;
  }

  lemma KernelOneKeeps<T>(c: Ctx<T>, paged: Paged<T>, token: int)
    requires Good(c, paged) && KernelOne(c, paged, token).Some?
    ensures var (r, slot) := KernelOne(c, paged, token).value;
            && 0 <= token < |c.tokenState| && Good(r, paged) && SameSizes(r, c) && Resident(r, token, slot)
            && forall t, s :: Resident(c, t, s) ==> Resident(r, t, s)
  {
    assert TokenOk(c, paged, token);
    if c.tokenState[token] == ASU_ONLY {
      InstallKeeps(c, paged, token, c.recordAddr[token]);
    } else if c.tokenState[token] != HBM_RESIDENT {
      InstallKeeps(c, paged, token, Address(paged, token));
    }
  }

  lemma {:induction false} KernelKeeps<T>(c: Ctx<T>, paged: Paged<T>, topk: seq<int>, n: nat)
    requires Good(c, paged) && n <= |topk| && KernelTo(c, paged, topk, n).Some?
    ensures var (r, slots) := KernelTo(c, paged, topk, n).value;
            Good(r, paged) && Reported(r, |c.tokenState|, topk, slots)
  {
    if n > 0 {
      KernelKeeps(c, paged, topk, n - 1);
      var (before, slots) := KernelTo(c, paged, topk, n - 1).value;
      KernelReports(before, paged, topk, slots);
    }
  }

  lemma KernelReports<T>(c: Ctx<T>, paged: Paged<T>, topk: seq<int>, slots: seq<int>)
    requires Good(c, paged) && |slots| < |topk| && Reported(c, |c.tokenState|, topk, slots)
    requires KernelOne(c, paged, topk[|slots|]).Some?
    ensures var (r, slot) := KernelOne(c, paged, topk[|slots|]).value;
            Good(r, paged) && Reported(r, |c.tokenState|, topk, slots + [slot])
  {
    KernelOneKeeps(c, paged, topk[|slots|]);
  }

  // Whatever tokens it is given, the kernel gathers the original pairs as long as it stays inside its
  // tensors.
  lemma KernelGathers<T>(c: Ctx<T>, paged: Paged<T>, topk: seq<int>)
    requires Good(c, paged) && KernelTo(c, paged, topk, |topk|).Some?
    ensures var (r, slots) := KernelTo(c, paged, topk, |topk|).value;
            Good(r, paged) && SameGather(r, paged, topk, slots)
  {
    KernelKeeps(c, paged, topk, |topk|);
    var (r, slots) := KernelTo(c, paged, topk, |topk|).value;
    forall i | 0 <= i < |topk|
      ensures 0 <= topk[i] < |r.tokenState| && Resident(r, topk[i], slots[i])
      ensures TokenOk(r, paged, topk[i])
    {
    }
  }

  // ---- the kernel --------------------------------------------------------------------------------------

  // The element loop.
  method CopyElements<E>(src: array<E>, dst: array<E>, srcOffset: nat, dstOffset: nat, count: nat)
    requires src != dst && srcOffset + count <= src.Length && dstOffset + count <= dst.Length
    modifies dst
    ensures forall k | 0 <= k < dst.Length ::
              dst[k] == if dstOffset <= k < dstOffset + count then src[srcOffset + k - dstOffset] else old(dst[k])
  {
    for j := 0 to count
      invariant forall k | 0 <= k < dst.Length ::
                  dst[k] == if dstOffset <= k < dstOffset + j then src[srcOffset + k - dstOffset] else old(dst[k])
    {
      dst[dstOffset + j] := src[srcOffset + j];
    }
  }

  method CopySlot<E>(src: array<E>, dst: array<E>, sourceSlot: nat, managedSlot: nat, slotElements: nat,
                     ghost sources: nat, ghost slots: nat)
    requires src != dst && src.Length == sources * slotElements && dst.Length == slots * slotElements
    requires sourceSlot < sources && managedSlot < slots
    modifies dst
    ensures Rows(dst[..], slotElements, slots) ==
            Rows(old(dst[..]), slotElements, slots)[managedSlot := Rows(src[..], slotElements, sources)[sourceSlot]]
  {
    RowInside(src.Length, slotElements, sources, sourceSlot);
    RowInside(dst.Length, slotElements, slots, managedSlot);
    var srcOffset, dstOffset := sourceSlot * slotElements, managedSlot * slotElements;
    CopyElements(src, dst, srcOffset, dstOffset, slotElements);
    ghost var row := Row(src[..], slotElements, sources, sourceSlot);
    assert row == src[srcOffset..srcOffset + slotElements];
    CopyRow(old(dst[..]), dst[..], slotElements, slots, managedSlot, row);
  }

  class AsuKvResolverKernel<E> {
    const tokenState: array<int>
    const recordAddr: array<int>
    const slotOfToken: array<int>
    const slotOwner: array<int>
    const freeStack: array<int>
    const freeCount: array<int>
    const blockTable: array<int>
    const original0: array<E>
    const original1: array<E>
    const managed0: array<E>
    const managed1: array<E>
    const blockSize: nat
    const slotElements0: nat
    const slotElements1: nat
    ghost const sources: nat
    ghost const slots: nat

    constructor (tokenState: array<int>, recordAddr: array<int>, slotOfToken: array<int>, slotOwner: array<int>,
                 freeStack: array<int>, freeCount: array<int>, blockTable: array<int>, original0: array<E>,
                 original1: array<E>, managed0: array<E>, managed1: array<E>, blockSize: nat,
                 slotElements0: nat, slotElements1: nat, ghost sources: nat, ghost slots: nat)
      ensures this.tokenState == tokenState && this.recordAddr == recordAddr && this.slotOfToken == slotOfToken
      ensures this.slotOwner == slotOwner && this.freeStack == freeStack && this.freeCount == freeCount
      ensures this.blockTable == blockTable && this.original0 == original0 && this.original1 == original1
      ensures this.managed0 == managed0 && this.managed1 == managed1 && this.blockSize == blockSize
      ensures this.slotElements0 == slotElements0 && this.slotElements1 == slotElements1
      ensures this.sources == sources && this.slots == slots
    {
      this.tokenState, this.recordAddr, this.slotOfToken := tokenState, recordAddr, slotOfToken;
      this.slotOwner, this.freeStack, this.freeCount := slotOwner, freeStack, freeCount;
      this.blockTable, this.original0, this.original1 := blockTable, original0, original1;
      this.managed0, this.managed1, this.blockSize := managed0, managed1, blockSize;
      this.slotElements0, this.slotElements1 := slotElements0, slotElements1;
      this.sources, this.slots := sources, slots;
    }

    ghost predicate Separate() {
      && tokenState != slotOfToken && tokenState != slotOwner && tokenState != freeCount
      && slotOfToken != slotOwner && slotOfToken != freeCount && slotOwner != freeCount
      && recordAddr !in {tokenState, slotOfToken, slotOwner, freeCount}
      && freeStack !in {tokenState, slotOfToken, slotOwner, freeCount}
      && blockTable !in {tokenState, slotOfToken, slotOwner, freeCount}
      && managed0 != managed1 && original0 !in {managed0, managed1} && original1 !in {managed0, managed1}
      && {managed0 as object, managed1, original0, original1} !!
         {tokenState as object, recordAddr, slotOfToken, slotOwner, freeStack, freeCount, blockTable}
    }

    ghost predicate Valid() {
      && recordAddr.Length == slotOfToken.Length == tokenState.Length
      && slotOwner.Length == freeStack.Length == slots && freeCount.Length > 0
      && managed0.Length == slots * slotElements0 && managed1.Length == slots * slotElements1
      && original0.Length == sources * slotElements0 && original1.Length == sources * slotElements1
    }

    ghost function Contents(): Ctx<seq<E>>
      requires Valid()
      reads tokenState, recordAddr, slotOfToken, slotOwner, freeStack, freeCount, managed0, managed1
    {
      Ctx(tokenState[..], recordAddr[..], slotOfToken[..], slotOwner[..], freeStack[..], freeCount[0],
          Rows(managed0[..], slotElements0, slots), Rows(managed1[..], slotElements1, slots))
    }

    ghost function Cache(): Paged<seq<E>>
      requires Valid()
      reads blockTable, original0, original1
    {
      Paged(blockTable[..], blockSize, Rows(original0[..], slotElements0, sources),
            Rows(original1[..], slotElements1, sources))
    }

    method ResolveTailSourceSlot(token: nat) returns (slot: int)
      requires Valid() && Covered(Cache(), token)
      ensures slot == Address(Cache(), token)
    {
      var logicalBlock := token / blockSize;
      var offset := token - logicalBlock * blockSize;
      slot := blockTable[logicalBlock] * blockSize + offset;
    }

    method PopFreeSlot() returns (slot: int)
      requires Valid() && 0 < freeCount[0] <= freeStack.Length && Separate()
      modifies freeCount
      ensures slot == freeStack[old(freeCount[0]) - 1]
      ensures Contents() == old(Contents()).(freeCount := old(freeCount[0]) - 1)
    {
      var nextCount := freeCount[0] - 1;
      freeCount[0] := nextCount;
      slot := freeStack[nextCount];
    }

    method CopyFullKvPair(sourceSlot: nat, managedSlot: nat)
      requires Valid() && Separate() && sourceSlot < sources && managedSlot < slots
      modifies managed0, managed1
      ensures Contents() ==
              old(Contents()).(managed0 := old(Contents()).managed0[managedSlot := Cache().plane0[sourceSlot]],
                               managed1 := old(Contents()).managed1[managedSlot := Cache().plane1[sourceSlot]])
    {
      CopySlot(original0, managed0, sourceSlot, managedSlot, slotElements0, sources, slots);
      CopySlot(original1, managed1, sourceSlot, managedSlot, slotElements1, sources, slots);
    }

    method Record(token: nat, slot: nat)
      requires Valid() && Separate() && token < tokenState.Length && slot < slots
      modifies tokenState, slotOfToken, slotOwner
      ensures Contents() ==
              old(Contents()).(tokenState := old(tokenState[..])[token := HBM_RESIDENT],
                               slotOfToken := old(slotOfToken[..])[token := slot],
                               slotOwner := old(slotOwner[..])[slot := token])
    {
      tokenState[token] := HBM_RESIDENT;
      slotOfToken[token] := slot;
      slotOwner[slot] := token;
      assert tokenState[..] == old(tokenState[..])[token := HBM_RESIDENT];
      assert slotOfToken[..] == old(slotOfToken[..])[token := slot];
      assert slotOwner[..] == old(slotOwner[..])[slot := token];
    }

    // One iteration of Process.
    method ResolveToken(token: int) returns (slot: int)
      requires Valid() && Separate() && KernelOne(Contents(), Cache(), token).Some?
      modifies freeCount, tokenState, slotOfToken, slotOwner, managed0, managed1
      ensures KernelOne(old(Contents()), Cache(), token) == Some((Contents(), slot))
    {
      var state := tokenState[token];
      slot := slotOfToken[token];
      if state != HBM_RESIDENT {
        var sourceSlot;
        if state == ASU_ONLY {
          sourceSlot := recordAddr[token];
        } else {
          sourceSlot := ResolveTailSourceSlot(token);
        }
        slot := PopFreeSlot();
        CopyFullKvPair(sourceSlot, slot);
        Record(token, slot);
      }
    }

    // The next token of the list.
    method ResolveNextToken(topk: seq<int>, i: nat, soFar: seq<int>, ghost c: Ctx<seq<E>>, ghost paged: Paged<seq<E>>)
      returns (resolved: seq<int>)
      requires Valid() && Separate() && Cache() == paged && i < |topk|
      requires KernelTo(c, paged, topk, i) == Some((Contents(), soFar)) && KernelTo(c, paged, topk, i + 1).Some?
      modifies freeCount, tokenState, slotOfToken, slotOwner, managed0, managed1
      ensures Cache() == paged && KernelTo(c, paged, topk, i + 1) == Some((Contents(), resolved))
    {
      KernelNext(c, paged, topk, i, Contents(), soFar);
      var slot := ResolveToken(topk[i]);
      resolved := soFar + [slot];
    }

    // Process, on every call that stays inside the tensors.
    method Process(topk: seq<int>) returns (resolved: seq<int>)
      requires Valid() && Separate() && KernelTo(Contents(), Cache(), topk, |topk|).Some?
      modifies freeCount, tokenState, slotOfToken, slotOwner, managed0, managed1
      ensures KernelTo(old(Contents()), Cache(), topk, |topk|) == Some((Contents(), resolved))
    {
      ghost var c, paged := Contents(), Cache();
      resolved := [];
      for i := 0 to |topk|
        invariant unchanged(blockTable, original0, original1)
        invariant KernelTo(c, paged, topk, i) == Some((Contents(), resolved))
      {
        KernelPrefix(c, paged, topk, i + 1, |topk|);
        resolved := ResolveNextToken(topk, i, resolved, c, paged);
      }
    }
  }

  lemma KernelNext<T>(c: Ctx<T>, paged: Paged<T>, topk: seq<int>, i: nat, now: Ctx<T>, resolved: seq<int>)
    requires i < |topk| && KernelTo(c, paged, topk, i) == Some((now, resolved))
    requires KernelTo(c, paged, topk, i + 1).Some?
    ensures KernelOne(now, paged, topk[i]).Some?
    ensures var (after, slot) := KernelOne(now, paged, topk[i]).value;
            KernelTo(c, paged, topk, i + 1) == Some((after, resolved + [slot]))
  {
  }

  lemma {:induction false} KernelPrefix<T>(c: Ctx<T>, paged: Paged<T>, topk: seq<int>, m: nat, n: nat)
    requires m <= n <= |topk| && KernelTo(c, paged, topk, n).Some?
    ensures KernelTo(c, paged, topk, m).Some?
    decreases n
  {
    if m < n {
      KernelPrefix(c, paged, topk, m, n - 1);
    }
  }
}
