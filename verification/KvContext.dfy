/** ASULayerKVCacheContext and the resolver functions, updating the context's tensors in place. */
module KvContext {
  import opened Mappings
  import opened KvResolver
  import opened KvManager

  // block_table[i / bs] * bs + i % bs for the positions of the prefix.
  function SourceSlots<T>(paged: Paged<T>, prefix: nat): (s: seq<int>)
    requires forall i | 0 <= i < prefix :: Covered(paged, i)
    ensures |s| == prefix && forall i | 0 <= i < prefix :: s[i] == Address(paged, i)
  {
    seq(prefix, i requires 0 <= i < prefix => Address(paged, i))
  }

  // A table that covers the last position of the prefix covers all of it.
  lemma PrefixCovered<T>(paged: Paged<T>, prefix: nat)
    requires prefix > 0 && paged.blockSize > 0 && (prefix - 1) / paged.blockSize < |paged.table|
    ensures forall i | 0 <= i < prefix :: Covered(paged, i)
  {
    forall i | 0 <= i < prefix
      ensures Covered(paged, i)
    {
      DivMonotone(i, prefix - 1, paged.blockSize);
    }
  }

  class LayerContext<T> {
    const tokenState: array<int>
    const recordAddr: array<int>
    const slotOfToken: array<int>
    const slotOwner: array<int>
    const freeStack: array<int>
    const managed0: array<T>
    const managed1: array<T>
    const blockSize: nat
    var freeCount: int
    var reqId: ReqId
    var actualSeqLen: int
    var prefixLen: int

    // A layer of from_kv_caches: everything INVALID, every slot free.
    constructor (maxSeqLen: nat, slots: nat, blockSize: nat, plane0: array<T>, plane1: array<T>)
      requires plane0 != plane1 && plane0.Length == plane1.Length == slots
      ensures this.blockSize == blockSize && managed0 == plane0 && managed1 == plane1
      ensures fresh({tokenState, recordAddr, slotOfToken, slotOwner, freeStack})
      ensures Separate() && Valid()
      ensures tokenState.Length == maxSeqLen
      ensures State() == Layer(NoRequest, 0, 0, Cleared(Ctx(Filled(maxSeqLen, INVALID), Filled(maxSeqLen, INVALID),
                                 Filled(maxSeqLen, INVALID), Filled(slots, INVALID), Arange(slots), slots,
                                 plane0[..], plane1[..])))
    {
      tokenState := new int[maxSeqLen](_ => INVALID);
      recordAddr := new int[maxSeqLen](_ => INVALID);
      slotOfToken := new int[maxSeqLen](_ => INVALID);
      slotOwner := new int[slots](_ => INVALID);
      freeStack := new int[slots](i => i);
      managed0, managed1, this.blockSize := plane0, plane1, blockSize;
      freeCount, reqId, actualSeqLen, prefixLen := slots, NoRequest, 0, 0;
      new;
      assert tokenState[..] == Filled(maxSeqLen, INVALID) && recordAddr[..] == Filled(maxSeqLen, INVALID);
      assert slotOfToken[..] == Filled(maxSeqLen, INVALID) && slotOwner[..] == Filled(slots, INVALID);
      assert freeStack[..] == Arange(slots);
    }

    ghost predicate Separate() {
      && tokenState != recordAddr && tokenState != slotOfToken && tokenState != slotOwner
      && tokenState != freeStack && recordAddr != slotOfToken && recordAddr != slotOwner
      && recordAddr != freeStack && slotOfToken != slotOwner && slotOfToken != freeStack
      && slotOwner != freeStack && managed0 != managed1
      && (managed0 as object) !in {tokenState as object, recordAddr, slotOfToken, slotOwner, freeStack}
      && (managed1 as object) !in {tokenState as object, recordAddr, slotOfToken, slotOwner, freeStack}
    }

    ghost predicate Valid() {
      && recordAddr.Length == slotOfToken.Length == tokenState.Length
      && slotOwner.Length == freeStack.Length == managed0.Length == managed1.Length
    }

    ghost function Contents(): Ctx<T>
      reads this, tokenState, recordAddr, slotOfToken, slotOwner, freeStack, managed0, managed1
    {
      Ctx(tokenState[..], recordAddr[..], slotOfToken[..], slotOwner[..], freeStack[..], freeCount,
          managed0[..], managed1[..])
    }

    ghost function State(): Layer<T>
      reads this, tokenState, recordAddr, slotOfToken, slotOwner, freeStack, managed0, managed1
    {
      Layer(reqId, actualSeqLen, prefixLen, Contents())
    }

    method Fill(a: array<int>, low: nat, high: nat, v: int)
      requires low <= high <= a.Length
      modifies a
      ensures forall i | 0 <= i < a.Length :: a[i] == if low <= i < high then v else old(a[i])
    {
      forall i | low <= i < high {
        a[i] := v;
      }
    }

    method ClearState()
      requires Separate() && Valid()
      modifies this`freeCount, tokenState, recordAddr, slotOfToken, slotOwner, freeStack
      ensures Contents() == Cleared(old(Contents()))
    {
      Fill(tokenState, 0, tokenState.Length, INVALID);
      Fill(recordAddr, 0, recordAddr.Length, INVALID);
      Fill(slotOfToken, 0, slotOfToken.Length, INVALID);
      Fill(slotOwner, 0, slotOwner.Length, INVALID);
      forall k | 0 <= k < freeStack.Length {
        freeStack[k] := k;
      }
      freeCount := managed0.Length;
      assert tokenState[..] == Filled(tokenState.Length, INVALID);
      assert recordAddr[..] == Filled(recordAddr.Length, INVALID);
      assert slotOfToken[..] == Filled(slotOfToken.Length, INVALID);
      assert slotOwner[..] == Filled(slotOwner.Length, INVALID);
      assert freeStack[..] == Arange(freeStack.Length);
    }

    // The addresses of the prefix, by the block table.
    method LoadPrefix(paged: Paged<T>, prefix: nat)
      requires Separate() && Valid() && prefix <= tokenState.Length
      requires forall i | 0 <= i < prefix :: Covered(paged, i)
      modifies tokenState, recordAddr
      ensures forall i | 0 <= i < tokenState.Length ::
                tokenState[i] == if i < prefix then ASU_ONLY else old(tokenState[i])
      ensures forall i | 0 <= i < recordAddr.Length ::
                recordAddr[i] == if i < prefix then Address(paged, i) else old(recordAddr[i])
    {
      Fill(tokenState, 0, prefix, ASU_ONLY);
      var sourceSlots := SourceSlots(paged, prefix);
      forall i | 0 <= i < prefix {
        recordAddr[i] := sourceSlots[i];
      }
    }

    method ResetState(newReqId: ReqId, actual: int, prefix: int, paged: Paged<T>) returns (status: Status)
      requires Separate() && Valid() && paged.blockSize == blockSize > 0
      modifies this, tokenState, recordAddr, slotOfToken, slotOwner, freeStack
      ensures (State(), status) == Reset(old(State()), newReqId, actual, prefix, paged)
    {
      if actual < 0 || prefix < 0 || prefix > actual {
        return BadArgument;
      }
      if actual > tokenState.Length {
        return Failed;
      }
      reqId, actualSeqLen, prefixLen := newReqId, actual, prefix;
      ClearState();
      ghost var cleared := Contents();
      if prefix > 0 {
        if (prefix - 1) / blockSize >= |paged.table| {
          return Failed;
        }
        PrefixCovered(paged, prefix);
        LoadPrefix(paged, prefix);
      }
      if prefix < actual {
        Fill(tokenState, prefix, actual, TAIL_HBM);
      }
      status := Done;
      assert tokenState[..] == Loaded(cleared, paged, actual, prefix).tokenState;
      assert recordAddr[..] == Loaded(cleared, paged, actual, prefix).recordAddr;
    }

    method MarkDecodeToken(token: int) returns (status: Status)
      requires Separate() && Valid()
      modifies this`actualSeqLen, tokenState
      ensures (State(), status) == MarkDecode(old(State()), token)
    {
      if token < 0 || token >= tokenState.Length {
        return Failed;
      }
      if token + 1 > actualSeqLen {
        actualSeqLen := token + 1;
      }
      tokenState[token] := TAIL_HBM;
      status := Done;
    }

    method PopFreeSlot() returns (slot: Result<int>)
      requires freeCount <= freeStack.Length
      modifies this`freeCount
      ensures old(freeCount) <= 0 ==> slot == OutOfSlots && freeCount == old(freeCount)
      ensures old(freeCount) > 0 ==> slot == Ok(freeStack[old(freeCount) - 1]) && freeCount == old(freeCount) - 1
    {
      if freeCount <= 0 {
        return OutOfSlots;
      }
      freeCount := freeCount - 1;
      slot := Ok(freeStack[freeCount]);
    }

    method CopyFullKvPair(paged: Paged<T>, source: int, slot: int) returns (copied: bool)
      requires managed0 != managed1
      modifies managed0, managed1
      ensures copied <==> InPlanes(paged, source) && 0 <= slot < managed0.Length && slot < managed1.Length
      ensures managed0[..] == if copied then old(managed0[..])[slot := paged.plane0[source]] else old(managed0[..])
      ensures managed1[..] == if copied then old(managed1[..])[slot := paged.plane1[source]] else old(managed1[..])
    {
      if source < 0 || source >= |paged.plane0| || source >= |paged.plane1| {
        return false;
      }
      if slot < 0 || slot >= managed0.Length || slot >= managed1.Length {
        return false;
      }
      managed0[slot] := paged.plane0[source];
      managed1[slot] := paged.plane1[source];
      copied := true;
    }

    method InstallToken(paged: Paged<T>, token: int, source: int) returns (slot: Result<int>)
      requires Separate() && Valid() && 0 <= token < tokenState.Length && freeCount <= freeStack.Length
      modifies this`freeCount, tokenState, slotOfToken, slotOwner, managed0, managed1
      ensures (Contents(), slot) == Install(old(Contents()), paged, token, source)
    {
      slot := PopFreeSlot();
      if !slot.Ok? {
        return;
      }
      var copied := CopyFullKvPair(paged, source, slot.value);
      if !copied {
        return IndexError;
      }
      tokenState[token] := HBM_RESIDENT;
      slotOfToken[token] := slot.value;
      slotOwner[slot.value] := token;
      assert tokenState[..] == old(tokenState[..])[token := HBM_RESIDENT];
      assert slotOfToken[..] == old(slotOfToken[..])[token := slot.value];
      assert slotOwner[..] == old(slotOwner[..])[slot.value := token];
    }

    method ResolveToken(paged: Paged<T>, seqLen: int, token: int) returns (slot: Result<int>)
      requires Separate() && Valid() && seqLen <= tokenState.Length && freeCount <= freeStack.Length
      requires paged.blockSize > 0
      modifies this`freeCount, tokenState, slotOfToken, slotOwner, managed0, managed1
      ensures (Contents(), slot) == ResolveOne(old(Contents()), paged, seqLen, token)
    {
      if token < 0 || token >= seqLen {
        return IndexError;
      }
      var state := tokenState[token];
      if state == HBM_RESIDENT {
        return Ok(slotOfToken[token]);
      }
      if state == ASU_ONLY {
        slot := InstallToken(paged, token, recordAddr[token]);
      } else if state == TAIL_HBM {
        if token / paged.blockSize >= |paged.table| {
          return IndexError;
        }
        var source := paged.table[token / paged.blockSize] * paged.blockSize + token % paged.blockSize;
        slot := InstallToken(paged, token, source);
      } else {
        slot := ValueError;
      }
    }

    // asu_resolve_kv_slots_single_req on this context's tensors.
    method ResolveSlots(paged: Paged<T>, seqLen: int, topk: seq<int>) returns (slots: Result<seq<int>>)
      requires Separate() && Valid() && seqLen <= tokenState.Length && freeCount <= freeStack.Length
      modifies this`freeCount, tokenState, slotOfToken, slotOwner, managed0, managed1
      ensures (Contents(), slots) == Resolve(old(Contents()), paged, seqLen, topk)
    {
      if seqLen < 0 || paged.blockSize <= 0 {
        return ValueError;
      }
      ghost var c := Contents();
      var resolved: seq<int> := [];
      for i := 0 to |topk|
        invariant freeCount <= freeStack.Length
        invariant (Contents(), Ok(resolved)) == ResolveTo(c, paged, seqLen, topk, i)
      {
        var slot := ResolveToken(paged, seqLen, topk[i]);
        if !slot.Ok? {
          ErrorStays(c, paged, seqLen, topk, i + 1, |topk|);
          return Error(slot);
        }
        resolved := resolved + [slot.value];
      }
      slots := Ok(resolved);
    }
  }
}
