/** The bitmap of protected slots of the maintain kernels: 64 slots to a word, and the word-level
    proof that it represents exactly a set of slots. */
module SlotBitmap {
  const WORD_BITS := 64

  function WordCount(slots: nat): nat {
    (slots + WORD_BITS - 1) / WORD_BITS
  }

  function Bit(k: nat): bv64
    requires k < WORD_BITS
  {
    1 << (k as bv6)
  }

  predicate HasBit(word: bv64, k: nat)
    requires k < WORD_BITS
  {
    (word & Bit(k)) != 0
  }

  // A shift count below 64 is a 6-bit value.
  lemma ShiftRoundTrip(k: nat)
    requires k < 64
    ensures (k as bv6) as nat == k
  {
  }

  lemma OrSetsOneBit(word: bv64, a: bv6, b: bv6)
    ensures ((word | (1 << a)) & (1 << b)) != 0 <==> (word & (1 << b)) != 0 || a == b
  {
  }

  lemma SetBit(word: bv64, a: nat, b: nat)
    requires a < WORD_BITS && b < WORD_BITS
    ensures ((word | Bit(a)) & Bit(b)) != 0 <==> (word & Bit(b)) != 0 || a == b
  {
    ShiftRoundTrip(a);
    ShiftRoundTrip(b);
    OrSetsOneBit(word, a as bv6, b as bv6);
  }

  // The bits set among the lowest n of a word.
  function BitsBelow(word: bv64, n: nat): (s: set<int>)
    requires n <= WORD_BITS
  {
    if n == 0 then {}
    else BitsBelow(word, n - 1) + (if HasBit(word, n - 1) then {n - 1} else {})
  }

  lemma {:induction false} BitsBelowMember(word: bv64, n: nat, k: nat)
    requires k < WORD_BITS && n <= WORD_BITS
    ensures k in BitsBelow(word, n) <==> k < n && HasBit(word, k)
  {
    if n == 0 {
    } else if k == n - 1 {
      BitsBelowMember(word, n - 1, k);
    } else {
      BitsBelowMember(word, n - 1, k);
    }
  }

  lemma {:induction false} BitsBelowRange(word: bv64, n: nat, k: int)
    requires n <= WORD_BITS && k in BitsBelow(word, n)
    ensures 0 <= k < n
  {
    if n > 0 && k != n - 1 {
      BitsBelowRange(word, n - 1, k);
    }
  }

  // Or-ing in the bit of one slot adds that slot and no other.
  lemma SetBitAdds(word: bv64, a: nat)
    requires a < WORD_BITS
    ensures BitsBelow(word | Bit(a), WORD_BITS) == BitsBelow(word, WORD_BITS) + {a}
  {
    forall k: int
      ensures k in BitsBelow(word | Bit(a), WORD_BITS) <==> k in BitsBelow(word, WORD_BITS) + {a}
    {
      SetBitMember(word, a, k);
    }
  }

  lemma SetBitMember(word: bv64, a: nat, k: int)
    requires a < WORD_BITS
    ensures k in BitsBelow(word | Bit(a), WORD_BITS) <==> k in BitsBelow(word, WORD_BITS) + {a}
  {
    if 0 <= k < WORD_BITS {
      BitsBelowMember(word | Bit(a), WORD_BITS, k);
      BitsBelowMember(word, WORD_BITS, k);
      SetBit(word, a, k);
    } else {
      OutOfWord(word, k);
      OutOfWord(word | Bit(a), k);
    }
  }

  lemma OutOfWord(word: bv64, k: int)
    requires !(0 <= k < WORD_BITS)
    ensures k !in BitsBelow(word, WORD_BITS)
  {
    if k in BitsBelow(word, WORD_BITS) {
      BitsBelowRange(word, WORD_BITS, k);
    }
  }

  ghost predicate Marked(words: seq<bv64>, slot: nat) {
    slot / WORD_BITS < |words| && slot % WORD_BITS in BitsBelow(words[slot / WORD_BITS], WORD_BITS)
  }

  // The words hold exactly the given set of slots.
  ghost predicate Represents(words: seq<bv64>, slots: nat, marked: set<int>) {
    && |words| == WordCount(slots)
    && forall slot: nat | slot < slots :: Marked(words, slot) <==> slot in marked
  }

  lemma MarkOne(words: seq<bv64>, slots: nat, marked: set<int>, slot: nat, word: bv64)
    requires slot < slots && Represents(words, slots, marked) && slot / WORD_BITS < |words|
    requires BitsBelow(word, WORD_BITS) == BitsBelow(words[slot / WORD_BITS], WORD_BITS) + {slot % WORD_BITS}
    ensures Represents(words[slot / WORD_BITS := word], slots, marked + {slot})
  {
    var after := words[slot / WORD_BITS := word];
    forall x: nat | x < slots
      ensures Marked(after, x) <==> x in marked + {slot}
    {
      assert Marked(words, x) <==> x in marked;
      assert x == x / WORD_BITS * WORD_BITS + x % WORD_BITS;
    }
  }

  method ClearProtectedSlots(protectedSlots: array<bv64>, ghost slots: nat)
    requires protectedSlots.Length == WordCount(slots)
    modifies protectedSlots
    ensures Represents(protectedSlots[..], slots, {})
  {
    for i := 0 to protectedSlots.Length
      invariant forall k | 0 <= k < i :: protectedSlots[k] == 0
    {
      protectedSlots[i] := 0;
    }
    forall x: nat | x < slots
      ensures !Marked(protectedSlots[..], x)
    {
      BitsBelowMember(0, WORD_BITS, x % WORD_BITS);
    }
  }

  method MarkProtectedSlot(protectedSlots: array<bv64>, slot: nat, ghost slots: nat, ghost marked: set<int>)
    requires slot < slots && Represents(protectedSlots[..], slots, marked)
    modifies protectedSlots
    ensures Represents(protectedSlots[..], slots, marked + {slot})
  {
    var wordId, bitId := slot / WORD_BITS, slot % WORD_BITS;
    var word := protectedSlots[wordId];
    SetBitAdds(word, bitId);
    MarkOne(protectedSlots[..], slots, marked, slot, word | Bit(bitId));
    protectedSlots[wordId] := word | Bit(bitId);
    assert protectedSlots[..] == old(protectedSlots[..])[wordId := word | Bit(bitId)];
  }

  method IsProtectedSlot(protectedSlots: array<bv64>, slot: nat, ghost slots: nat, ghost marked: set<int>)
    returns (r: bool)
    requires slot < slots && Represents(protectedSlots[..], slots, marked)
    ensures r <==> slot in marked
  {
    r := HasBit(protectedSlots[slot / WORD_BITS], slot % WORD_BITS);
    BitsBelowMember(protectedSlots[slot / WORD_BITS], WORD_BITS, slot % WORD_BITS);
    assert r == Marked(protectedSlots[..], slot);
  }
}
