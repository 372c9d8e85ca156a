/** The vector instructions the tiled lookup uses, each reading all its operands before writing. */
module VectorUnit {
  const INT32_BYTES := 4

  method Duplicate(dst: array<int>, value: int)
    modifies dst
    ensures forall i | 0 <= i < dst.Length :: dst[i] == value
  {
    forall i | 0 <= i < dst.Length {
      dst[i] := value;
    }
  }

  method Adds(dst: array<int>, src: array<int>, scalar: int)
    requires dst.Length == src.Length
    modifies dst
    ensures forall i | 0 <= i < dst.Length :: dst[i] == old(src[i]) + scalar
  {
    forall i | 0 <= i < dst.Length {
      dst[i] := src[i] + scalar;
    }
  }

  method Relu(dst: array<int>, src: array<int>)
    requires dst.Length == src.Length
    modifies dst
    ensures forall i | 0 <= i < dst.Length :: dst[i] == if old(src[i]) > 0 then old(src[i]) else 0
  {
    forall i | 0 <= i < dst.Length {
      dst[i] := if src[i] > 0 then src[i] else 0;
    }
  }

  method Muls(dst: array<int>, src: array<int>, scalar: int)
    requires dst.Length == src.Length
    modifies dst
    ensures forall i | 0 <= i < dst.Length :: dst[i] == old(src[i]) * scalar
  {
    forall i | 0 <= i < dst.Length {
      dst[i] := src[i] * scalar;
    }
  }

  method Add(dst: array<int>, a: array<int>, b: array<int>)
    requires dst.Length == a.Length == b.Length
    modifies dst
    ensures forall i | 0 <= i < dst.Length :: dst[i] == old(a[i]) + old(b[i])
  {
    forall i | 0 <= i < dst.Length {
      dst[i] := a[i] + b[i];
    }
  }

  method CompareEq(mask: array<bool>, src: array<int>, scalar: int)
    requires mask.Length == src.Length
    modifies mask
    ensures forall i | 0 <= i < mask.Length :: mask[i] <==> src[i] == scalar
  {
    forall i | 0 <= i < mask.Length {
      mask[i] := src[i] == scalar;
    }
  }

  // Offsets are in bytes.
  method Gather(dst: array<int>, src: array<int>, offsets: array<int>)
    requires dst.Length == offsets.Length && dst != src && dst != offsets
    requires forall i | 0 <= i < offsets.Length ::
               0 <= offsets[i] && offsets[i] % INT32_BYTES == 0 && offsets[i] / INT32_BYTES < src.Length
    modifies dst
    ensures forall i | 0 <= i < dst.Length :: dst[i] == src[offsets[i] / INT32_BYTES]
  {
    forall i | 0 <= i < dst.Length {
      dst[i] := src[offsets[i] / INT32_BYTES];
    }
  }

  method Select(dst: array<int>, mask: array<bool>, a: array<int>, b: array<int>)
    requires dst.Length == mask.Length == a.Length == b.Length
    modifies dst
    ensures forall i | 0 <= i < dst.Length :: dst[i] == if mask[i] then old(a[i]) else old(b[i])
  {
    forall i | 0 <= i < dst.Length {
      dst[i] := if mask[i] then a[i] else b[i];
    }
  }
}
