/** Row-major buffers: the rows of a flat array, and what one write does to them. */
module FlatRows {
  import opened Compaction

  // A flat buffer as its rows.
  function Rows<E>(flat: seq<E>, width: nat, n: nat): (r: seq<seq<E>>)
    requires |flat| == n * width
    ensures |r| == n
  {
    seq(n, s requires 0 <= s < n => Row(flat, width, n, s))
  }

  lemma RowInside(length: nat, width: nat, n: nat, s: nat)
    requires length == n * width && s < n
    ensures s * width + width == (s + 1) * width <= length
  {
    MulStrict(s, n, width);
  }

  function Row<E>(flat: seq<E>, width: nat, n: nat, s: nat): (r: seq<E>)
    requires |flat| == n * width && s < n
    ensures |r| == width
  {
    RowInside(|flat|, width, n, s);
    flat[s * width..s * width + width]
  }

  // Overwriting the elements of one row changes that row only.
  lemma CopyRow<E>(before: seq<E>, after: seq<E>, width: nat, n: nat, at: nat, row: seq<E>)
    requires |before| == |after| == n * width && at < n && |row| == width
    requires forall k | 0 <= k < |before| ::
               after[k] == if at * width <= k < at * width + width
                           then row[k - at * width] else before[k]
    ensures Rows(after, width, n) == Rows(before, width, n)[at := row]
  {
    forall s: nat | s < n
      ensures Row(after, width, n, s) == if s == at then row else Row(before, width, n, s)
    {
      RowInside(|before|, width, n, s);
      MulStrict(s, at, width);
      MulStrict(at, s, width);
    }
  }

  lemma SetInSlice<E>(s: seq<E>, low: nat, high: nat, k: nat, v: E)
    requires low <= high <= |s| && k < |s|
    ensures low <= k < high ==> s[k := v][low..high] == s[low..high][k - low := v]
    ensures !(low <= k < high) ==> s[k := v][low..high] == s[low..high]
  {
  }

  lemma OneRowOnly(width: nat, n: nat, at: nat, k: nat, s: nat)
    requires at < n && s < n && k < width
    ensures s * width <= at * width + k < s * width + width <==> s == at
  {
    MulStrict(s, at, width);
    MulStrict(at, s, width);
  }

  // Writing one element of one row.
  lemma SetCell<E>(before: seq<E>, width: nat, n: nat, at: nat, k: nat, v: E, s: nat)
    requires |before| == n * width && at < n && s < n && k < width && at * width + k < |before|
    ensures Row(before[at * width + k := v], width, n, s) ==
            if s == at then Row(before, width, n, s)[k := v] else Row(before, width, n, s)
  {
    RowInside(|before|, width, n, s);
    OneRowOnly(width, n, at, k, s);
    SetInSlice(before, s * width, s * width + width, at * width + k, v);
  }

  // One element of one row.
  lemma RowElement(flat: seq<int>, width: nat, n: nat, r: nat, pos: nat)
    requires |flat| == n * width && r < n && pos < width
    ensures r * width + pos < |flat| && Row(flat, width, n, r)[pos] == flat[r * width + pos]
  {
    RowInside(|flat|, width, n, r);
  }
}
