/** A pair of mutually inverse tables and total accesses to them. */
module Mappings {
  const NOT_FOUND := -1

  // Array accesses; an access outside the array has no effect here, and is proved never to happen.
  function Get(a: seq<int>, i: int): int {
    if 0 <= i < |a| then a[i] else 0
  }

  function Put<X>(a: seq<X>, i: int, v: X): (r: seq<X>)
    ensures |r| == |a|
  {
    if 0 <= i < |a| then a[i := v] else a
  }

  // Every entry of either table is NOT_FOUND or points to an entry that points back.
  ghost predicate InverseMaps(there: seq<int>, back: seq<int>) {
    && (forall x | 0 <= x < |there| ::
          there[x] == NOT_FOUND || (0 <= there[x] < |back| && back[there[x]] == x))
    && (forall y | 0 <= y < |back| ::
          back[y] == NOT_FOUND || (0 <= back[y] < |there| && there[back[y]] == y))
  }

  // 0, 1, ..., n - 1.
  function Arange(n: nat): (s: seq<int>)
    ensures |s| == n && forall i | 0 <= i < n :: s[i] == i
  {
    seq(n, i requires 0 <= i < n => i)
  }
}
