/** Stable compaction by prefix counts: the arithmetic behind every parallel partition of the kernels.
    `Rank(f, n)` is the exclusive prefix sum of the flags, `Compact` the sequential stable filter. */
module Compaction {
  function Min(a: int, b: int): int {
    if a < b then a else b
  }

  // Number of set flags among the first n.
  function Rank(f: seq<bool>, n: nat): (r: nat)
    requires n <= |f|
    ensures r <= n
  {
    if n == 0 then 0 else Rank(f, n - 1) + (if f[n - 1] then 1 else 0)
  }

  // The flagged elements among the first n, in order.
  function CompactTo<X>(xs: seq<X>, f: seq<bool>, n: nat): (r: seq<X>)
    requires n <= |xs| == |f|
    ensures |r| == Rank(f, n)
  {
    if n == 0 then [] else CompactTo(xs, f, n - 1) + (if f[n - 1] then [xs[n - 1]] else [])
  }

  function Compact<X>(xs: seq<X>, f: seq<bool>): (r: seq<X>)
    requires |xs| == |f|
    ensures |r| == Rank(f, |f|)
  {
    CompactTo(xs, f, |xs|)
  }

  lemma {:induction false} RankMonotone(f: seq<bool>, i: nat, j: nat)
    requires i <= j <= |f|
    ensures Rank(f, i) <= Rank(f, j) <= Rank(f, i) + j - i
    ensures i < j && f[i] ==> Rank(f, i) < Rank(f, j)
    decreases j
  {
    if i < j {
      RankMonotone(f, i, j - 1);
    }
  }

  // Two flagged positions never share a rank, so scattered writes never collide.
  lemma RankInjective(f: seq<bool>, i: nat, j: nat)
    requires i < |f| && j < |f| && f[i] && f[j]
    requires Rank(f, i) == Rank(f, j)
    ensures i == j
  {
    if i < j {
      RankMonotone(f, i, j);
    } else if j < i {
      RankMonotone(f, j, i);
    }
  }

  lemma {:induction false} RankComplement(f: seq<bool>, g: seq<bool>, n: nat)
    requires n <= |f| == |g|
    requires forall i | 0 <= i < |f| :: f[i] != g[i]
    ensures Rank(f, n) + Rank(g, n) == n
  {
    if n > 0 {
      RankComplement(f, g, n - 1);
    }
  }

  function FlagSet(f: seq<bool>, n: nat): set<int>
    requires n <= |f|
  {
    set i | 0 <= i < n && f[i]
  }

  lemma {:induction false} RankIsCardinality(f: seq<bool>, n: nat)
    requires n <= |f|
    ensures Rank(f, n) == |FlagSet(f, n)|
  {
    if n > 0 {
      RankIsCardinality(f, n - 1);
      assert FlagSet(f, n) == FlagSet(f, n - 1) + (if f[n - 1] then {n - 1} else {});
    } else {
      assert FlagSet(f, n) == {};
    }
  }

  // A flagged element is found in the compaction at its rank.
  lemma {:induction false} CompactAt<X>(xs: seq<X>, f: seq<bool>, n: nat, i: nat)
    requires i < n <= |xs| == |f| && f[i]
    ensures Rank(f, i) < Rank(f, n)
    ensures CompactTo(xs, f, n)[Rank(f, i)] == xs[i]
  {
    RankMonotone(f, i, n);
    if i < n - 1 {
      CompactAt(xs, f, n - 1, i);
    }
  }

  // Every entry of the compaction comes from a flagged position of that rank.
  lemma {:induction false} CompactSource<X>(xs: seq<X>, f: seq<bool>, n: nat, k: nat) returns (i: nat)
    requires n <= |xs| == |f| && k < Rank(f, n)
    ensures i < n && f[i] && Rank(f, i) == k && CompactTo(xs, f, n)[k] == xs[i]
  {
    if k < Rank(f, n - 1) {
      i := CompactSource(xs, f, n - 1, k);
    } else {
      i := n - 1;
    }
  }

  // Element x, if flagged, already sits at its rank.
  ghost predicate Scattered<X>(xs: seq<X>, f: seq<bool>, out: seq<X>, x: nat)
    requires x < |xs| == |f|
  {
    f[x] ==> Rank(f, x) < |out| && out[Rank(f, x)] == xs[x]
  }

  // Scattering one more element disturbs none that is in place.
  lemma ScatterOne<X>(xs: seq<X>, f: seq<bool>, out: seq<X>, pos: nat, x: nat)
    requires pos < |xs| == |f| && x < |xs| && f[pos] && Rank(f, pos) < |out|
    requires x == pos || Scattered(xs, f, out, x)
    ensures Scattered(xs, f, out[Rank(f, pos) := xs[pos]], x)
  {
    if f[x] && Rank(f, x) == Rank(f, pos) {
      RankInjective(f, x, pos);
    }
  }

  // Writing each flagged element at its rank builds exactly the stable filter.
  lemma ScatterIsCompact<X>(xs: seq<X>, f: seq<bool>, out: seq<X>)
    requires |xs| == |f| && Rank(f, |f|) <= |out|
    requires forall i: nat | i < |xs| :: Scattered(xs, f, out, i)
    ensures out[..Rank(f, |f|)] == Compact(xs, f)
  {
    forall k | 0 <= k < Rank(f, |f|)
      ensures out[k] == Compact(xs, f)[k]
    {
      var i := CompactSource(xs, f, |xs|, k);
      assert Scattered(xs, f, out, i);
    }
  }

  predicate Distinct<X(==)>(xs: seq<X>) {
    forall i, j | 0 <= i < j < |xs| :: xs[i] != xs[j]
  }

  lemma CompactDistinct<X>(xs: seq<X>, f: seq<bool>)
    requires |xs| == |f| && Distinct(xs)
    ensures Distinct(Compact(xs, f))
  {
    forall a, b | 0 <= a < b < |Compact(xs, f)|
      ensures Compact(xs, f)[a] != Compact(xs, f)[b]
    {
      var i := CompactSource(xs, f, |xs|, a);
      var j := CompactSource(xs, f, |xs|, b);
      assert i != j;
    }
  }

  // An image of a finite set is no larger than the set.
  lemma {:induction false} ImageNotLarger<A, B>(domain: set<A>, image: set<B>, f: A -> B)
    requires forall y | y in image :: exists x | x in domain :: f(x) == y
    ensures |image| <= |domain|
    decreases image
  {
    if image != {} {
      var y :| y in image;
      var x :| x in domain && f(x) == y;
      ImageNotLarger(domain - {x}, image - {y}, f);
    }
  }

  // A duplicate-free list of elements of a set is no longer than the set is large.
  lemma {:induction false} DistinctCount(xs: seq<int>)
    requires Distinct(xs)
    ensures |set x | x in xs| == |xs|
  {
    if xs == [] {
      assert (set x | x in xs) == {};
    } else {
      var n := |xs| - 1;
      DistinctCount(xs[..n]);
      assert (set x | x in xs) == (set x | x in xs[..n]) + {xs[n]};
      assert xs[n] !in xs[..n];
    }
  }

  function Below(n: nat): (s: set<int>)
    ensures |s| == n && forall x :: x in s <==> 0 <= x < n
  {
    if n == 0 then {} else Below(n - 1) + {n - 1}
  }

  lemma SubsetNotLarger(a: set<int>, b: set<int>)
    requires a <= b
    ensures |a| <= |b|
  {
    ImageNotLarger(b, a, (x: int) => x);
  }

  // A duplicate-free list of n numbers below n contains every one of them.
  lemma DistinctCovers(xs: seq<int>, x: int)
    requires Distinct(xs) && forall i | 0 <= i < |xs| :: 0 <= xs[i] < |xs|
    requires 0 <= x < |xs|
    ensures x in xs
  {
    var present := set y | y in xs;
    DistinctCount(xs);
    if x !in xs {
      SubsetNotLarger(present, Below(|xs|) - {x});
    }
  }

  // Strided loops: thread t of T visits t, t + T, t + 2T, ...
  lemma StrideStep(p: nat, stride: nat)
    requires stride > 0
    ensures (p + stride) % stride == p % stride
  {
    var q, r := p / stride, p % stride;
    assert p + stride == (q + 1) * stride + r;
    ModUnique(p + stride, q + 1, r, stride);
  }

  lemma MulStrict(a: nat, b: nat, n: nat)
    ensures a < b ==> (a + 1) * n <= b * n
  {
    if a < b {
      assert b * n == (a + 1) * n + (b - a - 1) * n;
    }
  }

  lemma TimesMonotone(n: nat, a: nat, b: nat)
    requires a <= b
    ensures n * a <= n * b
  {
  }

  lemma ModUnique(x: nat, q: nat, r: nat, n: nat)
    requires n > 0 && r < n && x == q * n + r
    ensures x % n == r && x / n == q
  {
    var q', r' := x / n, x % n;
    assert x == q' * n + r';
    MulStrict(q, q', n);
    MulStrict(q', q, n);
  }

  // Between two consecutive visits of a thread no other position is its own.
  lemma StrideGap(p: nat, x: nat, stride: nat)
    requires stride > 0 && p <= x < p + stride && x % stride == p % stride
    ensures x == p
  {
    var a, b := p / stride, x / stride;
    assert p == a * stride + p % stride && x == b * stride + p % stride;
    MulStrict(a, b, stride);
    MulStrict(b, a, stride);
  }
}
