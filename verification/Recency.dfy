/** The reference notion of the eviction simulator: the distinct tokens of a history, ordered by last use. */
module Recency {
  import opened Compaction

  function Last<T>(s: seq<T>): T
    requires s != []
  {
    s[|s| - 1]
  }

  function Without<T(==)>(s: seq<T>, t: T): (r: seq<T>)
    ensures |r| <= |s|
  {
    if s == [] then []
    else if Last(s) == t then Without(s[..|s| - 1], t)
    else Without(s[..|s| - 1], t) + [Last(s)]
  }

  // The first n entries of h, each token once, least recently used first.
  function ByLastUse<T(==)>(h: seq<T>, n: nat): (r: seq<T>)
    requires n <= |h|
  {
    if n == 0 then [] else Without(ByLastUse(h, n - 1), h[n - 1]) + [h[n - 1]]
  }

  lemma {:induction false} WithoutMembers<T>(s: seq<T>, t: T, x: T)
    ensures x in Without(s, t) <==> x in s && x != t
  {
    if s != [] {
      WithoutMembers(s[..|s| - 1], t, x);
      assert s == s[..|s| - 1] + [Last(s)];
    }
  }

  lemma {:induction false} WithoutAbsent<T>(s: seq<T>, t: T)
    requires t !in s
    ensures Without(s, t) == s
  {
    if s != [] {
      WithoutAbsent(s[..|s| - 1], t);
      assert s == s[..|s| - 1] + [Last(s)];
    }
  }

  lemma {:induction false} WithoutConcat<T>(a: seq<T>, b: seq<T>, t: T)
    ensures Without(a + b, t) == Without(a, t) + Without(b, t)
  {
    if b == [] {
      assert a + b == a;
    } else {
      assert (a + b)[..|a + b| - 1] == a + b[..|b| - 1];
      WithoutConcat(a, b[..|b| - 1], t);
    }
  }

  lemma {:induction false} WithoutDistinct<T>(s: seq<T>, t: T)
    requires Distinct(s)
    ensures Distinct(Without(s, t))
    ensures |Without(s, t)| == |s| - if t in s then 1 else 0
  {
    if s != [] {
      var init := s[..|s| - 1];
      assert s == init + [Last(s)];
      WithoutDistinct(init, t);
      WithoutMembers(init, t, Last(s));
      assert Last(s) !in init;
    }
  }

  // ByLastUse lists exactly the tokens used, each once.
  lemma {:induction false} ByLastUseDistinct<T>(h: seq<T>, n: nat)
    requires n <= |h|
    ensures Distinct(ByLastUse(h, n))
  {
    if n > 0 {
      ByLastUseDistinct(h, n - 1);
      WithoutDistinct(ByLastUse(h, n - 1), h[n - 1]);
      WithoutMembers(ByLastUse(h, n - 1), h[n - 1], h[n - 1]);
    }
  }

  lemma {:induction false} ByLastUseMembers<T>(h: seq<T>, n: nat, x: T)
    requires n <= |h|
    ensures x in ByLastUse(h, n) <==> exists p | 0 <= p < n :: h[p] == x
  {
    if n > 0 {
      ByLastUseMembers(h, n - 1, x);
      WithoutMembers(ByLastUse(h, n - 1), h[n - 1], x);
    }
  }

  // The last position below n at which x was used, or -1.
  function LastUse<T(==)>(h: seq<T>, n: nat, x: T): (p: int)
    requires n <= |h|
    ensures -1 <= p < n
    ensures p >= 0 ==> h[p] == x
    ensures forall q | p < q < n :: h[q] != x
  {
    if n == 0 then -1 else if h[n - 1] == x then n - 1 else LastUse(h, n - 1, x)
  }

  ghost predicate Sorted<T>(h: seq<T>, n: nat, order: seq<T>)
    requires n <= |h|
  {
    forall i, j | 0 <= i < j < |order| :: LastUse(h, n, order[i]) < LastUse(h, n, order[j])
  }

  lemma {:induction false} WithoutSorted<T>(h: seq<T>, n: nat, order: seq<T>, t: T)
    requires n <= |h| && Sorted(h, n, order)
    ensures Sorted(h, n, Without(order, t))
  {
    if order != [] {
      var init := order[..|order| - 1];
      WithoutSorted(h, n, init, t);
      forall i | 0 <= i < |Without(init, t)|
        ensures LastUse(h, n, Without(init, t)[i]) < LastUse(h, n, Last(order))
      {
        WithoutMembers(init, t, Without(init, t)[i]);
        var k :| 0 <= k < |init| && init[k] == Without(init, t)[i];
      }
    }
  }

  // ... in the order of their last uses, so it is the recency order, not just some order.
  lemma {:induction false} ByLastUseSorted<T>(h: seq<T>, n: nat)
    requires n <= |h|
    ensures Sorted(h, n, ByLastUse(h, n))
  {
    if n > 0 {
      var t, before := h[n - 1], ByLastUse(h, n - 1);
      ByLastUseSorted(h, n - 1);
      WithoutSorted(h, n - 1, before, t);
      forall i | 0 <= i < |Without(before, t)|
        ensures Without(before, t)[i] != t
      {
        WithoutMembers(before, t, Without(before, t)[i]);
      }
    }
  }

  predicate IsSuffix<T(==)>(s: seq<T>, r: seq<T>) {
    |s| <= |r| && s == r[|r| - |s|..]
  }

  // Using token t again (or for the first time) keeps a suffix of the recency order a suffix.
  lemma SuffixHit<T>(s: seq<T>, r: seq<T>, t: T)
    requires Distinct(r) && IsSuffix(s, r) && t in s
    ensures IsSuffix(Without(s, t) + [t], Without(r, t) + [t])
  {
    var p := r[..|r| - |s|];
    assert r == p + s;
    WithoutConcat(p, s, t);
    assert t !in p by {
      var k :| 0 <= k < |s| && s[k] == t;
      assert r[|p| + k] == t;
      forall i | 0 <= i < |p|
        ensures p[i] != t
      {
        assert r[i] == p[i];
      }
    }
    WithoutAbsent(p, t);
    assert Without(r, t) + [t] == p + (Without(s, t) + [t]);
  }

  lemma SuffixMiss<T>(s: seq<T>, r: seq<T>, t: T)
    requires IsSuffix(s, r) && t !in s
    ensures IsSuffix(s + [t], Without(r, t) + [t])
  {
    var p := r[..|r| - |s|];
    assert r == p + s;
    WithoutConcat(p, s, t);
    WithoutAbsent(s, t);
    assert Without(r, t) + [t] == Without(p, t) + (s + [t]);
  }

  lemma SuffixOfSuffix<T>(s: seq<T>, r: seq<T>, k: nat)
    requires IsSuffix(s, r) && k <= |s|
    ensures IsSuffix(s[k..], r)
  {
  }

  // Of two suffixes of one duplicate-free list, the shorter is contained in the longer.
  lemma SuffixesNest<T>(a: seq<T>, b: seq<T>, r: seq<T>, t: T)
    requires IsSuffix(a, r) && IsSuffix(b, r) && |a| <= |b|
    ensures t in a ==> t in b
    ensures Distinct(r) && t in b && t !in a ==> |a| < |b|
  {
    if t in a {
      var k :| 0 <= k < |a| && a[k] == t;
      assert b[|b| - |a| + k] == t;
    }
  }
}
