/** Greatest common divisors, coprime multipliers and affine permutations. */
module NumberTheory {
  import opened Compaction

  // Euclid's recursion.
  function Gcd(a: nat, b: nat): nat
    decreases b
  {
    if b == 0 then a else Gcd(b, a % b)
  }

  ghost predicate Divides(d: nat, n: int) {
    exists k: int :: n == Times(d, k)
  }

  function Times(a: int, b: int): int {
    a * b
  }

  lemma DividesCombination(d: nat, x: int, y: int, c: int)
    requires Divides(d, x) && Divides(d, y)
    ensures Divides(d, x + c * y)
  {
    var i :| x == Times(d, i);
    var j :| y == Times(d, j);
    calc {
      x + c * y;
      d * i + c * (d * j);
      d * (i + c * j);
      Times(d, i + c * j);
    }
  }

  lemma DivMod(a: int, b: nat)
    requires b > 0
    ensures a == a % b + (a / b) * b && a % b == a + (-(a / b)) * b
  {
  }

  // The result divides both arguments, and every common divisor divides the result.
  lemma {:induction false} GcdIsCommonDivisor(a: nat, b: nat)
    ensures Divides(Gcd(a, b), a) && Divides(Gcd(a, b), b)
    decreases b
  {
    var g := Gcd(a, b);
    if b == 0 {
      assert a == Times(a, 1) && 0 == Times(a, 0);
    } else {
      GcdIsCommonDivisor(b, a % b);
      DividesCombination(g, a % b, b, a / b);
      DivMod(a, b);
    }
  }

  lemma {:induction false} GcdIsGreatest(a: nat, b: nat, d: nat)
    requires Divides(d, a) && Divides(d, b)
    ensures Divides(d, Gcd(a, b))
    decreases b
  {
    if b > 0 {
      DivMod(a, b);
      DividesCombination(d, a, b, -(a / b));
      GcdIsGreatest(b, a % b, d);
    }
  }

  // Bezout coefficients.
  lemma {:induction false} Bezout(a: nat, b: nat) returns (u: int, v: int)
    ensures a * u + b * v == Gcd(a, b)
    decreases b
  {
    if b == 0 {
      u, v := 1, 0;
    } else {
      var s, t := Bezout(b, a % b);
      u, v := t, s - (a / b) * t;
      BezoutStep(a, b, s, t);
    }
  }

  lemma BezoutStep(a: nat, b: nat, s: int, t: int)
    requires b > 0
    ensures a * t + b * (s - (a / b) * t) == b * s + (a % b) * t
  {
    DivMod(a, b);
    var q, r := a / b, a % b;
    assert a == q * b + r;
    calc {
      a * t + b * (s - q * t);
      (q * b + r) * t + b * s - b * (q * t);
      { assert (q * b + r) * t == q * b * t + r * t; assert b * (q * t) == q * b * t; }
      b * s + r * t;
    }
  }

  // Euclid's lemma: a multiplier coprime to n cancels modulo n.
  lemma CoprimeCancels(a: nat, n: nat, x: int)
    requires Gcd(a, n) == 1 && Divides(n, a * x)
    ensures Divides(n, x)
  {
    var u, v := Bezout(a, n);
    assert n * x == Times(n, x) && 0 == Times(n, 0);
    DividesCombination(n, 0, a * x, u);
    DividesCombination(n, 0 + u * (a * x), n * x, v);
    Distribute(a, u, n, v, x);
  }

  lemma Distribute(a: int, u: int, n: int, v: int, x: int)
    requires a * u + n * v == 1
    ensures 0 + u * (a * x) + v * (n * x) == x
  {
    assert (a * u + n * v) * x == u * (a * x) + v * (n * x);
  }

  lemma SmallMultiple(n: nat, x: int)
    requires Divides(n, x) && 0 - n < x < n
    ensures x == 0
  {
    var k :| x == Times(n, k);
    if k > 0 {
      MulStrict(0, k, n);
    } else if k < 0 {
      MulStrict(0, -k, n);
      assert n * -k == -(n * k);
    }
  }

  lemma SameResidue(n: nat, x: int, y: int)
    requires n > 0 && x % n == y % n
    ensures Divides(n, x - y)
  {
    DivMod(x, n);
    DivMod(y, n);
    assert x - y == n * (x / n - y / n);
    assert x - y == Times(n, x / n - y / n);
  }

  function Affine(a: nat, b: nat, n: nat, t: nat): (p: nat)
    requires n > 0
    ensures p < n
  {
    (a * t + b) % n
  }

  // With a coprime to n no position is visited twice.
  lemma AffineInjective(a: nat, b: nat, n: nat, s: nat, t: nat)
    requires Gcd(a, n) == 1 && s < n && t < n && Affine(a, b, n, s) == Affine(a, b, n, t)
    ensures s == t
  {
    SameResidue(n, a * s + b, a * t + b);
    assert a * s + b - (a * t + b) == a * (s - t);
    CoprimeCancels(a, n, s - t);
    SmallMultiple(n, s - t);
  }

  function Positions(a: nat, b: nat, n: nat, count: nat): (p: seq<int>)
    requires n > 0
    ensures |p| == count && forall t | 0 <= t < count :: p[t] == Affine(a, b, n, t)
  {
    seq(count, t requires 0 <= t < count => Affine(a, b, n, t))
  }

  // ... and n steps visit every position: the affine map is a permutation of [0, n).
  lemma AffinePermutes(a: nat, b: nat, n: nat, count: nat)
    requires n > 0 && Gcd(a, n) == 1 && count <= n
    ensures Distinct(Positions(a, b, n, count))
    ensures count == n ==> forall x | 0 <= x < n :: x in Positions(a, b, n, count)
  {
    var p := Positions(a, b, n, count);
    forall i, j | 0 <= i < j < count
      ensures p[i] != p[j]
    {
      if p[i] == p[j] {
        AffineInjective(a, b, n, i, j);
      }
    }
    if count == n {
      forall x | 0 <= x < n
        ensures x in p
      {
        DistinctCovers(p, x);
      }
    }
  }

  // Without coprimality the claim fails: some position is visited twice within n steps.
  lemma NotCoprimeRepeats(a: nat, b: nat, n: nat) returns (t: nat)
    requires n > 0 && Gcd(a, n) != 1
    ensures 0 < t < n && Affine(a, b, n, t) == Affine(a, b, n, 0)
  {
    GcdIsCommonDivisor(a, n);
    GcdPositive(a, n);
    t := CommonFactorRepeats(a, b, n, Gcd(a, n));
  }

  lemma CommonFactorRepeats(a: nat, b: nat, n: nat, g: nat) returns (t: nat)
    requires n > 0 && g > 1 && Divides(g, a) && Divides(g, n)
    ensures 0 < t < n && Affine(a, b, n, t) == Affine(a, b, n, 0)
  {
    var i :| a == Times(g, i);
    var k :| n == Times(g, k);
    ShorterPeriod(g, k, n);
    t := k;
    Regroup(g, i, k);
    AddMultiple(b, n, i);
    assert Affine(a, b, n, t) == (n * i + b) % n;
    assert Affine(a, b, n, 0) == b % n;
  }

  lemma Regroup(g: int, i: int, k: int)
    ensures (g * i) * k == (g * k) * i
  {
  }

  lemma ShorterPeriod(g: nat, k: int, n: nat)
    requires g > 1 && n == g * k && n > 0
    ensures 0 < k < n
  {
  }

  lemma {:induction false} GcdPositive(a: nat, n: nat)
    requires n > 0
    ensures Gcd(a, n) > 0
    decreases n
  {
    if a % n > 0 {
      GcdPositive(n, a % n);
    }
  }

  lemma AddMultiple(b: nat, n: nat, i: int)
    requires n > 0
    ensures (n * i + b) % n == b % n
  {
    DivMod(b, n);
    var q, r := b / n, b % n;
    assert n * i + b == (i + q) * n + r;
    ModUniqueInt(n * i + b, i + q, r, n);
  }

  lemma ModUniqueInt(x: int, q: int, r: nat, n: nat)
    requires n > 0 && r < n && x == q * n + r
    ensures x % n == r
  {
    DivMod(x, n);
    assert (x / n - q) * n == r - x % n;
    assert r - x % n == Times(n, x / n - q);
    SmallMultiple(n, r - x % n);
  }

  lemma GcdOne(n: nat)
    ensures Gcd(1, n) == 1
  {
    if n > 1 {
      assert 1 % n == 1;
      assert Gcd(n, 1) == Gcd(1, n % 1);
    }
  }
}
