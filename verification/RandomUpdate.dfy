/** KernelHbmRandomUpdate: gcd, the coprime multiplier search, and the strided per-request update loop. */
module RandomUpdate {
  import opened Compaction
  import opened FlatRows
  import opened GridStride
  import opened NumberTheory
  import opened Recency
  import opened Uint32
  import LookupVec

  const INDEX_SIZE := 131072

  method GcdU32(a: nat, b: nat) returns (g: nat)
    ensures g == Gcd(a, b)
  {
    var x, y := a, b;
    while y != 0
      invariant Gcd(x, y) == Gcd(a, b)
      decreases y
    {
      var r := x % y;
      x := y;
      y := r;
    }
    g := x;
  }

  // hash % n, with 0 replaced by 1.
  function FirstTry(hash: nat, n: nat): (a: nat)
    requires n > 1
    ensures 0 < a < n
  {
    if hash % n == 0 then 1 else hash % n
  }

  // The first coprime number from a on, wrapping from n to 1.
  function NextCoprime(a: nat, n: nat): (c: nat)
    requires 0 < a < n
    ensures 0 < c < n && Gcd(c, n) == 1
    decreases n - a
  {
    GcdOne(n);
    if Gcd(a, n) == 1 then a else if a + 1 >= n then 1 else NextCoprime(a + 1, n)
  }

  function Multiplier(hash: nat, n: nat): (c: nat)
    ensures Gcd(c, n) == 1 && 0 < c && (n > 1 ==> c < n)
  {
    GcdOne(n);
    if n <= 1 then 1 else NextCoprime(FirstTry(hash, n), n)
  }

  // No coprime number is skipped: the search stops at the first one, or at 1 when none is left below n.
  lemma {:induction false} NextCoprimeIsFirst(a: nat, n: nat, x: nat)
    requires 0 < a < n && a <= x < n && Gcd(x, n) == 1
    ensures a <= NextCoprime(a, n) <= x
    decreases n - a
  {
    if Gcd(a, n) != 1 {
      NextCoprimeIsFirst(a + 1, n, x);
    }
  }

  // For n > 1 the multiplier is the least number from hash % n on that is coprime to n.
  ghost predicate IsDrawn(a: nat, hash: nat, n: nat) {
    && Gcd(a, n) == 1
    && (n > 1 ==> hash % n <= a < n && forall x: nat | hash % n <= x < a :: Gcd(x, n) != 1)
  }

  lemma MultiplierIsLeast(hash: nat, n: nat)
    ensures IsDrawn(Multiplier(hash, n), hash, n)
  {
    if n > 1 {
      var a, first := Multiplier(hash, n), FirstTry(hash, n);
      GcdBelow(n);
      NextCoprimeIsFirst(first, n, n - 1);
      forall x: nat | hash % n <= x < a
        ensures Gcd(x, n) != 1
      {
        if x == 0 {
          assert Gcd(0, n) == Gcd(n, 0) == n;
        } else if Gcd(x, n) == 1 {
          NextCoprimeIsFirst(first, n, x);
        }
      }
    }
  }

  // The number before n is always coprime to it, so the search never has to wrap.
  lemma GcdBelow(n: nat)
    requires n > 1
    ensures Gcd(n - 1, n) == 1
  {
    if n == 2 {
      GcdOne(n);
    } else {
      ModUnique(n - 1, 0, n - 1, n);
      ModUnique(n, 1, 1, n - 1);
      ModUnique(n - 1, n - 1, 0, 1);
      GcdStep(n - 1, n, n - 1);
      GcdStep(n, n - 1, 1);
      GcdStep(n - 1, 1, 0);
    }
  }

  lemma GcdStep(a: nat, b: nat, r: nat)
    requires b > 0 && a % b == r
    ensures Gcd(a, b) == Gcd(b, r)
  {
  }

  // The search ends for every hash and every n, with a multiplier coprime to n.
  method PickCoprimeA(hash: nat, n: nat) returns (a: nat)
    requires n < LIMIT
    ensures a == Multiplier(hash, n)
  {
    if n <= 1 {
      return 1;
    }
    a := hash % n;
    if a == 0 {
      a := 1;
    }
    var g := GcdU32(a, n);
    while g != 1
      invariant 0 < a < n && g == Gcd(a, n) && NextCoprime(a, n) == Multiplier(hash, n)
      decreases if a == 1 then 0 else n - a
    {
      GcdOne(n);
      a := U32(a + 1);
      if a >= n {
        a := 1;
      }
      g := GcdU32(a, n);
    }
  }

  // ---- how many updates ----------------------------------------------------------------------------

  function UpdateNum(queryLen: nat, percent: nat): nat {
    var n := U32(queryLen * percent) / 100;
    if n > queryLen then queryLen else n
  }

  // The promised share is computed exactly when queryLen * percent fits 32 bits.
  lemma UpdateNumExact(queryLen: nat, percent: nat)
    requires percent <= 100
    ensures UpdateNum(queryLen, percent) == queryLen * percent / 100 <==> queryLen * percent < LIMIT
  {
    PercentBound(queryLen, percent);
    var x := queryLen * percent;
    if x >= LIMIT {
      assert U32(x) <= x - LIMIT;
    }
  }

  lemma PercentBound(queryLen: nat, percent: nat)
    requires percent <= 100
    ensures queryLen * percent / 100 <= queryLen
  {
    assert queryLen * percent <= queryLen * 100;
  }

  // 2^26 queries at 64 percent pass the host checks, but the product wraps to 0 and nothing is updated.
  lemma UpdateNumWraps()
    ensures LookupVec.CheckLookupShapes([INDEX_SIZE], [INDEX_SIZE], [67108864], [67108864]) ==
            LookupVec.Accepted(LookupVec.LookupShape(1, 67108864, true))
    ensures UpdateNum(67108864, 64) == 0 && 67108864 * 64 / 100 == 42949672
  {
    LookupVec.CheckLookupShapesExactly([INDEX_SIZE], [INDEX_SIZE], [67108864], [67108864],
                                       LookupVec.LookupShape(1, 67108864, true));
  }

  // ---- one request ---------------------------------------------------------------------------------

  // The row after the first n updates, in loop order.
  function UpdatedRow(row: seq<int>, keys: seq<int>, news: seq<int>, positions: seq<int>, n: nat): (r: seq<int>)
    requires n <= |positions| && |keys| == |news|
    requires forall t | 0 <= t < |positions| :: 0 <= positions[t] < |keys|
    requires forall i | 0 <= i < |keys| :: 0 <= keys[i] < |row|
    ensures |r| == |row|
  {
    if n == 0 then row
    else
      var pos := positions[n - 1];
      UpdatedRow(row, keys, news, positions, n - 1)[keys[pos] := news[pos]]
  }

  function KeysAt(keys: seq<int>, positions: seq<int>): (ks: seq<int>)
    requires forall t | 0 <= t < |positions| :: 0 <= positions[t] < |keys|
    ensures |ks| == |positions| && forall t | 0 <= t < |positions| :: ks[t] == keys[positions[t]]
  {
    seq(|positions|, t requires 0 <= t < |positions| => keys[positions[t]])
  }

  // Last write wins: an entry holds the new state of the last visited position that queries it, and an
  // entry nobody visits is unchanged.
  lemma {:induction false} LastWriteWins(row: seq<int>, keys: seq<int>, news: seq<int>, positions: seq<int>,
                                         n: nat, k: int)
    requires n <= |positions| && |keys| == |news| && 0 <= k < |row|
    requires forall t | 0 <= t < |positions| :: 0 <= positions[t] < |keys|
    requires forall i | 0 <= i < |keys| :: 0 <= keys[i] < |row|
    ensures var last := LastUse(KeysAt(keys, positions), n, k);
            UpdatedRow(row, keys, news, positions, n)[k] == if last >= 0 then news[positions[last]] else row[k]
  {
    if n > 0 {
      LastWriteWins(row, keys, news, positions, n - 1, k);
    }
  }

  // Distinct positions over distinct keys do not overwrite each other.
  lemma VisitedKeysUpdated(row: seq<int>, keys: seq<int>, news: seq<int>, p: seq<int>, t: nat)
    requires |keys| == |news| && t < |p| && Distinct(keys) && Distinct(p)
    requires forall i | 0 <= i < |p| :: 0 <= p[i] < |keys|
    requires forall i | 0 <= i < |keys| :: 0 <= keys[i] < |row|
    ensures UpdatedRow(row, keys, news, p, |p|)[keys[p[t]]] == news[p[t]]
  {
    var k := keys[p[t]];
    LastWriteWins(row, keys, news, p, |p|, k);
    var ks := KeysAt(keys, p);
    var last := LastUse(ks, |p|, k);
    assert ks[t] == k;
    assert last >= t && keys[p[last]] == k;
    assert p[last] == p[t];
  }

  // With a multiplier coprime to the query length, exactly n different queries get their new state.
  lemma RandomUpdateExact(row: seq<int>, keys: seq<int>, news: seq<int>, a: nat, b: nat, n: nat)
    requires |keys| == |news| && 0 < |keys| && Gcd(a, |keys|) == 1 && n <= |keys|
    requires Distinct(keys) && forall i | 0 <= i < |keys| :: 0 <= keys[i] < |row|
    ensures var p := Positions(a, b, |keys|, n);
            Distinct(p) && UpdatesExactly(row, keys, news, p, UpdatedRow(row, keys, news, p, n))
  {
    AffinePermutes(a, b, |keys|, n);
    DistinctUpdates(row, keys, news, Positions(a, b, |keys|, n));
  }

  // The keys at the positions hold their new states; every other entry is as before.
  ghost predicate UpdatesExactly(row: seq<int>, keys: seq<int>, news: seq<int>, p: seq<int>, after: seq<int>)
    requires |after| == |row| && |keys| == |news|
    requires forall i | 0 <= i < |p| :: 0 <= p[i] < |keys|
    requires forall i | 0 <= i < |keys| :: 0 <= keys[i] < |row|
  {
    && (forall t | 0 <= t < |p| :: after[keys[p[t]]] == news[p[t]])
    && (forall k | 0 <= k < |row| && k !in KeysAt(keys, p) :: after[k] == row[k])
  }

  lemma DistinctUpdates(row: seq<int>, keys: seq<int>, news: seq<int>, p: seq<int>)
    requires |keys| == |news| && Distinct(keys) && Distinct(p)
    requires forall i | 0 <= i < |p| :: 0 <= p[i] < |keys|
    requires forall i | 0 <= i < |keys| :: 0 <= keys[i] < |row|
    ensures UpdatesExactly(row, keys, news, p, UpdatedRow(row, keys, news, p, |p|))
  {
    var after := UpdatedRow(row, keys, news, p, |p|);
    forall t | 0 <= t < |p|
      ensures after[keys[p[t]]] == news[p[t]]
    {
      VisitedKeysUpdated(row, keys, news, p, t);
    }
    forall k | 0 <= k < |row| && k !in KeysAt(keys, p)
      ensures after[k] == row[k]
    {
      UnvisitedKept(row, keys, news, p, k);
    }
  }

  lemma UnvisitedKept(row: seq<int>, keys: seq<int>, news: seq<int>, p: seq<int>, k: int)
    requires |keys| == |news| && 0 <= k < |row|
    requires forall i | 0 <= i < |p| :: 0 <= p[i] < |keys|
    requires forall i | 0 <= i < |keys| :: 0 <= keys[i] < |row|
    requires k !in KeysAt(keys, p)
    ensures UpdatedRow(row, keys, news, p, |p|)[k] == row[k]
  {
    LastWriteWins(row, keys, news, p, |p|, k);
  }

  lemma ProductBound(a: nat, t: nat, b: nat, n: nat)
    requires a <= n && t < n && b < n < LIMIT
    ensures a * t + b < 0x1_0000_0000_0000_0000
  {
    assert a * t <= n * t by {
      assert n * t == a * t + (n - a) * t;
    }
    assert n * t <= n * n by {
      assert n * n == n * t + n * (n - t);
    }
    assert n * n <= LIMIT * n by {
      assert LIMIT * n == n * n + (LIMIT - n) * n;
    }
  }

  // ---- the flat buffers ------------------------------------------------------------------------------

  ghost predicate Buffers(table: seq<int>, query: seq<int>, news: seq<int>, reqNum: nat, queryLen: nat) {
    && |table| == reqNum * INDEX_SIZE < LIMIT && |query| == |news| == reqNum * queryLen < LIMIT
    && forall i | 0 <= i < |query| :: 0 <= query[i] < INDEX_SIZE
  }

  // The table is as before except for the row of one request.
  ghost predicate OneRow(before: seq<int>, now: seq<int>, reqNum: nat, reqId: nat, row: seq<int>)
    requires |before| == |now| == reqNum * INDEX_SIZE
  {
    forall r: nat | r < reqNum ::
      Row(now, INDEX_SIZE, reqNum, r) == if r == reqId then row else Row(before, INDEX_SIZE, reqNum, r)
  }

  lemma OneRowStep(before: seq<int>, now: seq<int>, reqNum: nat, reqId: nat, row: seq<int>, k: nat, v: int)
    requires |before| == |now| == reqNum * INDEX_SIZE && reqId < reqNum && k < INDEX_SIZE == |row|
    requires OneRow(before, now, reqNum, reqId, row)
    ensures reqId * INDEX_SIZE + k < |now|
    ensures OneRow(before, now[reqId * INDEX_SIZE + k := v], reqNum, reqId, row[k := v])
  {
    RowInside(|now|, INDEX_SIZE, reqNum, reqId);
    forall r: nat | r < reqNum
      ensures Row(now[reqId * INDEX_SIZE + k := v], INDEX_SIZE, reqNum, r) ==
              if r == reqId then row[k := v] else Row(before, INDEX_SIZE, reqNum, r)
    {
      SetCell(now, INDEX_SIZE, reqNum, reqId, k, v, r);
    }
  }

  lemma KeysInRange(table: seq<int>, query: seq<int>, news: seq<int>, reqNum: nat, queryLen: nat, r: nat)
    requires Buffers(table, query, news, reqNum, queryLen) && r < reqNum
    ensures forall i | 0 <= i < queryLen :: 0 <= Row(query, queryLen, reqNum, r)[i] < INDEX_SIZE
  {
    forall i | 0 <= i < queryLen
      ensures 0 <= Row(query, queryLen, reqNum, r)[i] < INDEX_SIZE
    {
      RowElement(query, queryLen, reqNum, r, i);
    }
  }

  // What the kernel must make of one request's row.
  ghost function Target(table: seq<int>, query: seq<int>, news: seq<int>, reqNum: nat, queryLen: nat,
                        r: nat, a: nat, b: nat, n: nat): (row: seq<int>)
    requires Buffers(table, query, news, reqNum, queryLen) && r < reqNum && 0 < queryLen
    ensures |row| == INDEX_SIZE
  {
    KeysInRange(table, query, news, reqNum, queryLen, r);
    UpdatedRow(Row(table, INDEX_SIZE, reqNum, r), Row(query, queryLen, reqNum, r), Row(news, queryLen, reqNum, r),
               Positions(a, b, queryLen, n), n)
  }

  lemma TargetNext(table: seq<int>, query: seq<int>, news: seq<int>, reqNum: nat, queryLen: nat,
                   r: nat, a: nat, b: nat, t: nat)
    requires Buffers(table, query, news, reqNum, queryLen) && r < reqNum && 0 < queryLen
    ensures var pos := Affine(a, b, queryLen, t);
            && r * queryLen + pos < |query| && 0 <= query[r * queryLen + pos] < INDEX_SIZE
            && Target(table, query, news, reqNum, queryLen, r, a, b, t + 1) ==
               Target(table, query, news, reqNum, queryLen, r, a, b, t)
               [query[r * queryLen + pos] := news[r * queryLen + pos]]
  {
    KeysInRange(table, query, news, reqNum, queryLen, r);
    RowElement(query, queryLen, reqNum, r, Affine(a, b, queryLen, t));
    RowElement(news, queryLen, reqNum, r, Affine(a, b, queryLen, t));
    UpdatePrefix(Row(table, INDEX_SIZE, reqNum, r), Row(query, queryLen, reqNum, r), Row(news, queryLen, reqNum, r),
                 Positions(a, b, queryLen, t), Positions(a, b, queryLen, t + 1), t);
  }

  lemma {:induction false} UpdatePrefix(row: seq<int>, keys: seq<int>, news: seq<int>, p: seq<int>, q: seq<int>, n: nat)
    requires n <= |p| && n <= |q| && |keys| == |news| && p[..n] == q[..n]
    requires forall t | 0 <= t < |p| :: 0 <= p[t] < |keys|
    requires forall t | 0 <= t < |q| :: 0 <= q[t] < |keys|
    requires forall i | 0 <= i < |keys| :: 0 <= keys[i] < |row|
    ensures UpdatedRow(row, keys, news, p, n) == UpdatedRow(row, keys, news, q, n)
  {
    if n > 0 {
      assert p[..n - 1] == p[..n][..n - 1] && q[..n - 1] == q[..n][..n - 1];
      assert p[n - 1] == p[..n][n - 1] && q[n - 1] == q[..n][n - 1];
      UpdatePrefix(row, keys, news, p, q, n - 1);
    }
  }

  // The loop of one request on the flat buffers.
  method UpdateRequest(table: array<int>, query: array<int>, news: array<int>, reqNum: nat, queryLen: nat,
                       reqId: nat, a: nat, b: nat, updateNum: nat)
    requires Buffers(table[..], query[..], news[..], reqNum, queryLen) && table != query && table != news
    requires reqId < reqNum && 0 < queryLen && a <= queryLen && b < queryLen < LIMIT && updateNum <= queryLen
    modifies table
    ensures OneRow(old(table[..]), table[..], reqNum, reqId,
                   Target(old(table[..]), query[..], news[..], reqNum, queryLen, reqId, a, b, updateNum))
  {
    ghost var before, q, w := table[..], query[..], news[..];
    RowInside(|before|, INDEX_SIZE, reqNum, reqId);
    RowInside(|q|, queryLen, reqNum, reqId);
    var indexBase := U32(reqId * INDEX_SIZE);
    var queryBase := U32(reqId * queryLen);
    for t := 0 to updateNum
      invariant query[..] == q && news[..] == w
      invariant OneRow(before, table[..], reqNum, reqId, Target(before, q, w, reqNum, queryLen, reqId, a, b, t))
    {
      UpdateAt(table, query, news, reqNum, queryLen, reqId, a, b, t, indexBase, queryBase, before);
    }
  }

  // One update of the loop.
  method UpdateAt(table: array<int>, query: array<int>, news: array<int>, ghost reqNum: nat, queryLen: nat,
                  ghost reqId: nat, a: nat, b: nat, t: nat, indexBase: nat, queryBase: nat, ghost before: seq<int>)
    requires Buffers(before, query[..], news[..], reqNum, queryLen) && table != query && table != news
    requires table.Length == |before| && reqId < reqNum && a <= queryLen && b < queryLen < LIMIT && t < queryLen
    requires indexBase == reqId * INDEX_SIZE && queryBase == reqId * queryLen
    requires OneRow(before, table[..], reqNum, reqId,
                    Target(before, query[..], news[..], reqNum, queryLen, reqId, a, b, t))
    modifies table
    ensures OneRow(before, table[..], reqNum, reqId,
                   Target(before, query[..], news[..], reqNum, queryLen, reqId, a, b, t + 1))
  {
    ghost var row := Target(before, query[..], news[..], reqNum, queryLen, reqId, a, b, t);
    ProductBound(a, t, b, queryLen);
    TargetNext(before, query[..], news[..], reqNum, queryLen, reqId, a, b, t);
    var pos := (a * t + b) % queryLen;
    var key := query[queryBase + pos];
    var newVal := news[queryBase + pos];
    OneRowStep(before, table[..], reqNum, reqId, row, key, newVal);
    ghost var now := table[..];
    table[indexBase + key] := newVal;
    assert table[..] == now[reqId * INDEX_SIZE + key := newVal];
  }

  // ---- all requests ----------------------------------------------------------------------------------

  // The two hash values each request draws.
  datatype Draws = Draws(multiplier: nat -> nat, offset: nat -> nat)

  // What the kernel makes of the row of request r.
  ghost function Wanted(table: seq<int>, query: seq<int>, news: seq<int>, reqNum: nat, queryLen: nat,
                        percent: nat, draws: Draws, r: nat): seq<int>
    requires Buffers(table, query, news, reqNum, queryLen) && r < reqNum
  {
    if queryLen == 0 then Row(table, INDEX_SIZE, reqNum, r)
    else
      Target(table, query, news, reqNum, queryLen, r, Multiplier(draws.multiplier(r), queryLen),
             draws.offset(r) % queryLen, UpdateNum(queryLen, percent))
  }

  // The draws' positions, in loop order.
  ghost predicate AtDraws(p: seq<int>, a: nat, offset: nat, m: nat) {
    forall t | 0 <= t < |p| :: m > 0 && p[t] == (a * t + offset % m) % m
  }

  // The keys at some pairwise distinct positions hold the new states, the rest of the row is as before.
  ghost predicate VisitsExactly(before: seq<int>, after: seq<int>, keys: seq<int>, news: seq<int>, p: seq<int>) {
    && |before| == |after| && |keys| == |news| && Distinct(p)
    && (forall i | 0 <= i < |keys| :: 0 <= keys[i] < |before|)
    && (forall t | 0 <= t < |p| :: 0 <= p[t] < |keys| && after[keys[p[t]]] == news[p[t]])
    && (forall k | 0 <= k < |before| :: after[k] == before[k] || exists t | 0 <= t < |p| :: keys[p[t]] == k)
  }

  ghost predicate UpdatedShare(before: seq<int>, after: seq<int>, keys: seq<int>, news: seq<int>, n: nat,
                               hash: nat, offset: nat)
  {
    exists a: nat, p: seq<int> ::
      && |p| == n && IsDrawn(a, hash, |keys|) && AtDraws(p, a, offset, |keys|)
      && VisitsExactly(before, after, keys, news, p)
  }

  // What a row of distinct keys becomes: queryLen * percent / 100 of its queries, the product taken in 32
  // bits, get their new states, and nothing else changes.
  lemma WantedExactly(table: seq<int>, query: seq<int>, news: seq<int>, reqNum: nat, queryLen: nat,
                      percent: nat, draws: Draws, r: nat)
    requires Buffers(table, query, news, reqNum, queryLen) && r < reqNum && percent <= 100
    requires Distinct(Row(query, queryLen, reqNum, r))
    ensures UpdatedShare(Row(table, INDEX_SIZE, reqNum, r),
                         Wanted(table, query, news, reqNum, queryLen, percent, draws, r),
                         Row(query, queryLen, reqNum, r), Row(news, queryLen, reqNum, r),
                         queryLen * percent % 0x1_0000_0000 / 100, draws.multiplier(r), draws.offset(r))
  {
    var row, keys := Row(table, INDEX_SIZE, reqNum, r), Row(query, queryLen, reqNum, r);
    var values := Row(news, queryLen, reqNum, r);
    var a, n := Multiplier(draws.multiplier(r), queryLen), UpdateNum(queryLen, percent);
    UpdateNumInside(queryLen, percent);
    MultiplierIsLeast(draws.multiplier(r), queryLen);
    KeysInRange(table, query, news, reqNum, queryLen, r);
    if queryLen == 0 {
      assert VisitsExactly(row, row, keys, values, []) && AtDraws([], a, draws.offset(r), 0);
    } else {
      ShareVisited(row, keys, values, a, draws.offset(r), n);
    }
  }

  lemma UpdateNumInside(queryLen: nat, percent: nat)
    requires percent <= 100
    ensures UpdateNum(queryLen, percent) == queryLen * percent % 0x1_0000_0000 / 100
    ensures queryLen == 0 ==> UpdateNum(queryLen, percent) == 0
  {
    PercentBound(queryLen, percent);
    var x := queryLen * percent;
    assert x % 0x1_0000_0000 <= x;
    assert x % 0x1_0000_0000 / 100 <= x / 100;
  }

  lemma ShareVisited(row: seq<int>, keys: seq<int>, news: seq<int>, a: nat, offset: nat, n: nat)
    requires |keys| == |news| && 0 < |keys| && Gcd(a, |keys|) == 1 && n <= |keys|
    requires Distinct(keys) && forall i | 0 <= i < |keys| :: 0 <= keys[i] < |row|
    ensures var p := Positions(a, offset % |keys|, |keys|, n);
            VisitsExactly(row, UpdatedRow(row, keys, news, p, n), keys, news, p) && AtDraws(p, a, offset, |keys|)
  {
    var p := Positions(a, offset % |keys|, |keys|, n);
    RandomUpdateExact(row, keys, news, a, offset % |keys|, n);
    VisitedOrKept(row, keys, news, p, UpdatedRow(row, keys, news, p, n));
    DrawnPositions(a, offset, |keys|, n);
  }

  lemma DrawnPositions(a: nat, offset: nat, m: nat, n: nat)
    requires m > 0
    ensures AtDraws(Positions(a, offset % m, m, n), a, offset, m)
  {
    var p, b := Positions(a, offset % m, m, n), offset % m;
    forall t: nat | t < n
      ensures p[t] == (a * t + b) % m
    {
      assert p[t] == Affine(a, b, m, t);
    }
  }

  lemma VisitedOrKept(row: seq<int>, keys: seq<int>, news: seq<int>, p: seq<int>, after: seq<int>)
    requires |after| == |row| && |keys| == |news| && Distinct(p)
    requires forall i | 0 <= i < |p| :: 0 <= p[i] < |keys|
    requires forall i | 0 <= i < |keys| :: 0 <= keys[i] < |row|
    requires UpdatesExactly(row, keys, news, p, after)
    ensures VisitsExactly(row, after, keys, news, p)
  {
    forall k | 0 <= k < |row|
      ensures after[k] == row[k] || exists t | 0 <= t < |p| :: keys[p[t]] == k
    {
      if k in KeysAt(keys, p) {
        var t :| 0 <= t < |p| && KeysAt(keys, p)[t] == k;
        assert keys[p[t]] == k;
      }
    }
  }

  // With distinct keys and a product that fits, that is exactly the promised share.
  ghost predicate PromisedShares(before: seq<int>, now: seq<int>, query: seq<int>, news: seq<int>, reqNum: nat,
                                 queryLen: nat, percent: nat, draws: Draws)
    requires |now| == |before| == reqNum * INDEX_SIZE && |query| == |news| == reqNum * queryLen
  {
    percent <= 100 && queryLen * percent < 0x1_0000_0000 ==>
      forall r: nat | r < reqNum && Distinct(Row(query, queryLen, reqNum, r)) ::
        UpdatedShare(Row(before, INDEX_SIZE, reqNum, r), Row(now, INDEX_SIZE, reqNum, r),
                     Row(query, queryLen, reqNum, r), Row(news, queryLen, reqNum, r),
                     queryLen * percent / 100, draws.multiplier(r), draws.offset(r))
  }

  lemma SharesAsPromised(before: seq<int>, now: seq<int>, query: seq<int>, news: seq<int>, reqNum: nat,
                         queryLen: nat, percent: nat, draws: Draws)
    requires Buffers(before, query, news, reqNum, queryLen) && |now| == |before|
    requires forall r: nat | r < reqNum ::
               Row(now, INDEX_SIZE, reqNum, r) == Wanted(before, query, news, reqNum, queryLen, percent, draws, r)
    ensures PromisedShares(before, now, query, news, reqNum, queryLen, percent, draws)
  {
    if percent <= 100 && queryLen * percent < 0x1_0000_0000 {
      SmallProduct(queryLen * percent);
      forall r: nat | r < reqNum && Distinct(Row(query, queryLen, reqNum, r))
        ensures UpdatedShare(Row(before, INDEX_SIZE, reqNum, r), Row(now, INDEX_SIZE, reqNum, r),
                             Row(query, queryLen, reqNum, r), Row(news, queryLen, reqNum, r),
                             queryLen * percent / 100, draws.multiplier(r), draws.offset(r))
      {
        WantedExactly(before, query, news, reqNum, queryLen, percent, draws, r);
      }
    }
  }

  lemma SmallProduct(x: nat)
    requires x < 0x1_0000_0000
    ensures x % 0x1_0000_0000 == x
  {
  }

  // Exactly the rows of a set are updated.
  ghost predicate RowsDone(before: seq<int>, now: seq<int>, query: seq<int>, news: seq<int>, reqNum: nat,
                           queryLen: nat, percent: nat, draws: Draws, rows: set<int>)
    requires Buffers(before, query, news, reqNum, queryLen) && |now| == |before|
  {
    forall r: nat | r < reqNum ::
      Row(now, INDEX_SIZE, reqNum, r) ==
      if r in rows then Wanted(before, query, news, reqNum, queryLen, percent, draws, r)
      else Row(before, INDEX_SIZE, reqNum, r)
  }

  // Updating further rows after some are done: each row is computed from what it was at the start.
  lemma RowsCompose(before: seq<int>, was: seq<int>, now: seq<int>, query: seq<int>, news: seq<int>, reqNum: nat,
                    queryLen: nat, percent: nat, draws: Draws, first: set<int>, second: set<int>)
    requires Buffers(before, query, news, reqNum, queryLen) && |was| == |now| == |before|
    requires RowsDone(before, was, query, news, reqNum, queryLen, percent, draws, first)
    requires RowsDone(was, now, query, news, reqNum, queryLen, percent, draws, second) && first !! second
    ensures RowsDone(before, now, query, news, reqNum, queryLen, percent, draws, first + second)
  {
    forall r: nat | r < reqNum
      ensures Row(now, INDEX_SIZE, reqNum, r) ==
              if r in first + second then Wanted(before, query, news, reqNum, queryLen, percent, draws, r)
              else Row(before, INDEX_SIZE, reqNum, r)
    {
      assert Row(was, INDEX_SIZE, reqNum, r) ==
             if r in first then Wanted(before, query, news, reqNum, queryLen, percent, draws, r)
             else Row(before, INDEX_SIZE, reqNum, r);
    }
  }

  // With nothing to update the rows are already as wanted.
  lemma NothingWanted(table: seq<int>, query: seq<int>, news: seq<int>, reqNum: nat, queryLen: nat,
                      percent: nat, draws: Draws, rows: set<int>)
    requires Buffers(table, query, news, reqNum, queryLen)
    requires queryLen == 0 || UpdateNum(queryLen, percent) == 0
    ensures RowsDone(table, table, query, news, reqNum, queryLen, percent, draws, rows)
  {
  }

  // Process on one core: exactly its own requests are updated.
  method Process(table: array<int>, query: array<int>, news: array<int>, reqNum: nat, queryLen: nat,
                 percent: nat, draws: Draws, core: nat, blockNum: nat)
    requires Buffers(table[..], query[..], news[..], reqNum, queryLen) && table != query && table != news
    requires core < blockNum <= 64 && queryLen < LIMIT
    modifies table
    ensures RowsDone(old(table[..]), table[..], query[..], news[..], reqNum, queryLen, percent, draws,
                     Mine(core, blockNum, reqNum))
  {
    if queryLen == 0 || percent == 0 {
      NothingWanted(table[..], query[..], news[..], reqNum, queryLen, percent, draws, Mine(core, blockNum, reqNum));
      return;
    }
    var updateNum := U32(queryLen * percent) / 100;
    if updateNum > queryLen {
      updateNum := queryLen;
    }
    if updateNum == 0 {
      NothingWanted(table[..], query[..], news[..], reqNum, queryLen, percent, draws, Mine(core, blockNum, reqNum));
      return;
    }
    UpdateMine(table, query, news, reqNum, queryLen, percent, draws, core, blockNum, updateNum);
  }

  lemma MineEnough(before: seq<int>, now: seq<int>, query: seq<int>, news: seq<int>, reqNum: nat, queryLen: nat,
                   percent: nat, draws: Draws, core: nat, blockNum: nat, m: nat)
    requires Buffers(before, query, news, reqNum, queryLen) && |now| == |before| && blockNum > 0 && reqNum <= m
    requires RowsDone(before, now, query, news, reqNum, queryLen, percent, draws, Mine(core, blockNum, m))
    ensures RowsDone(before, now, query, news, reqNum, queryLen, percent, draws, Mine(core, blockNum, reqNum))
  {
    forall r: nat | r < reqNum
      ensures r in Mine(core, blockNum, m) <==> r in Mine(core, blockNum, reqNum)
    {
      MineBelow(core, blockNum, reqNum, m, r);
    }
  }

  lemma FewRequests(reqNum: nat)
    requires reqNum * INDEX_SIZE < LIMIT
    ensures reqNum < 32768
  {
  }

  // The strided request loop.
  method UpdateMine(table: array<int>, query: array<int>, news: array<int>, reqNum: nat, queryLen: nat,
                    percent: nat, draws: Draws, core: nat, blockNum: nat, updateNum: nat)
    requires Buffers(table[..], query[..], news[..], reqNum, queryLen) && table != query && table != news
    requires core < blockNum <= 64 && 0 < queryLen < LIMIT && updateNum == UpdateNum(queryLen, percent)
    modifies table
    ensures RowsDone(old(table[..]), table[..], query[..], news[..], reqNum, queryLen, percent, draws,
                     Mine(core, blockNum, reqNum))
  {
    ghost var before := table[..];
    NoneMine(core, blockNum);
    FewRequests(reqNum);
    NothingWantedYet(before, query[..], news[..], reqNum, queryLen, percent, draws);
    var reqId := core;
    while reqId < reqNum
      invariant reqId % blockNum == core && reqId < 40000
      invariant RowsDone(before, table[..], query[..], news[..], reqNum, queryLen, percent, draws,
                         Mine(core, blockNum, reqId))
    {
      NextMine(core, blockNum, reqId);
      UpdateOwn(table, query, news, reqNum, queryLen, percent, draws, reqId, updateNum, before,
                Mine(core, blockNum, reqId));
      reqId := NextOwn(reqId, core, blockNum);
    }
    MineEnough(before, table[..], query[..], news[..], reqNum, queryLen, percent, draws, core, blockNum, reqId);
  }

  lemma NothingWantedYet(table: seq<int>, query: seq<int>, news: seq<int>, reqNum: nat, queryLen: nat,
                         percent: nat, draws: Draws)
    requires Buffers(table, query, news, reqNum, queryLen)
    ensures RowsDone(table, table, query, news, reqNum, queryLen, percent, draws, {})
  {
  }

  method UpdateOwn(table: array<int>, query: array<int>, news: array<int>, reqNum: nat, queryLen: nat,
                   percent: nat, draws: Draws, reqId: nat, updateNum: nat, ghost before: seq<int>, ghost rows: set<int>)
    requires Buffers(before, query[..], news[..], reqNum, queryLen) && table != query && table != news
    requires table.Length == |before| && 0 < queryLen < LIMIT && updateNum == UpdateNum(queryLen, percent)
    requires reqId < reqNum && reqId !in rows
    requires RowsDone(before, table[..], query[..], news[..], reqNum, queryLen, percent, draws, rows)
    modifies table
    ensures RowsDone(before, table[..], query[..], news[..], reqNum, queryLen, percent, draws, rows + {reqId})
  {
    ghost var was := table[..];
    var a := PickCoprimeA(draws.multiplier(reqId), queryLen);
    var b := draws.offset(reqId) % queryLen;
    UpdateRequest(table, query, news, reqNum, queryLen, reqId, a, b, updateNum);
    RowsCompose(before, was, table[..], query[..], news[..], reqNum, queryLen, percent, draws, rows, {reqId});
  }

  // All cores, in any order: every request is updated exactly once, from its row at launch.
  method Launch(table: array<int>, query: array<int>, news: array<int>, reqNum: nat, queryLen: nat,
                percent: nat, draws: Draws, blockNum: nat, order: seq<nat>)
    requires Buffers(table[..], query[..], news[..], reqNum, queryLen) && table != query && table != news
    requires 0 < blockNum <= 64 && queryLen < LIMIT
    requires EveryCore(order, blockNum)
    modifies table
    ensures forall r: nat | r < reqNum ::
              Row(table[..], INDEX_SIZE, reqNum, r) ==
              Wanted(old(table[..]), query[..], news[..], reqNum, queryLen, percent, draws, r)
    ensures PromisedShares(old(table[..]), table[..], query[..], news[..], reqNum, queryLen, percent, draws)
  {
    ghost var before := table[..];
    NothingWantedYet(before, query[..], news[..], reqNum, queryLen, percent, draws);
    for i := 0 to |order|
      invariant RowsDone(before, table[..], query[..], news[..], reqNum, queryLen, percent, draws,
                         Owned(order, i, blockNum, reqNum))
    {
      ghost var was := table[..];
      assert order[i] in order;
      Process(table, query, news, reqNum, queryLen, percent, draws, order[i], blockNum);
      NotYetOwned(order, i, blockNum, reqNum);
      RowsCompose(before, was, table[..], query[..], news[..], reqNum, queryLen, percent, draws,
                  Owned(order, i, blockNum, reqNum), Mine(order[i], blockNum, reqNum));
    }
    AllOwned(order, blockNum, reqNum);
    SharesAsPromised(before, table[..], query[..], news[..], reqNum, queryLen, percent, draws);
  }
}
