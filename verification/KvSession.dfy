/** The server as a decoder of a byte stream: what one connection reads, answers and stores. */
module KvSession {
  import opened Bytes
  import opened KvProtocol
  import opened Options

  // After one request: the store, the bytes not yet read, the bytes sent, and whether the connection
  // stays open.
  datatype Turn = Turn(store: Store, rest: Data, out: Data, open: bool)

  // SendResponse: a payload whose length does not fit 32 bits is not sent at all.
  function Reply(store: Store, rest: Data, response: Response): Turn {
    if |response.payload| > U32_MAX then Turn(store, rest, [], false)
    else Turn(store, rest, EncodeResponse(response), true)
  }

  function Refuse(store: Store, rest: Data): Turn {
    Turn(store, rest, EncodeResponse(Response(BadRequest, [])), false)
  }

  // The stream ended inside a request.
  function Cut(store: Store): Turn {
    Turn(store, [], [], false)
  }

  // Items of a batch_put: those read before the stream ends are stored.
  function ReadItems(store: Store, kind: int, s: Data, n: nat): (r: (Store, Option<Data>))
    ensures r.1.Some? ==> |r.1.value| <= |s|
    decreases n
  {
    if n == 0 then (store, Some(s))
    else if |s| < KEY_LENGTH + 4 then (store, None)
    else
      var len := Load(s[KEY_LENGTH..KEY_LENGTH + 4]);
      if |s| < KEY_LENGTH + 4 + len then (store, None)
      else
        ReadItems(Insert(store, kind, s[..KEY_LENGTH], s[KEY_LENGTH + 4..KEY_LENGTH + 4 + len]), kind,
                  s[KEY_LENGTH + 4 + len..], n - 1)
  }

  // n keys, one after the other.
  function KeysOf(s: Data, n: nat): (keys: seq<Data>)
    requires |s| >= n * KEY_LENGTH
    ensures |keys| == n
  {
    if n == 0 then [] else [s[..KEY_LENGTH]] + KeysOf(s[KEY_LENGTH..], n - 1)
  }

  // The batch count, or nothing when it is missing or too large.
  function BatchCount(s: Data): Option<nat> {
    if |s| < 4 || Load(s[..4]) > MAX_BATCH_COUNT then None else Some(Load(s[..4]))
  }

  function AfterCount(s: Data): (r: Data)
    ensures |r| <= |s|
  {
    if |s| < 4 then [] else s[4..]
  }

  function HandlePut(store: Store, kind: Byte, valLen: nat, s: Data): (t: Turn)
    ensures |t.rest| <= |s|
  {
    if |s| < KEY_LENGTH + valLen then Cut(store)
    else
      Reply(Insert(store, kind, s[..KEY_LENGTH], s[KEY_LENGTH..KEY_LENGTH + valLen]), s[KEY_LENGTH + valLen..],
            Response(Ok, []))
  }

  function HandleGet(store: Store, kind: Byte, s: Data): (t: Turn)
    ensures |t.rest| <= |s|
  {
    if |s| < KEY_LENGTH then Cut(store)
    else
      match Lookup(store, kind, s[..KEY_LENGTH])
      case Some(v) => Reply(store, s[KEY_LENGTH..], Response(Ok, v))
      case None => Reply(store, s[KEY_LENGTH..], Response(NotFound, []))
  }

  function HandleExists(store: Store, kind: Byte, s: Data): (t: Turn)
    ensures |t.rest| <= |s|
  {
    if |s| < KEY_LENGTH then Cut(store)
    else Reply(store, s[KEY_LENGTH..], Response(Ok, [Flag(Lookup(store, kind, s[..KEY_LENGTH]))]))
  }

  function HandleBatchPut(store: Store, kind: Byte, s: Data): (t: Turn)
    ensures |t.rest| <= |s|
  {
    match BatchCount(s)
    case None => Refuse(store, AfterCount(s))
    case Some(n) =>
      var (after, rest) := ReadItems(store, kind, s[4..], n);
      if rest.None? then Cut(after) else Reply(after, rest.value, Response(Ok, []))
  }

  function HandleBatchGet(store: Store, kind: Byte, s: Data): (t: Turn)
    ensures |t.rest| <= |s|
  {
    match BatchCount(s)
    case None => Refuse(store, AfterCount(s))
    case Some(n) =>
      if |s| - 4 < n * KEY_LENGTH then Cut(store)
      else
        Reply(store, s[4 + n * KEY_LENGTH..],
              Response(Ok, Le(n, 4) + PackAnswers(Answers(store, kind, KeysOf(s[4..], n)), n)))
  }

  function HandleBatchExists(store: Store, kind: Byte, s: Data): (t: Turn)
    ensures |t.rest| <= |s|
  {
    match BatchCount(s)
    case None => Refuse(store, AfterCount(s))
    case Some(n) =>
      if |s| - 4 < n * KEY_LENGTH then Cut(store)
      else
        Reply(store, s[4 + n * KEY_LENGTH..],
              Response(Ok, Le(n, 4) + PackFlags(Answers(store, kind, KeysOf(s[4..], n)))))
  }

  // HandleRequest, once the header fields are read.
  function Dispatch(store: Store, code: Byte, kind: Byte, keyLen: nat, valLen: nat, s: Data): (t: Turn)
    ensures |t.rest| <= |s|
  {
    if code == 0x01 then (if keyLen != KEY_LENGTH then Refuse(store, s) else HandlePut(store, kind, valLen, s))
    else if code in {0x02, 0x03, 0x04, 0x05, 0x06} then
      if keyLen != KEY_LENGTH || valLen != 0 then Refuse(store, s)
      else if code == 0x02 then HandleGet(store, kind, s)
      else if code == 0x03 then HandleExists(store, kind, s)
      else if code == 0x04 then HandleBatchPut(store, kind, s)
      else if code == 0x05 then HandleBatchGet(store, kind, s)
      else HandleBatchExists(store, kind, s)
    else if code in {0x11, 0x12} then
      if keyLen != 0 || valLen != 0 then Refuse(store, s)
      else if code == 0x11 then Reply(Erase(store, kind), s, Response(Ok, []))
      else Reply(store, s, Response(Ok, Le(SizeOf(store, kind), 8)))
    else Refuse(store, s)
  }

  function Handle(store: Store, h: Data, s: Data): (t: Turn)
    requires |h| == HEADER_LENGTH
    ensures |t.rest| <= |s|
  {
    Dispatch(store, h[0], h[1], Load(h[4..6]), Load(h[6..10]), s)
  }

  // HandleClient: requests until the stream ends or one of them closes the connection.
  function Session(store: Store, s: Data): (r: (Store, Data))
    decreases |s|
  {
    if |s| < HEADER_LENGTH then (store, [])
    else
      var t := Handle(store, s[..HEADER_LENGTH], s[HEADER_LENGTH..]);
      if !t.open then (t.store, t.out)
      else
        var (after, out) := Session(t.store, t.rest);
        (after, t.out + out)
  }

  // ---- well-formed requests are decoded exactly ------------------------------------------------------

  lemma HeaderFields(code: Byte, kind: Byte, keyLen: nat, valLen: nat)
    requires keyLen < 0x1_0000 && valLen <= U32_MAX
    ensures var h := Header(code, kind, keyLen, valLen);
            h[0] == code && h[1] == kind && Load(h[4..6]) == keyLen && Load(h[6..10]) == valLen
  {
    Powers();
    LoadLe(keyLen, 2);
    LoadLe(valLen, 4);
    var h := Header(code, kind, keyLen, valLen);
    assert h[4..6] == Le(keyLen, 2);
    assert h[6..10] == Le(valLen, 4);
  }

  lemma CountPrefix(n: nat, s: Data)
    requires n <= MAX_BATCH_COUNT
    ensures BatchCount(Le(n, 4) + s) == Some(n) && (Le(n, 4) + s)[4..] == s
  {
    Powers();
    LoadLe(n, 4);
    TakeDrop(Le(n, 4), s);
  }

  lemma {:induction false} PackItemsFront(items: seq<(Data, Data)>, n: nat)
    requires 0 < n <= |items|
    ensures PackItems(items, n) ==
            items[0].0 + Le(|items[0].1|, 4) + items[0].1 + PackItems(items[1..], n - 1)
  {
    if n > 1 {
      PackItemsFront(items, n - 1);
      assert items[1..][n - 2] == items[n - 1];
    }
  }

  lemma {:induction false} InsertAllFront(store: Store, kind: int, items: seq<(Data, Data)>, n: nat)
    requires 0 < n <= |items|
    ensures InsertAll(store, kind, items, n) ==
            InsertAll(Insert(store, kind, items[0].0, items[0].1), kind, items[1..], n - 1)
  {
    if n > 1 {
      InsertAllFront(store, kind, items, n - 1);
      assert items[1..][n - 2] == items[n - 1];
    }
  }

  lemma {:induction false} ItemsDecode(store: Store, kind: int, items: seq<(Data, Data)>, rest: Data)
    requires forall i | 0 <= i < |items| :: ItemOk(items[i])
    ensures ReadItems(store, kind, PackItems(items, |items|) + rest, |items|) ==
            (InsertAll(store, kind, items, |items|), Some(rest))
    decreases |items|
  {
    if items == [] {
      assert PackItems(items, 0) + rest == rest;
    } else {
      var (key, value) := items[0];
      var tail := PackItems(items[1..], |items| - 1) + rest;
      PackItemsFront(items, |items|);
      InsertAllFront(store, kind, items, |items|);
      var s := PackItems(items, |items|) + rest;
      assert s == key + Le(|value|, 4) + value + tail;
      ItemAtFront(key, value, tail, s);
      ItemsDecode(Insert(store, kind, key, value), kind, items[1..], rest);
    }
  }

  lemma ItemAtFront(key: Data, value: Data, tail: Data, s: Data)
    requires |key| == KEY_LENGTH && |value| <= U32_MAX && s == key + Le(|value|, 4) + value + tail
    ensures |s| >= KEY_LENGTH + 4 + |value| && s[..KEY_LENGTH] == key
    ensures Load(s[KEY_LENGTH..KEY_LENGTH + 4]) == |value|
    ensures s[KEY_LENGTH + 4..KEY_LENGTH + 4 + |value|] == value && s[KEY_LENGTH + 4 + |value|..] == tail
  {
    FourParts(key, Le(|value|, 4), value, tail);
    Powers();
    LoadLe(|value|, 4);
  }

  // One whole item at the front is stored, and the reading goes on after it.
  lemma ReadsFirst(store: Store, kind: int, key: Data, value: Data, tail: Data, count: nat)
    requires |key| == KEY_LENGTH && |value| <= U32_MAX && count > 0
    ensures ReadItems(store, kind, key + Le(|value|, 4) + value + tail, count) ==
            ReadItems(Insert(store, kind, key, value), kind, tail, count - 1)
  {
    ItemAtFront(key, value, tail, key + Le(|value|, 4) + value + tail);
  }

  lemma FourParts(a: Data, b: Data, c: Data, d: Data)
    ensures var s := a + b + c + d;
            && s[..|a|] == a && s[|a|..|a| + |b|] == b
            && s[|a| + |b|..|a| + |b| + |c|] == c && s[|a| + |b| + |c|..] == d
  {
    Middle(a + b, c, d);
    Middle(a, b, c + d);
    assert a + b + c + d == a + b + (c + d);
  }

  lemma {:induction false} PackKeysFront(keys: seq<Data>, n: nat)
    requires 0 < n <= |keys|
    ensures PackKeys(keys, n) == keys[0] + PackKeys(keys[1..], n - 1)
  {
    if n > 1 {
      PackKeysFront(keys, n - 1);
      assert keys[1..][n - 2] == keys[n - 1];
    }
  }

  lemma {:induction false} KeysDecode(keys: seq<Data>, rest: Data)
    requires forall i | 0 <= i < |keys| :: KeyOk(keys[i])
    ensures |PackKeys(keys, |keys|)| == |keys| * KEY_LENGTH
    ensures KeysOf(PackKeys(keys, |keys|) + rest, |keys|) == keys
    decreases |keys|
  {
    if keys != [] {
      PackKeysFront(keys, |keys|);
      KeysDecode(keys[1..], rest);
      var s, tail := PackKeys(keys, |keys|) + rest, PackKeys(keys[1..], |keys| - 1) + rest;
      assert s == keys[0] + tail;
      TakeDrop(keys[0], tail);
      assert keys == [keys[0]] + keys[1..];
    }
  }

  lemma PutExact(store: Store, kind: Byte, key: Data, value: Data, rest: Data)
    requires |key| == KEY_LENGTH
    ensures HandlePut(store, kind, |value|, key + value + rest) ==
            Reply(Insert(store, kind, key, value), rest, Response(Ok, []))
  {
    Middle(key, value, rest);
  }

  lemma BatchPutExact(store: Store, kind: Byte, items: seq<(Data, Data)>, rest: Data)
    requires WellFormed(BatchPut(kind, items))
    ensures HandleBatchPut(store, kind, Body(BatchPut(kind, items)) + rest) ==
            Reply(InsertAll(store, kind, items, |items|), rest, Response(Ok, []))
  {
    var packed := PackItems(items, |items|);
    assert Body(BatchPut(kind, items)) + rest == Le(|items|, 4) + (packed + rest);
    CountPrefix(|items|, packed + rest);
    ItemsDecode(store, kind, items, rest);
  }

  // A key batch is read back whole, and what follows it is left.
  lemma BatchKeysExact(keys: seq<Data>, rest: Data, s: Data)
    requires |keys| <= MAX_BATCH_COUNT && forall i | 0 <= i < |keys| :: KeyOk(keys[i])
    requires s == Le(|keys|, 4) + PackKeys(keys, |keys|) + rest
    ensures BatchCount(s) == Some(|keys|) && |s| - 4 >= |keys| * KEY_LENGTH
    ensures KeysOf(s[4..], |keys|) == keys && s[4 + |keys| * KEY_LENGTH..] == rest
  {
    KeysDecode(keys, rest);
    AfterPrefix(Le(|keys|, 4), PackKeys(keys, |keys|), rest, s);
    CountPrefix(|keys|, PackKeys(keys, |keys|) + rest);
  }

  lemma AfterPrefix(count: Data, packed: Data, rest: Data, s: Data)
    requires |count| == 4 && s == count + packed + rest
    ensures s == count + (packed + rest) && |s| - 4 >= |packed|
    ensures s[4..] == packed + rest && s[4 + |packed|..] == rest
  {
  }

  lemma GetExact(store: Store, kind: Byte, key: Data, rest: Data)
    requires |key| == KEY_LENGTH
    ensures HandleGet(store, kind, key + rest) == Reply(store, rest, Serve(store, Get(kind, key)).1)
    ensures HandleExists(store, kind, key + rest) == Reply(store, rest, Serve(store, Exists(kind, key)).1)
  {
    TakeDrop(key, rest);
  }

  lemma BatchGetExact(store: Store, kind: Byte, keys: seq<Data>, rest: Data)
    requires WellFormed(BatchGet(kind, keys))
    ensures HandleBatchGet(store, kind, Le(|keys|, 4) + PackKeys(keys, |keys|) + rest) ==
            Reply(store, rest, Serve(store, BatchGet(kind, keys)).1)
  {
    var s := Le(|keys|, 4) + PackKeys(keys, |keys|) + rest;
    BatchKeysExact(keys, rest, s);
    GetFromKeys(store, kind, keys, rest, s);
  }

  lemma GetFromKeys(store: Store, kind: Byte, keys: seq<Data>, rest: Data, s: Data)
    requires BatchCount(s) == Some(|keys|) && |s| - 4 >= |keys| * KEY_LENGTH
    requires KeysOf(s[4..], |keys|) == keys && s[4 + |keys| * KEY_LENGTH..] == rest
    ensures HandleBatchGet(store, kind, s) == Reply(store, rest, Serve(store, BatchGet(kind, keys)).1)
  {
  }

  lemma BatchExistsExact(store: Store, kind: Byte, keys: seq<Data>, rest: Data, s: Data)
    requires WellFormed(BatchExists(kind, keys)) && s == Le(|keys|, 4) + PackKeys(keys, |keys|) + rest
    ensures HandleBatchExists(store, kind, s) == Reply(store, rest, Serve(store, BatchExists(kind, keys)).1)
  {
    BatchKeysExact(keys, rest, s);
    FlagsFromKeys(store, kind, keys, rest, s);
  }

  lemma FlagsFromKeys(store: Store, kind: Byte, keys: seq<Data>, rest: Data, s: Data)
    requires BatchCount(s) == Some(|keys|) && |s| - 4 >= |keys| * KEY_LENGTH
    requires KeysOf(s[4..], |keys|) == keys && s[4 + |keys| * KEY_LENGTH..] == rest
    ensures HandleBatchExists(store, kind, s) == Reply(store, rest, Serve(store, BatchExists(kind, keys)).1)
  {
  }

  function KeyLen(r: Request): nat {
    if r.Clear? || r.Size? then 0 else KEY_LENGTH
  }

  function ValLen(r: Request): nat {
    if r.Put? then |r.value| else 0
  }

  ghost predicate Exact(store: Store, r: Request, rest: Data) {
    Dispatch(store, Code(r), r.kind, KeyLen(r), ValLen(r), Body(r) + rest) ==
    Reply(Serve(store, r).0, rest, Serve(store, r).1)
  }

  lemma SingleExact(store: Store, r: Request, rest: Data)
    requires WellFormed(r) && (r.Put? || r.Get? || r.Exists?)
    ensures Exact(store, r, rest)
  {
    match r
    case Put(kind, key, value) => PutExact(store, kind, key, value, rest);
    case Get(kind, key) => GetExact(store, kind, key, rest);
    case Exists(kind, key) => GetExact(store, kind, key, rest);
  }

  lemma BatchWriteExact(store: Store, r: Request, rest: Data)
    requires WellFormed(r) && r.BatchPut?
    ensures Exact(store, r, rest)
  {
    BatchPutExact(store, r.kind, r.items, rest);
  }

  lemma BatchReadsExact(store: Store, kind: Byte, keys: seq<Data>, rest: Data)
    requires WellFormed(BatchGet(kind, keys))
    ensures Exact(store, BatchGet(kind, keys), rest)
  {
    BatchGetExact(store, kind, keys, rest);
  }

  lemma BatchProbesExact(store: Store, kind: Byte, keys: seq<Data>, rest: Data)
    requires WellFormed(BatchExists(kind, keys))
    ensures Exact(store, BatchExists(kind, keys), rest)
  {
    BatchExistsExact(store, kind, keys, rest, Le(|keys|, 4) + PackKeys(keys, |keys|) + rest);
  }

  lemma AdminExact(store: Store, r: Request, rest: Data)
    requires r.Clear? || r.Size?
    ensures Exact(store, r, rest)
  {
    assert Body(r) + rest == rest;
  }

  lemma DispatchExact(store: Store, r: Request, rest: Data)
    requires WellFormed(r)
    ensures Exact(store, r, rest)
  {
    match r
    case Put(_, _, _) => SingleExact(store, r, rest);
    case Get(_, _) => SingleExact(store, r, rest);
    case Exists(_, _) => SingleExact(store, r, rest);
    case BatchPut(_, _) => BatchWriteExact(store, r, rest);
    case BatchGet(kind, keys) => BatchReadsExact(store, kind, keys, rest);
    case BatchExists(kind, keys) => BatchProbesExact(store, kind, keys, rest);
    case Clear(_) => AdminExact(store, r, rest);
    case Size(_) => AdminExact(store, r, rest);
  }

  lemma Framed(r: Request, rest: Data)
    ensures var s := EncodeRequest(r) + rest;
            && |s| >= HEADER_LENGTH && s[..HEADER_LENGTH] == Header(Code(r), r.kind, KeyLen(r), ValLen(r))
            && s[HEADER_LENGTH..] == Body(r) + rest
  {
    var h, body := Header(Code(r), r.kind, KeyLen(r), ValLen(r)), Body(r);
    assert EncodeRequest(r) == h + body;
    assert h + body + rest == h + (body + rest);
    TakeDrop(h, body + rest);
  }

  lemma HandleIsDispatch(store: Store, code: Byte, kind: Byte, keyLen: nat, valLen: nat, s: Data)
    requires keyLen < 0x1_0000 && valLen <= U32_MAX
    ensures Handle(store, Header(code, kind, keyLen, valLen), s) == Dispatch(store, code, kind, keyLen, valLen, s)
  {
    HeaderFields(code, kind, keyLen, valLen);
  }

  // One well-formed request at the front of the stream: exactly its bytes are consumed, the store
  // becomes the abstract one, and the answer is the abstract answer.
  lemma TurnExact(store: Store, r: Request, rest: Data)
    requires WellFormed(r)
    ensures var s := EncodeRequest(r) + rest;
            |s| >= HEADER_LENGTH &&
            Handle(store, s[..HEADER_LENGTH], s[HEADER_LENGTH..]) ==
            Reply(Serve(store, r).0, rest, Serve(store, r).1)
  {
    Framed(r, rest);
    HandleIsDispatch(store, Code(r), r.kind, KeyLen(r), ValLen(r), Body(r) + rest);
    DispatchExact(store, r, rest);
  }

  // A batch past the limit is refused when its count has been read; the store does not change.
  lemma OverLimitRefused(store: Store, r: Request, rest: Data)
    requires Admitted(r) && !WithinLimit(r)
    ensures var s := EncodeRequest(r) + rest;
            |s| >= HEADER_LENGTH &&
            Handle(store, s[..HEADER_LENGTH], s[HEADER_LENGTH..]) ==
            Refuse(store, AfterCount(Body(r) + rest))
  {
    Framed(r, rest);
    HandleIsDispatch(store, Code(r), r.kind, KeyLen(r), ValLen(r), Body(r) + rest);
    match r
    case BatchPut(_, items) => CountTooLarge(|items|, PackItems(items, |items|), rest);
    case BatchGet(_, keys) => CountTooLarge(|keys|, PackKeys(keys, |keys|), rest);
    case BatchExists(_, keys) => CountTooLarge(|keys|, PackKeys(keys, |keys|), rest);
  }

  lemma CountTooLarge(n: nat, packed: Data, rest: Data)
    requires MAX_BATCH_COUNT < n <= U32_MAX
    ensures BatchCount(Le(n, 4) + packed + rest) == None
  {
    Powers();
    LoadLe(n, 4);
    assert Le(n, 4) + packed + rest == Le(n, 4) + (packed + rest);
    TakeDrop(Le(n, 4), packed + rest);
  }

  // For every sequence of admitted requests the session is the abstract conversation: the server
  // decodes exactly those requests and sends exactly their answers.
  lemma {:induction false} SessionExact(store: Store, requests: seq<Request>)
    requires forall i | 0 <= i < |requests| :: Admitted(requests[i])
    ensures Session(store, EncodeRequests(requests)) ==
            (Conversation(store, requests).0, EncodeResponses(Conversation(store, requests).1))
    decreases |requests|
  {
    if requests != [] {
      var r, rest := requests[0], EncodeRequests(requests[1..]);
      if WithinLimit(r) {
        TurnExact(store, r, rest);
        var (next, response) := Serve(store, r);
        if |response.payload| <= U32_MAX {
          SessionExact(next, requests[1..]);
          var responses := Conversation(next, requests[1..]).1;
          assert ([response] + responses)[1..] == responses;
        }
      } else {
        OverLimitRefused(store, r, rest);
        var refusal := Response(BadRequest, []);
        assert EncodeResponses([refusal]) == EncodeResponse(refusal);
      }
    }
  }

  // ---- requests cut short ------------------------------------------------------------------------------

  lemma PrefixOf(a: Data, b: Data, n: nat)
    requires |a| <= n <= |a| + |b|
    ensures (a + b)[..n] == a + b[..n - |a|]
  {
  }

  lemma PackedLengthFront(items: seq<(Data, Data)>, n: nat)
    requires 0 < n <= |items| && ItemOk(items[0])
    ensures |PackItems(items, n)| == KEY_LENGTH + 4 + |items[0].1| + |PackItems(items[1..], n - 1)|
  {
    PackItemsFront(items, n);
  }

  // Of items cut off after n bytes, those that arrived whole are stored.
  lemma {:induction false} ItemsCut(store: Store, kind: int, items: seq<(Data, Data)>, n: nat, m: nat)
    requires forall i | 0 <= i < |items| :: ItemOk(items[i])
    requires m < |items| && |PackItems(items, m)| <= n < |PackItems(items, m + 1)|
    ensures n <= |PackItems(items, |items|)|
    ensures ReadItems(store, kind, PackItems(items, |items|)[..n], |items|) == (InsertAll(store, kind, items, m), None)
    decreases m
  {
    assert ItemOk(items[0]);
    PackedLengthFront(items, |items|);
    PackedLengthFront(items, m + 1);
    if m == 0 {
      CutFirstItem(store, kind, items, n);
    } else {
      PackedLengthFront(items, m);
      var k := n - KEY_LENGTH - 4 - |items[0].1|;
      ItemsCut(Insert(store, kind, items[0].0, items[0].1), kind, items[1..], k, m - 1);
      CutLaterItem(store, kind, items, n, k);
      InsertAllFront(store, kind, items, m);
    }
  }

  lemma CutLaterItem(store: Store, kind: int, items: seq<(Data, Data)>, n: nat, k: nat)
    requires items != [] && ItemOk(items[0]) && k <= |PackItems(items[1..], |items[1..]|)|
    requires n == KEY_LENGTH + 4 + |items[0].1| + k
    ensures n <= |PackItems(items, |items|)|
    ensures ReadItems(store, kind, PackItems(items, |items|)[..n], |items|) ==
            ReadItems(Insert(store, kind, items[0].0, items[0].1), kind, PackItems(items[1..], |items[1..]|)[..k],
                      |items[1..]|)
  {
    var key, value, tail := items[0].0, items[0].1, PackItems(items[1..], |items| - 1);
    var first := key + Le(|value|, 4) + value;
    PackItemsFront(items, |items|);
    PrefixOf(first, tail, n);
    ReadsFirst(store, kind, key, value, tail[..k], |items|);
  }

  lemma CutFirstItem(store: Store, kind: int, items: seq<(Data, Data)>, n: nat)
    requires items != [] && ItemOk(items[0])
    requires n <= |PackItems(items, |items|)| && n < KEY_LENGTH + 4 + |items[0].1|
    ensures ReadItems(store, kind, PackItems(items, |items|)[..n], |items|) == (store, None)
  {
    var s := PackItems(items, |items|);
    PackItemsFront(items, |items|);
    ItemAtFront(items[0].0, items[0].1, PackItems(items[1..], |items| - 1), s);
    if n >= KEY_LENGTH + 4 {
      assert s[..n][KEY_LENGTH..KEY_LENGTH + 4] == s[KEY_LENGTH..KEY_LENGTH + 4];
    }
  }

  // The count of a batch whose body is cut off after it.
  lemma CutCount(count: nat, packed: Data, n: nat)
    requires count <= MAX_BATCH_COUNT && n <= 4 + |packed|
    ensures var s := (Le(count, 4) + packed)[..n];
            if n < 4 then BatchCount(s) == None && AfterCount(s) == []
            else BatchCount(s) == Some(count) && s[4..] == packed[..n - 4]
  {
    if n >= 4 {
      PrefixOf(Le(count, 4), packed, n);
      CountPrefix(count, packed[..n - 4]);
    }
  }

  predicate IsBatch(r: Request) {
    r.BatchPut? || r.BatchGet? || r.BatchExists?
  }

  // A request whose body is cut off after n bytes; m of a batch_put's items arrived whole.
  predicate CutAt(r: Request, n: nat, m: nat) {
    && WellFormed(r) && n < |Body(r)|
    && (r.BatchPut? && n >= 4 ==>
          m < |r.items| && |PackItems(r.items, m)| <= n - 4 < |PackItems(r.items, m + 1)|)
  }

  // A batch without its count is refused; otherwise nothing is answered and nothing stored, except the
  // items of a batch_put that arrived whole.
  ghost predicate CutAnswer(store: Store, r: Request, n: nat, m: nat)
    requires CutAt(r, n, m)
  {
    Dispatch(store, Code(r), r.kind, KeyLen(r), ValLen(r), Body(r)[..n]) ==
    if IsBatch(r) && n < 4 then Refuse(store, [])
    else Cut(if r.BatchPut? then InsertAll(store, r.kind, r.items, m) else store)
  }

  lemma CutSingle(store: Store, r: Request, n: nat, m: nat)
    requires CutAt(r, n, m) && !IsBatch(r)
    ensures CutAnswer(store, r, n, m)
  {
  }

  // A batch_put cut short is refused without its count; after it the whole items are stored.
  lemma CutItems(store: Store, kind: Byte, items: seq<(Data, Data)>, n: nat, m: nat)
    requires |items| <= MAX_BATCH_COUNT && forall i | 0 <= i < |items| :: ItemOk(items[i])
    requires n >= 4 && m < |items| && |PackItems(items, m)| <= n - 4 < |PackItems(items, m + 1)|
    ensures n <= 4 + |PackItems(items, |items|)|
    ensures HandleBatchPut(store, kind, (Le(|items|, 4) + PackItems(items, |items|))[..n]) ==
            Cut(InsertAll(store, kind, items, m))
  {
    ItemsCut(store, kind, items, n - 4, m);
    CutCount(|items|, PackItems(items, |items|), n);
  }

  lemma CutItemsEarly(store: Store, kind: Byte, items: seq<(Data, Data)>, n: nat)
    requires |items| <= MAX_BATCH_COUNT && n < 4
    ensures HandleBatchPut(store, kind, (Le(|items|, 4) + PackItems(items, |items|))[..n]) == Refuse(store, [])
  {
    CutCount(|items|, PackItems(items, |items|), n);
  }

  lemma CutWrites(store: Store, r: Request, n: nat, m: nat)
    requires CutAt(r, n, m) && r.BatchPut?
    ensures CutAnswer(store, r, n, m)
  {
    var s := Body(r)[..n];
    assert s == (Le(|r.items|, 4) + PackItems(r.items, |r.items|))[..n];
    if n < 4 {
      CutItemsEarly(store, r.kind, r.items, n);
      assert HandleBatchPut(store, r.kind, s) == Refuse(store, []);
    } else {
      CutItems(store, r.kind, r.items, n, m);
      assert HandleBatchPut(store, r.kind, s) == Cut(InsertAll(store, r.kind, r.items, m));
    }
  }

  // A key batch cut short is refused without its count and unanswered after it.
  lemma CutKeys(store: Store, kind: Byte, keys: seq<Data>, n: nat)
    requires |keys| <= MAX_BATCH_COUNT && forall i | 0 <= i < |keys| :: KeyOk(keys[i])
    requires n < 4 + |PackKeys(keys, |keys|)|
    ensures var s := (Le(|keys|, 4) + PackKeys(keys, |keys|))[..n];
            && HandleBatchGet(store, kind, s) == (if n < 4 then Refuse(store, []) else Cut(store))
            && HandleBatchExists(store, kind, s) == if n < 4 then Refuse(store, []) else Cut(store)
  {
    KeysDecode(keys, []);
    CutCount(|keys|, PackKeys(keys, |keys|), n);
  }

  lemma CutReads(store: Store, r: Request, n: nat, m: nat)
    requires CutAt(r, n, m) && r.BatchGet?
    ensures CutAnswer(store, r, n, m)
  {
    CutKeys(store, r.kind, r.keys, n);
  }

  lemma CutProbes(store: Store, r: Request, n: nat, m: nat)
    requires CutAt(r, n, m) && r.BatchExists?
    ensures CutAnswer(store, r, n, m)
  {
    CutKeys(store, r.kind, r.keys, n);
  }

  lemma CutExact(store: Store, r: Request, n: nat, m: nat)
    requires CutAt(r, n, m)
    ensures CutAnswer(store, r, n, m)
  {
    if r.BatchPut? {
      CutWrites(store, r, n, m);
    } else if r.BatchGet? {
      CutReads(store, r, n, m);
    } else if r.BatchExists? {
      CutProbes(store, r, n, m);
    } else {
      CutSingle(store, r, n, m);
    }
  }

  // ---- bytes on the wire -------------------------------------------------------------------------------

  lemma LeSmall(v: Byte)
    ensures Le(v, 2) == [v, 0] && Le(v, 4) == [v, 0, 0, 0]
  {
    assert Le(0, 1) == [0] + Le(0, 0) == [0];
    assert Le(0, 3) == [0] + Le(0, 2) == [0, 0] + Le(0, 1);
    assert Le(v, 2) == [v] + Le(0, 1) && Le(v, 4) == [v] + Le(0, 3);
  }

  // The layout in bytes: lengths, every command, and every answer without a payload.
  lemma WireLengths(code: Byte, kind: Byte)
    ensures Header(code, kind, 32, 0x0405_0607) == [code, kind, 0, 0, 32, 0, 7, 6, 5, 4]
  {
    LeSmall(0);
    LeSmall(32);
    assert Le(0x0405_0607, 4) == [7] + Le(0x0405_06, 3) == [7, 6] + Le(0x0405, 2);
    assert Le(0x0405, 2) == [5] + Le(4, 1) == [5, 4];
  }

  lemma WireHeader(code: Byte, kind: Byte, keyLen: Byte, valLen: Byte)
    ensures Header(code, kind, keyLen, valLen) == [code, kind, 0, 0, keyLen, 0, valLen, 0, 0, 0]
  {
    LeSmall(0);
    LeSmall(keyLen);
    LeSmall(valLen);
  }

  lemma WireRequests(kind: Byte, key: Data)
    requires KeyOk(key)
    ensures EncodeRequest(Put(kind, key, [7])) == [0x01, kind, 0, 0, 32, 0, 1, 0, 0, 0] + (key + [7])
    ensures EncodeRequest(Get(kind, key)) == [0x02, kind, 0, 0, 32, 0, 0, 0, 0, 0] + key
    ensures EncodeRequest(Exists(kind, key)) == [0x03, kind, 0, 0, 32, 0, 0, 0, 0, 0] + key
    ensures EncodeRequest(Clear(kind)) == [0x11, kind, 0, 0, 0, 0, 0, 0, 0, 0]
    ensures EncodeRequest(Size(kind)) == [0x12, kind, 0, 0, 0, 0, 0, 0, 0, 0]
  {
    WireHeader(0x01, kind, 32, 1);
    WireHeader(0x02, kind, 32, 0);
    WireHeader(0x03, kind, 32, 0);
    WireHeader(0x11, kind, 0, 0);
    WireHeader(0x12, kind, 0, 0);
  }

  lemma WireBatches(kind: Byte, key: Data)
    requires KeyOk(key)
    ensures EncodeRequest(BatchPut(kind, [(key, [7])])) ==
            [0x04, kind, 0, 0, 32, 0, 0, 0, 0, 0] + ([1, 0, 0, 0] + (key + [1, 0, 0, 0] + [7]))
    ensures EncodeRequest(BatchGet(kind, [key])) == [0x05, kind, 0, 0, 32, 0, 0, 0, 0, 0] + ([1, 0, 0, 0] + key)
    ensures EncodeRequest(BatchExists(kind, [key])) == [0x06, kind, 0, 0, 32, 0, 0, 0, 0, 0] + ([1, 0, 0, 0] + key)
  {
    WireHeader(0x04, kind, 32, 0);
    WireHeader(0x05, kind, 32, 0);
    WireHeader(0x06, kind, 32, 0);
    LeSmall(1);
    assert PackKeys([key], 1) == PackKeys([key], 0) + key == key;
    assert PackItems([(key, [7])], 1) == PackItems([(key, [7])], 0) + key + Le(1, 4) + [7] == key + Le(1, 4) + [7];
  }

  lemma WireAnswers(status: Status)
    ensures EncodeResponse(Response(status, [])) ==
            [if status == Ok then 0 else if status == NotFound then 1 else if status == BadRequest then 2 else 3,
             0, 0, 0, 0]
    ensures PackAnswer(Some([7])) == [1, 1, 0, 0, 0, 7] && PackAnswer(None) == [0, 0, 0, 0, 0]
  {
    LeSmall(0);
    LeSmall(1);
  }

  // A batch of a million is accepted, and no larger one.
  lemma BatchLimit(count: nat, s: Data)
    requires count <= U32_MAX
    ensures BatchCount(Le(count, 4) + s) == if count <= 1000000 then Some(count) else None
  {
    Powers();
    LoadLe(count, 4);
    TakeDrop(Le(count, 4), s);
  }

  // ---- everything else is refused at the header --------------------------------------------------------

  // Some well-formed request has these header fields.
  ghost predicate Acceptable(code: Byte, kind: Byte, keyLen: nat, valLen: nat) {
    exists r: Request ::
      WellFormed(r) && r.kind == kind && Code(r) == code && KeyLen(r) == keyLen && ValLen(r) == valLen
  }

  function Zeros(n: nat): (z: Data)
    ensures |z| == n
  {
    seq(n, i requires 0 <= i < n => 0)
  }

  // A request with a command's code, when the command allows the lengths.
  function Sample(code: Byte, kind: Byte, valLen: nat): Request {
    var key := Zeros(KEY_LENGTH);
    if code == 0x01 then Put(kind, key, Zeros(valLen))
    else if code == 0x02 then Get(kind, key)
    else if code == 0x03 then Exists(kind, key)
    else if code == 0x04 then BatchPut(kind, [])
    else if code == 0x05 then BatchGet(kind, [])
    else if code == 0x06 then BatchExists(kind, [])
    else if code == 0x11 then Clear(kind)
    else Size(kind)
  }

  // A header no well-formed request has is answered with BadRequest, changes nothing, reads nothing more
  // and closes the connection.
  lemma MalformedRefused(store: Store, code: Byte, kind: Byte, keyLen: nat, valLen: nat, s: Data)
    requires valLen <= U32_MAX && !Acceptable(code, kind, keyLen, valLen)
    ensures Dispatch(store, code, kind, keyLen, valLen, s) ==
            Turn(store, s, EncodeResponse(Response(BadRequest, [])), false)
  {
    var r := Sample(code, kind, valLen);
    assert WellFormed(r) && r.kind == kind;
  }
}
