/** The MicroKV protocol: the abstract store, requests and what they mean, and their wire forms. */
module KvProtocol {
  import opened Bytes
  import opened Options

  type Data = seq<Byte>

  const KEY_LENGTH := 32
  const HEADER_LENGTH := 10
  const MAX_BATCH_COUNT := 1000000
  const U32_MAX := 0xFFFF_FFFF

  // cache type -> key -> value
  type Store = map<int, map<Data, Data>>

  datatype Request =
    | Put(kind: Byte, key: Data, value: Data)
    | Get(kind: Byte, key: Data)
    | Exists(kind: Byte, key: Data)
    | BatchPut(kind: Byte, items: seq<(Data, Data)>)
    | BatchGet(kind: Byte, keys: seq<Data>)
    | BatchExists(kind: Byte, keys: seq<Data>)
    | Clear(kind: Byte)
    | Size(kind: Byte)

  datatype Status = Ok | NotFound | BadRequest | InternalError

  datatype Response = Response(status: Status, payload: Data)

  // ---- the store -----------------------------------------------------------------------------------

  function Lookup(store: Store, kind: int, key: Data): Option<Data> {
    if kind in store && key in store[kind] then Some(store[kind][key]) else None
  }

  function Insert(store: Store, kind: int, key: Data, value: Data): (r: Store)
    ensures forall k, x :: Lookup(r, k, x) == if k == kind && x == key then Some(value) else Lookup(store, k, x)
  {
    var inner := if kind in store then store[kind] else map[];
    store[kind := inner[key := value]]
  }

  function InsertAll(store: Store, kind: int, items: seq<(Data, Data)>, n: nat): Store
    requires n <= |items|
  {
    if n == 0 then store else Insert(InsertAll(store, kind, items, n - 1), kind, items[n - 1].0, items[n - 1].1)
  }

  function Erase(store: Store, kind: int): (r: Store)
    ensures forall k, x :: Lookup(r, k, x) == if k == kind then None else Lookup(store, k, x)
  {
    store - {kind}
  }

  function SizeOf(store: Store, kind: int): nat {
    if kind in store then |store[kind]| else 0
  }

  // The keys that have a value of the type.
  ghost predicate KeysOfKind(store: Store, kind: int, keys: set<Data>) {
    forall k :: k in keys <==> Lookup(store, kind, k).Some?
  }

  // The size is the number of keys a lookup finds.
  lemma SizeIsKeyCount(store: Store, kind: int, keys: set<Data>)
    requires KeysOfKind(store, kind, keys)
    ensures SizeOf(store, kind) == |keys|
  {
    if kind in store {
      assert forall k :: k in store[kind].Keys <==> Lookup(store, kind, k).Some?;
      assert keys == store[kind].Keys;
    } else {
      assert keys == {};
    }
  }

  lemma KindKeys(store: Store, kind: int) returns (keys: set<Data>)
    ensures KeysOfKind(store, kind, keys)
  {
    keys := if kind in store then store[kind].Keys else {};
  }

  // A put adds one exactly when the key is new, and changes no other type's size.
  lemma PutSize(store: Store, kind: int, key: Data, value: Data, other: int)
    ensures SizeOf(Insert(store, kind, key, value), kind) ==
            SizeOf(store, kind) + if Lookup(store, kind, key).None? then 1 else 0
    ensures other != kind ==> SizeOf(Insert(store, kind, key, value), other) == SizeOf(store, other)
  {
    var after := Insert(store, kind, key, value);
    var keys := KindKeys(store, kind);
    SizeIsKeyCount(store, kind, keys);
    SizeIsKeyCount(after, kind, keys + {key});
    if key in keys {
      assert keys + {key} == keys;
    }
    if other != kind {
      var others := KindKeys(store, other);
      SizeIsKeyCount(store, other, others);
      SizeIsKeyCount(after, other, others);
    }
  }

  // A clear leaves none of the type, and the other types as they were.
  lemma ClearSize(store: Store, kind: int, other: int)
    ensures SizeOf(Erase(store, kind), kind) == 0
    ensures other != kind ==> SizeOf(Erase(store, kind), other) == SizeOf(store, other)
  {
    SizeIsKeyCount(Erase(store, kind), kind, {});
    if other != kind {
      var others := KindKeys(store, other);
      SizeIsKeyCount(store, other, others);
      SizeIsKeyCount(Erase(store, kind), other, others);
    }
  }

  // Of several items with one key the last is what a lookup finds.
  lemma {:induction false} LastItemWins(store: Store, kind: int, items: seq<(Data, Data)>, n: nat, i: nat)
    requires i < n <= |items| && forall j | i < j < n :: items[j].0 != items[i].0
    ensures Lookup(InsertAll(store, kind, items, n), kind, items[i].0) == Some(items[i].1)
  {
    if i < n - 1 {
      LastItemWins(store, kind, items, n - 1, i);
    }
  }

  // A key that no item has, or one of another type, is as before.
  lemma {:induction false} OtherKeysKept(store: Store, kind: int, items: seq<(Data, Data)>, n: nat, k: int, key: Data)
    requires n <= |items| && (k == kind ==> forall j | 0 <= j < n :: items[j].0 != key)
    ensures Lookup(InsertAll(store, kind, items, n), k, key) == Lookup(store, k, key)
  {
    if n > 0 {
      OtherKeysKept(store, kind, items, n - 1, k, key);
    }
  }

  // ---- wire forms ----------------------------------------------------------------------------------

  function Code(r: Request): Byte {
    match r
    case Put(_, _, _) => 0x01
    case Get(_, _) => 0x02
    case Exists(_, _) => 0x03
    case BatchPut(_, _) => 0x04
    case BatchGet(_, _) => 0x05
    case BatchExists(_, _) => 0x06
    case Clear(_) => 0x11
    case Size(_) => 0x12
  }

  function StatusCode(s: Status): Byte {
    match s
    case Ok => 0
    case NotFound => 1
    case BadRequest => 2
    case InternalError => 3
  }

  // struct.Struct("<BBHHI")
  function Header(code: Byte, kind: Byte, keyLen: nat, valLen: nat): (h: Data)
    ensures |h| == HEADER_LENGTH
  {
    [code, kind] + Le(0, 2) + Le(keyLen, 2) + Le(valLen, 4)
  }

  function PackKeys(keys: seq<Data>, n: nat): Data
    requires n <= |keys|
  {
    if n == 0 then [] else PackKeys(keys, n - 1) + keys[n - 1]
  }

  function PackItems(items: seq<(Data, Data)>, n: nat): Data
    requires n <= |items|
  {
    if n == 0 then []
    else PackItems(items, n - 1) + items[n - 1].0 + Le(|items[n - 1].1|, 4) + items[n - 1].1
  }

  function Body(r: Request): Data {
    match r
    case Put(_, key, value) => key + value
    case Get(_, key) => key
    case Exists(_, key) => key
    case BatchPut(_, items) => Le(|items|, 4) + PackItems(items, |items|)
    case BatchGet(_, keys) => Le(|keys|, 4) + PackKeys(keys, |keys|)
    case BatchExists(_, keys) => Le(|keys|, 4) + PackKeys(keys, |keys|)
    case Clear(_) => []
    case Size(_) => []
  }

  function EncodeRequest(r: Request): Data {
    var keyLen := if r.Clear? || r.Size? then 0 else KEY_LENGTH;
    Header(Code(r), r.kind, keyLen, if r.Put? then |r.value| else 0) + Body(r)
  }

  predicate KeyOk(key: Data) {
    |key| == KEY_LENGTH
  }

  predicate ItemOk(item: (Data, Data)) {
    KeyOk(item.0) && |item.1| <= U32_MAX
  }

  // What the client's validations and its 32-bit fields let through; any other call raises before a
  // byte is sent.
  predicate Admitted(r: Request) {
    match r
    case Put(_, key, value) => KeyOk(key) && |value| <= U32_MAX
    case Get(_, key) => KeyOk(key)
    case Exists(_, key) => KeyOk(key)
    case BatchPut(_, items) => |items| <= U32_MAX && forall i | 0 <= i < |items| :: ItemOk(items[i])
    case BatchGet(_, keys) => |keys| <= U32_MAX && forall i | 0 <= i < |keys| :: KeyOk(keys[i])
    case BatchExists(_, keys) => |keys| <= U32_MAX && forall i | 0 <= i < |keys| :: KeyOk(keys[i])
    case Clear(_) => true
    case Size(_) => true
  }

  // The server's own limit, which the client does not know.
  predicate WithinLimit(r: Request) {
    match r
    case BatchPut(_, items) => |items| <= MAX_BATCH_COUNT
    case BatchGet(_, keys) => |keys| <= MAX_BATCH_COUNT
    case BatchExists(_, keys) => |keys| <= MAX_BATCH_COUNT
    case _ => true
  }

  predicate WellFormed(r: Request) {
    Admitted(r) && WithinLimit(r)
  }

  function EncodeResponse(r: Response): Data {
    [StatusCode(r.status)] + Le(|r.payload|, 4) + r.payload
  }

  // ---- answers -------------------------------------------------------------------------------------

  function Answers(store: Store, kind: int, keys: seq<Data>): (v: seq<Option<Data>>)
    ensures |v| == |keys|
  {
    seq(|keys|, i requires 0 <= i < |keys| => Lookup(store, kind, keys[i]))
  }

  function PackAnswer(o: Option<Data>): Data {
    match o
    case Some(x) => [1] + Le(|x|, 4) + x
    case None => [0] + Le(0, 4)
  }

  function PackAnswers(v: seq<Option<Data>>, n: nat): Data
    requires n <= |v|
  {
    if n == 0 then [] else PackAnswers(v, n - 1) + PackAnswer(v[n - 1])
  }

  function Flag(o: Option<Data>): Byte {
    if o.Some? then 1 else 0
  }

  function PackFlags(v: seq<Option<Data>>): (f: Data)
    ensures |f| == |v|
  {
    seq(|v|, i requires 0 <= i < |v| => Flag(v[i]))
  }

  // The abstract server: the new store and the answer.
  function Serve(store: Store, r: Request): (Store, Response) {
    match r
    case Put(kind, key, value) => (Insert(store, kind, key, value), Response(Ok, []))
    case Get(kind, key) =>
      (match Lookup(store, kind, key)
       case Some(v) => (store, Response(Ok, v))
       case None => (store, Response(NotFound, [])))
    case Exists(kind, key) => (store, Response(Ok, [Flag(Lookup(store, kind, key))]))
    case BatchPut(kind, items) => (InsertAll(store, kind, items, |items|), Response(Ok, []))
    case BatchGet(kind, keys) =>
      (store, Response(Ok, Le(|keys|, 4) + PackAnswers(Answers(store, kind, keys), |keys|)))
    case BatchExists(kind, keys) =>
      (store, Response(Ok, Le(|keys|, 4) + PackFlags(Answers(store, kind, keys))))
    case Clear(kind) => (Erase(store, kind), Response(Ok, []))
    case Size(kind) => (store, Response(Ok, Le(SizeOf(store, kind), 8)))
  }

  // The responses of the abstract server to a sequence of requests. A batch past the limit is refused
  // and ends the conversation; so does the first answer too long for the wire, which is not sent.
  function Conversation(store: Store, requests: seq<Request>): (Store, seq<Response>)
    decreases |requests|
  {
    if requests == [] then (store, [])
    else if !WithinLimit(requests[0]) then (store, [Response(BadRequest, [])])
    else
      var (next, response) := Serve(store, requests[0]);
      if |response.payload| > U32_MAX then (next, [])
      else
        var (last, responses) := Conversation(next, requests[1..]);
        (last, [response] + responses)
  }

  function EncodeRequests(requests: seq<Request>): Data {
    if requests == [] then [] else EncodeRequest(requests[0]) + EncodeRequests(requests[1..])
  }

  function EncodeResponses(responses: seq<Response>): Data {
    if responses == [] then [] else EncodeResponse(responses[0]) + EncodeResponses(responses[1..])
  }

  // ---- only batch_get has answers that do not fit -----------------------------------------------------

  predicate SmallValues(store: Store) {
    forall kind, key | kind in store && key in store[kind] :: |store[kind][key]| <= U32_MAX
  }

  lemma {:induction false} InsertAllSmall(store: Store, kind: int, items: seq<(Data, Data)>, n: nat)
    requires SmallValues(store) && n <= |items|
    requires forall i | 0 <= i < |items| :: ItemOk(items[i])
    ensures SmallValues(InsertAll(store, kind, items, n))
  {
    if n > 0 {
      InsertAllSmall(store, kind, items, n - 1);
      assert ItemOk(items[n - 1]);
    }
  }

  // A store filled by admitted calls holds no value too long for an answer of its own.
  lemma OnlyBatchGetOverflows(store: Store, r: Request)
    requires SmallValues(store) && Admitted(r)
    ensures SmallValues(Serve(store, r).0)
    ensures !r.BatchGet? && WithinLimit(r) ==> |Serve(store, r).1.payload| <= U32_MAX
  {
    if r.BatchPut? {
      InsertAllSmall(store, r.kind, r.items, |r.items|);
    }
  }

  // ---- the length of a batch_get answer ----------------------------------------------------------------

  function AnswerLength(o: Option<Data>): nat {
    5 + if o.Some? then |o.value| else 0
  }

  function AnswersLength(v: seq<Option<Data>>, n: nat): nat
    requires n <= |v|
  {
    if n == 0 then 0 else AnswersLength(v, n - 1) + AnswerLength(v[n - 1])
  }

  lemma {:induction false} PackedLength(v: seq<Option<Data>>, n: nat)
    requires n <= |v|
    ensures |PackAnswers(v, n)| == AnswersLength(v, n)
  {
    if n > 0 {
      PackedLength(v, n - 1);
      OneLength(v[n - 1]);
    }
  }

  lemma OneLength(o: Option<Data>)
    ensures |PackAnswer(o)| == AnswerLength(o)
  {
    match o
    case Some(x) => assert |[1] + Le(|x|, 4) + x| == 1 + 4 + |x|;
    case None =>
  }

  lemma {:induction false} PackedHolds(v: seq<Option<Data>>, n: nat, i: nat)
    requires i < n <= |v|
    ensures AnswerLength(v[i]) <= AnswersLength(v, n)
  {
    if i < n - 1 {
      PackedHolds(v, n - 1, i);
    }
  }

  lemma {:induction false} SameAnswersLength(v: seq<Option<Data>>, n: nat, o: Option<Data>)
    requires n <= |v| && forall i | 0 <= i < n :: v[i] == o
    ensures AnswersLength(v, n) == n * AnswerLength(o)
  {
    if n > 0 {
      SameAnswersLength(v, n - 1, o);
    }
  }
}
