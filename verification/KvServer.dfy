/** The MicroKV server on a connection that hands over its bytes in arbitrary chunks. */
module KvServer {
  import opened Bytes
  import opened KvProtocol
  import opened KvSession
  import opened Options

  // A connected socket: the bytes that will still be delivered before the peer closes or receiving
  // fails, the bytes sent so far, and whether sending has failed. A call may be interrupted by a signal,
  // finitely often.
  class Connection {
    var input: Data
    var output: Data
    var broken: bool
    var interruptions: nat

    constructor (input: Data, interruptions: nat)
      ensures this.input == input && output == [] && !broken && this.interruptions == interruptions
    {
      this.input, output, broken, this.interruptions := input, [], false, interruptions;
    }

    // recv: some of the bytes, never more than asked for; zero or an error only when no more will come.
    method Recv(most: nat) returns (n: int, chunk: Data, interrupted: bool)
      requires most > 0
      modifies this`input, this`interruptions
      ensures n == |chunk| <= most || (n < 0 && chunk == [])
      ensures chunk + input == old(input) && interruptions <= old(interruptions)
      ensures n < 0 && interrupted ==> interruptions < old(interruptions)
      ensures n == 0 || (n < 0 && !interrupted) ==> input == []
    {
      chunk, interrupted := [], *;
      if interrupted && interruptions > 0 {
        interruptions := interruptions - 1;
        return -1, [], true;
      }
      interrupted := false;
      if input == [] {
        n :| n == 0 || n == -1;
        return;
      }
      n :| 1 <= n <= most && n <= |input|;
      chunk := input[..n];
      input := input[n..];
    }

    // send: some of the bytes, at least one, or an error.
    method Send(data: Data) returns (n: int, interrupted: bool)
      requires data != []
      modifies this`output, this`broken, this`interruptions
      ensures n != 0 && n <= |data| && output == old(output) + data[..if n > 0 then n else 0]
      ensures interruptions <= old(interruptions)
      ensures n < 0 && interrupted ==> interruptions < old(interruptions)
      ensures broken <==> old(broken) || (n < 0 && !interrupted)
      ensures old(broken) ==> n < 0
    {
      var fails: bool := *;
      interrupted := *;
      if interrupted && interruptions > 0 {
        interruptions := interruptions - 1;
        return -1, true;
      }
      if broken || fails {
        broken := true;
        return -1, false;
      }
      n :| 1 <= n <= |data|;
      output := output + data[..n];
    }
  }

  // However the bytes are split and the calls interrupted, exactly len of them are read, or the stream
  // is used up.
  method ReadExact(conn: Connection, len: nat) returns (ok: bool, data: Data)
    modifies conn`input, conn`interruptions
    ensures ok <==> |old(conn.input)| >= len
    ensures ok ==> data == old(conn.input)[..len] && conn.input == old(conn.input)[len..]
    ensures !ok ==> conn.input == []
  {
    ghost var s := conn.input;
    data := [];
    while |data| < len
      invariant |data| <= len && data + conn.input == s
      decreases len - |data|, conn.interruptions
    {
      var n, chunk, interrupted := conn.Recv(len - |data|);
      if n == 0 {
        return false, data;
      }
      if n < 0 {
        if interrupted {
          continue;
        }
        return false, data;
      }
      data := data + chunk;
    }
    ok := true;
    TakeDrop(data, conn.input);
  }

  // What a write leaves behind: all of the data, or, when sending fails, some of it.
  ghost predicate Wrote(data: Data, before: Data, sent: Data, broken: bool) {
    if broken then before <= sent <= before + data else sent == before + data
  }

  method WriteAll(conn: Connection, data: Data) returns (ok: bool)
    modifies conn`output, conn`broken, conn`interruptions
    ensures old(conn.broken) ==> conn.broken && conn.output == old(conn.output)
    ensures data != [] ==> (ok <==> !conn.broken)
    ensures data == [] ==> ok && conn.broken == old(conn.broken)
    ensures Wrote(data, old(conn.output), conn.output, conn.broken)
  {
    var cursor := 0;
    while cursor < |data|
      invariant cursor <= |data| && conn.output == old(conn.output) + data[..cursor]
      invariant conn.broken == old(conn.broken) && (conn.broken ==> cursor == 0)
      decreases |data| - cursor, conn.interruptions
    {
      var n, interrupted := conn.Send(data[cursor..]);
      if n < 0 {
        assert data[cursor..][..0] == [] && conn.output == old(conn.output) + data[..cursor];
        if interrupted {
          continue;
        }
        assert old(conn.output) + data == conn.output + data[cursor..];
        return false;
      }
      assert data[..cursor + n] == data[..cursor] + data[cursor..][..n];
      cursor := cursor + n;
    }
    assert data[..cursor] == data;
    ok := true;
  }

  method ReadU32(conn: Connection) returns (ok: bool, value: nat)
    modifies conn`input, conn`interruptions
    ensures ok <==> |old(conn.input)| >= 4
    ensures ok ==> value == Load(old(conn.input)[..4]) && conn.input == old(conn.input)[4..]
    ensures !ok ==> conn.input == []
  {
    var buf;
    ok, buf := ReadExact(conn, 4);
    value := if ok then LoadLe32(buf) else 0;
  }

  class KVStore {
    var stores: Store

    constructor ()
      ensures stores == map[]
    {
      stores := map[];
    }

    method Put(kind: Byte, key: Data, value: Data)
      modifies this
      ensures stores == Insert(old(stores), kind, key, value)
    {
      var inner := if kind in stores then stores[kind] else map[];
      stores := stores[kind := inner[key := value]];
    }

    method Get(kind: Byte, key: Data) returns (value: Option<Data>)
      ensures value == Lookup(stores, kind, key)
    {
      if kind !in stores {
        return None;
      }
      if key !in stores[kind] {
        return None;
      }
      value := Some(stores[kind][key]);
    }

    method Exists(kind: Byte, key: Data) returns (found: bool)
      ensures found <==> Lookup(stores, kind, key).Some?
    {
      found := kind in stores && key in stores[kind];
    }

    method Clear(kind: Byte)
      modifies this
      ensures stores == Erase(old(stores), kind)
    {
      stores := stores - {kind};
    }

    method Size(kind: Byte) returns (size: nat)
      ensures size == SizeOf(stores, kind)
      ensures forall keys :: KeysOfKind(stores, kind, keys) ==> size == |keys|
    {
      forall keys | KeysOfKind(stores, kind, keys)
        ensures SizeOf(stores, kind) == |keys|
      {
        SizeIsKeyCount(stores, kind, keys);
      }
      size := if kind in stores then |stores[kind]| else 0;
    }
  }

  // A response whose length does not fit 32 bits is not sent at all.
  method SendResponse(conn: Connection, status: Status, payload: Data) returns (sent: bool)
    modifies conn`output, conn`broken, conn`interruptions
    ensures sent <==> |payload| <= U32_MAX && !conn.broken
    ensures |payload| > U32_MAX ==> conn.output == old(conn.output) && conn.broken == old(conn.broken)
    ensures |payload| <= U32_MAX ==>
              Wrote(EncodeResponse(Response(status, payload)), old(conn.output), conn.output, conn.broken)
    ensures old(conn.broken) ==> conn.broken && conn.output == old(conn.output)
  {
    if |payload| > U32_MAX {
      return false;
    }
    sent := WriteParts(conn, ResponseHeader(status, |payload|), payload);
  }

  function ResponseHeader(status: Status, len: nat): (h: Data)
    ensures h != []
  {
    [StatusCode(status)] + Le(len, 4)
  }

  method WriteParts(conn: Connection, header: Data, payload: Data) returns (ok: bool)
    requires header != []
    modifies conn`output, conn`broken, conn`interruptions
    ensures ok <==> !conn.broken
    ensures Wrote(header + payload, old(conn.output), conn.output, conn.broken)
    ensures old(conn.broken) ==> conn.broken && conn.output == old(conn.output)
  {
    ok := WriteAll(conn, header);
    Associative(old(conn.output), header, payload);
    if ok && payload != [] {
      ok := WriteAll(conn, payload);
    }
  }

  // What a handler leaves behind is a turn; when sending fails, the answer is cut short and the
  // connection closed.
  ghost predicate Took(t: Turn, store: Store, rest: Data, sent: Data, before: Data, open: bool, broken: bool) {
    && t.store == store && t.rest == rest && Wrote(t.out, before, sent, broken)
    && (open <==> t.open && !broken)
  }

  class Server {
    const store: KVStore

    constructor ()
      ensures fresh(store) && store.stores == map[]
    {
      store := new KVStore();
    }

    method Refused(conn: Connection)
      modifies conn`output, conn`broken, conn`interruptions
      ensures Wrote(EncodeResponse(Response(BadRequest, [])), old(conn.output), conn.output, conn.broken)
      ensures old(conn.broken) ==> conn.broken && conn.output == old(conn.output)
    {
      var _ := SendResponse(conn, BadRequest, []);
    }

    method Put(conn: Connection, kind: Byte, valLen: nat) returns (open: bool)
      requires (conn as object) != store
      modifies conn, store
      ensures Took(HandlePut(old(store.stores), kind, valLen, old(conn.input)),
                   store.stores, conn.input, conn.output, old(conn.output), open, conn.broken)
    {
      ghost var s := conn.input;
      var gotKey, key := ReadExact(conn, KEY_LENGTH);
      if !gotKey {
        return false;
      }
      var gotValue, value := ReadExact(conn, valLen);
      if !gotValue {
        return false;
      }
      assert value == s[KEY_LENGTH..KEY_LENGTH + valLen] && conn.input == s[KEY_LENGTH + valLen..];
      store.Put(kind, key, value);
      open := SendResponse(conn, Ok, []);
    }

    method Get(conn: Connection, kind: Byte) returns (open: bool)
      requires (conn as object) != store
      modifies conn
      ensures Took(HandleGet(store.stores, kind, old(conn.input)),
                   store.stores, conn.input, conn.output, old(conn.output), open, conn.broken)
    {
      var gotKey, key := ReadExact(conn, KEY_LENGTH);
      if !gotKey {
        return false;
      }
      var value := store.Get(kind, key);
      if value.None? {
        open := SendResponse(conn, NotFound, []);
      } else {
        open := SendResponse(conn, Ok, value.value);
      }
    }

    method Exists(conn: Connection, kind: Byte) returns (open: bool)
      requires (conn as object) != store
      modifies conn
      ensures Took(HandleExists(store.stores, kind, old(conn.input)),
                   store.stores, conn.input, conn.output, old(conn.output), open, conn.broken)
    {
      var gotKey, key := ReadExact(conn, KEY_LENGTH);
      if !gotKey {
        return false;
      }
      var found := store.Exists(kind, key);
      open := SendResponse(conn, Ok, [if found then 1 else 0]);
    }

    method BatchPut(conn: Connection, kind: Byte) returns (open: bool)
      requires (conn as object) != store
      modifies conn, store
      ensures Took(HandleBatchPut(old(store.stores), kind, old(conn.input)),
                   store.stores, conn.input, conn.output, old(conn.output), open, conn.broken)
    {
      var gotCount, count := ReadU32(conn);
      if !gotCount || count > MAX_BATCH_COUNT {
        Refused(conn);
        return false;
      }
      ghost var st, s := store.stores, conn.input;
      for i := 0 to count
        invariant conn.output == old(conn.output) && conn.broken == old(conn.broken)
        invariant ReadItems(st, kind, s, count) == ReadItems(store.stores, kind, conn.input, count - i)
      {
        var stored := PutItem(conn, kind, count - i);
        if !stored {
          return false;
        }
      }
      open := SendResponse(conn, Ok, []);
    }

    // One item of a batch_put.
    method PutItem(conn: Connection, kind: Byte, ghost left: nat) returns (stored: bool)
      requires (conn as object) != store && left > 0
      modifies conn`input, conn`interruptions, store
      ensures stored ==> ReadItems(old(store.stores), kind, old(conn.input), left) ==
                         ReadItems(store.stores, kind, conn.input, left - 1)
      ensures !stored ==> conn.input == [] &&
                          ReadItems(old(store.stores), kind, old(conn.input), left) == (store.stores, None)
    {
      ghost var s := conn.input;
      var gotKey, key := ReadExact(conn, KEY_LENGTH);
      if !gotKey {
        return false;
      }
      var gotLen, len := ReadU32(conn);
      if !gotLen {
        return false;
      }
      assert len == Load(s[KEY_LENGTH..KEY_LENGTH + 4]) by {
        assert s[KEY_LENGTH..][..4] == s[KEY_LENGTH..KEY_LENGTH + 4];
      }
      assert conn.input == s[KEY_LENGTH + 4..];
      var gotValue, value := ReadExact(conn, len);
      if !gotValue {
        return false;
      }
      assert value == s[KEY_LENGTH + 4..KEY_LENGTH + 4 + len] && conn.input == s[KEY_LENGTH + 4 + len..];
      store.Put(kind, key, value);
      stored := true;
    }

    method BatchGet(conn: Connection, kind: Byte) returns (open: bool)
      requires (conn as object) != store
      modifies conn
      ensures Took(HandleBatchGet(store.stores, kind, old(conn.input)),
                   store.stores, conn.input, conn.output, old(conn.output), open, conn.broken)
    {
      var gotCount, count := ReadU32(conn);
      if !gotCount || count > MAX_BATCH_COUNT {
        Refused(conn);
        return false;
      }
      ghost var s := conn.input;
      var payload := Le(count, 4);
      ghost var values: seq<Option<Data>> := [];
      for i := 0 to count
        invariant conn.output == old(conn.output) && conn.broken == old(conn.broken) && AtKey(s, conn.input, i)
        invariant AnswersSoFar(store.stores, kind, s, values, i)
        invariant payload == Le(count, 4) + PackAnswers(values, i)
      {
        var got;
        got, payload, values := GetItem(conn, kind, payload, s, i, count, values);
        if !got {
          return false;
        }
      }
      AllAnswered(store.stores, kind, s, values, count);
      open := SendResponse(conn, Ok, payload);
    }

    // One key of a batch_get and its answer.
    method GetItem(conn: Connection, kind: Byte, soFar: Data, ghost s: Data, ghost i: nat, ghost count: nat,
                   ghost values: seq<Option<Data>>)
      returns (got: bool, payload: Data, ghost more: seq<Option<Data>>)
      requires (conn as object) != store && i < count && AtKey(s, conn.input, i)
      requires AnswersSoFar(store.stores, kind, s, values, i) && soFar == Le(count, 4) + PackAnswers(values, i)
      modifies conn`input, conn`interruptions
      ensures got ==> AtKey(s, conn.input, i + 1) && AnswersSoFar(store.stores, kind, s, more, i + 1)
      ensures got ==> payload == Le(count, 4) + PackAnswers(more, i + 1)
      ensures !got ==> |s| < count * KEY_LENGTH && conn.input == []
    {
      payload, more := soFar, values;
      var key;
      got, key := ReadExact(conn, KEY_LENGTH);
      if got {
        NextKey(s, i, count);
        var value := store.Get(kind, key);
        AnswerNext(Le(count, 4), values, value);
        AnswerAdded(store.stores, kind, s, values, i, value);
        payload := AppendAnswer(payload, value);
        more := values + [value];
      }
    }

    method BatchExists(conn: Connection, kind: Byte) returns (open: bool)
      requires (conn as object) != store
      modifies conn
      ensures Took(HandleBatchExists(store.stores, kind, old(conn.input)),
                   store.stores, conn.input, conn.output, old(conn.output), open, conn.broken)
    {
      var gotCount, count := ReadU32(conn);
      if !gotCount || count > MAX_BATCH_COUNT {
        Refused(conn);
        return false;
      }
      ghost var s := conn.input;
      var payload := Le(count, 4);
      ghost var values: seq<Option<Data>> := [];
      for i := 0 to count
        invariant conn.output == old(conn.output) && conn.broken == old(conn.broken) && AtKey(s, conn.input, i)
        invariant AnswersSoFar(store.stores, kind, s, values, i)
        invariant payload == Le(count, 4) + PackFlags(values)
      {
        var gotKey, key := ReadExact(conn, KEY_LENGTH);
        if !gotKey {
          return false;
        }
        NextKey(s, i, count);
        var found := store.Exists(kind, key);
        payload := payload + [if found then 1 else 0];
        AnswerAdded(store.stores, kind, s, values, i, Lookup(store.stores, kind, key));
        values := values + [Lookup(store.stores, kind, key)];
      }
      AllAnswered(store.stores, kind, s, values, count);
      open := SendResponse(conn, Ok, payload);
    }

    // HandleRequest.
    method HandleRequest(conn: Connection, header: Data) returns (open: bool)
      requires (conn as object) != store && |header| == HEADER_LENGTH
      modifies conn, store
      ensures Took(Handle(old(store.stores), header, old(conn.input)),
                   store.stores, conn.input, conn.output, old(conn.output), open, conn.broken)
    {
      var code, kind := header[0], header[1];
      var keyLen, valLen := LoadLe16(header[4..6]), LoadLe32(header[6..10]);
      var needsKey := code in {0x01, 0x02, 0x03, 0x04, 0x05, 0x06};
      if !needsKey && code !in {0x11, 0x12} {
        Refused(conn);
        return false;
      }
      if keyLen != (if needsKey then KEY_LENGTH else 0) || (code != 0x01 && valLen != 0) {
        Refused(conn);
        return false;
      }
      open := Answer(conn, code, kind, valLen);
    }

    // The branch of an accepted command.
    method Answer(conn: Connection, code: Byte, kind: Byte, valLen: nat) returns (open: bool)
      requires (conn as object) != store && code in {0x01, 0x02, 0x03, 0x04, 0x05, 0x06, 0x11, 0x12}
      requires code != 0x01 ==> valLen == 0
      modifies conn, store
      ensures Took(Dispatch(old(store.stores), code, kind, if code < 0x11 then KEY_LENGTH else 0, valLen,
                            old(conn.input)),
                   store.stores, conn.input, conn.output, old(conn.output), open, conn.broken)
    {
      if code == 0x01 {
        open := Put(conn, kind, valLen);
      } else if code == 0x02 {
        open := Get(conn, kind);
      } else if code == 0x03 {
        open := Exists(conn, kind);
      } else if code == 0x04 {
        open := BatchPut(conn, kind);
      } else if code == 0x05 {
        open := BatchGet(conn, kind);
      } else if code == 0x06 {
        open := BatchExists(conn, kind);
      } else if code == 0x11 {
        store.Clear(kind);
        open := SendResponse(conn, Ok, []);
      } else {
        var size := store.Size(kind);
        var payload := StoreLe64(size);
        open := SendResponse(conn, Ok, payload);
      }
    }

    // The loop body of HandleClient: nothing happens at the end of the stream.
    method ServeOne(conn: Connection) returns (gotHeader: bool, open: bool)
      requires (conn as object) != store
      modifies conn, store
      ensures gotHeader <==> |old(conn.input)| >= HEADER_LENGTH
      ensures !gotHeader ==> store.stores == old(store.stores) && conn.output == old(conn.output)
                             && conn.broken == old(conn.broken)
      ensures gotHeader ==> Took(FirstTurn(old(store.stores), old(conn.input)),
                                 store.stores, conn.input, conn.output, old(conn.output), open, conn.broken)
    {
      var header;
      gotHeader, header := ReadExact(conn, HEADER_LENGTH);
      if !gotHeader {
        return false, false;
      }
      open := HandleRequest(conn, header);
    }

    // HandleClient: the whole session, however its bytes arrive; when sending fails, the requests up to
    // the one whose answer was cut short are served, and nothing after them is read.
    method HandleClient(conn: Connection) returns (clean: bool, ghost turns: nat)
      requires (conn as object) != store && !conn.broken
      modifies conn, store
      ensures !conn.broken ==> store.stores == Session(old(store.stores), old(conn.input)).0
                               && conn.output == old(conn.output) + Session(old(store.stores), old(conn.input)).1
      ensures conn.broken ==> !clean && turns > 0
                              && CutShort(old(store.stores), old(conn.input), old(conn.output), turns,
                                          store.stores, conn.output)
    {
      ghost var st0, s0, before := store.stores, conn.input, conn.output;
      ghost var goal := Session(st0, s0);
      turns := 0;
      while true
        invariant !conn.broken && Remaining(goal, before, store.stores, conn.input, conn.output)
        invariant Served(st0, s0, before, turns, store.stores, conn.input, conn.output)
        decreases |conn.input|
      {
        ghost var st, s, sent := store.stores, conn.input, conn.output;
        var gotHeader, open := ServeOne(conn);
        RemainingStep(goal, before, st, s, sent);
        if !gotHeader {
          return true, turns;
        }
        ServedStep(st0, s0, before, turns, st, s, sent);
        turns := turns + 1;
        if !open {
          return false, turns;
        }
      }
    }
  }

  ghost function FirstTurn(store: Store, s: Data): Turn
    requires |s| >= HEADER_LENGTH
  {
    Handle(store, s[..HEADER_LENGTH], s[HEADER_LENGTH..])
  }

  // What was sent so far, followed by the session still to come, is the whole session.
  ghost predicate Remaining(goal: (Store, Data), before: Data, store: Store, input: Data, output: Data) {
    goal.0 == Session(store, input).0 && before + goal.1 == output + Session(store, input).1
  }

  lemma RemainingStep(goal: (Store, Data), before: Data, store: Store, s: Data, output: Data)
    requires Remaining(goal, before, store, s, output)
    ensures |s| < HEADER_LENGTH ==> goal.0 == store && before + goal.1 == output
    ensures |s| >= HEADER_LENGTH ==>
              var t := FirstTurn(store, s);
              && |t.rest| < |s|
              && (t.open ==> Remaining(goal, before, t.store, t.rest, output + t.out))
              && (!t.open ==> goal.0 == t.store && before + goal.1 == output + t.out)
  {
    if |s| < HEADER_LENGTH {
      assert output + [] == output;
    } else {
      var t := FirstTurn(store, s);
      OneTurn(store, s, t);
      if t.open {
        Associative(output, t.out, Session(t.store, t.rest).1);
      }
    }
  }

  lemma OneTurn(store: Store, s: Data, t: Turn)
    requires |s| >= HEADER_LENGTH && t == FirstTurn(store, s)
    ensures t.open ==> Session(store, s) == (Session(t.store, t.rest).0, t.out + Session(t.store, t.rest).1)
    ensures !t.open ==> Session(store, s) == (t.store, t.out)
  {
  }

  // The first n requests of a session: the store after them and all their answers.
  ghost function Turns(store: Store, s: Data, n: nat): (Store, Data)
    decreases n
  {
    if n == 0 || |s| < HEADER_LENGTH then (store, [])
    else
      var t := FirstTurn(store, s);
      if !t.open then (t.store, t.out)
      else
        var (after, out) := Turns(t.store, t.rest, n - 1);
        (after, t.out + out)
  }

  // The answers to the first requests are the beginning of what the whole session sends.
  lemma {:induction false} TurnsPrefix(store: Store, s: Data, n: nat)
    ensures Turns(store, s, n).1 <= Session(store, s).1
    decreases n
  {
    if n > 0 && |s| >= HEADER_LENGTH {
      var t := FirstTurn(store, s);
      OneTurn(store, s, t);
      if t.open {
        TurnsPrefix(t.store, t.rest, n - 1);
        PrefixAfter(t.out, Turns(t.store, t.rest, n - 1).1, Session(t.store, t.rest).1);
      }
    }
  }

  lemma PrefixAfter(front: Data, a: Data, b: Data)
    requires a <= b
    ensures front + a <= front + b
  {
  }

  // n requests are applied and the answers to all but the last of them are sent; of the last, a part.
  ghost predicate CutShort(store: Store, s: Data, before: Data, n: nat, after: Store, output: Data)
    requires n > 0
  {
    && after == Turns(store, s, n).0
    && before + Turns(store, s, n - 1).1 <= output <= before + Turns(store, s, n).1
  }

  // The next m requests are those after the first n of the session.
  ghost predicate Follows(store: Store, s: Data, before: Data, n: nat, now: Store, input: Data, output: Data, m: nat) {
    && Turns(store, s, n + m).0 == Turns(now, input, m).0
    && before + Turns(store, s, n + m).1 == output + Turns(now, input, m).1
  }

  // After n requests the session goes on from here.
  ghost predicate Served(store: Store, s: Data, before: Data, n: nat, now: Store, input: Data, output: Data) {
    forall m: nat :: Follows(store, s, before, n, now, input, output, m)
  }

  lemma ServedStep(store: Store, s: Data, before: Data, n: nat, now: Store, input: Data, output: Data)
    requires Served(store, s, before, n, now, input, output) && |input| >= HEADER_LENGTH
    ensures var t := FirstTurn(now, input);
            && (t.open ==> Served(store, s, before, n + 1, t.store, t.rest, output + t.out))
            && t.store == Turns(store, s, n + 1).0 && before + Turns(store, s, n).1 == output
            && before + Turns(store, s, n + 1).1 == output + t.out
  {
    var t := FirstTurn(now, input);
    if t.open {
      var next, later, rest, sent := n + 1, t.store, t.rest, output + t.out;
      forall m: nat
        ensures Follows(store, s, before, next, later, rest, sent, m)
      {
        assert Follows(store, s, before, n, now, input, output, m + 1);
        FollowsStep(store, s, before, n, now, input, output, m);
      }
    }
    assert Follows(store, s, before, n, now, input, output, 0);
    assert Follows(store, s, before, n, now, input, output, 1);
    assert output + [] == output;
    OnlyTurn(now, input);
  }

  lemma FollowsStep(store: Store, s: Data, before: Data, n: nat, now: Store, input: Data, output: Data, m: nat)
    requires |input| >= HEADER_LENGTH && FirstTurn(now, input).open
    requires Follows(store, s, before, n, now, input, output, m + 1)
    ensures var t := FirstTurn(now, input);
            Follows(store, s, before, n + 1, t.store, t.rest, output + t.out, m)
  {
    var t := FirstTurn(now, input);
    assert n + 1 + m == n + (m + 1);
    Associative(output, t.out, Turns(t.store, t.rest, m).1);
  }

  lemma OnlyTurn(store: Store, s: Data)
    requires |s| >= HEADER_LENGTH
    ensures Turns(store, s, 1) == (FirstTurn(store, s).store, FirstTurn(store, s).out)
  {
    var t := FirstTurn(store, s);
    if t.open {
      assert Turns(t.store, t.rest, 0) == (t.store, []);
      assert t.out + [] == t.out;
    }
  }

  // The connection is at the i-th key of the batch body s.
  ghost predicate AtKey(s: Data, input: Data, i: nat) {
    |s| >= i * KEY_LENGTH && input == s[i * KEY_LENGTH..]
  }

  ghost predicate AnswersSoFar(store: Store, kind: int, s: Data, values: seq<Option<Data>>, i: nat)
  {
    && |values| == i && |s| >= i * KEY_LENGTH
    && forall j | 0 <= j < i :: values[j] == Lookup(store, kind, s[j * KEY_LENGTH..j * KEY_LENGTH + KEY_LENGTH])
  }

  lemma NextKey(s: Data, i: nat, count: nat)
    requires i < count && |s| >= i * KEY_LENGTH && |s[i * KEY_LENGTH..]| >= KEY_LENGTH
    ensures s[i * KEY_LENGTH..][..KEY_LENGTH] == s[i * KEY_LENGTH..i * KEY_LENGTH + KEY_LENGTH]
    ensures s[i * KEY_LENGTH..][KEY_LENGTH..] == s[(i + 1) * KEY_LENGTH..]
  {
  }

  lemma AnswerAdded(store: Store, kind: int, s: Data, values: seq<Option<Data>>, i: nat, value: Option<Data>)
    requires AnswersSoFar(store, kind, s, values, i) && |s| >= (i + 1) * KEY_LENGTH
    requires value == Lookup(store, kind, s[i * KEY_LENGTH..i * KEY_LENGTH + KEY_LENGTH])
    ensures AnswersSoFar(store, kind, s, values + [value], i + 1)
  {
  }

  lemma {:induction false} PackAnswersPrefix(v: seq<Option<Data>>, x: Option<Data>, n: nat)
    requires n <= |v|
    ensures PackAnswers(v + [x], n) == PackAnswers(v, n)
  {
    if n > 0 {
      PackAnswersPrefix(v, x, n - 1);
    }
  }

  lemma AnswerNext(front: Data, v: seq<Option<Data>>, x: Option<Data>)
    ensures front + PackAnswers(v + [x], |v| + 1) == front + PackAnswers(v, |v|) + PackAnswer(x)
  {
    PackAnswersPrefix(v, x, |v|);
    Associative(front, PackAnswers(v, |v|), PackAnswer(x));
  }

  lemma Associative(a: Data, b: Data, c: Data)
    ensures a + (b + c) == a + b + c
  {
  }

  // The flag byte, the length and the value.
  method AppendAnswer(payload: Data, value: Option<Data>) returns (r: Data)
    ensures r == payload + PackAnswer(value)
  {
    if value.Some? {
      r := payload + [1] + Le(|value.value|, 4) + value.value;
      assert r == payload + ([1] + Le(|value.value|, 4) + value.value);
    } else {
      r := payload + [0] + Le(0, 4);
      assert r == payload + ([0] + Le(0, 4));
    }
  }

  lemma {:induction false} KeyAt(s: Data, n: nat, j: nat)
    requires j < n && |s| >= n * KEY_LENGTH
    ensures KeysOf(s, n)[j] == s[j * KEY_LENGTH..j * KEY_LENGTH + KEY_LENGTH]
    decreases n
  {
    if j > 0 {
      KeyAt(s[KEY_LENGTH..], n - 1, j - 1);
    }
  }

  lemma AllAnswered(store: Store, kind: int, s: Data, values: seq<Option<Data>>, n: nat)
    requires AnswersSoFar(store, kind, s, values, n)
    ensures values == Answers(store, kind, KeysOf(s, n))
  {
    forall j | 0 <= j < n
      ensures values[j] == Lookup(store, kind, KeysOf(s, n)[j])
    {
      KeyAt(s, n, j);
    }
  }
}
