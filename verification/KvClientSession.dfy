/** The client's calls, and what a whole conversation tells the caller about the abstract store. */
module KvClientSession {
  import opened Bytes
  import opened KvProtocol
  import opened KvSession
  import opened Options
  import opened KvServer
  import opened KvClient

  // What a call returns; Failed is any exception.
  datatype Outcome =
    | Acknowledged(ok: bool) | Found(value: Option<Data>) | Contained(flag: bool) | Values(values: seq<Option<Data>>)
    | Flags(flags: seq<bool>) | Done | Count(n: nat) | Failed

  // The client's reading of a response to each kind of request.
  function ReadOutcome(r: Request, status: Byte, payload: Data): Outcome {
    match r
    case Put(_, _, _) => Acknowledged(status == 0)
    case Get(_, _) => if status == 1 then Found(None) else if status != 0 then Failed else Found(Some(payload))
    case Exists(_, _) => if status != 0 || |payload| != 1 then Failed else Contained(payload[0] != 0)
    case BatchPut(_, _) => Acknowledged(status == 0)
    case BatchGet(_, _) =>
      if status != 0 then Failed
      else (match ParseBatchGet(payload) case Parsed(v) => Values(v) case ProtocolError => Failed)
    case BatchExists(_, _) =>
      if status != 0 then Failed
      else (match ParseBatchExists(payload) case Parsed(f) => Flags(f) case ProtocolError => Failed)
    case Clear(_) => if status != 0 then Failed else Done
    case Size(_) => if status != 0 || |payload| != 8 then Failed else Count(Load(payload))
  }

  // The status and payload that give an outcome; whatever gives none of these is a failure.
  ghost predicate Gives(r: Request, status: Byte, payload: Data, o: Outcome) {
    match o
    case Acknowledged(ok) => (r.Put? || r.BatchPut?) && (ok <==> status == 0)
    case Found(None) => r.Get? && status == 1
    case Found(Some(value)) => r.Get? && status == 0 && payload == value
    case Contained(flag) => r.Exists? && status == 0 && |payload| == 1 && (flag <==> payload[0] != 0)
    case Values(values) => r.BatchGet? && status == 0 && Holds(payload, values)
    case Flags(flags) => r.BatchExists? && status == 0 && HoldsFlags(payload, flags)
    case Done => r.Clear? && status == 0
    case Count(n) => r.Size? && status == 0 && n < 0x1_0000_0000_0000_0000 && payload == Le(n, 8)
    case Failed => false
  }

  // A response is read as an outcome exactly when it gives it.
  lemma ReadsExactly(r: Request, status: Byte, payload: Data, o: Outcome)
    ensures o != Failed ==> (ReadOutcome(r, status, payload) == o <==> Gives(r, status, payload, o))
    ensures ReadOutcome(r, status, payload) == Failed ==> !Gives(r, status, payload, o)
  {
    Powers();
    match o
    case Values(values) => AcceptsExactly(payload, values);
    case Flags(flags) => ExistsAcceptsExactly(payload, flags);
    case Count(n) =>
      LeLoad(payload);
      if n < 0x1_0000_0000_0000_0000 {
        LoadLe(n, 8);
      }
    case _ =>
  }

  // What the abstract store says.
  function Meaning(store: Store, r: Request): Outcome {
    match r
    case Put(_, _, _) => Acknowledged(true)
    case Get(kind, key) => Found(Lookup(store, kind, key))
    case Exists(kind, key) => Contained(Lookup(store, kind, key).Some?)
    case BatchPut(_, _) => Acknowledged(true)
    case BatchGet(kind, keys) => Values(Answers(store, kind, keys))
    case BatchExists(kind, keys) => Flags(Present(Answers(store, kind, keys)))
    case Clear(_) => Done
    case Size(kind) => Count(SizeOf(store, kind))
  }

  // When a call is answered with what the store says: the batch is within the server's limit, the answer
  // fits the wire, and a count fits its eight bytes.
  predicate Answerable(store: Store, r: Request) {
    && WithinLimit(r)
    && |Serve(store, r).1.payload| <= U32_MAX
    && (r.Size? ==> SizeOf(store, r.kind) < 0x1_0000_0000_0000_0000)
  }

  // Every such answer is read as what the abstract store says.
  lemma OutcomeIsMeaning(store: Store, r: Request)
    requires Admitted(r) && Answerable(store, r)
    ensures var response := Serve(store, r).1;
            ReadOutcome(r, StatusCode(response.status), response.payload) == Meaning(store, r)
  {
    Powers();
    match r
    case BatchGet(kind, keys) =>
      FittingValues(store, kind, keys);
      ParseInverts(Answers(store, kind, keys));
    case BatchExists(kind, keys) => ExistsInverts(Answers(store, kind, keys));
    case Size(kind) => LoadLe(SizeOf(store, kind), 8);
    case _ =>
  }

  // A batch_get answer that fits holds only values that fit.
  lemma FittingValues(store: Store, kind: Byte, keys: seq<Data>)
    requires |keys| <= MAX_BATCH_COUNT && |Serve(store, BatchGet(kind, keys)).1.payload| <= U32_MAX
    ensures Encodable(Answers(store, kind, keys))
  {
    var values := Answers(store, kind, keys);
    PackedLength(values, |keys|);
    forall i | 0 <= i < |values| && values[i].Some?
      ensures |values[i].value| <= U32_MAX
    {
      PackedHolds(values, |keys|, i);
    }
  }

  // A refusal is never read as what the store says, and a count past 64 bits is not either.
  lemma RefusalIsNotMeaning(store: Store, r: Request)
    requires !WithinLimit(r)
    ensures ReadOutcome(r, StatusCode(BadRequest), []) != Meaning(store, r)
  {
  }

  lemma CountIsNotMeaning(store: Store, r: Request)
    requires r.Size? && SizeOf(store, r.kind) >= 0x1_0000_0000_0000_0000
    ensures var response := Serve(store, r).1;
            ReadOutcome(r, StatusCode(response.status), response.payload) != Meaning(store, r)
  {
    Powers();
  }

  // ---- reading responses off the stream --------------------------------------------------------------

  // One response at the front: status, payload, and what follows.
  function FirstResponse(s: Data): Option<(Byte, Data, Data)> {
    if |s| < 5 then None
    else
      var len := Load(s[1..5]);
      if |s| < 5 + len then None else Some((s[0], s[5..5 + len], s[5 + len..]))
  }

  lemma FirstResponseExact(response: Response, rest: Data)
    requires |response.payload| <= U32_MAX
    ensures FirstResponse(EncodeResponse(response) + rest) ==
            Some((StatusCode(response.status), response.payload, rest))
  {
    Powers();
    var status: Data := [StatusCode(response.status)];
    LoadLe(|response.payload|, 4);
    FourParts(status, Le(|response.payload|, 4), response.payload, rest);
    assert (EncodeResponse(response) + rest)[0] == status[0];
  }

  // The outcomes of the calls, in order, read from everything the server sent.
  function Outcomes(requests: seq<Request>, s: Data): seq<Outcome>
    decreases |requests|
  {
    if requests == [] then []
    else
      match FirstResponse(s)
      case None => [Failed]
      case Some((status, payload, rest)) =>
        [ReadOutcome(requests[0], status, payload)] + Outcomes(requests[1..], rest)
  }

  function Meanings(store: Store, requests: seq<Request>): seq<Outcome>
    decreases |requests|
  {
    if requests == [] then []
    else [Meaning(store, requests[0])] + Meanings(Serve(store, requests[0]).0, requests[1..])
  }

  predicate AllAnswerable(store: Store, requests: seq<Request>)
    decreases |requests|
  {
    requests == [] ||
    (Answerable(store, requests[0]) && AllAnswerable(Serve(store, requests[0]).0, requests[1..]))
  }

  // The conversation is read as the store's meaning if and only if every call is answerable when it is
  // reached.
  lemma {:induction false} ConversationMeaning(store: Store, requests: seq<Request>)
    requires forall i | 0 <= i < |requests| :: Admitted(requests[i])
    ensures Outcomes(requests, EncodeResponses(Conversation(store, requests).1)) == Meanings(store, requests) <==>
            AllAnswerable(store, requests)
    decreases |requests|
  {
    if requests != [] {
      var r := requests[0];
      var (next, response) := Serve(store, r);
      if !WithinLimit(r) {
        RefusalDecides(store, requests);
      } else if |response.payload| <= U32_MAX {
        var responses := Conversation(next, requests[1..]).1;
        FirstResponseExact(response, EncodeResponses(responses));
        assert ([response] + responses)[1..] == responses;
        ConversationMeaning(next, requests[1..]);
        HeadDecides(store, requests, response, EncodeResponses(responses));
      } else {
        SilenceDecides(store, requests);
      }
    }
  }

  lemma RefusalDecides(store: Store, requests: seq<Request>)
    requires requests != [] && !WithinLimit(requests[0])
    ensures var s := EncodeResponses([Response(BadRequest, [])]);
            && Outcomes(requests, s) ==
               [ReadOutcome(requests[0], StatusCode(BadRequest), [])] + Outcomes(requests[1..], [])
            && Outcomes(requests, s) != Meanings(store, requests)
  {
    var r, refusal := requests[0], Response(BadRequest, []);
    assert EncodeResponses([refusal]) == EncodeResponse(refusal) + [];
    FirstResponseExact(refusal, []);
    RefusalIsNotMeaning(store, r);
    SameFront(ReadOutcome(r, StatusCode(BadRequest), []), Outcomes(requests[1..], []),
              Meaning(store, r), Meanings(Serve(store, r).0, requests[1..]));
  }

  lemma SilenceDecides(store: Store, requests: seq<Request>)
    requires requests != []
    ensures Outcomes(requests, []) == [Failed] != Meanings(store, requests)
  {
    var r := requests[0];
    SameFront(Failed, [], Meaning(store, r), Meanings(Serve(store, r).0, requests[1..]));
  }

  // An answered call is read as its meaning exactly when it is answerable; the rest decides the rest.
  lemma HeadDecides(store: Store, requests: seq<Request>, response: Response, rest: Data)
    requires requests != [] && Admitted(requests[0]) && WithinLimit(requests[0])
    requires response == Serve(store, requests[0]).1 && |response.payload| <= U32_MAX
    ensures var s := EncodeResponse(response) + rest;
            Outcomes(requests, s) == Meanings(store, requests) <==>
            Answerable(store, requests[0])
            && Outcomes(requests[1..], rest) == Meanings(Serve(store, requests[0]).0, requests[1..])
  {
    var r := requests[0];
    FirstResponseExact(response, rest);
    var head := ReadOutcome(r, StatusCode(response.status), response.payload);
    if Answerable(store, r) {
      OutcomeIsMeaning(store, r);
    } else {
      CountIsNotMeaning(store, r);
    }
    SameFront(head, Outcomes(requests[1..], rest), Meaning(store, r), Meanings(Serve(store, r).0, requests[1..]));
  }

  lemma SameFront(x: Outcome, xs: seq<Outcome>, y: Outcome, ys: seq<Outcome>)
    ensures [x] + xs == [y] + ys <==> x == y && xs == ys
  {
    if [x] + xs == [y] + ys {
      assert ([x] + xs)[0] == ([y] + ys)[0];
      assert ([x] + xs)[1..] == xs && ([y] + ys)[1..] == ys;
    }
  }

  // End to end: for every store and every sequence of calls the client lets through, the calls return
  // what the abstract store says if and only if every batch is within the server's limit, every answer
  // fits the wire and every count fits 64 bits.
  lemma EndToEnd(store: Store, requests: seq<Request>)
    requires forall i | 0 <= i < |requests| :: Admitted(requests[i])
    ensures Outcomes(requests, Session(store, EncodeRequests(requests)).1) == Meanings(store, requests) <==>
            AllAnswerable(store, requests)
  {
    SessionExact(store, requests);
    ConversationMeaning(store, requests);
  }

  // The code does not meet the property on these calls: one value of 4290 bytes, read a million times by
  // one batch_get, is an answer of more than 2^32 - 1 bytes.
  lemma LargeAnswerFails(key: Data, value: Data)
    requires KeyOk(key) && |value| == 4290
    ensures var requests := [Put(0, key, value), BatchGet(0, seq(MAX_BATCH_COUNT, i => key))];
            && WellFormed(requests[0]) && WellFormed(requests[1])
            && Outcomes(requests, Session(map[], EncodeRequests(requests)).1) != Meanings(map[], requests)
  {
    var keys: seq<Data> := seq(MAX_BATCH_COUNT, i => key);
    var requests := [Put(0, key, value), BatchGet(0, keys)];
    var next := Serve(map[], requests[0]).0;
    var values := Answers(next, 0, keys);
    SameAnswersLength(values, |keys|, Some(value));
    PackedLength(values, |keys|);
    assert !Answerable(next, requests[1]);
    assert requests[1..][0] == requests[1];
    assert !AllAnswerable(next, requests[1..]);
    EndToEnd(map[], requests);
  }

  // Nor on a batch the client lets through and the server refuses.
  lemma LargeBatchFails(store: Store, key: Data)
    requires KeyOk(key)
    ensures var requests := [BatchExists(0, seq(MAX_BATCH_COUNT + 1, i => key))];
            && Admitted(requests[0])
            && Outcomes(requests, Session(store, EncodeRequests(requests)).1) == [Failed] != Meanings(store, requests)
  {
    var keys: seq<Data> := seq(MAX_BATCH_COUNT + 1, i => key);
    var r := BatchExists(0, keys);
    SessionExact(store, [r]);
    RefusalDecides(store, [r]);
    assert Outcomes([r][1..], []) == [];
  }

  // ---- the client object -----------------------------------------------------------------------------

  method PackKeyList(keys: seq<Data>) returns (body: Data)
    ensures body == Le(|keys|, 4) + PackKeys(keys, |keys|)
  {
    body := Le(|keys|, 4);
    for i := 0 to |keys|
      invariant body == Le(|keys|, 4) + PackKeys(keys, i)
    {
      assert body + keys[i] == Le(|keys|, 4) + (PackKeys(keys, i) + keys[i]);
      body := body + keys[i];
    }
  }

  method PackItemList(items: seq<(Data, Data)>) returns (body: Data)
    ensures body == Le(|items|, 4) + PackItems(items, |items|)
  {
    body := Le(|items|, 4);
    for i := 0 to |items|
      invariant body == Le(|items|, 4) + PackItems(items, i)
    {
      ghost var soFar := PackItems(items, i);
      assert body + items[i].0 + Le(|items[i].1|, 4) + items[i].1 ==
             Le(|items|, 4) + (soFar + items[i].0 + Le(|items[i].1|, 4) + items[i].1);
      body := body + items[i].0 + Le(|items[i].1|, 4) + items[i].1;
    }
  }

  class KVStoreClient {
    const sock: Connection

    constructor (sock: Connection)
      ensures this.sock == sock
    {
      this.sock := sock;
    }

    // The sending half of _request_raw.
    method SendRaw(code: Byte, kind: Byte, keyLen: nat, valLen: nat, body: Data) returns (ok: bool)
      modifies sock`output, sock`broken, sock`interruptions
      ensures ok <==> !sock.broken
      ensures Wrote(Header(code, kind, keyLen, valLen) + body, old(sock.output), sock.output, sock.broken)
    {
      ok := WriteAll(sock, Header(code, kind, keyLen, valLen) + body);
    }

    // Its receiving half: one response, or nothing when the stream ends inside it.
    method ReceiveRaw() returns (answer: Option<(Byte, Data)>)
      modifies sock`input, sock`interruptions
      ensures answer == Answered(FirstResponse(old(sock.input)))
      ensures sock.input == AfterFirst(old(sock.input))
    {
      ghost var s := sock.input;
      var ok, header := ReadExact(sock, 5);
      if !ok {
        return None;
      }
      assert header[1..5] == s[1..5];
      var payload;
      ok, payload := ReadExact(sock, LoadLe32(header[1..5]));
      if !ok {
        return None;
      }
      assert s[5..][..|payload|] == s[5..5 + |payload|] && s[5..][|payload|..] == s[5 + |payload|..];
      answer := Some((header[0], payload));
    }

    // _request_raw: send header and body, read one response.
    method RequestRaw(code: Byte, kind: Byte, keyLen: nat, valLen: nat, body: Data)
      returns (answer: Option<(Byte, Data)>)
      modifies sock
      ensures Wrote(Header(code, kind, keyLen, valLen) + body, old(sock.output), sock.output, sock.broken)
      ensures sock.broken ==> answer == None && sock.input == old(sock.input)
      ensures !sock.broken ==> answer == Answered(FirstResponse(old(sock.input)))
      ensures !sock.broken ==> sock.input == AfterFirst(old(sock.input))
    {
      var ok := SendRaw(code, kind, keyLen, valLen, body);
      if !ok {
        return None;
      }
      answer := ReceiveRaw();
    }

    // The body each call builds.
    method PackBody(r: Request) returns (body: Data)
      ensures body == Body(r)
    {
      match r {
        case Put(_, key, value) => body := key + value;
        case Get(_, key) => body := key;
        case Exists(_, key) => body := key;
        case BatchPut(_, items) => body := PackItemList(items);
        case BatchGet(_, keys) => body := PackKeyList(keys);
        case BatchExists(_, keys) => body := PackKeyList(keys);
        case Clear(_) => body := [];
        case Size(_) => body := [];
      }
    }

    // Any of the eight calls, and whether it got a response; an argument that fails validation raises
    // before anything is sent.
    method Call(r: Request) returns (outcome: Outcome, received: bool)
      modifies sock
      ensures !Admitted(r) ==> outcome == Failed && sock.output == old(sock.output) && sock.input == old(sock.input)
                               && sock.broken == old(sock.broken)
      ensures Admitted(r) ==> Wrote(EncodeRequest(r), old(sock.output), sock.output, sock.broken)
      ensures Admitted(r) && sock.broken ==> outcome == Failed && sock.input == old(sock.input)
      ensures Admitted(r) && !sock.broken ==> outcome == FirstOutcome(r, old(sock.input))
      ensures Admitted(r) && !sock.broken ==> sock.input == AfterFirst(old(sock.input))
      ensures received <==> Admitted(r) && !sock.broken && FirstResponse(old(sock.input)).Some?
    {
      if !Admitted(r) {
        return Failed, false;
      }
      var body := PackBody(r);
      var answer := RequestRaw(Code(r), r.kind, KeyLen(r), ValLen(r), body);
      if answer.None? {
        return Failed, false;
      }
      outcome, received := ReadOutcome(r, answer.value.0, answer.value.1), true;
    }

    // One call after the other, until one gets no response.
    method CallAll(requests: seq<Request>) returns (outcomes: seq<Outcome>)
      requires forall i | 0 <= i < |requests| :: Admitted(requests[i])
      requires !sock.broken
      modifies sock
      ensures |outcomes| <= |requests|
      ensures !sock.broken ==> outcomes == Outcomes(requests, old(sock.input))
                               && sock.output == old(sock.output) + EncodeRequests(requests[..|outcomes|])
      ensures sock.broken ==> outcomes != [] && outcomes[|outcomes| - 1] == Failed
                              && outcomes[..|outcomes| - 1] <= Outcomes(requests, old(sock.input))
    {
      outcomes := [];
      ghost var s := sock.input;
      assert requests[0..] == requests && [] + Outcomes(requests, s) == Outcomes(requests, s);
      assert sock.output + [] == sock.output;
      for i := 0 to |requests|
        invariant |outcomes| == i && !sock.broken
        invariant Outcomes(requests, s) == outcomes + Outcomes(requests[i..], sock.input)
        invariant sock.output == old(sock.output) + EncodeRequests(requests[..i])
      {
        ghost var before, sent := sock.input, outcomes;
        assert requests[i..][0] == requests[i] && requests[i..][1..] == requests[i + 1..];
        EncodeNext(requests, i);
        Associative(old(sock.output), EncodeRequests(requests[..i]), EncodeRequest(requests[i]));
        var outcome, received := Call(requests[i]);
        outcomes := outcomes + [outcome];
        assert outcomes[..|outcomes| - 1] == sent;
        FirstDecides(requests[i..], before);
        if !received {
          return;
        }
        Joined(sent, outcome, Outcomes(requests[i + 1..], sock.input));
      }
      assert requests[..|requests|] == requests;
      assert outcomes + [] == outcomes;
    }
  }

  function Answered(first: Option<(Byte, Data, Data)>): Option<(Byte, Data)> {
    if first.Some? then Some((first.value.0, first.value.1)) else None
  }

  // What is left once the first response is read; a response cut short uses up the stream.
  function AfterFirst(s: Data): Data {
    match FirstResponse(s)
    case Some((_, _, rest)) => rest
    case None => []
  }

  function FirstOutcome(r: Request, s: Data): Outcome {
    match FirstResponse(s)
    case Some((status, payload, _)) => ReadOutcome(r, status, payload)
    case None => Failed
  }

  lemma FirstDecides(requests: seq<Request>, s: Data)
    requires requests != []
    ensures Outcomes(requests, s) ==
            [FirstOutcome(requests[0], s)] +
            if FirstResponse(s).Some? then Outcomes(requests[1..], AfterFirst(s)) else []
  {
  }

  lemma Joined(a: seq<Outcome>, x: Outcome, b: seq<Outcome>)
    ensures a + ([x] + b) == a + [x] + b
  {
  }

  lemma {:induction false} EncodeNext(requests: seq<Request>, n: nat)
    requires n < |requests|
    ensures EncodeRequests(requests[..n + 1]) == EncodeRequests(requests[..n]) + EncodeRequest(requests[n])
    decreases |requests|
  {
    var now, next := requests[..n], requests[..n + 1];
    if n == 0 {
      assert next == [requests[0]] && next[1..] == [];
      assert EncodeRequest(requests[0]) + [] == EncodeRequest(requests[0]);
    } else {
      EncodeNext(requests[1..], n - 1);
      assert next[1..] == requests[1..][..n] && now[1..] == requests[1..][..n - 1];
      Associative(EncodeRequest(requests[0]), EncodeRequests(requests[1..][..n - 1]), EncodeRequest(requests[n]));
    }
  }

  // ---- client and server together --------------------------------------------------------------------

  // Bytes sent at one end, from a position on, arrive at the other.
  method Carry(from: Connection, to: Connection, position: nat)
    requires from != to && position <= |from.output|
    modifies to`input
    ensures to.input == old(to.input) + from.output[position..]
  {
    to.input := to.input + from.output[position..];
  }

  // What the first calls returned, followed by what a session from here on tells the others, is what the
  // whole session tells.
  ghost predicate LeftToDo(start: Store, requests: seq<Request>, outcomes: seq<Outcome>, store: Store, i: nat)
    requires i <= |requests|
  {
    var whole := Session(start, EncodeRequests(requests));
    var rest := Session(store, EncodeRequests(requests[i..]));
    whole.0 == rest.0 && Outcomes(requests, whole.1) == outcomes + Outcomes(requests[i..], rest.1)
  }

  // One call in lock step: what the server does with the request alone is what it does at this point of
  // the session.
  lemma LockStep(start: Store, requests: seq<Request>, outcomes: seq<Outcome>, store: Store, i: nat)
    requires i < |requests| && Admitted(requests[i]) && LeftToDo(start, requests, outcomes, store, i)
    ensures var s := EncodeRequest(requests[i]);
            && |s| >= HEADER_LENGTH
            && var t := FirstTurn(store, s);
               var more := outcomes + [FirstOutcome(requests[i], t.out)];
               var whole := Session(start, EncodeRequests(requests));
               && (t.open ==> t.rest == [] && FirstResponse(t.out).Some? && AfterFirst(t.out) == []
                              && LeftToDo(start, requests, more, t.store, i + 1))
               && (!t.open ==> whole.0 == t.store
                               && Outcomes(requests, whole.1) ==
                                  if FirstResponse(t.out).Some? && i + 1 < |requests| then more + [Failed] else more)
  {
    var r, left := requests[i], EncodeRequests(requests[i + 1..]);
    assert requests[i..][0] == r && requests[i..][1..] == requests[i + 1..];
    var t, u := TurnAlone(store, r, left);
    OneTurn(store, EncodeRequest(r) + left, u);
    if t.open {
      var response := Serve(store, r).1;
      var later := Session(t.store, left).1;
      FirstResponseExact(response, []);
      assert t.out + [] == t.out;
      FirstResponseExact(response, later);
      FirstDecides(requests[i..], t.out + later);
      Joined(outcomes, FirstOutcome(r, t.out), Outcomes(requests[i + 1..], later));
    } else {
      FirstDecides(requests[i..], t.out);
      if FirstResponse(t.out).Some? {
        FirstResponseExact(Response(BadRequest, []), []);
        assert t.out + [] == t.out;
        assert i + 1 < |requests| ==> Outcomes(requests[i + 1..], []) == [Failed];
        assert i + 1 == |requests| ==> Outcomes(requests[i + 1..], []) == [];
        Joined(outcomes, FirstOutcome(r, t.out), Outcomes(requests[i + 1..], []));
      }
    }
  }

  // The turn on a request alone and the turn on the request with others behind it.
  lemma TurnAlone(store: Store, r: Request, left: Data) returns (t: Turn, u: Turn)
    requires Admitted(r)
    ensures |EncodeRequest(r)| >= HEADER_LENGTH && |EncodeRequest(r) + left| >= HEADER_LENGTH
    ensures t == FirstTurn(store, EncodeRequest(r)) && u == FirstTurn(store, EncodeRequest(r) + left)
    ensures t.store == u.store && t.out == u.out && t.open == u.open
    ensures t.open ==> t.rest == [] && u.rest == left && t.store == Serve(store, r).0
                       && |Serve(store, r).1.payload| <= U32_MAX && t.out == EncodeResponse(Serve(store, r).1)
    ensures !t.open ==> t.out == [] || t.out == EncodeResponse(Response(BadRequest, []))
  {
    assert EncodeRequest(r) + [] == EncodeRequest(r);
    if WithinLimit(r) {
      TurnExact(store, r, []);
      TurnExact(store, r, left);
    } else {
      OverLimitRefused(store, r, []);
      OverLimitRefused(store, r, left);
    }
    t, u := FirstTurn(store, EncodeRequest(r)), FirstTurn(store, EncodeRequest(r) + left);
  }

  // A client and a server on the two ends of a connection, one call at a time, until a call gets no
  // response or the server has closed. Unless sending fails, the calls return what the session on all
  // requests tells, and that is what the abstract store says exactly when every call is answerable.
  method Converse(client: KVStoreClient, server: Server, conn: Connection, requests: seq<Request>)
    returns (outcomes: seq<Outcome>)
    requires forall i | 0 <= i < |requests| :: Admitted(requests[i])
    requires client.sock != conn && (conn as object) != server.store && (client.sock as object) != server.store
    requires client.sock.input == conn.input == [] && !client.sock.broken && !conn.broken
    modifies client.sock, conn, server.store
    ensures !client.sock.broken && !conn.broken ==>
              && server.store.stores == Session(old(server.store.stores), EncodeRequests(requests)).0
              && outcomes == Outcomes(requests, Session(old(server.store.stores), EncodeRequests(requests)).1)
              && (outcomes == Meanings(old(server.store.stores), requests) <==>
                  AllAnswerable(old(server.store.stores), requests))
  {
    ghost var start := server.store.stores;
    EndToEnd(start, requests);
    outcomes := [];
    assert requests[0..] == requests;
    for i := 0 to |requests|
      invariant !client.sock.broken && !conn.broken && client.sock.input == conn.input == []
      invariant LeftToDo(start, requests, outcomes, server.store.stores, i)
    {
      LockStep(start, requests, outcomes, server.store.stores, i);
      var outcome, open := OneCall(client, server, conn, requests[i]);
      if client.sock.broken || conn.broken {
        return outcomes + [Failed];
      }
      outcomes := outcomes + [outcome.0];
      if !open {
        if outcome.1 && i + 1 < |requests| {
          outcomes := outcomes + [Failed];
        }
        return;
      }
    }
    assert requests[|requests|..] == [] && outcomes + [] == outcomes;
  }

  // The server serves the one request it has received and its answer arrives at the client.
  method Exchange(server: Server, conn: Connection, sock: Connection) returns (open: bool)
    requires sock != conn && (conn as object) != server.store && (sock as object) != server.store
    requires |conn.input| >= HEADER_LENGTH && sock.input == []
    modifies sock`input, conn, server.store
    ensures !conn.broken ==>
              var t := FirstTurn(old(server.store.stores), old(conn.input));
              server.store.stores == t.store && conn.input == t.rest && sock.input == t.out && open == t.open
  {
    ghost var before, t := conn.output, FirstTurn(server.store.stores, conn.input);
    var answered := |conn.output|;
    var _, stillOpen := server.ServeOne(conn);
    open := stillOpen;
    if !conn.broken {
      TakeDrop(before, t.out);
      Carry(conn, sock, answered);
      assert [] + t.out == t.out;
    }
  }

  // One call: the client sends, the server serves, the client receives.
  method OneCall(client: KVStoreClient, server: Server, conn: Connection, r: Request)
    returns (outcome: (Outcome, bool), open: bool)
    requires client.sock != conn && (conn as object) != server.store && (client.sock as object) != server.store
    requires client.sock.input == conn.input == [] && !client.sock.broken && !conn.broken
    requires |EncodeRequest(r)| >= HEADER_LENGTH
    modifies client.sock, conn, server.store
    ensures !client.sock.broken && !conn.broken ==>
              var t := FirstTurn(old(server.store.stores), EncodeRequest(r));
              && server.store.stores == t.store && conn.input == t.rest && open == t.open
              && client.sock.input == AfterFirst(t.out)
              && outcome == (FirstOutcome(r, t.out), FirstResponse(t.out).Some?)
  {
    var position := |client.sock.output|;
    var body := client.PackBody(r);
    var sent := client.SendRaw(Code(r), r.kind, KeyLen(r), ValLen(r), body);
    if !sent {
      return (Failed, false), false;
    }
    TakeDrop(old(client.sock.output), EncodeRequest(r));
    Carry(client.sock, conn, position);
    assert [] + EncodeRequest(r) == EncodeRequest(r);
    open := Exchange(server, conn, client.sock);
    if conn.broken {
      return (Failed, false), false;
    }
    var answer := client.ReceiveRaw();
    outcome := (if answer.Some? then ReadOutcome(r, answer.value.0, answer.value.1) else Failed, answer.Some?);
  }
}
