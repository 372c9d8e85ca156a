/** The MicroKV client: keys, and payload parsers that accept exactly what the server writes. */
module KvClient {
  import opened Bytes
  import opened KvProtocol
  import opened Options

  datatype Parsed<T> = Parsed(value: T) | ProtocolError

  // ---- keys ----------------------------------------------------------------------------------------

  // make_key for an integer request index.
  function MakeKey(reqIndex: nat, layer: nat, token: nat, kind: Byte): (key: Data)
    ensures |key| == KEY_LENGTH
  {
    Le(reqIndex, 8) + Le(0, 8) + Le(layer, 4) + Le(token, 4) + [kind] + Le(0, 7)
  }

  // Different tokens never share a key.
  lemma MakeKeyInjective(r1: nat, l1: nat, t1: nat, k1: Byte, r2: nat, l2: nat, t2: nat, k2: Byte)
    requires r1 < 0x1_0000_0000_0000_0000 && r2 < 0x1_0000_0000_0000_0000
    requires l1 <= U32_MAX && l2 <= U32_MAX && t1 <= U32_MAX && t2 <= U32_MAX
    requires MakeKey(r1, l1, t1, k1) == MakeKey(r2, l2, t2, k2)
    ensures r1 == r2 && l1 == l2 && t1 == t2 && k1 == k2
  {
    Powers();
    KeyFields(r1, l1, t1, k1);
    KeyFields(r2, l2, t2, k2);
  }

  lemma KeyFields(r: nat, l: nat, t: nat, k: Byte)
    requires r < Pow256(8) && l < Pow256(4) && t < Pow256(4)
    ensures var key := MakeKey(r, l, t, k);
            Load(key[..8]) == r && Load(key[16..20]) == l && Load(key[20..24]) == t && key[24] == k
  {
    KeySlices(Le(r, 8), Le(0, 8), Le(l, 4), Le(t, 4), [k], Le(0, 7));
    LoadLe(r, 8);
    LoadLe(l, 4);
    LoadLe(t, 4);
  }

  lemma KeySlices(a: Data, z: Data, b: Data, c: Data, d: Data, y: Data)
    requires |a| == |z| == 8 && |b| == |c| == 4 && |d| == 1
    ensures var key := a + z + b + c + d + y;
            key[..8] == a && key[16..20] == b && key[20..24] == c && key[24] == d[0]
  {
  }

  // ---- batch_get payloads --------------------------------------------------------------------------

  // n items from an offset: the values and where they end.
  function ParseItems(p: Data, offset: nat, n: nat): (r: Parsed<(seq<Option<Data>>, nat)>)
    ensures r.Parsed? ==> |r.value.0| == n && offset <= r.value.1 && (n > 0 ==> r.value.1 <= |p|)
    decreases n
  {
    if n == 0 then Parsed(([], offset))
    else if offset + 5 > |p| then ProtocolError
    else
      var len := Load(p[offset + 1..offset + 5]);
      if offset + 5 + len > |p| then ProtocolError
      else
        var item := if p[offset] != 0 then Some(p[offset + 5..offset + 5 + len]) else None;
        match ParseItems(p, offset + 5 + len, n - 1)
        case Parsed((rest, end)) => Parsed(([item] + rest, end))
        case ProtocolError => ProtocolError
  }

  function ParseBatchGet(p: Data): Parsed<seq<Option<Data>>> {
    if |p| < 4 then ProtocolError
    else
      match ParseItems(p, 4, Load(p[..4]))
      case Parsed((values, end)) => if end == |p| then Parsed(values) else ProtocolError
      case ProtocolError => ProtocolError
  }

  function Prepend(values: seq<Option<Data>>, r: Parsed<(seq<Option<Data>>, nat)>)
    : Parsed<(seq<Option<Data>>, nat)>
  {
    match r
    case Parsed((rest, end)) => Parsed((values + rest, end))
    case ProtocolError => ProtocolError
  }

  method ParseBatchGetPayload(payload: Data) returns (r: Parsed<seq<Option<Data>>>)
    ensures r == ParseBatchGet(payload)
  {
    if |payload| < 4 {
      return ProtocolError;
    }
    var count := Load(payload[..4]);
    var offset := 4;
    var values: seq<Option<Data>> := [];
    PrependNothing(ParseItems(payload, 4, count));
    for i := 0 to count
      invariant 4 <= offset <= |payload|
      invariant ParseItems(payload, 4, count) == Prepend(values, ParseItems(payload, offset, count - i))
    {
      if offset + 5 > |payload| {
        return ProtocolError;
      }
      var present := payload[offset] != 0;
      var len := Load(payload[offset + 1..offset + 5]);
      if offset + 5 + len > |payload| {
        return ProtocolError;
      }
      var value := payload[offset + 5..offset + 5 + len];
      PrependItem(values, if present then Some(value) else None, payload, offset, count - i);
      values := values + [if present then Some(value) else None];
      offset := offset + 5 + len;
    }
    assert values + [] == values;
    if offset != |payload| {
      return ProtocolError;
    }
    r := Parsed(values);
  }

  lemma PrependNothing(r: Parsed<(seq<Option<Data>>, nat)>)
    ensures Prepend([], r) == r
  {
    if r.Parsed? {
      assert [] + r.value.0 == r.value.0;
    }
  }

  lemma PrependItem(values: seq<Option<Data>>, item: Option<Data>, p: Data, offset: nat, left: nat)
    requires left > 0 && offset + 5 <= |p|
    requires var len := Load(p[offset + 1..offset + 5]);
             && offset + 5 + len <= |p|
             && item == if p[offset] != 0 then Some(p[offset + 5..offset + 5 + len]) else None
    ensures Prepend(values, ParseItems(p, offset, left)) ==
            Prepend(values + [item], ParseItems(p, offset + 5 + Load(p[offset + 1..offset + 5]), left - 1))
  {
    var rest := ParseItems(p, offset + 5 + Load(p[offset + 1..offset + 5]), left - 1);
    if rest.Parsed? {
      assert values + ([item] + rest.value.0) == values + [item] + rest.value.0;
    }
  }

  // ---- what the parser accepts -------------------------------------------------------------------------

  // An item as it stands in a payload: any flag byte other than 0 means that the value is there, and the
  // bytes of an absent one are skipped.
  datatype RawItem = RawItem(flag: Byte, data: Data)

  function ReadRaw(item: RawItem): Option<Data> {
    if item.flag == 0 then None else Some(item.data)
  }

  function RawBytes(item: RawItem): Data {
    [item.flag] + Le(|item.data|, 4) + item.data
  }

  function AllRawBytes(items: seq<RawItem>): Data {
    if items == [] then [] else RawBytes(items[0]) + AllRawBytes(items[1..])
  }

  function ReadAllRaw(items: seq<RawItem>): (values: seq<Option<Data>>)
    ensures |values| == |items|
  {
    seq(|items|, i requires 0 <= i < |items| => ReadRaw(items[i]))
  }

  predicate RawFits(items: seq<RawItem>) {
    |items| <= U32_MAX && forall i | 0 <= i < |items| :: |items[i].data| <= U32_MAX
  }

  function EncodeRaw(items: seq<RawItem>): Data {
    Le(|items|, 4) + AllRawBytes(items)
  }

  // What the parser sees of one item.
  ghost predicate ReadsAs(p: Data, offset: nat, item: RawItem, next: nat) {
    && offset + 5 <= |p| && p[offset] == item.flag
    && var len := Load(p[offset + 1..offset + 5]);
       offset + 5 + len == next <= |p| && p[offset + 5..offset + 5 + len] == item.data
  }

  // From the offset on, the payload is these items.
  ghost predicate Ends(p: Data, offset: nat, items: seq<RawItem>) {
    offset <= |p| && p[offset..] == AllRawBytes(items)
  }

  lemma SplitAt(p: Data, offset: nat, a: Data, rest: Data)
    requires offset <= |p| && p[offset..] == a + rest
    ensures offset + |a| <= |p| && p[offset..offset + |a|] == a && p[offset + |a|..] == rest
  {
    assert p[offset..offset + |a|] == p[offset..][..|a|];
    assert p[offset + |a|..] == p[offset..][|a|..];
  }

  lemma FirstReads(p: Data, offset: nat, item: RawItem, tail: Data)
    requires |item.data| <= U32_MAX && offset <= |p| && p[offset..] == RawBytes(item) + tail
    ensures ReadsAs(p, offset, item, offset + 5 + |item.data|) && p[offset + 5 + |item.data|..] == tail
  {
    var flag, len := [item.flag], Le(|item.data|, 4);
    assert RawBytes(item) + tail == flag + (len + (item.data + tail));
    SplitAt(p, offset, flag, len + (item.data + tail));
    SplitAt(p, offset + 1, len, item.data + tail);
    SplitAt(p, offset + 5, item.data, tail);
    Powers();
    LoadLe(|item.data|, 4);
    assert p[offset] == p[offset..offset + 1][0];
  }

  // An item that is read, and the items read after it.
  lemma ParseOne(p: Data, offset: nat, items: seq<RawItem>, next: nat)
    requires items != [] && ReadsAs(p, offset, items[0], next)
    requires ParseItems(p, next, |items| - 1) == Parsed((ReadAllRaw(items[1..]), |p|))
    ensures ParseItems(p, offset, |items|) == Parsed((ReadAllRaw(items), |p|))
  {
    assert [ReadRaw(items[0])] + ReadAllRaw(items[1..]) == ReadAllRaw(items);
  }

  lemma {:induction false} ItemsParse(items: seq<RawItem>, p: Data, offset: nat)
    requires RawFits(items) && Ends(p, offset, items)
    ensures ParseItems(p, offset, |items|) == Parsed((ReadAllRaw(items), |p|))
    decreases |items|
  {
    if items == [] {
      assert |p[offset..]| == |p| - offset;
    } else {
      FirstReads(p, offset, items[0], AllRawBytes(items[1..]));
      var next := offset + 5 + |items[0].data|;
      ItemsParse(items[1..], p, next);
      ParseOne(p, offset, items, next);
    }
  }

  // Conversely, the item at the offset of a payload that has one.
  lemma RawAt(p: Data, offset: nat) returns (item: RawItem)
    requires offset + 5 <= |p| && offset + 5 + Load(p[offset + 1..offset + 5]) <= |p|
    ensures ReadsAs(p, offset, item, offset + 5 + |item.data|) && |item.data| <= U32_MAX
    ensures p[offset..] == RawBytes(item) + p[offset + 5 + |item.data|..]
  {
    var len := p[offset + 1..offset + 5];
    item := RawItem(p[offset], p[offset + 5..offset + 5 + Load(len)]);
    Powers();
    LeLoad(len);
    assert p[offset..] == [p[offset]] + (len + p[offset + 5..]);
    assert p[offset + 5..] == item.data + p[offset + 5 + |item.data|..];
    assert RawBytes(item) == [p[offset]] + len + item.data;
  }

  lemma {:induction false} ItemsFound(p: Data, offset: nat, n: nat) returns (items: seq<RawItem>)
    requires offset <= |p| && ParseItems(p, offset, n).Parsed? && ParseItems(p, offset, n).value.1 == |p|
    ensures |items| == n && Ends(p, offset, items) && forall i | 0 <= i < n :: |items[i].data| <= U32_MAX
    decreases n
  {
    if n == 0 {
      items := [];
    } else {
      var item := RawAt(p, offset);
      var rest := ItemsFound(p, offset + 5 + |item.data|, n - 1);
      items := [item] + rest;
      assert items[1..] == rest;
    }
  }

  lemma ParsesRaw(items: seq<RawItem>)
    requires RawFits(items)
    ensures ParseBatchGet(EncodeRaw(items)) == Parsed(ReadAllRaw(items))
  {
    Powers();
    LoadLe(|items|, 4);
    TakeDrop(Le(|items|, 4), AllRawBytes(items));
    ItemsParse(items, EncodeRaw(items), 4);
  }

  lemma FindsRaw(p: Data) returns (items: seq<RawItem>)
    requires ParseBatchGet(p).Parsed?
    ensures RawFits(items) && p == EncodeRaw(items)
  {
    Powers();
    LeLoad(p[..4]);
    items := ItemsFound(p, 4, Load(p[..4]));
    assert p == p[..4] + p[4..];
  }

  // The payload is the encoding of items that read as the values.
  ghost predicate Holds(p: Data, values: seq<Option<Data>>) {
    exists items :: RawFits(items) && p == EncodeRaw(items) && values == ReadAllRaw(items)
  }

  // The parser accepts exactly the encodings of items, and reads them.
  lemma AcceptsExactly(p: Data, values: seq<Option<Data>>)
    ensures ParseBatchGet(p) == Parsed(values) <==> Holds(p, values)
  {
    if ParseBatchGet(p) == Parsed(values) {
      var items := FindsRaw(p);
      ParsesRaw(items);
    }
    forall items | RawFits(items) && p == EncodeRaw(items) && values == ReadAllRaw(items)
      ensures ParseBatchGet(p) == Parsed(values)
    {
      ParsesRaw(items);
    }
  }

  // ---- the parser inverts the server's encoding -------------------------------------------------------

  predicate Encodable(values: seq<Option<Data>>) {
    |values| <= U32_MAX && forall i | 0 <= i < |values| && values[i].Some? :: |values[i].value| <= U32_MAX
  }

  function EncodeAnswers(values: seq<Option<Data>>): Data {
    Le(|values|, 4) + PackAnswers(values, |values|)
  }

  // The item the server writes for an answer.
  function Mark(o: Option<Data>): RawItem {
    match o
    case Some(x) => RawItem(1, x)
    case None => RawItem(0, [])
  }

  function MarkAll(values: seq<Option<Data>>): (items: seq<RawItem>)
    ensures |items| == |values|
  {
    seq(|values|, i requires 0 <= i < |values| => Mark(values[i]))
  }

  lemma {:induction false} PackAnswersFront(v: seq<Option<Data>>, n: nat)
    requires 0 < n <= |v|
    ensures PackAnswers(v, n) == PackAnswer(v[0]) + PackAnswers(v[1..], n - 1)
  {
    if n > 1 {
      PackAnswersFront(v, n - 1);
      assert v[1..][n - 2] == v[n - 1];
    }
  }

  lemma MarkedBytes(o: Option<Data>)
    ensures RawBytes(Mark(o)) == PackAnswer(o)
  {
    if o.None? {
      assert [0] + Le(0, 4) + [] == [0] + Le(0, 4);
    }
  }

  lemma {:induction false} PackedIsRaw(values: seq<Option<Data>>)
    ensures PackAnswers(values, |values|) == AllRawBytes(MarkAll(values))
    decreases |values|
  {
    if values != [] {
      PackAnswersFront(values, |values|);
      PackedIsRaw(values[1..]);
      MarkedBytes(values[0]);
      assert MarkAll(values)[1..] == MarkAll(values[1..]);
    }
  }

  lemma MarksReadBack(values: seq<Option<Data>>, items: seq<RawItem>)
    requires Encodable(values) && items == MarkAll(values)
    ensures RawFits(items) && ReadAllRaw(items) == values
  {
    forall i | 0 <= i < |items|
      ensures |items[i].data| <= U32_MAX && ReadRaw(items[i]) == values[i]
    {
    }
  }

  lemma ParseInverts(values: seq<Option<Data>>)
    requires Encodable(values)
    ensures ParseBatchGet(EncodeAnswers(values)) == Parsed(values)
  {
    var items := MarkAll(values);
    PackedIsRaw(values);
    MarksReadBack(values, items);
    ParsesRaw(items);
  }

  // ---- and accepts nothing cut short or extended ------------------------------------------------------

  lemma {:induction false} ItemsStable(p: Data, q: Data, offset: nat, n: nat)
    requires p <= q && ParseItems(p, offset, n).Parsed?
    ensures ParseItems(q, offset, n) == ParseItems(p, offset, n)
    decreases n
  {
    if n > 0 {
      var len := Load(p[offset + 1..offset + 5]);
      assert p[offset + 1..offset + 5] == q[offset + 1..offset + 5];
      assert p[offset + 5..offset + 5 + len] == q[offset + 5..offset + 5 + len];
      ItemsStable(p, q, offset + 5 + len, n - 1);
    }
  }

  // No accepted payload is a proper prefix of another.
  lemma PrefixFree(p: Data, q: Data)
    requires ParseBatchGet(p).Parsed? && p < q
    ensures ParseBatchGet(q) == ProtocolError
  {
    assert p[..4] == q[..4];
    ItemsStable(p, q, 4, Load(p[..4]));
  }

  // So the server's payload with bytes missing or added is rejected.
  lemma CutOrExtendedRejected(values: seq<Option<Data>>, q: Data)
    requires Encodable(values) && (q < EncodeAnswers(values) || EncodeAnswers(values) < q)
    ensures ParseBatchGet(q) == ProtocolError
  {
    ParseInverts(values);
    if ParseBatchGet(q).Parsed? {
      if q < EncodeAnswers(values) {
        PrefixFree(q, EncodeAnswers(values));
      } else {
        PrefixFree(EncodeAnswers(values), q);
      }
    }
  }

  // ---- batch_exists payloads -------------------------------------------------------------------------

  function ParseBatchExists(p: Data): Parsed<seq<bool>> {
    if |p| < 4 then ProtocolError
    else if |p| != 4 + Load(p[..4]) then ProtocolError
    else Parsed(seq(|p| - 4, i requires 0 <= i < |p| - 4 => p[4 + i] != 0))
  }

  // The payload is a count and that many bytes, and any byte other than 0 means present.
  ghost predicate HoldsFlags(p: Data, flags: seq<bool>) {
    && |flags| <= U32_MAX && |p| == 4 + |flags| && p[..4] == Le(|flags|, 4)
    && forall i | 0 <= i < |flags| :: flags[i] <==> p[4 + i] != 0
  }

  lemma ExistsAcceptsExactly(p: Data, flags: seq<bool>)
    ensures ParseBatchExists(p) == Parsed(flags) <==> HoldsFlags(p, flags)
  {
    Powers();
    if |p| >= 4 {
      LeLoad(p[..4]);
      if HoldsFlags(p, flags) {
        LoadLe(|flags|, 4);
        assert ParseBatchExists(p).value == flags;
      }
    }
  }

  lemma ExistsInverts(values: seq<Option<Data>>)
    requires |values| <= U32_MAX
    ensures ParseBatchExists(Le(|values|, 4) + PackFlags(values)) ==
            Parsed(Present(values))
  {
    Powers();
    LoadLe(|values|, 4);
    var p := Le(|values|, 4) + PackFlags(values);
    TakeDrop(Le(|values|, 4), PackFlags(values));
    forall i | 0 <= i < |values|
      ensures (p[4 + i] != 0) == values[i].Some?
    {
      assert p[4 + i] == p[4..][i];
    }
    assert ParseBatchExists(p).value == Present(values);
  }

  function Present(values: seq<Option<Data>>): (flags: seq<bool>)
    ensures |flags| == |values| && forall i | 0 <= i < |values| :: flags[i] == values[i].Some?
  {
    seq(|values|, i requires 0 <= i < |values| => values[i].Some?)
  }

  lemma ExistsPrefixFree(p: Data, q: Data)
    requires ParseBatchExists(p).Parsed? && p < q
    ensures ParseBatchExists(q) == ProtocolError
  {
    assert p[..4] == q[..4];
  }
}
