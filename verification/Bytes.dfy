/** Bytes and little-endian integers. */
module Bytes {
  type Byte = x: int | 0 <= x < 256

  function Pow256(n: nat): (p: nat)
    ensures p > 0
  {
    if n == 0 then 1 else 256 * Pow256(n - 1)
  }

  // The n low-order bytes of a value, lowest first.
  function Le(value: nat, n: nat): (b: seq<Byte>)
    ensures |b| == n
  {
    if n == 0 then [] else [value % 256] + Le(value / 256, n - 1)
  }

  function Load(b: seq<Byte>): (v: nat)
    ensures v < Pow256(|b|)
  {
    if b == [] then 0 else b[0] + 256 * Load(b[1..])
  }

  // A value that fits comes back.
  lemma {:induction false} LoadLe(value: nat, n: nat)
    requires value < Pow256(n)
    ensures Load(Le(value, n)) == value
  {
    if n > 0 {
      LoadLe(value / 256, n - 1);
      assert Le(value, n)[1..] == Le(value / 256, n - 1);
    }
  }

  // Different bytes are different values.
  lemma {:induction false} LeLoad(b: seq<Byte>)
    ensures Le(Load(b), |b|) == b
  {
    if b != [] {
      LeLoad(b[1..]);
      var v := Load(b);
      assert v % 256 == b[0] && v / 256 == Load(b[1..]);
      assert b == [b[0]] + b[1..];
    }
  }

  lemma Powers()
    ensures Pow256(2) == 0x1_0000 && Pow256(4) == 0x1_0000_0000 && Pow256(8) == 0x1_0000_0000_0000_0000
  {
    assert Pow256(1) == 256;
    assert Pow256(3) == 256 * Pow256(2);
    assert Pow256(5) == 256 * Pow256(4) && Pow256(6) == 256 * Pow256(5) && Pow256(7) == 256 * Pow256(6);
  }

  lemma LoadFrom(b: seq<Byte>, i: nat)
    requires i < |b|
    ensures Load(b[i..]) == b[i] + 256 * Load(b[i + 1..])
  {
    assert b[i..][1..] == b[i + 1..];
  }

  // The expressions of protocol.h: shifted bytes, or-ed together.
  function LoadLe16(b: seq<Byte>): (v: nat)
    requires |b| == 2
    ensures v == Load(b)
  {
    LoadFrom(b, 0);
    LoadFrom(b, 1);
    assert b[0..] == b;
    var low: int, high: int := b[0], b[1];
    low + high * 0x100
  }

  function LoadLe32(b: seq<Byte>): (v: nat)
    requires |b| == 4
    ensures v == Load(b)
  {
    LoadFrom(b, 0);
    LoadFrom(b, 1);
    LoadFrom(b, 2);
    LoadFrom(b, 3);
    assert b[0..] == b;
    var b0: int, b1: int, b2: int, b3: int := b[0], b[1], b[2], b[3];
    b0 + b1 * 0x100 + b2 * 0x1_0000 + b3 * 0x100_0000
  }

  // value = (value << 8) | data[i], from the top byte down.
  method LoadLe64(data: seq<Byte>) returns (value: nat)
    requires |data| == 8
    ensures value == Load(data)
  {
    value := 0;
    for i := 8 downto 0
      invariant value == Load(data[i..])
    {
      LoadFrom(data, i);
      value := value * 256 + data[i];
    }
    assert data[0..] == data;
  }

  // data[i] = (value >> 8 * i) & 0xff.
  method StoreLe64(value: nat) returns (data: seq<Byte>)
    ensures data == Le(value, 8)
  {
    data := [];
    var rest := value;
    for i := 0 to 8
      invariant |data| == i && data + Le(rest, 8 - i) == Le(value, 8)
    {
      assert data + Le(rest, 8 - i) == (data + [rest % 256]) + Le(rest / 256, 8 - i - 1);
      data := data + [rest % 256];
      rest := rest / 256;
    }
  }

  lemma TakeDrop(a: seq<Byte>, b: seq<Byte>)
    ensures (a + b)[..|a|] == a && (a + b)[|a|..] == b
  {
  }

  lemma Middle(a: seq<Byte>, b: seq<Byte>, c: seq<Byte>)
    ensures (a + b + c)[..|a|] == a && (a + b + c)[|a|..|a| + |b|] == b && (a + b + c)[|a| + |b|..] == c
  {
  }
}
