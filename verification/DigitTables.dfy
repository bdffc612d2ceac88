/**
 Copies and concatenations of short digit strings come from tables filled at start-up (pressure.go);
 they equal plain copies and concatenations.
 */
module DigitTables {
  import opened Bytes

  /** byteStrings, twoDigitStrings, threeDigitStrings, and the flat fourDigitsAll. */
  datatype Tables = Tables(bytes: seq<Bytes>, two: seq<Bytes>, three: seq<Bytes>, four: Bytes)

  /** What the tables hold for a number of two, three or four digits. */
  function Two(i: nat): Bytes
    requires i < 100
  {
    [48 + i / 10, 48 + i % 10]
  }

  function Three(i: nat): Bytes
    requires i < 1000
  {
    [48 + i / 100, 48 + i / 10 % 10, 48 + i % 10]
  }

  function Four(i: nat): Bytes
    requires i < 10000
  {
    [48 + i / 1000, 48 + i / 100 % 10, 48 + i / 10 % 10, 48 + i % 10]
  }

  ghost predicate Filled(t: Tables) {
    && |t.bytes| == 256 && (forall i :: 0 <= i < 256 ==> t.bytes[i] == [i])
    && |t.two| == 100 && (forall i :: 0 <= i < 100 ==> t.two[i] == Two(i))
    && |t.three| == 1000 && (forall i :: 0 <= i < 1000 ==> t.three[i] == Three(i))
    && |t.four| == 40000 && (forall i :: 0 <= i < 10000 ==> t.four[4 * i..4 * i + 4] == Four(i))
  }

  /** init: all tables. */
  method Init() returns (t: Tables)
    ensures Filled(t)
  {
    hide Two, Three, Four;
    var bytes := FillBytes();
    var two := FillTwo();
    var three := FillThree();
    var four := FillFour();
    t := Tables(bytes, two, three, four);
  }

  /** The strings of one byte, cut from one string of all bytes. */
  method FillBytes() returns (r: seq<Bytes>)
    ensures |r| == 256 && forall i :: 0 <= i < 256 ==> r[i] == [i]
  {
    var raw := new Byte[256];
    for i := 0 to 256
      invariant forall k :: 0 <= k < i ==> raw[k] == k
    {
      raw[i] := i;
    }
    r := [];
    for i := 0 to 256
      invariant |r| == i && forall k :: 0 <= k < i ==> r[k] == [k]
    {
      r := r + [raw[i..i + 1]];
    }
  }

  /** The strings of two digits, cut from one flat array. */
  method FillTwo() returns (r: seq<Bytes>)
    ensures |r| == 100 && forall i :: 0 <= i < 100 ==> r[i] == Two(i)
  {
    var raw := new Byte[200];
    for i := 0 to 100
      invariant forall k :: 0 <= k < i ==> raw[2 * k] == 48 + k / 10 && raw[2 * k + 1] == 48 + k % 10
    {
      raw[2 * i], raw[2 * i + 1] := 48 + i / 10, 48 + i % 10;
    }
    r := [];
    for i := 0 to 100
      invariant |r| == i && forall k :: 0 <= k < i ==> r[k] == Two(k)
    {
      assert raw[2 * i..2 * i + 2] == [raw[2 * i], raw[2 * i + 1]];
      r := r + [raw[2 * i..2 * i + 2]];
    }
  }

  /** The strings of three digits, in the same way. */
  method FillThree() returns (r: seq<Bytes>)
    ensures |r| == 1000 && forall i :: 0 <= i < 1000 ==> r[i] == Three(i)
  {
    var raw := new Byte[3000];
    for i := 0 to 1000
      invariant forall k :: 0 <= k < i ==> ThreeAt(raw[..], k)
    {
      ghost var before := raw[..];
      raw[3 * i], raw[3 * i + 1], raw[3 * i + 2] := 48 + i / 100, 48 + i / 10 % 10, 48 + i % 10;
      forall k | 0 <= k < i
        ensures ThreeAt(raw[..], k)
      {
        assert ThreeAt(before, k);
      }
    }
    var all := raw[..];
    r := [];
    for i := 0 to 1000
      invariant |r| == i && forall k :: 0 <= k < i ==> r[k] == Three(k)
    {
      assert ThreeAt(all, i);
      r := r + [all[3 * i..3 * i + 3]];
    }
  }

  /** The three places of number `k` hold its digits. */
  ghost predicate ThreeAt(all: Bytes, k: nat) {
    && 3 * k + 2 < |all| && all[3 * k] == 48 + k / 100 && all[3 * k + 1] == 48 + k / 10 % 10
    && all[3 * k + 2] == 48 + k % 10
  }

  /** The flat table fourDigitsAll. */
  method FillFour() returns (all: Bytes)
    ensures |all| == 40000 && forall i :: 0 <= i < 10000 ==> all[4 * i..4 * i + 4] == Four(i)
  {
    var raw := new Byte[40000];
    for i := 0 to 10000
      invariant forall k :: 0 <= k < i ==> FourAt(raw[..], k)
    {
      ghost var before := raw[..];
      raw[4 * i], raw[4 * i + 1] := 48 + i / 1000, 48 + i / 100 % 10;
      raw[4 * i + 2], raw[4 * i + 3] := 48 + i / 10 % 10, 48 + i % 10;
      forall k | 0 <= k < i
        ensures FourAt(raw[..], k)
      {
        assert FourAt(before, k);
      }
    }
    all := raw[..];
    forall i | 0 <= i < 10000
      ensures all[4 * i..4 * i + 4] == Four(i)
    {
      assert FourAt(all, i);
    }
  }

  /** The four places of number `k` hold its digits. */
  ghost predicate FourAt(all: Bytes, k: nat) {
    && 4 * k + 3 < |all| && all[4 * k] == 48 + k / 1000 && all[4 * k + 1] == 48 + k / 100 % 10
    && all[4 * k + 2] == 48 + k / 10 % 10 && all[4 * k + 3] == 48 + k % 10
  }

  /** c - '0' on bytes, which wraps around. */
  function Digit(c: Byte): (d: Byte)
    ensures d < 10 <==> 48 <= c < 58
    ensures d < 10 ==> c == 48 + d
  {
    (c + 208) % 256
  }

  /** parseTwoASCIIDigits. */
  function ParseTwo(c0: Byte, c1: Byte): (r: Option<nat>)
    ensures r.Some? ==> r.value < 100 && Two(r.value) == [c0, c1]
    ensures r.Some? <==> 48 <= c0 < 58 && 48 <= c1 < 58
  {
    var d0, d1 := Digit(c0), Digit(c1);
    if d0 < 10 && d1 < 10 then Some(10 * (d0 as int) + d1) else None
  }

  /** parseThreeASCIIDigits. */
  function ParseThree(c0: Byte, c1: Byte, c2: Byte): (r: Option<nat>)
    ensures r.Some? ==> r.value < 1000 && Three(r.value) == [c0, c1, c2]
    ensures r.Some? <==> 48 <= c0 < 58 && 48 <= c1 < 58 && 48 <= c2 < 58
  {
    var d0: int, d1: int, d2: int := Digit(c0), Digit(c1), Digit(c2);
    if d0 < 10 && d1 < 10 && d2 < 10 then ThreeDigits(d0, d1, d2); Some(100 * d0 + 10 * d1 + d2) else None
  }

  /** parseFourASCIIDigits. */
  function ParseFour(c0: Byte, c1: Byte, c2: Byte, c3: Byte): (r: Option<nat>)
    ensures r.Some? ==> r.value < 10000 && Four(r.value) == [c0, c1, c2, c3]
    ensures r.Some? <==> 48 <= c0 < 58 && 48 <= c1 < 58 && 48 <= c2 < 58 && 48 <= c3 < 58
  {
    var d0: int, d1: int, d2: int, d3: int := Digit(c0), Digit(c1), Digit(c2), Digit(c3);
    if d0 < 10 && d1 < 10 && d2 < 10 && d3 < 10 then
      FourDigits(d0, d1, d2, d3);
      Some(1000 * d0 + 100 * d1 + 10 * d2 + d3)
    else None
  }

  lemma ThreeDigits(d0: int, d1: int, d2: int)
    requires 0 <= d0 < 10 && 0 <= d1 < 10 && 0 <= d2 < 10
    ensures var i := 100 * d0 + 10 * d1 + d2; i < 1000 && i / 100 == d0 && i / 10 % 10 == d1 && i % 10 == d2
  {
    var i := 100 * d0 + 10 * d1 + d2;
    assert i / 10 == 10 * d0 + d1;
  }

  lemma FourDigits(d0: int, d1: int, d2: int, d3: int)
    requires 0 <= d0 < 10 && 0 <= d1 < 10 && 0 <= d2 < 10 && 0 <= d3 < 10
    ensures var i := 1000 * d0 + 100 * d1 + 10 * d2 + d3;
            i < 10000 && i / 1000 == d0 && i / 100 % 10 == d1 && i / 10 % 10 == d2 && i % 10 == d3
  {
    var i := 1000 * d0 + 100 * d1 + 10 * d2 + d3;
    assert i / 10 == 100 * d0 + 10 * d1 + d2 && i / 100 == 10 * d0 + d1;
  }

  /** clonePrefix: a byte or a short digit string comes from a table, anything else is copied. */
  function Clone(t: Tables, s: Bytes): (r: Bytes)
    requires Filled(t)
    ensures r == s
  {
    if s == [] then []
    else if |s| == 1 then t.bytes[s[0]]
    else if |s| == 2 && ParseTwo(s[0], s[1]).Some? then t.two[ParseTwo(s[0], s[1]).value]
    else if |s| == 3 && ParseThree(s[0], s[1], s[2]).Some? then t.three[ParseThree(s[0], s[1], s[2]).value]
    else if |s| == 4 && ParseFour(s[0], s[1], s[2], s[3]).Some? then
      var i := ParseFour(s[0], s[1], s[2], s[3]).value;
      t.four[4 * i..4 * i + 4]
    else s
  }

  /** concatPrefix: the digits are picked from both parts before they are looked up. */
  function Concat(t: Tables, a: Bytes, b: Bytes): (r: Bytes)
    requires Filled(t)
    ensures r == a + b
  {
    var n := |a| + |b|;
    if n == 2 && |a| == 1 then
      var i := ParseTwo(a[0], b[0]);
      if i.Some? then assert a + b == [a[0], b[0]]; t.two[i.value] else a + b
    else if n == 3 && 0 < |a| && 0 < |b| then
      var c1, c2 := if |a| == 2 then a[1] else b[0], b[|b| - 1];
      var i := ParseThree(a[0], c1, c2);
      if i.Some? then assert a + b == [a[0], c1, c2]; t.three[i.value] else a + b
    else if n == 4 && 0 < |a| && 0 < |b| then
      var s := Pick(a, b);
      var i := ParseFour(s[0], s[1], s[2], s[3]);
      if i.Some? then assert a + b == s; t.four[4 * i.value..4 * i.value + 4] else a + b
    else a + b
  }

  /** concatFourDigitPrefix: the four bytes of both parts. */
  function Pick(a: Bytes, b: Bytes): (s: Bytes)
    requires |a| + |b| == 4 && 0 < |a| && 0 < |b|
    ensures s == a + b && |s| == 4
  {
    if |a| == 1 then [a[0], b[0], b[1], b[2]]
    else if |a| == 2 then [a[0], a[1], b[0], b[1]]
    else [a[0], a[1], a[2], b[0]]
  }
}
