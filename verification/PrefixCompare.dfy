/**
 The fast string comparison of pressure.go: the longest common prefix of two strings by 8-byte words.
 */
module PrefixCompare {
  type Str = seq<bv8>

  // ---------------------------------------------------------------------------------------------
  // Common prefixes
  // ---------------------------------------------------------------------------------------------

  /** binary.LittleEndian.Uint64. */
  function Word(s: Str): bv64
    requires |s| == 8
  {
    (s[0] as bv64) | ((s[1] as bv64) << 8) | ((s[2] as bv64) << 16) | ((s[3] as bv64) << 24) |
    ((s[4] as bv64) << 32) | ((s[5] as bv64) << 40) | ((s[6] as bv64) << 48) | ((s[7] as bv64) << 56)
  }

  /** bits.TrailingZeros64, looking at the lowest `n` bits. */
  function TrailingZeros(x: bv64, n: nat): (r: nat)
    ensures r <= n
  {
    if n == 0 || x & 1 == 1 then 0 else 1 + TrailingZeros(x >> 1, n - 1)
  }

  lemma ZeroBits2(x: bv64, n: nat)
    requires x & 3 == 0 && n >= 2
    ensures TrailingZeros(x, n) == 2 + TrailingZeros(x >> 2, n - 2)
  {
    assert x & 1 == 0 && (x >> 1) & 1 == 0 && (x >> 1) >> 1 == x >> 2;
  }

  lemma ZeroBits4(x: bv64, n: nat)
    requires x & 0xF == 0 && n >= 4
    ensures TrailingZeros(x, n) == 4 + TrailingZeros(x >> 4, n - 4)
  {
    assert x & 3 == 0 && (x >> 2) & 3 == 0 && (x >> 2) >> 2 == x >> 4;
    ZeroBits2(x, n);
    ZeroBits2(x >> 2, n - 2);
  }

  /** Eight zero bits add eight to the count. */
  lemma ZeroByte(x: bv64, n: nat)
    requires x & 0xFF == 0 && n >= 8
    ensures TrailingZeros(x, n) == 8 + TrailingZeros(x >> 8, n - 8)
  {
    assert x & 0xF == 0 && (x >> 4) & 0xF == 0 && (x >> 4) >> 4 == x >> 8;
    ZeroBits4(x, n);
    ZeroBits4(x >> 4, n - 4);
  }

  lemma SomeBits2(x: bv64, n: nat)
    requires x & 3 != 0
    ensures TrailingZeros(x, n) < 2
  {
    assert x & 1 == 1 || (x >> 1) & 1 == 1;
  }

  lemma SomeBits4(x: bv64, n: nat)
    requires x & 0xF != 0 && n >= 4
    ensures TrailingZeros(x, n) < 4
  {
    if x & 3 != 0 {
      SomeBits2(x, n);
    } else {
      assert (x >> 2) & 3 != 0;
      ZeroBits2(x, n);
      SomeBits2(x >> 2, n - 2);
    }
  }

  /** A nonzero byte ends the count within it. */
  lemma SomeByte(x: bv64, n: nat)
    requires x & 0xFF != 0 && n >= 8
    ensures TrailingZeros(x, n) < 8
  {
    if x & 0xF != 0 {
      SomeBits4(x, n);
    } else {
      assert (x >> 4) & 0xF != 0;
      ZeroBits4(x, n);
      SomeBits4(x >> 4, n - 4);
    }
  }

  /** Byte `k` of the difference of two words is the difference of their bytes `k`. */
  lemma LowBytes(a: Str, b: Str)
    requires |a| == 8 && |b| == 8
    ensures var x := Word(a) ^ Word(b);
            && (x & 0xFF == 0 <==> a[0] == b[0]) && ((x >> 8) & 0xFF == 0 <==> a[1] == b[1])
            && ((x >> 16) & 0xFF == 0 <==> a[2] == b[2]) && ((x >> 24) & 0xFF == 0 <==> a[3] == b[3])
  {
  }

  lemma HighBytes(a: Str, b: Str)
    requires |a| == 8 && |b| == 8
    ensures var x := Word(a) ^ Word(b);
            && ((x >> 32) & 0xFF == 0 <==> a[4] == b[4]) && ((x >> 40) & 0xFF == 0 <==> a[5] == b[5])
            && ((x >> 48) & 0xFF == 0 <==> a[6] == b[6]) && ((x >> 56) & 0xFF == 0 <==> a[7] == b[7])
  {
  }

  /** Counting `z` zero bits from byte `k` on leads to the first byte that differs. */
  predicate Leads(a: Str, b: Str, k: nat, z: nat)
    requires |a| == 8 && |b| == 8
  {
    var j := k + z / 8;
    j < 8 && a[j] != b[j] && forall i :: k <= i < j ==> a[i] == b[i]
  }

  predicate Differs(a: Str, b: Str, k: nat)
    requires |a| == 8 && |b| == 8
  {
    exists i :: k <= i < 8 && a[i] != b[i]
  }

  predicate ZeroLow(y: bv64) {
    y & 0xFF == 0
  }

  function Shr8(y: bv64): bv64 {
    y >> 8
  }

  /** The words of a difference shifted byte by byte. */
  predicate Shifted(a: Str, b: Str, ys: seq<bv64>) {
    && |a| == 8 && |b| == 8 && |ys| == 8
    && (forall k :: 0 <= k < 8 ==> (ZeroLow(ys[k]) <==> a[k] == b[k]))
    && (forall k :: 0 <= k < 7 ==> Shr8(ys[k]) == ys[k + 1])
  }

  lemma {:induction false} CountLeads(a: Str, b: Str, ys: seq<bv64>, k: nat)
    requires Shifted(a, b, ys) && k < 8
    ensures Differs(a, b, k) ==> Leads(a, b, k, TrailingZeros(ys[k], 64 - 8 * k))
    decreases 8 - k
  {
    hide TrailingZeros, ZeroLow, Shr8;
    if a[k] != b[k] {
      SomeByteHere(ys[k], 64 - 8 * k);
    } else {
      ZeroByteHere(ys[k], 64 - 8 * k);
      if k < 7 {
        CountLeads(a, b, ys, k + 1);
      }
    }
  }

  lemma SomeByteHere(y: bv64, n: nat)
    requires !ZeroLow(y) && n >= 8
    ensures TrailingZeros(y, n) < 8
  {
    SomeByte(y, n);
  }

  lemma ZeroByteHere(y: bv64, n: nat)
    requires ZeroLow(y) && n >= 8
    ensures TrailingZeros(y, n) == 8 + TrailingZeros(Shr8(y), n - 8)
  {
    ZeroByte(y, n);
  }

  function Shifts(x: bv64): (ys: seq<bv64>)
    ensures |ys| == 8 && ys[0] == x
  {
    [x, x >> 8, x >> 16, x >> 24, x >> 32, x >> 40, x >> 48, x >> 56]
  }

  lemma DiffShifted(a: Str, b: Str)
    requires |a| == 8 && |b| == 8
    ensures Shifted(a, b, Shifts(Word(a) ^ Word(b)))
  {
    hide Word, ZeroLow, Shr8, Shifts;
    var x := Word(a) ^ Word(b);
    LowFacts(a, b);
    HighFacts(a, b);
    ShiftFacts(x);
  }

  lemma LowFacts(a: Str, b: Str)
    requires |a| == 8 && |b| == 8
    ensures var ys := Shifts(Word(a) ^ Word(b));
            && |ys| == 8 && (ZeroLow(ys[0]) <==> a[0] == b[0]) && (ZeroLow(ys[1]) <==> a[1] == b[1])
            && (ZeroLow(ys[2]) <==> a[2] == b[2]) && (ZeroLow(ys[3]) <==> a[3] == b[3])
  {
    LowBytes(a, b);
    hide Word;
  }

  lemma HighFacts(a: Str, b: Str)
    requires |a| == 8 && |b| == 8
    ensures var ys := Shifts(Word(a) ^ Word(b));
            && |ys| == 8 && (ZeroLow(ys[4]) <==> a[4] == b[4]) && (ZeroLow(ys[5]) <==> a[5] == b[5])
            && (ZeroLow(ys[6]) <==> a[6] == b[6]) && (ZeroLow(ys[7]) <==> a[7] == b[7])
  {
    HighBytes(a, b);
    hide Word;
  }

  lemma ShiftFacts(x: bv64)
    ensures var ys := Shifts(x);
            && Shr8(ys[0]) == ys[1] && Shr8(ys[1]) == ys[2] && Shr8(ys[2]) == ys[3] && Shr8(ys[3]) == ys[4]
            && Shr8(ys[4]) == ys[5] && Shr8(ys[5]) == ys[6] && Shr8(ys[6]) == ys[7]
  {
  }

  /** The first differing byte of two words. */
  lemma WordDiff(a: Str, b: Str)
    requires |a| == 8 && |b| == 8 && Word(a) ^ Word(b) != 0
    ensures Leads(a, b, 0, TrailingZeros(Word(a) ^ Word(b), 64))
  {
    hide Word, TrailingZeros, Leads;
    SomewhereDiffers(a, b);
    DiffShifted(a, b);
    CountLeads(a, b, Shifts(Word(a) ^ Word(b)), 0);
  }

  lemma SomewhereDiffers(a: Str, b: Str)
    requires |a| == 8 && |b| == 8 && Word(a) ^ Word(b) != 0
    ensures Differs(a, b, 0)
  {
    hide Word;
    assert Differs(a, b, 0) || a == b;
  }

  lemma WordSame(a: Str, b: Str)
    requires |a| == 8 && |b| == 8 && Word(a) ^ Word(b) == 0
    ensures a == b
  {
    LowBytes(a, b);
    HighBytes(a, b);
    hide Word;
    assert forall i :: 0 <= i < 8 ==> a[i] == b[i];
  }

  /** longestCommonPrefix: whole words first, then single bytes. */
  method LongestCommonPrefix(a: Str, b: Str) returns (n: nat)
    ensures n <= |a| && n <= |b| && a[..n] == b[..n]
    ensures n < |a| && n < |b| ==> a[n] != b[n]
  {
    var len := if |a| < |b| then |a| else |b|;
    var i := 0;
    if len >= 8 {
      while i <= len - 8
        invariant 0 <= i <= len && a[..i] == b[..i]
      {
        hide Word;
        var x, y := a[i..i + 8], b[i..i + 8];
        var diff := Word(x) ^ Word(y);
        if diff != 0 {
          WordDiff(x, y);
          n := i + TrailingZeros(diff, 64) / 8;
          assert forall j :: i <= j < n ==> a[j] == x[j - i] && b[j] == y[j - i];
          return;
        }
        WordSame(x, y);
        assert a[..i + 8] == a[..i] + x;
        assert b[..i + 8] == b[..i] + y;
        i := i + 8;
      }
    }
    while i < len
      invariant 0 <= i <= len && a[..i] == b[..i]
    {
      if a[i] != b[i] {
        return i;
      }
      i := i + 1;
    }
    return len;
  }
}
