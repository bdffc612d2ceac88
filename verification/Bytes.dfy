/** Keys and edge labels: Go strings are byte strings. */
module Bytes {
  type Byte = b: int | 0 <= b < 256
  type Bytes = seq<Byte>

  /** A cached value; nothing is assumed about it. */
  type Value = int

  /** Sizes and weights are 64-bit unsigned; every assignment to a variable of this type is checked for overflow. */
  type U64 = x: int | 0 <= x < 0x1_0000_0000_0000_0000

  datatype Option<+T> = None | Some(value: T)

  /** Length of the longest common prefix. */
  function Lcp(a: Bytes, b: Bytes): (n: nat)
    ensures n <= |a| && n <= |b| && a[..n] == b[..n]
    ensures n < |a| && n < |b| ==> a[n] != b[n]
  {
    if a == [] || b == [] || a[0] != b[0] then 0
    else
      assert forall k :: 0 <= k < |a| ==> a[..k + 1] == [a[0]] + a[1..][..k];
      assert forall k :: 0 <= k < |b| ==> b[..k + 1] == [b[0]] + b[1..][..k];
      1 + Lcp(a[1..], b[1..])
  }
}
