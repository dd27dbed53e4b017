/** Powers of two and prefix sums, shared by the code-length and bit-level modules. */
module Arith {

  /** x * 2^d, written so that reasoning about it stays linear. */
  function Scale(x: int, d: nat): int {
    if d == 0 then x else 2 * Scale(x, d - 1)
  }

  function Pow2(d: nat): (r: nat)
    ensures r >= 1
  {
    if d == 0 then 1 else 2 * Pow2(d - 1)
  }

  lemma ScaleOne(d: nat)
    ensures Scale(1, d) == Pow2(d)
  {
  }

  lemma ScaleAdd(x: int, y: int, d: nat)
    ensures Scale(x + y, d) == Scale(x, d) + Scale(y, d)
  {
    if d > 0 {
      ScaleAdd(x, y, d - 1);
    }
  }

  lemma ScaleNonNegative(x: nat, d: nat)
    ensures Scale(x, d) >= x
  {
  }

  lemma ScaleMonotone(x: int, y: int, d: nat)
    ensures x < y ==> Scale(x, d) < Scale(y, d)
    ensures x == y ==> Scale(x, d) == Scale(y, d)
    ensures Scale(x, d) < Scale(y, d) ==> x < y
  {
    if d > 0 {
      ScaleMonotone(x, y, d - 1);
    }
  }

  lemma Pow2Monotone(a: nat, b: nat)
    requires a <= b
    ensures Pow2(a) <= Pow2(b)
  {
    if a < b {
      Pow2Monotone(a, b - 1);
    }
  }

  /** The sum of the first `k` elements. */
  function PrefixSum(s: seq<nat>, k: nat): nat
    requires k <= |s|
  {
    if k == 0 then 0 else PrefixSum(s, k - 1) + s[k - 1]
  }

  function Min(a: int, b: int): int {
    if a < b then a else b
  }
}
