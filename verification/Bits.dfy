/** Bit strings in the two orders DEFLATE uses, and what they stand for. */
module Bits {
  import opened Arith

  type Bit = bool
  type BitString = seq<bool>

  function BitValue(b: Bit): nat {
    if b then 1 else 0
  }

  /** The `n` low bits of v, least significant first (header fields and extra bits). */
  function LowFirst(v: nat, n: nat): (r: BitString)
    ensures |r| == n
  {
    if n == 0 then [] else [v % 2 == 1] + LowFirst(v / 2, n - 1)
  }

  /** The `n` low bits of v, most significant first (Huffman codes). */
  function HighFirst(v: nat, n: nat): (r: BitString)
    ensures |r| == n
  {
    if n == 0 then [] else HighFirst(v / 2, n - 1) + [v % 2 == 1]
  }

  /** The number whose least significant bit comes first. */
  function FromLowFirst(bits: BitString): nat {
    if bits == [] then 0 else BitValue(bits[0]) + 2 * FromLowFirst(bits[1..])
  }

  /** v divided by 2^d. */
  function Shift(v: nat, d: nat): nat {
    if d == 0 then v else Shift(v / 2, d - 1)
  }

  lemma {:induction false} LowFirstRoundTrip(v: nat, n: nat)
    requires v < Pow2(n)
    ensures FromLowFirst(LowFirst(v, n)) == v
  {
    if n > 0 {
      LowFirstRoundTrip(v / 2, n - 1);
      assert LowFirst(v, n)[1..] == LowFirst(v / 2, n - 1);
    }
  }

  lemma {:induction false} FromLowFirstRange(bits: BitString)
    ensures FromLowFirst(bits) < Pow2(|bits|)
  {
    if bits != [] {
      FromLowFirstRange(bits[1..]);
    }
  }

  lemma {:induction false} FromLowFirstRoundTrip(bits: BitString)
    ensures LowFirst(FromLowFirst(bits), |bits|) == bits
  {
    if bits != [] {
      FromLowFirstRoundTrip(bits[1..]);
    }
  }

  lemma {:induction false} LowFirstAt(v: nat, n: nat, i: nat)
    requires i < n
    ensures LowFirst(v, n)[i] == (Shift(v, i) % 2 == 1)
  {
    if i > 0 {
      LowFirstAt(v / 2, n - 1, i - 1);
    }
  }

  lemma {:induction false} HighFirstAt(v: nat, n: nat, i: nat)
    requires i < n
    ensures HighFirst(v, n)[i] == (Shift(v, n - i - 1) % 2 == 1)
  {
    if i < n - 1 {
      HighFirstAt(v / 2, n - 1, i);
    }
  }

  lemma {:induction false} NoShift(v: nat)
    ensures Shift(v, 0) == v
  {
  }

  lemma {:induction false} ShiftStep(v: nat, d: nat)
    ensures Shift(v, d + 1) == Shift(v, d) / 2
  {
    if d > 0 {
      ShiftStep(v / 2, d - 1);
    }
  }

  lemma {:induction false} ShiftAll(v: nat, d: nat)
    requires v < Pow2(d)
    ensures Shift(v, d) == 0
  {
    if d > 0 {
      ShiftAll(v / 2, d - 1);
    }
  }

  lemma {:induction false} ShiftGe(v: nat, y: nat, d: nat)
    requires Scale(y, d) <= v
    ensures Shift(v, d) >= y
  {
    if d > 0 {
      ShiftGe(v / 2, y, d - 1);
    }
  }
}
