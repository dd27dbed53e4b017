/**
 Canonical Huffman codes (section 3.2.2 of RFC 1951): codes of one length are
 consecutive in symbol order and follow those of all shorter lengths. A code value
 is defined here by what precedes it, not by the counting algorithm; the algorithm
 is LengthsToSymbols.
 */
module CanonicalCode {
  import opened Optional
  import opened Arith
  import opened Bits
  import opened CodeLengths
  import opened MinimumRedundancy

  /** How many of the first n symbols have length l. */
  function CountLength(lens: seq<nat>, l: nat, n: nat): (r: nat)
    requires n <= |lens|
    ensures r <= n
  {
    if n == 0 then 0 else CountLength(lens, l, n - 1) + (if lens[n - 1] == l then 1 else 0)
  }

  /** The code space, in units of length l, taken by codes shorter than l. */
  function Start(lens: seq<nat>, l: nat, n: nat): nat
    requires n <= |lens|
  {
    if n == 0 then 0
    else Start(lens, l, n - 1) + (if 0 < lens[n - 1] < l then Pow2(l - lens[n - 1]) else 0)
  }

  /** The code of a used symbol. */
  function Code(lens: seq<nat>, s: nat): nat
    requires s < |lens|
  {
    Start(lens, lens[s], |lens|) + CountLength(lens, lens[s], s)
  }

  function CodeBits(lens: seq<nat>, s: nat): (r: BitString)
    requires s < |lens|
    ensures |r| == lens[s]
  {
    HighFirst(Code(lens, s), lens[s])
  }

  // ----- The recurrence of the RFC -------------------------------------------------

  lemma {:induction false} StartStep(lens: seq<nat>, l: nat, n: nat)
    requires n <= |lens| && l >= 1
    ensures Start(lens, l + 1, n) == 2 * (Start(lens, l, n) + CountLength(lens, l, n))
  {
    if n > 0 {
      StartStep(lens, l, n - 1);
      var x := lens[n - 1];
      if 0 < x < l {
        assert Pow2(l + 1 - x) == 2 * Pow2(l - x);
      }
    }
  }

  lemma {:induction false} StartOne(lens: seq<nat>, n: nat)
    requires n <= |lens|
    ensures Start(lens, 1, n) == 0
  {
    if n > 0 {
      StartOne(lens, n - 1);
    }
  }

  /** Codes of length l + d start after everything of length at most l. */
  lemma {:induction false} StartGrows(lens: seq<nat>, l: nat, d: nat)
    requires l >= 1 && d >= 1
    ensures Start(lens, l + d, |lens|) >= Scale(Start(lens, l, |lens|) + CountLength(lens, l, |lens|), d)
    decreases d
  {
    StartStep(lens, l + d - 1, |lens|);
    if d > 1 {
      StartGrows(lens, l, d - 1);
    }
  }

  lemma {:induction false} CountMonotone(lens: seq<nat>, l: nat, i: nat, j: nat)
    requires i <= j <= |lens|
    ensures CountLength(lens, l, i) <= CountLength(lens, l, j)
    ensures i < j && lens[i] == l ==> CountLength(lens, l, i) < CountLength(lens, l, j)
  {
    if i < j {
      CountMonotone(lens, l, i, j - 1);
    }
  }

  // ----- Codes fit and are prefix free ----------------------------------------------

  ghost predicate KraftAtMostOne(lens: seq<nat>, maxbits: nat) {
    Bounded(lens, maxbits) && Kraft(lens, maxbits, |lens|) <= Pow2(maxbits)
  }

  lemma {:induction false} StartWithinKraft(lens: seq<nat>, maxbits: nat, l: nat, n: nat)
    requires Bounded(lens, maxbits) && n <= |lens| && 1 <= l <= maxbits
    ensures Scale(Start(lens, l, n) + CountLength(lens, l, n), maxbits - l) <= Kraft(lens, maxbits, n)
  {
    if n == 0 {
      ScaleAdd(0, 0, maxbits - l);
    } else {
      StartWithinKraft(lens, maxbits, l, n - 1);
      var x := lens[n - 1];
      var before := Start(lens, l, n - 1) + CountLength(lens, l, n - 1);
      if 0 < x <= l {
        ScaleAdd(before, Pow2(l - x), maxbits - l);
        ScalePow2(l - x, maxbits - l);
        assert Start(lens, l, n) + CountLength(lens, l, n) == before + Pow2(l - x);
      }
    }
  }

  lemma {:induction false} ScalePow2(a: nat, d: nat)
    ensures Scale(Pow2(a), d) == Pow2(a + d)
  {
    if d > 0 {
      ScalePow2(a, d - 1);
    }
  }

  /** A used code fits in its length. */
  lemma {:induction false} CodeFits(lens: seq<nat>, maxbits: nat, s: nat)
    requires KraftAtMostOne(lens, maxbits) && s < |lens| && lens[s] > 0
    ensures Code(lens, s) < Pow2(lens[s])
  {
    var l := lens[s];
    StartWithinKraft(lens, maxbits, l, |lens|);
    CountMonotone(lens, l, s, |lens|);
    var c := Start(lens, l, |lens|) + CountLength(lens, l, |lens|);
    ScalePow2(l, maxbits - l);
    ScaleMonotone(Pow2(l), c, maxbits - l);
  }

  /** No used code is a prefix of another: the leading bits of a longer code exceed
      every shorter code. */
  lemma {:induction false} PrefixFree(lens: seq<nat>, s: nat, t: nat)
    requires s < |lens| && t < |lens| && 0 < lens[t] < lens[s]
    ensures Shift(Code(lens, s), lens[s] - lens[t]) > Code(lens, t)
  {
    var d := lens[s] - lens[t];
    StartGrows(lens, lens[t], d);
    CountMonotone(lens, lens[t], t, |lens|);
    var c := Start(lens, lens[t], |lens|) + CountLength(lens, lens[t], |lens|);
    ScaleMonotone(c, Code(lens, t) + 1, d);
    ShiftGe(Code(lens, s), Code(lens, t) + 1, d);
  }

  /** Codes of one length ascend with the symbol. */
  lemma {:induction false} CodesAscend(lens: seq<nat>, s: nat, t: nat)
    requires s < t < |lens| && lens[s] == lens[t]
    ensures Code(lens, s) < Code(lens, t)
  {
    CountMonotone(lens, lens[s], s, t);
  }

  // ----- Decoding one symbol ------------------------------------------------------------

  /** The symbol among the first n whose code is `code` of length l. */
  function FindSymbol(lens: seq<nat>, l: nat, code: nat, n: nat): (r: Option<nat>)
    requires n <= |lens|
    ensures r.Some? ==> r.value < n && lens[r.value] == l && Code(lens, r.value) == code
    ensures r.None? ==> forall t | 0 <= t < n && lens[t] == l :: Code(lens, t) != code
  {
    if n == 0 then None
    else if lens[n - 1] == l && Code(lens, n - 1) == code then Some(n - 1)
    else FindSymbol(lens, l, code, n - 1)
  }

  /** Reads code bits from position k on until they form a code. */
  function DecodeFrom(lens: seq<nat>, bits: BitString, k: nat, acc: nat): (r: Option<(nat, BitString)>)
    requires k <= |bits|
    ensures r.Some? ==> r.value.0 < |lens| && |r.value.1| < |bits|
    decreases |bits| - k
  {
    if k == |bits| then None else
    var acc' := 2 * acc + BitValue(bits[k]);
    match FindSymbol(lens, k + 1, acc', |lens|)
    case Some(s) => Some((s, bits[k + 1..]))
    case None => DecodeFrom(lens, bits, k + 1, acc')
  }

  function DecodeSymbol(lens: seq<nat>, bits: BitString): (r: Option<(nat, BitString)>)
    ensures r.Some? ==> r.value.0 < |lens| && |r.value.1| < |bits|
  {
    DecodeFrom(lens, bits, 0, 0)
  }

  lemma {:induction false} DecodeFromCode(lens: seq<nat>, maxbits: nat, s: nat, rest: BitString, k: nat)
    requires KraftAtMostOne(lens, maxbits) && s < |lens| && k < lens[s]
    ensures DecodeFrom(lens, CodeBits(lens, s) + rest, k, Shift(Code(lens, s), lens[s] - k)) == Some((s, rest))
    decreases lens[s] - k
  {
    hide Code, CodeBits, KraftAtMostOne, Shift, HighFirst, FindSymbol;
    var l, c := lens[s], Code(lens, s);
    var bits := CodeBits(lens, s) + rest;
    NextCodeBit(lens, s, rest, k);
    var acc' := Shift(c, l - k - 1);
    var found := FindSymbol(lens, k + 1, acc', |lens|);
    if k + 1 < l {
      if found.Some? {
        PrefixFree(lens, s, found.value);
        assert false;
      }
      DecodeFromCode(lens, maxbits, s, rest, k + 1);
    } else {
      NoShift(c);
      UniqueCode(lens, s, found.value);
      assert bits[k + 1..] == rest;
    }
  }

  lemma {:induction false} NextCodeBit(lens: seq<nat>, s: nat, rest: BitString, k: nat)
    requires s < |lens| && k < lens[s]
    ensures Shift(Code(lens, s), lens[s] - k - 1) ==
            2 * Shift(Code(lens, s), lens[s] - k) + BitValue((CodeBits(lens, s) + rest)[k])
  {
    hide Code, Shift, HighFirst;
    HighFirstAt(Code(lens, s), lens[s], k);
    ShiftStep(Code(lens, s), lens[s] - k - 1);
  }

  lemma {:induction false} UniqueCode(lens: seq<nat>, s: nat, t: nat)
    requires s < |lens| && t < |lens| && lens[s] == lens[t] && Code(lens, s) == Code(lens, t)
    ensures s == t
  {
    if s < t {
      CodesAscend(lens, s, t);
    } else if t < s {
      CodesAscend(lens, t, s);
    }
  }

  /** Decoding a code restores its symbol and consumes just its bits. */
  lemma {:induction false} DecodeEncoded(lens: seq<nat>, maxbits: nat, s: nat, rest: BitString)
    requires KraftAtMostOne(lens, maxbits) && s < |lens| && lens[s] > 0
    ensures DecodeSymbol(lens, CodeBits(lens, s) + rest) == Some((s, rest))
  {
    CodeFits(lens, maxbits, s);
    ShiftAll(Code(lens, s), lens[s]);
    DecodeFromCode(lens, maxbits, s, rest, 0);
  }

  /** As bit strings: no used code is a prefix of another one. */
  lemma {:induction false} NoPrefix(lens: seq<nat>, maxbits: nat, s: nat, t: nat)
    requires KraftAtMostOne(lens, maxbits) && s < |lens| && t < |lens| && lens[s] > 0 && lens[t] > 0 && s != t
    ensures !(CodeBits(lens, t) <= CodeBits(lens, s))
  {
    hide DecodeSymbol, KraftAtMostOne, CodeBits;
    var bits := CodeBits(lens, s);
    DecodeEncoded(lens, maxbits, s, []);
    assert bits + [] == bits;
    if CodeBits(lens, t) <= bits {
      var rest := bits[|CodeBits(lens, t)|..];
      assert CodeBits(lens, t) + rest == bits;
      DecodeEncoded(lens, maxbits, t, rest);
    }
  }

  // ----- The counting algorithm ------------------------------------------------------------

  /** Bit lengths to code values: counts per length, first code per length, then
      consecutive values. All values stay within maxbits bits when the Kraft sum is
      at most one, so 32-bit arithmetic never overflows. */
  method LengthsToSymbols(lengths: seq<nat>, maxbits: nat) returns (symbols: seq<nat>)
    requires Bounded(lengths, maxbits)
    ensures |symbols| == |lengths|
    ensures forall i | 0 <= i < |lengths| ::
              symbols[i] == if lengths[i] == 0 then 0 else Code(lengths, i)
  {
    var blCount := CountLengths(lengths, maxbits);
    var nextCode := FirstCodes(lengths, maxbits, blCount);
    symbols := seq(|lengths|, _ => 0);
    for i := 0 to |lengths|
      invariant |symbols| == |lengths|
      invariant forall l | 1 <= l <= maxbits ::
                  nextCode[l] == Start(lengths, l, |lengths|) + CountLength(lengths, l, i)
      invariant forall k | 0 <= k < i ::
                  symbols[k] == if lengths[k] == 0 then 0 else Code(lengths, k)
      invariant forall k | i <= k < |lengths| :: symbols[k] == 0
    {
      var len := lengths[i];
      if len != 0 {
        symbols := symbols[i := nextCode[len]];
        nextCode[len] := nextCode[len] + 1;
      }
    }
  }

  method CountLengths(lengths: seq<nat>, maxbits: nat) returns (blCount: array<nat>)
    requires Bounded(lengths, maxbits)
    ensures fresh(blCount) && blCount.Length == maxbits + 1
    ensures forall l | 0 <= l <= maxbits :: blCount[l] == CountLength(lengths, l, |lengths|)
  {
    blCount := new nat[maxbits + 1](_ => 0);
    for i := 0 to |lengths|
      invariant forall l | 0 <= l <= maxbits :: blCount[l] == CountLength(lengths, l, i)
    {
      blCount[lengths[i]] := blCount[lengths[i]] + 1;
    }
  }

  method FirstCodes(lengths: seq<nat>, maxbits: nat, blCount: array<nat>) returns (nextCode: array<nat>)
    requires blCount.Length == maxbits + 1
    requires forall l | 0 <= l <= maxbits :: blCount[l] == CountLength(lengths, l, |lengths|)
    modifies blCount
    ensures fresh(nextCode) && nextCode.Length == maxbits + 1
    ensures forall l | 1 <= l <= maxbits :: nextCode[l] == Start(lengths, l, |lengths|)
  {
    nextCode := new nat[maxbits + 1](_ => 0);
    var code := 0;
    blCount[0] := 0;
    for bits := 1 to maxbits + 1
      invariant forall l | 1 <= l <= maxbits :: blCount[l] == CountLength(lengths, l, |lengths|)
      invariant blCount[0] == 0
      invariant bits > 1 ==> code == Start(lengths, bits - 1, |lengths|)
      invariant bits == 1 ==> code == 0
      invariant forall l | 1 <= l < bits :: nextCode[l] == Start(lengths, l, |lengths|)
    {
      if bits == 1 {
        StartOne(lengths, |lengths|);
      } else {
        StartStep(lengths, bits - 1, |lengths|);
      }
      code := (code + blCount[bits - 1]) * 2;
      nextCode[bits] := code;
    }
  }
}
