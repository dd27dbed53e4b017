/**
 A decoder for the DEFLATE format, written from sections 3.2.3 to 3.2.7 of RFC 1951
 as a function on bit strings. It is strict: like common decoders it rejects code
 sets that are over-subscribed or incomplete, except a code of a single bit. A bit string is a whole number of
 bytes, so a stored block's byte boundary is where the bits left are a multiple of 8.
 */
module Inflate {
  import opened Optional
  import opened Arith
  import opened Bits
  import opened Symbols
  import opened Lz77Store
  import opened CodeLengths
  import opened MinimumRedundancy
  import opened CanonicalCode

  type Rest<T> = Option<(T, BitString)>

  /** A field of n bits, least significant first. */
  function ReadBits(bits: BitString, n: nat): (r: Rest<nat>)
    ensures r.Some? ==> |r.value.1| == |bits| - n
  {
    if |bits| < n then None else Some((FromLowFirst(bits[..n]), bits[n..]))
  }

  lemma {:induction false} ReadBack(v: nat, n: nat, rest: BitString)
    requires v < Pow2(n)
    ensures ReadBits(LowFirst(v, n) + rest, n) == Some((v, rest))
  {
    LowFirstRoundTrip(v, n);
    assert (LowFirst(v, n) + rest)[..n] == LowFirst(v, n);
    assert (LowFirst(v, n) + rest)[n..] == rest;
  }

  predicate Complete(lens: seq<nat>, maxbits: nat) {
    (forall i | 0 <= i < |lens| :: lens[i] <= maxbits) && Kraft(lens, maxbits, |lens|) == Pow2(maxbits)
  }

  /** A code with one code word, of one bit: half the code space is not used. */
  predicate Single(lens: seq<nat>) {
    (forall i | 0 <= i < |lens| :: lens[i] <= 1) && Kraft(lens, 15, |lens|) == Pow2(14)
  }

  /** The codes a decoder takes for literals and lengths, and for distances. */
  predicate Usable(lens: seq<nat>) {
    Complete(lens, 15) || Single(lens)
  }

  /** The code of any frequencies fits the code space, and fills it when at least two
      symbols are used. */
  lemma {:induction false} CodeSpace(freqs: seq<nat>, maxbits: nat)
    requires maxbits >= 1 && Encodable(freqs, maxbits)
    ensures KraftAtMostOne(Lengths(freqs, maxbits), maxbits)
    ensures |SortedLeaves(freqs)| >= 2 ==> Complete(Lengths(freqs, maxbits), maxbits)
  {
    if |SortedLeaves(freqs)| >= 2 {
      LengthsComplete(freqs, maxbits);
    } else {
      SmallCode(freqs, maxbits);
    }
  }

  lemma {:induction false} SmallCode(freqs: seq<nat>, maxbits: nat)
    requires maxbits >= 1 && Encodable(freqs, maxbits) && |SortedLeaves(freqs)| < 2
    ensures KraftAtMostOne(Lengths(freqs, maxbits), maxbits)
  {
    var l := Lengths(freqs, maxbits);
    var ls := SortedLeaves(freqs);
    forall s | 0 <= s < |l|
      ensures l[s] == if |ls| == 1 && s == ls[0].symbol then 1 else 0
    {
    }
    SingleKraft(l, maxbits, if |ls| == 1 then ls[0].symbol else |l|, |l|);
  }

  lemma {:induction false} SingleKraft(l: seq<nat>, maxbits: nat, x: nat, n: nat)
    requires maxbits >= 1 && n <= |l| && forall s | 0 <= s < |l| :: l[s] == if s == x then 1 else 0
    ensures Bounded(l, maxbits)
    ensures Kraft(l, maxbits, n) == if x < n then Pow2(maxbits - 1) else 0
  {
    if n > 0 {
      SingleKraft(l, maxbits, x, n - 1);
    }
  }

  // ----- Stored blocks (section 3.2.4) ---------------------------------------------

  function ReadBytes(bits: BitString, n: nat): (r: Rest<seq<Byte>>)
    ensures r.Some? ==> |r.value.1| == |bits| - 8 * n && |r.value.0| == n
    decreases n
  {
    if n == 0 then Some(([], bits))
    else if |bits| < 8 then None
    else
      FromLowFirstRange(bits[..8]);
      SmallPowers();
      match ReadBytes(bits[8..], n - 1)
      case None => None
      case Some((bytes, rest)) => Some(([FromLowFirst(bits[..8]) as Byte] + bytes, rest))
  }

  function StoredBlock(bits: BitString, out: seq<Byte>): (r: Rest<seq<Byte>>)
    ensures r.Some? ==> |r.value.1| <= |bits|
  {
    match ReadBits(bits[|bits| % 8..], 16)
    case None => None
    case Some((len, bits1)) =>
      match ReadBits(bits1, 16)
      case None => None
      case Some((nlen, bits2)) =>
        if nlen != 65535 - len then None
        else match ReadBytes(bits2, len)
             case None => None
             case Some((bytes, rest)) => Some((out + bytes, rest))
  }

  // ----- Compressed data (section 3.2.5) ------------------------------------------------

  /** The distance of a match, after its length. */
  function MatchDistance(d: seq<nat>, bits: BitString): (r: Rest<nat>)
    ensures r.Some? ==> |r.value.1| <= |bits|
  {
    match DecodeSymbol(d, bits)
    case None => None
    case Some((s, bits1)) =>
      if s > 29 then None
      else match ReadBits(bits1, DistExtra(s))
           case None => None
           case Some((e, bits2)) => Some((DistBase(s) + e, bits2))
  }

  /** Literals and matches up to the end-of-block symbol. */
  function BlockData(ll: seq<nat>, d: seq<nat>, bits: BitString, out: seq<Byte>): (r: Rest<seq<Byte>>)
    ensures r.Some? ==> |r.value.1| < |bits|
    decreases |bits|
  {
    match DecodeSymbol(ll, bits)
    case None => None
    case Some((s, bits1)) =>
      if s < 256 then BlockData(ll, d, bits1, out + [s])
      else if s == 256 then Some((out, bits1))
      else if s > 285 then None
      else match ReadBits(bits1, LengthExtra(s))
           case None => None
           case Some((e, bits2)) =>
             match MatchDistance(d, bits2)
             case None => None
             case Some((dist, bits3)) =>
               if 1 <= dist <= |out| then BlockData(ll, d, bits3, Copy(out, dist, LengthBase(s) + e))
               else None
  }

  // ----- Trees (sections 3.2.6 and 3.2.7) ---------------------------------------------------

  function FixedLitLen(s: nat): nat {
    if s < 144 then 8 else if s < 256 then 9 else if s < 280 then 7 else 8
  }

  function FixedLitLens(): (r: seq<nat>)
    ensures |r| == 288 && forall s | 0 <= s < 288 :: r[s] == FixedLitLen(s)
  {
    seq(288, s requires s >= 0 => FixedLitLen(s))
  }

  function FixedDists(): (r: seq<nat>)
    ensures |r| == 32 && forall s | 0 <= s < 32 :: r[s] == 5
  {
    seq(32, _ => 5)
  }

  /** The order in which code lengths of the code length alphabet are sent. */
  function Order(i: nat): (r: nat)
    requires i < 19
    ensures r < 19
  {
    match i
    case 0 => 16 case 1 => 17 case 2 => 18 case 3 => 0 case 4 => 8 case 5 => 7 case 6 => 9
    case 7 => 6 case 8 => 10 case 9 => 5 case 10 => 11 case 11 => 4 case 12 => 12 case 13 => 3
    case 14 => 13 case 15 => 2 case 16 => 14 case 17 => 1 case 18 => 15
  }

  /** Code length code lengths i..n - 1, in transmission order. */
  function ReadCodeLengthCode(bits: BitString, i: nat, n: nat, acc: seq<nat>): (r: Rest<seq<nat>>)
    requires i <= n <= 19 && |acc| == 19
    ensures r.Some? ==> |r.value.0| == 19 && |r.value.1| <= |bits|
    decreases n - i
  {
    if i == n then Some((acc, bits))
    else match ReadBits(bits, 3)
         case None => None
         case Some((l, bits1)) => ReadCodeLengthCode(bits1, i + 1, n, acc[Order(i) := l])
  }

  function Repeated(v: nat, n: nat): (r: seq<nat>)
    ensures |r| == n && forall i | 0 <= i < n :: r[i] == v
  {
    seq(n, _ => v)
  }

  /** Extra bits of the run symbols 16, 17 and 18. */
  function RunExtra(s: nat): nat {
    if s == 16 then 2 else if s == 17 then 3 else if s == 18 then 7 else 0
  }

  /** What one code length symbol appends; None for a repeat with nothing before it. */
  function RunLengths(s: nat, extra: nat, acc: seq<nat>): Option<seq<nat>> {
    if s < 16 then Some([s])
    else if s == 16 then (if acc == [] then None else Some(Repeated(acc[|acc| - 1], 3 + extra)))
    else if s == 17 then Some(Repeated(0, 3 + extra))
    else Some(Repeated(0, 11 + extra))
  }

  /** Code lengths, run-length coded, until there are `total`. */
  function ReadLengths(cl: seq<nat>, bits: BitString, acc: seq<nat>, total: nat): (r: Rest<seq<nat>>)
    requires |cl| == 19
    ensures r.Some? ==> |r.value.0| == total && |r.value.1| <= |bits|
    decreases |bits|
  {
    if |acc| == total then Some((acc, bits))
    else if |acc| > total then None
    else match DecodeSymbol(cl, bits)
         case None => None
         case Some((s, bits1)) =>
           match ReadBits(bits1, RunExtra(s))
           case None => None
           case Some((e, bits2)) =>
             match RunLengths(s, e, acc)
             case None => None
             case Some(run) => ReadLengths(cl, bits2, acc + run, total)
  }

  function PadTo(s: seq<nat>, n: nat): (r: seq<nat>)
    requires |s| <= n
    ensures |r| == n
  {
    s + Repeated(0, n - |s|)
  }

  /** The code length code and the two trees of a dynamic block. */
  datatype Trees = Trees(cl: seq<nat>, ll: seq<nat>, d: seq<nat>)

  function ReadTrees(bits: BitString): (r: Rest<Trees>)
    ensures r.Some? ==> |r.value.1| <= |bits|
  {
    match ReadBits(bits, 5)
    case None => None
    case Some((hlit, bits1)) =>
      match ReadBits(bits1, 5)
      case None => None
      case Some((hdist, bits2)) =>
        match ReadBits(bits2, 4)
        case None => None
        case Some((hclen, bits3)) =>
          if hlit > 29 || hdist > 29 || hclen > 15 then None
          else ReadTreeLengths(hlit, hdist, hclen, bits3)
  }

  function ReadTreeLengths(hlit: nat, hdist: nat, hclen: nat, bits: BitString): (r: Rest<Trees>)
    requires hlit <= 29 && hdist <= 29 && hclen <= 15
    ensures r.Some? ==> |r.value.1| <= |bits|
  {
    match ReadCodeLengthCode(bits, 0, hclen + 4, Repeated(0, 19))
    case None => None
    case Some((cl, bits1)) =>
      match ReadLengths(cl, bits1, [], hlit + 257 + hdist + 1)
      case None => None
      case Some((lens, rest)) =>
        Some((Trees(cl, PadTo(lens[..hlit + 257], 288), PadTo(lens[hlit + 257..], 32)), rest))
  }

  function DynamicBlock(bits: BitString, out: seq<Byte>): (r: Rest<seq<Byte>>)
    ensures r.Some? ==> |r.value.1| <= |bits|
  {
    match ReadTrees(bits)
    case None => None
    case Some((t, rest)) =>
      if Complete(t.cl, 7) && Usable(t.ll) && Usable(t.d)
      then BlockData(t.ll, t.d, rest, out)
      else None
  }

  // ----- Blocks (section 3.2.3) ----------------------------------------------------------------

  function Block(btype: nat, bits: BitString, out: seq<Byte>): (r: Rest<seq<Byte>>)
    ensures r.Some? ==> |r.value.1| <= |bits|
  {
    if btype == 0 then StoredBlock(bits, out)
    else if btype == 1 then BlockData(FixedLitLens(), FixedDists(), bits, out)
    else if btype == 2 then DynamicBlock(bits, out)
    else None
  }

  /** Blocks up to and including the one marked final, appended to `out`. */
  function Blocks(bits: BitString, out: seq<Byte>): (r: Rest<seq<Byte>>)
    decreases |bits|
  {
    if |bits| < 3 then None
    else
      match Block(BitValue(bits[1]) + 2 * BitValue(bits[2]), bits[3..], out)
      case None => None
      case Some((out', rest)) => if bits[0] then Some((out', rest)) else Blocks(rest, out')
  }
}
