/**
 Length and distance symbols, their extra bits and the values of those bits. The
 encoder's lookup tables are written in closed form, one line per group of symbols;
 the decoder's tables are those of section 3.2.5 of RFC 1951.
 */
module Symbols {
  import opened Arith
  import opened Bits

  const MAX_MATCH := 258

  /** The shortest length of a length symbol. */
  function LengthBase(symbol: nat): nat {
    match symbol
    case 257 => 3 case 258 => 4 case 259 => 5 case 260 => 6 case 261 => 7 case 262 => 8
    case 263 => 9 case 264 => 10 case 265 => 11 case 266 => 13 case 267 => 15 case 268 => 17
    case 269 => 19 case 270 => 23 case 271 => 27 case 272 => 31 case 273 => 35 case 274 => 43
    case 275 => 51 case 276 => 59 case 277 => 67 case 278 => 83 case 279 => 99 case 280 => 115
    case 281 => 131 case 282 => 163 case 283 => 195 case 284 => 227 case 285 => 258
    case _ => 0
  }

  /** The number of extra bits of a length symbol. */
  function LengthExtra(symbol: nat): nat {
    match symbol
    case 257 => 0 case 258 => 0 case 259 => 0 case 260 => 0 case 261 => 0 case 262 => 0
    case 263 => 0 case 264 => 0 case 265 => 1 case 266 => 1 case 267 => 1 case 268 => 1
    case 269 => 2 case 270 => 2 case 271 => 2 case 272 => 2 case 273 => 3 case 274 => 3
    case 275 => 3 case 276 => 3 case 277 => 4 case 278 => 4 case 279 => 4 case 280 => 4
    case 281 => 5 case 282 => 5 case 283 => 5 case 284 => 5 case 285 => 0
    case _ => 0
  }

  /** The shortest distance of a distance symbol. */
  function DistBase(symbol: nat): nat {
    match symbol
    case 0 => 1 case 1 => 2 case 2 => 3 case 3 => 4 case 4 => 5 case 5 => 7
    case 6 => 9 case 7 => 13 case 8 => 17 case 9 => 25 case 10 => 33 case 11 => 49
    case 12 => 65 case 13 => 97 case 14 => 129 case 15 => 193 case 16 => 257 case 17 => 385
    case 18 => 513 case 19 => 769 case 20 => 1025 case 21 => 1537 case 22 => 2049 case 23 => 3073
    case 24 => 4097 case 25 => 6145 case 26 => 8193 case 27 => 12289 case 28 => 16385 case 29 => 24577
    case _ => 0
  }

  /** The number of extra bits of a distance symbol. */
  function DistExtra(symbol: nat): nat {
    match symbol
    case 0 => 0 case 1 => 0 case 2 => 0 case 3 => 0 case 4 => 1 case 5 => 1
    case 6 => 2 case 7 => 2 case 8 => 3 case 9 => 3 case 10 => 4 case 11 => 4
    case 12 => 5 case 13 => 5 case 14 => 6 case 15 => 6 case 16 => 7 case 17 => 7
    case 18 => 8 case 19 => 8 case 20 => 9 case 21 => 9 case 22 => 10 case 23 => 10
    case 24 => 11 case 25 => 11 case 26 => 12 case 27 => 12 case 28 => 13 case 29 => 13
    case _ => 0
  }

  /** The symbol of a match length; table entries below MIN_MATCH are 0. */
  function LengthSymbol(l: nat): nat
    requires l <= MAX_MATCH
  {
    if l < 3 then 0
    else if l <= 10 then 254 + l
    else if l <= 18 then 265 + (l - 11) / 2
    else if l <= 34 then 269 + (l - 19) / 4
    else if l <= 66 then 273 + (l - 35) / 8
    else if l <= 130 then 277 + (l - 67) / 16
    else if l <= 257 then 281 + (l - 131) / 32
    else 285
  }

  function LengthExtraBits(l: nat): nat
    requires l <= MAX_MATCH
  {
    if l <= 10 then 0
    else if l <= 18 then 1
    else if l <= 34 then 2
    else if l <= 66 then 3
    else if l <= 130 then 4
    else if l <= 257 then 5
    else 0
  }

  function LengthExtraValue(l: nat): nat
    requires l <= MAX_MATCH
  {
    if l <= 10 then 0
    else if l <= 18 then (l - 11) % 2
    else if l <= 34 then (l - 19) % 4
    else if l <= 66 then (l - 35) % 8
    else if l <= 130 then (l - 67) % 16
    else if l <= 257 then (l - 131) % 32
    else 0
  }

  /** The position of the highest set bit, 31 minus the number of leading zeros. */
  function Log2(x: nat): nat {
    if x < 2 then 0 else 1 + Log2(x / 2)
  }

  function DistSymbol(dist: nat): nat
    requires dist >= 1
  {
    if dist < 5 then dist - 1
    else
      var l := Log2(dist - 1);
      2 * l + ((dist - 1) / Pow2(l - 1)) % 2
  }

  function DistExtraBits(dist: nat): nat
    requires dist >= 1
  {
    if dist < 5 then 0 else Log2(dist - 1) - 1
  }

  function DistExtraValue(dist: nat): nat
    requires dist >= 1
  {
    if dist < 5 then 0
    else
      var l := Log2(dist - 1);
      (dist - (1 + Pow2(l))) % Pow2(l - 1)
  }

  /** The decoder's table entry for a length's symbol gives the length back. */
  lemma {:induction false} LengthRoundTrip(l: nat)
    requires 3 <= l <= 258
    ensures 257 <= LengthSymbol(l) <= 285
    ensures LengthExtraBits(l) == LengthExtra(LengthSymbol(l))
    ensures LengthBase(LengthSymbol(l)) + LengthExtraValue(l) == l
    ensures LengthExtraValue(l) < Pow2(LengthExtraBits(l))
  {
    SmallPowers();
    if l <= 10 {
    } else if l <= 18 {
      LengthTable(1, (l - 11) / 2, 2);
    } else if l <= 34 {
      LengthTable(2, (l - 19) / 4, 4);
    } else if l <= 66 {
      LengthTable(3, (l - 35) / 8, 8);
    } else if l <= 130 {
      LengthTable(4, (l - 67) / 16, 16);
    } else if l <= 257 {
      LengthTable(5, (l - 131) / 32, 32);
    }
  }

  /** The decoder's table: four symbols with g extra bits each. */
  lemma {:induction false} LengthTable(g: nat, q: nat, p: nat)
    requires 1 <= g <= 5 && q <= 3 && p == Pow2(g)
    ensures LengthExtra(261 + 4 * g + q) == g
    ensures LengthBase(261 + 4 * g + q) == 3 + 4 * p + q * p
  {
    SmallPowers();
  }

  lemma {:induction false} Log2Range(x: nat)
    requires x >= 1
    ensures Pow2(Log2(x)) <= x < 2 * Pow2(Log2(x))
  {
    if x >= 2 {
      Log2Range(x / 2);
    }
  }

  lemma {:induction false} Log2At(x: nat, l: nat)
    requires Pow2(l) <= x < 2 * Pow2(l)
    ensures Log2(x) == l
  {
    if l > 0 {
      Log2At(x / 2, l - 1);
    }
  }

  lemma {:induction false} SmallPowers()
    ensures Pow2(0) == 1 && Pow2(1) == 2 && Pow2(2) == 4 && Pow2(3) == 8 && Pow2(4) == 16 && Pow2(5) == 32
    ensures Pow2(6) == 64 && Pow2(7) == 128 && Pow2(8) == 256 && Pow2(9) == 512 && Pow2(10) == 1024
    ensures Pow2(11) == 2048 && Pow2(12) == 4096 && Pow2(13) == 8192 && Pow2(14) == 16384 && Pow2(15) == 32768
  {
    assert Pow2(5) == 32;
    assert Pow2(10) == 1024;
  }

  /** The decoder's table, by the position of the highest bit of dist - 1. */
  lemma {:induction false} DistTable(l: nat, r: nat)
    requires 2 <= l <= 14 && r <= 1
    ensures DistExtra(2 * l + r) == l - 1
    ensures DistBase(2 * l + r) == 1 + Pow2(l) + if r == 1 then Pow2(l - 1) else 0
  {
    SmallPowers();
  }

  lemma {:induction false} HalfSplit(y: nat, p: nat)
    requires p >= 1 && y < 2 * p
    ensures (y + 2 * p) / p % 2 == if y < p then 0 else 1
    ensures y % p == if y < p then y else y - p
  {
    if y < p {
      Quotient(y + 2 * p, p, 2, y);
    } else {
      Quotient(y + 2 * p, p, 3, y - p);
      Quotient(y, p, 1, y - p);
    }
  }

  lemma {:induction false} Quotient(x: nat, p: nat, q: nat, r: nat)
    requires p >= 1 && r < p && x == q * p + r
    ensures x / p == q && x % p == r
  {
    var d, r' := x / p - q, x % p;
    Euclid(x, p);
    Difference(x / p, q, p);
    if d >= 1 {
      AtLeast(d, p);
    } else if d <= -1 {
      AtLeast(-d, p);
      Negate(d, p);
    }
  }

  lemma {:induction false} Euclid(x: nat, p: nat)
    requires p >= 1
    ensures x == (x / p) * p + x % p && x % p < p
  {
  }

  lemma {:induction false} Difference(a: int, b: int, p: int)
    ensures (a - b) * p == a * p - b * p
  {
  }

  lemma {:induction false} Negate(d: int, p: int)
    ensures (-d) * p == -(d * p)
  {
  }

  lemma {:induction false} AtLeast(d: int, p: int)
    requires d >= 1 && p >= 0
    ensures d * p >= p
  {
  }

  lemma {:induction false} DistRoundTrip(dist: nat)
    requires 1 <= dist <= 32768
    ensures DistSymbol(dist) <= 29
    ensures DistExtraBits(dist) == DistExtra(DistSymbol(dist))
    ensures DistBase(DistSymbol(dist)) + DistExtraValue(dist) == dist
    ensures DistExtraValue(dist) < Pow2(DistExtraBits(dist))
  {
    if dist < 5 {
      assert Pow2(0) == 1;
    } else {
      hide DistBase, DistExtra, Pow2, Log2;
      var l := Log2(dist - 1);
      Log2Range(dist - 1);
      PowerBounds(l);
      HalfOfPow2(l);
      DistGroup(dist, l, Pow2(l - 1));
    }
  }

  lemma {:induction false} HalfOfPow2(l: nat)
    requires l >= 1
    ensures Pow2(l) == 2 * Pow2(l - 1)
  {
  }

  lemma {:induction false} PowerBounds(l: nat)
    ensures l <= 1 ==> Pow2(l) <= 2
    ensures l >= 15 ==> Pow2(l) >= 32768
  {
    SmallPowers();
    if l >= 15 {
      Pow2Monotone(15, l);
    }
  }

  lemma {:induction false} DistGroup(dist: nat, l: nat, p: nat)
    requires dist >= 5 && 2 <= l <= 14 && l == Log2(dist - 1) && p == Pow2(l - 1)
    requires 2 * p <= dist - 1 < 4 * p
    ensures DistSymbol(dist) <= 29
    ensures DistExtraBits(dist) == DistExtra(DistSymbol(dist))
    ensures DistBase(DistSymbol(dist)) + DistExtraValue(dist) == dist
    ensures DistExtraValue(dist) < p
  {
    hide DistBase, DistExtra, Pow2, Log2;
    var y := dist - 1 - 2 * p;
    HalfSplit(y, p);
    HalfOfPow2(l);
    DistTable(l, if y < p then 0 else 1);
  }
}
