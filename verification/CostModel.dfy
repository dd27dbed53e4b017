/**
 Cost models for the shortest-path parser, in exact arithmetic. A model prices a
 literal, and a match as the sum of a price of its length and a price of its
 distance symbol; the code's two models have that form.
 */
module CostModel {
  import opened Arith
  import opened Symbols

  datatype Model = Model(literal: nat -> real, length: nat -> real, distance: nat -> real)

  /** The price of an item; distance 0 means a literal. */
  function Cost(m: Model, litlen: nat, dist: nat): real {
    if dist == 0 then m.literal(litlen) else m.length(litlen) + m.distance(DistSymbol(dist))
  }

  /** Prices are not negative and at most `bound`. */
  ghost predicate Priced(m: Model, bound: real) {
    && (forall b: nat {:trigger m.literal(b)} :: 0.0 <= m.literal(b) <= bound)
    && (forall l: nat {:trigger m.length(l)} :: 0.0 <= m.length(l))
    && (forall s: nat {:trigger m.distance(s)} :: 0.0 <= m.distance(s))
    && (forall l: nat, s: nat {:trigger m.length(l), m.distance(s)} :: m.length(l) + m.distance(s) <= bound)
  }

  // ----- The two models of the code ----------------------------------------------------

  /** Sizes with the fixed tree. */
  function FixedCost(litlen: nat, dist: nat): real
    requires dist > 0 ==> litlen <= 258
  {
    if dist == 0 then (if litlen <= 143 then 8.0 else 9.0)
    else
      (if LengthSymbol(litlen) <= 279 then 7.0 else 8.0) + 5.0
      + DistExtraBits(dist) as real + LengthExtraBits(litlen) as real
  }

  function FixedModel(): Model {
    Model((b: nat) => if b <= 143 then 8.0 else 9.0,
          (l: nat) => if l > 258 then 0.0
                      else (if LengthSymbol(l) <= 279 then 7.0 else 8.0) + LengthExtraBits(l) as real,
          (s: nat) => 5.0 + DistExtra(s) as real)
  }

  /** The fixed-tree price depends on a distance only through its symbol. */
  lemma {:induction false} FixedIsModel(litlen: nat, dist: nat)
    requires dist > 0 ==> 3 <= litlen <= 258 && dist <= 32768
    ensures Cost(FixedModel(), litlen, dist) == FixedCost(litlen, dist)
  {
    hide LengthSymbol, LengthExtraBits, DistExtra, DistSymbol, DistExtraBits;
    if dist > 0 {
      DistRoundTrip(dist);
    }
  }

  /** Prices from symbol statistics: entropy estimates per symbol plus extra bits. */
  function StatCost(llSymbols: nat -> real, dSymbols: nat -> real, litlen: nat, dist: nat): real
    requires dist > 0 ==> litlen <= 258
  {
    if dist == 0 then llSymbols(litlen)
    else
      llSymbols(LengthSymbol(litlen)) + LengthExtraBits(litlen) as real
      + dSymbols(DistSymbol(dist)) + DistExtraBits(dist) as real
  }

  function StatModel(llSymbols: nat -> real, dSymbols: nat -> real): Model {
    Model((b: nat) => llSymbols(b),
          (l: nat) => if l > 258 then 0.0 else llSymbols(LengthSymbol(l)) + LengthExtraBits(l) as real,
          (s: nat) => dSymbols(s) + DistExtra(s) as real)
  }

  lemma {:induction false} StatIsModel(llSymbols: nat -> real, dSymbols: nat -> real, litlen: nat, dist: nat)
    requires dist > 0 ==> 3 <= litlen <= 258 && dist <= 32768
    ensures Cost(StatModel(llSymbols, dSymbols), litlen, dist) == StatCost(llSymbols, dSymbols, litlen, dist)
  {
    hide LengthSymbol, LengthExtraBits, DistExtra, DistSymbol, DistExtraBits;
    if dist > 0 {
      DistRoundTrip(dist);
    }
  }

  lemma {:induction false} FixedPriced()
    ensures Priced(FixedModel(), 40.0)
  {
    hide LengthSymbol;
  }

  // ----- The cheapest match -----------------------------------------------------------------

  /** The first distance of a symbol has that symbol. */
  lemma {:induction false} SymbolOfBase(s: nat)
    requires s < 30
    ensures 1 <= DistBase(s) <= 32768 && DistSymbol(DistBase(s)) == s
  {
    if s >= 4 {
      hide DistBase, Pow2, Log2;
      var l, r := s / 2, s % 2;
      DistTable(l, r);
      HalfOfPow2(l);
      var p := Pow2(l - 1);
      var x := DistBase(s) - 1;
      Log2At(x, l);
      HalfSplit(if r == 1 then p else 0, p);
      PowerSmall(l);
    }
  }

  lemma {:induction false} PowerSmall(l: nat)
    requires l <= 14
    ensures Pow2(l) <= 16384
  {
    Pow2Monotone(l, 14);
    SmallPowers();
  }

  /** The least price any match can have: the cheapest length and the cheapest distance
      symbol are found separately, one distance per symbol. */
  method GetCostModelMinCost(m: Model, ghost bound: real) returns (mincost: real)
    requires Priced(m, bound) && bound < LARGE
    ensures forall l: nat, d: nat | 3 <= l <= 258 && 1 <= d <= 32768 :: mincost <= Cost(m, l, d)
    ensures exists l: nat, d: nat | 3 <= l <= 258 && 1 <= d <= 32768 :: mincost == Cost(m, l, d)
  {
    hide DistBase, DistSymbol;
    var bestlength, bestdist := 0, 0;
    mincost := LARGE;
    SymbolOfBase(0);
    for i := 3 to 259
      invariant i > 3 ==> 3 <= bestlength <= 258 && mincost == Cost(m, bestlength, 1)
      invariant i == 3 ==> mincost == LARGE
      invariant forall l: nat | 3 <= l < i :: m.length(bestlength) <= m.length(l)
    {
      var c := Cost(m, i, 1);
      if c < mincost {
        bestlength := i;
        mincost := c;
      }
    }
    mincost := LARGE;
    var bests := 0;
    for i := 0 to 30
      invariant i > 0 ==> bests < 30 && bestdist == DistBase(bests) && mincost == m.length(3) + m.distance(bests)
      invariant i == 0 ==> mincost == LARGE
      invariant forall s: nat | 0 <= s < i :: m.distance(bests) <= m.distance(s)
    {
      SymbolOfBase(i);
      var c := Cost(m, 3, DistBase(i));
      if c < mincost {
        bests := i;
        bestdist := DistBase(i);
        mincost := c;
      }
    }
    SymbolOfBase(bests);
    mincost := Cost(m, bestlength, bestdist);
    forall l: nat, d: nat | 3 <= l <= 258 && 1 <= d <= 32768
      ensures mincost <= Cost(m, l, d)
    {
      DistRoundTrip(d);
      assert m.distance(bests) <= m.distance(DistSymbol(d));
    }
  }

  const LARGE: real := 1000000000000000000000000000000.0
}
