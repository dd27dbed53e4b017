/**
 DEFLATE blocks as bit strings, and their meaning: decoding a block's bits appends
 to the output exactly what replaying its items would.
 */
module BlockEncoding {
  import opened Optional
  import opened Arith
  import opened Bits
  import opened Symbols
  import opened Lz77Store
  import opened CodeLengths
  import opened MinimumRedundancy
  import opened CanonicalCode
  import opened Inflate
  import opened TreeHeader

  // ----- Distance codes for old decoders -------------------------------------------

  function UsedCodes(d: seq<nat>, n: nat): (r: nat)
    requires n <= |d|
    ensures r <= n
  {
    if n == 0 then 0 else UsedCodes(d, n - 1) + (if d[n - 1] != 0 then 1 else 0)
  }

  /** At least two distance codes: dummy lengths of 1 are added when fewer are used. */
  function Patched(d: seq<nat>): (r: seq<nat>)
    requires |d| == 32
    ensures |r| == 32
  {
    var n := UsedCodes(d, 30);
    if n >= 2 then d
    else if n == 0 then d[0 := 1][1 := 1]
    else d[(if d[0] != 0 then 1 else 0) := 1]
  }

  /** Two used codes exist exactly when the count says so. */
  lemma {:induction false} FindTwo(d: seq<nat>, n: nat) returns (i: nat, j: nat)
    requires n <= |d| && UsedCodes(d, n) >= 2
    ensures i < j < n && d[i] != 0 && d[j] != 0
  {
    if UsedCodes(d, n - 1) >= 2 {
      i, j := FindTwo(d, n - 1);
    } else {
      i := FindOne(d, n - 1);
      j := n - 1;
    }
  }

  lemma {:induction false} FindOne(d: seq<nat>, n: nat) returns (i: nat)
    requires n <= |d| && UsedCodes(d, n) >= 1
    ensures i < n && d[i] != 0
    ensures UsedCodes(d, n) == 1 ==> forall k | 0 <= k < n && k != i :: d[k] == 0
  {
    if d[n - 1] != 0 {
      i := n - 1;
      if UsedCodes(d, n) == 1 {
        NoneUsed(d, n - 1);
      }
    } else {
      i := FindOne(d, n - 1);
    }
  }

  lemma {:induction false} NoneUsed(d: seq<nat>, n: nat)
    requires n <= |d| && UsedCodes(d, n) == 0
    ensures forall k | 0 <= k < n :: d[k] == 0
  {
    if n > 0 {
      NoneUsed(d, n - 1);
    }
  }

  lemma {:induction false} TwoOnes(l: seq<nat>, x: nat, y: nat, n: nat)
    requires x < y && n <= |l| && forall s | 0 <= s < |l| :: l[s] == if s == x || s == y then 1 else 0
    ensures Bounded(l, 15)
    ensures Kraft(l, 15, n) == (if x < n then Pow2(14) else 0) + (if y < n then Pow2(14) else 0)
  {
    hide Pow2;
    if n > 0 {
      TwoOnes(l, x, y, n - 1);
      assert l[n - 1] != 0 ==> 15 - l[n - 1] == 14;
    }
  }

  lemma {:induction false} PairComplete(l: seq<nat>, x: nat, y: nat)
    requires x != y && x < |l| && y < |l| && forall s | 0 <= s < |l| :: l[s] == if s == x || s == y then 1 else 0
    ensures Complete(l, 15)
  {
    if x < y {
      TwoOnes(l, x, y, |l|);
    } else {
      TwoOnes(l, y, x, |l|);
    }
    assert Pow2(15) == 2 * Pow2(14);
  }

  /** After the patch the distance code is complete with at least two codes, no used
      length has changed, and of the unused ones at most those of symbols 0 and 1 have. */
  lemma {:induction false} PatchedComplete(freqs: seq<nat>)
    requires |freqs| == 32 && freqs[30] == 0 && freqs[31] == 0 && Encodable(freqs, 15)
    ensures var d := Lengths(freqs, 15);
            var p := Patched(d);
            && Complete(p, 15) && p[30] == 0 && p[31] == 0
            && (forall s | 0 <= s < 32 && freqs[s] > 0 :: p[s] == d[s] > 0)
            && (forall s | 2 <= s < 32 :: p[s] == d[s])
            && UsedCodes(p, 30) >= 2
  {
    hide Lengths, Kraft, SortedLeaves, Pow2, UsedCodes;
    var d := Lengths(freqs, 15);
    var p := Patched(d);
    forall s | 0 <= s < 32
      ensures (d[s] > 0 <==> freqs[s] > 0) && d[s] <= 15
    {
      LengthsSupport(freqs, 15, s);
    }
    var n := UsedCodes(d, 30);
    if n >= 2 {
      var i, j := FindTwo(d, 30);
      TwoUsed(freqs, i, j);
      CodeSpace(freqs, 15);
    } else {
      FewLeaves(freqs);
      if n == 0 {
        NoneUsed(d, 30);
        PairComplete(p, 0, 1);
        CountTwo(p, 0, 1, 30);
      } else {
        var i := FindOne(d, 30);
        AtMostOne(freqs, 15, i);
        var j := if d[0] != 0 then 1 else 0;
        PairComplete(p, i, j);
        CountTwo(p, i, j, 30);
      }
    }
  }

  lemma {:induction false} CountTwo(d: seq<nat>, i: nat, j: nat, n: nat)
    requires n <= |d| && i != j && i < n && j < n && d[i] != 0 && d[j] != 0
    ensures UsedCodes(d, n) >= 2
  {
    if i < n - 1 && j < n - 1 {
      CountTwo(d, i, j, n - 1);
    } else {
      CountOne(d, if i < n - 1 then i else j, n - 1);
    }
  }

  lemma {:induction false} CountOne(d: seq<nat>, i: nat, n: nat)
    requires n <= |d| && i < n && d[i] != 0
    ensures UsedCodes(d, n) >= 1
  {
    if i < n - 1 {
      CountOne(d, i, n - 1);
    }
  }

  lemma {:induction false} FewLeaves(freqs: seq<nat>)
    requires |freqs| == 32 && freqs[30] == 0 && freqs[31] == 0 && Encodable(freqs, 15)
    requires UsedCodes(Lengths(freqs, 15), 30) < 2
    ensures |SortedLeaves(freqs)| < 2
  {
    hide Lengths, SortedLeaves, UsedCodes;
    var ls := SortedLeaves(freqs);
    if |ls| >= 2 {
      LeavesProperties(freqs);
      assert ls[0] in ls && ls[1] in ls;
      LengthsSupport(freqs, 15, ls[0].symbol);
      LengthsSupport(freqs, 15, ls[1].symbol);
      CountTwo(Lengths(freqs, 15), ls[0].symbol, ls[1].symbol, 30);
    }
  }

  // ----- The trees of a block ----------------------------------------------------------

  function DynamicLitLens(items: Store): (r: seq<nat>)
    requires ValidStore(items)
    ensures |r| == 288
  {
    SmallPowers();
    FewSymbols(LitLenCounts(items), 15);
    Lengths(LitLenCounts(items), 15)
  }

  function DynamicDists(items: Store): (r: seq<nat>)
    requires ValidStore(items)
    ensures |r| == 32
  {
    SmallPowers();
    FewSymbols(DistCounts(items), 15);
    Patched(Lengths(DistCounts(items), 15))
  }

  /** The trees can code every item and the end of the block. */
  ghost predicate Covers(ll: seq<nat>, d: seq<nat>, items: Store) {
    && |ll| == 288 && |d| == 32 && ll[256] > 0
    && forall i | 0 <= i < |items| ::
         ValidItem(items[i]) && LitLenSymbol(items[i]) < 288 && ll[LitLenSymbol(items[i])] > 0 &&
         (items[i].dist > 0 ==> DistSymbol(items[i].dist) < 32 && d[DistSymbol(items[i].dist)] > 0)
  }

  /** The dynamic trees code all items and leave the unused symbols at zero. */
  lemma {:induction false} DynamicCovers(items: Store)
    requires ValidStore(items)
    ensures var ll, d := DynamicLitLens(items), DynamicDists(items);
            && Covers(ll, d, items) && Below16(ll) && Below16(d) && Complete(d, 15)
            && ll[286] == 0 && ll[287] == 0 && d[30] == 0 && d[31] == 0
  {
    hide Lengths, Patched, LitLenCount, DistCount, Pow2, LitLenSymbol, DistSymbol, ValidItem, Kraft;
    var ll, d := DynamicLitLens(items), DynamicDists(items);
    var lc, dc := LitLenCounts(items), DistCounts(items);
    SmallPowers();
    FewSymbols(lc, 15);
    FewSymbols(dc, 15);
    forall s | 0 <= s < 288
      ensures ll[s] <= 15 && (ll[s] > 0 <==> lc[s] > 0)
    {
      LengthsSupport(lc, 15, s);
    }
    UnusedSymbols(items, 286);
    UnusedSymbols(items, 287);
    UnusedSymbols(items, 30);
    UnusedSymbols(items, 31);
    PatchedComplete(dc);
    forall i | 0 <= i < |items|
      ensures ValidItem(items[i]) && LitLenSymbol(items[i]) < 288 && ll[LitLenSymbol(items[i])] > 0
      ensures items[i].dist > 0 ==> DistSymbol(items[i].dist) < 32 && d[DistSymbol(items[i].dist)] > 0
    {
      SymbolRanges(items[i]);
      Counted(items, i);
    }
  }

  /** In a non-empty block the lit/len tree is complete as well. */
  lemma {:induction false} DynamicComplete(items: Store)
    requires ValidStore(items) && items != []
    ensures Complete(DynamicLitLens(items), 15)
  {
    hide Lengths, Complete, LitLenCount, Pow2, LitLenSymbol, SortedLeaves;
    var lc := LitLenCounts(items);
    SmallPowers();
    FewSymbols(lc, 15);
    SymbolRanges(items[0]);
    Counted(items, 0);
    TwoUsed(lc, LitLenSymbol(items[0]), 256);
    CodeSpace(lc, 15);
  }

  /** The fixed trees are complete too. */
  lemma {:induction false} FixedKraft(n: nat)
    requires n <= 288
    ensures Bounded(FixedLitLens(), 15)
    ensures Kraft(FixedLitLens(), 15, n) ==
            if n <= 144 then 128 * n
            else if n <= 256 then 18432 + 64 * (n - 144)
            else if n <= 280 then 25600 + 256 * (n - 256)
            else 31744 + 128 * (n - 280)
  {
    SmallPowers();
    if n > 0 {
      FixedKraft(n - 1);
    }
  }

  lemma {:induction false} FixedDistKraft(n: nat)
    requires n <= 32
    ensures Bounded(FixedDists(), 15)
    ensures Kraft(FixedDists(), 15, n) == 1024 * n
  {
    SmallPowers();
    if n > 0 {
      FixedDistKraft(n - 1);
    }
  }

  lemma {:induction false} FixedTrees(items: Store)
    requires ValidStore(items)
    ensures Complete(FixedLitLens(), 15) && Complete(FixedDists(), 15)
    ensures Covers(FixedLitLens(), FixedDists(), items)
  {
    hide Kraft, Pow2, LitLenSymbol, DistSymbol, ValidItem;
    FixedKraft(288);
    FixedDistKraft(32);
    SmallPowers();
    forall i | 0 <= i < |items|
      ensures LitLenSymbol(items[i]) < 288 && (items[i].dist > 0 ==> DistSymbol(items[i].dist) < 32)
    {
      SymbolRanges(items[i]);
    }
  }

  // ----- Items as bits ---------------------------------------------------------------------

  function ItemBits(ll: seq<nat>, d: seq<nat>, it: Item): BitString
    requires ValidItem(it) && LitLenSymbol(it) < |ll|
    requires it.dist > 0 ==> DistSymbol(it.dist) < |d|
  {
    if it.dist == 0 then CodeBits(ll, it.litlen)
    else
      CodeBits(ll, LengthSymbol(it.litlen)) +
      LowFirst(LengthExtraValue(it.litlen), LengthExtraBits(it.litlen)) +
      CodeBits(d, DistSymbol(it.dist)) +
      LowFirst(DistExtraValue(it.dist), DistExtraBits(it.dist))
  }

  /** The items and the end symbol. */
  function DataBits(ll: seq<nat>, d: seq<nat>, items: Store): BitString
    requires Covers(ll, d, items)
  {
    if items == [] then CodeBits(ll, 256) else ItemBits(ll, d, items[0]) + DataBits(ll, d, items[1..])
  }

  /** The items without the end symbol. */
  function ItemsBits(ll: seq<nat>, d: seq<nat>, items: Store): BitString
    requires Covers(ll, d, items)
  {
    if items == [] then []
    else ItemsBits(ll, d, items[..|items| - 1]) + ItemBits(ll, d, items[|items| - 1])
  }

  lemma {:induction false} CoversSlice(ll: seq<nat>, d: seq<nat>, items: Store, a: nat, b: nat)
    requires Covers(ll, d, items) && a <= b <= |items|
    ensures Covers(ll, d, items[a..b])
    ensures a == 0 ==> items[a..b] == items[..b]
    ensures b == |items| ==> items[a..b] == items[a..]
  {
    hide LitLenSymbol, DistSymbol, ValidItem;
    forall i | 0 <= i < b - a
      ensures items[a..b][i] == items[a + i]
    {
    }
  }

  lemma {:induction false} ItemsBitsCons(ll: seq<nat>, d: seq<nat>, items: Store)
    requires Covers(ll, d, items) && items != []
    ensures Covers(ll, d, items[1..])
    ensures ItemsBits(ll, d, items) == ItemBits(ll, d, items[0]) + ItemsBits(ll, d, items[1..])
    decreases |items|
  {
    hide ItemBits, Covers;
    var tail := items[1..];
    CoversSlice(ll, d, items, 1, |items|);
    CoversSlice(ll, d, items, 0, |items| - 1);
    if tail == [] {
      assert items[..|items| - 1] == [];
    } else {
      var init := items[..|items| - 1];
      ItemsBitsCons(ll, d, init);
      assert init[1..] == tail[..|tail| - 1];
      assert init[0] == items[0] && tail[|tail| - 1] == items[|items| - 1];
    }
  }

  lemma {:induction false} DataIsItems(ll: seq<nat>, d: seq<nat>, items: Store)
    requires Covers(ll, d, items)
    ensures DataBits(ll, d, items) == ItemsBits(ll, d, items) + CodeBits(ll, 256)
    decreases |items|
  {
    hide CodeBits, ItemBits;
    if items != [] {
      ItemsBitsCons(ll, d, items);
      DataIsItems(ll, d, items[1..]);
    }
  }

  ghost predicate Codable(ll: seq<nat>, d: seq<nat>) {
    KraftAtMostOne(ll, 15) && KraftAtMostOne(d, 15)
  }

  lemma {:induction false} ReadDistance(d: seq<nat>, dist: nat, rest: BitString)
    requires KraftAtMostOne(d, 15) && 1 <= dist <= 32768 && DistSymbol(dist) < |d| && d[DistSymbol(dist)] > 0
    ensures MatchDistance(d, CodeBits(d, DistSymbol(dist)) +
                             (LowFirst(DistExtraValue(dist), DistExtraBits(dist)) + rest)) ==
            Some((dist, rest))
  {
    hide KraftAtMostOne, DistExtra, DistBase, DistExtraBits, DistExtraValue, DistSymbol, CodeBits, DecodeSymbol,
         ReadBits;
    DistRoundTrip(dist);
    DecodeEncoded(d, 15, DistSymbol(dist), LowFirst(DistExtraValue(dist), DistExtraBits(dist)) + rest);
    ReadBack(DistExtraValue(dist), DistExtraBits(dist), rest);
  }

  lemma {:induction false} ReadLiteral(ll: seq<nat>, d: seq<nat>, it: Item, rest: BitString, out: seq<Byte>)
    requires Codable(ll, d) && Replayable(out, it) && it.dist == 0
    requires it.litlen < |ll| && ll[it.litlen] > 0
    ensures BlockData(ll, d, CodeBits(ll, it.litlen) + rest, out) == BlockData(ll, d, rest, ReplayItem(out, it))
  {
    hide KraftAtMostOne, CodeBits, DecodeSymbol;
    DecodeEncoded(ll, 15, it.litlen, rest);
  }

  lemma {:induction false} ReadMatch(ll: seq<nat>, d: seq<nat>, it: Item, rest: BitString, out: seq<Byte>)
    requires Codable(ll, d) && Replayable(out, it) && it.dist > 0
    requires LengthSymbol(it.litlen) < |ll| && ll[LengthSymbol(it.litlen)] > 0
    requires DistSymbol(it.dist) < |d| && d[DistSymbol(it.dist)] > 0
    ensures BlockData(ll, d, CodeBits(ll, LengthSymbol(it.litlen)) +
                             (LowFirst(LengthExtraValue(it.litlen), LengthExtraBits(it.litlen)) +
                              (CodeBits(d, DistSymbol(it.dist)) +
                               (LowFirst(DistExtraValue(it.dist), DistExtraBits(it.dist)) + rest))), out) ==
            BlockData(ll, d, rest, ReplayItem(out, it))
  {
    hide KraftAtMostOne, CodeBits, DecodeSymbol, MatchDistance, ReadBits, LengthBase, LengthExtra, LengthExtraBits,
         LengthExtraValue, LengthSymbol, DistSymbol, DistExtraValue, DistExtraBits, LowFirst, Copy;
    var tail := CodeBits(d, DistSymbol(it.dist)) + (LowFirst(DistExtraValue(it.dist), DistExtraBits(it.dist)) + rest);
    var s := LengthSymbol(it.litlen);
    LengthRoundTrip(it.litlen);
    DecodeEncoded(ll, 15, s, LowFirst(LengthExtraValue(it.litlen), LengthExtraBits(it.litlen)) + tail);
    ReadBack(LengthExtraValue(it.litlen), LengthExtraBits(it.litlen), tail);
    ReadDistance(d, it.dist, rest);
  }

  /** Decoding one item's bits replays the item. */
  lemma {:induction false} ReadItem(ll: seq<nat>, d: seq<nat>, it: Item, rest: BitString, out: seq<Byte>)
    requires Codable(ll, d) && Replayable(out, it)
    requires LitLenSymbol(it) < |ll| && ll[LitLenSymbol(it)] > 0
    requires it.dist > 0 ==> DistSymbol(it.dist) < |d| && d[DistSymbol(it.dist)] > 0
    ensures BlockData(ll, d, ItemBits(ll, d, it) + rest, out) == BlockData(ll, d, rest, ReplayItem(out, it))
  {
    hide BlockData, Codable, CodeBits, LowFirst, LengthSymbol, DistSymbol, ReplayItem, LengthExtraBits,
         LengthExtraValue, DistExtraBits, DistExtraValue;
    if it.dist == 0 {
      ReadLiteral(ll, d, it, rest, out);
    } else {
      var a := CodeBits(ll, LengthSymbol(it.litlen));
      var b := LowFirst(LengthExtraValue(it.litlen), LengthExtraBits(it.litlen));
      var c, e := CodeBits(d, DistSymbol(it.dist)), LowFirst(DistExtraValue(it.dist), DistExtraBits(it.dist));
      assert a + b + c + e + rest == a + (b + (c + (e + rest)));
      ReadMatch(ll, d, it, rest, out);
    }
  }

  /** Decoding a block's data appends what its items stand for and stops after the
      end symbol. */
  lemma {:induction false} DataRoundTrip(ll: seq<nat>, d: seq<nat>, items: Store, rest: BitString,
                                         out: seq<Byte>, after: seq<Byte>)
    requires Codable(ll, d) && Covers(ll, d, items) && Replays(out, items, after)
    ensures BlockData(ll, d, DataBits(ll, d, items) + rest, out) == Some((after, rest))
    decreases |items|
  {
    hide Codable, CodeBits, ItemBits, LitLenSymbol, DistSymbol, ValidItem, ReplayItem;
    if items == [] {
      EndOfBlock(ll, d, rest, out);
    } else {
      hide BlockData;
      var it, tail := items[0], items[1..];
      assert forall i | 0 <= i < |tail| :: tail[i] == items[i + 1];
      var more := DataBits(ll, d, tail) + rest;
      assert DataBits(ll, d, items) + rest == ItemBits(ll, d, it) + more;
      ReadItem(ll, d, it, more, out);
      DataRoundTrip(ll, d, tail, rest, ReplayItem(out, it), after);
    }
  }

  lemma {:induction false} EndOfBlock(ll: seq<nat>, d: seq<nat>, rest: BitString, out: seq<Byte>)
    requires Codable(ll, d) && |ll| == 288 && ll[256] > 0
    ensures BlockData(ll, d, CodeBits(ll, 256) + rest, out) == Some((out, rest))
  {
    hide KraftAtMostOne, CodeBits, DecodeSymbol;
    DecodeEncoded(ll, 15, 256, rest);
  }

  // ----- Compressed blocks --------------------------------------------------------------------

  /** The bits of a block of type 1 or 2. */
  function BlockBits(btype: nat, final: bool, items: Store): BitString
    requires btype == 1 || btype == 2
    requires ValidStore(items)
  {
    if btype == 1 then
      FixedTrees(items);
      [final, true, false] + DataBits(FixedLitLens(), FixedDists(), items)
    else
      var ll, d := DynamicLitLens(items), DynamicDists(items);
      DynamicCovers(items);
      [final, false, true] + (TreeBits(ll, d) + DataBits(ll, d, items))
  }

  lemma {:induction false} UsedPair(freqs: seq<nat>) returns (s: nat, t: nat)
    requires |SortedLeaves(freqs)| >= 2
    ensures s < |freqs| && t < |freqs| && s != t && freqs[s] > 0 && freqs[t] > 0
  {
    hide SortedLeaves;
    var ls := SortedLeaves(freqs);
    LeavesProperties(freqs);
    assert ls[0] in ls && ls[1] in ls;
    s, t := ls[0].symbol, ls[1].symbol;
  }

  /** With just one used symbol that symbol gets one bit. */
  lemma {:induction false} OneCode(freqs: seq<nat>, maxbits: nat, x: nat)
    requires maxbits >= 1 && Encodable(freqs, maxbits) && x < |freqs|
    requires forall s | 0 <= s < |freqs| :: freqs[s] > 0 <==> s == x
    ensures forall s | 0 <= s < |freqs| :: Lengths(freqs, maxbits)[s] == if s == x then 1 else 0
  {
    hide Lengths, SortedLeaves, Encodable;
    if |SortedLeaves(freqs)| >= 2 {
      var s, t := UsedPair(freqs);
      assert false;
    }
    forall s | 0 <= s < |freqs|
      ensures Lengths(freqs, maxbits)[s] == if s == x then 1 else 0
    {
      AtMostOne(freqs, maxbits, s);
      LengthsSupport(freqs, maxbits, s);
    }
  }

  lemma {:induction false} NoItemsCounted(s: nat)
    requires s < 288
    ensures LitLenCounts([])[s] == if s == 256 then 1 else 0
  {
  }

  /** The literal and length code is always one a decoder takes; without items it has a
      single code word. */
  lemma {:induction false} DynamicUsable(items: Store)
    requires ValidStore(items)
    ensures Usable(DynamicLitLens(items))
  {
    hide Lengths, LitLenCounts, Pow2, Kraft;
    if items != [] {
      DynamicComplete(items);
    } else {
      var lc := LitLenCounts(items);
      SmallPowers();
      FewSymbols(lc, 15);
      forall s | 0 <= s < 288
        ensures lc[s] == if s == 256 then 1 else 0
      {
        NoItemsCounted(s);
      }
      OneCode(lc, 15, 256);
      SingleKraft(DynamicLitLens(items), 15, 256, 288);
    }
  }

  lemma {:induction false} UsableIsCodable(lens: seq<nat>)
    requires Usable(lens)
    ensures KraftAtMostOne(lens, 15) && Bounded(lens, 15)
  {
    Pow2Monotone(14, 15);
  }

  lemma {:induction false} CompleteIsCodable(lens: seq<nat>, maxbits: nat)
    requires Complete(lens, maxbits)
    ensures KraftAtMostOne(lens, maxbits) && Bounded(lens, maxbits)
  {
  }

  lemma {:induction false} CompleteIsUsable(lens: seq<nat>)
    requires Complete(lens, 15)
    ensures Usable(lens)
  {
    hide Complete, Single;
  }

  lemma {:induction false} DynamicRoundTrip(items: Store, rest: BitString, out: seq<Byte>, after: seq<Byte>)
    requires ValidStore(items) && Replays(out, items, after)
    ensures var ll, d := DynamicLitLens(items), DynamicDists(items);
            && Below16(ll) && Below16(d) && Covers(ll, d, items)
            && DynamicBlock(TreeBits(ll, d) + (DataBits(ll, d, items) + rest), out) == Some((after, rest))
  {
    hide DynamicLitLens, DynamicDists, TreeBits, DataBits, BlockData, Complete, Usable, KraftAtMostOne, ReadTrees,
         EntryCode, Rle, Joined, Replays, Below16;
    var ll, d := DynamicLitLens(items), DynamicDists(items);
    DynamicCovers(items);
    DynamicUsable(items);
    UsableIsCodable(ll);
    CompleteIsCodable(d, 15);
    CompleteIsUsable(d);
    TreesRoundTrip(ll, d, DataBits(ll, d, items) + rest);
    EntryCodeComplete(ll, d);
    DataRoundTrip(ll, d, items, rest, out, after);
  }

  lemma {:induction false} FixedRoundTrip(items: Store, rest: BitString, out: seq<Byte>, after: seq<Byte>)
    requires ValidStore(items) && Replays(out, items, after)
    ensures Covers(FixedLitLens(), FixedDists(), items)
    ensures BlockData(FixedLitLens(), FixedDists(), DataBits(FixedLitLens(), FixedDists(), items) + rest, out) ==
            Some((after, rest))
  {
    hide DataBits, BlockData, Complete, KraftAtMostOne, Replays, FixedLitLens, FixedDists;
    FixedTrees(items);
    CompleteIsCodable(FixedLitLens(), 15);
    CompleteIsCodable(FixedDists(), 15);
    DataRoundTrip(FixedLitLens(), FixedDists(), items, rest, out, after);
  }

  /** Decoding starts with a three-bit header. */
  lemma {:induction false} ReadHeader(final: bool, b1: bool, b2: bool, body: BitString, out: seq<Byte>)
    ensures Blocks([final, b1, b2] + body, out) ==
            match Block(BitValue(b1) + 2 * BitValue(b2), body, out)
            case None => None
            case Some((out', rest)) => if final then Some((out', rest)) else Blocks(rest, out')
  {
    hide Block;
    assert ([final, b1, b2] + body)[3..] == body;
  }

  /** A whole block, header included: the decoder appends the block's meaning and goes
      on behind it, or stops there when the block is final. */
  lemma {:induction false} BlockRoundTrip(btype: nat, final: bool, items: Store, rest: BitString,
                                          out: seq<Byte>, after: seq<Byte>)
    requires btype == 1 || btype == 2
    requires ValidStore(items) && Replays(out, items, after)
    ensures Blocks(BlockBits(btype, final, items) + rest, out) ==
            if final then Some((after, rest)) else Blocks(rest, after)
  {
    hide DataBits, BlockData, TreeBits, DynamicLitLens, DynamicDists, DynamicBlock, FixedLitLens, FixedDists, Covers,
         Blocks, Replays;
    var bits := BlockBits(btype, final, items) + rest;
    if btype == 1 {
      FixedRoundTrip(items, rest, out, after);
      var data := DataBits(FixedLitLens(), FixedDists(), items);
      assert bits == [final, true, false] + (data + rest);
      ReadHeader(final, true, false, data + rest, out);
    } else {
      DynamicRoundTrip(items, rest, out, after);
      var ll, d := DynamicLitLens(items), DynamicDists(items);
      var tree, data := TreeBits(ll, d), DataBits(ll, d, items);
      assert bits == [final, false, true] + (tree + (data + rest));
      ReadHeader(final, false, true, tree + (data + rest), out);
    }
  }
}
