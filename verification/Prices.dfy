/**
 What the prices of the cost models are: with code lengths for symbol statistics a parse
 costs exactly the bits its items take with those codes, and the fixed-tree prices are the
 case of the fixed codes.
 */
module Prices {
  import opened Bits
  import opened Symbols
  import opened Lz77Store
  import opened CanonicalCode
  import opened Inflate
  import opened BlockEncoding
  import opened DeflateBlock
  import opened CostModel
  import opened ParseGraph

  /** Code lengths taken as symbol statistics. */
  function AsPrices(lens: seq<nat>): nat -> real {
    (s: nat) => if s < |lens| then lens[s] as real else 0.0
  }

  function CodeModel(ll: seq<nat>, d: seq<nat>): Model {
    StatModel(AsPrices(ll), AsPrices(d))
  }

  lemma {:induction false} ItemPrice(ll: seq<nat>, d: seq<nat>, it: Item)
    requires ValidItem(it) && LitLenSymbol(it) < |ll| && (it.dist > 0 ==> DistSymbol(it.dist) < |d|)
    ensures ItemCost(CodeModel(ll, d), it) == |ItemBits(ll, d, it)| as real
  {
    hide LengthSymbol, DistSymbol, LengthExtraBits, DistExtraBits, ItemBits, DistExtra;
    ItemBitsSize(ll, d, it);
    StatIsModel(AsPrices(ll), AsPrices(d), it.litlen, it.dist);
  }

  /** With code lengths for statistics a parse costs the bits of its items. */
  lemma {:induction false} ItemsPrice(ll: seq<nat>, d: seq<nat>, items: Store)
    requires Covers(ll, d, items)
    ensures ItemsCost(CodeModel(ll, d), items) == |ItemsBits(ll, d, items)| as real
    ensures |DataBits(ll, d, items)| == |ItemsBits(ll, d, items)| + ll[256]
  {
    hide CodeModel, ItemCost, ItemBits, DataBits, CodeBits, LitLenSymbol, DistSymbol, ValidItem;
    DataIsItems(ll, d, items);
    if items != [] {
      var n := |items| - 1;
      CoversSlice(ll, d, items, 0, n);
      assert Covers(ll, d, items[..n]);
      ItemsPrice(ll, d, items[..n]);
      ItemPrice(ll, d, items[n]);
    }
  }

  lemma {:induction false} FixedItemPrice(it: Item)
    requires ValidItem(it)
    ensures ItemCost(FixedModel(), it) == ItemCost(CodeModel(FixedLitLens(), FixedDists()), it)
  {
    hide LengthSymbol, DistSymbol, LengthExtraBits, DistExtra, DistExtraBits;
    if it.dist > 0 {
      LengthRoundTrip(it.litlen);
      DistRoundTrip(it.dist);
    }
  }

  lemma {:induction false} FixedItemsPrice(items: Store)
    requires ValidStore(items)
    ensures ItemsCost(FixedModel(), items) == ItemsCost(CodeModel(FixedLitLens(), FixedDists()), items)
  {
    hide ItemCost, FixedModel, CodeModel, ValidItem;
    if items != [] {
      FixedItemsPrice(items[..|items| - 1]);
      FixedItemPrice(items[|items| - 1]);
    }
  }

  /** The fixed-tree price of a parse is the size of its fixed block but for the header and
      the end symbol. */
  lemma {:induction false} FixedPrice(items: Store, final: bool)
    requires ValidStore(items)
    ensures ItemsCost(FixedModel(), items) == |BlockBits(1, final, items)| as real - 10.0
  {
    hide ItemsCost, FixedModel, CodeModel, DataBits, ItemsBits, Covers, ValidItem;
    FixedTrees(items);
    FixedItemsPrice(items);
    ItemsPrice(FixedLitLens(), FixedDists(), items);
  }
}
