/**
 LZ77 data: literals and (length, distance) pairs, what they stand for, and the
 symbol counts the dynamic trees are built from.
 */
module Lz77Store {
  import opened Symbols

  type Byte = b: nat | b < 256

  /** `dist` 0 marks a literal; otherwise `litlen` is the match length. */
  datatype Item = Item(litlen: nat, dist: nat)

  type Store = seq<Item>

  predicate ValidItem(it: Item) {
    if it.dist == 0 then it.litlen < 256
    else 3 <= it.litlen <= 258 && it.dist <= 32768
  }

  ghost predicate ValidStore(items: Store) {
    forall i | 0 <= i < |items| :: ValidItem(items[i])
  }

  /** The number of bytes an item stands for. */
  function ItemSize(it: Item): nat {
    if it.dist == 0 then 1 else it.litlen
  }

  function StoreSize(items: Store): nat {
    if items == [] then 0 else StoreSize(items[..|items| - 1]) + ItemSize(items[|items| - 1])
  }

  // ----- Meaning -----------------------------------------------------------------

  /** Appends `len` bytes, each a copy of the byte `dist` before the end. */
  function Copy(out: seq<Byte>, dist: nat, len: nat): (r: seq<Byte>)
    requires 1 <= dist <= |out|
    ensures |r| == |out| + len && out <= r
    decreases len
  {
    if len == 0 then out else Copy(out + [out[|out| - dist]], dist, len - 1)
  }

  /** An item can be replayed after `out`. */
  predicate Replayable(out: seq<Byte>, it: Item) {
    ValidItem(it) && it.dist <= |out|
  }

  function ReplayItem(out: seq<Byte>, it: Item): (r: seq<Byte>)
    requires Replayable(out, it)
    ensures |r| == |out| + ItemSize(it) && out <= r
  {
    if it.dist == 0 then out + [it.litlen] else Copy(out, it.dist, it.litlen)
  }

  /** The items produce exactly `after` when replayed after `before`. */
  ghost predicate Replays(before: seq<Byte>, items: Store, after: seq<Byte>)
    decreases |items|
  {
    if items == [] then before == after
    else Replayable(before, items[0]) && Replays(ReplayItem(before, items[0]), items[1..], after)
  }

  lemma {:induction false} ReplaysConcat(a: seq<Byte>, xs: Store, b: seq<Byte>, ys: Store, c: seq<Byte>)
    requires Replays(a, xs, b) && Replays(b, ys, c)
    ensures Replays(a, xs + ys, c)
    decreases |xs|
  {
    hide ReplayItem, Replayable;
    if xs == [] {
      assert xs + ys == ys;
    } else {
      ReplaysConcat(ReplayItem(a, xs[0]), xs[1..], b, ys, c);
      assert (xs + ys)[1..] == xs[1..] + ys;
    }
  }

  lemma {:induction false} ReplaysOne(a: seq<Byte>, it: Item)
    requires Replayable(a, it)
    ensures Replays(a, [it], ReplayItem(a, it))
  {
    assert [it][1..] == [];
    assert Replays(ReplayItem(a, it), [], ReplayItem(a, it));
  }

  lemma {:induction false} ReplaysAppend(a: seq<Byte>, xs: Store, b: seq<Byte>, it: Item)
    requires Replays(a, xs, b) && Replayable(b, it)
    ensures Replays(a, xs + [it], ReplayItem(b, it))
  {
    ReplaysOne(b, it);
    ReplaysConcat(a, xs, b, [it], ReplayItem(b, it));
  }

  /** A cut anywhere in the items has a byte position of its own. */
  lemma {:induction false} ReplaysSplit(a: seq<Byte>, items: Store, c: seq<Byte>, k: nat) returns (b: seq<Byte>)
    requires Replays(a, items, c) && k <= |items|
    ensures Replays(a, items[..k], b) && Replays(b, items[k..], c)
    decreases k
  {
    if k == 0 {
      b := a;
      assert items[..0] == [] && items[0..] == items;
    } else {
      b := ReplaysSplit(ReplayItem(a, items[0]), items[1..], c, k - 1);
      assert items[1..][..k - 1] == items[..k][1..];
      assert items[1..][k - 1..] == items[k..];
    }
  }

  lemma {:induction false} ReplaysValid(a: seq<Byte>, items: Store, c: seq<Byte>)
    requires Replays(a, items, c)
    ensures ValidStore(items) && a <= c && |c| == |a| + StoreSize(items)
    decreases |items|
  {
    if items != [] {
      var rest := items[1..];
      ReplaysValid(ReplayItem(a, items[0]), rest, c);
      StoreSizeCons(items);
      forall i | 0 <= i < |items|
        ensures ValidItem(items[i])
      {
        if i > 0 {
          assert items[i] == rest[i - 1];
        }
      }
    }
  }

  lemma {:induction false} StoreSizeCons(items: Store)
    requires items != []
    ensures StoreSize(items) == ItemSize(items[0]) + StoreSize(items[1..])
  {
    var init := items[..|items| - 1];
    if init == [] {
      assert items[1..] == [];
    } else {
      StoreSizeCons(init);
      assert init[1..] == items[1..][..|items| - 2];
    }
  }

  // ----- Copies of real data --------------------------------------------------------

  /** Byte k equals the byte `dist` before it. */
  predicate Repeats(data: seq<Byte>, k: nat, dist: nat) {
    dist <= k < |data| && data[k] == data[k - dist]
  }

  /** Bytes pos.. repeat the bytes `dist` earlier, for `len` bytes. */
  ghost predicate Matches(data: seq<Byte>, pos: nat, dist: nat, len: nat) {
    && pos + len <= |data| && 1 <= dist <= pos
    && forall k: nat | pos <= k < pos + len :: Repeats(data, k, dist)
  }

  lemma {:induction false} CopyIsData(data: seq<Byte>, pos: nat, dist: nat, len: nat)
    requires Matches(data, pos, dist, len)
    ensures Copy(data[..pos], dist, len) == data[..pos + len]
    decreases len
  {
    if len > 0 {
      assert Repeats(data, pos, dist);
      assert data[..pos] + [data[pos - dist]] == data[..pos + 1];
      CopyIsData(data, pos + 1, dist, len - 1);
    }
  }

  /** Appending a literal or a genuine match extends the data replayed. */
  lemma {:induction false} ReplaysMatch(data: seq<Byte>, start: nat, items: Store, pos: nat, dist: nat, len: nat)
    requires start <= pos <= |data| && Replays(data[..start], items, data[..pos])
    requires Matches(data, pos, dist, len) && 3 <= len <= 258 && dist <= 32768
    ensures Replays(data[..start], items + [Item(len, dist)], data[..pos + len])
  {
    CopyIsData(data, pos, dist, len);
    ReplaysAppend(data[..start], items, data[..pos], Item(len, dist));
  }

  lemma {:induction false} ReplaysLiteral(data: seq<Byte>, start: nat, items: Store, pos: nat)
    requires start <= pos < |data| && Replays(data[..start], items, data[..pos])
    ensures Replays(data[..start], items + [Item(data[pos], 0)], data[..pos + 1])
  {
    assert data[..pos] + [data[pos]] == data[..pos + 1];
    ReplaysAppend(data[..start], items, data[..pos], Item(data[pos], 0));
  }

  // ----- Symbol counts -----------------------------------------------------------------

  function LitLenSymbol(it: Item): nat
    requires ValidItem(it)
  {
    if it.dist == 0 then it.litlen else LengthSymbol(it.litlen)
  }

  /** Occurrences of lit/len symbol `s` among the items, the end symbol not included. */
  function LitLenCount(items: Store, s: nat): nat
    requires ValidStore(items)
  {
    if items == [] then 0
    else LitLenCount(items[..|items| - 1], s) +
         (if LitLenSymbol(items[|items| - 1]) == s then 1 else 0)
  }

  function DistCount(items: Store, s: nat): nat
    requires ValidStore(items)
  {
    if items == [] then 0
    else
      var last := items[|items| - 1];
      DistCount(items[..|items| - 1], s) + (if last.dist > 0 && DistSymbol(last.dist) == s then 1 else 0)
  }

  function LitLenCounts(items: Store): (r: seq<nat>)
    requires ValidStore(items)
    ensures |r| == 288
    ensures forall s | 0 <= s < 288 :: r[s] == if s == 256 then 1 else LitLenCount(items, s)
  {
    seq(288, s requires s >= 0 => if s == 256 then 1 else LitLenCount(items, s))
  }

  function DistCounts(items: Store): (r: seq<nat>)
    requires ValidStore(items)
    ensures |r| == 32
    ensures forall s | 0 <= s < 32 :: r[s] == DistCount(items, s)
  {
    seq(32, s requires s >= 0 => DistCount(items, s))
  }

  lemma {:induction false} SymbolRanges(it: Item)
    requires ValidItem(it)
    ensures LitLenSymbol(it) <= 285 && LitLenSymbol(it) != 256
    ensures it.dist > 0 ==> DistSymbol(it.dist) <= 29 && LitLenSymbol(it) > 256
    ensures it.dist == 0 ==> LitLenSymbol(it) < 256
  {
    if it.dist > 0 {
      LengthRoundTrip(it.litlen);
      DistRoundTrip(it.dist);
    }
  }

  /** Every symbol an item needs is counted. */
  lemma {:induction false} Counted(items: Store, i: nat)
    requires ValidStore(items) && i < |items|
    ensures LitLenCount(items, LitLenSymbol(items[i])) > 0
    ensures items[i].dist > 0 ==> DistCount(items, DistSymbol(items[i].dist)) > 0
  {
    if i < |items| - 1 {
      Counted(items[..|items| - 1], i);
    }
  }

  lemma {:induction false} UnusedSymbols(items: Store, s: nat)
    requires ValidStore(items)
    ensures s >= 286 || s == 256 ==> LitLenCount(items, s) == 0
    ensures s >= 30 ==> DistCount(items, s) == 0
  {
    if items != [] {
      UnusedSymbols(items[..|items| - 1], s);
      SymbolRanges(items[|items| - 1]);
    }
  }

  lemma {:induction false} NothingCounted(items: Store, start: nat)
    requires start <= |items| && ValidStore(items)
    ensures forall s: nat :: LitLenCount(items[start..start], s) == 0 && DistCount(items[start..start], s) == 0
  {
  }

  lemma {:induction false} CountsNext(items: Store, start: nat, i: nat)
    requires start <= i < |items| && ValidStore(items)
    ensures forall s: nat :: LitLenCount(items[start..i + 1], s)
              == LitLenCount(items[start..i], s) + (if LitLenSymbol(items[i]) == s then 1 else 0)
    ensures forall s: nat :: DistCount(items[start..i + 1], s)
              == DistCount(items[start..i], s) + (if items[i].dist > 0 && DistSymbol(items[i].dist) == s then 1 else 0)
  {
    hide LitLenSymbol, DistSymbol;
    assert items[start..i + 1][..i - start] == items[start..i];
  }

  /** Counts literal, length and distance symbols of items[start..end]. */
  method Counts(items: Store, start: nat, end: nat) returns (llCount: seq<nat>, dCount: seq<nat>)
    requires start <= end <= |items| && ValidStore(items)
    ensures llCount == LitLenCounts(items[start..end]) && dCount == DistCounts(items[start..end])
  {
    hide LengthSymbol, DistSymbol, LitLenCount, DistCount;
    NothingCounted(items, start);
    var ll := new nat[288](_ => 0);
    var d := new nat[32](_ => 0);
    for i := start to end
      invariant forall s | 0 <= s < 288 :: ll[s] == LitLenCount(items[start..i], s)
      invariant forall s | 0 <= s < 32 :: d[s] == DistCount(items[start..i], s)
    {
      CountsNext(items, start, i);
      SymbolRanges(items[i]);
      if items[i].dist == 0 {
        ll[items[i].litlen] := ll[items[i].litlen] + 1;
      } else {
        var lls := LengthSymbol(items[i].litlen);
        ll[lls] := ll[lls] + 1;
        var ds := DistSymbol(items[i].dist);
        d[ds] := d[ds] + 1;
      }
    }
    ll[256] := 1;
    llCount, dCount := ll[..], d[..];
  }
}
