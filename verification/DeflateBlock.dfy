/**
 Writing DEFLATE blocks: the dynamic tree header, the coded items, whole blocks of
 each type, and the functions that predict how large a block will be. Every writer
 is proved to append exactly the bits of module BlockEncoding.
 */
module DeflateBlock {
  import opened Optional
  import opened Arith
  import opened Bits
  import opened Symbols
  import opened Lz77Store
  import opened CodeLengths
  import opened MinimumRedundancy
  import opened CanonicalCode
  import opened Inflate
  import opened TreeHeader
  import opened BlockEncoding
  import opened BitWriter
  import Katajainen

  // ----- The dynamic tree ---------------------------------------------------------

  /** Code lengths of at most 15 (or 7) bits always exist for these alphabets. */
  method CalculateBitLengths(count: seq<nat>, maxbits: nat) returns (bitlengths: seq<nat>)
    requires maxbits >= 1 && |count| <= Pow2(maxbits)
    ensures Encodable(count, maxbits) && bitlengths == Lengths(count, maxbits)
  {
    hide Lengths;
    FewSymbols(count, maxbits);
    var error;
    error, bitlengths := Katajainen.LengthLimitedCodeLengths(count, maxbits);
    assert !error;
  }

  /** Appends `repeat` copies of v: 16 with six, 16 with three, then literals. */
  method AddRepeats(es: seq<Entry>, v: nat, repeat: nat) returns (r: seq<Entry>)
    ensures r == es + Copies(v, repeat)
  {
    r := es;
    var left := repeat;
    while left >= 6
      invariant r + Copies(v, left) == es + Copies(v, repeat)
    {
      r := r + [Entry(16, 6 - 3)];
      left := left - 6;
    }
    if left >= 3 {
      assert Copies(v, left) == [Entry(16, 0)] + Literals(v, left - 3);
      r := r + [Entry(16, 3 - 3)];
      left := left - 3;
    }
    while left != 0
      invariant r + Literals(v, left) == es + Copies(v, repeat)
    {
      assert Literals(v, left) == [Entry(v, 0)] + Literals(v, left - 1);
      r := r + [Entry(v, 0)];
      left := left - 1;
    }
    assert Literals(v, 0) == [];
  }

  method RunAt(l: seq<nat>, i: nat) returns (count: nat)
    requires i < |l|
    ensures count == RunFrom(l, i, i)
  {
    count := 0;
    var j := i;
    while j < |l| && l[i] == l[j]
      invariant i <= j <= |l| && count == j - i
      invariant count + RunFrom(l, i, j) == RunFrom(l, i, i)
    {
      count := count + 1;
      j := j + 1;
    }
  }

  /** Appends the entries of the run at i and returns how many lengths they cover. */
  method AddRun(es: seq<Entry>, l: seq<nat>, i: nat) returns (r: seq<Entry>, count: nat)
    requires i < |l|
    ensures r == es + Run(l, i).0 && count == Run(l, i).1
  {
    hide Copies, RunFrom;
    r := es;
    count := RunAt(l, i);
    if count >= 4 || (count >= 3 && l[i] == 0) {
      if l[i] == 0 {
        if count > 10 {
          if count > 138 {
            count := 138;
          }
          r := r + [Entry(18, count - 11)];
        } else {
          r := r + [Entry(17, count - 3)];
        }
      } else {
        r := AddRepeats(r + [Entry(l[i], 0)], l[i], count - 1);
      }
    } else {
      r := r + [Entry(l[i], 0)];
      count := 1;
    }
  }

  /** Run-length coding of the joined lengths. */
  method RunLengthCode(l: seq<nat>) returns (es: seq<Entry>)
    ensures es == Rle(l, 0)
  {
    hide Rle, Run;
    es := [];
    var i := 0;
    while i < |l|
      invariant i <= |l| && es + Rle(l, i) == Rle(l, 0)
    {
      RleUnfold(l, i);
      ghost var before := es;
      var count;
      es, count := AddRun(es, l, i);
      assert es + Rle(l, i + count) == before + Rle(l, i);
      i := i + count;
    }
    RleUnfold(l, |l|);
  }

  method TrimZeros(ll: seq<nat>, d: seq<nat>) returns (hlit: nat, hdist: nat)
    requires |ll| == 288 && |d| == 32
    ensures hlit == TrimLit(ll, 29) && hdist == TrimDist(d, 29)
  {
    hlit, hdist := 29, 29;
    while hlit > 0 && ll[257 + hlit - 1] == 0
      invariant hlit <= 29 && TrimLit(ll, hlit) == TrimLit(ll, 29)
    {
      hlit := hlit - 1;
    }
    while hdist > 0 && d[1 + hdist - 1] == 0
      invariant hdist <= 29 && TrimDist(d, hdist) == TrimDist(d, 29)
    {
      hdist := hdist - 1;
    }
  }

  method CountEntries(es: seq<Entry>) returns (counts: seq<nat>)
    requires ValidEntries(es)
    ensures counts == EntryCounts(es)
  {
    var c := new nat[19](_ => 0);
    for i := 0 to |es|
      invariant forall s | 0 <= s < 19 :: c[s] == EntryCount(es[..i], s)
    {
      assert ValidEntry(es[i]);
      assert es[..i + 1][..i] == es[..i];
      c[es[i].symbol] := c[es[i].symbol] + 1;
    }
    assert es[..|es|] == es;
    counts := c[..];
  }

  /** The order in which the code length code lengths are sent. */
  const ORDER: seq<nat> := [16, 17, 18, 0, 8, 7, 9, 6, 10, 5, 11, 4, 12, 3, 13, 2, 14, 1, 15]

  /** It is the order in which a decoder expects them (section 3.2.7 of RFC 1951). */
  lemma {:induction false} OrderAgrees(i: nat)
    requires i < 19
    ensures |ORDER| == 19 && ORDER[i] == Order(i)
  {
    assert ORDER[i] == [16, 17, 18, 0, 8, 7, 9, 6, 10, 5, 11, 4, 12, 3, 13, 2, 14, 1, 15][i];
  }

  method TrimOrderZeros(counts: seq<nat>) returns (hclen: nat)
    requires |counts| == 19
    ensures hclen == TrimOrder(counts, 15)
  {
    hide Order;
    hclen := 15;
    OrderAgrees(18);
    while hclen > 0 && counts[ORDER[hclen + 4 - 1]] == 0
      invariant hclen <= 15 && TrimOrder(counts, hclen) == TrimOrder(counts, 15)
    {
      OrderAgrees(hclen + 4 - 1);
      hclen := hclen - 1;
      OrderAgrees(hclen + 4 - 1);
    }
    OrderAgrees(hclen + 4 - 1);
  }

  method AddOrderBits(w: Writer, cl: seq<nat>, n: nat)
    requires w.Valid() && |cl| == 19 && n <= 19
    modifies w
    ensures w.Valid() && w.Bits() == old(w.Bits()) + OrderBits(cl, 0, n)
  {
    hide Order, OrderBits, LowFirst, Written, Pow2;
    for i := 0 to n
      invariant w.Valid() && w.Bits() + OrderBits(cl, i, n) == old(w.Bits()) + OrderBits(cl, 0, n)
    {
      OrderBitsNext(w.Bits(), cl, i, n);
      OrderAgrees(i);
      w.AddBits(cl[ORDER[i]], 3);
    }
    OrderBitsEnd(w.Bits(), cl, n);
  }

  lemma {:induction false} OrderBitsNext(start: BitString, cl: seq<nat>, i: nat, n: nat)
    requires |cl| == 19 && i < n <= 19
    ensures start + LowFirst(cl[Order(i)], 3) + OrderBits(cl, i + 1, n) == start + OrderBits(cl, i, n)
  {
    hide Order, LowFirst;
  }

  lemma {:induction false} OrderBitsEnd(start: BitString, cl: seq<nat>, n: nat)
    requires |cl| == 19 && n <= 19
    ensures start + OrderBits(cl, n, n) == start
  {
  }

  method AddEntry(w: Writer, cl: seq<nat>, clSymbol: nat, e: Entry)
    requires w.Valid() && |cl| == 19 && e.symbol < 19 && clSymbol == Code(cl, e.symbol)
    modifies w
    ensures w.Valid() && w.Bits() == old(w.Bits()) + EntryBits(cl, e)
  {
    hide Code, HighFirst, LowFirst;
    w.AddHuffmanBits(clSymbol, cl[e.symbol]);
    NoBits(e.extra);
    if e.symbol == 16 {
      w.AddBits(e.extra, 2);
    } else if e.symbol == 17 {
      w.AddBits(e.extra, 3);
    } else if e.symbol == 18 {
      w.AddBits(e.extra, 7);
    }
    assert w.Bits() == old(w.Bits()) + EntryBits(cl, e);
  }

  lemma {:induction false} FirstEntry(cl: seq<nat>, es: seq<Entry>, i: nat)
    requires Codes(cl, es) && i < |es| && ValidEntries(es[i..])
    ensures |cl| == 19 && es[i].symbol < 19 && cl[es[i].symbol] > 0 && ValidEntries(es[i + 1..])
    ensures RleBits(cl, es[i..]) == EntryBits(cl, es[i]) + RleBits(cl, es[i + 1..])
  {
    hide EntryBits;
    assert ValidEntry(es[i]);
    assert es[i..][1..] == es[i + 1..];
  }

  method AddEntries(w: Writer, cl: seq<nat>, clSymbols: seq<nat>, es: seq<Entry>)
    requires w.Valid() && Codes(cl, es) && |clSymbols| == 19
    requires forall s | 0 <= s < 19 :: clSymbols[s] == if cl[s] == 0 then 0 else Code(cl, s)
    modifies w
    ensures w.Valid() && w.Bits() == old(w.Bits()) + RleBits(cl, es)
  {
    hide RleBits, EntryBits, Code, KraftAtMostOne;
    assert es[0..] == es;
    for i := 0 to |es|
      invariant w.Valid() && ValidEntries(es[i..])
      invariant w.Bits() + RleBits(cl, es[i..]) == old(w.Bits()) + RleBits(cl, es)
    {
      ghost var before := w.Bits();
      FirstEntry(cl, es, i);
      AddEntry(w, cl, clSymbols[es[i].symbol], es[i]);
      assert w.Bits() + RleBits(cl, es[i + 1..]) == before + RleBits(cl, es[i..]);
    }
    assert es[|es|..] == [];
    RleBitsNone(cl, []);
  }

  /** Appends the header of a dynamic block. */
  method AddDynamicTree(w: Writer, ll: seq<nat>, d: seq<nat>)
    requires w.Valid() && |ll| == 288 && |d| == 32 && Below16(ll) && Below16(d)
    modifies w
    ensures w.Valid() && w.Bits() == old(w.Bits()) + TreeBits(ll, d)
  {
    hide Rle, TrimLit, TrimDist, TrimOrder, OrderBits, RleBits, EntryCounts, Lengths, Codes, LowFirst, Bounded,
         Pow2, Written;
    var hlit, hdist := TrimZeros(ll, d);
    var l := ll[..257 + hlit] + d[..1 + hdist];
    var es := RunLengthCode(l);
    RleValid(l, 0);
    EntryCodeCodes(es);
    var counts := CountEntries(es);
    SmallPowers();
    var cl := CalculateBitLengths(counts, 7);
    assert cl == EntryCode(es);
    CodesBounded(cl, es);
    var clSymbols := LengthsToSymbols(cl, 7);
    var hclen := TrimOrderZeros(counts);
    AddTreeFields(w, hlit, hdist, hclen, cl, clSymbols, es);
  }

  /** The fields of the tree header, in order. */
  method AddTreeFields(w: Writer, hlit: nat, hdist: nat, hclen: nat, cl: seq<nat>, clSymbols: seq<nat>, es: seq<Entry>)
    requires w.Valid() && Codes(cl, es) && |cl| == |clSymbols| == 19 && hclen <= 15 && ValidEntries(es)
    requires forall s | 0 <= s < 19 :: clSymbols[s] == if cl[s] == 0 then 0 else Code(cl, s)
    modifies w
    ensures w.Valid()
    ensures w.Bits() == old(w.Bits()) + (LowFirst(hlit, 5) + LowFirst(hdist, 5) + LowFirst(hclen, 4)
                                         + OrderBits(cl, 0, hclen + 4) + RleBits(cl, es))
  {
    hide OrderBits, RleBits, Codes, LowFirst, Pow2, Written, Code, ValidEntries;
    w.AddBits(hlit, 5);
    w.AddBits(hdist, 5);
    w.AddBits(hclen, 4);
    AddOrderBits(w, cl, hclen + 4);
    AddEntries(w, cl, clSymbols, es);
    FiveParts(old(w.Bits()), LowFirst(hlit, 5), LowFirst(hdist, 5), LowFirst(hclen, 4), OrderBits(cl, 0, hclen + 4),
        RleBits(cl, es));
  }

  lemma {:induction false} FiveParts(s: BitString, a: BitString, b: BitString, c: BitString, d: BitString, e: BitString)
    ensures s + a + b + c + d + e == s + (a + b + c + d + e)
  {
  }

  lemma {:induction false} CodesBounded(cl: seq<nat>, es: seq<Entry>)
    requires Codes(cl, es)
    ensures |cl| == 19 && Bounded(cl, 7)
  {
  }

  // ----- Items -----------------------------------------------------------------------

  method AddItem(w: Writer, it: Item, llSymbols: seq<nat>, ll: seq<nat>, dSymbols: seq<nat>, d: seq<nat>)
    requires w.Valid() && ValidItem(it)
    requires |llSymbols| == |ll| == 288 && |dSymbols| == |d| == 32
    requires LitLenSymbol(it) < 288 && llSymbols[LitLenSymbol(it)] == Code(ll, LitLenSymbol(it))
    requires it.dist > 0 ==> DistSymbol(it.dist) < 32 && dSymbols[DistSymbol(it.dist)] == Code(d, DistSymbol(it.dist))
    modifies w
    ensures w.Valid() && w.Bits() == old(w.Bits()) + ItemBits(ll, d, it)
  {
    hide LengthSymbol, DistSymbol, Code, LowFirst, HighFirst, LengthExtraValue, LengthExtraBits, DistExtraBits,
         DistExtraValue;
    if it.dist == 0 {
      w.AddHuffmanBits(llSymbols[it.litlen], ll[it.litlen]);
    } else {
      var lls := LengthSymbol(it.litlen);
      var ds := DistSymbol(it.dist);
      w.AddHuffmanBits(llSymbols[lls], ll[lls]);
      w.AddBits(LengthExtraValue(it.litlen), LengthExtraBits(it.litlen));
      w.AddHuffmanBits(dSymbols[ds], d[ds]);
      w.AddBits(DistExtraValue(it.dist), DistExtraBits(it.dist));
      assert w.Bits() == old(w.Bits()) + ItemBits(ll, d, it);
    }
  }

  ghost predicate SymbolsOf(symbols: seq<nat>, lens: seq<nat>) {
    |symbols| == |lens| && forall i | 0 <= i < |lens| :: symbols[i] == if lens[i] == 0 then 0 else Code(lens, i)
  }

  /** Appends items[lstart..lend] without the end symbol; the expected size, unless 0,
      is the number of bytes they stand for. */
  method AddLZ77Data(w: Writer, items: Store, lstart: nat, lend: nat, expected: nat,
                     llSymbols: seq<nat>, ll: seq<nat>, dSymbols: seq<nat>, d: seq<nat>)
    requires w.Valid() && lstart <= lend <= |items| && Covers(ll, d, items[lstart..lend])
    requires SymbolsOf(llSymbols, ll) && SymbolsOf(dSymbols, d)
    requires expected == 0 || expected == StoreSize(items[lstart..lend])
    modifies w
    ensures w.Valid() && w.Bits() == old(w.Bits()) + ItemsBits(ll, d, items[lstart..lend])
  {
    hide Covers, ItemBits, ItemsBits, LitLenSymbol, DistSymbol, ValidItem, Code, StoreSize, Written, Pow2;
    ghost var block := items[lstart..lend];
    var testlength := 0;
    NoItems(ll, d, block);
    for i := lstart to lend
      invariant w.Valid() && Covers(ll, d, block[..i - lstart])
      invariant w.Bits() == old(w.Bits()) + ItemsBits(ll, d, block[..i - lstart])
      invariant testlength == StoreSize(block[..i - lstart])
    {
      CoveredItem(ll, d, block, i - lstart);
      AddItem(w, items[i], llSymbols, ll, dSymbols, d);
      testlength := testlength + ItemSize(items[i]);
    }
    assert block[..lend - lstart] == block;
    assert expected == 0 || testlength == expected;
  }

  lemma {:induction false} NoItems(ll: seq<nat>, d: seq<nat>, items: Store)
    requires Covers(ll, d, items)
    ensures Covers(ll, d, items[..0]) && ItemsBits(ll, d, items[..0]) == [] && StoreSize(items[..0]) == 0
  {
  }

  lemma {:induction false} CoveredItem(ll: seq<nat>, d: seq<nat>, items: Store, i: nat)
    requires Covers(ll, d, items) && i < |items|
    ensures |ll| == 288 && |d| == 32 && ValidItem(items[i])
    ensures LitLenSymbol(items[i]) < 288 && ll[LitLenSymbol(items[i])] > 0
    ensures items[i].dist > 0 ==> DistSymbol(items[i].dist) < 32 && d[DistSymbol(items[i].dist)] > 0
    ensures Covers(ll, d, items[..i]) && Covers(ll, d, items[..i + 1])
    ensures ItemsBits(ll, d, items[..i + 1]) == ItemsBits(ll, d, items[..i]) + ItemBits(ll, d, items[i])
    ensures StoreSize(items[..i + 1]) == StoreSize(items[..i]) + ItemSize(items[i])
  {
    hide ItemBits, LitLenSymbol, DistSymbol, ValidItem;
    assert items[..i + 1][..i] == items[..i];
  }

  // ----- Whole blocks ------------------------------------------------------------------

  /** Adds dummy distance codes in place when fewer than two are used. */
  method PatchDistanceCodes(d: array<nat>)
    requires d.Length == 32
    modifies d
    ensures d[..] == Patched(old(d[..]))
  {
    var numDistCodes := 0;
    for i := 0 to 30
      invariant numDistCodes == UsedCodes(d[..], i) && numDistCodes < 2 && d[..] == old(d[..])
    {
      if d[i] != 0 {
        numDistCodes := numDistCodes + 1;
      }
      if numDistCodes >= 2 {
        MoreUsed(d[..], i + 1, 30);
        return;
      }
    }
    if numDistCodes == 0 {
      d[0] := 1;
      d[1] := 1;
    } else {
      d[if d[0] != 0 then 1 else 0] := 1;
    }
  }

  lemma {:induction false} MoreUsed(d: seq<nat>, i: nat, n: nat)
    requires i <= n <= |d|
    ensures UsedCodes(d, i) <= UsedCodes(d, n)
  {
    if i < n {
      MoreUsed(d, i, n - 1);
    }
  }

  method GetFixedTree() returns (ll: seq<nat>, d: seq<nat>)
    ensures ll == FixedLitLens() && d == FixedDists()
  {
    var a := new nat[288];
    for i := 0 to 144
      invariant forall s | 0 <= s < i :: a[s] == 8
    {
      a[i] := 8;
    }
    for i := 144 to 256
      invariant forall s | 0 <= s < i :: a[s] == FixedLitLen(s)
    {
      a[i] := 9;
    }
    for i := 256 to 280
      invariant forall s | 0 <= s < i :: a[s] == FixedLitLen(s)
    {
      a[i] := 7;
    }
    for i := 280 to 288
      invariant forall s | 0 <= s < i :: a[s] == FixedLitLen(s)
    {
      a[i] := 8;
    }
    ll := a[..];
    var b := new nat[32];
    for i := 0 to 32
      invariant forall s | 0 <= s < i :: b[s] == 5
    {
      b[i] := 5;
    }
    d := b[..];
  }

  /** The trees of a dynamic block, from the counts of its symbols. */
  method DynamicTree(items: Store, lstart: nat, lend: nat) returns (ll: seq<nat>, d: seq<nat>)
    requires ValidStore(items) && lstart <= lend <= |items|
    ensures ValidStore(items[lstart..lend])
    ensures ll == DynamicLitLens(items[lstart..lend]) && d == DynamicDists(items[lstart..lend])
  {
    hide Lengths, LitLenCount, DistCount, Patched, Pow2;
    SmallPowers();
    var llCounts, dCounts := Counts(items, lstart, lend);
    ll := CalculateBitLengths(llCounts, 15);
    d := CalculateBitLengths(dCounts, 15);
    var patched := new nat[32](i requires 0 <= i < 32 => d[i]);
    assert patched[..] == d;
    PatchDistanceCodes(patched);
    d := patched[..];
  }

  /** Appends the items and the end symbol, coded with the given trees. */
  method AddLZ77Body(w: Writer, items: Store, lstart: nat, lend: nat, expected: nat, ll: seq<nat>, d: seq<nat>)
    requires w.Valid() && lstart <= lend <= |items| && Covers(ll, d, items[lstart..lend])
    requires Bounded(ll, 15) && Bounded(d, 15)
    requires expected == 0 || expected == StoreSize(items[lstart..lend])
    modifies w
    ensures w.Valid() && w.Bits() == old(w.Bits()) + DataBits(ll, d, items[lstart..lend])
  {
    hide ItemsBits, DataBits, Covers, StoreSize, Code, Bounded;
    ghost var block := items[lstart..lend];
    var llSymbols := LengthsToSymbols(ll, 15);
    var dSymbols := LengthsToSymbols(d, 15);
    AddLZ77Data(w, items, lstart, lend, expected, llSymbols, ll, dSymbols, d);
    EndCode(ll, d, block);
    w.AddHuffmanBits(llSymbols[256], ll[256]);
    DataIsItems(ll, d, block);
  }

  /** The final bit and the two type bits. */
  function HeaderBits(btype: nat, final: bool): BitString {
    [final, btype % 2 == 1, btype / 2 % 2 == 1]
  }

  lemma {:induction false} HeaderOfType(final: bool)
    ensures HeaderBits(0, final) == [final, false, false]
    ensures HeaderBits(1, final) == [final, true, false]
    ensures HeaderBits(2, final) == [final, false, true]
  {
  }

  method AddHeader(w: Writer, btype: nat, final: bool)
    requires w.Valid() && btype < 4
    modifies w
    ensures w.Valid() && w.Bits() == old(w.Bits()) + HeaderBits(btype, final)
  {
    w.AddBit(final);
    w.AddBit(btype % 2 == 1);
    w.AddBit(btype / 2 % 2 == 1);
  }

  method AddFixedBlock(w: Writer, items: Store, lstart: nat, lend: nat, expected: nat)
    requires w.Valid() && lstart <= lend <= |items| && ValidStore(items[lstart..lend])
    requires expected == 0 || expected == StoreSize(items[lstart..lend])
    modifies w
    ensures w.Valid() && Covers(FixedLitLens(), FixedDists(), items[lstart..lend])
    ensures w.Bits() == old(w.Bits()) + DataBits(FixedLitLens(), FixedDists(), items[lstart..lend])
  {
    hide *;
    FixedTrees(items[lstart..lend]);
    var ll, d := GetFixedTree();
    CompleteIsCodable(ll, 15);
    CompleteIsCodable(d, 15);
    AddLZ77Body(w, items, lstart, lend, expected, ll, d);
  }

  method AddDynamicBlock(w: Writer, items: Store, lstart: nat, lend: nat, expected: nat)
    requires w.Valid() && lstart <= lend <= |items| && ValidStore(items) && ValidStore(items[lstart..lend])
    requires expected == 0 || expected == StoreSize(items[lstart..lend])
    modifies w
    ensures var block := items[lstart..lend];
            var ll, d := DynamicLitLens(block), DynamicDists(block);
            && w.Valid() && Below16(ll) && Below16(d) && Covers(ll, d, block)
            && w.Bits() == old(w.Bits()) + (TreeBits(ll, d) + DataBits(ll, d, block))
  {
    hide *;
    ghost var block := items[lstart..lend];
    DynamicCovers(block);
    var ll, d := DynamicTree(items, lstart, lend);
    Below16Bounded(ll);
    Below16Bounded(d);
    AddDynamicTree(w, ll, d);
    AddLZ77Body(w, items, lstart, lend, expected, ll, d);
    Associate(old(w.Bits()), TreeBits(ll, d), [], DataBits(ll, d, block));
  }

  /** Appends one block: final bit, type, tree if dynamic, items and end symbol. */
  method AddLZ77Block(w: Writer, btype: nat, final: bool, items: Store, lstart: nat, lend: nat, expected: nat)
    requires w.Valid() && (btype == 1 || btype == 2)
    requires lstart <= lend <= |items| && ValidStore(items)
    requires expected == 0 || expected == StoreSize(items[lstart..lend])
    modifies w
    ensures w.Valid() && ValidStore(items[lstart..lend])
    ensures w.Bits() == old(w.Bits()) + BlockBits(btype, final, items[lstart..lend])
  {
    ghost var block := items[lstart..lend];
    assert ValidStore(block);
    hide *;
    BlockBitsShape(btype, final, block);
    AddHeader(w, btype, final);
    HeaderOfType(final);
    ghost var header := HeaderBits(btype, final);
    if btype == 1 {
      AddFixedBlock(w, items, lstart, lend, expected);
      Associate(old(w.Bits()), header, [], DataBits(FixedLitLens(), FixedDists(), block));
    } else {
      AddDynamicBlock(w, items, lstart, lend, expected);
      ghost var ll, d := DynamicLitLens(block), DynamicDists(block);
      Associate(old(w.Bits()), header, [], TreeBits(ll, d) + DataBits(ll, d, block));
    }
  }

  lemma {:induction false} BlockBitsShape(btype: nat, final: bool, items: Store)
    requires (btype == 1 || btype == 2) && ValidStore(items)
    ensures btype == 1 ==>
              var ll, d := FixedLitLens(), FixedDists();
              && Complete(ll, 15) && Complete(d, 15) && Covers(ll, d, items)
              && BlockBits(btype, final, items) == [final, true, false] + DataBits(ll, d, items)
    ensures btype == 2 ==>
              var ll, d := DynamicLitLens(items), DynamicDists(items);
              && |ll| == 288 && |d| == 32 && Below16(ll) && Below16(d) && Covers(ll, d, items)
              && BlockBits(btype, final, items) == [final, false, true] + (TreeBits(ll, d) + DataBits(ll, d, items))
  {
    hide DynamicLitLens, DynamicDists, TreeBits, DataBits, Covers, Below16, Complete, FixedLitLens, FixedDists;
    FixedTrees(items);
    DynamicCovers(items);
  }

  lemma {:induction false} Associate(a: BitString, b: BitString, c: BitString, d: BitString)
    ensures a + b + c + d == a + (b + (c + d))
    ensures c == [] ==> a + b + d == a + (b + d)
  {
  }

  lemma {:induction false} Below16Bounded(l: seq<nat>)
    requires Below16(l)
    ensures Bounded(l, 15)
  {
  }

  lemma {:induction false} EndCode(ll: seq<nat>, d: seq<nat>, items: Store)
    requires Covers(ll, d, items)
    ensures |ll| == 288 && ll[256] > 0
    ensures HighFirst(Code(ll, 256), ll[256]) == CodeBits(ll, 256)
  {
  }

  // ----- Predicted sizes -------------------------------------------------------------------

  lemma {:induction false} ItemBitsSize(ll: seq<nat>, d: seq<nat>, it: Item)
    requires ValidItem(it) && LitLenSymbol(it) < |ll|
    requires it.dist > 0 ==> DistSymbol(it.dist) < |d|
    ensures |ItemBits(ll, d, it)| ==
            if it.dist == 0 then ll[it.litlen]
            else ll[LengthSymbol(it.litlen)] + d[DistSymbol(it.dist)]
                 + LengthExtraBits(it.litlen) + DistExtraBits(it.dist)
  {
    hide LengthSymbol, DistSymbol, LengthExtraBits, DistExtraBits, LengthExtraValue, DistExtraValue, Code;
  }

  /** The size in bits of the items and the end symbol. */
  method CalculateBlockSymbolSize(ll: seq<nat>, d: seq<nat>, items: Store, lstart: nat, lend: nat) returns (size: nat)
    requires lstart <= lend <= |items| && Covers(ll, d, items[lstart..lend])
    ensures size == |DataBits(ll, d, items[lstart..lend])|
  {
    hide Covers, ItemBits, ItemsBits, DataBits, LitLenSymbol, ValidItem, LengthSymbol, DistSymbol, LengthExtraBits,
         DistExtraBits, StoreSize, Code;
    ghost var block := items[lstart..lend];
    size := 0;
    NoItems(ll, d, block);
    for i := lstart to lend
      invariant Covers(ll, d, block[..i - lstart])
      invariant size == |ItemsBits(ll, d, block[..i - lstart])|
    {
      CoveredItem(ll, d, block, i - lstart);
      CoveredSymbols(items[i]);
      ItemBitsSize(ll, d, items[i]);
      if items[i].dist == 0 {
        size := size + ll[items[i].litlen];
      } else {
        size := size + ll[LengthSymbol(items[i].litlen)];
        size := size + d[DistSymbol(items[i].dist)];
        size := size + LengthExtraBits(items[i].litlen);
        size := size + DistExtraBits(items[i].dist);
      }
    }
    assert block[..lend - lstart] == block;
    DataIsItems(ll, d, block);
    EndCode(ll, d, block);
    size := size + ll[256];
  }

  lemma {:induction false} CoveredSymbols(it: Item)
    requires ValidItem(it)
    ensures it.litlen <= 258 && LitLenSymbol(it) == if it.dist == 0 then it.litlen else LengthSymbol(it.litlen)
  {
    hide LengthSymbol;
  }

  /** The size of the tree header, written to a scratch buffer. The result counts a
      partly filled last byte twice: once whole and once by its bits. */
  method CalculateTreeSize(ll: seq<nat>, d: seq<nat>) returns (size: nat)
    requires |ll| == 288 && |d| == 32 && Below16(ll) && Below16(d)
    ensures size == |TreeBits(ll, d)| + (if |TreeBits(ll, d)| % 8 == 0 then 0 else 8)
  {
    hide TreeBits, ByteBits, Below16;
    var dummy := new Writer([]);
    NoBytes();
    AddDynamicTree(dummy, ll, d);
    assert dummy.Bits() == TreeBits(ll, d);
    AlignWritten(dummy.out, dummy.bp % 8);
    ByteBitsSize(dummy.out);
    size := |dummy.out| * 8 + dummy.bp % 8;
  }

  /** The excess of the estimate over the bits a block really takes. */
  function EstimateExcess(btype: nat, items: Store): nat
    requires ValidStore(items)
  {
    if btype == 1 then 0
    else
      DynamicCovers(items);
      if |TreeBits(DynamicLitLens(items), DynamicDists(items))| % 8 == 0 then 0 else 8
  }

  /** The estimated size of a block: exact for fixed trees, and for dynamic trees exact
      or 8 too many, the latter just when the tree does not fill whole bytes. */
  method CalculateBlockSize(items: Store, lstart: nat, lend: nat, btype: nat) returns (size: nat)
    requires btype == 1 || btype == 2
    requires lstart <= lend <= |items| && ValidStore(items)
    ensures ValidStore(items[lstart..lend])
    ensures forall final ::
              size == |BlockBits(btype, final, items[lstart..lend])| + EstimateExcess(btype, items[lstart..lend])
  {
    hide DynamicLitLens, DynamicDists, TreeBits, DataBits, Covers, Below16, Complete, FixedLitLens, FixedDists;
    ghost var block := items[lstart..lend];
    assert ValidStore(block);
    size := 3;
    var ll, d;
    if btype == 1 {
      ll, d := GetFixedTree();
      FixedTrees(block);
    } else {
      ll, d := DynamicTree(items, lstart, lend);
      DynamicCovers(block);
      var tree := CalculateTreeSize(ll, d);
      size := size + tree;
    }
    var data := CalculateBlockSymbolSize(ll, d, items, lstart, lend);
    size := size + data;
  }

  // ----- Stored blocks ------------------------------------------------------------------------

  /** The bits of a stored block that starts at bit position `pos`. */
  function StoredBits(pos: nat, final: bool, bytes: seq<Byte>): BitString
    requires |bytes| < 65536
  {
    [final, false, false] + (Zeros((8 - (pos + 3) % 8) % 8) +
    (LowFirst(|bytes|, 16) + (LowFirst(65535 - |bytes|, 16) + ByteBits(bytes))))
  }

  lemma {:induction false} TwoBytes(v: nat)
    requires v < 65536
    ensures LowFirst(v % 256, 8) + LowFirst(v / 256 % 256, 8) == LowFirst(v, 16)
  {
    hide LowFirst, Shift;
    assert v / 256 % 256 == v / 256;
    LowFirstSplit(v, 8, 8);
    ShiftByte(v);
    LowFirstMod(v);
  }

  lemma {:induction false} LowFirstSplit(v: nat, a: nat, b: nat)
    ensures LowFirst(v, a + b) == LowFirst(v, a) + LowFirst(Shift(v, a), b)
  {
    if a > 0 {
      LowFirstSplit(v / 2, a - 1, b);
    } else {
      NoBits(v);
    }
  }

  lemma {:induction false} ShiftByte(v: nat)
    ensures Shift(v, 8) == v / 256
  {
    ShiftStep(v, 0);
    ShiftStep(v, 1);
    ShiftStep(v, 2);
    ShiftStep(v, 3);
    ShiftStep(v, 4);
    ShiftStep(v, 5);
    ShiftStep(v, 6);
    ShiftStep(v, 7);
  }

  lemma {:induction false} LowFirstIgnores(r: nat, q: nat, k: nat)
    ensures Scale(q, k) >= 0 && LowFirst(r + Scale(q, k), k) == LowFirst(r, k)
  {
    ScaleNonNegative(q, k);
    if k > 0 {
      LowFirstIgnores(r / 2, q, k - 1);
      var v := r + Scale(q, k);
      assert v % 2 == r % 2 && v / 2 == r / 2 + Scale(q, k - 1);
    }
  }

  lemma {:induction false} Scale256(q: int)
    ensures Scale(q, 8) == 256 * q
  {
    assert Scale(q, 0) == q;
    assert Scale(q, 1) == 2 * q;
    assert Scale(q, 2) == 4 * q;
    assert Scale(q, 3) == 8 * q;
    assert Scale(q, 4) == 16 * q;
    assert Scale(q, 5) == 32 * q;
    assert Scale(q, 6) == 64 * q;
    assert Scale(q, 7) == 128 * q;
  }

  lemma {:induction false} LowFirstMod(v: nat)
    ensures LowFirst(v % 256, 8) == LowFirst(v, 8)
  {
    hide LowFirst, Scale;
    LowFirstIgnores(v % 256, v / 256, 8);
    Scale256(v / 256);
  }

  method AddStoredHeader(w: Writer, final: bool, blocksize: nat)
    requires w.Valid() && blocksize < 65536
    modifies w
    ensures w.Valid() && w.bp == 0
    ensures w.Bits() == old(w.Bits()) + ([final, false, false] + (Zeros((8 - (|old(w.Bits())| + 3) % 8) % 8) +
                        (LowFirst(blocksize, 16) + LowFirst(65535 - blocksize, 16))))
  {
    hide LowFirst, Zeros;
    ghost var start := w.Bits();
    HeaderOfType(final);
    AddHeader(w, 0, final);
    w.Align();
    AppendWord(w, blocksize);
    AppendWord(w, 65535 - blocksize);
    ghost var pad := Zeros((8 - (|start| + 3) % 8) % 8);
    ghost var len, nlen := LowFirst(blocksize, 16), LowFirst(65535 - blocksize, 16);
    assert w.Bits() == start + [final, false, false] + pad + len + nlen;
    Associate(start, [final, false, false], pad, len + nlen);
    Associate(start + [final, false, false] + pad, len, [], nlen);
  }

  /** Two bytes, the low one first. */
  method AppendWord(w: Writer, v: nat)
    requires w.Valid() && w.bp == 0 && v < 65536
    modifies w
    ensures w.Valid() && w.bp == 0 && w.Bits() == old(w.Bits()) + LowFirst(v, 16)
  {
    hide LowFirst;
    TwoBytes(v);
    w.AppendByte(v % 256);
    w.AppendByte(v / 256 % 256);
    Associate(old(w.Bits()), LowFirst(v % 256, 8), [], LowFirst(v / 256 % 256, 8));
  }

  method AppendBytes(w: Writer, input: seq<Byte>, instart: nat, inend: nat)
    requires w.Valid() && w.bp == 0 && instart <= inend <= |input|
    modifies w
    ensures w.Valid() && w.bp == 0 && w.Bits() == old(w.Bits()) + ByteBits(input[instart..inend])
  {
    hide ByteBits, LowFirst;
    NoBytes();
    assert input[instart..instart] == [];
    for i := instart to inend
      invariant w.Valid() && w.bp == 0
      invariant w.Bits() == old(w.Bits()) + ByteBits(input[instart..i])
    {
      w.AppendByte(input[i]);
      ByteBitsSnoc(input[instart..i], input[i]);
      assert input[instart..i + 1] == input[instart..i] + [input[i]];
    }
  }

  /** A stored block: header, padding to a byte boundary, length, its complement, data. */
  method DeflateNonCompressedBlock(w: Writer, final: bool, input: seq<Byte>, instart: nat, inend: nat)
    requires w.Valid() && instart <= inend <= |input| && inend - instart < 65536
    modifies w
    ensures w.Valid()
    ensures w.Bits() == old(w.Bits()) + StoredBits(|old(w.Bits())|, final, input[instart..inend])
  {
    hide ByteBits, LowFirst, Zeros;
    ghost var start := w.Bits();
    AddStoredHeader(w, final, inend - instart);
    AppendBytes(w, input, instart, inend);
    assert w.Bits() == start + StoredBits(|start|, final, input[instart..inend]);
  }

  /** Decoding a stored block appends its bytes. */
  lemma {:induction false} StoredRoundTrip(pos: nat, final: bool, bytes: seq<Byte>, rest: BitString, out: seq<Byte>)
    requires |bytes| < 65536 && |rest| % 8 == 0
    ensures Blocks(StoredBits(pos, final, bytes) + rest, out) ==
            if final then Some((out + bytes, rest)) else Blocks(rest, out + bytes)
  {
    hide ByteBits, LowFirst, Blocks, ReadBits, ReadBytes, Pow2, StoredBits;
    var pad := Zeros((8 - (pos + 3) % 8) % 8);
    var bits2 := ByteBits(bytes) + rest;
    var bits1 := LowFirst(65535 - |bytes|, 16) + bits2;
    var bits0 := LowFirst(|bytes|, 16) + bits1;
    StoredParts(pos, final, bytes, rest);
    ReadHeader(final, false, false, pad + bits0, out);
    ByteBitsSize(bytes);
    SkipPad(pad, bits0);
    SixteenBits();
    ReadBack(|bytes|, 16, bits1);
    ReadBack(65535 - |bytes|, 16, bits2);
    ReadBytesBack(bytes, rest);
  }

  lemma {:induction false} StoredParts(pos: nat, final: bool, bytes: seq<Byte>, rest: BitString)
    requires |bytes| < 65536
    ensures StoredBits(pos, final, bytes) + rest ==
            [final, false, false] + (Zeros((8 - (pos + 3) % 8) % 8)
            + (LowFirst(|bytes|, 16) + (LowFirst(65535 - |bytes|, 16) + (ByteBits(bytes) + rest))))
  {
    hide ByteBits, LowFirst;
  }

  /** A decoder of whole bytes finds the boundary behind the padding. */
  lemma {:induction false} SkipPad(pad: BitString, bits: BitString)
    requires |pad| < 8 && |bits| % 8 == 0
    ensures |pad + bits| % 8 == |pad| && (pad + bits)[|pad|..] == bits
  {
  }

  lemma {:induction false} SixteenBits()
    ensures Pow2(16) == 65536
  {
    SmallPowers();
    assert Pow2(16) == 2 * Pow2(15);
  }
}
