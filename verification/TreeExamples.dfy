/**
 Two blocks whose tree sizes show both cases of the estimate: a block without items, whose
 tree takes 87 bits, so that the estimate is 8 too many, and a block with the single
 literal 97, whose tree takes 96 bits, so that it is exact.
 */
module TreeExamples {
  import opened Optional
  import opened Arith
  import opened Bits
  import opened Symbols
  import opened Lz77Store
  import opened CodeLengths
  import opened MinimumRedundancy
  import opened CanonicalCode
  import opened Inflate
  import opened TreeHeader
  import opened BlockEncoding
  import opened DeflateBlock

  // ----- Codes with two symbols -----------------------------------------------------------

  /** x and y have lengths, the others have none. */
  ghost predicate OnlyTwo(l: seq<nat>, x: nat, y: nat) {
    x < y < |l| && forall s | 0 <= s < |l| :: l[s] > 0 <==> s == x || s == y
  }

  lemma {:induction false} KraftOfTwo(l: seq<nat>, maxbits: nat, x: nat, y: nat, n: nat)
    requires OnlyTwo(l, x, y) && (forall s | 0 <= s < |l| :: l[s] <= maxbits) && n <= |l|
    ensures Kraft(l, maxbits, n) ==
            (if x < n then Pow2(maxbits - l[x]) else 0) + (if y < n then Pow2(maxbits - l[y]) else 0)
  {
    hide Pow2;
    if n > 0 {
      KraftOfTwo(l, maxbits, x, y, n - 1);
    }
  }

  lemma {:induction false} AtMostHalf(maxbits: nat, a: nat)
    requires 1 <= a <= maxbits
    ensures 2 * Pow2(maxbits - a) <= Pow2(maxbits) && (a >= 2 ==> 4 * Pow2(maxbits - a) <= Pow2(maxbits))
  {
    Pow2Monotone(maxbits - a, maxbits - 1);
    if a >= 2 {
      Pow2Monotone(maxbits - a, maxbits - 2);
    }
  }

  lemma {:induction false} HalfEach(maxbits: nat, a: nat, b: nat)
    requires 1 <= a <= maxbits && 1 <= b <= maxbits && Pow2(maxbits - a) + Pow2(maxbits - b) == Pow2(maxbits)
    ensures a == b == 1
  {
    hide Pow2;
    AtMostHalf(maxbits, a);
    AtMostHalf(maxbits, b);
  }

  /** Two used symbols get one bit each. */
  lemma {:induction false} TwoCodes(freqs: seq<nat>, maxbits: nat, x: nat, y: nat)
    requires maxbits >= 1 && Encodable(freqs, maxbits) && OnlyTwo(freqs, x, y)
    ensures forall s | 0 <= s < |freqs| :: Lengths(freqs, maxbits)[s] == if s == x || s == y then 1 else 0
  {
    hide Lengths, Kraft, SortedLeaves, Pow2, Encodable;
    var l := Lengths(freqs, maxbits);
    forall s | 0 <= s < |l|
      ensures (l[s] > 0 <==> freqs[s] > 0) && l[s] <= maxbits
    {
      LengthsSupport(freqs, maxbits, s);
    }
    TwoUsed(freqs, x, y);
    LengthsComplete(freqs, maxbits);
    KraftOfTwo(l, maxbits, x, y, |l|);
    HalfEach(maxbits, l[x], l[y]);
  }

  // ----- The tree header -----------------------------------------------------------------------

  /** Only the symbols 1 and 18. */
  ghost predicate OnesAndRuns(es: seq<Entry>) {
    forall i | 0 <= i < |es| :: es[i].symbol == 1 || es[i].symbol == 18
  }

  /** One bit per entry, and seven more for a run. */
  function EntriesSize(es: seq<Entry>): nat {
    if es == [] then 0 else (if es[0].symbol == 18 then 8 else 1) + EntriesSize(es[1..])
  }

  lemma {:induction false} RleBitsSize(cl: seq<nat>, es: seq<Entry>)
    requires |cl| == 19 && cl[1] == 1 && cl[18] == 1 && ValidEntries(es) && OnesAndRuns(es)
    ensures |RleBits(cl, es)| == EntriesSize(es)
  {
    hide Code, LowFirst, HighFirst, ValidEntry;
    if es != [] {
      RleBitsSize(cl, es[1..]);
    }
  }

  lemma {:induction false} OrderBitsSize(cl: seq<nat>, i: nat, n: nat)
    requires |cl| == 19 && i <= n <= 19
    ensures |OrderBits(cl, i, n)| == 3 * (n - i)
    decreases n - i
  {
    hide LowFirst, Order;
    if i < n {
      OrderBitsSize(cl, i + 1, n);
    }
  }

  lemma {:induction false} NotCounted(es: seq<Entry>, s: nat)
    requires OnesAndRuns(es) && s != 1 && s != 18
    ensures EntryCount(es, s) == 0
  {
    if es != [] {
      NotCounted(es[..|es| - 1], s);
    }
  }

  /** When both symbols occur, they get one bit each and 18 lengths are sent. */
  lemma {:induction false} EntryCodeIs(es: seq<Entry>, i: nat, j: nat)
    requires OnesAndRuns(es) && i < |es| && j < |es| && es[i].symbol == 1 && es[j].symbol == 18
    ensures EntryCode(es)[1] == 1 && EntryCode(es)[18] == 1 && TrimOrder(EntryCounts(es), 15) == 14
  {
    hide Lengths, EntryCount;
    var counts := EntryCounts(es);
    EntryCounted(es, i);
    EntryCounted(es, j);
    forall s | 0 <= s < 19
      ensures counts[s] > 0 <==> s == 1 || s == 18
    {
      if s != 1 && s != 18 {
        NotCounted(es, s);
      }
    }
    SmallPowers();
    FewSymbols(counts, 7);
    TwoCodes(counts, 7, 1, 18);
  }

  /** Trees whose lengths give such entries. */
  lemma {:induction false} TreeSizeIs(ll: seq<nat>, d: seq<nat>, es: seq<Entry>, i: nat, j: nat)
    requires |ll| == 288 && |d| == 32 && Below16(ll) && Below16(d) && es == Rle(Joined(ll, d), 0)
    requires OnesAndRuns(es) && i < |es| && j < |es| && es[i].symbol == 1 && es[j].symbol == 18
    ensures |TreeBits(ll, d)| == 68 + EntriesSize(es)
  {
    hide Rle, Joined, EntryCode, EntryCounts, TrimOrder, OrderBits, RleBits, LowFirst, TrimLit, TrimDist, Below16,
         ValidEntry;
    JoinedBelow16(ll, d);
    RleValid(Joined(ll, d), 0);
    EntryCodeIs(es, i, j);
    OrderBitsSize(EntryCode(es), 0, 18);
    RleBitsSize(EntryCode(es), es);
  }

  // ----- The trees of the two blocks -------------------------------------------------------------

  /** The length of the run at i, from where it ends. */
  lemma {:induction false} RunIs(l: seq<nat>, i: nat, n: nat)
    requires i + n <= |l| && n > 0 && (forall k | i <= k < i + n :: l[k] == l[i]) && (i + n < |l| ==> l[i + n] != l[i])
    ensures RunFrom(l, i, i) == n
  {
    hide RunFrom;
  }

  /** The lengths after trimming: ones at x, if it is below 256, and at 256 to 258. */
  ghost predicate Lens(l: seq<nat>, x: nat) {
    |l| == 259 && forall k | 0 <= k < 259 :: l[k] == if k == x || k >= 256 then 1 else 0
  }

  lemma {:induction false} LastOnes(l: seq<nat>, x: nat)
    requires Lens(l, x)
    ensures Rle(l, 256) == [Entry(1, 0), Entry(1, 0), Entry(1, 0)]
  {
    hide RunFrom, Rle;
    RunIs(l, 256, 3);
    RunIs(l, 257, 2);
    RunIs(l, 258, 1);
    RleUnfold(l, 256);
    RleUnfold(l, 257);
    RleUnfold(l, 258);
    RleUnfold(l, 259);
  }

  lemma {:induction false} EntriesOfNone(l: seq<nat>)
    requires Lens(l, 256)
    ensures Rle(l, 0) == [Entry(18, 127), Entry(18, 107), Entry(1, 0), Entry(1, 0), Entry(1, 0)]
  {
    hide RunFrom, Rle;
    RunIs(l, 0, 256);
    RunIs(l, 138, 118);
    RleUnfold(l, 0);
    RleUnfold(l, 138);
    LastOnes(l, 256);
  }

  lemma {:induction false} EntriesOfOne(l: seq<nat>)
    requires Lens(l, 97)
    ensures Rle(l, 0) ==
            [Entry(18, 86), Entry(1, 0), Entry(18, 127), Entry(18, 9), Entry(1, 0), Entry(1, 0), Entry(1, 0)]
  {
    hide RunFrom, Rle;
    RunIs(l, 0, 97);
    RunIs(l, 97, 1);
    RunIs(l, 98, 158);
    RunIs(l, 236, 20);
    RleUnfold(l, 0);
    RleUnfold(l, 97);
    RleUnfold(l, 98);
    RleUnfold(l, 236);
    LastOnes(l, 97);
  }

  lemma {:induction false} TrimmedLens(ll: seq<nat>, d: seq<nat>, x: nat)
    requires |ll| == 288 && |d| == 32 && x <= 256
    requires forall s | 0 <= s < 288 :: ll[s] == if s == x || s == 256 then 1 else 0
    requires forall s | 0 <= s < 32 :: d[s] == if s <= 1 then 1 else 0
    ensures Lens(Joined(ll, d), x)
  {
    hide TrimLit, TrimDist;
    TrimLitIs(ll, 29);
    TrimDistIs(d, 29);
  }

  lemma {:induction false} TrimLitIs(ll: seq<nat>, h: nat)
    requires |ll| == 288 && h <= 29 && forall s | 257 <= s < 288 :: ll[s] == 0
    ensures TrimLit(ll, h) == 0
  {
    if h > 0 {
      TrimLitIs(ll, h - 1);
    }
  }

  lemma {:induction false} TrimDistIs(d: seq<nat>, h: nat)
    requires |d| == 32 && 1 <= h <= 29 && d[1] == 1 && forall s | 2 <= s < 32 :: d[s] == 0
    ensures TrimDist(d, h) == 1
  {
    if h > 1 {
      TrimDistIs(d, h - 1);
    }
  }

  /** Without distances the patch adds the first two codes. */
  lemma {:induction false} NoDistances(items: Store)
    requires ValidStore(items) && forall i | 0 <= i < |items| :: items[i].dist == 0
    ensures forall s | 0 <= s < 32 :: DynamicDists(items)[s] == if s <= 1 then 1 else 0
  {
    hide Lengths, DistCounts;
    var dc := DistCounts(items);
    SmallPowers();
    FewSymbols(dc, 15);
    forall s | 0 <= s < 32
      ensures Lengths(dc, 15)[s] == 0
    {
      NoDistCounted(items, s);
      LengthsSupport(dc, 15, s);
    }
    NoCodes(Lengths(dc, 15), 30);
  }

  lemma {:induction false} NoDistCounted(items: Store, s: nat)
    requires ValidStore(items) && s < 32 && forall i | 0 <= i < |items| :: items[i].dist == 0
    ensures DistCounts(items)[s] == 0
    decreases |items|
  {
    hide DistSymbol;
    if items != [] {
      NoDistCounted(items[..|items| - 1], s);
    }
  }

  lemma {:induction false} NoCodes(d: seq<nat>, n: nat)
    requires n <= |d| && forall s | 0 <= s < |d| :: d[s] == 0
    ensures UsedCodes(d, n) == 0
  {
    if n > 0 {
      NoCodes(d, n - 1);
    }
  }

  /** A block without items: the tree takes 87 bits, so the estimate is 8 too many. */
  lemma {:induction false} NoItemsExcess()
    ensures Below16(DynamicLitLens([])) && Below16(DynamicDists([]))
    ensures |TreeBits(DynamicLitLens([]), DynamicDists([]))| == 87 && EstimateExcess(2, []) == 8
  {
    hide Lengths, LitLenCounts, Rle, Joined, TreeBits, DynamicDists;
    var items: Store := [];
    var ll, d := DynamicLitLens(items), DynamicDists(items);
    DynamicCovers(items);
    NoDistances(items);
    var lc := LitLenCounts(items);
    SmallPowers();
    FewSymbols(lc, 15);
    forall s | 0 <= s < 288
      ensures lc[s] == if s == 256 then 1 else 0
    {
      NoItemsCounted(s);
    }
    OneCode(lc, 15, 256);
    TrimmedLens(ll, d, 256);
    EntriesOfNone(Joined(ll, d));
    var es := Rle(Joined(ll, d), 0);
    SizeOfNone(es);
    TreeSizeIs(ll, d, es, 2, 0);
  }

  lemma {:induction false} SizeOfNone(es: seq<Entry>)
    requires es == [Entry(18, 127), Entry(18, 107), Entry(1, 0), Entry(1, 0), Entry(1, 0)]
    ensures EntriesSize(es) == 19 && OnesAndRuns(es)
  {
    var one := Entry(1, 0);
    assert es[1..] == [Entry(18, 107), one, one, one];
    assert es[1..][1..] == [one, one, one];
    OnesSize(3, es[1..][1..]);
  }

  lemma {:induction false} OnesSize(n: nat, es: seq<Entry>)
    requires |es| == n && forall i | 0 <= i < n :: es[i] == Entry(1, 0)
    ensures EntriesSize(es) == n
    decreases n
  {
    if n > 0 {
      OnesSize(n - 1, es[1..]);
    }
  }

  /** A block with the single literal 97: the tree takes 96 bits, so the estimate is exact. */
  lemma {:induction false} OneLiteralExact()
    ensures var items := [Item(97, 0)];
            && ValidStore(items) && Below16(DynamicLitLens(items)) && Below16(DynamicDists(items))
            && |TreeBits(DynamicLitLens(items), DynamicDists(items))| == 96 && EstimateExcess(2, items) == 0
  {
    hide Lengths, LitLenCounts, Rle, Joined, TreeBits, DynamicDists;
    var items: Store := [Item(97, 0)];
    var ll, d := DynamicLitLens(items), DynamicDists(items);
    DynamicCovers(items);
    NoDistances(items);
    var lc := LitLenCounts(items);
    SmallPowers();
    FewSymbols(lc, 15);
    forall s | 0 <= s < 288
      ensures lc[s] == if s == 97 || s == 256 then 1 else 0
    {
      OneItemCounted(s);
    }
    TwoCodes(lc, 15, 97, 256);
    TrimmedLens(ll, d, 97);
    EntriesOfOne(Joined(ll, d));
    var es := Rle(Joined(ll, d), 0);
    SizeOfOne(es);
    TreeSizeIs(ll, d, es, 1, 0);
  }

  lemma {:induction false} OneItemCounted(s: nat)
    requires s < 288
    ensures LitLenCounts([Item(97, 0)])[s] == if s == 97 || s == 256 then 1 else 0
  {
    var items := [Item(97, 0)];
    assert items[..0] == [];
    assert LitLenCount(items, s) == LitLenCount(items[..0], s) + (if s == 97 then 1 else 0);
  }

  lemma {:induction false} SizeOfOne(es: seq<Entry>)
    requires es == [Entry(18, 86), Entry(1, 0), Entry(18, 127), Entry(18, 9), Entry(1, 0), Entry(1, 0), Entry(1, 0)]
    ensures EntriesSize(es) == 28 && OnesAndRuns(es)
  {
    var one := Entry(1, 0);
    var a := es[1..];
    assert a == [one, Entry(18, 127), Entry(18, 9), one, one, one];
    var b := a[1..];
    assert b == [Entry(18, 127), Entry(18, 9), one, one, one];
    var c := b[1..];
    assert c == [Entry(18, 9), one, one, one];
    OnesSize(3, c[1..]);
    assert EntriesSize(c) == 11 && EntriesSize(b) == 19 && EntriesSize(a) == 20;
  }
}
