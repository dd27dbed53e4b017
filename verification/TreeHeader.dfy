/**
 The header of a dynamic block: both trees' lengths with trailing zeros trimmed,
 run-length coded, and coded again with a code of their own (section 3.2.7 of
 RFC 1951). The decoder of module Inflate restores both arrays from it.
 */
module TreeHeader {
  import opened Optional
  import opened Arith
  import opened Bits
  import opened Symbols
  import opened CodeLengths
  import opened MinimumRedundancy
  import opened CanonicalCode
  import opened Inflate

  // ----- Run-length coding --------------------------------------------------------

  /** A code length symbol and the value of its extra bits. */
  datatype Entry = Entry(symbol: nat, extra: nat)

  /** How many elements from j on equal l[i]. */
  function RunFrom(l: seq<nat>, i: nat, j: nat): (r: nat)
    requires i < |l| && j <= |l|
    ensures r <= |l| - j
    ensures forall k | j <= k < j + r :: l[k] == l[i]
    ensures j + r < |l| ==> l[j + r] != l[i]
    decreases |l| - j
  {
    if j == |l| || l[j] != l[i] then 0 else 1 + RunFrom(l, i, j + 1)
  }

  function Literals(v: nat, n: nat): (r: seq<Entry>)
    ensures |r| == n && forall i | 0 <= i < n :: r[i] == Entry(v, 0)
  {
    seq(n, _ => Entry(v, 0))
  }

  /** `n` further copies of v: sixes, then a three, then literals. */
  function Copies(v: nat, n: nat): seq<Entry> {
    if n >= 6 then [Entry(16, 3)] + Copies(v, n - 6)
    else if n >= 3 then [Entry(16, 0)] + Literals(v, n - 3)
    else Literals(v, n)
  }

  /** The entries for one run starting at l[i], and how many elements they cover. */
  function Run(l: seq<nat>, i: nat): (r: (seq<Entry>, nat))
    requires i < |l|
    ensures 1 <= r.1 <= RunFrom(l, i, i)
  {
    var v, count := l[i], RunFrom(l, i, i);
    if v == 0 && count > 10 then ([Entry(18, Min(count, 138) - 11)], Min(count, 138))
    else if v == 0 && count >= 3 then ([Entry(17, count - 3)], count)
    else if v != 0 && count >= 4 then ([Entry(v, 0)] + Copies(v, count - 1), count)
    else ([Entry(v, 0)], 1)
  }

  function Rle(l: seq<nat>, i: nat): seq<Entry>
    requires i <= |l|
    decreases |l| - i
  {
    if i == |l| then []
    else var (entries, n) := Run(l, i); entries + Rle(l, i + n)
  }

  function EntryBits(cl: seq<nat>, e: Entry): BitString
    requires |cl| == 19 && e.symbol < 19
  {
    CodeBits(cl, e.symbol) + LowFirst(e.extra, RunExtra(e.symbol))
  }

  predicate ValidEntry(e: Entry) {
    e.symbol < 19 && e.extra < Pow2(RunExtra(e.symbol))
  }

  ghost predicate ValidEntries(es: seq<Entry>) {
    forall i | 0 <= i < |es| :: ValidEntry(es[i])
  }

  function RleBits(cl: seq<nat>, es: seq<Entry>): BitString
    requires |cl| == 19 && ValidEntries(es)
  {
    if es == [] then [] else EntryBits(cl, es[0]) + RleBits(cl, es[1..])
  }

  lemma {:induction false} RleBitsConcat(cl: seq<nat>, a: seq<Entry>, b: seq<Entry>)
    requires |cl| == 19 && ValidEntries(a) && ValidEntries(b)
    ensures ValidEntries(a + b) && RleBits(cl, a + b) == RleBits(cl, a) + RleBits(cl, b)
  {
    hide EntryBits, ValidEntry;
    if a == [] {
      assert a + b == b;
    } else {
      RleBitsConcat(cl, a[1..], b);
      assert (a + b)[1..] == a[1..] + b;
    }
  }

  lemma {:induction false} CopiesValid(v: nat, n: nat)
    requires v < 16
    ensures ValidEntries(Copies(v, n))
  {
    SmallPowers();
    if n >= 6 {
      CopiesValid(v, n - 6);
    }
  }

  ghost predicate Below16(l: seq<nat>) {
    forall i | 0 <= i < |l| :: l[i] < 16
  }

  lemma {:induction false} RunValid(l: seq<nat>, i: nat)
    requires Below16(l) && i < |l|
    ensures ValidEntries(Run(l, i).0)
  {
    SmallPowers();
    CopiesValid(l[i], RunFrom(l, i, i) - 1);
  }

  lemma {:induction false} RleValid(l: seq<nat>, i: nat)
    requires Below16(l) && i <= |l|
    ensures ValidEntries(Rle(l, i))
    decreases |l| - i
  {
    if i < |l| {
      RunValid(l, i);
      RleValid(l, i + Run(l, i).1);
    }
  }

  // ----- Reading the entries back ---------------------------------------------------

  /** The code length code can code these entries. */
  ghost predicate Codes(cl: seq<nat>, es: seq<Entry>) {
    && |cl| == 19 && KraftAtMostOne(cl, 7) && ValidEntries(es)
    && forall i | 0 <= i < |es| :: cl[es[i].symbol] > 0
  }

  lemma {:induction false} ReadEntry(cl: seq<nat>, e: Entry, rest: BitString, acc: seq<nat>, total: nat)
    requires |cl| == 19 && KraftAtMostOne(cl, 7) && ValidEntry(e) && cl[e.symbol] > 0
    requires |acc| < total
    ensures ReadLengths(cl, EntryBits(cl, e) + rest, acc, total) ==
            match RunLengths(e.symbol, e.extra, acc)
            case None => None
            case Some(run) => ReadLengths(cl, rest, acc + run, total)
  {
    var bits := EntryBits(cl, e) + rest;
    var extra := LowFirst(e.extra, RunExtra(e.symbol));
    assert bits == CodeBits(cl, e.symbol) + (extra + rest);
    DecodeEncoded(cl, 7, e.symbol, extra + rest);
    ReadBack(e.extra, RunExtra(e.symbol), rest);
  }

  lemma {:induction false} CodesSplit(cl: seq<nat>, a: seq<Entry>, b: seq<Entry>)
    requires Codes(cl, a + b)
    ensures Codes(cl, a) && Codes(cl, b)
  {
    assert forall i | 0 <= i < |a| :: a[i] == (a + b)[i];
    assert forall i | 0 <= i < |b| :: b[i] == (a + b)[|a| + i];
  }

  /** Reading the first of several entries. */
  lemma {:induction false} ReadCons(cl: seq<nat>, e: Entry, tail: seq<Entry>, rest: BitString, acc: seq<nat>,
                                    total: nat)
    requires Codes(cl, [e] + tail) && |acc| < total
    ensures Codes(cl, tail)
    ensures ReadLengths(cl, RleBits(cl, [e] + tail) + rest, acc, total) ==
            match RunLengths(e.symbol, e.extra, acc)
            case None => None
            case Some(run) => ReadLengths(cl, RleBits(cl, tail) + rest, acc + run, total)
  {
    hide ReadLengths, KraftAtMostOne, EntryBits, RunLengths;
    var es := [e] + tail;
    CodesSplit(cl, [e], tail);
    assert es[0] == e && es[1..] == tail;
    assert ValidEntry(es[0]) && cl[es[0].symbol] > 0;
    var more := RleBits(cl, tail) + rest;
    assert RleBits(cl, es) + rest == EntryBits(cl, e) + more;
    ReadEntry(cl, e, more, acc, total);
  }

  lemma {:induction false} RleBitsNone(cl: seq<nat>, rest: BitString)
    requires |cl| == 19
    ensures RleBits(cl, []) + rest == rest
  {
  }

  lemma {:induction false} ReadLiterals(cl: seq<nat>, v: nat, n: nat, rest: BitString, acc: seq<nat>, total: nat)
    requires v < 16 && Codes(cl, Literals(v, n)) && |acc| + n <= total
    ensures ReadLengths(cl, RleBits(cl, Literals(v, n)) + rest, acc, total) ==
            ReadLengths(cl, rest, acc + Repeated(v, n), total)
    decreases n
  {
    assert |cl| == 19;
    hide ReadLengths, RleBits, Codes;
    if n == 0 {
      RleBitsNone(cl, rest);
      assert Literals(v, 0) == [] && acc + Repeated(v, 0) == acc;
    } else {
      assert Literals(v, n) == [Entry(v, 0)] + Literals(v, n - 1);
      ReadCons(cl, Entry(v, 0), Literals(v, n - 1), rest, acc, total);
      ReadLiterals(cl, v, n - 1, rest, acc + [v], total);
      assert acc + [v] + Repeated(v, n - 1) == acc + Repeated(v, n);
    }
  }

  lemma {:induction false} ReadCopies(cl: seq<nat>, v: nat, n: nat, rest: BitString, acc: seq<nat>, total: nat)
    requires v < 16 && Codes(cl, Copies(v, n)) && |acc| + n <= total
    requires acc != [] && acc[|acc| - 1] == v
    ensures ReadLengths(cl, RleBits(cl, Copies(v, n)) + rest, acc, total) ==
            ReadLengths(cl, rest, acc + Repeated(v, n), total)
    decreases n
  {
    hide ReadLengths, RleBits, Codes;
    if n >= 6 {
      ReadCons(cl, Entry(16, 3), Copies(v, n - 6), rest, acc, total);
      ReadCopies(cl, v, n - 6, rest, acc + Repeated(v, 6), total);
      assert acc + Repeated(v, 6) + Repeated(v, n - 6) == acc + Repeated(v, n);
    } else if n >= 3 {
      ReadCons(cl, Entry(16, 0), Literals(v, n - 3), rest, acc, total);
      ReadLiterals(cl, v, n - 3, rest, acc + Repeated(v, 3), total);
      assert acc + Repeated(v, 3) + Repeated(v, n - 3) == acc + Repeated(v, n);
    } else {
      ReadLiterals(cl, v, n, rest, acc, total);
    }
  }

  /** Reading the entries of one run extends the prefix read so far by that run. */
  lemma {:induction false} ReadRun(cl: seq<nat>, l: seq<nat>, i: nat, rest: BitString)
    requires Below16(l) && i < |l| && Codes(cl, Run(l, i).0)
    ensures ReadLengths(cl, RleBits(cl, Run(l, i).0) + rest, l[..i], |l|) ==
            ReadLengths(cl, rest, l[..i + Run(l, i).1], |l|)
  {
    assert |cl| == 19;
    hide ReadLengths, RleBits, Codes, Copies, Run, Below16, RunFrom;
    var v, count := l[i], RunFrom(l, i, i);
    var n := Run(l, i).1;
    RunShape(l, i);
    if v != 0 && count >= 4 {
      ReadCons(cl, Entry(v, 0), Copies(v, count - 1), rest, l[..i], |l|);
      ReadCopies(cl, v, count - 1, rest, l[..i] + [v], |l|);
    } else {
      ReadCons(cl, Run(l, i).0[0], [], rest, l[..i], |l|);
      RleBitsNone(cl, rest);
    }
  }

  lemma {:induction false} RunShape(l: seq<nat>, i: nat)
    requires Below16(l) && i < |l|
    ensures var v, count := l[i], RunFrom(l, i, i);
            var (es, n) := Run(l, i);
            && v < 16 && l[..i + n] == l[..i] + Repeated(v, n)
            && (if v != 0 && count >= 4
                then es == [Entry(v, 0)] + Copies(v, count - 1) && n == count &&
                     l[..i] + [v] + Repeated(v, count - 1) == l[..i + n]
                else es == [es[0]] + [] &&
                     RunLengths(es[0].symbol, es[0].extra, l[..i]) == Some(Repeated(v, n)))
  {
    hide Copies;
    var v, n := l[i], Run(l, i).1;
    assert l[..i + n] == l[..i] + Repeated(v, n);
    assert [v] == Repeated(v, 1);
  }

  lemma {:induction false} RleUnfold(l: seq<nat>, i: nat)
    requires i <= |l|
    ensures i == |l| ==> Rle(l, i) == []
    ensures i < |l| ==> Rle(l, i) == Run(l, i).0 + Rle(l, i + Run(l, i).1)
  {
  }

  /** Decoding the run-length coded lengths restores them. */
  lemma {:induction false} ReadRle(cl: seq<nat>, l: seq<nat>, i: nat, rest: BitString)
    requires Below16(l) && i <= |l| && |cl| == 19 && Codes(cl, Rle(l, i))
    ensures ReadLengths(cl, RleBits(cl, Rle(l, i)) + rest, l[..i], |l|) == Some((l, rest))
    decreases |l| - i
  {
    hide *;
    RleUnfold(l, i);
    if i == |l| {
      ReadRleEnd(cl, l, rest);
    } else {
      var n := Run(l, i).1;
      ReadRleStep(cl, l, i, rest);
      ReadRle(cl, l, i + n, rest);
    }
  }

  lemma {:induction false} ReadRleEnd(cl: seq<nat>, l: seq<nat>, rest: BitString)
    requires |cl| == 19
    ensures ReadLengths(cl, RleBits(cl, []) + rest, l[..|l|], |l|) == Some((l, rest))
  {
    assert l[..|l|] == l;
    RleBitsNone(cl, rest);
  }

  lemma {:induction false} ReadRleStep(cl: seq<nat>, l: seq<nat>, i: nat, rest: BitString)
    requires Below16(l) && i < |l| && Codes(cl, Rle(l, i))
    ensures var n := Run(l, i).1;
            && Codes(cl, Rle(l, i + n))
            && ReadLengths(cl, RleBits(cl, Rle(l, i)) + rest, l[..i], |l|) ==
               ReadLengths(cl, RleBits(cl, Rle(l, i + n)) + rest, l[..i + n], |l|)
  {
    hide ReadLengths, RleBits, Run, Rle, KraftAtMostOne;
    RleUnfold(l, i);
    var (es, n) := Run(l, i);
    var tail := Rle(l, i + n);
    CodesSplit(cl, es, tail);
    RleBitsConcat(cl, es, tail);
    var more := RleBits(cl, tail) + rest;
    assert RleBits(cl, Rle(l, i)) + rest == RleBits(cl, es) + more;
    ReadRun(cl, l, i, more);
  }

  // ----- The whole header -------------------------------------------------------------

  function TrimLit(ll: seq<nat>, h: nat): (r: nat)
    requires |ll| == 288 && h <= 29
    ensures r <= h && (forall k | 257 + r <= k < 257 + h :: ll[k] == 0) && (r > 0 ==> ll[257 + r - 1] != 0)
  {
    if h > 0 && ll[257 + h - 1] == 0 then TrimLit(ll, h - 1) else h
  }

  function TrimDist(d: seq<nat>, h: nat): (r: nat)
    requires |d| == 32 && h <= 29
    ensures r <= h && (forall k | 1 + r <= k < 1 + h :: d[k] == 0) && (r > 0 ==> d[1 + r - 1] != 0)
  {
    if h > 0 && d[1 + h - 1] == 0 then TrimDist(d, h - 1) else h
  }

  /** Both length arrays in one, trailing zeros trimmed. */
  function Joined(ll: seq<nat>, d: seq<nat>): (r: seq<nat>)
    requires |ll| == 288 && |d| == 32
    ensures |r| == TrimLit(ll, 29) + 257 + TrimDist(d, 29) + 1
  {
    ll[..257 + TrimLit(ll, 29)] + d[..1 + TrimDist(d, 29)]
  }

  function EntryCount(es: seq<Entry>, s: nat): nat {
    if es == [] then 0
    else EntryCount(es[..|es| - 1], s) + (if es[|es| - 1].symbol == s then 1 else 0)
  }

  function EntryCounts(es: seq<Entry>): (r: seq<nat>)
    ensures |r| == 19 && forall s | 0 <= s < 19 :: r[s] == EntryCount(es, s)
  {
    seq(19, s requires s >= 0 => EntryCount(es, s))
  }

  lemma {:induction false} EntryCounted(es: seq<Entry>, i: nat)
    requires i < |es|
    ensures EntryCount(es, es[i].symbol) > 0
  {
    if i < |es| - 1 {
      EntryCounted(es[..|es| - 1], i);
    }
  }

  /** The code length code of a list of entries. */
  function EntryCode(es: seq<Entry>): (cl: seq<nat>)
    ensures |cl| == 19
  {
    SmallPowers();
    FewSymbols(EntryCounts(es), 7);
    Lengths(EntryCounts(es), 7)
  }

  function TrimOrder(counts: seq<nat>, h: nat): (r: nat)
    requires |counts| == 19 && h <= 15
    ensures r <= h && (forall k | r + 4 <= k < h + 4 :: counts[Order(k)] == 0)
            && (r > 0 ==> counts[Order(r + 4 - 1)] != 0)
  {
    if h > 0 && counts[Order(h + 4 - 1)] == 0 then TrimOrder(counts, h - 1) else h
  }

  function OrderBits(cl: seq<nat>, i: nat, n: nat): BitString
    requires |cl| == 19 && i <= n <= 19
    decreases n - i
  {
    if i == n then [] else LowFirst(cl[Order(i)], 3) + OrderBits(cl, i + 1, n)
  }

  /** The bits AddDynamicTree appends. */
  function TreeBits(ll: seq<nat>, d: seq<nat>): BitString
    requires |ll| == 288 && |d| == 32 && Below16(ll) && Below16(d)
  {
    var es := Rle(Joined(ll, d), 0);
    RleValid(Joined(ll, d), 0);
    var hclen := TrimOrder(EntryCounts(es), 15);
    LowFirst(TrimLit(ll, 29), 5) + LowFirst(TrimDist(d, 29), 5) + LowFirst(hclen, 4)
    + OrderBits(EntryCode(es), 0, hclen + 4) + RleBits(EntryCode(es), es)
  }

  /** Where a code length symbol comes in transmission order. */
  function Position(s: nat): (i: nat)
    requires s < 19
    ensures i < 19 && Order(i) == s
  {
    match s
    case 0 => 3 case 1 => 17 case 2 => 15 case 3 => 13 case 4 => 11 case 5 => 9 case 6 => 7
    case 7 => 5 case 8 => 4 case 9 => 6 case 10 => 8 case 11 => 10 case 12 => 12 case 13 => 14
    case 14 => 16 case 15 => 18 case 16 => 0 case 17 => 1 case 18 => 2
  }

  lemma {:induction false} PositionOfOrder(i: nat)
    requires i < 19
    ensures Position(Order(i)) == i
  {
  }

  ghost predicate ReadSoFar(acc: seq<nat>, cl: seq<nat>, i: nat) {
    |acc| == |cl| == 19 && forall s | 0 <= s < 19 :: acc[s] == if Position(s) < i then cl[s] else 0
  }

  lemma {:induction false} ReadOrderBits(cl: seq<nat>, i: nat, n: nat, rest: BitString, acc: seq<nat>)
    requires |cl| == 19 && i <= n <= 19 && ReadSoFar(acc, cl, i)
    requires forall s | 0 <= s < 19 :: cl[s] < 8
    requires forall s | 0 <= s < 19 && Position(s) >= n :: cl[s] == 0
    ensures ReadCodeLengthCode(OrderBits(cl, i, n) + rest, i, n, acc) == Some((cl, rest))
    decreases n - i
  {
    hide Order, Position;
    if i == n {
      assert acc == cl;
      assert OrderBits(cl, i, n) + rest == rest;
    } else {
      var more := OrderBits(cl, i + 1, n) + rest;
      var s := Order(i);
      assert OrderBits(cl, i, n) + rest == LowFirst(cl[s], 3) + more;
      SmallPowers();
      ReadBack(cl[s], 3, more);
      PositionOfOrder(i);
      ReadOrderBits(cl, i + 1, n, rest, acc[s := cl[s]]);
    }
  }

  lemma {:induction false} EntryCodeProperties(es: seq<Entry>, s: nat)
    requires s < 19
    ensures EntryCode(es)[s] <= 7
    ensures EntryCode(es)[s] > 0 <==> EntryCount(es, s) > 0
  {
    SmallPowers();
    FewSymbols(EntryCounts(es), 7);
    LengthsSupport(EntryCounts(es), 7, s);
  }

  /** The code length code can code its own entries. */
  lemma {:induction false} EntryCodeCodes(es: seq<Entry>)
    requires ValidEntries(es)
    ensures Codes(EntryCode(es), es)
  {
    hide EntryCode, EntryCount, Kraft;
    var cl := EntryCode(es);
    forall s | 0 <= s < 19
      ensures cl[s] <= 7
    {
      EntryCodeProperties(es, s);
    }
    EntryCodeKraft(es);
    forall i | 0 <= i < |es|
      ensures cl[es[i].symbol] > 0
    {
      assert ValidEntry(es[i]);
      EntryCounted(es, i);
      EntryCodeProperties(es, es[i].symbol);
    }
  }

  lemma {:induction false} EntryCodeKraft(es: seq<Entry>)
    ensures KraftAtMostOne(EntryCode(es), 7)
    ensures |SortedLeaves(EntryCounts(es))| >= 2 ==> Complete(EntryCode(es), 7)
  {
    hide Kraft, SortedLeaves, Lengths;
    SmallPowers();
    FewSymbols(EntryCounts(es), 7);
    CodeSpace(EntryCounts(es), 7);
  }

  lemma {:induction false} ReadHeaderFields(hlit: nat, hdist: nat, hclen: nat, bits: BitString)
    requires hlit <= 29 && hdist <= 29 && hclen <= 15
    ensures ReadTrees(LowFirst(hlit, 5) + (LowFirst(hdist, 5) + (LowFirst(hclen, 4) + bits))) ==
            ReadTreeLengths(hlit, hdist, hclen, bits)
  {
    hide LowFirst, ReadBits, ReadTreeLengths;
    SmallPowers();
    ReadBack(hlit, 5, LowFirst(hdist, 5) + (LowFirst(hclen, 4) + bits));
    ReadBack(hdist, 5, LowFirst(hclen, 4) + bits);
    ReadBack(hclen, 4, bits);
  }

  lemma {:induction false} SplitJoined(ll: seq<nat>, d: seq<nat>)
    requires |ll| == 288 && |d| == 32
    requires ll[286] == 0 && ll[287] == 0 && d[30] == 0 && d[31] == 0
    ensures PadTo(Joined(ll, d)[..TrimLit(ll, 29) + 257], 288) == ll
    ensures PadTo(Joined(ll, d)[TrimLit(ll, 29) + 257..], 32) == d
  {
    hide TrimLit, TrimDist;
    var l, hlit, hdist := Joined(ll, d), TrimLit(ll, 29), TrimDist(d, 29);
    assert l[..hlit + 257] == ll[..hlit + 257];
    assert l[hlit + 257..] == d[..hdist + 1];
  }

  lemma {:induction false} TreeBitsShape(ll: seq<nat>, d: seq<nat>, rest: BitString)
    requires |ll| == 288 && |d| == 32 && Below16(ll) && Below16(d)
    ensures var es := Rle(Joined(ll, d), 0);
            var hclen := TrimOrder(EntryCounts(es), 15);
            ValidEntries(es) &&
            TreeBits(ll, d) + rest ==
            LowFirst(TrimLit(ll, 29), 5) + (LowFirst(TrimDist(d, 29), 5) + (LowFirst(hclen, 4) +
            (OrderBits(EntryCode(es), 0, hclen + 4) + (RleBits(EntryCode(es), es) + rest))))
  {
    hide RleBits, Rle, EntryCode, OrderBits, EntryCounts, TrimLit, TrimDist, TrimOrder, LowFirst;
    RleValid(Joined(ll, d), 0);
  }

  /** Both arrays come back, whatever they hold below 16, as do the code length code
      and the position after the header. */
  lemma {:induction false} TreesRoundTrip(ll: seq<nat>, d: seq<nat>, rest: BitString)
    requires |ll| == 288 && |d| == 32 && Below16(ll) && Below16(d)
    requires ll[286] == 0 && ll[287] == 0 && d[30] == 0 && d[31] == 0
    ensures ReadTrees(TreeBits(ll, d) + rest) ==
            Some((Trees(EntryCode(Rle(Joined(ll, d), 0)), ll, d), rest))
  {
    hide RleBits, Rle, EntryCode, OrderBits, EntryCounts, ReadLengths, ReadCodeLengthCode,
         TrimLit, TrimDist, TrimOrder, Codes, TreeBits, LowFirst, Joined, ReadTrees, PadTo;
    var l := Joined(ll, d);
    var es := Rle(l, 0);
    var hlit, hdist, hclen := TrimLit(ll, 29), TrimDist(d, 29), TrimOrder(EntryCounts(es), 15);
    TreeBitsShape(ll, d, rest);
    var cl := EntryCode(es);
    EntryCodeCodes(es);
    ReadHeaderFields(hlit, hdist, hclen, OrderBits(cl, 0, hclen + 4) + (RleBits(cl, es) + rest));
    ReadHeaderCode(es, RleBits(cl, es) + rest);
    JoinedBelow16(ll, d);
    assert l[..0] == [];
    ReadRle(cl, l, 0, rest);
    SplitJoined(ll, d);
  }

  lemma {:induction false} JoinedBelow16(ll: seq<nat>, d: seq<nat>)
    requires |ll| == 288 && |d| == 32 && Below16(ll) && Below16(d)
    ensures Below16(Joined(ll, d))
  {
  }

  lemma {:induction false} ReadHeaderCode(es: seq<Entry>, rest: BitString)
    ensures var hclen := TrimOrder(EntryCounts(es), 15);
            ReadCodeLengthCode(OrderBits(EntryCode(es), 0, hclen + 4) + rest, 0, hclen + 4, Repeated(0, 19)) ==
            Some((EntryCode(es), rest))
  {
    hide EntryCode, OrderBits, TrimOrder, Position, Order;
    var cl, counts := EntryCode(es), EntryCounts(es);
    var hclen := TrimOrder(counts, 15);
    forall s | 0 <= s < 19
      ensures cl[s] < 8 && (Position(s) >= hclen + 4 ==> cl[s] == 0)
    {
      EntryCodeProperties(es, s);
      if Position(s) >= hclen + 4 {
        assert counts[Order(Position(s))] == 0;
      }
    }
    ReadOrderBits(cl, 0, hclen + 4, rest, Repeated(0, 19));
  }

  // ----- The code length code is complete -------------------------------------------------

  ghost predicate AllSymbols(es: seq<Entry>, x: nat) {
    forall i | 0 <= i < |es| :: es[i].symbol == x
  }

  lemma {:induction false} AllSymbolsSplit(a: seq<Entry>, b: seq<Entry>, x: nat)
    requires AllSymbols(a + b, x)
    ensures AllSymbols(a, x) && AllSymbols(b, x)
  {
    assert forall i | 0 <= i < |a| :: a[i] == (a + b)[i];
    assert forall i | 0 <= i < |b| :: b[i] == (a + b)[|a| + i];
  }

  lemma {:induction false} UniformRun(l: seq<nat>, i: nat, x: nat)
    requires Below16(l) && i < |l| && AllSymbols(Run(l, i).0, x)
    ensures x < 16 ==> l[i] == x && Run(l, i).1 == 1
    ensures x >= 16 ==> l[i] == 0
  {
    var v, count := l[i], RunFrom(l, i, i);
    var es := Run(l, i).0;
    assert es[0].symbol == x;
    if v != 0 && count >= 4 {
      LongRunMixed(l, i, x);
      assert false;
    }
  }

  /** Entries of one symbol only come from equal lengths. */
  lemma {:induction false} UniformLengths(l: seq<nat>, i: nat, x: nat, q: nat)
    requires Below16(l) && i <= q < |l| && AllSymbols(Rle(l, i), x)
    ensures l[q] == if x < 16 then x else 0
    decreases |l| - i
  {
    hide Rle;
    RleUnfold(l, i);
    var (es, n) := Run(l, i);
    AllSymbolsSplit(es, Rle(l, i + n), x);
    UniformRun(l, i, x);
    if q >= i + n {
      UniformLengths(l, i + n, x, q);
    } else {
      assert l[q] == l[i];
    }
  }

  /** Lengths that are not all zero need at least two symbols. */
  lemma {:induction false} TwoEntrySymbols(l: seq<nat>, q: nat) returns (i: nat, j: nat)
    requires Below16(l) && |l| >= 4 && q < |l| && l[q] > 0
    ensures i < |Rle(l, 0)| && j < |Rle(l, 0)| && Rle(l, 0)[i].symbol != Rle(l, 0)[j].symbol
  {
    hide Rle, Run, Copies;
    var es := Rle(l, 0);
    RleUnfold(l, 0);
    i, j := 0, 0;
    NonEmptyRun(l, 0);
    var x := es[0].symbol;
    if AllSymbols(es, x) {
      forall k | 0 <= k < |l|
        ensures l[k] == if x < 16 then x else 0
      {
        UniformLengths(l, 0, x, k);
      }
      assert l[q] == x;
      assert RunFrom(l, 0, 0) == |l|;
      AllSymbolsSplit(Run(l, 0).0, Rle(l, Run(l, 0).1), x);
      LongRunMixed(l, 0, x);
    } else {
      j :| 0 <= j < |es| && es[j].symbol != x;
    }
  }

  lemma {:induction false} NonEmptyRun(l: seq<nat>, i: nat)
    requires i < |l|
    ensures |Run(l, i).0| >= 1
  {
  }

  lemma {:induction false} LongRunMixed(l: seq<nat>, i: nat, x: nat)
    requires i < |l| && 0 < l[i] < 16 && RunFrom(l, i, i) >= 4
    ensures !AllSymbols(Run(l, i).0, x)
  {
    var es := Run(l, i).0;
    assert Copies(l[i], RunFrom(l, i, i) - 1)[0].symbol == 16;
    assert es[0].symbol != es[1].symbol;
  }

  /** With a used end-of-block symbol the code length code is complete. */
  lemma {:induction false} EntryCodeComplete(ll: seq<nat>, d: seq<nat>)
    requires |ll| == 288 && |d| == 32 && Below16(ll) && Below16(d) && ll[256] > 0
    ensures Complete(EntryCode(Rle(Joined(ll, d), 0)), 7)
  {
    hide Rle, EntryCode, Complete, TrimLit, TrimDist, EntryCount;
    var l := Joined(ll, d);
    var es := Rle(l, 0);
    assert l[256] == ll[256];
    var i, j := TwoEntrySymbols(l, 256);
    RleValid(l, 0);
    assert ValidEntry(es[i]) && ValidEntry(es[j]);
    EntryCounted(es, i);
    EntryCounted(es, j);
    TwoUsed(EntryCounts(es), es[i].symbol, es[j].symbol);
    EntryCodeKraft(es);
  }
}
