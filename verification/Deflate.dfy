/**
 The DEFLATE driver: the input in master blocks, each split into blocks, each parsed
 and encoded. The main theorem: whatever the statistics, costs and options, decoding
 what was appended to the output gives back exactly the input.
 */
module Deflate {
  import opened Optional
  import opened Arith
  import opened Bits
  import opened Symbols
  import opened Lz77Store
  import opened CanonicalCode
  import opened Inflate
  import opened BlockEncoding
  import opened BitWriter
  import opened DeflateBlock
  import opened SqueezeRuns
  import opened BlockSplitter
  import opened LongestMatch
  import opened Greedy
  import opened MatchCache

  // ----- What appended bits mean ---------------------------------------------------------

  /** Decoding `bits` after `before` has been produced gives `after`, and then stops (if
      final) or goes on with what follows. */
  ghost predicate Gives(bits: BitString, rest: BitString, before: seq<Byte>, after: seq<Byte>, final: bool) {
    Blocks(bits + rest, before) == if final then Some((after, rest)) else Blocks(rest, after)
  }

  /** The same whatever follows, as long as the whole stream, in which `bits` start at
      bit `pos`, is made of whole bytes. */
  ghost predicate Decodes(pos: nat, bits: BitString, before: seq<Byte>, after: seq<Byte>, final: bool) {
    forall rest: BitString | (pos + |bits| + |rest|) % 8 == 0 :: Gives(bits, rest, before, after, final)
  }

  /** The output has grown by bits that decode to the bytes from `before` to `after`. */
  ghost predicate Extends(was: BitString, now: BitString, before: seq<Byte>, after: seq<Byte>, final: bool) {
    was <= now && Decodes(|was|, now[|was|..], before, after, final)
  }

  lemma {:induction false} ExtendsNothing(bits: BitString, a: seq<Byte>)
    ensures Extends(bits, bits, a, a, false)
  {
    hide Blocks;
    var none := bits[|bits|..];
    forall rest: BitString | (|bits| + |none| + |rest|) % 8 == 0
      ensures Gives(none, rest, a, a, false)
    {
      assert none + rest == rest;
    }
  }

  /** Appending twice. */
  lemma {:induction false} ExtendsTrans(x: BitString, y: BitString, z: BitString,
                                        a: seq<Byte>, b: seq<Byte>, c: seq<Byte>, final: bool)
    requires Extends(x, y, a, b, false) && Extends(y, z, b, c, final)
    ensures Extends(x, z, a, c, final)
  {
    hide Blocks;
    var p, q, whole := y[|x|..], z[|y|..], z[|x|..];
    assert whole == p + q;
    forall rest: BitString | (|x| + |whole| + |rest|) % 8 == 0
      ensures Gives(whole, rest, a, c, final)
    {
      assert whole + rest == p + (q + rest);
      assert Gives(p, q + rest, a, b, false);
      assert Gives(q, rest, b, c, final);
    }
  }

  lemma {:induction false} ExtendsBlock(was: BitString, now: BitString, btype: nat, final: bool, items: Store,
                                        a: seq<Byte>, b: seq<Byte>)
    requires btype == 1 || btype == 2
    requires ValidStore(items) && Replays(a, items, b)
    requires now == was + BlockBits(btype, final, items)
    ensures Extends(was, now, a, b, final)
  {
    hide Blocks, BlockBits, Replays;
    var bits := now[|was|..];
    assert bits == BlockBits(btype, final, items);
    forall rest: BitString | (|was| + |bits| + |rest|) % 8 == 0
      ensures Gives(bits, rest, a, b, final)
    {
      BlockRoundTrip(btype, final, items, rest, a, b);
    }
  }

  lemma {:induction false} StoredSize(pos: nat, final: bool, bytes: seq<Byte>)
    requires |bytes| < 65536
    ensures (pos + |StoredBits(pos, final, bytes)|) % 8 == 0
  {
    hide LowFirst, ByteBits;
    ByteBitsSize(bytes);
    LowFirstSize(|bytes|, 16);
    LowFirstSize(65535 - |bytes|, 16);
    var pad := (8 - (pos + 3) % 8) % 8;
    assert (pos + 3 + pad) % 8 == 0;
    assert |StoredBits(pos, final, bytes)| == 3 + pad + 32 + 8 * |bytes|;
  }

  lemma {:induction false} LowFirstSize(v: nat, n: nat)
    ensures |LowFirst(v, n)| == n
  {
  }

  lemma {:induction false} ExtendsStored(was: BitString, now: BitString, final: bool, bytes: seq<Byte>, a: seq<Byte>)
    requires |bytes| < 65536 && now == was + StoredBits(|was|, final, bytes)
    ensures Extends(was, now, a, a + bytes, final)
  {
    hide Blocks, StoredBits;
    var bits := now[|was|..];
    assert bits == StoredBits(|was|, final, bytes);
    StoredSize(|was|, final, bytes);
    forall rest: BitString | (|was| + |bits| + |rest|) % 8 == 0
      ensures Gives(bits, rest, a, a + bytes, final)
    {
      StoredRoundTrip(|was|, final, bytes, rest, a);
    }
  }

  // ----- One block -------------------------------------------------------------------------

  datatype Options = Options(numiterations: nat, blocksplitting: bool, blocksplittinglast: bool, blocksplittingmax: nat)

  /** The statistics used for a range of the input, iteration by iteration. */
  type Estimator = (nat, nat, nat) -> Stats

  ghost predicate Sensible(e: Estimator) {
    forall a: nat, b: nat, i: nat {:trigger e(a, b, i)} :: Entropies(e(a, b, i))
  }

  // ----- What is written -----------------------------------------------------------------------

  /** The statistics of a range, one for each iteration. */
  ghost predicate StatsOf(o: Options, e: Estimator, instart: nat, inend: nat, stats: seq<Stats>) {
    |stats| == o.numiterations && forall i | 0 <= i < |stats| :: stats[i] == e(instart, inend, i)
  }

  /** The first of the smallest of the runs, each cheapest for its own statistics. */
  ghost predicate BestRun(o: Options, e: Estimator, data: seq<Byte>, instart: nat, inend: nat, store: Store,
                          stats: seq<Stats>, runs: seq<Store>)
    requires instart <= inend <= |data|
  {
    && StatsOf(o, e, instart, inend, stats) && |runs| == |stats| && RunsOf(data, instart, inend, stats, runs)
    && FirstSmallest(runs, store)
  }

  ghost predicate DynamicParse(o: Options, e: Estimator, data: seq<Byte>, instart: nat, inend: nat, store: Store)
    requires instart <= inend <= |data|
  {
    ValidStore(store) && exists stats, runs :: BestRun(o, e, data, instart, inend, store, stats, runs)
  }

  /** Of a parse for dynamic trees with fewer than 1000 items and the parse with the fewest
      bits for the fixed tree, the one of smaller estimated size; of others the former. */
  ghost predicate Smaller(o: Options, e: Estimator, data: seq<Byte>, instart: nat, inend: nat, btype: nat,
                          store: Store, dynamic: Store, fixed: Store)
    requires instart <= inend <= |data|
  {
    && DynamicParse(o, e, data, instart, inend, dynamic)
    && (|dynamic| < 1000 ==> FewestBits(data, instart, inend, fixed))
    && if |dynamic| < 1000 && |BlockBits(1, false, fixed)| < EstimatedSize(dynamic)
       then btype == 1 && store == fixed else btype == 2 && store == dynamic
  }

  ghost predicate BestBlock(o: Options, e: Estimator, data: seq<Byte>, instart: nat, inend: nat, btype: nat,
                            store: Store)
    requires instart <= inend <= |data|
  {
    exists dynamic, fixed :: Smaller(o, e, data, instart, inend, btype, store, dynamic, fixed)
  }

  ghost predicate Appended(was: BitString, now: BitString, btype: nat, final: bool, store: Store) {
    (btype == 1 || btype == 2) && ValidStore(store) && now == was + BlockBits(btype, final, store)
  }

  ghost predicate FixedBlockIs(data: seq<Byte>, instart: nat, inend: nat, final: bool, was: BitString, now: BitString)
    requires instart <= inend <= |data|
  {
    exists store :: FewestBits(data, instart, inend, store) && Appended(was, now, 1, final, store)
  }

  ghost predicate DynamicBlockIs(o: Options, e: Estimator, data: seq<Byte>, instart: nat, inend: nat, final: bool,
                                 was: BitString, now: BitString)
    requires instart <= inend <= |data|
  {
    exists btype, store ::
      BestBlock(o, e, data, instart, inend, btype, store) && Appended(was, now, btype, final, store)
  }

  /** A block: stored, the fixed block of fewest bits, or the better of two. */
  ghost predicate BlockIs(o: Options, e: Estimator, btype: nat, final: bool, data: seq<Byte>, instart: nat, inend: nat,
                          was: BitString, now: BitString)
    requires instart <= inend <= |data|
  {
    if btype == 0 then inend - instart < 65536 && now == was + StoredBits(|was|, final, data[instart..inend])
    else if btype == 1 then FixedBlockIs(data, instart, inend, final, was, now)
    else DynamicBlockIs(o, e, data, instart, inend, final, was, now)
  }

  /** The statistics of a range as a list. */
  method StatsFor(o: Options, e: Estimator, instart: nat, inend: nat) returns (stats: seq<Stats>)
    requires Sensible(e)
    ensures StatsOf(o, e, instart, inend, stats) && forall i | 0 <= i < |stats| :: Entropies(stats[i])
  {
    hide Entropies;
    stats := [];
    for i := 0 to o.numiterations
      invariant |stats| == i && forall k | 0 <= k < i :: stats[k] == e(instart, inend, k) && Entropies(stats[k])
    {
      stats := stats + [e(instart, inend, i)];
    }
  }

  /** A cache made for the block. */
  method NewCache(data: seq<Byte>, instart: nat, inend: nat) returns (lmc: Cache)
    requires instart <= inend <= |data|
    ensures BlockCache(lmc, data, instart, inend) && fresh(CacheRepr(lmc))
  {
    hide EntryOk;
    lmc := new Cache(instart, inend - instart);
  }

  /** The best parse for dynamic trees, and the tree type that suits it. */
  method BestParse(o: Options, e: Estimator, data: seq<Byte>, instart: nat, inend: nat)
    returns (btype: nat, store: Store)
    requires o.numiterations >= 1 && Sensible(e) && instart <= inend <= |data| <= MAX_SIZE
    ensures (btype == 1 || btype == 2) && Replays(data[..instart], store, data[..inend])
    ensures BestBlock(o, e, data, instart, inend, btype, store)
  {
    hide BlockCache, Replays, EstimatedSize, RunsOf, FirstSmallest, FewestBits, ValidStore, BlockBits;
    var lmc := NewCache(data, instart, inend);
    var stats := StatsFor(o, e, instart, inend);
    ghost var runs;
    store, runs := LZ77Optimal(lmc, data, instart, inend, stats);
    ReplaysValid(data[..instart], store, data[..inend]);
    assert BestRun(o, e, data, instart, inend, store, stats, runs);
    ghost var dynamic := store;
    ghost var fixed: Store := [];
    btype := 2;
    if |store| < 1000 {
      var fixedstore := LZ77OptimalFixed(lmc, data, instart, inend);
      ReplaysValid(data[..instart], fixedstore, data[..inend]);
      var dyncost := DynamicSize(store);
      var fixedcost := FixedSize(fixedstore);
      fixed := fixedstore;
      if fixedcost < dyncost {
        btype := 1;
        store := fixedstore;
      }
    }
    assert Smaller(o, e, data, instart, inend, btype, store, dynamic, fixed);
  }

  method FixedSize(items: Store) returns (size: nat)
    requires ValidStore(items)
    ensures size == |BlockBits(1, false, items)|
  {
    hide BlockBits;
    size := CalculateBlockSize(items, 0, |items|, 1);
    assert items[0..|items|] == items;
  }

  /** Adds one compressed block for a parse of data[instart..inend]. */
  method AddParse(w: Writer, btype: nat, final: bool, ghost data: seq<Byte>, ghost instart: nat, ghost inend: nat,
                  store: Store, expected: nat)
    requires w.Valid() && (btype == 1 || btype == 2) && instart <= inend <= |data|
    requires Replays(data[..instart], store, data[..inend]) && expected == inend - instart
    modifies w
    ensures w.Valid() && Extends(old(w.Bits()), w.Bits(), data[..instart], data[..inend], final)
    ensures Appended(old(w.Bits()), w.Bits(), btype, final, store)
  {
    hide Replays, BlockBits, Extends, Written;
    ReplaysValid(data[..instart], store, data[..inend]);
    assert store[0..|store|] == store;
    ghost var was := w.Bits();
    AddLZ77Block(w, btype, final, store, 0, |store|, expected);
    ExtendsBlock(was, w.Bits(), btype, final, store, data[..instart], data[..inend]);
  }

  method DeflateDynamicBlock(w: Writer, o: Options, e: Estimator, final: bool, data: seq<Byte>, instart: nat,
                             inend: nat)
    requires w.Valid() && o.numiterations >= 1 && Sensible(e) && instart <= inend <= |data| <= MAX_SIZE
    modifies w
    ensures w.Valid() && Extends(old(w.Bits()), w.Bits(), data[..instart], data[..inend], final)
    ensures DynamicBlockIs(o, e, data, instart, inend, final, old(w.Bits()), w.Bits())
  {
    hide Replays, Extends, BestBlock, Appended, Written;
    var btype, store := BestParse(o, e, data, instart, inend);
    AddParse(w, btype, final, data, instart, inend, store, inend - instart);
  }

  method DeflateFixedBlock(w: Writer, final: bool, data: seq<Byte>, instart: nat, inend: nat)
    requires w.Valid() && instart <= inend <= |data| <= MAX_SIZE
    modifies w
    ensures w.Valid() && Extends(old(w.Bits()), w.Bits(), data[..instart], data[..inend], final)
    ensures FixedBlockIs(data, instart, inend, final, old(w.Bits()), w.Bits())
  {
    hide Replays, Extends, BlockCache, FewestBits, Appended, Written;
    var lmc := NewCache(data, instart, inend);
    var store := LZ77OptimalFixed(lmc, data, instart, inend);
    AddParse(w, 1, final, data, instart, inend, store, inend - instart);
  }

  /** What a block of the given type may hold: stored blocks fewer than 65536 bytes. */
  predicate Fits(btype: nat, start: nat, end: nat) {
    start <= end && (btype == 0 ==> end - start < 65536)
  }

  method DeflateOneBlock(w: Writer, o: Options, e: Estimator, btype: nat, final: bool, data: seq<Byte>, instart: nat,
                         inend: nat)
    requires w.Valid() && o.numiterations >= 1 && Sensible(e) && btype <= 2
    requires Fits(btype, instart, inend) && inend <= |data| <= MAX_SIZE
    modifies w
    ensures w.Valid() && Extends(old(w.Bits()), w.Bits(), data[..instart], data[..inend], final)
    ensures BlockIs(o, e, btype, final, data, instart, inend, old(w.Bits()), w.Bits())
  {
    hide Extends, StoredBits, FixedBlockIs, DynamicBlockIs, Written;
    if btype == 0 {
      ghost var was := w.Bits();
      DeflateNonCompressedBlock(w, final, data, instart, inend);
      ExtendsStored(was, w.Bits(), final, data[instart..inend], data[..instart]);
      assert data[..instart] + data[instart..inend] == data[..inend];
    } else if btype == 1 {
      DeflateFixedBlock(w, final, data, instart, inend);
    } else {
      DeflateDynamicBlock(w, o, e, final, data, instart, inend);
    }
  }

  // ----- Splitting first -----------------------------------------------------------------

  function StartAt(points: seq<nat>, instart: nat, i: nat): nat
    requires i <= |points|
  {
    if i == 0 then instart else points[i - 1]
  }

  function EndAt(points: seq<nat>, inend: nat, i: nat): nat
    requires i <= |points|
  {
    if i == |points| then inend else points[i]
  }

  /** The blocks between the split points can be encoded. */
  ghost predicate AllFit(btype: nat, points: seq<nat>, instart: nat, inend: nat) {
    forall i | 0 <= i <= |points| ::
      Fits(btype, StartAt(points, instart, i), EndAt(points, inend, i)) && EndAt(points, inend, i) <= inend
  }

  lemma {:induction false} InsideFits(btype: nat, points: seq<nat>, instart: nat, inend: nat)
    requires Inside(points, instart, inend) && instart <= inend && btype > 0
    ensures AllFit(btype, points, instart, inend)
  {
  }

  lemma {:induction false} SimpleFits(points: seq<nat>, instart: nat, inend: nat)
    requires instart <= inend
    requires forall k | 0 <= k < |points| :: points[k] < inend && points[k] == Cut(instart, 65535, k)
    requires Cut(instart, 65535, |points|) >= inend
    ensures AllFit(0, points, instart, inend)
  {
  }

  /** Where a part is split: stored blocks every 65535 bytes, fixed blocks nowhere, others
      where the greedy parse is. */
  ghost predicate SplitAt(o: Options, btype: nat, data: seq<Byte>, instart: nat, inend: nat, points: seq<nat>)
    requires instart <= inend <= |data|
  {
    if btype == 0 then CutEvenly(instart, inend, 65535, points)
    else if btype == 1 then points == []
    else exists lzpoints :: SplitGreedily(o, data, instart, inend, points, lzpoints)
  }

  ghost predicate CutEvenly(instart: nat, inend: nat, blocksize: nat, points: seq<nat>) {
    && (forall k | 0 <= k < |points| :: points[k] < inend && points[k] == Cut(instart, blocksize, k))
    && Cut(instart, blocksize, |points|) >= inend
  }

  ghost predicate SplitGreedily(o: Options, data: seq<Byte>, instart: nat, inend: nat, points: seq<nat>,
                                lzpoints: seq<nat>)
    requires instart <= inend <= |data|
  {
    var items := GreedyParse(data, instart, inend);
    && ValidStore(items) && GoodSplit(DynamicCosts(items), lzpoints, |items|, o.blocksplittingmax)
    && BytesOf(items, instart, lzpoints, points)
  }

  method SplitPoints(o: Options, btype: nat, data: seq<Byte>, instart: nat, inend: nat) returns (points: seq<nat>)
    requires btype <= 2 && instart <= inend <= |data|
    ensures AllFit(btype, points, instart, inend) && SplitAt(o, btype, data, instart, inend, points)
  {
    hide AllFit, Inside, Cut, GreedyParse, GoodSplit, BytesOf, ValidStore, DynamicCosts;
    if btype == 0 {
      points := BlockSplitSimple(instart, inend, 65535);
      SimpleFits(points, instart, inend);
    } else if btype == 1 {
      points := [];
      NoPoints(btype, instart, inend);
    } else {
      ghost var lzpoints;
      points, lzpoints := BlockSplit(data, instart, inend, o.blocksplittingmax);
      assert SplitGreedily(o, data, instart, inend, points, lzpoints);
      InsideFits(btype, points, instart, inend);
    }
  }

  lemma {:induction false} NoPoints(btype: nat, instart: nat, inend: nat)
    requires instart <= inend && btype > 0
    ensures AllFit(btype, [], instart, inend)
  {
  }

  /** The marks are the bits before each block and after the last. */
  ghost predicate BlocksBetween(o: Options, e: Estimator, btype: nat, final: bool, data: seq<Byte>, instart: nat,
                                inend: nat, points: seq<nat>, marks: seq<BitString>, n: nat)
    requires instart <= inend <= |data| && AllFit(btype, points, instart, inend)
  {
    && |marks| == n + 1 <= |points| + 2
    && forall i: nat | i < n :: OneOfBlocks(o, e, btype, final, data, instart, inend, points, marks, i)
  }

  ghost predicate OneOfBlocks(o: Options, e: Estimator, btype: nat, final: bool, data: seq<Byte>, instart: nat,
                              inend: nat, points: seq<nat>, marks: seq<BitString>, i: nat)
    requires instart <= inend <= |data| && AllFit(btype, points, instart, inend) && i <= |points| && i + 1 < |marks|
  {
    assert Fits(btype, StartAt(points, instart, i), EndAt(points, inend, i));
    BlockIs(o, e, btype, i == |points| && final, data, StartAt(points, instart, i), EndAt(points, inend, i),
            marks[i], marks[i + 1])
  }

  /** A part split first: its blocks one after another. */
  ghost predicate FirstIs(o: Options, e: Estimator, btype: nat, final: bool, data: seq<Byte>, instart: nat, inend: nat,
                          was: BitString, now: BitString)
    requires instart <= inend <= |data|
  {
    exists points, marks :: SplitFirst(o, e, btype, final, data, instart, inend, was, now, points, marks)
  }

  ghost predicate SplitFirst(o: Options, e: Estimator, btype: nat, final: bool, data: seq<Byte>, instart: nat,
                             inend: nat, was: BitString, now: BitString, points: seq<nat>, marks: seq<BitString>)
    requires instart <= inend <= |data|
  {
    && SplitAt(o, btype, data, instart, inend, points) && AllFit(btype, points, instart, inend)
    && BlocksBetween(o, e, btype, final, data, instart, inend, points, marks, |points| + 1)
    && marks[0] == was && marks[|points| + 1] == now
  }

  lemma {:induction false} OneMoreBlock(o: Options, e: Estimator, btype: nat, final: bool, data: seq<Byte>,
                                        instart: nat, inend: nat, points: seq<nat>, marks: seq<BitString>, n: nat,
                                        now: BitString)
    requires instart <= inend <= |data| && AllFit(btype, points, instart, inend) && n <= |points|
    requires BlocksBetween(o, e, btype, final, data, instart, inend, points, marks, n)
    requires OneOfBlocks(o, e, btype, final, data, instart, inend, points, marks + [now], n)
    ensures BlocksBetween(o, e, btype, final, data, instart, inend, points, marks + [now], n + 1)
  {
    hide BlockIs, AllFit;
    var marks' := marks + [now];
    forall i: nat | i < n + 1
      ensures OneOfBlocks(o, e, btype, final, data, instart, inend, points, marks', i)
    {
      if i < n {
        assert OneOfBlocks(o, e, btype, final, data, instart, inend, points, marks, i);
      }
    }
  }

  /** Splits the bytes, then encodes every block. */
  method DeflateSplittingFirst(w: Writer, o: Options, e: Estimator, btype: nat, final: bool, data: seq<Byte>,
                               instart: nat, inend: nat)
    requires w.Valid() && o.numiterations >= 1 && Sensible(e) && btype <= 2
    requires instart <= inend <= |data| <= MAX_SIZE
    modifies w
    ensures w.Valid() && Extends(old(w.Bits()), w.Bits(), data[..instart], data[..inend], final)
    ensures FirstIs(o, e, btype, final, data, instart, inend, old(w.Bits()), w.Bits())
  {
    hide Extends, SplitAt, BlockIs, Written, Sensible, BlocksBetween;
    var points := SplitPoints(o, btype, data, instart, inend);
    ghost var was := w.Bits();
    ghost var marks := [was];
    ExtendsNothing(was, data[..instart]);
    NoBlocksYet(o, e, btype, final, data, instart, inend, points, was);
    var n := |points|;
    for i := 0 to n + 1
      invariant w.Valid() && |marks| == i + 1 && marks[0] == was && marks[i] == w.Bits()
      invariant BlocksBetween(o, e, btype, final, data, instart, inend, points, marks, i)
      invariant i <= n ==> StartAt(points, instart, i) <= inend
      invariant i <= n ==> Extends(was, w.Bits(), data[..instart], data[..StartAt(points, instart, i)], false)
      invariant i == n + 1 ==> Extends(was, w.Bits(), data[..instart], data[..inend], final)
    {
      var start := StartAt(points, instart, i);
      var end := EndAt(points, inend, i);
      assert Fits(btype, start, end) && end <= inend;
      ghost var mid := w.Bits();
      DeflateOneBlock(w, o, e, btype, i == n && final, data, start, end);
      ExtendsTrans(was, mid, w.Bits(), data[..instart], data[..start], data[..end], i == n && final);
      OneMoreBlock(o, e, btype, final, data, instart, inend, points, marks, i, w.Bits());
      marks := marks + [w.Bits()];
    }
    assert SplitFirst(o, e, btype, final, data, instart, inend, was, w.Bits(), points, marks);
  }

  lemma {:induction false} NoBlocksYet(o: Options, e: Estimator, btype: nat, final: bool, data: seq<Byte>, instart: nat,
                                       inend: nat, points: seq<nat>, was: BitString)
    requires instart <= inend <= |data| && AllFit(btype, points, instart, inend)
    ensures BlocksBetween(o, e, btype, final, data, instart, inend, points, [was], 0)
  {
  }

  // ----- Splitting last ----------------------------------------------------------------------

  /** Items encoded block by block: the marks are the bits before each block and after the
      last. */
  ghost predicate ItemBlocks(btype: nat, final: bool, store: Store, points: seq<nat>, marks: seq<BitString>, n: nat) {
    && |marks| == n + 1 <= |points| + 2
    && forall i: nat | i < n :: OneItemBlock(btype, final, store, points, marks, i)
  }

  ghost predicate OneItemBlock(btype: nat, final: bool, store: Store, points: seq<nat>, marks: seq<BitString>, i: nat)
    requires i <= |points| && i + 1 < |marks|
  {
    var start, end := StartAt(points, 0, i), EndAt(points, |store|, i);
    && start <= end <= |store|
    && Appended(marks[i], marks[i + 1], btype, i == |points| && final, store[start..end])
  }

  lemma {:induction false} OneMoreItemBlock(btype: nat, final: bool, store: Store, points: seq<nat>,
                                            marks: seq<BitString>, n: nat, now: BitString)
    requires ItemBlocks(btype, final, store, points, marks, n) && n <= |points|
    requires OneItemBlock(btype, final, store, points, marks + [now], n)
    ensures ItemBlocks(btype, final, store, points, marks + [now], n + 1)
  {
    hide Appended;
    var marks' := marks + [now];
    forall i: nat | i < n + 1
      ensures OneItemBlock(btype, final, store, points, marks', i)
    {
      if i < n {
        assert OneItemBlock(btype, final, store, points, marks, i);
      }
    }
  }

  /** The parse of a part and where its items are split. */
  ghost predicate ParsedAndSplit(o: Options, e: Estimator, btype: nat, data: seq<Byte>, instart: nat, inend: nat,
                                 store: Store, points: seq<nat>)
    requires instart <= inend <= |data|
  {
    if btype == 2
    then DynamicParse(o, e, data, instart, inend, store)
         && GoodSplit(DynamicCosts(store), points, |store|, o.blocksplittingmax)
    else FewestBits(data, instart, inend, store) && points == []
  }

  /** A part split last. */
  ghost predicate LastIs(o: Options, e: Estimator, btype: nat, final: bool, data: seq<Byte>, instart: nat, inend: nat,
                         was: BitString, now: BitString)
    requires instart <= inend <= |data|
  {
    exists store, points, marks :: SplitLast(o, e, btype, final, data, instart, inend, was, now, store, points, marks)
  }

  ghost predicate SplitLast(o: Options, e: Estimator, btype: nat, final: bool, data: seq<Byte>, instart: nat,
                            inend: nat,
                            was: BitString, now: BitString, store: Store, points: seq<nat>, marks: seq<BitString>)
    requires instart <= inend <= |data|
  {
    && ParsedAndSplit(o, e, btype, data, instart, inend, store, points)
    && ItemBlocks(btype, final, store, points, marks, |points| + 1)
    && marks[0] == was && marks[|points| + 1] == now
  }

  /** Parses everything, then splits the items into blocks. */
  method DeflateSplittingLast(w: Writer, o: Options, e: Estimator, btype: nat, final: bool, data: seq<Byte>,
                              instart: nat, inend: nat)
    requires w.Valid() && o.numiterations >= 1 && Sensible(e) && (btype == 1 || btype == 2)
    requires instart <= inend <= |data| <= MAX_SIZE
    modifies w
    ensures w.Valid() && Extends(old(w.Bits()), w.Bits(), data[..instart], data[..inend], final)
    ensures LastIs(o, e, btype, final, data, instart, inend, old(w.Bits()), w.Bits())
  {
    hide Extends, Written, DynamicParse, FewestBits, Replays, Inside, GoodSplit, DynamicCosts, ItemBlocks;
    var store, points := ParseAndSplit(o, e, btype, data, instart, inend);
    ghost var was := w.Bits();
    ghost var marks := AddSplitBlocks(w, btype, final, store, points, data[..instart], data[..inend]);
    assert SplitLast(o, e, btype, final, data, instart, inend, was, w.Bits(), store, points, marks);
  }

  /** The parse of a part, and where to split it. */
  method ParseAndSplit(o: Options, e: Estimator, btype: nat, data: seq<Byte>, instart: nat, inend: nat)
    returns (store: Store, points: seq<nat>)
    requires o.numiterations >= 1 && Sensible(e) && (btype == 1 || btype == 2)
    requires instart <= inend <= |data| <= MAX_SIZE
    ensures ValidStore(store) && Replays(data[..instart], store, data[..inend]) && Inside(points, 0, |store|)
    ensures ParsedAndSplit(o, e, btype, data, instart, inend, store, points)
  {
    hide Replays, Inside, GoodSplit, BlockCache, RunsOf, FirstSmallest, FewestBits, ValidStore, DynamicCosts;
    var lmc := NewCache(data, instart, inend);
    points := [];
    if btype == 2 {
      var stats := StatsFor(o, e, instart, inend);
      ghost var runs;
      store, runs := LZ77Optimal(lmc, data, instart, inend, stats);
      ReplaysValid(data[..instart], store, data[..inend]);
      assert BestRun(o, e, data, instart, inend, store, stats, runs);
      points := BlockSplitLZ77(DynamicCosts(store), |store|, o.blocksplittingmax);
      SplitShape(DynamicCosts(store), points, |store|, o.blocksplittingmax);
    } else {
      store := LZ77OptimalFixed(lmc, data, instart, inend);
      ReplaysValid(data[..instart], store, data[..inend]);
      NoneInside(|store|);
    }
  }

  lemma {:induction false} NoneInside(n: nat)
    ensures Inside([], 0, n)
  {
  }

  /** Encodes the items between the split points, block by block. */
  method AddSplitBlocks(w: Writer, btype: nat, final: bool, store: Store, points: seq<nat>, ghost before: seq<Byte>,
                        ghost after: seq<Byte>)
    returns (ghost marks: seq<BitString>)
    requires w.Valid() && (btype == 1 || btype == 2) && Inside(points, 0, |store|)
    requires ValidStore(store) && Replays(before, store, after)
    modifies w
    ensures w.Valid() && Extends(old(w.Bits()), w.Bits(), before, after, final)
    ensures ItemBlocks(btype, final, store, points, marks, |points| + 1)
    ensures marks[0] == old(w.Bits()) && marks[|points| + 1] == w.Bits()
  {
    hide Extends, Replays, Inside, ValidStore, Written, Appended, OneItemBlock;
    ghost var was := w.Bits();
    ghost var reached := before;
    ExtendsNothing(was, before);
    marks := [was];
    var n := |points|;
    for i := 0 to n + 1
      invariant w.Valid() && |marks| == i + 1 && marks[0] == was && marks[i] == w.Bits()
      invariant ItemBlocks(btype, final, store, points, marks, i)
      invariant i <= n ==> Extends(was, w.Bits(), before, reached, false) && StartAt(points, 0, i) <= |store|
      invariant i <= n ==> Replays(reached, store[StartAt(points, 0, i)..], after)
      invariant i == n + 1 ==> Extends(was, w.Bits(), before, after, final)
    {
      var start := if i == 0 then 0 else points[i - 1];
      var end := if i == n then |store| else points[i];
      PointsOrdered(points, |store|, i);
      ghost var mid := w.Bits();
      reached := AddSplitBlock(w, btype, i == n && final, store, start, end, was, before, reached, after);
      ItemBlockIs(btype, final, store, points, marks, i, w.Bits());
      OneMoreItemBlock(btype, final, store, points, marks, i, w.Bits());
      marks := marks + [w.Bits()];
    }
  }

  lemma {:induction false} ItemBlockIs(btype: nat, final: bool, store: Store, points: seq<nat>, marks: seq<BitString>,
                                       i: nat, now: BitString)
    requires i <= |points| && |marks| == i + 1 && StartAt(points, 0, i) <= EndAt(points, |store|, i) <= |store|
    requires Appended(marks[i], now, btype, i == |points| && final,
                      store[StartAt(points, 0, i)..EndAt(points, |store|, i)])
    ensures OneItemBlock(btype, final, store, points, marks + [now], i)
  {
    hide Appended;
  }

  /** One block of items after what has been written so far. */
  method AddSplitBlock(w: Writer, btype: nat, final: bool, store: Store, start: nat, end: nat,
                       ghost was: BitString, ghost before: seq<Byte>, ghost reached: seq<Byte>, ghost after: seq<Byte>)
    returns (ghost next: seq<Byte>)
    requires w.Valid() && (btype == 1 || btype == 2) && start <= end <= |store| && ValidStore(store)
    requires Replays(reached, store[start..], after) && Extends(was, w.Bits(), before, reached, false)
    modifies w
    ensures w.Valid() && Extends(was, w.Bits(), before, next, final) && Replays(next, store[end..], after)
    ensures end == |store| ==> next == after
    ensures Appended(old(w.Bits()), w.Bits(), btype, final, store[start..end])
  {
    hide Extends, Replays, BlockBits, Written, ValidStore;
    next := CutItems(store, start, end, reached, after);
    ghost var mid := w.Bits();
    AddLZ77Block(w, btype, final, store, start, end, 0);
    ExtendsBlock(mid, w.Bits(), btype, final, store[start..end], reached, next);
    ExtendsTrans(was, mid, w.Bits(), before, reached, next, final);
  }

  lemma {:induction false} PointsOrdered(points: seq<nat>, size: nat, i: nat)
    requires Inside(points, 0, size) && i <= |points|
    ensures StartAt(points, 0, i) <= EndAt(points, size, i) <= size
  {
  }

  lemma {:induction false} CutItems(store: Store, start: nat, end: nat, reached: seq<Byte>, after: seq<Byte>)
    returns (next: seq<Byte>)
    requires start <= end <= |store| && Replays(reached, store[start..], after)
    ensures Replays(reached, store[start..end], next) && Replays(next, store[end..], after)
    ensures end == |store| ==> next == after
  {
    hide Replays;
    next := ReplaysSplit(reached, store[start..], after, end - start);
    assert store[start..][..end - start] == store[start..end];
    assert store[start..][end - start..] == store[end..];
    if end == |store| {
      NothingLeft(next, store[end..], after);
    }
  }

  lemma {:induction false} NothingLeft(a: seq<Byte>, items: Store, b: seq<Byte>)
    requires Replays(a, items, b) && items == []
    ensures a == b
  {
  }

  // ----- Parts and master blocks -----------------------------------------------------------------

  /** The combinations the code can carry out without failing an assertion: stored blocks
      need the split-first path, or an input that fits one block. */
  predicate Supported(o: Options, btype: nat, size: nat) {
    && btype <= 2 && o.numiterations >= 1
    && (btype == 0 ==> if o.blocksplitting then !o.blocksplittinglast else size < 65536)
  }

  /** A part: split first, split last, or one block. */
  ghost predicate PartIs(o: Options, e: Estimator, btype: nat, final: bool, data: seq<Byte>, instart: nat, inend: nat,
                         was: BitString, now: BitString)
    requires instart <= inend <= |data|
  {
    if !o.blocksplitting then BlockIs(o, e, btype, final, data, instart, inend, was, now)
    else if o.blocksplittinglast then LastIs(o, e, btype, final, data, instart, inend, was, now)
    else FirstIs(o, e, btype, final, data, instart, inend, was, now)
  }

  method DeflatePart(w: Writer, o: Options, e: Estimator, btype: nat, final: bool, data: seq<Byte>, instart: nat,
                     inend: nat)
    requires w.Valid() && Sensible(e) && instart <= inend <= |data| <= MAX_SIZE && Supported(o, btype, inend - instart)
    modifies w
    ensures w.Valid() && Extends(old(w.Bits()), w.Bits(), data[..instart], data[..inend], final)
    ensures PartIs(o, e, btype, final, data, instart, inend, old(w.Bits()), w.Bits())
  {
    hide Extends, BlockIs, LastIs, FirstIs, Written;
    if o.blocksplitting {
      if o.blocksplittinglast {
        DeflateSplittingLast(w, o, e, btype, final, data, instart, inend);
      } else {
        DeflateSplittingFirst(w, o, e, btype, final, data, instart, inend);
      }
    } else {
      DeflateOneBlock(w, o, e, btype, final, data, instart, inend);
    }
  }

  const MASTER_BLOCK_SIZE: nat := 20000000

  /** Where the n-th part of the input starts: every 20 million bytes. */
  function PartStart(size: nat, n: nat): nat {
    if 20000000 * n <= size then 20000000 * n else size
  }

  /** The marks are the bits before each part and after the last of n parts. */
  ghost predicate Parts(o: Options, e: Estimator, btype: nat, final: bool, data: seq<Byte>, marks: seq<BitString>,
                        n: nat) {
    |marks| == n + 1 && forall i: nat | i < n :: OnePart(o, e, btype, final, data, marks, i)
  }

  ghost predicate OnePart(o: Options, e: Estimator, btype: nat, final: bool, data: seq<Byte>, marks: seq<BitString>,
                          i: nat)
    requires i + 1 < |marks|
  {
    var start, end := PartStart(|data|, i), PartStart(|data|, i + 1);
    start < end && PartIs(o, e, btype, final && end == |data|, data, start, end, marks[i], marks[i + 1])
  }

  /** The whole output: the parts of the input one after another. */
  ghost predicate StreamIs(o: Options, e: Estimator, btype: nat, final: bool, data: seq<Byte>, was: BitString,
                           now: BitString)
  {
    exists marks, n :: Stream(o, e, btype, final, data, was, now, marks, n)
  }

  ghost predicate Stream(o: Options, e: Estimator, btype: nat, final: bool, data: seq<Byte>, was: BitString,
                         now: BitString, marks: seq<BitString>, n: nat)
  {
    && Parts(o, e, btype, final, data, marks, n) && PartStart(|data|, n) == |data|
    && marks[0] == was && marks[n] == now
  }

  lemma {:induction false} OneMorePart(o: Options, e: Estimator, btype: nat, final: bool, data: seq<Byte>,
                                       marks: seq<BitString>, n: nat, now: BitString)
    requires Parts(o, e, btype, final, data, marks, n) && OnePart(o, e, btype, final, data, marks + [now], n)
    ensures Parts(o, e, btype, final, data, marks + [now], n + 1)
  {
    hide PartIs;
    var marks' := marks + [now];
    forall i: nat | i < n + 1
      ensures OnePart(o, e, btype, final, data, marks', i)
    {
      if i < n {
        assert OnePart(o, e, btype, final, data, marks, i);
      }
    }
  }

  /** The whole input, in master blocks that share the window. Only the last block of all
      is marked final; an empty input adds nothing at all. */
  method DeflateAll(w: Writer, o: Options, e: Estimator, btype: nat, final: bool, data: seq<Byte>)
    requires w.Valid() && Sensible(e) && |data| <= MAX_SIZE && Supported(o, btype, |data|)
    modifies w
    ensures w.Valid() && Extends(old(w.Bits()), w.Bits(), [], data, final && data != [])
    ensures data == [] ==> w.Bits() == old(w.Bits())
    ensures StreamIs(o, e, btype, final, data, old(w.Bits()), w.Bits())
  {
    hide Extends, PartIs, Written, Sensible;
    ghost var was := w.Bits();
    ghost var marks, n := [was], 0;
    ExtendsNothing(was, []);
    var i := 0;
    while i < |data|
      invariant 0 <= i <= |data| && w.Valid() && i == PartStart(|data|, n)
      invariant i == 0 ==> w.Bits() == was
      invariant Extends(was, w.Bits(), [], data[..i], final && 0 < i && i == |data|)
      invariant Parts(o, e, btype, final, data, marks, n) && marks[0] == was && marks[n] == w.Bits()
    {
      var masterfinal := i + MASTER_BLOCK_SIZE >= |data|;
      var size := if masterfinal then |data| - i else MASTER_BLOCK_SIZE;
      ghost var mid := w.Bits();
      DeflatePart(w, o, e, btype, final && masterfinal, data, i, i + size);
      ExtendsTrans(was, mid, w.Bits(), [], data[..i], data[..i + size], final && masterfinal);
      OneMorePart(o, e, btype, final, data, marks, n, w.Bits());
      marks, n := marks + [w.Bits()], n + 1;
      i := i + size;
    }
    assert data[..|data|] == data;
    assert Stream(o, e, btype, final, data, was, w.Bits(), marks, n);
  }

  /** What a finished stream of whole bytes decodes to. */
  lemma {:induction false} FinishedStream(was: BitString, out: seq<Byte>, used: nat, data: seq<Byte>)
    requires used < 8 && (used > 0 ==> out != [] && out[|out| - 1] < Pow2(used))
    requires Extends(was, Written(out, used), [], data, true)
    ensures |was| <= |ByteBits(out)|
    ensures Blocks(ByteBits(out)[|was|..], []) == Some((data, Zeros((8 - used) % 8)))
  {
    hide Blocks, ByteBits, Written, Decodes;
    AlignWritten(out, used);
    var all, pad := Written(out, used), Zeros((8 - used) % 8);
    var bits := all[|was|..];
    assert ByteBits(out)[|was|..] == bits + pad;
    PaddedSize(|all|, used);
    DecodesWith(|was|, bits, pad, data);
  }

  lemma {:induction false} PaddedSize(n: nat, used: nat)
    requires used < 8 && n % 8 == used
    ensures (n + (8 - used) % 8) % 8 == 0
  {
  }

  lemma {:induction false} DecodesWith(pos: nat, bits: BitString, rest: BitString, data: seq<Byte>)
    requires Decodes(pos, bits, [], data, true) && (pos + |bits| + |rest|) % 8 == 0
    ensures Blocks(bits + rest, []) == Some((data, rest))
  {
    hide Blocks;
    assert Gives(bits, rest, [], data, true);
  }

  /** Compressing a non-empty input into a fresh buffer: the decoder returns exactly the
      input and leaves nothing but the padding of the last byte. An empty input gives an
      empty output, which no decoder accepts. */
  method Compress(o: Options, e: Estimator, btype: nat, data: seq<Byte>) returns (out: seq<Byte>)
    requires Sensible(e) && |data| <= MAX_SIZE && Supported(o, btype, |data|)
    ensures data != [] ==> exists pad: nat :: pad < 8 && Blocks(ByteBits(out), []) == Some((data, Zeros(pad)))
    ensures data == [] ==> ByteBits(out) == [] && Blocks(ByteBits(out), []) == None
  {
    hide Extends;
    var w := new Writer([]);
    assert w.Bits() == [];
    DeflateAll(w, o, e, btype, true, data);
    out := w.out;
    if data != [] {
      FinishedStream([], w.out, w.bp % 8, data);
      assert ByteBits(out)[0..] == ByteBits(out);
    } else {
      AlignWritten(w.out, w.bp % 8);
      ByteBitsSize(w.out);
    }
  }
}
