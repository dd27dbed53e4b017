/**
 Runs of the squeeze parser: one run with given prices, the best of several runs with
 changing statistics, and the single run that suits the fixed tree.
 */
module SqueezeRuns {
  import opened Symbols
  import opened Lz77Store
  import opened MatchSpec
  import opened MatchCache
  import opened LongestMatch
  import opened Greedy
  import opened CostModel
  import opened ShortestPath
  import opened ParseGraph
  import opened Squeeze
  import BlockEncoding
  import DeflateBlock
  import Prices

  /** No block is larger than the address space. */
  const MAX_SIZE: nat := 0xFFFF_FFFF_FFFF_FFFF

  /** The store is a parse built from literals and the matches of the full search and,
      without the shortcut, no such parse costs less. */
  ghost predicate CheapestParse(data: seq<Byte>, instart: nat, inend: nat, m: Model, bound: real, store: Store)
    requires instart <= inend <= |data|
  {
    var c := BlockCtx(data, instart, inend);
    IsParseOf(Parses(c, instart, m, bound), m, NoShortcut(c, instart), store)
  }

  ghost predicate IsParseOf(g: Graph, m: Model, best: bool, store: Store) {
    && (exists path :: Path(g, path, g.size) && store == PathItems(g, path, g.size))
    && (best ==> forall other | Path(g, other, g.size) :: ItemsCost(m, store) <= PathCost(g, other, g.size))
  }

  lemma {:induction false} BestWayIsCheapest(g: Graph, c: Ctx, instart: nat, m: Model, best: bool, cost: real,
                                             lens: seq<nat>)
    requires GraphOf(g, c, instart, m) && BestWay(g, best, cost, lens)
    ensures IsParseOf(g, m, best, PathItems(g, Trace(lens, g.size), g.size))
    ensures cost == ItemsCost(m, PathItems(g, Trace(lens, g.size), g.size))
  {
    hide Path, PathCost, PathItems, Trace, ItemsCost, GraphOf;
    PathItemsCost(g, c, instart, m, Trace(lens, g.size), g.size);
  }

  /** Prices a run can work with. */
  ghost predicate Payable(m: Model, bound: real, size: nat) {
    0.0 <= bound < LARGE && Priced(m, bound) && Times(size, bound) < LARGE
  }

  lemma {:induction false} PricedParses(data: seq<Byte>, instart: nat, inend: nat, m: Model, bound: real)
    requires instart <= inend <= |data| && Payable(m, bound, inend - instart)
    ensures var g := Parses(BlockCtx(data, instart, inend), instart, m, bound);
            Pricing(g, data, instart, inend, m) && g.bound == bound && g.size == inend - instart
  {
    hide Edge, StepItem, ItemCost, GraphOf, ValidGraph, Priced, Times;
    var c := BlockCtx(data, instart, inend);
    ParsesIsGraph(c, instart, m, bound);
    ParsesValid(Parses(c, instart, m, bound), c, instart, m);
  }

  lemma {:induction false} PricingGraph(g: Graph, data: seq<Byte>, instart: nat, inend: nat, m: Model)
    requires Pricing(g, data, instart, inend, m)
    ensures GraphOf(g, BlockCtx(data, instart, inend), instart, m)
  {
    hide GraphOf, ValidGraph;
  }

  /** A single run: forward pass, trace back, follow. */
  method LZ77OptimalRun(lmc: Cache?, data: seq<Byte>, instart: nat, inend: nat, m: Model, ghost bound: real)
    returns (cost: real, store: Store)
    requires instart <= inend <= |data| && BlockCache(lmc, data, instart, inend) && Payable(m, bound, inend - instart)
    modifies CacheRepr(lmc)
    ensures BlockCache(lmc, data, instart, inend)
    ensures Replays(data[..instart], store, data[..inend])
    ensures CheapestParse(data, instart, inend, m, bound, store)
    ensures cost == ItemsCost(m, store) < LARGE
  {
    hide Pricing, Parses, BlockCache, Path, PathCost, PathItems, Trace, ItemsCost, NoShortcut, Priced, Replays,
         Leads, IsParseOf, Times;
    PricedParses(data, instart, inend, m, bound);
    ghost var g := Parses(BlockCtx(data, instart, inend), instart, m, bound);
    var lens := new nat[inend - instart + 1];
    cost := GetBestLengths(g, lmc, data, instart, inend, m, lens);
    PricingGraph(g, data, instart, inend, m);
    BestWayIsCheapest(g, BlockCtx(data, instart, inend), instart, m,
        NoShortcut(BlockCtx(data, instart, inend), instart), cost, lens[..]);
    var path := TraceBackwards(inend - instart, lens);
    store := FollowPath(g, m, lmc, data, instart, inend, path);
  }

  // ----- Fixed tree ----------------------------------------------------------------------

  lemma {:induction false} SmallSum(n: nat, bound: real)
    requires n <= MAX_SIZE && 0.0 <= bound <= 256.0
    ensures Times(n, bound) < LARGE
  {
    var x := n as real;
    assert x <= 18446744073709551615.0;
    var y := x * bound;
    assert y <= 18446744073709551615.0 * 256.0 by {
      TimesBound(x, bound);
    }
    assert y < LARGE;
    assert Times(n, bound) == y;
  }

  lemma {:induction false} TimesBound(n: real, bound: real)
    requires 0.0 <= n && 0.0 <= bound <= 256.0
    ensures n * bound <= n * 256.0
  {
  }

  /** The cheapest parse for the fixed tree. */
  method LZ77OptimalFixed(lmc: Cache?, data: seq<Byte>, instart: nat, inend: nat) returns (store: Store)
    requires instart <= inend <= |data| && BlockCache(lmc, data, instart, inend) && inend - instart <= MAX_SIZE
    modifies CacheRepr(lmc)
    ensures BlockCache(lmc, data, instart, inend)
    ensures Replays(data[..instart], store, data[..inend])
    ensures FewestBits(data, instart, inend, store)
  {
    hide BlockCache, Replays, Priced, CheapestParse, FewestBits, Times, ItemsCost;
    FixedPriced();
    SmallSum(inend - instart, 40.0);
    var _, s := LZ77OptimalRun(lmc, data, instart, inend, FixedModel(), 40.0);
    store := s;
    CheapestHasFewestBits(data, instart, inend, store);
  }

  /** A parse built from literals and the matches the full search recorded. */
  ghost predicate BlockParse(data: seq<Byte>, instart: nat, inend: nat, items: Store)
    requires instart <= inend <= |data|
  {
    var g := Parses(BlockCtx(data, instart, inend), instart, FixedModel(), 40.0);
    exists path :: Path(g, path, g.size) && items == PathItems(g, path, g.size)
  }

  /** A parse of which, without the shortcut, no other one takes fewer bits as a fixed
      block. */
  ghost predicate FewestBits(data: seq<Byte>, instart: nat, inend: nat, store: Store)
    requires instart <= inend <= |data|
  {
    && BlockParse(data, instart, inend, store) && ValidStore(store)
    && (NoShortcut(BlockCtx(data, instart, inend), instart) ==>
          forall other | BlockParse(data, instart, inend, other) :: NoFewerBits(store, other))
  }

  ghost predicate NoFewerBits(store: Store, other: Store)
    requires ValidStore(store)
  {
    && ValidStore(other)
    && |BlockEncoding.BlockBits(1, false, store)| <= |BlockEncoding.BlockBits(1, false, other)|
  }

  lemma {:induction false} CheapestHasFewestBits(data: seq<Byte>, instart: nat, inend: nat, store: Store)
    requires instart <= inend <= |data| && CheapestParse(data, instart, inend, FixedModel(), 40.0, store)
    ensures FewestBits(data, instart, inend, store)
  {
    hide Parses, Path, PathCost, PathItems, ItemsCost, FixedModel, NoShortcut, GraphOf, BlockEncoding.BlockBits,
         ValidStore;
    var c := BlockCtx(data, instart, inend);
    var g := Parses(c, instart, FixedModel(), 40.0);
    ParsesIsGraph(c, instart, FixedModel(), 40.0);
    var path :| Path(g, path, g.size) && store == PathItems(g, path, g.size);
    PathItemsValid(g, c, instart, FixedModel(), path, g.size);
    Prices.FixedPrice(store, false);
    forall other | NoShortcut(c, instart) && BlockParse(data, instart, inend, other)
      ensures NoFewerBits(store, other)
    {
      var p :| Path(g, p, g.size) && other == PathItems(g, p, g.size);
      PathItemsValid(g, c, instart, FixedModel(), p, g.size);
      PathItemsCost(g, c, instart, FixedModel(), p, g.size);
      Prices.FixedPrice(other, false);
    }
  }

  // ----- Statistics ------------------------------------------------------------------------

  /** Estimated bits per symbol. */
  datatype Stats = Stats(llSymbols: nat -> real, dSymbols: nat -> real)

  /** Entropies of counted symbols lie between 0 and 64 bits. */
  ghost predicate Entropies(s: Stats) {
    && (forall x: nat {:trigger s.llSymbols(x)} :: 0.0 <= s.llSymbols(x) <= 64.0)
    && (forall x: nat {:trigger s.dSymbols(x)} :: 0.0 <= s.dSymbols(x) <= 64.0)
  }

  lemma {:induction false} StatPriced(s: Stats)
    requires Entropies(s)
    ensures Priced(StatModel(s.llSymbols, s.dSymbols), 256.0)
  {
    var m := StatModel(s.llSymbols, s.dSymbols);
    forall b: nat {:trigger m.literal(b)}
      ensures 0.0 <= m.literal(b) <= 256.0
    {
      StatBounds(s, b, 0, 0);
    }
    forall l: nat {:trigger m.length(l)}
      ensures 0.0 <= m.length(l) <= 69.0
    {
      StatBounds(s, 0, l, 0);
    }
    forall x: nat {:trigger m.distance(x)}
      ensures 0.0 <= m.distance(x) <= 77.0
    {
      StatBounds(s, 0, 0, x);
    }
  }

  lemma {:induction false} StatBounds(s: Stats, b: nat, l: nat, x: nat)
    requires Entropies(s)
    ensures var m := StatModel(s.llSymbols, s.dSymbols);
            0.0 <= m.literal(b) <= 64.0 && 0.0 <= m.length(l) <= 69.0 && 0.0 <= m.distance(x) <= 77.0
  {
    hide LengthSymbol, LengthExtraBits, DistExtra, Entropies;
    EntropyAt(s, b, x);
    if l <= 258 {
      EntropyAt(s, LengthSymbol(l), x);
    }
    FewExtraBits(l, x);
  }

  lemma {:induction false} FewExtraBits(l: nat, x: nat)
    ensures l <= 258 ==> LengthExtraBits(l) <= 5
    ensures DistExtra(x) <= 13
  {
  }

  lemma {:induction false} EntropyAt(s: Stats, x: nat, y: nat)
    requires Entropies(s)
    ensures 0.0 <= s.llSymbols(x) <= 64.0 && 0.0 <= s.dSymbols(y) <= 64.0
  {
  }

  /** The size the code estimates for items a..b - 1 as one dynamic block. */
  function EstimatedSize(items: Store): nat
    requires ValidStore(items)
  {
    |BlockEncoding.BlockBits(2, false, items)| + DeflateBlock.EstimateExcess(2, items)
  }

  method DynamicSize(items: Store) returns (size: nat)
    requires ValidStore(items)
    ensures size == EstimatedSize(items)
  {
    hide BlockEncoding.BlockBits, DeflateBlock.EstimateExcess;
    size := DeflateBlock.CalculateBlockSize(items, 0, |items|, 2);
    assert items[0..|items|] == items;
  }

  /** Each run replays to the block and is cheapest for its own statistics. */
  ghost predicate RunsOf(data: seq<Byte>, instart: nat, inend: nat, stats: seq<Stats>, runs: seq<Store>)
    requires instart <= inend <= |data|
  {
    |runs| <= |stats| && forall i | 0 <= i < |runs| :: RunOf(data, instart, inend, stats[i], runs[i])
  }

  ghost predicate RunOf(data: seq<Byte>, instart: nat, inend: nat, stats: Stats, run: Store)
    requires instart <= inend <= |data|
  {
    && ValidStore(run) && Replays(data[..instart], run, data[..inend])
    && CheapestParse(data, instart, inend, StatModel(stats.llSymbols, stats.dSymbols), 256.0, run)
  }

  /** A run with statistics. */
  method StatRun(lmc: Cache?, data: seq<Byte>, instart: nat, inend: nat, stats: Stats) returns (store: Store, size: nat)
    requires instart <= inend <= |data| && BlockCache(lmc, data, instart, inend) && inend - instart <= MAX_SIZE
    requires Entropies(stats)
    modifies CacheRepr(lmc)
    ensures BlockCache(lmc, data, instart, inend)
    ensures RunOf(data, instart, inend, stats, store) && size == EstimatedSize(store)
  {
    hide BlockCache, Replays, Priced, CheapestParse, Times, ItemsCost, EstimatedSize, Entropies;
    StatPriced(stats);
    SmallSum(inend - instart, 256.0);
    var _, s := LZ77OptimalRun(lmc, data, instart, inend, StatModel(stats.llSymbols, stats.dSymbols), 256.0);
    ReplaysValid(data[..instart], s, data[..inend]);
    store := s;
    size := DynamicSize(store);
  }

  /** Repeated runs, whatever the statistics each of them uses; the result is the first
      of the runs with the smallest estimated size. */
  method LZ77Optimal(lmc: Cache?, data: seq<Byte>, instart: nat, inend: nat, stats: seq<Stats>)
    returns (store: Store, ghost runs: seq<Store>)
    requires instart <= inend <= |data| && BlockCache(lmc, data, instart, inend) && inend - instart <= MAX_SIZE
    requires |stats| >= 1 && forall i | 0 <= i < |stats| :: Entropies(stats[i])
    modifies CacheRepr(lmc)
    ensures BlockCache(lmc, data, instart, inend)
    ensures Replays(data[..instart], store, data[..inend])
    ensures |runs| == |stats| && RunsOf(data, instart, inend, stats, runs) && FirstSmallest(runs, store)
  {
    hide BlockCache, Replays, EstimatedSize, Entropies, ValidStore, CheapestParse;
    var _ := LZ77Greedy(lmc, data, instart, inend);
    runs := [];
    store := [];
    var bestcost := 0;
    ghost var best := 0;
    for i := 0 to |stats|
      invariant BlockCache(lmc, data, instart, inend)
      invariant |runs| == i && RunsOf(data, instart, inend, stats, runs)
      invariant i > 0 ==> best < i && store == runs[best] && bestcost == EstimatedSize(store)
      invariant i > 0 ==> SmallestAt(runs, best)
    {
      var current, cost := StatRun(lmc, data, instart, inend, stats[i]);
      runs := runs + [current];
      if i == 0 || cost < bestcost {
        store, bestcost, best := current, cost, i;
      }
    }
  }

  ghost predicate SmallestAt(runs: seq<Store>, k: nat)
    requires k < |runs| && forall i | 0 <= i < |runs| :: ValidStore(runs[i])
  {
    && (forall i | 0 <= i < |runs| :: EstimatedSize(runs[k]) <= EstimatedSize(runs[i]))
    && (forall i | 0 <= i < k :: EstimatedSize(runs[k]) < EstimatedSize(runs[i]))
  }

  ghost predicate FirstSmallest(runs: seq<Store>, store: Store)
    requires forall i | 0 <= i < |runs| :: ValidStore(runs[i])
  {
    exists k: nat :: k < |runs| && store == runs[k] && SmallestAt(runs, k)
  }
}
