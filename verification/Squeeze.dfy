/**
 The squeeze parser: a forward pass finds the cheapest way to every byte, the way to
 the end is traced back, and the matches on it are searched for again. The items
 replay to exactly the input; without the long-repetition shortcut the way taken is
 the cheapest of all.
 */
module Squeeze {
  import opened Symbols
  import opened Lz77Store
  import opened HashChain
  import opened MatchSpec
  import opened MatchFinder
  import opened MatchCache
  import opened LongestMatch
  import opened Greedy
  import opened CostModel
  import opened ShortestPath
  import opened ParseGraph

  /** The graph prices the parses of data[instart..inend]. */
  ghost predicate Pricing(g: Graph, data: seq<Byte>, instart: nat, inend: nat, m: Model) {
    instart <= inend <= |data| && ValidGraph(g) && GraphOf(g, BlockCtx(data, instart, inend), instart, m)
  }

  lemma {:induction false} PricingSize(g: Graph, data: seq<Byte>, instart: nat, inend: nat, m: Model)
    requires Pricing(g, data, instart, inend, m)
    ensures g.size == inend - instart && ValidGraph(g) && ValidCtx(BlockCtx(data, instart, inend))
  {
    hide ValidGraph, Edge, StepItem, ItemCost;
  }

  /** What the graph says about one step. */
  lemma {:induction false} StepIn(g: Graph, data: seq<Byte>, instart: nat, inend: nat, m: Model, j: nat, k: nat)
    requires Pricing(g, data, instart, inend, m)
    ensures ValidCtx(BlockCtx(data, instart, inend))
    ensures StepFacts(g, BlockCtx(data, instart, inend), instart, m, j, k)
  {
    hide ValidGraph, GraphOf, StepFacts;
    StepAt(g, BlockCtx(data, instart, inend), instart, m, j, k);
  }

  // ----- The long-repetition shortcut ----------------------------------------------------

  /** Position i lies well inside a long repetition of one byte. */
  predicate Shortcut(c: Ctx, instart: nat, i: nat)
    requires ValidCtx(c) && instart <= i < c.end
  {
    Same(c, i) > 516 && i > instart + 259 && i + 517 < c.end && Same(c, i - 258) > 258
  }

  ghost predicate AllSame(c: Ctx, lo: nat, hi: nat) {
    lo < hi <= |c.data| && forall k | lo <= k < hi :: c.data[k] == c.data[lo]
  }

  lemma {:induction false} RunReaches(c: Ctx, pos: nat, k: nat, n: nat)
    requires ValidCtx(c) && k <= n && pos + n < c.end && AllSame(c, pos, pos + n + 1)
    ensures RunFrom(c, pos, k) >= n
    decreases n - k
  {
    if k < n {
      assert c.data[pos + k + 1] == c.data[pos];
      RunReaches(c, pos, k + 1, n);
    }
  }

  lemma {:induction false} SameReaches(c: Ctx, pos: nat, n: nat)
    requires ValidCtx(c) && pos < c.end && n < 65536
    ensures Same(c, pos) >= n <==> pos + n < c.end && AllSame(c, pos, pos + n + 1)
  {
    if Same(c, pos) >= n {
      forall k | pos <= k < pos + n + 1
        ensures c.data[k] == c.data[pos]
      {
        SameEqual(c, pos, k);
      }
    }
    if pos + n < c.end && AllSame(c, pos, pos + n + 1) {
      RunReaches(c, pos, 0, n);
    }
  }

  /** The shortcut is taken exactly where one byte fills the 258 positions before and the
      518 from here on, and there are as many in the block. */
  lemma {:induction false} ShortcutIs(c: Ctx, instart: nat, i: nat)
    requires ValidCtx(c) && c.start <= instart <= i < c.end
    ensures Shortcut(c, instart, i) <==> i > instart + 259 && i + 517 < c.end && AllSame(c, i - 258, i + 518)
  {
    hide Same;
    if i > instart + 259 && i + 517 < c.end {
      SameReaches(c, i, 517);
      SameReaches(c, i - 258, 259);
      if Shortcut(c, instart, i) {
        assert c.data[i] == c.data[i - 258];
      }
      assert AllSame(c, i - 258, i + 518) ==> c.data[i] == c.data[i - 258];
    }
  }

  ghost predicate NoShortcut(c: Ctx, instart: nat)
    requires ValidCtx(c)
  {
    forall i: nat | instart <= i < c.end :: !Shortcut(c, instart, i)
  }

  /** All positions the shortcut jumps over, and the two before, are inside the run. */
  lemma {:induction false} ShortcutRun(c: Ctx, instart: nat, i: nat, pos: nat)
    requires ValidCtx(c) && c.start <= instart <= i < c.end && Shortcut(c, instart, i)
    requires i <= pos + 2 && pos <= i + 258
    ensures InRun(c, pos)
  {
    hide Same;
    forall x: nat | pos <= x < pos + 258
      ensures Lz77Store.Repeats(c.data, x, 1)
    {
      RunByte(c, i, x);
      RunByte(c, i, x - 1);
    }
  }

  lemma {:induction false} RunByte(c: Ctx, i: nat, x: nat)
    requires ValidCtx(c) && 258 <= i < c.end && Same(c, i) > 516 && Same(c, i - 258) > 258
    requires i - 258 <= x <= i + 516
    ensures x < c.end && c.data[x] == c.data[i]
  {
    hide Same;
    SameEqual(c, i - 258, i);
    if x <= i {
      SameEqual(c, i - 258, x);
    } else {
      SameEqual(c, i, x);
    }
  }

  /** Inside a run every match length is possible, the longest at distance 1. */
  lemma {:induction false} RunEdges(c: Ctx, pos: nat, k: nat)
    requires ValidCtx(c) && InRun(c, pos)
    ensures k == 1 || 3 <= k <= 258 ==> Edge(c, pos, k)
    ensures Edge(c, pos, 258) && StepItem(c, pos, 258) == Item(258, 1)
  {
    hide Search, InRun;
    RunInside(c, pos);
    RunSearch(c, pos);
  }

  lemma {:induction false} RunInside(c: Ctx, pos: nat)
    requires ValidCtx(c) && InRun(c, pos)
    ensures c.start < pos < c.end
  {
  }

  /** The shortcut applies at byte j of the block. */
  ghost predicate JumpAt(data: seq<Byte>, instart: nat, inend: nat, j: nat) {
    instart + j < inend <= |data| && Shortcut(BlockCtx(data, instart, inend), instart, instart + j)
  }

  /** Steps near and inside the jump. */
  lemma {:induction false} JumpSteps(g: Graph, data: seq<Byte>, instart: nat, inend: nat, m: Model, j: nat, r: nat,
                                     k: nat)
    requires Pricing(g, data, instart, inend, m) && JumpAt(data, instart, inend, j)
    requires j <= r + 2 && r <= j + 258
    ensures j > 259 && j + 517 < g.size
    ensures k == 1 || 3 <= k <= 258 ==> g.edge(r, k)
    ensures g.edge(r, 258) && g.cost(r, 258) == Cost(m, 258, 1)
  {
    hide ValidGraph, GraphOf, Edge, StepItem, Same, Cost, InRun;
    var c := BlockCtx(data, instart, inend);
    PricingSize(g, data, instart, inend, m);
    ShortcutRun(c, instart, instart + j, instart + r);
    RunEdges(c, instart + r, k);
    StepIn(g, data, instart, inend, m, r, k);
    StepIn(g, data, instart, inend, m, r, 258);
  }

  /** Bytes from..to - 1 are reached. */
  ghost predicate Finite(costs: seq<real>, from: nat, to: nat) {
    to <= |costs| && forall u: nat | from <= u < to :: costs[u] < LARGE
  }

  /** Where the shortcut starts, the following 257 bytes have been reached already. */
  lemma {:induction false} JumpReached(g: Graph, data: seq<Byte>, instart: nat, inend: nat, m: Model, j: nat,
                                       costs: seq<real>, lens: seq<nat>, t: nat)
    requires Pricing(g, data, instart, inend, m) && JumpAt(data, instart, inend, j)
    requires Dealing(g, false, j, 0, costs, lens) && t <= 257
    ensures j + t < |costs| && costs[j + t] < LARGE
  {
    hide Pricing, JumpAt, Tables, Cost;
    TablesSize(g, j, costs, lens);
    JumpSteps(g, data, instart, inend, m, j, j, 1);
    JumpSteps(g, data, instart, inend, m, j, j - 2, 3);
    JumpSteps(g, data, instart, inend, m, j, j - 1, t + 1);
    assert Reached(g, costs, j - 2, 3);
    assert Reached(g, costs, j - 1, t + 1);
  }

  /** The shortcut in progress: from byte j on, 258 bytes are reached. */
  ghost predicate Jumping(g: Graph, start: nat, j: nat, costs: seq<real>, lens: seq<nat>) {
    && start <= j <= g.size && Tables(g, j, costs, lens) && ReachedBefore(g, costs, start)
    && Finite(costs, start, j + 258)
  }

  lemma {:induction false} StartJump(g: Graph, data: seq<Byte>, instart: nat, inend: nat, m: Model, j: nat,
                                     costs: seq<real>, lens: seq<nat>)
    requires Pricing(g, data, instart, inend, m) && JumpAt(data, instart, inend, j)
    requires Dealing(g, false, j, 0, costs, lens)
    ensures Jumping(g, j, j, costs, lens) && j + 517 < g.size
  {
    hide Pricing, JumpAt, Tables, ReachedBefore, Cost;
    TablesSize(g, j, costs, lens);
    JumpSteps(g, data, instart, inend, m, j, j, 1);
    forall u: nat | j <= u < j + 258
      ensures costs[u] < LARGE
    {
      JumpReached(g, data, instart, inend, m, j, costs, lens, u - j);
    }
  }

  lemma {:induction false} JumpStep(g: Graph, start: nat, j: nat, costs: seq<real>, lens: seq<nat>, v: real)
    requires ValidGraph(g) && Jumping(g, start, j, costs, lens) && j + 258 <= g.size
    requires g.edge(j, 258) && v == costs[j] + g.cost(j, 258)
    ensures Jumping(g, start, j + 1, costs[j + 258 := v], lens[j + 258 := 258])
  {
    hide Tables, ReachedBefore, ValidGraph;
    TablesSize(g, j, costs, lens);
    SetNode(g, j, 258, costs, lens, v);
    TablesLater(g, j, j + 1, costs[j + 258 := v], lens[j + 258 := 258]);
    SetKeepsReached(g, costs, start, j + 258, v);
  }

  lemma {:induction false} EndJump(g: Graph, start: nat, costs: seq<real>, lens: seq<nat>)
    requires ValidGraph(g) && Jumping(g, start, start + 258, costs, lens)
    ensures Dealing(g, false, start + 258, 0, costs, lens)
  {
    hide Tables, Times;
    TablesSize(g, start + 258, costs, lens);
    forall r, k: nat | 0 <= r < start + 258
      ensures Reached(g, costs, r, k)
    {
      if r < start {
        assert Reached(g, costs, r, k);
      }
    }
  }

  lemma {:induction false} JumpSize(g: Graph, start: nat, j: nat, costs: seq<real>, lens: seq<nat>)
    requires Jumping(g, start, j, costs, lens)
    ensures |costs| == |lens| == g.size + 1
  {
    hide NodeOk, ReachedBefore;
  }

  // ----- The forward pass -------------------------------------------------------------------

  /** Jumps 258 bytes, reaching as many bytes 258 further on. */
  method TakeShortcut(ghost g: Graph, h: Hash, m: Model, data: seq<Byte>, instart: nat, i: nat, inend: nat,
                      costs: array<real>, lens: array<nat>)
    requires Pricing(g, data, instart, inend, m) && instart <= i && JumpAt(data, instart, inend, i - instart)
    requires Dealing(g, false, i - instart, 0, costs[..], lens[..])
    requires HashAt(h, data, instart, inend, i + 1) && lens !in HashRepr(h) && costs !in HashRepr(h)
    modifies HashRepr(h), costs, lens
    ensures HashAt(h, data, instart, inend, i + 259)
    ensures i + 258 < inend && Dealing(g, false, i + 258 - instart, 0, costs[..], lens[..])
  {
    hide Pricing, JumpAt, Dealing, Jumping, HashAt, Cost, ValidGraph;
    var start := i - instart;
    PricingSize(g, data, instart, inend, m);
    StartJump(g, data, instart, inend, m, start, costs[..], lens[..]);
    var symbolcost := Cost(m, 258, 1);
    for k := 0 to 258
      invariant HashAt(h, data, instart, inend, i + k + 1)
      invariant Jumping(g, start, start + k, costs[..], lens[..])
    {
      var j := start + k;
      JumpSize(g, start, j, costs[..], lens[..]);
      JumpSteps(g, data, instart, inend, m, start, j, 258);
      ghost var was, wasLens := costs[..], lens[..];
      JumpStep(g, start, j, was, wasLens, was[j] + symbolcost);
      costs[j + 258] := costs[j] + symbolcost;
      lens[j + 258] := 258;
      assert costs[..] == was[j + 258 := was[j] + symbolcost];
      assert lens[..] == wasLens[j + 258 := 258];
      Advance(h, data, instart, inend, i + k + 1, i + k + 2);
    }
    EndJump(g, start, costs[..], lens[..]);
  }

  /** One step tried: taken if cheaper. */
  method RelaxStep(ghost g: Graph, ghost best: bool, j: nat, k: nat, newCost: real, costs: array<real>,
                   lens: array<nat>)
    requires ValidGraph(g) && costs.Length == lens.Length == g.size + 1 && j + k <= g.size
    requires j < g.size && Dealing(g, best, j, k, costs[..], lens[..])
    requires g.edge(j, k) && k > 0 && newCost == costs[j] + g.cost(j, k)
    modifies costs, lens
    ensures costs[j] == old(costs[j]) && Dealing(g, best, j, k + 1, costs[..], lens[..])
  {
    hide Dealing, ValidGraph;
    if newCost < costs[j + k] {
      StepSet(g, best, j, k, costs[..], lens[..], newCost);
      costs[j + k] := newCost;
      lens[j + k] := k;
      assert costs[..] == old(costs[..])[j + k := newCost];
      assert lens[..] == old(lens[..])[j + k := k];
    } else {
      StepSkip(g, best, j, k, costs[..], lens[..]);
    }
  }

  /** No match is cheaper. */
  ghost predicate LowerBound(m: Model, mincost: real) {
    forall l: nat, d: nat | 3 <= l <= 258 && 1 <= d <= 32768 :: mincost <= Cost(m, l, d)
  }

  /** The search result at byte j, as the match finder reports it. */
  ghost predicate Answered(data: seq<Byte>, instart: nat, inend: nat, j: nat, leng: nat, sublen: seq<nat>)
    requires instart + j < inend <= |data|
  {
    var b := Search(BlockCtx(data, instart, inend), instart + j, 258);
    AnswersSub(b, sublen) && if b.length >= 3 then leng == b.length else leng < 3
  }

  /** The steps from byte j as the pass must see them: a literal, and the match lengths
      found, at the distances reported and no cheaper than the cheapest match. */
  ghost predicate StepsAre(g: Graph, m: Model, mincost: real, literal: nat, j: nat, leng: nat, sublen: seq<nat>) {
    && g.edge(j, 1) && g.cost(j, 1) == Cost(m, literal, 0) && j < g.size
    && (leng >= 3 ==> leng < |sublen|)
    && (forall k: nat {:trigger g.edge(j, k)} | 3 <= k ::
          && (g.edge(j, k) <==> k <= leng)
          && (k <= leng ==> j + k <= g.size && g.cost(j, k) == Cost(m, k, sublen[k]) >= mincost))
  }

  lemma {:induction false} OneStepIs(g: Graph, data: seq<Byte>, instart: nat, inend: nat, m: Model, mincost: real,
                                     j: nat, leng: nat, sublen: seq<nat>, k: nat)
    requires Pricing(g, data, instart, inend, m) && instart + j < inend && k >= 3
    requires Answered(data, instart, inend, j, leng, sublen) && LowerBound(m, mincost)
    ensures g.edge(j, k) <==> k <= leng
    ensures k <= leng ==> j + k <= g.size && k < |sublen| && g.cost(j, k) == Cost(m, k, sublen[k]) >= mincost
  {
    hide Search, Cost, GraphOf, ValidGraph;
    var c := BlockCtx(data, instart, inend);
    PricingSize(g, data, instart, inend, m);
    StepIn(g, data, instart, inend, m, j, k);
    SearchSound(c, instart + j, 258);
    if k <= leng {
      SoundDist(c, instart + j, Search(c, instart + j, 258), k);
      EdgeShape(c, instart + j, k);
    }
  }

  lemma {:induction false} StepsFound(g: Graph, data: seq<Byte>, instart: nat, inend: nat, m: Model, mincost: real,
                                      j: nat, leng: nat, sublen: seq<nat>)
    requires Pricing(g, data, instart, inend, m) && instart + j < inend
    requires Answered(data, instart, inend, j, leng, sublen) && LowerBound(m, mincost)
    ensures StepsAre(g, m, mincost, data[instart + j], j, leng, sublen)
  {
    hide Pricing, Answered, LowerBound, Cost, Edge, StepItem;
    PricingSize(g, data, instart, inend, m);
    LiteralIn(g, data, instart, inend, m, j);
    if leng >= 3 {
      OneStepIs(g, data, instart, inend, m, mincost, j, leng, sublen, leng);
    }
    forall k: nat {:trigger g.edge(j, k)} | 3 <= k
      ensures g.edge(j, k) <==> k <= leng
      ensures k <= leng ==> j + k <= g.size && k < |sublen| && g.cost(j, k) == Cost(m, k, sublen[k]) >= mincost
    {
      OneStepIs(g, data, instart, inend, m, mincost, j, leng, sublen, k);
    }
  }

  lemma {:induction false} LiteralIn(g: Graph, data: seq<Byte>, instart: nat, inend: nat, m: Model, j: nat)
    requires Pricing(g, data, instart, inend, m) && instart + j < inend
    ensures g.edge(j, 1) && g.cost(j, 1) == Cost(m, data[instart + j], 0)
  {
    hide Pricing, Cost, Edge, StepItem;
    var c := BlockCtx(data, instart, inend);
    StepIn(g, data, instart, inend, m, j, 1);
    LiteralEdge(c, instart + j);
    EdgeShape(c, instart + j, 1);
  }

  lemma {:induction false} NotAStep(g: Graph, j: nat, k: nat, costs: seq<real>)
    requires ValidGraph(g) && |costs| == g.size + 1 && j <= g.size && (k == 0 || k == 2)
    ensures Relaxed(g, costs, j, k)
  {
    hide Times;
  }

  /** All steps from byte j: one literal, then every match length found there. A length
      is skipped when byte j + k is already as cheap as the cheapest match could make it. */
  method RelaxAll(ghost g: Graph, ghost best: bool, m: Model, mincost: real, literal: Byte, i: nat, inend: nat, j: nat,
                  leng: nat, sublen: array<nat>, costs: array<real>, lens: array<nat>)
    requires ValidGraph(g) && costs.Length == lens.Length == g.size + 1 && inend - i == g.size - j
    requires j < g.size && Dealing(g, best, j, 0, costs[..], lens[..])
    requires sublen.Length == 259 && lens != sublen && leng <= 258
    requires StepsAre(g, m, mincost, literal, j, leng, sublen[..])
    modifies costs, lens
    ensures Dealing(g, best, j + 1, 0, costs[..], lens[..])
  {
    hide Dealing, Cost, ValidGraph;
    NotAStep(g, j, 0, costs[..]);
    StepSkip(g, best, j, 0, costs[..], lens[..]);
    RelaxStep(g, best, j, 1, costs[j] + Cost(m, literal, 0), costs, lens);
    NotAStep(g, j, 2, costs[..]);
    StepSkip(g, best, j, 2, costs[..], lens[..]);
    ghost var subs := sublen[..];
    assert leng >= 3 ==> g.edge(j, leng) && j + leng <= g.size;
    var k := 3;
    while k <= leng && i + k <= inend
      invariant 3 <= k && sublen[..] == subs
      invariant Dealing(g, best, j, k, costs[..], lens[..])
      decreases leng - k
    {
      assert g.edge(j, k) && sublen[..][k] == sublen[k];
      if costs[j + k] - costs[j] <= mincost {
        StepSkip(g, best, j, k, costs[..], lens[..]);
      } else {
        RelaxStep(g, best, j, k, costs[j] + Cost(m, k, sublen[k]), costs, lens);
      }
      k := k + 1;
    }
    NoLonger(g, best, j, k, costs[..], lens[..]);
    NextByte(g, best, j, costs[..], lens[..]);
  }

  lemma {:induction false} NoLonger(g: Graph, best: bool, j: nat, k: nat, costs: seq<real>, lens: seq<nat>)
    requires Dealing(g, best, j, k, costs, lens) && forall x: nat {:trigger g.edge(j, x)} | x >= k :: !g.edge(j, x)
    ensures Dealing(g, best, j, 259, costs, lens)
  {
    hide Tables, ReachedBefore, RelaxedBefore;
    TablesSize(g, j, costs, lens);
    forall x: nat | x < 259
      ensures Relaxed(g, costs, j, x)
    {
    }
  }

  lemma {:induction false} SameInWindow(h: Hash, pos: nat)
    requires h.Valid() && h.c.start <= pos < h.c.start + h.n <= pos + 32768
    ensures h.same.Length == 32768 && h.same[Slot(pos)] == Same(h.c, pos)
  {
    hide History, Rolling, WithRun, Same, Slot, Warm;
    assert InWindow(pos - h.c.start, h.n);
    assert h.same[..][Slot(h.c.start + (pos - h.c.start))] == Same(h.c, pos);
  }

  /** Whether the repetition counts call for the shortcut. */
  method WantsShortcut(h: Hash, data: seq<Byte>, instart: nat, i: nat, inend: nat) returns (b: bool)
    requires instart <= i < inend <= |data| && HashAt(h, data, instart, inend, i + 1)
    ensures b == Shortcut(BlockCtx(data, instart, inend), instart, i)
  {
    hide Hash.Valid, Same, Slot;
    SameInWindow(h, i);
    if h.same[Slot(i)] > 516 && i > instart + 259 && i + 517 < inend {
      SameInWindow(h, i - 258);
      b := h.same[Slot(i - 258)] > 258;
    } else {
      b := false;
    }
  }

  /** The full search at byte j, in the form the pass needs. */
  method FindSteps(ghost g: Graph, lmc: Cache?, h: Hash, ghost m: Model, ghost mincost: real, data: seq<Byte>,
                   instart: nat, inend: nat, i: nat, sublen: array<nat>)
    returns (leng: nat)
    requires Pricing(g, data, instart, inend, m) && LowerBound(m, mincost)
    requires HashAt(h, data, instart, inend, i + 1) && instart <= i < inend <= |data|
    requires BlockCache(lmc, data, instart, inend) && Disjoint(h, lmc, sublen) && sublen.Length == 259
    modifies sublen, CacheRepr(lmc)
    ensures HashAt(h, data, instart, inend, i + 1) && BlockCache(lmc, data, instart, inend)
    ensures leng <= 258 && StepsAre(g, m, mincost, data[i], i - instart, leng, sublen[..])
  {
    hide Pricing, LowerBound, HashAt, BlockCache, Search, StepsAre;
    var dist;
    dist, leng := FullMatch(lmc, h, data, instart, inend, i, sublen);
    assert instart + (i - instart) == i;
    AnswerIsGood(data, instart, inend, i, leng, dist);
    StepsFound(g, data, instart, inend, m, mincost, i - instart, leng, sublen[..]);
  }

  /** One round of the forward pass: take in a position, jump if it is in a long
      repetition, then try every step from where we are. */
  method BestLengthsStep(ghost g: Graph, ghost best: bool, lmc: Cache?, h: Hash, sublen: array<nat>, m: Model,
                         mincost: real,
                         data: seq<Byte>, instart: nat, inend: nat, start: nat, costs: array<real>, lens: array<nat>)
    returns (next: nat)
    requires Pricing(g, data, instart, inend, m) && instart <= start < inend <= |data|
    requires costs.Length == lens.Length == g.size + 1 && g.size == inend - instart
    requires best ==> NoShortcut(BlockCtx(data, instart, inend), instart)
    requires Dealing(g, best, start - instart, 0, costs[..], lens[..]) && LowerBound(m, mincost)
    requires HashAt(h, data, instart, inend, start) && BlockCache(lmc, data, instart, inend)
    requires sublen.Length == 259 && Disjoint(h, lmc, sublen)
    requires lens != sublen && {costs, lens} !! HashRepr(h) && {costs, lens} !! CacheRepr(lmc)
    modifies HashRepr(h), sublen, CacheRepr(lmc), costs, lens
    ensures HashAt(h, data, instart, inend, next) && BlockCache(lmc, data, instart, inend)
    ensures start < next <= inend && Dealing(g, best, next - instart, 0, costs[..], lens[..])
  {
    hide Pricing, ValidGraph, Dealing, HashAt, BlockCache, LowerBound, Shortcut, StepsAre;
    PricingSize(g, data, instart, inend, m);
    var i := start;
    Advance(h, data, instart, inend, i, i + 1);
    var shortcut := WantsShortcut(h, data, instart, i, inend);
    if shortcut {
      assert instart + (i - instart) == i;
      Weaker(g, best, i - instart, costs[..], lens[..]);
      TakeShortcut(g, h, m, data, instart, i, inend, costs, lens);
      i := i + 258;
    }
    ghost var was, wasLens := costs[..], lens[..];
    var leng := FindSteps(g, lmc, h, m, mincost, data, instart, inend, i, sublen);
    assert costs[..] == was && lens[..] == wasLens;
    RelaxAll(g, best, m, mincost, data[i], i, inend, i - instart, leng, sublen, costs, lens);
    next := i + 1;
  }

  lemma {:induction false} Weaker(g: Graph, best: bool, j: nat, costs: seq<real>, lens: seq<nat>)
    requires Dealing(g, best, j, 0, costs, lens)
    ensures Dealing(g, false, j, 0, costs, lens)
  {
    hide Tables, ReachedBefore, RelaxedBefore;
  }

  /** The forward pass. */
  method GetBestLengths(ghost g: Graph, lmc: Cache?, data: seq<Byte>, instart: nat, inend: nat, m: Model,
                        lens: array<nat>)
    returns (cost: real)
    requires Pricing(g, data, instart, inend, m) && Priced(m, g.bound) && g.bound < LARGE
    requires instart <= inend <= |data| && BlockCache(lmc, data, instart, inend)
    requires lens.Length == inend - instart + 1 && lens !in CacheRepr(lmc)
    modifies lens, CacheRepr(lmc)
    ensures BlockCache(lmc, data, instart, inend)
    ensures BestWay(g, NoShortcut(BlockCtx(data, instart, inend), instart), cost, lens[..])
  {
    hide Pricing, ValidGraph, HashAt, BlockCache, Dealing, BestWay, NoShortcut, Priced, Cost;
    PricingSize(g, data, instart, inend, m);
    ghost var best := NoShortcut(BlockCtx(data, instart, inend), instart);
    var blocksize := inend - instart;
    var mincost := GetCostModelMinCost(m, g.bound);
    var costs := new real[blocksize + 1](i => if i == 0 then 0.0 else LARGE);
    lens[0] := 0;
    StartPass(g, best, costs[..], lens[..]);
    if instart < inend {
      RunPass(g, best, lmc, m, mincost, data, instart, inend, costs, lens);
    }
    EndPass(g, best, costs[..], lens[..]);
    cost := costs[..][blocksize];
  }

  /** All rounds of the forward pass. */
  method RunPass(ghost g: Graph, ghost best: bool, lmc: Cache?, m: Model, mincost: real,
                 data: seq<Byte>, instart: nat, inend: nat, costs: array<real>, lens: array<nat>)
    requires Pricing(g, data, instart, inend, m) && instart < inend <= |data| && LowerBound(m, mincost)
    requires costs.Length == lens.Length == g.size + 1 && g.size == inend - instart
    requires best ==> NoShortcut(BlockCtx(data, instart, inend), instart)
    requires Dealing(g, best, 0, 0, costs[..], lens[..])
    requires BlockCache(lmc, data, instart, inend) && {costs, lens} !! CacheRepr(lmc)
    modifies CacheRepr(lmc), costs, lens
    ensures BlockCache(lmc, data, instart, inend) && Dealing(g, best, g.size, 0, costs[..], lens[..])
  {
    hide Pricing, HashAt, BlockCache, Dealing, LowerBound, NoShortcut;
    var h := StartHash(data, instart, inend);
    var sublen := new nat[259];
    var i := instart;
    while i < inend
      invariant instart <= i <= inend && Dealing(g, best, i - instart, 0, costs[..], lens[..])
      invariant HashAt(h, data, instart, inend, i) && BlockCache(lmc, data, instart, inend)
      invariant fresh(HashRepr(h)) && fresh(sublen) && {sublen, lens, costs} !! HashRepr(h)
      decreases inend - i
    {
      i := BestLengthsStep(g, best, lmc, h, sublen, m, mincost, data, instart, inend, i, costs, lens);
    }
  }

  // ----- Tracing back ---------------------------------------------------------------------------

  function Mirrored(s: seq<nat>): (r: seq<nat>)
    ensures |r| == |s| && forall k | 0 <= k < |s| :: r[k] == s[|s| - 1 - k]
  {
    seq(|s|, k requires 0 <= k < |s| => s[|s| - 1 - k])
  }

  /** The steps to the end: collected from the end backwards, then mirrored in place. */
  method TraceBackwards(size: nat, lens: array<nat>) returns (path: seq<nat>)
    requires size < lens.Length && Leads(lens[..], size)
    ensures path == Trace(lens[..], size)
  {
    path := [];
    var index := size;
    while index != 0
      invariant 0 <= index <= size && Leads(lens[..], index)
      invariant Trace(lens[..], size) == Trace(lens[..], index) + Mirrored(path)
    {
      var step := lens[index];
      assert Mirrored(path + [step]) == [step] + Mirrored(path);
      assert Trace(lens[..], index) == Trace(lens[..], index - step) + [step];
      path := path + [step];
      index := index - step;
    }
    path := MirrorResult(path);
  }

  method MirrorResult(p: seq<nat>) returns (path: seq<nat>)
    ensures path == Mirrored(p)
  {
    path := p;
    var n := |path|;
    for index := 0 to n / 2
      invariant |path| == n
      invariant forall k | 0 <= k < index || n - index <= k < n :: path[k] == p[n - 1 - k]
      invariant forall k | index <= k < n - index :: path[k] == p[k]
    {
      var temp := path[index];
      path := path[index := path[n - index - 1]];
      path := path[n - index - 1 := temp];
    }
  }

  // ----- Following the path ----------------------------------------------------------------------

  /** The search limited to the step's length gives exactly that length, at the distance
      the full search recorded. */
  lemma {:induction false} StepFound(data: seq<Byte>, instart: nat, inend: nat, pos: nat, k: nat, leng: nat, dist: nat)
    requires instart <= pos < inend <= |data| && 3 <= k <= 258
    requires Edge(BlockCtx(data, instart, inend), pos, k)
    requires Answers(Search(BlockCtx(data, instart, inend), pos, k), leng, dist)
    ensures leng == k && GoodMatch(data, inend, pos, k, dist)
    ensures Item(k, dist) == StepItem(BlockCtx(data, instart, inend), pos, k)
  {
    hide Search, Sound;
    var c := BlockCtx(data, instart, inend);
    SearchLimited(c, pos, k);
    SearchSound(c, pos, k);
    SoundDist(c, pos, Search(c, pos, k), k);
  }

  /** The search limited to `limit`, without per-length distances. */
  method LimitedMatch(lmc: Cache?, h: Hash, data: seq<Byte>, instart: nat, inend: nat, pos: nat, limit: nat)
    returns (dist: nat, leng: nat)
    requires HashAt(h, data, instart, inend, pos + 1) && instart <= pos < inend <= |data| && 3 <= limit <= 258
    requires BlockCache(lmc, data, instart, inend) && Disjoint(h, lmc, null)
    modifies CacheRepr(lmc)
    ensures HashAt(h, data, instart, inend, pos + 1) && BlockCache(lmc, data, instart, inend)
    ensures Answers(Search(BlockCtx(data, instart, inend), pos, limit), leng, dist)
  {
    hide Search, SamesOk, History, Rolling, WithRun, Same, Slot, Answers, AnswersSub, EntryOk;
    dist, leng := FindLongestMatch(lmc, h, data, pos, inend, limit, null);
  }

  /** One step of the path: a literal, or a match whose distance is searched for again. */
  method FollowStep(ghost g: Graph, ghost m: Model, lmc: Cache?, h: Hash, data: seq<Byte>, instart: nat, inend: nat,
                    pos: nat, k: nat, items: Store)
    returns (store: Store)
    requires Pricing(g, data, instart, inend, m) && instart <= pos < inend <= |data| && g.edge(pos - instart, k)
    requires HashAt(h, data, instart, inend, pos) && BlockCache(lmc, data, instart, inend)
    requires Disjoint(h, lmc, null) && Replays(data[..instart], items, data[..pos])
    modifies HashRepr(h), CacheRepr(lmc)
    ensures BlockCache(lmc, data, instart, inend)
    ensures pos + k <= inend && HashAt(h, data, instart, inend, pos + k)
    ensures Replays(data[..instart], store, data[..pos + k])
    ensures store == items + [g.item(pos - instart, k)]
  {
    hide Pricing, HashAt, BlockCache, Search, Answers, Edge, StepItem, Replays;
    ghost var c := BlockCtx(data, instart, inend);
    StepIn(g, data, instart, inend, m, pos - instart, k);
    assert instart + (pos - instart) == pos;
    EdgeShape(c, pos, k);
    Advance(h, data, instart, inend, pos, pos + 1);
    if k >= 3 {
      var dist, leng := LimitedMatch(lmc, h, data, instart, inend, pos, k);
      StepFound(data, instart, inend, pos, k, leng, dist);
      ReplaysMatch(data, instart, items, pos, dist, k);
      store := items + [Item(k, dist)];
    } else {
      ReplaysLiteral(data, instart, items, pos);
      store := items + [Item(data[pos], 0)];
    }
    Advance(h, data, instart, inend, pos + 1, pos + k);
  }

  /** Where the first i steps of a path lead. */
  function Total(path: seq<nat>, i: nat): nat
    requires i <= |path|
  {
    if i == 0 then 0 else Total(path, i - 1) + path[i - 1]
  }

  lemma {:induction false} TotalInit(path: seq<nat>, i: nat)
    requires path != [] && i < |path|
    ensures Total(path[..|path| - 1], i) == Total(path, i)
  {
    if i > 0 {
      TotalInit(path, i - 1);
    }
  }

  /** A path, cut after any step, is a path to where the next step starts. */
  lemma {:induction false} PathPrefix(g: Graph, path: seq<nat>, t: nat, i: nat)
    requires Path(g, path, t) && i <= |path|
    ensures Path(g, path[..i], Total(path, i))
    ensures i == |path| ==> Total(path, i) == t
    ensures i < |path| ==> g.edge(Total(path, i), path[i])
    decreases |path|
  {
    if path == [] {
    } else {
      var n := |path| - 1;
      var init, k := path[..n], path[n];
      PathPrefix(g, init, t - k, if i < n then i else n);
      TotalInit(path, if i < n then i else n);
      if i < n {
        assert init[..i] == path[..i];
      } else {
        assert init[..n] == init;
        assert path[..|path|] == path;
      }
    }
  }

  /** The first i steps have been turned into items, which replay up to pos. */
  ghost predicate Followed(g: Graph, data: seq<Byte>, instart: nat, path: seq<nat>, i: nat, pos: nat, store: Store) {
    && i <= |path| && instart <= pos <= |data| && pos == instart + Total(path, i)
    && Replays(data[..instart], store, data[..pos])
    && Path(g, path[..i], pos - instart) && store == PathItems(g, path[..i], pos - instart)
  }

  lemma {:induction false} NextStep(g: Graph, data: seq<Byte>, instart: nat, path: seq<nat>, t: nat, i: nat, pos: nat,
                                    store: Store)
    requires ValidGraph(g) && Path(g, path, t) && i < |path| && Followed(g, data, instart, path, i, pos, store)
    ensures g.edge(pos - instart, path[i]) && pos - instart + path[i] <= g.size && path[i] > 0
    ensures Replays(data[..instart], store, data[..pos])
    ensures pos + path[i] <= |data| ==>
              var next := store + [g.item(pos - instart, path[i])];
              Replays(data[..instart], next, data[..pos + path[i]]) ==>
                Followed(g, data, instart, path, i + 1, pos + path[i], next)
  {
    hide Replays, Path, PathCost, PathItems, Times;
    PathPrefix(g, path, t, i);
    PathPrefix(g, path, t, i + 1);
    PathAppend(g, path[..i], pos - instart, path[i]);
    assert path[..i + 1] == path[..i] + [path[i]];
  }

  /** Turns a path into items. */
  method FollowPath(ghost g: Graph, ghost m: Model, lmc: Cache?, data: seq<Byte>, instart: nat, inend: nat,
                    path: seq<nat>)
    returns (store: Store)
    requires Pricing(g, data, instart, inend, m) && instart <= inend <= |data| && Path(g, path, inend - instart)
    requires BlockCache(lmc, data, instart, inend)
    modifies CacheRepr(lmc)
    ensures BlockCache(lmc, data, instart, inend)
    ensures Replays(data[..instart], store, data[..inend])
    ensures store == PathItems(g, path, inend - instart)
  {
    hide Pricing, ValidGraph, HashAt, BlockCache, Replays, Path, PathItems, Followed;
    PricingSize(g, data, instart, inend, m);
    FollowStart(g, data, instart, path, inend - instart);
    store := [];
    if instart == inend {
      FollowEnd(g, data, instart, inend, path, instart, store);
      return;
    }
    var h := StartHash(data, instart, inend);
    var pos := instart;
    for i := 0 to |path|
      invariant instart <= pos && HashAt(h, data, instart, inend, pos) && BlockCache(lmc, data, instart, inend)
      invariant fresh(HashRepr(h)) && Followed(g, data, instart, path, i, pos, store)
    {
      NextStep(g, data, instart, path, inend - instart, i, pos, store);
      store := FollowStep(g, m, lmc, h, data, instart, inend, pos, path[i], store);
      pos := pos + path[i];
    }
    FollowEnd(g, data, instart, inend, path, pos, store);
  }

  lemma {:induction false} NothingReplayed(a: seq<Byte>)
    ensures Replays(a, [], a)
  {
  }

  lemma {:induction false} FollowStart(g: Graph, data: seq<Byte>, instart: nat, path: seq<nat>, t: nat)
    requires ValidGraph(g) && instart <= |data| && Path(g, path, t)
    ensures Followed(g, data, instart, path, 0, instart, [])
    ensures t == 0 ==> path == []
  {
    hide Replays, Times;
    NothingReplayed(data[..instart]);
    assert path[..0] == [];
  }

  lemma {:induction false} FollowEnd(g: Graph, data: seq<Byte>, instart: nat, inend: nat, path: seq<nat>, pos: nat,
                                     store: Store)
    requires instart <= inend <= |data| && Path(g, path, inend - instart)
    requires Followed(g, data, instart, path, |path|, pos, store)
    ensures Replays(data[..instart], store, data[..inend])
    ensures store == PathItems(g, path, inend - instart)
  {
    hide Replays;
    PathPrefix(g, path, inend - instart, |path|);
    assert path[..|path|] == path;
  }
}
