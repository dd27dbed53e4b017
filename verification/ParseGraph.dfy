/**
 The parses of a block as ways through its bytes: from byte to byte by literals and by
 matches of every length up to the longest found, at the distance the full search
 recorded for that length.
 */
module ParseGraph {
  import opened Symbols
  import opened Lz77Store
  import opened MatchSpec
  import opened CostModel
  import opened ShortestPath

  /** A step of k bytes is possible at pos. */
  ghost predicate Edge(c: Ctx, pos: nat, k: nat)
    requires ValidCtx(c)
  {
    && c.start <= pos < c.end
    && (k == 1 || (3 <= k <= Search(c, pos, 258).length && k <= |Search(c, pos, 258).sub| + 1))
  }

  /** The item a step stands for: a literal, or the match the full search recorded. */
  ghost function StepItem(c: Ctx, pos: nat, k: nat): Item {
    if k == 1 && pos < |c.data| then Item(c.data[pos], 0) else Item(k, RecordedDist(c, pos, k))
  }

  /** The distance the full search recorded for a length, 0 for none. */
  ghost function RecordedDist(c: Ctx, pos: nat, k: nat): nat {
    if ValidCtx(c) && c.start <= pos < c.end && SubAt(Search(c, pos, 258), k) then Search(c, pos, 258).sub[k - 2] else 0
  }

  function ItemCost(m: Model, it: Item): real {
    Cost(m, it.litlen, it.dist)
  }

  lemma {:induction false} EdgeShape(c: Ctx, pos: nat, k: nat)
    requires ValidCtx(c) && Edge(c, pos, k)
    ensures c.start <= pos < c.end && pos + k <= c.end
    ensures k == 1 || 3 <= k <= 258
    ensures k == 1 ==> StepItem(c, pos, k) == Item(c.data[pos], 0)
    ensures k >= 3 ==> StepItem(c, pos, k).litlen == k && 1 <= StepItem(c, pos, k).dist <= 32768
  {
    hide Search;
    SearchSound(c, pos, 258);
    if k >= 3 {
      assert SubAt(Search(c, pos, 258), k);
    }
  }

  /** A mark that brings in what a graph says about one step. */
  predicate Asked(j: nat, k: nat) {
    true
  }

  /** The graph has the right step of k bytes at byte j. */
  ghost predicate StepFacts(g: Graph, c: Ctx, instart: nat, m: Model, j: nat, k: nat)
    requires ValidCtx(c)
  {
    && (g.edge(j, k) <==> Edge(c, instart + j, k))
    && g.item(j, k) == StepItem(c, instart + j, k)
    && g.cost(j, k) == ItemCost(m, g.item(j, k))
  }

  /** The graph of a block's parses, priced by a model. */
  ghost predicate GraphOf(g: Graph, c: Ctx, instart: nat, m: Model) {
    && ValidCtx(c) && c.start <= instart <= c.end && g.size == c.end - instart
    && forall j: nat, k: nat {:trigger Asked(j, k)} | Asked(j, k) :: StepFacts(g, c, instart, m, j, k)
  }

  lemma {:induction false} StepAt(g: Graph, c: Ctx, instart: nat, m: Model, j: nat, k: nat)
    requires GraphOf(g, c, instart, m)
    ensures ValidCtx(c) && StepFacts(g, c, instart, m, j, k)
  {
    hide Edge, StepItem, StepFacts;
    assert Asked(j, k);
  }

  ghost function Parses(c: Ctx, instart: nat, m: Model, bound: real): Graph
    requires ValidCtx(c) && c.start <= instart <= c.end
  {
    Graph(c.end - instart,
          (j: nat, k: nat) => Edge(c, instart + j, k),
          (j: nat, k: nat) => StepItem(c, instart + j, k),
          (j: nat, k: nat) => ItemCost(m, StepItem(c, instart + j, k)),
          bound)
  }

  lemma {:induction false} ParsesIsGraph(c: Ctx, instart: nat, m: Model, bound: real)
    requires ValidCtx(c) && c.start <= instart <= c.end
    ensures GraphOf(Parses(c, instart, m, bound), c, instart, m)
  {
    hide Edge, StepItem, ItemCost;
  }

  lemma {:induction false} PriceBounds(m: Model, bound: real, it: Item)
    requires Priced(m, bound)
    ensures 0.0 <= ItemCost(m, it) <= bound
  {
    if it.dist > 0 {
      var s := DistSymbol(it.dist);
      assert 0.0 <= m.length(it.litlen) && 0.0 <= m.distance(s) && m.length(it.litlen) + m.distance(s) <= bound;
    } else {
      assert 0.0 <= m.literal(it.litlen) <= bound;
    }
  }

  /** With bounded prices the graph has the form the forward pass needs. */
  lemma {:induction false} ParsesValid(g: Graph, c: Ctx, instart: nat, m: Model)
    requires GraphOf(g, c, instart, m) && Priced(m, g.bound)
    requires 0.0 <= g.bound < LARGE && Times(g.size, g.bound) < LARGE
    ensures ValidGraph(g)
  {
    hide Edge, StepItem, ItemCost, Priced, Times, GraphOf;
    SizeOf(g, c, instart, m);
    forall j: nat, k: nat {:trigger g.edge(j, k)} | g.edge(j, k)
      ensures 1 <= k <= 258 && k != 2 && j + k <= g.size && 0.0 <= g.cost(j, k) <= g.bound
    {
      StepAt(g, c, instart, m, j, k);
      EdgeShape(c, instart + j, k);
      PriceBounds(m, g.bound, g.item(j, k));
    }
    forall j: nat {:trigger g.edge(j, 1)} | j < g.size
      ensures g.edge(j, 1)
    {
      StepAt(g, c, instart, m, j, 1);
      LiteralEdge(c, instart + j);
    }
  }

  lemma {:induction false} SizeOf(g: Graph, c: Ctx, instart: nat, m: Model)
    requires GraphOf(g, c, instart, m)
    ensures ValidCtx(c) && c.start <= instart <= c.end && g.size == c.end - instart
  {
    hide Edge, StepItem, ItemCost;
  }

  lemma {:induction false} LiteralEdge(c: Ctx, pos: nat)
    requires ValidCtx(c) && c.start <= pos < c.end
    ensures Edge(c, pos, 1)
  {
    hide Search;
  }

  /** The price of items. */
  ghost function ItemsCost(m: Model, items: Store): real {
    if items == [] then 0.0 else ItemsCost(m, items[..|items| - 1]) + ItemCost(m, items[|items| - 1])
  }

  /** The price of a way is the price of its items. */
  lemma {:induction false} PathItemsCost(g: Graph, c: Ctx, instart: nat, m: Model, path: seq<nat>, t: nat)
    requires GraphOf(g, c, instart, m) && Path(g, path, t)
    ensures ItemsCost(m, PathItems(g, path, t)) == PathCost(g, path, t)
    decreases |path|
  {
    hide GraphOf, ItemCost, Edge, StepItem;
    if path != [] {
      var k := path[|path| - 1];
      PathItemsCost(g, c, instart, m, path[..|path| - 1], t - k);
      StepAt(g, c, instart, m, t - k, k);
      var init := PathItems(g, path[..|path| - 1], t - k);
      assert (init + [g.item(t - k, k)])[..|init|] == init;
    }
  }

  /** The items of a way are valid. */
  lemma {:induction false} PathItemsValid(g: Graph, c: Ctx, instart: nat, m: Model, path: seq<nat>, t: nat)
    requires GraphOf(g, c, instart, m) && Path(g, path, t)
    ensures ValidStore(PathItems(g, path, t))
    decreases |path|
  {
    hide GraphOf, Edge, StepItem;
    if path != [] {
      var k := path[|path| - 1];
      PathItemsValid(g, c, instart, m, path[..|path| - 1], t - k);
      StepAt(g, c, instart, m, t - k, k);
      EdgeShape(c, instart + (t - k), k);
      LiteralSmall(c, instart + (t - k));
    }
  }

  lemma {:induction false} LiteralSmall(c: Ctx, pos: nat)
    requires pos < |c.data|
    ensures c.data[pos] < 256
  {
  }
}
