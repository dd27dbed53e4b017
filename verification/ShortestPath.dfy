/**
 Cheapest ways through a line of bytes: from byte to byte by steps that are possible or
 not and have a price. A forward pass keeps, per byte, the best cost so far and the last
 step that gave it.
 */
module ShortestPath {
  import opened Lz77Store
  import opened CostModel

  // ----- Ways ---------------------------------------------------------------------------

  /** Which steps of k bytes are possible at byte j, the items they stand for, and what
      they cost, at most `bound`. */
  datatype Graph = Graph(
    size: nat, edge: (nat, nat) -> bool, item: (nat, nat) -> Item, cost: (nat, nat) -> real, bound: real)

  function Times(n: nat, x: real): real {
    n as real * x
  }

  /** Steps have 1 or 3 to 258 bytes, a step of one byte is always possible, and every sum
      of prices stays below the code's infinity. */
  ghost predicate ValidGraph(g: Graph) {
    && 0.0 <= g.bound < LARGE && Times(g.size, g.bound) < LARGE
    && (forall j: nat, k: nat {:trigger g.edge(j, k)} ::
          g.edge(j, k) ==> 1 <= k <= 258 && k != 2 && j + k <= g.size && 0.0 <= g.cost(j, k) <= g.bound)
    && (forall j: nat {:trigger g.edge(j, 1)} | j < g.size :: g.edge(j, 1))
  }

  /** The steps lead from the start to byte t. */
  ghost predicate Path(g: Graph, path: seq<nat>, t: nat)
    decreases |path|
  {
    if path == [] then t == 0
    else
      var k := path[|path| - 1];
      k <= t && g.edge(t - k, k) && Path(g, path[..|path| - 1], t - k)
  }

  ghost function PathCost(g: Graph, path: seq<nat>, t: nat): real
    requires Path(g, path, t)
    decreases |path|
  {
    if path == [] then 0.0
    else
      var k := path[|path| - 1];
      PathCost(g, path[..|path| - 1], t - k) + g.cost(t - k, k)
  }

  /** The items of a way. */
  ghost function PathItems(g: Graph, path: seq<nat>, t: nat): Store
    requires Path(g, path, t)
    decreases |path|
  {
    if path == [] then []
    else
      var k := path[|path| - 1];
      PathItems(g, path[..|path| - 1], t - k) + [g.item(t - k, k)]
  }

  lemma {:induction false} PathAppend(g: Graph, path: seq<nat>, t: nat, k: nat)
    requires Path(g, path, t) && g.edge(t, k)
    ensures Path(g, path + [k], t + k)
    ensures PathCost(g, path + [k], t + k) == PathCost(g, path, t) + g.cost(t, k)
    ensures PathItems(g, path + [k], t + k) == PathItems(g, path, t) + [g.item(t, k)]
  {
    assert (path + [k])[..|path|] == path;
    assert t + k - k == t;
  }

  // ----- The tables of the forward pass ------------------------------------------------

  lemma {:induction false} TimesStep(n: nat, k: nat, x: real)
    requires x >= 0.0 && k >= 1
    ensures Times(n, x) + x <= Times(n + k, x)
  {
    assert (n + k) as real * x == n as real * x + k as real * x;
    AtLeastOnce(k as real, x);
  }

  lemma {:induction false} AtLeastOnce(k: real, x: real)
    requires k >= 1.0 && x >= 0.0
    ensures k * x >= x
  {
  }

  lemma {:induction false} TimesMonotone(n: nat, k: nat, x: real)
    requires x >= 0.0 && n <= k
    ensures Times(n, x) <= Times(k, x)
  {
    hide Times;
    if n < k {
      TimesStep(n, k - n, x);
    }
  }

  /** Byte t, if reached, was reached by a step from a byte reached before, which had
      been dealt with (at most j), and its cost is the cost of that way. */
  ghost predicate NodeOk(g: Graph, j: nat, costs: seq<real>, lens: seq<nat>, t: nat)
    requires |costs| == |lens| == g.size + 1 && t <= g.size
  {
    costs[t] < LARGE ==>
      && costs[t] <= Times(t, g.bound) && costs[t] >= 0.0
      && (t > 0 ==>
            && 1 <= lens[t] <= t && t - lens[t] <= j && costs[t - lens[t]] < LARGE
            && g.edge(t - lens[t], lens[t])
            && costs[t] == costs[t - lens[t]] + g.cost(t - lens[t], lens[t]))
  }

  ghost predicate Tables(g: Graph, j: nat, costs: seq<real>, lens: seq<nat>) {
    && |costs| == |lens| == g.size + 1 && costs[0] == 0.0
    && forall t | 0 <= t <= g.size :: NodeOk(g, j, costs, lens, t)
  }

  /** Byte r + k costs at most what it costs to go there from byte r. */
  ghost predicate Relaxed(g: Graph, costs: seq<real>, r: nat, k: nat)
    requires |costs| == g.size + 1 && r <= g.size
  {
    g.edge(r, k) ==> r + k <= g.size && costs[r + k] <= costs[r] + g.cost(r, k)
  }

  ghost predicate RelaxedFrom(g: Graph, costs: seq<real>, r: nat)
    requires |costs| == g.size + 1 && r <= g.size
  {
    forall k: nat :: Relaxed(g, costs, r, k)
  }

  /** All bytes before j have been relaxed. */
  ghost predicate RelaxedBefore(g: Graph, costs: seq<real>, j: nat)
    requires |costs| == g.size + 1 && j <= g.size + 1
  {
    forall r | 0 <= r < j :: RelaxedFrom(g, costs, r)
  }

  /** The bytes one step after byte r are reached. */
  ghost predicate Reached(g: Graph, costs: seq<real>, r: nat, k: nat)
    requires |costs| == g.size + 1 && r <= g.size
  {
    g.edge(r, k) ==> r + k <= g.size && costs[r + k] < LARGE
  }

  ghost predicate ReachedBefore(g: Graph, costs: seq<real>, j: nat)
    requires |costs| == g.size + 1 && j <= g.size + 1
  {
    forall r, k: nat | 0 <= r < j :: Reached(g, costs, r, k)
  }

  lemma {:induction false} TablesSize(g: Graph, j: nat, costs: seq<real>, lens: seq<nat>)
    requires Tables(g, j, costs, lens)
    ensures |costs| == |lens| == g.size + 1
  {
  }

  /** Setting byte j + k from byte j keeps the tables. */
  lemma {:induction false} SetNode(g: Graph, j: nat, k: nat, costs: seq<real>, lens: seq<nat>, v: real)
    requires ValidGraph(g) && Tables(g, j, costs, lens) && j < g.size && costs[j] < LARGE
    requires g.edge(j, k) && v == costs[j] + g.cost(j, k)
    ensures j + k <= g.size && Tables(g, j, costs[j + k := v], lens[j + k := k])
    ensures v < LARGE
  {
    hide Times;
    var t := j + k;
    var costs', lens' := costs[t := v], lens[t := k];
    assert NodeOk(g, j, costs, lens, j);
    TimesStep(j, k, g.bound);
    TimesMonotone(t, g.size, g.bound);
    forall u | 0 <= u <= g.size
      ensures NodeOk(g, j, costs', lens', u)
    {
      assert NodeOk(g, j, costs, lens, u);
      if u == t {
        assert t - k == j;
      }
    }
  }

  lemma {:induction false} TablesLater(g: Graph, j: nat, j': nat, costs: seq<real>, lens: seq<nat>)
    requires Tables(g, j, costs, lens) && j <= j'
    ensures Tables(g, j', costs, lens)
  {
    hide Times;
    forall t | 0 <= t <= g.size
      ensures NodeOk(g, j', costs, lens, t)
    {
      assert NodeOk(g, j, costs, lens, t);
    }
  }

  /** A cheaper byte ahead leaves the earlier bytes relaxed. */
  lemma {:induction false} LowerKeepsRelaxed(g: Graph, costs: seq<real>, j: nat, t: nat, v: real)
    requires |costs| == g.size + 1 && j <= t <= g.size && v <= costs[t]
    requires RelaxedBefore(g, costs, j)
    ensures RelaxedBefore(g, costs[t := v], j)
  {
    var costs' := costs[t := v];
    forall r | 0 <= r < j
      ensures RelaxedFrom(g, costs', r)
    {
      assert RelaxedFrom(g, costs, r);
      forall k: nat
        ensures Relaxed(g, costs', r, k)
      {
        assert Relaxed(g, costs, r, k);
      }
    }
  }

  /** A cost below infinity keeps everything reached that was. */
  lemma {:induction false} SetKeepsReached(g: Graph, costs: seq<real>, j: nat, t: nat, v: real)
    requires |costs| == g.size + 1 && j <= g.size && t <= g.size && v < LARGE
    requires ReachedBefore(g, costs, j)
    ensures ReachedBefore(g, costs[t := v], j)
  {
    var costs' := costs[t := v];
    forall r, k: nat | 0 <= r < j
      ensures Reached(g, costs', r, k)
    {
      assert Reached(g, costs, r, k);
    }
  }

  // ----- Dealing with one byte ---------------------------------------------------------------

  /** Byte j is being dealt with: its steps of fewer than k bytes have been. With `best`,
      every step before byte j has been too. */
  ghost predicate Dealing(g: Graph, best: bool, j: nat, k: nat, costs: seq<real>, lens: seq<nat>) {
    && j <= g.size && Tables(g, j, costs, lens) && costs[j] < LARGE
    && ReachedBefore(g, costs, j) && (best ==> RelaxedBefore(g, costs, j))
    && forall x: nat | x < k :: Relaxed(g, costs, j, x)
  }

  lemma {:induction false} StepSet(g: Graph, best: bool, j: nat, k: nat, costs: seq<real>, lens: seq<nat>, v: real)
    requires ValidGraph(g) && Dealing(g, best, j, k, costs, lens) && j < g.size
    requires g.edge(j, k) && j + k <= g.size
    requires v == costs[j] + g.cost(j, k) && v < costs[j + k]
    ensures Dealing(g, best, j, k + 1, costs[j + k := v], lens[j + k := k])
  {
    hide Tables, ReachedBefore, RelaxedBefore, Times;
    TablesSize(g, j, costs, lens);
    SetNode(g, j, k, costs, lens, v);
    SetKeepsReached(g, costs, j, j + k, v);
    if best {
      LowerKeepsRelaxed(g, costs, j, j + k, v);
    }
    var costs' := costs[j + k := v];
    forall x: nat | x < k + 1
      ensures Relaxed(g, costs', j, x)
    {
      if x < k {
        assert Relaxed(g, costs, j, x);
      }
    }
  }

  lemma {:induction false} StepSkip(g: Graph, best: bool, j: nat, k: nat, costs: seq<real>, lens: seq<nat>)
    requires Dealing(g, best, j, k, costs, lens) && |costs| == g.size + 1 && Relaxed(g, costs, j, k)
    ensures Dealing(g, best, j, k + 1, costs, lens)
  {
    hide Tables, ReachedBefore, RelaxedBefore, Relaxed;
  }

  /** After the longest possible step the next byte is up. */
  lemma {:induction false} NextByte(g: Graph, best: bool, j: nat, costs: seq<real>, lens: seq<nat>)
    requires ValidGraph(g) && j < g.size && Dealing(g, best, j, 259, costs, lens)
    ensures Dealing(g, best, j + 1, 0, costs, lens)
  {
    hide Tables, Times;
    TablesSize(g, j, costs, lens);
    TablesLater(g, j, j + 1, costs, lens);
    forall k: nat
      ensures Relaxed(g, costs, j, k) && Reached(g, costs, j, k)
    {
      assert k < 259 ==> Relaxed(g, costs, j, k);
      RelaxedReaches(g, j, costs, lens, k);
    }
    assert g.edge(j, 1);
    assert Reached(g, costs, j, 1);
    assert RelaxedFrom(g, costs, j);
  }

  lemma {:induction false} RelaxedReaches(g: Graph, j: nat, costs: seq<real>, lens: seq<nat>, k: nat)
    requires ValidGraph(g) && j < g.size && Tables(g, j, costs, lens) && costs[j] < LARGE
    requires k < 259 ==> Relaxed(g, costs, j, k)
    ensures Relaxed(g, costs, j, k) && Reached(g, costs, j, k)
  {
    hide Times;
    if g.edge(j, k) {
      assert NodeOk(g, j, costs, lens, j);
      TimesStep(j, k, g.bound);
      TimesMonotone(j + k, g.size, g.bound);
    }
  }

  /** Before the first step only the start is reached. */
  lemma {:induction false} StartPass(g: Graph, best: bool, costs: seq<real>, lens: seq<nat>)
    requires ValidGraph(g) && |costs| == |lens| == g.size + 1 && costs[0] == 0.0
    requires forall t | 1 <= t <= g.size :: costs[t] == LARGE
    ensures Dealing(g, best, 0, 0, costs, lens)
  {
    hide Times;
    NothingCosts(g.bound);
    forall t | 0 <= t <= g.size
      ensures NodeOk(g, 0, costs, lens, t)
    {
    }
  }

  lemma {:induction false} NothingCosts(x: real)
    ensures Times(0, x) == 0.0
  {
  }

  // ----- The tables give a best way ----------------------------------------------------------

  /** The steps that lead to byte t. */
  function Trace(lens: seq<nat>, t: nat): seq<nat>
    requires t < |lens|
    decreases t
  {
    if t == 0 || lens[t] == 0 || lens[t] > t then [] else Trace(lens, t - lens[t]) + [lens[t]]
  }

  /** The steps recorded lead back from byte t to the start. */
  ghost predicate Leads(lens: seq<nat>, t: nat)
    requires t < |lens|
    decreases t
  {
    t == 0 || (1 <= lens[t] <= t && Leads(lens, t - lens[t]))
  }

  /** Tracing back from a reached byte gives a way to it, whose cost is the byte's. */
  lemma {:induction false} TraceIsPath(g: Graph, j: nat, costs: seq<real>, lens: seq<nat>, t: nat)
    requires Tables(g, j, costs, lens) && t <= g.size && costs[t] < LARGE
    ensures Leads(lens, t) && Path(g, Trace(lens, t), t) && PathCost(g, Trace(lens, t), t) == costs[t]
    decreases t
  {
    hide Path, PathCost, Times;
    assert NodeOk(g, j, costs, lens, t);
    if t == 0 {
      EmptyPath(g);
    } else {
      var k := lens[t];
      TraceIsPath(g, j, costs, lens, t - k);
      PathAppend(g, Trace(lens, t - k), t - k, k);
    }
  }

  lemma {:induction false} EmptyPath(g: Graph)
    ensures Path(g, [], 0) && PathCost(g, [], 0) == 0.0
  {
  }

  /** No way is cheaper than what fully relaxed tables say. */
  lemma {:induction false} NoCheaperPath(g: Graph, costs: seq<real>, path: seq<nat>, t: nat)
    requires ValidGraph(g) && |costs| == g.size + 1 && costs[0] == 0.0 && t <= g.size
    requires RelaxedBefore(g, costs, g.size) && Path(g, path, t)
    ensures costs[t] <= PathCost(g, path, t)
    decreases |path|
  {
    hide Times;
    if path != [] {
      var k := path[|path| - 1];
      var r := t - k;
      assert g.edge(r, k);
      NoCheaperPath(g, costs, path[..|path| - 1], r);
      assert RelaxedFrom(g, costs, r);
      assert Relaxed(g, costs, r, k);
    }
  }

  /** What a pass leaves behind: the steps recorded lead to the end at the cost returned
      and, with `best`, no other way is cheaper. */
  ghost predicate BestWay(g: Graph, best: bool, cost: real, lens: seq<nat>) {
    && |lens| == g.size + 1 && cost < LARGE && Leads(lens, g.size)
    && Path(g, Trace(lens, g.size), g.size) && PathCost(g, Trace(lens, g.size), g.size) == cost
    && (best ==> forall path | Path(g, path, g.size) :: cost <= PathCost(g, path, g.size))
  }

  lemma {:induction false} EndPass(g: Graph, best: bool, costs: seq<real>, lens: seq<nat>)
    requires ValidGraph(g) && Dealing(g, best, g.size, 0, costs, lens)
    ensures |costs| == g.size + 1 && BestWay(g, best, costs[g.size], lens)
  {
    hide Path, PathCost, Trace, Times, NodeOk;
    var n := g.size;
    TraceIsPath(g, n, costs, lens, n);
    forall path | best && Path(g, path, n)
      ensures costs[n] <= PathCost(g, path, n)
    {
      NoCheaperPath(g, costs, path, n);
    }
  }
}
