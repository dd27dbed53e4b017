/**
 Boundary package-merge as the encoder runs it: chain nodes live in a fixed pool
 that is garbage collected when it runs out, lists hold node addresses, and steps
 update both in place. Each operation is proved against module BoundaryStep; the
 entry point is proved against plain package-merge.
 */
module Katajainen {
  import opened Arith
  import opened PackageMerge
  import opened BoundaryStep
  import opened CodeLengths

  datatype Ptr = Null | At(i: nat)

  datatype PoolNode = PoolNode(weight: nat, count: nat, tail: Ptr, inuse: bool)

  // ----- Chains stored in a pool ---------------------------------------------------

  /** Address p holds the chain ch. */
  ghost predicate Rep(nodes: seq<PoolNode>, p: Ptr, ch: Chain)
    decreases ch
  {
    match ch
    case End => p.Null?
    case Link(w, c, t) =>
      && p.At? && p.i < |nodes|
      && nodes[p.i].weight == w && nodes[p.i].count == c
      && Rep(nodes, nodes[p.i].tail, t)
  }

  /** The nodes a chain occupies. */
  ghost function Reach(nodes: seq<PoolNode>, p: Ptr, ch: Chain): (r: set<nat>)
    requires Rep(nodes, p, ch)
    ensures |r| <= Depth(ch)
    ensures forall i | i in r :: i < |nodes|
    decreases ch
  {
    match ch
    case End => {}
    case Link(_, _, t) => {p.i} + Reach(nodes, nodes[p.i].tail, t)
  }

  predicate SameNode(a: PoolNode, b: PoolNode) {
    a.weight == b.weight && a.count == b.count && a.tail == b.tail
  }

  lemma {:induction false} RepFrame(nodes: seq<PoolNode>, nodes': seq<PoolNode>, p: Ptr, ch: Chain)
    requires Rep(nodes, p, ch) && |nodes'| == |nodes|
    requires forall r | r in Reach(nodes, p, ch) :: SameNode(nodes[r], nodes'[r])
    ensures Rep(nodes', p, ch) && Reach(nodes', p, ch) == Reach(nodes, p, ch)
    decreases ch
  {
    match ch
    case End =>
    case Link(_, _, t) =>
      assert p.i in Reach(nodes, p, ch);
      RepFrame(nodes, nodes', nodes[p.i].tail, t);
  }

  /** A chain the pool will not hand out: each of its nodes lies before `next` or is
      marked in use. */
  ghost predicate HeldBy(nodes: seq<PoolNode>, next: nat, p: Ptr, ch: Chain) {
    Rep(nodes, p, ch) && forall r | r in Reach(nodes, p, ch) :: r < next || nodes[r].inuse
  }

  function PtrOf(lists: seq<(nat, nat)>, t: nat): Ptr
    requires t < 2 * |lists|
  {
    At(if t % 2 == 0 then lists[t / 2].0 else lists[t / 2].1)
  }

  function ChainOf(chains: Lists, t: nat): Node
    requires t < 2 * |chains|
  {
    if t % 2 == 0 then chains[t / 2].0 else chains[t / 2].1
  }

  ghost predicate HeldLists(nodes: seq<PoolNode>, next: nat, lists: seq<(nat, nat)>, chains: Lists) {
    |lists| == |chains| &&
    forall t | 0 <= t < 2 * |lists| :: HeldBy(nodes, next, PtrOf(lists, t), ChainOf(chains, t))
  }

  lemma {:induction false} HeldList(nodes: seq<PoolNode>, next: nat, lists: seq<(nat, nat)>, chains: Lists, j: nat)
    requires HeldLists(nodes, next, lists, chains) && j < |lists|
    ensures HeldBy(nodes, next, At(lists[j].0), chains[j].0)
    ensures HeldBy(nodes, next, At(lists[j].1), chains[j].1)
  {
    assert PtrOf(lists, 2 * j) == At(lists[j].0) && ChainOf(chains, 2 * j) == chains[j].0;
    assert PtrOf(lists, 2 * j + 1) == At(lists[j].1) && ChainOf(chains, 2 * j + 1) == chains[j].1;
  }

  /** Two pools with the same nodes, up to the garbage collector's marks. */
  ghost predicate SameNodes(a: seq<PoolNode>, b: seq<PoolNode>) {
    |a| == |b| && forall i | 0 <= i < |a| :: SameNode(a[i], b[i])
  }

  lemma {:induction false} HeldNext(nodes: seq<PoolNode>, nodes': seq<PoolNode>, n: nat, n': nat,
                                    lists: seq<(nat, nat)>, chains: Lists)
    requires HeldLists(nodes, n, lists, chains) && SameNodes(nodes, nodes')
    requires forall r | 0 <= r < |nodes| && (r < n || nodes[r].inuse) :: r < n' || nodes'[r].inuse
    ensures HeldLists(nodes', n', lists, chains)
  {
    forall t | 0 <= t < 2 * |lists|
      ensures HeldBy(nodes', n', PtrOf(lists, t), ChainOf(chains, t))
    {
      RepFrame(nodes, nodes', PtrOf(lists, t), ChainOf(chains, t));
    }
  }

  /** Marks only go up. */
  ghost predicate Marked(a: seq<PoolNode>, b: seq<PoolNode>) {
    SameNodes(a, b) && forall i | 0 <= i < |a| && a[i].inuse :: b[i].inuse
  }

  ghost predicate Covers(marks: set<nat>, nodes: seq<PoolNode>) {
    forall k | 0 <= k < |nodes| && nodes[k].inuse :: k in marks
  }

  /** Part of the way along a chain: the nodes seen are marked, the rest hangs off p. */
  ghost predicate Marking(nodes: seq<PoolNode>, start: Ptr, ch: Chain, p: Ptr, rest: Chain, seen: set<nat>) {
    && Rep(nodes, p, rest) && Rep(nodes, start, ch)
    && Reach(nodes, start, ch) == seen + Reach(nodes, p, rest)
    && (forall r | r in seen :: r < |nodes| && nodes[r].inuse)
    && |seen| + Depth(rest) <= Depth(ch)
  }

  lemma {:induction false} MarkStep(nodes: seq<PoolNode>, start: Ptr, ch: Chain, p: Ptr, rest: Chain, seen: set<nat>)
    requires Marking(nodes, start, ch, p, rest, seen) && p.At?
    ensures rest.Link? && p.i < |nodes|
    ensures var nodes' := nodes[p.i := nodes[p.i].(inuse := true)];
            Marking(nodes', start, ch, nodes[p.i].tail, rest.tail, seen + {p.i})
  {
    var nodes' := nodes[p.i := nodes[p.i].(inuse := true)];
    RepFrame(nodes, nodes', p, rest);
    RepFrame(nodes, nodes', start, ch);
  }

  lemma {:induction false} HeldAt(nodes: seq<PoolNode>, next: nat, lists: seq<(nat, nat)>, chains: Lists, t: nat)
    requires HeldLists(nodes, next, lists, chains) && t < 2 * |lists|
    ensures |lists| == |chains| && Rep(nodes, PtrOf(lists, t), ChainOf(chains, t))
  {
  }

  lemma {:induction false} AllHeld(nodes: seq<PoolNode>, lists: seq<(nat, nat)>, chains: Lists)
    requires |lists| == |chains|
    requires forall t | 0 <= t < 2 * |lists| :: HeldBy(nodes, 0, PtrOf(lists, t), ChainOf(chains, t))
    ensures HeldLists(nodes, 0, lists, chains)
  {
  }

  lemma {:induction false} HeldMarked(a: seq<PoolNode>, b: seq<PoolNode>, p: Ptr, ch: Chain)
    requires HeldBy(a, 0, p, ch) && Marked(a, b)
    ensures HeldBy(b, 0, p, ch)
  {
    RepFrame(a, b, p, ch);
  }

  lemma {:induction false} MarkBoundNone()
    ensures MarkBound(0) == 0
  {
  }

  lemma {:induction false} MarkBoundStep(chains: Lists, t: nat)
    requires t < 2 * |chains| && Shallow(chains)
    ensures MarkBound(t) + Depth(ChainOf(chains, t)) <= MarkBound(t + 1)
  {
  }

  /** An upper bound on the nodes reachable from the first t lookaheads. */
  function MarkBound(t: nat): nat {
    if t == 0 then 0 else MarkBound(t - 1) + (t - 1) / 2 + 1
  }

  lemma {:induction false} MarkBoundTotal(maxbits: nat)
    ensures MarkBound(2 * maxbits) == maxbits * (maxbits + 1)
  {
    if maxbits > 0 {
      MarkBoundTotal(maxbits - 1);
      assert MarkBound(2 * maxbits) == MarkBound(2 * maxbits - 1) + maxbits;
      assert MarkBound(2 * maxbits - 1) == MarkBound(2 * maxbits - 2) + maxbits;
      Square(maxbits);
    }
  }

  lemma {:induction false} Square(n: nat)
    requires n > 0
    ensures n * (n + 1) == (n - 1) * n + 2 * n
  {
  }

  lemma {:induction false} Interval(n: nat) returns (s: set<nat>)
    ensures |s| == n && forall i: nat :: i in s <==> i < n
  {
    if n == 0 {
      s := {};
    } else {
      var s' := Interval(n - 1);
      s := s' + {n - 1};
    }
  }

  /** A set smaller than the pool leaves some node out. */
  lemma {:induction false} Pigeonhole(marks: set<nat>, size: nat) returns (f: nat)
    requires |marks| < size
    ensures f < size && f !in marks
  {
    var all := Interval(size);
    if forall i | i in all :: i in marks {
      assert all <= marks;
      SubsetSize(all, marks);
      assert false;
    }
    f :| f in all && f !in marks;
  }

  lemma {:induction false} SubsetSize(a: set<nat>, b: set<nat>)
    requires a <= b
    ensures |a| <= |b|
  {
    if a != {} {
      var x :| x in a;
      SubsetSize(a - {x}, b - {x});
    }
  }

  // ----- The pool ----------------------------------------------------------------------

  class NodePool {
    const nodes: array<PoolNode>
    var next: nat

    constructor (size: nat)
      ensures fresh(nodes) && nodes.Length == size && next == 0
      ensures forall i | 0 <= i < size :: !nodes[i].inuse
    {
      nodes := new PoolNode[size](_ => PoolNode(0, 0, Null, false));
      next := 0;
    }

    /** Marks exactly the nodes of one chain. */
    method MarkChain(start: Ptr, ghost ch: Chain, ghost marks: set<nat>) returns (ghost marks': set<nat>)
      requires Rep(nodes[..], start, ch) && Covers(marks, nodes[..])
      modifies nodes
      ensures Marked(old(nodes[..]), nodes[..])
      ensures Covers(marks', nodes[..]) && |marks'| <= |marks| + Depth(ch)
      ensures HeldBy(nodes[..], 0, start, ch)
      ensures Rep(nodes[..], start, ch)
      ensures forall i | 0 <= i < nodes.Length ::
                nodes[i].inuse <==> old(nodes[i].inuse) || i in Reach(nodes[..], start, ch)
    {
      var p := start;
      ghost var rest := ch;
      ghost var seen: set<nat> := {};
      while p.At?
        invariant Marked(old(nodes[..]), nodes[..])
        invariant Marking(nodes[..], start, ch, p, rest, seen)
        invariant Covers(marks + seen, nodes[..])
        invariant forall i | 0 <= i < nodes.Length :: nodes[i].inuse <==> old(nodes[i].inuse) || i in seen
        decreases rest
      {
        ghost var before := nodes[..];
        nodes[p.i] := nodes[p.i].(inuse := true);
        assert nodes[..] == before[p.i := before[p.i].(inuse := true)];
        MarkStep(before, start, ch, p, rest, seen);
        seen := seen + {p.i};
        p := nodes[p.i].tail;
        rest := rest.tail;
      }
      marks' := marks + seen;
    }

    method ClearMarks()
      modifies nodes
      ensures SameNodes(old(nodes[..]), nodes[..])
      ensures forall k | 0 <= k < nodes.Length :: !nodes[k].inuse
    {
      for i := 0 to nodes.Length
        invariant SameNodes(old(nodes[..]), nodes[..])
        invariant forall k | 0 <= k < i :: !nodes[k].inuse
      {
        nodes[i] := nodes[i].(inuse := false);
      }
    }

    /** Garbage collection: afterwards exactly the reachable nodes are marked, so
        that some node of the pool is free. */
    method Collect(lists: seq<(nat, nat)>, ghost chains: Lists)
      requires next >= nodes.Length
      requires HeldLists(nodes[..], next, lists, chains) && Shallow(chains)
      requires MarkBound(2 * |lists|) < nodes.Length
      modifies nodes
      ensures SameNodes(old(nodes[..]), nodes[..])
      ensures HeldLists(nodes[..], 0, lists, chains)
      ensures exists f :: 0 <= f < nodes.Length && !nodes[f].inuse
    {
      hide Rep, HeldBy, HeldLists, Depth, MarkBound;
      ClearMarks();
      HeldNext(old(nodes[..]), nodes[..], next, next, lists, chains);
      ghost var marks: set<nat> := {};
      MarkBoundNone();
      for i := 0 to 2 * |lists|
        invariant SameNodes(old(nodes[..]), nodes[..])
        invariant HeldLists(nodes[..], next, lists, chains)
        invariant forall t | 0 <= t < i :: HeldBy(nodes[..], 0, PtrOf(lists, t), ChainOf(chains, t))
        invariant Covers(marks, nodes[..]) && |marks| <= MarkBound(i)
      {
        ghost var before := nodes[..];
        HeldAt(nodes[..], next, lists, chains, i);
        marks := MarkChain(PtrOf(lists, i), ChainOf(chains, i), marks);
        HeldNext(before, nodes[..], next, next, lists, chains);
        forall t | 0 <= t < i
          ensures HeldBy(nodes[..], 0, PtrOf(lists, t), ChainOf(chains, t))
        {
          HeldMarked(before, nodes[..], PtrOf(lists, t), ChainOf(chains, t));
        }
        MarkBoundStep(chains, i);
      }
      AllHeld(nodes[..], lists, chains);
      ghost var f := Pigeonhole(marks, nodes.Length);
      assert !nodes[f].inuse;
    }

    /** Returns a node no list can reach, collecting garbage if the end of the pool
        was reached; it always terminates because the lists reach at most half of it. */
    method GetFreeNode(lists: seq<(nat, nat)>, ghost chains: Lists) returns (f: nat)
      requires HeldLists(nodes[..], next, lists, chains) && Shallow(chains)
      requires MarkBound(2 * |lists|) < nodes.Length
      modifies this`next, nodes
      ensures f < nodes.Length && next == f + 1 && !nodes[f].inuse
      ensures SameNodes(old(nodes[..]), nodes[..])
      ensures HeldLists(nodes[..], f, lists, chains)
      ensures old(next) < nodes.Length && !old(nodes[next].inuse) ==>
                f == old(next) && nodes[..] == old(nodes[..])
    {
      hide Rep, HeldBy, HeldLists, Depth, MarkBound;
      ghost var collected := false;
      while true
        invariant SameNodes(old(nodes[..]), nodes[..])
        invariant HeldLists(nodes[..], next, lists, chains)
        invariant old(next) < nodes.Length && !old(nodes[next].inuse) ==>
                    next == old(next) && nodes[..] == old(nodes[..])
        invariant collected ==> exists k :: next <= k < nodes.Length && !nodes[k].inuse
        decreases !collected, nodes.Length - next
      {
        if next >= nodes.Length {
          Collect(lists, chains);
          next := 0;
          collected := true;
        }
        if !nodes[next].inuse {
          break;
        }
        HeldNext(nodes[..], nodes[..], next, next + 1, lists, chains);
        next := next + 1;
      }
      f := next;
      next := next + 1;
    }

    method InitNode(weight: nat, count: nat, tail: Ptr, node: nat)
      requires node < nodes.Length
      modifies nodes
      ensures nodes[..] == old(nodes[..])[node := PoolNode(weight, count, tail, true)]
    {
      nodes[node] := PoolNode(weight, count, tail, true);
    }
  }

  // ----- Steps over the pool --------------------------------------------------------------

  /** Writing a free node disturbs no held chain. */
  lemma {:induction false} HeldAfterWrite(nodes: seq<PoolNode>, f: nat, x: PoolNode, p: Ptr, ch: Chain)
    requires HeldBy(nodes, f, p, ch) && f < |nodes| && !nodes[f].inuse
    ensures HeldBy(nodes[f := x], f + 1, p, ch)
    ensures f !in Reach(nodes, p, ch)
  {
    RepFrame(nodes, nodes[f := x], p, ch);
  }

  lemma {:induction false} HeldTail(nodes: seq<PoolNode>, next: nat, p: Ptr, ch: Node)
    requires HeldBy(nodes, next, p, ch)
    ensures p.At? && p.i < |nodes| && HeldBy(nodes, next, nodes[p.i].tail, ch.tail)
  {
  }

  /** Appending a node to list `index` gives the lists of chains with one replaced. */
  lemma {:induction false} AppendChain(nodes: seq<PoolNode>, f: nat, lists: seq<(nat, nat)>, chains: Lists,
                                       index: nat, x: PoolNode, tail: Chain)
    requires HeldLists(nodes, f, lists, chains) && f < |nodes| && !nodes[f].inuse
    requires index < |lists| && HeldBy(nodes, f, x.tail, tail) && x.inuse
    ensures HeldLists(nodes[f := x], f + 1, lists[index := (lists[index].1, f)],
                      chains[index := (chains[index].1, Link(x.weight, x.count, tail))])
  {
    var nodes' := nodes[f := x];
    var lists' := lists[index := (lists[index].1, f)];
    var chains' := chains[index := (chains[index].1, Link(x.weight, x.count, tail))];
    HeldAfterWrite(nodes, f, x, x.tail, tail);
    forall t | 0 <= t < 2 * |lists'|
      ensures HeldBy(nodes', f + 1, PtrOf(lists', t), ChainOf(chains', t))
    {
      if t == 2 * index + 1 {
        assert Rep(nodes', At(f), chains'[index].1);
      } else {
        var u := if t == 2 * index then t + 1 else t;
        assert PtrOf(lists', t) == PtrOf(lists, u) && ChainOf(chains', t) == ChainOf(chains, u);
        HeldAfterWrite(nodes, f, x, PtrOf(lists, u), ChainOf(chains, u));
      }
    }
  }

  lemma {:induction false} NothingHeld(nodes: seq<PoolNode>, next: nat)
    ensures HeldLists(nodes, next, [], []) && Shallow([]) && MarkBound(0) == 0
  {
  }

  lemma {:induction false} PoolRoom(maxbits: nat)
    requires maxbits >= 1
    ensures 2 <= maxbits * (maxbits + 1) < 2 * maxbits * (maxbits + 1)
  {
    Square(maxbits);
  }

  lemma {:induction false} InitialHeld(nodes: seq<PoolNode>, next: nat, lists: seq<(nat, nat)>,
                                       leaves: seq<Leaf>, node0: nat, node1: nat)
    requires |leaves| >= 2 && node0 < |nodes| && node1 < |nodes|
    requires nodes[node0] == PoolNode(leaves[0].weight, 1, Null, true)
    requires nodes[node1] == PoolNode(leaves[1].weight, 2, Null, true)
    requires forall j | 0 <= j < |lists| :: lists[j] == (node0, node1)
    ensures HeldLists(nodes, next, lists, Initial(Weights(leaves), |lists|))
    ensures Shallow(Initial(Weights(leaves), |lists|))
  {
    hide HeldBy, Depth;
    OneLink(nodes, next, node0, leaves[0].weight, 1);
    OneLink(nodes, next, node1, leaves[1].weight, 2);
  }

  lemma {:induction false} OneLink(nodes: seq<PoolNode>, next: nat, n: nat, weight: nat, count: nat)
    requires n < |nodes| && nodes[n] == PoolNode(weight, count, Null, true)
    ensures HeldBy(nodes, next, At(n), Link(weight, count, End)) && Depth(Link(weight, count, End)) == 1
  {
    EndOfChain(nodes);
    var ch := Link(weight, count, End);
    assert Rep(nodes, At(n), ch);
    assert Reach(nodes, At(n), ch) == {n} + Reach(nodes, Null, End);
    assert Depth(End) == 0;
  }

  lemma {:induction false} EndOfChain(nodes: seq<PoolNode>)
    ensures Rep(nodes, Null, End) && Reach(nodes, Null, End) == {}
  {
  }

  class Merger {
    const leaves: seq<Leaf>
    const pool: NodePool
    const lists: array<(nat, nat)>
    ghost var chains: Lists

    ghost predicate Valid()
      reads this, pool, pool.nodes, lists
    {
      && |chains| == lists.Length && Shallow(chains)
      && HeldLists(pool.nodes[..], pool.next, lists[..], chains)
      && MarkBound(2 * lists.Length) < pool.nodes.Length
    }

    /** The pool of 2 * maxbits * (maxbits + 1) nodes and, in every list, the two
        lightest leaves as lookaheads. */
    constructor (leaves: seq<Leaf>, maxbits: nat)
      requires |leaves| >= 2 && maxbits >= 1
      ensures Valid() && lists.Length == maxbits && this.leaves == leaves
      ensures fresh(pool) && fresh(pool.nodes) && fresh(lists)
      ensures chains == Initial(Weights(leaves), maxbits)
    {
      this.leaves := leaves;
      MarkBoundTotal(maxbits);
      PoolRoom(maxbits);
      var p := new NodePool(2 * maxbits * (maxbits + 1));
      pool := p;
      NothingHeld(p.nodes[..], p.next);
      var node0 := p.GetFreeNode([], []);
      p.InitNode(leaves[0].weight, 1, Null, node0);
      NothingHeld(p.nodes[..], p.next);
      var node1 := p.GetFreeNode([], []);
      p.InitNode(leaves[1].weight, 2, Null, node1);
      lists := new (nat, nat)[maxbits](_ => (node0, node1));
      chains := Initial(Weights(leaves), maxbits);
      new;
      InitialHeld(pool.nodes[..], pool.next, lists[..], leaves, node0, node1);
    }

    /** Appends a chain to list `index`: what Step does, in place and with the node
        taken from the pool, which may be collected inside the recursion. */
    method BoundaryPM(index: nat, last: bool)
      requires Valid() && index < lists.Length
      modifies this`chains, pool`next, pool.nodes, lists
      ensures Valid()
      ensures chains == Step(Weights(leaves), old(chains), index, last)
      decreases index
    {
      hide Rep, HeldBy, HeldLists, Depth, MarkBound, Shallow, Step;
      ghost var w := Weights(leaves);
      ListCounts(pool.nodes[..], pool.next, lists[..], chains, index);
      var lastcount := pool.nodes[lists[index].1].count;
      StepBottomShape(w, chains, last);
      StepShallow(w, chains, index, last);
      if index == 0 && lastcount >= |leaves| {
        return;
      }
      var newchain := pool.GetFreeNode(lists[..], chains);
      var oldchain := lists[index].1;
      ghost var before, was := pool.nodes[..], lists[..];
      ListCounts(before, newchain, was, chains, index);
      lists[index] := (oldchain, newchain);
      assert lists[..] == was[index := (oldchain, newchain)];
      if index == 0 {
        pool.InitNode(leaves[lastcount].weight, lastcount + 1, Null, newchain);
        NullHeld(before, newchain);
        AppendChain(before, newchain, was, chains, 0,
                    PoolNode(leaves[lastcount].weight, lastcount + 1, Null, true), End);
        chains := Step(w, chains, index, last);
      } else {
        ListCounts(before, newchain, was, chains, index - 1);
        StepShape(w, chains, index, last);
        var sum := pool.nodes[lists[index - 1].0].weight + pool.nodes[lists[index - 1].1].weight;
        if lastcount < |leaves| && sum > leaves[lastcount].weight {
          pool.InitNode(leaves[lastcount].weight, lastcount + 1, pool.nodes[oldchain].tail, newchain);
          AppendChain(before, newchain, was, chains, index,
                      PoolNode(leaves[lastcount].weight, lastcount + 1, before[oldchain].tail, true),
                      chains[index].1.tail);
          StepLeaf(w, chains, index, last);
          chains := Step(w, chains, index, last);
        } else {
          pool.InitNode(sum, lastcount, At(lists[index - 1].1), newchain);
          AppendChain(before, newchain, was, chains, index,
                      PoolNode(sum, lastcount, At(was[index - 1].1), true), chains[index - 1].1);
          ghost var start := chains;
          chains := chains[index := (chains[index].1, Link(sum, lastcount, chains[index - 1].1))];
          PackageShallow(start, index, sum, lastcount);
          if !last {
            BoundaryPM(index - 1, false);
            BoundaryPM(index - 1, false);
          }
        }
      }
    }

    /** Adds one to the length of every leaf counted by each node of the chain. */
    method ExtractBitLengths(chain: nat, ghost ch: Node, bitlengths: array<nat>)
      requires Rep(pool.nodes[..], At(chain), ch) && bitlengths.Length > 0
      requires Distinct(leaves) && forall i | 0 <= i < |leaves| :: leaves[i].symbol < bitlengths.Length
      requires forall s | 0 <= s < bitlengths.Length :: bitlengths[s] == 0
      requires CountsWithin(ch, |leaves|)
      modifies bitlengths
      ensures bitlengths[..] == ChainCode(leaves, ch, bitlengths.Length)
    {
      var node := At(chain);
      ghost var rest: Chain := ch;
      while node.At?
        invariant Rep(pool.nodes[..], node, rest) && CountsWithin(rest, |leaves|)
        invariant forall i | 0 <= i < |leaves| ::
                    bitlengths[leaves[i].symbol] + ChainLength(rest, i) == ChainLength(ch, i)
        invariant forall s | 0 <= s < bitlengths.Length && (forall i | 0 <= i < |leaves| :: leaves[i].symbol != s) ::
                    bitlengths[s] == 0
        decreases rest
      {
        AddLeaves(pool.nodes[node.i].count, bitlengths);
        node := pool.nodes[node.i].tail;
        rest := rest.tail;
      }
      forall s | 0 <= s < bitlengths.Length
        ensures bitlengths[s] == SymbolLength(leaves, ch, s, |leaves|)
      {
        if i :| 0 <= i < |leaves| && leaves[i].symbol == s {
          SymbolLengthAt(leaves, ch, i, |leaves|);
          assert ChainLength(End, i) == 0;
        } else {
          SymbolLengthNone(leaves, ch, s, |leaves|);
        }
      }
    }

    method AddLeaves(count: nat, bitlengths: array<nat>)
      requires count <= |leaves|
      requires Distinct(leaves) && forall i | 0 <= i < |leaves| :: leaves[i].symbol < bitlengths.Length
      modifies bitlengths
      ensures forall i | 0 <= i < |leaves| ::
                bitlengths[leaves[i].symbol] == old(bitlengths[leaves[i].symbol]) + (if i < count then 1 else 0)
      ensures forall s | 0 <= s < bitlengths.Length && (forall i | 0 <= i < |leaves| :: leaves[i].symbol != s) ::
                bitlengths[s] == old(bitlengths[s])
    {
      for k := 0 to count
        invariant forall i | 0 <= i < |leaves| ::
                    bitlengths[leaves[i].symbol] == old(bitlengths[leaves[i].symbol]) + (if i < k then 1 else 0)
        invariant forall s | 0 <= s < bitlengths.Length && (forall i | 0 <= i < |leaves| :: leaves[i].symbol != s) ::
                    bitlengths[s] == old(bitlengths[s])
      {
        bitlengths[leaves[k].symbol] := bitlengths[leaves[k].symbol] + 1;
      }
    }
  }

  ghost predicate CountsWithin(ch: Chain, n: nat) {
    match ch
    case End => true
    case Link(_, c, t) => c <= n && CountsWithin(t, n)
  }

  lemma {:induction false} WellFormedCounts(ch: Chain, n: nat, d: nat, bound: nat)
    requires WellFormed(ch, n, d) && n <= bound
    ensures CountsWithin(ch, bound)
  {
    match ch
    case End =>
    case Link(_, c, t) => WellFormedCounts(t, c, d - 1, bound);
  }

  lemma {:induction false} ListCounts(nodes: seq<PoolNode>, next: nat, lists: seq<(nat, nat)>, chains: Lists, j: nat)
    requires HeldLists(nodes, next, lists, chains) && j < |lists|
    ensures |lists| == |chains| && lists[j].0 < |nodes| && lists[j].1 < |nodes|
    ensures nodes[lists[j].0].weight == chains[j].0.weight
    ensures nodes[lists[j].1].weight == chains[j].1.weight
    ensures nodes[lists[j].1].count == chains[j].1.count
    ensures HeldBy(nodes, next, At(lists[j].1), chains[j].1)
    ensures HeldBy(nodes, next, nodes[lists[j].1].tail, chains[j].1.tail)
  {
    HeldList(nodes, next, lists, chains, j);
    HeldTail(nodes, next, At(lists[j].1), chains[j].1);
  }

  lemma {:induction false} NullHeld(nodes: seq<PoolNode>, next: nat)
    ensures HeldBy(nodes, next, Null, End)
  {
  }

  lemma {:induction false} StepBottomShape(w: seq<nat>, lists: Lists, last: bool)
    requires |lists| >= 1
    ensures var cur := lists[0].1;
            Step(w, lists, 0, last) ==
            if cur.count >= |w| then lists else lists[0 := (cur, Link(w[cur.count], cur.count + 1, End))]
  {
  }

  lemma {:induction false} PackageShallow(lists: Lists, index: nat, sum: nat, count: nat)
    requires 1 <= index < |lists| && Shallow(lists)
    ensures Shallow(lists[index := (lists[index].1, Link(sum, count, lists[index - 1].1))])
  {
  }

  // ----- The entry point --------------------------------------------------------------------

  /** Length-limited code lengths; an error exactly when maxbits is too small to
      tell the used symbols apart. */
  method LengthLimitedCodeLengths(freqs: seq<nat>, maxbits: nat) returns (error: bool, bitlengths: seq<nat>)
    requires maxbits >= 1
    ensures |bitlengths| == |freqs|
    ensures error <==> !Encodable(freqs, maxbits)
    ensures !error ==> bitlengths == Lengths(freqs, maxbits)
  {
    hide Pow2, Sort, UsedLeaves, SortedLeaves, Lengths;
    var leaves := CollectLeaves(freqs);
    FewLengths(freqs, maxbits);
    bitlengths := seq(|freqs|, _ => 0);
    if Pow2(maxbits) < |leaves| {
      return true, bitlengths;
    }
    error := false;
    if |leaves| == 0 {
      return;
    }
    if |leaves| == 1 {
      bitlengths := bitlengths[leaves[0].symbol := 1];
      return;
    }
    leaves := Sort(leaves);
    bitlengths := MergeLeaves(freqs, leaves, maxbits);
  }

  /** The used symbols with their frequencies. */
  method CollectLeaves(freqs: seq<nat>) returns (leaves: seq<Leaf>)
    ensures leaves == UsedLeaves(freqs, |freqs|)
  {
    leaves := [];
    for i := 0 to |freqs|
      invariant leaves == UsedLeaves(freqs, i)
    {
      if freqs[i] != 0 {
        leaves := leaves + [Leaf(freqs[i], i)];
      }
    }
  }

  /** No symbol or one: the code needs no merging. */
  lemma {:induction false} FewLengths(freqs: seq<nat>, maxbits: nat)
    requires maxbits >= 1
    ensures var leaves := UsedLeaves(freqs, |freqs|);
            && SortedLeaves(freqs) == Sort(leaves) && |Sort(leaves)| == |leaves|
            && (Encodable(freqs, maxbits) <==> |leaves| <= Pow2(maxbits))
            && (Encodable(freqs, maxbits) && |leaves| == 0 ==> Lengths(freqs, maxbits) == seq(|freqs|, _ => 0))
            && (Encodable(freqs, maxbits) && |leaves| == 1 ==>
                  leaves[0].symbol < |freqs| && Lengths(freqs, maxbits) == seq(|freqs|, _ => 0)[leaves[0].symbol := 1])
  {
    hide Pow2, UsedLeaves, Sort, CodeChain;
    var leaves := UsedLeaves(freqs, |freqs|);
    if |leaves| == 1 {
      SortOne(leaves);
      UsedProperties(freqs, |freqs|);
      assert leaves[0] in leaves;
    }
  }

  lemma {:induction false} SortOne(s: seq<Leaf>)
    requires |s| == 1
    ensures Sort(s) == s
  {
    assert s[..0] == [];
    assert Sort([]) == [];
    assert Insert(s[0], []) == [s[0]];
  }

  method MergeLeaves(freqs: seq<nat>, leaves: seq<Leaf>, maxbits: nat) returns (bitlengths: seq<nat>)
    requires maxbits >= 1 && Encodable(freqs, maxbits)
    requires leaves == SortedLeaves(freqs) && |leaves| >= 2
    ensures bitlengths == Lengths(freqs, maxbits)
  {
    hide Rep, HeldBy, HeldLists, Shallow, Step, Level, CodeChain, Sort, UsedLeaves, Pow2, Run;
    ghost var w := Weights(leaves);
    LeavesProperties(freqs);
    var m := new Merger(leaves, maxbits);
    var runs := 2 * |leaves| - 4;
    RunNone(w, Initial(w, maxbits));
    for i := 0 to runs
      invariant m.Valid()
      invariant i < runs || runs == 0 ==> m.chains == Run(w, Initial(w, maxbits), i)
      invariant i == runs ==> m.chains == AllRuns(w, maxbits)
    {
      RunStep(w, Initial(w, maxbits), i);
      m.BoundaryPM(maxbits - 1, i == runs - 1);
    }
    RefinesPackageMerge(w, maxbits);
    CodeChainShape(w, maxbits);
    ghost var ch := CodeChain(w, maxbits);
    WellFormedCounts(ch, |w|, maxbits, |leaves|);
    ListCounts(m.pool.nodes[..], m.pool.next, m.lists[..], m.chains, maxbits - 1);
    HeldRep(m.pool.nodes[..], m.pool.next, At(m.lists[maxbits - 1].1), ch);
    forall i | 0 <= i < |leaves|
      ensures leaves[i].symbol < |freqs|
    {
      assert leaves[i] in leaves;
    }
    var lengths := new nat[|freqs|](_ => 0);
    m.ExtractBitLengths(m.lists[maxbits - 1].1, ch, lengths);
    bitlengths := lengths[..];
  }

  lemma {:induction false} HeldRep(nodes: seq<PoolNode>, next: nat, p: Ptr, ch: Chain)
    requires HeldBy(nodes, next, p, ch)
    ensures Rep(nodes, p, ch)
  {
  }

  lemma {:induction false} RunNone(w: seq<nat>, lists: Lists)
    requires |lists| >= 1
    ensures Run(w, lists, 0) == lists
  {
  }

  lemma {:induction false} RunStep(w: seq<nat>, lists: Lists, k: nat)
    requires |lists| >= 1
    ensures Run(w, lists, k + 1) == Step(w, Run(w, lists, k), |lists| - 1, false)
  {
  }
}
