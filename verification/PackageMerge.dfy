/**
 Plain package-merge for length-limited prefix codes, and what makes it worth
 running: the code it yields is complete (Kraft equality), respects the length
 limit, and has minimum redundancy among all codes that do.

 A list of level d + 1 is the eager merge of the leaves with the packages, that
 is, the consecutive pairs, of the list of level d. The optimised algorithm, which
 keeps only two lookahead chains per list, is in module Katajainen.
 */
module PackageMerge {
  import opened Arith

  /** A chain of nodes: the total weight of the last item, the number of leaves
      before the end of this list, and the chain in the previous list. */
  datatype Chain = End | Link(weight: nat, count: nat, tail: Chain)

  type Node = c: Chain | c.Link? witness Link(0, 0, End)

  /** Leaf weights as the algorithm receives them: positive and sorted. */
  ghost predicate Leaves(w: seq<nat>) {
    && (forall i | 0 <= i < |w| :: w[i] > 0)
    && (forall i, j | 0 <= i <= j < |w| :: w[i] <= w[j])
  }

  ghost predicate Sorted(list: seq<Node>) {
    forall i, j | 0 <= i <= j < |list| :: list[i].weight <= list[j].weight
  }

  ghost predicate Positive(list: seq<Node>) {
    forall i | 0 <= i < |list| :: list[i].weight > 0
  }

  /** The weight of the package made of items 2m and 2m + 1. */
  function PairWeight(prev: seq<Node>, m: nat): nat
    requires 2 * m + 1 < |prev|
  {
    prev[2 * m].weight + prev[2 * m + 1].weight
  }

  /** After `c` leaves and `m` packages, the next item is a leaf; on equal weights
      the package goes first. */
  predicate LeafNext(w: seq<nat>, prev: seq<Node>, c: nat, m: nat) {
    c < |w| && (2 * m + 1 >= |prev| || PairWeight(prev, m) > w[c])
  }

  /** How many of the first `k` items of the merged list are leaves. */
  function LeafCount(w: seq<nat>, prev: seq<Node>, k: nat): (c: nat)
    requires k <= |w| + |prev| / 2
    ensures c <= |w| && c <= k && k - c <= |prev| / 2
  {
    if k == 0 then 0 else
      var c := LeafCount(w, prev, k - 1);
      if LeafNext(w, prev, c, k - 1 - c) then c + 1 else c
  }

  /** The k-th item (from 1) of the merged list. A leaf inherits the tail of the
      item before it; a package links to the second chain it is made of. */
  function Item(w: seq<nat>, prev: seq<Node>, k: nat): (it: Node)
    requires 1 <= k <= |w| + |prev| / 2
    ensures it.count == LeafCount(w, prev, k)
  {
    var c := LeafCount(w, prev, k - 1);
    var m := k - 1 - c;
    if LeafNext(w, prev, c, m)
    then Link(w[c], c + 1, if m == 0 then End else prev[2 * m - 1])
    else Link(PairWeight(prev, m), c, prev[2 * m + 1])
  }

  function Merged(w: seq<nat>, prev: seq<Node>): (r: seq<Node>)
    ensures |r| == |w| + |prev| / 2
    ensures forall i | 0 <= i < |r| :: r[i] == Item(w, prev, i + 1)
  {
    seq(|w| + |prev| / 2, i requires 0 <= i < |w| + |prev| / 2 => Item(w, prev, i + 1))
  }

  /** The list after `d` levels; level 0 has no items at all. */
  function Level(w: seq<nat>, d: nat): seq<Node> {
    if d == 0 then [] else Merged(w, Level(w, d - 1))
  }

  // ----- Order ---------------------------------------------------------------

  /** What the merge keeps after every item: no package already taken outweighs
      the next leaf, and no leaf already taken outweighs the next package. */
  lemma {:induction false} MergeBalance(w: seq<nat>, prev: seq<Node>, k: nat)
    requires Leaves(w) && Sorted(prev)
    requires k <= |w| + |prev| / 2
    ensures var c := LeafCount(w, prev, k);
            && (c < |w| && k - c > 0 ==> PairWeight(prev, k - c - 1) <= w[c])
            && (c > 0 && 2 * (k - c) + 1 < |prev| ==> w[c - 1] <= PairWeight(prev, k - c))
  {
    hide LeafCount;
    LeafCountStep(w, prev, k);
    if k > 0 {
      MergeBalance(w, prev, k - 1);
      var c := LeafCount(w, prev, k - 1);
      BalanceStep(w, prev, c, k - 1 - c);
    }
  }

  /** One item keeps the balance. */
  lemma {:induction false} BalanceStep(w: seq<nat>, prev: seq<Node>, c: nat, m: nat)
    requires Leaves(w) && Sorted(prev) && c <= |w| && m <= |prev| / 2
    requires c < |w| && m > 0 ==> PairWeight(prev, m - 1) <= w[c]
    requires c > 0 && 2 * m + 1 < |prev| ==> w[c - 1] <= PairWeight(prev, m)
    ensures LeafNext(w, prev, c, m) ==>
              && (c + 1 < |w| && m > 0 ==> PairWeight(prev, m - 1) <= w[c + 1])
              && (2 * m + 1 < |prev| ==> w[c] <= PairWeight(prev, m))
    ensures !LeafNext(w, prev, c, m) && 2 * m + 1 < |prev| ==>
              && (c < |w| ==> PairWeight(prev, m) <= w[c])
              && (c > 0 && 2 * m + 3 < |prev| ==> w[c - 1] <= PairWeight(prev, m + 1))
  {
    NextPair(prev, m);
    hide Sorted, PairWeight;
  }

  lemma {:induction false} LeafCountStep(w: seq<nat>, prev: seq<Node>, k: nat)
    requires k <= |w| + |prev| / 2
    ensures LeafCount(w, prev, 0) == 0
    ensures k > 0 ==> var c := LeafCount(w, prev, k - 1);
                      LeafCount(w, prev, k) == if LeafNext(w, prev, c, k - 1 - c) then c + 1 else c
  {
    hide LeafNext;
  }

  lemma {:induction false} NextPair(prev: seq<Node>, m: nat)
    requires Sorted(prev)
    ensures 2 * m + 3 < |prev| ==> PairWeight(prev, m) <= PairWeight(prev, m + 1)
  {
    if 2 * m + 3 < |prev| {
      assert prev[2 * m].weight <= prev[2 * m + 2].weight && prev[2 * m + 1].weight <= prev[2 * m + 3].weight;
    }
  }

  /** Each item weighs something and at least as much as the heaviest leaf it counts. */
  lemma {:induction false} ItemWeight(w: seq<nat>, prev: seq<Node>, k: nat)
    requires Leaves(w) && Sorted(prev) && Positive(prev)
    requires 1 <= k <= |w| + |prev| / 2
    ensures var it := Item(w, prev, k);
            it.weight > 0 && (it.count > 0 ==> w[it.count - 1] <= it.weight)
  {
    var c := LeafCount(w, prev, k - 1);
    MergeBalance(w, prev, k - 1);
    if !LeafNext(w, prev, c, k - 1 - c) {
      assert prev[2 * (k - 1 - c)].weight > 0;
    }
  }

  lemma {:induction false} ItemsAscend(w: seq<nat>, prev: seq<Node>, k: nat)
    requires Leaves(w) && Sorted(prev)
    requires 1 <= k < |w| + |prev| / 2
    ensures Item(w, prev, k).weight <= Item(w, prev, k + 1).weight
  {
    MergeBalance(w, prev, k - 1);
    MergeBalance(w, prev, k);
  }

  lemma {:induction false} MergedOrder(w: seq<nat>, prev: seq<Node>)
    requires Leaves(w) && Sorted(prev) && Positive(prev)
    ensures Sorted(Merged(w, prev)) && Positive(Merged(w, prev))
  {
    var r := Merged(w, prev);
    forall i | 0 <= i < |r|
      ensures r[i].weight > 0
    {
      assert r[i] == Item(w, prev, i + 1);
      ItemWeight(w, prev, i + 1);
    }
    forall i, j | 0 <= i <= j < |r|
      ensures r[i].weight <= r[j].weight
    {
      Climb(w, prev, i, j);
    }
  }

  lemma {:induction false} Climb(w: seq<nat>, prev: seq<Node>, i: nat, j: nat)
    requires Leaves(w) && Sorted(prev)
    requires i <= j < |w| + |prev| / 2
    ensures Merged(w, prev)[i].weight <= Merged(w, prev)[j].weight
  {
    hide Item, LeafCount, LeafNext;
    if i < j {
      Climb(w, prev, i, j - 1);
      ItemsAscend(w, prev, j);
    }
  }

  lemma {:induction false} LevelOrder(w: seq<nat>, d: nat)
    requires Leaves(w)
    ensures Sorted(Level(w, d)) && Positive(Level(w, d))
  {
    if d > 0 {
      LevelOrder(w, d - 1);
      MergedOrder(w, Level(w, d - 1));
    }
  }

  lemma {:induction false} LevelWeight(w: seq<nat>, d: nat, k: nat)
    requires Leaves(w) && k < |Level(w, d)|
    ensures var it := Level(w, d)[k];
            && it.weight > 0 && it.count <= |w|
            && (it.count > 0 ==> w[it.count - 1] <= it.weight)
  {
    LevelOrder(w, d - 1);
    ItemWeight(w, Level(w, d - 1), k + 1);
  }

  // ----- Size ----------------------------------------------------------------

  /** How far the list of level d falls short of 2n items. */
  lemma {:induction false} LevelSize(w: seq<nat>, d: nat)
    requires d >= 1
    ensures |w| <= |Level(w, d)| <= 2 * |w|
    ensures Scale(2 * |w| - |Level(w, d)|, d - 1) < |w| + Pow2(d - 1)
  {
    var n := |w|;
    if d == 1 {
      assert Level(w, 0) == [];
    } else {
      LevelSize(w, d - 1);
      var s, s' := 2 * n - |Level(w, d - 1)|, 2 * n - |Level(w, d)|;
      assert 2 * s' <= s + 1;
      ScaleAdd(s', s', d - 2);
      ScaleAdd(s, 1, d - 2);
      ScaleOne(d - 2);
      ScaleMonotone(s' + s', s + 1, d - 2);
    }
  }

  /** The last list holds the 2n - 2 items the code needs exactly because
      n <= 2^maxbits, the condition the entry point checks. */
  lemma {:induction false} EnoughItems(w: seq<nat>, maxbits: nat)
    requires maxbits >= 1 && |w| <= Pow2(maxbits)
    ensures |Level(w, maxbits)| >= 2 * |w| - 2
  {
    LevelSize(w, maxbits);
    var s := 2 * |w| - |Level(w, maxbits)|;
    ScaleOne(maxbits - 1);
    ScaleAdd(1, 1, maxbits - 1);
    ScaleAdd(2, 1, maxbits - 1);
    ScaleMonotone(s, 3, maxbits - 1);
  }

  // ----- Shape of the chains ---------------------------------------------------

  /** The number of list items a chain stands for. */
  function Value(ch: Chain): nat {
    match ch
    case End => 0
    case Link(_, c, t) => c + Value(t) / 2
  }

  function Depth(ch: Chain): nat {
    match ch
    case End => 0
    case Link(_, _, t) => 1 + Depth(t)
  }

  /** At most `d` nodes, leaf counts at most `n` and not growing along the tail,
      and tails that stand for a whole number of packages. */
  ghost predicate WellFormed(ch: Chain, n: nat, d: nat)
    ensures WellFormed(ch, n, d) ==> Depth(ch) <= d
  {
    match ch
    case End => true
    case Link(_, c, t) => d > 0 && c <= n && Value(t) % 2 == 0 && WellFormed(t, c, d - 1)
  }

  lemma {:induction false} ItemTail(w: seq<nat>, prev: seq<Node>, k: nat)
    requires 1 <= k <= |w| + |prev| / 2
    ensures var m := k - LeafCount(w, prev, k);
            Item(w, prev, k).tail == if m == 0 then End else prev[2 * m - 1]
  {
  }

  lemma {:induction false} LeafOrder(w: seq<nat>, c: nat, count: nat)
    requires Leaves(w) && count <= |w|
    ensures c < count ==> w[c] <= w[count - 1]
  {
  }

  /** The last package taken counts no leaf that its own list has not counted. */
  lemma {:induction false} PackageNested(w: seq<nat>, prev: seq<Node>, k: nat, m: nat)
    requires Leaves(w) && Sorted(prev) && Positive(prev)
    requires 1 <= k <= |w| + |prev| / 2
    requires m == k - LeafCount(w, prev, k) && m > 0
    requires var t := prev[2 * m - 1];
             t.count <= |w| && (t.count > 0 ==> w[t.count - 1] <= t.weight)
    ensures prev[2 * m - 1].count <= LeafCount(w, prev, k)
  {
    MergeBalance(w, prev, k);
    var c, t := LeafCount(w, prev, k), prev[2 * m - 1];
    assert prev[2 * m - 2].weight > 0;
    LeafOrder(w, c, t.count);
  }

  lemma {:induction false} ItemShape(w: seq<nat>, prev: seq<Node>, d: nat, k: nat, m: nat)
    requires 1 <= k <= |w| + |prev| / 2
    requires m == k - LeafCount(w, prev, k)
    requires m > 0 ==>
               && WellFormed(prev[2 * m - 1], |w|, d) && Value(prev[2 * m - 1]) == 2 * m
               && prev[2 * m - 1].count <= LeafCount(w, prev, k)
    ensures WellFormed(Item(w, prev, k), |w|, d + 1) && Value(Item(w, prev, k)) == k
  {
    ItemTail(w, prev, k);
    if m > 0 {
      WellFormedTail(prev[2 * m - 1], |w|, LeafCount(w, prev, k), d);
    }
  }

  lemma {:induction false} LevelStep(w: seq<nat>, d: nat, k: nat)
    requires 1 <= k <= |Level(w, d)|
    ensures d > 0 && |Level(w, d)| == |w| + |Level(w, d - 1)| / 2
    ensures Level(w, d)[k - 1] == Item(w, Level(w, d - 1), k)
  {
  }

  /** The chain of item k of level d is well formed and stands for k items. */
  lemma {:induction false} LevelShape(w: seq<nat>, d: nat, k: nat)
    requires Leaves(w) && 1 <= k <= |Level(w, d)|
    ensures WellFormed(Level(w, d)[k - 1], |w|, d) && Value(Level(w, d)[k - 1]) == k
    decreases d
  {
    hide *;
    LevelStep(w, d, k);
    var prev := Level(w, d - 1);
    var m := k - LeafCount(w, prev, k);
    if m > 0 {
      LevelShape(w, d - 1, 2 * m);
      LevelOrder(w, d - 1);
      LevelWeight(w, d - 1, 2 * m - 1);
      PackageNested(w, prev, k, m);
    }
    ItemShape(w, prev, d - 1, k, m);
  }

  lemma WellFormedTail(t: Node, n: nat, c: nat, d: nat)
    requires WellFormed(t, n, d) && t.count <= c
    ensures WellFormed(t, c, d)
  {
  }

  // ----- Code lengths and the Kraft sum ----------------------------------------

  /** The bit length of the i-th lightest leaf: in how many nodes of the chain it
      is active. */
  function ChainLength(ch: Chain, i: nat): (l: nat)
    ensures l <= Depth(ch)
  {
    match ch
    case End => 0
    case Link(_, c, t) => (if i < c then 1 else 0) + ChainLength(t, i)
  }

  lemma {:induction false} InactiveLeaf(ch: Chain, i: nat, n: nat, d: nat)
    requires WellFormed(ch, n, d) && i >= n
    ensures ChainLength(ch, i) == 0
  {
    match ch
    case End =>
    case Link(_, c, t) => InactiveLeaf(t, i, c, d - 1);
  }

  /** The Kraft sum of the first n leaves, scaled by 2^maxbits. */
  function ChainKraft(ch: Chain, maxbits: nat, n: nat): nat
    requires Depth(ch) <= maxbits
  {
    if n == 0 then 0
    else ChainKraft(ch, maxbits, n - 1) + Pow2(maxbits - ChainLength(ch, n - 1))
  }

  lemma {:induction false} KraftSplit(ch: Node, d: nat, n: nat, bound: nat)
    requires WellFormed(ch, bound, d)
    ensures n <= ch.count ==> ChainKraft(ch, d, n) == ChainKraft(ch.tail, d - 1, n)
    ensures n >= ch.count ==>
              ChainKraft(ch, d, n) == ChainKraft(ch.tail, d - 1, ch.count) + Scale(n - ch.count, d)
  {
    if n == 0 {
      ScaleMonotone(0, n - ch.count, d);
      ScaleAdd(0, 0, d);
    } else {
      KraftSplit(ch, d, n - 1, bound);
      ScaleAdd(n - 1 - ch.count, 1, d);
      ScaleOne(d);
      if n > ch.count {
        InactiveLeaf(ch.tail, n - 1, ch.count, d - 1);
      } else {
        ScaleAdd(0, 0, d);
        assert ChainLength(ch, n - 1) == 1 + ChainLength(ch.tail, n - 1);
      }
    }
  }

  /** The Kraft sum depends only on how many items the chain stands for. */
  lemma {:induction false} KraftOfValue(ch: Chain, d: nat, n: nat)
    requires WellFormed(ch, n, d)
    ensures 2 * ChainKraft(ch, d, n) == Scale(2 * n - Value(ch), d)
  {
    match ch
    case End =>
      KraftOfEnd(d, n);
      ScaleAdd(n, n, d);
    case Link(_, c, t) =>
      KraftSplit(ch, d, n, n);
      KraftOfValue(t, d - 1, c);
      var v := Value(t) / 2;
      ScaleAdd(c - v, c - v, d - 1);
      assert 2 * c - Value(t) == (c - v) + (c - v);
      ScaleAdd(n - c, n - c, d);
      ScaleAdd(c - v, (n - c) + (n - c), d);
      assert (c - v) + ((n - c) + (n - c)) == 2 * n - Value(ch);
  }

  lemma {:induction false} KraftOfEnd(d: nat, n: nat)
    ensures ChainKraft(End, d, n) == Scale(n, d)
  {
    if n > 0 {
      KraftOfEnd(d, n - 1);
      ScaleAdd(n - 1, 1, d);
      ScaleOne(d);
    } else {
      ScaleAdd(0, 0, d);
    }
  }

  lemma {:induction false} KraftPositive(ch: Chain, d: nat, n: nat)
    requires Depth(ch) <= d
    ensures ChainKraft(ch, d, n) >= n
  {
    if n > 0 {
      KraftPositive(ch, d, n - 1);
    }
  }

  /** A leaf of length 0 would fill the whole code space alone. */
  lemma {:induction false} EveryLeafActive(ch: Node, d: nat, n: nat)
    requires WellFormed(ch, n, d) && n >= 2 && ch.count < n
    ensures ChainKraft(ch, d, n) > Pow2(d)
  {
    KraftSplit(ch, d, n, n);
    KraftPositive(ch.tail, d - 1, ch.count);
    ScaleOne(d);
    ScaleAdd(n - ch.count - 1, 1, d);
    ScaleNonNegative(n - ch.count - 1, d);
  }

  /** The chain from which the code is read off: item 2n - 2 of the last list. */
  function CodeChain(w: seq<nat>, maxbits: nat): Node
    requires 2 <= |w| <= Pow2(maxbits) && maxbits >= 1
  {
    EnoughItems(w, maxbits);
    Level(w, maxbits)[2 * |w| - 3]
  }

  lemma {:induction false} CodeChainShape(w: seq<nat>, maxbits: nat)
    requires Leaves(w) && 2 <= |w| <= Pow2(maxbits) && maxbits >= 1
    ensures var ch := CodeChain(w, maxbits);
            WellFormed(ch, |w|, maxbits) && Value(ch) == 2 * |w| - 2
  {
    hide Level, WellFormed, Value, Pow2;
    EnoughItems(w, maxbits);
    LevelShape(w, maxbits, 2 * |w| - 2);
  }

  /** Kraft equality: the code of n >= 2 leaves is complete, and every leaf gets
      a length between 1 and maxbits. */
  lemma {:induction false} CodeIsComplete(w: seq<nat>, maxbits: nat)
    requires Leaves(w) && 2 <= |w| <= Pow2(maxbits) && maxbits >= 1
    ensures var ch := CodeChain(w, maxbits);
            && ch.count == |w|
            && WellFormed(ch, |w|, maxbits)
            && ChainKraft(ch, maxbits, |w|) == Pow2(maxbits)
  {
    var n, ch := |w|, CodeChain(w, maxbits);
    CodeChainShape(w, maxbits);
    hide *;
    KraftOfValue(ch, maxbits, n);
    ScaleAdd(1, 1, maxbits);
    ScaleOne(maxbits);
    if ch.count < n {
      EveryLeafActive(ch, maxbits, n);
      assert false;
    }
  }
}
