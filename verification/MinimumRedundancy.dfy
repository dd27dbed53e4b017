/**
 Package-merge is optimal: no code whose lengths stay within the limit and satisfy
 the Kraft inequality has a smaller weighted length than the code read off the
 last list.
 */
module MinimumRedundancy {
  import opened Arith
  import opened PackageMerge

  /** The total weight of the first `k` items of a list. */
  function WeightSum(list: seq<Node>, k: nat): nat
    requires k <= |list|
  {
    if k == 0 then 0 else WeightSum(list, k - 1) + list[k - 1].weight
  }

  lemma {:induction false} WeightSumPair(list: seq<Node>, m: nat)
    requires 2 * m + 1 < |list|
    ensures WeightSum(list, 2 * m + 2) == WeightSum(list, 2 * m) + PairWeight(list, m)
  {
    assert WeightSum(list, 2 * m + 2) == WeightSum(list, 2 * m + 1) + list[2 * m + 1].weight;
  }

  lemma {:induction false} WeightSumMonotone(list: seq<Node>, j: nat, k: nat)
    requires j <= k <= |list|
    ensures WeightSum(list, j) <= WeightSum(list, k)
  {
    if j < k {
      WeightSumMonotone(list, j, k - 1);
    }
  }

  // ----- A merge takes the cheapest items ----------------------------------------

  lemma {:induction false} ItemStep(w: seq<nat>, prev: seq<Node>, k: nat)
    requires 1 <= k <= |w| + |prev| / 2
    ensures var c := LeafCount(w, prev, k - 1);
            if LeafNext(w, prev, c, k - 1 - c)
            then LeafCount(w, prev, k) == c + 1 && Merged(w, prev)[k - 1].weight == w[c]
            else LeafCount(w, prev, k) == c && 2 * (k - 1 - c) + 1 < |prev| &&
                 Merged(w, prev)[k - 1].weight == PairWeight(prev, k - 1 - c)
  {
    assert Merged(w, prev)[k - 1] == Item(w, prev, k);
  }

  lemma {:induction false} NoWeight(w: seq<nat>, prev: seq<Node>, list: seq<Node>)
    ensures LeafCount(w, prev, 0) == 0 && WeightSum(list, 0) == WeightSum(prev, 0) == PrefixSum(w, 0) == 0
  {
  }

  lemma {:induction false} NextWeight(list: seq<Node>, k: nat)
    requires 1 <= k <= |list|
    ensures WeightSum(list, k) == WeightSum(list, k - 1) + list[k - 1].weight
  {
  }

  lemma {:induction false} NextLeafWeight(w: seq<nat>, c: nat)
    requires c < |w|
    ensures PrefixSum(w, c + 1) == PrefixSum(w, c) + w[c]
  {
  }

  lemma {:induction false} MergedSum(w: seq<nat>, prev: seq<Node>, k: nat)
    requires k <= |w| + |prev| / 2
    ensures var c := LeafCount(w, prev, k);
            WeightSum(Merged(w, prev), k) == PrefixSum(w, c) + WeightSum(prev, 2 * (k - c))
  {
    if k == 0 {
      NoWeight(w, prev, Merged(w, prev));
    } else {
      hide LeafCount, Merged, Item, PairWeight, LeafNext, WeightSum, PrefixSum;
      MergedSum(w, prev, k - 1);
      ItemStep(w, prev, k);
      var c := LeafCount(w, prev, k - 1);
      var m := k - 1 - c;
      NextWeight(Merged(w, prev), k);
      if LeafNext(w, prev, c, m) {
        NextLeafWeight(w, c);
        assert k - (c + 1) == m;
      } else {
        WeightSumPair(prev, m);
        assert 2 * (k - c) == 2 * m + 2;
      }
    }
  }

  lemma {:induction false} MoreLeavesCost(w: seq<nat>, prev: seq<Node>, c: nat, m: nat, t: nat)
    requires Leaves(w) && Sorted(prev)
    requires c + t <= |w| && t <= m && 2 * m <= |prev|
    requires c < |w| && m > 0 ==> PairWeight(prev, m - 1) <= w[c]
    ensures PrefixSum(w, c + t) + WeightSum(prev, 2 * (m - t)) >= PrefixSum(w, c) + WeightSum(prev, 2 * m)
  {
    if t > 0 {
      MoreLeavesCost(w, prev, c, m, t - 1);
      WeightSumPair(prev, m - t);
      assert w[c] <= w[c + t - 1];
      assert PairWeight(prev, m - t) <= PairWeight(prev, m - 1);
    }
  }

  lemma {:induction false} FewerLeavesCost(w: seq<nat>, prev: seq<Node>, c: nat, m: nat, t: nat)
    requires Leaves(w) && Sorted(prev)
    requires t <= c <= |w| && 2 * (m + t) <= |prev|
    requires c > 0 && 2 * m + 1 < |prev| ==> w[c - 1] <= PairWeight(prev, m)
    ensures PrefixSum(w, c - t) + WeightSum(prev, 2 * (m + t)) >= PrefixSum(w, c) + WeightSum(prev, 2 * m)
  {
    if t > 0 {
      FewerLeavesCost(w, prev, c, m, t - 1);
      WeightSumPair(prev, m + t - 1);
      assert w[c - t] <= w[c - 1];
      assert PairWeight(prev, m) <= PairWeight(prev, m + t - 1);
    }
  }

  /** Any `a` leaves and `m` packages weigh at least as much as the first a + m
      items of the merged list. */
  lemma {:induction false} MergeIsMinimal(w: seq<nat>, prev: seq<Node>, a: nat, m: nat)
    requires Leaves(w) && Sorted(prev)
    requires a <= |w| && 2 * m <= |prev|
    ensures WeightSum(Merged(w, prev), a + m) <= PrefixSum(w, a) + WeightSum(prev, 2 * m)
  {
    hide LeafCount, Merged, PairWeight, WeightSum, PrefixSum, Leaves, Sorted;
    var k := a + m;
    var c := LeafCount(w, prev, k);
    MergedSum(w, prev, k);
    MergeBalance(w, prev, k);
    if a >= c {
      MoreLeavesCost(w, prev, c, k - c, a - c);
    } else {
      FewerLeavesCost(w, prev, c, k - c, c - a);
    }
  }

  // ----- Arbitrary codes, level by level ------------------------------------------

  /** How many of the first `n` lengths are at least `d`. */
  function CountGe(l: seq<nat>, d: nat, n: nat): (r: nat)
    requires n <= |l|
    ensures r <= n
  {
    if n == 0 then 0 else CountGe(l, d, n - 1) + (if l[n - 1] >= d then 1 else 0)
  }

  function CostGe(w: seq<nat>, l: seq<nat>, d: nat, n: nat): nat
    requires n <= |l| && n <= |w|
  {
    if n == 0 then 0 else CostGe(w, l, d, n - 1) + (if l[n - 1] >= d then w[n - 1] else 0)
  }

  /** Leaves of length at least d cost no less than the same number of lightest leaves. */
  lemma {:induction false} CheapestLeaves(w: seq<nat>, l: seq<nat>, d: nat, n: nat)
    requires Leaves(w) && n <= |l| && n <= |w|
    ensures PrefixSum(w, CountGe(l, d, n)) <= CostGe(w, l, d, n)
  {
    if n > 0 {
      CheapestLeaves(w, l, d, n - 1);
      var a := CountGe(l, d, n);
      assert a > 0 ==> w[a - 1] <= w[n - 1];
    }
  }

  /** Cost and item count of a code restricted to its `h` deepest levels. */
  function DeepCost(w: seq<nat>, l: seq<nat>, maxbits: nat, h: nat): nat
    requires |l| == |w| && h <= maxbits
  {
    if h == 0 then 0
    else CostGe(w, l, maxbits - h + 1, |w|) + DeepCost(w, l, maxbits, h - 1)
  }

  function DeepItems(l: seq<nat>, maxbits: nat, h: nat): nat
    requires h <= maxbits
  {
    if h == 0 then 0
    else CountGe(l, maxbits - h + 1, |l|) + DeepItems(l, maxbits, h - 1) / 2
  }

  lemma {:induction false} MergeKeepsMinimal(w: seq<nat>, l: seq<nat>, d: nat, prev: seq<Node>, v: nat, cost: nat)
    requires Leaves(w) && Sorted(prev) && |l| == |w|
    requires v <= |prev| && WeightSum(prev, v) <= cost
    ensures CountGe(l, d, |w|) + v / 2 <= |Merged(w, prev)|
    ensures WeightSum(Merged(w, prev), CountGe(l, d, |w|) + v / 2) <= CostGe(w, l, d, |w|) + cost
  {
    hide *;
    WeightSumMonotone(prev, 2 * (v / 2), v);
    CheapestLeaves(w, l, d, |w|);
    MergeIsMinimal(w, prev, CountGe(l, d, |w|), v / 2);
  }

  lemma {:induction false} DeepUnfold(w: seq<nat>, l: seq<nat>, maxbits: nat, h: nat)
    requires |l| == |w| && h <= maxbits
    ensures h == 0 ==> DeepItems(l, maxbits, h) == 0 && WeightSum(Level(w, h), 0) == 0
    ensures h > 0 ==>
              var d := maxbits - h + 1;
              && DeepItems(l, maxbits, h) == CountGe(l, d, |w|) + DeepItems(l, maxbits, h - 1) / 2
              && DeepCost(w, l, maxbits, h) == CostGe(w, l, d, |w|) + DeepCost(w, l, maxbits, h - 1)
  {
    hide Level, CountGe, CostGe;
  }

  /** The first items of a level are the cheapest way to collect that many. */
  lemma {:induction false} LevelIsMinimal(w: seq<nat>, l: seq<nat>, maxbits: nat, h: nat)
    requires Leaves(w) && |l| == |w| && h <= maxbits
    ensures DeepItems(l, maxbits, h) <= |Level(w, h)|
    ensures WeightSum(Level(w, h), DeepItems(l, maxbits, h)) <= DeepCost(w, l, maxbits, h)
  {
    hide *;
    DeepUnfold(w, l, maxbits, h);
    if h > 0 {
      LevelIsMinimal(w, l, maxbits, h - 1);
      LevelUnfold(w, h);
      LevelOrder(w, h - 1);
      MergeKeepsMinimal(w, l, maxbits - h + 1, Level(w, h - 1),
                        DeepItems(l, maxbits, h - 1), DeepCost(w, l, maxbits, h - 1));
    }
  }

  // ----- The Kraft inequality forces 2n - 2 items -----------------------------------

  /** The Kraft sum of the first n lengths, scaled by 2^maxbits; length 0 means unused. */
  function Kraft(l: seq<nat>, maxbits: nat, n: nat): nat
    requires n <= |l| && forall i | 0 <= i < |l| :: l[i] <= maxbits
  {
    if n == 0 then 0
    else Kraft(l, maxbits, n - 1) + (if l[n - 1] == 0 then 0 else Pow2(maxbits - l[n - 1]))
  }

  /** The Kraft sum with lengths cut off at level maxbits - h. */
  function CutKraft(l: seq<nat>, maxbits: nat, h: nat, n: nat): nat
    requires n <= |l| && h <= maxbits && forall i | 0 <= i < |l| :: l[i] <= maxbits
  {
    if n == 0 then 0
    else CutKraft(l, maxbits, h, n - 1) +
         (if l[n - 1] < maxbits - h + 1 then Pow2(h) else Pow2(maxbits - l[n - 1]))
  }

  lemma {:induction false} CutKraftStep(l: seq<nat>, maxbits: nat, h: nat, n: nat)
    requires n <= |l| && 1 <= h <= maxbits && forall i | 0 <= i < |l| :: l[i] <= maxbits
    ensures CutKraft(l, maxbits, h, n) ==
            CutKraft(l, maxbits, h - 1, n) + Scale(n - CountGe(l, maxbits - h + 1, n), h - 1)
  {
    if n == 0 {
      ScaleAdd(0, 0, h - 1);
    } else {
      CutKraftStep(l, maxbits, h, n - 1);
      ScaleAdd(n - 1 - CountGe(l, maxbits - h + 1, n - 1), 1, h - 1);
      ScaleOne(h - 1);
    }
  }

  lemma {:induction false} CutKraftBase(l: seq<nat>, maxbits: nat, n: nat)
    requires n <= |l| && forall i | 0 <= i < |l| :: l[i] <= maxbits
    ensures CutKraft(l, maxbits, 0, n) == n
  {
    if n > 0 {
      CutKraftBase(l, maxbits, n - 1);
      assert l[n - 1] <= maxbits;
    }
  }

  lemma {:induction false} CutKraftTop(l: seq<nat>, maxbits: nat, n: nat)
    requires n <= |l| && forall i | 0 <= i < |l| :: 1 <= l[i] <= maxbits
    ensures CutKraft(l, maxbits, maxbits, n) == Kraft(l, maxbits, n)
  {
    if n > 0 {
      CutKraftTop(l, maxbits, n - 1);
      assert 1 <= l[n - 1];
    }
  }

  /** How far a code's item count at height h can fall short of 2n. */
  lemma {:induction false} ItemsShortfall(l: seq<nat>, maxbits: nat, h: nat)
    requires 1 <= h <= maxbits && forall i | 0 <= i < |l| :: l[i] <= maxbits
    ensures Scale(2 * |l| - DeepItems(l, maxbits, h), h - 1) < CutKraft(l, maxbits, h, |l|) + Pow2(h - 1)
  {
    var n := |l|;
    var below := n - CountGe(l, maxbits - h + 1, n);
    CutKraftStep(l, maxbits, h, n);
    if h == 1 {
      CutKraftBase(l, maxbits, n);
      assert DeepItems(l, maxbits, 0) == 0;
    } else {
      ItemsShortfall(l, maxbits, h - 1);
      var s := 2 * n - DeepItems(l, maxbits, h - 1);
      var s' := 2 * n - DeepItems(l, maxbits, h);
      HalfShortfall(s, s' - below, h, CutKraft(l, maxbits, h - 1, n));
      ScaleAdd(s' - below, below, h - 1);
    }
  }

  lemma {:induction false} HalfShortfall(s: int, t: int, h: nat, x: nat)
    requires h >= 2 && 2 * t <= s + 1
    requires Scale(s, h - 2) < x + Pow2(h - 2)
    ensures Scale(t, h - 1) < x + Pow2(h - 1)
  {
    ScaleAdd(t, t, h - 2);
    ScaleAdd(s, 1, h - 2);
    ScaleOne(h - 2);
    ScaleMonotone(t + t, s + 1, h - 2);
  }

  lemma {:induction false} KraftNeedsItems(l: seq<nat>, maxbits: nat)
    requires maxbits >= 1 && forall i | 0 <= i < |l| :: 1 <= l[i] <= maxbits
    requires Kraft(l, maxbits, |l|) <= Pow2(maxbits)
    ensures DeepItems(l, maxbits, maxbits) >= 2 * |l| - 2
  {
    ItemsShortfall(l, maxbits, maxbits);
    CutKraftTop(l, maxbits, |l|);
    var s := 2 * |l| - DeepItems(l, maxbits, maxbits);
    ScaleOne(maxbits - 1);
    ScaleAdd(1, 1, maxbits - 1);
    ScaleAdd(2, 1, maxbits - 1);
    ScaleMonotone(s, 3, maxbits - 1);
  }

  // ----- Weighted lengths --------------------------------------------------------

  /** The number of bits the first n leaves take: the sum of weight times length. */
  function Bits(w: seq<nat>, l: seq<nat>, n: nat): nat
    requires n <= |w| && n <= |l|
  {
    if n == 0 then 0 else Bits(w, l, n - 1) + w[n - 1] * l[n - 1]
  }

  function BitsBelow(w: seq<nat>, l: seq<nat>, off: nat, n: nat): nat
    requires n <= |w| && n <= |l|
  {
    if n == 0 then 0
    else BitsBelow(w, l, off, n - 1) + w[n - 1] * (if l[n - 1] > off then l[n - 1] - off else 0)
  }

  lemma {:induction false} BitsBelowStep(w: seq<nat>, l: seq<nat>, off: nat, n: nat)
    requires n <= |w| && n <= |l|
    ensures BitsBelow(w, l, off, n) == BitsBelow(w, l, off + 1, n) + CostGe(w, l, off + 1, n)
  {
    if n > 0 {
      BitsBelowStep(w, l, off, n - 1);
      if l[n - 1] > off {
        Distribute(w[n - 1], l[n - 1] - off - 1);
      }
    }
  }

  lemma {:induction false} Distribute(x: nat, y: nat)
    ensures x * (y + 1) == x * y + x
  {
  }

  lemma {:induction false} BitsBelowEnds(w: seq<nat>, l: seq<nat>, maxbits: nat, n: nat)
    requires n <= |w| && n <= |l| && forall i | 0 <= i < |l| :: l[i] <= maxbits
    ensures BitsBelow(w, l, maxbits, n) == 0
    ensures BitsBelow(w, l, 0, n) == Bits(w, l, n)
  {
    if n > 0 {
      BitsBelowEnds(w, l, maxbits, n - 1);
      assert l[n - 1] <= maxbits;
    }
  }

  lemma {:induction false} DeepCostIsBits(w: seq<nat>, l: seq<nat>, maxbits: nat, h: nat)
    requires |w| == |l| && h <= maxbits && forall i | 0 <= i < |l| :: l[i] <= maxbits
    ensures DeepCost(w, l, maxbits, h) == BitsBelow(w, l, maxbits - h, |w|)
  {
    if h == 0 {
      BitsBelowEnds(w, l, maxbits, |w|);
    } else {
      DeepCostIsBits(w, l, maxbits, h - 1);
      BitsBelowStep(w, l, maxbits - h, |w|);
    }
  }

  // ----- The cost of the code read off a chain -------------------------------------

  function ChainCost(w: seq<nat>, ch: Chain, n: nat, d: nat): nat
    requires WellFormed(ch, n, d) && n <= |w|
  {
    match ch
    case End => 0
    case Link(_, c, t) => PrefixSum(w, c) + ChainCost(w, t, c, d - 1)
  }

  lemma {:induction false} ChainCostStable(w: seq<nat>, ch: Node, n: nat, n': nat, d: nat)
    requires WellFormed(ch, n, d) && WellFormed(ch, n', d) && n <= |w| && n' <= |w|
    ensures ChainCost(w, ch, n, d) == ChainCost(w, ch, n', d)
  {
  }

  /** A chain costs what the items it stands for weigh. */
  lemma {:induction false} ChainCostIsWeight(w: seq<nat>, d: nat, k: nat)
    requires Leaves(w) && 1 <= k <= |Level(w, d)|
    requires WellFormed(Level(w, d)[k - 1], |w|, d)
    ensures ChainCost(w, Level(w, d)[k - 1], |w|, d) == WeightSum(Level(w, d), k)
    decreases d
  {
    hide Level, WellFormed, Value, Item, LeafCount, WeightSum, PrefixSum;
    var prev := Level(w, d - 1);
    LevelStep(w, d, k);
    LevelUnfold(w, d);
    var c := LeafCount(w, prev, k);
    var m := k - c;
    MergedSum(w, prev, k);
    ItemTail(w, prev, k);
    var it := Item(w, prev, k);
    TailFits(it, |w|, d);
    if m > 0 {
      LevelShape(w, d - 1, 2 * m);
      ChainCostIsWeight(w, d - 1, 2 * m);
      ChainCostStable(w, prev[2 * m - 1], |w|, c, d - 1);
    } else {
      WeightSumNone(prev);
    }
  }

  lemma {:induction false} WeightSumNone(list: seq<Node>)
    ensures WeightSum(list, 0) == 0
  {
  }

  lemma {:induction false} LevelUnfold(w: seq<nat>, d: nat)
    requires d > 0
    ensures Level(w, d) == Merged(w, Level(w, d - 1))
  {
  }

  lemma {:induction false} TailFits(it: Node, n: nat, d: nat)
    requires WellFormed(it, n, d)
    ensures d > 0 && it.count <= n && WellFormed(it.tail, it.count, d - 1)
  {
  }

  /** The lengths a chain gives to the leaves, lightest first. */
  function ChainLengths(ch: Chain, n: nat): (l: seq<nat>)
    ensures |l| == n && forall i | 0 <= i < n :: l[i] == ChainLength(ch, i)
  {
    seq(n, i requires i >= 0 => ChainLength(ch, i))
  }

  function ChainBits(w: seq<nat>, ch: Chain, n: nat): nat
    requires n <= |w|
  {
    if n == 0 then 0 else ChainBits(w, ch, n - 1) + w[n - 1] * ChainLength(ch, n - 1)
  }

  lemma {:induction false} ChainBitsSplit(w: seq<nat>, ch: Node, n: nat, d: nat, bound: nat)
    requires WellFormed(ch, bound, d) && n <= |w| && bound <= |w|
    ensures n <= ch.count ==> ChainBits(w, ch, n) == PrefixSum(w, n) + ChainBits(w, ch.tail, n)
    ensures n >= ch.count ==>
              ChainBits(w, ch, n) == PrefixSum(w, ch.count) + ChainBits(w, ch.tail, ch.count)
  {
    if n > 0 {
      ChainBitsSplit(w, ch, n - 1, d, bound);
      if n > ch.count {
        InactiveLeaf(ch.tail, n - 1, ch.count, d - 1);
        assert ChainLength(ch, n - 1) == 0;
      } else {
        Distribute(w[n - 1], ChainLength(ch.tail, n - 1));
        assert ChainLength(ch, n - 1) == ChainLength(ch.tail, n - 1) + 1;
      }
    }
  }

  lemma {:induction false} ChainBitsIsCost(w: seq<nat>, ch: Chain, n: nat, d: nat)
    requires WellFormed(ch, n, d) && n <= |w|
    ensures ChainBits(w, ch, n) == ChainCost(w, ch, n, d)
  {
    match ch
    case End =>
      ChainBitsEnd(w, n);
    case Link(_, c, t) =>
      ChainBitsSplit(w, ch, n, d, n);
      ChainBitsIsCost(w, t, c, d - 1);
  }

  lemma {:induction false} ChainBitsEnd(w: seq<nat>, n: nat)
    requires n <= |w|
    ensures ChainBits(w, End, n) == 0
  {
    if n > 0 {
      ChainBitsEnd(w, n - 1);
    }
  }

  lemma {:induction false} BitsOfChain(w: seq<nat>, ch: Chain, n: nat, m: nat)
    requires n <= m <= |w|
    ensures Bits(w, ChainLengths(ch, m), n) == ChainBits(w, ch, n)
  {
    if n > 0 {
      BitsOfChain(w, ch, n - 1, m);
    }
  }

  /** Minimum redundancy: the code of the last chain is at most as long as any code
      that respects the limit and the Kraft inequality. */
  lemma {:induction false} CodeIsMinimal(w: seq<nat>, maxbits: nat, l: seq<nat>)
    requires Leaves(w) && 2 <= |w| <= Pow2(maxbits) && maxbits >= 1
    requires |l| == |w| && forall i | 0 <= i < |l| :: 1 <= l[i] <= maxbits
    requires Kraft(l, maxbits, |l|) <= Pow2(maxbits)
    ensures Bits(w, ChainLengths(CodeChain(w, maxbits), |w|), |w|) <= Bits(w, l, |w|)
  {
    hide Level, WellFormed, Value, WeightSum, Bits, Kraft, DeepCost, DeepItems, Pow2, ChainBits;
    var n, ch := |w|, CodeChain(w, maxbits);
    EnoughItems(w, maxbits);
    CodeChainShape(w, maxbits);
    BitsOfChain(w, ch, n, n);
    ChainBitsIsCost(w, ch, n, maxbits);
    ChainCostIsWeight(w, maxbits, 2 * n - 2);
    KraftNeedsItems(l, maxbits);
    LevelIsMinimal(w, l, maxbits, maxbits);
    WeightSumMonotone(Level(w, maxbits), 2 * n - 2, DeepItems(l, maxbits, maxbits));
    DeepCostIsBits(w, l, maxbits, maxbits);
    BitsBelowEnds(w, l, maxbits, n);
  }
}
