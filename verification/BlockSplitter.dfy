/**
 The block splitter: where to cut LZ77 data into blocks. For every cost function it
 terminates and cuts strictly inside the data; the cuts, converted to byte positions,
 cut the input strictly inside as well.
 */
module BlockSplitter {
  import opened Lz77Store
  import opened Greedy
  import opened CostModel
  import opened LongestMatch
  import opened SqueezeRuns

  // ----- Searching for a minimum --------------------------------------------------------

  /** No position tried is better than r. */
  ghost predicate BestOf(f: nat -> real, tried: set<nat>, r: nat) {
    forall t | t in tried :: f(t) < LARGE ==> f(r) <= f(t)
  }

  /** The first position where f is least, or the first of all when it is nowhere below the
      initial value. */
  ghost predicate IsLeast(f: nat -> real, start: nat, end: nat, r: nat) {
    if forall i: nat | start <= i < end :: f(i) >= LARGE then r == start
    else
      && start <= r < end && (forall i: nat | start <= i < end :: f(r) <= f(i))
      && (forall i: nat | start <= i < r :: f(r) < f(i))
  }

  /** Few positions: all are tried. */
  method FindMinimumExact(f: nat -> real, start: nat, end: nat) returns (r: nat, ghost tried: set<nat>)
    requires start <= end
    ensures start < end ==> start <= r < end
    ensures BestOf(f, tried, r) && (forall i: nat :: i in tried <==> start <= i < end)
    ensures IsLeast(f, start, end, r)
  {
    var best := LARGE;
    r := start;
    tried := {};
    for i := start to end
      invariant start <= r && (r < i || r == start)
      invariant forall t: nat :: t in tried <==> start <= t < i
      invariant best == LARGE || best == f(r)
      invariant forall t | t in tried :: f(t) < LARGE ==> best <= f(t)
      invariant best <= LARGE && IsLeast(f, start, i, r) && (best == LARGE ==> r == start)
    {
      var v := f(i);
      tried := tried + {i};
      if v < best {
        best := v;
        r := i;
      }
    }
  }

  /** The i-th of nine positions spread over a range. */
  function Spot(start: nat, step: nat, i: nat): nat {
    start + (i + 1) * step
  }

  /** The first of the best among the first n of them. */
  function BestSpot(f: nat -> real, start: nat, step: nat, n: nat): (b: nat)
    requires n > 0
    ensures b < n && (forall i: nat | i < n :: f(Spot(start, step, b)) <= f(Spot(start, step, i)))
    ensures forall i: nat | i < b :: f(Spot(start, step, b)) < f(Spot(start, step, i))
  {
    if n == 1 then 0
    else
      var b := BestSpot(f, start, step, n - 1);
      if f(Spot(start, step, n - 1)) < f(Spot(start, step, b)) then n - 1 else b
  }

  /** Where the search ends: the range shrinks to the neighbours of the best spot until it
      has at most nine positions or the best spot is worse than the one before. */
  function Narrowed(f: nat -> real, start: nat, end: nat, last: real, pos: nat): nat
    requires start <= end
    decreases end - start
  {
    if end - start <= 9 then pos
    else
      var step := (end - start) / 10;
      var b := BestSpot(f, start, step, 9);
      var spot := Spot(start, step, b);
      if f(spot) > last then pos
      else
        SpotsAround(start, end, b);
        Narrowed(f, if b == 0 then start else Spot(start, step, b - 1),
                 if b == 8 then end else Spot(start, step, b + 1), f(spot), spot)
  }

  lemma {:induction false} SpotsAround(start: nat, end: nat, b: nat)
    requires start + 9 < end && b < 9
    ensures var step := (end - start) / 10;
            && start < Spot(start, step, b) < end
            && (b > 0 ==> start < Spot(start, step, b - 1) < Spot(start, step, b))
            && (b < 8 ==> Spot(start, step, b) < Spot(start, step, b + 1) < end)
  {
    hide Spot;
    SpotsInside(start, end, b);
    if b > 0 {
      SpotsInside(start, end, b - 1);
    }
    if b < 8 {
      SpotsInside(start, end, b + 1);
    }
  }

  lemma {:induction false} SpotsInside(start: nat, end: nat, i: nat)
    requires start + 9 < end && i < 9
    ensures var step := (end - start) / 10;
            start < Spot(start, step, i) < end && (i > 0 ==> Spot(start, step, i - 1) < Spot(start, step, i))
  {
    var step := (end - start) / 10;
    assert (i + 1) * step == i * step + step;
    MultipleBounds(i, step);
  }

  lemma {:induction false} MultipleBounds(i: nat, step: nat)
    requires i < 9
    ensures 0 <= i * step <= 8 * step
  {
  }

  /** Nine positions spread over the range, and the first of the best among them. */
  method Probe(f: nat -> real, start: nat, end: nat)
    returns (p: seq<nat>, besti: nat, best: real, ghost tried: set<nat>)
    requires start + 9 < end
    ensures |p| == 9 && besti < 9 && best == f(p[besti]) && p[besti] in tried && FirstRound(start, end, tried)
    ensures var step := (end - start) / 10;
            besti == BestSpot(f, start, step, 9) && forall i: nat | i < 9 :: p[i] == Spot(start, step, i)
    ensures forall i | 0 <= i < 9 :: start < p[i] < end && (i > 0 ==> p[i - 1] < p[i])
    ensures forall t | t in tried :: best <= f(t)
  {
    hide Spot, BestSpot;
    var step := (end - start) / 10;
    p := [];
    var vp: seq<real> := [];
    tried := {};
    for i := 0 to 9
      invariant |p| == |vp| == i
      invariant forall k | 0 <= k < i :: p[k] == Spot(start, step, k) && vp[k] == f(p[k]) && p[k] in tried
      invariant forall k | 0 <= k < i :: start < p[k] < end && (k > 0 ==> p[k - 1] < p[k])
      invariant forall t | t in tried :: t in p
    {
      SpotsInside(start, end, i);
      var x := Spot(start, step, i);
      p := p + [x];
      vp := vp + [f(x)];
      tried := tried + {x};
      assert p[i] == x;
    }
    besti := FirstBest(vp);
    best := vp[besti];
    BestIs(f, start, step, vp, besti);
  }

  lemma {:induction false} BestIs(f: nat -> real, start: nat, step: nat, vp: seq<real>, b: nat)
    requires |vp| == 9 && b < 9 && (forall k: nat | k < 9 :: vp[k] == f(Spot(start, step, k)))
    requires (forall k | 0 <= k < 9 :: vp[b] <= vp[k]) && (forall k | 0 <= k < b :: vp[b] < vp[k])
    ensures b == BestSpot(f, start, step, 9)
  {
    hide Spot, BestSpot;
    var c := BestSpot(f, start, step, 9);
    assert vp[c] == f(Spot(start, step, c)) && vp[b] == f(Spot(start, step, b));
  }

  /** The first of the least values. */
  method FirstBest(vp: seq<real>) returns (besti: nat)
    requires |vp| == 9
    ensures besti < 9 && (forall k | 0 <= k < 9 :: vp[besti] <= vp[k])
            && (forall k | 0 <= k < besti :: vp[besti] < vp[k])
  {
    besti := 0;
    var best := vp[0];
    for i := 1 to 9
      invariant besti < i && best == vp[besti] && (forall k | 0 <= k < i :: best <= vp[k])
      invariant forall k | 0 <= k < besti :: best < vp[k]
    {
      if vp[i] < best {
        best, besti := vp[i], i;
      }
    }
  }

  /** The nine positions of the first round. */
  ghost predicate FirstRound(start: nat, end: nat, tried: set<nat>)
    requires start <= end
  {
    var step := (end - start) / 10;
    forall i: nat | i < 9 :: Spot(start, step, i) in tried
  }

  lemma {:induction false} FirstRoundKept(start: nat, end: nat, a: set<nat>, b: set<nat>)
    requires start <= end && FirstRound(start, end, a) && a <= b
    ensures FirstRound(start, end, b)
  {
    hide Spot;
  }

  /** Many positions: the range is narrowed around the best of nine until that no longer
      helps. */
  method FindMinimumNarrowing(f: nat -> real, start0: nat, end0: nat) returns (pos: nat, ghost tried: set<nat>)
    requires start0 + 9 < end0
    ensures start0 <= pos < end0 && BestOf(f, tried, pos) && FirstRound(start0, end0, tried)
    ensures pos == Narrowed(f, start0, end0, LARGE, start0)
    ensures (exists t :: t in tried && f(t) <= LARGE) ==> pos in tried
  {
    hide Spot, FirstRound, BestSpot;
    var start, end := start0, end0;
    var lastbest := LARGE;
    pos := start;
    tried := {};
    while end - start > 9
      invariant start0 <= start <= end <= end0 && start0 <= pos < end0
      invariant tried == {} ==> start == start0 && end == end0 && lastbest == LARGE
      invariant tried != {} ==> FirstRound(start0, end0, tried) && pos in tried && lastbest == f(pos) <= LARGE
      invariant forall t | t in tried :: lastbest <= f(t)
      invariant Narrowed(f, start, end, lastbest, pos) == Narrowed(f, start0, end0, LARGE, start0)
      decreases end - start
    {
      var p, besti, best;
      ghost var now;
      p, besti, best, now := Probe(f, start, end);
      if tried != {} {
        FirstRoundKept(start0, end0, tried, tried + now);
      } else {
        FirstRoundKept(start0, end0, now, tried + now);
      }
      tried := tried + now;
      if best > lastbest {
        return;
      }
      start := if besti == 0 then start else p[besti - 1];
      end := if besti == 8 then end else p[besti + 1];
      pos := p[besti];
      lastbest := best;
    }
  }

  /** The position at which f is least among those tried: all of them in a range of fewer
      than 1024, at least nine spread over it otherwise. */
  method FindMinimum(f: nat -> real, start: nat, end: nat) returns (r: nat, ghost tried: set<nat>)
    requires start <= end
    ensures start < end ==> start <= r < end
    ensures BestOf(f, tried, r)
    ensures end - start < 1024 ==> forall i: nat | start <= i < end :: i in tried
    ensures end - start >= 1024 ==> FirstRound(start, end, tried)
    ensures (exists t :: t in tried && f(t) < LARGE) ==> r in tried
    ensures if end - start < 1024 then IsLeast(f, start, end, r) else r == Narrowed(f, start, end, LARGE, start)
  {
    if end - start < 1024 {
      r, tried := FindMinimumExact(f, start, end);
    } else {
      r, tried := FindMinimumNarrowing(f, start, end);
    }
  }

  // ----- Split points ---------------------------------------------------------------------

  /** Strictly increasing and strictly between lo and hi. */
  ghost predicate Inside(points: seq<nat>, lo: nat, hi: nat) {
    && (forall i | 0 <= i < |points| :: lo < points[i] < hi)
    && (forall i, j | 0 <= i < j < |points| :: points[i] < points[j])
  }

  lemma {:induction false} FewPoints(points: seq<nat>, lo: nat, hi: nat, k: nat)
    requires Inside(points, lo, hi) && k < |points|
    ensures lo + k < points[k]
    decreases k
  {
    if k > 0 {
      FewPoints(points, lo, hi, k - 1);
    }
  }

  /** Where the first value larger than the given one stands. */
  function FirstLarger(points: seq<nat>, value: nat): (k: nat)
    ensures k <= |points| && (forall i | 0 <= i < k :: points[i] <= value) && (k < |points| ==> points[k] > value)
  {
    if points == [] || points[0] > value then 0 else 1 + FirstLarger(points[1..], value)
  }

  function Inserted(points: seq<nat>, value: nat): seq<nat> {
    var k := FirstLarger(points, value);
    points[..k] + [value] + points[k..]
  }

  /** Inserts a value before the first larger one: appended, then moved down. */
  method AddSorted(value: nat, points: seq<nat>) returns (out: seq<nat>)
    ensures out == Inserted(points, value)
  {
    hide FirstLarger;
    out := points + [value];
    ghost var k := FirstLarger(points, value);
    var i := 0;
    while i < |out| - 1
      invariant 0 <= i <= |points| && out == points + [value] && i <= k
    {
      if out[i] > value {
        assert i == k;
        var j := |out| - 1;
        while j > i
          invariant i <= j <= |points| && |out| == |points| + 1
          invariant forall x | 0 <= x < j :: out[x] == points[x]
          invariant forall x | j < x < |out| :: out[x] == points[x - 1]
        {
          out := out[j := out[j - 1]];
          j := j - 1;
        }
        out := out[i := value];
        return;
      }
      i := i + 1;
    }
  }

  function BlockStart(points: seq<nat>, i: nat): nat
    requires i <= |points|
  {
    if i == 0 then 0 else points[i - 1]
  }

  /** The end of block i as the splitter sees it: the last item of all is left out. */
  function BlockEnd(points: seq<nat>, llsize: nat, i: nat): nat
    requires i <= |points| && llsize > 0
  {
    if i == |points| then llsize - 1 else points[i]
  }

  ghost predicate Splittable(points: seq<nat>, llsize: nat, done: seq<bool>, i: nat)
    requires i <= |points| && llsize > 0 && |done| == llsize && Inside(points, 0, llsize)
  {
    !done[BlockStart(points, i)] && BlockEnd(points, llsize, i) > BlockStart(points, i)
  }

  /** The largest block not done with. */
  method FindLargestSplittableBlock(llsize: nat, done: seq<bool>, points: seq<nat>)
    returns (found: bool, lstart: nat, lend: nat, ghost block: nat)
    requires llsize > 0 && |done| == llsize && Inside(points, 0, llsize)
    ensures found <==> exists i: nat :: i <= |points| && Splittable(points, llsize, done, i)
    ensures found ==>
              && block <= |points| && lstart == BlockStart(points, block) && lend == BlockEnd(points, llsize, block)
              && Splittable(points, llsize, done, block)
              && forall i: nat | i <= |points| && Splittable(points, llsize, done, i) ::
                   BlockEnd(points, llsize, i) - BlockStart(points, i) <= lend - lstart
  {
    var longest := 0;
    found, lstart, lend, block := false, 0, 0, 0;
    for i := 0 to |points| + 1
      invariant found <==> exists k: nat :: k < i && Splittable(points, llsize, done, k)
      invariant !found ==> longest == 0
      invariant found ==>
                  && block < i && lstart == BlockStart(points, block) && lend == BlockEnd(points, llsize, block)
                  && Splittable(points, llsize, done, block) && longest == lend - lstart
      invariant forall k: nat | k < i && Splittable(points, llsize, done, k) ::
                  BlockEnd(points, llsize, k) - BlockStart(points, k) <= longest
    {
      var start := if i == 0 then 0 else points[i - 1];
      var end := if i == |points| then llsize - 1 else points[i];
      assert Splittable(points, llsize, done, i) <==> !done[start] && end > start;
      if !done[start] && end - start > longest {
        lstart, lend, block := start, end, i;
        found := true;
        longest := end - start;
      }
    }
  }

  function Open(done: seq<bool>): nat {
    if done == [] then 0 else Open(done[1..]) + (if done[0] then 0 else 1)
  }

  lemma {:induction false} CloseOne(done: seq<bool>, i: nat)
    requires i < |done| && !done[i]
    ensures Open(done[i := true]) == Open(done) - 1
  {
    if i == 0 {
      assert done[0 := true][1..] == done[1..];
    } else {
      CloseOne(done[1..], i - 1);
      assert done[i := true][1..] == done[1..][i - 1 := true];
    }
  }

  /** A block start, and a place inside the block. */
  ghost predicate BlockAt(points: seq<nat>, llsize: nat, block: nat, lstart: nat, lend: nat) {
    block <= |points| && lstart == BlockStart(points, block)
    && lend <= (if block == |points| then llsize else points[block])
  }

  lemma {:induction false} SplitInside(points: seq<nat>, llsize: nat, block: nat, lstart: nat, lend: nat, value: nat)
    requires Inside(points, 0, llsize) && BlockAt(points, llsize, block, lstart, lend) && lstart < value < lend
    ensures Inside(Inserted(points, value), 0, llsize) && |Inserted(points, value)| == |points| + 1
    ensures FirstLarger(points, value) == block && value !in points
  {
    hide FirstLarger;
    assert forall i | 0 <= i < |points| :: points[i] != value;
  }

  // ----- Which cuts pay ---------------------------------------------------------------------

  /** The cost of two halves, by where they meet. */
  function SplitCost(cost: (nat, nat) -> real, a: nat, b: nat): nat -> real {
    (i: nat) => cost(a, i) + cost(i, b)
  }

  /** Position p may be the answer of the search for the best place to cut from a to b. */
  ghost predicate ChosenAmong(cost: (nat, nat) -> real, a: nat, b: nat, p: nat, tried: set<nat>) {
    var f := SplitCost(cost, a, b);
    && a < p < b && BestOf(f, tried, p)
    && (b - a <= 1024 ==> forall i: nat | a < i < b :: i in tried)
    && (b - a > 1024 ==> FirstRound(a + 1, b, tried))
    && ((exists t :: t in tried && f(t) < LARGE) ==> p in tried)
    && (if b - a <= 1024 then IsLeast(f, a + 1, b, p) else p == Narrowed(f, a + 1, b, LARGE, a + 1))
  }

  ghost predicate Chosen(cost: (nat, nat) -> real, a: nat, b: nat, p: nat) {
    exists tried :: ChosenAmong(cost, a, b, p, tried)
  }

  /** From a to b the place chosen costs more than no cut, or is the excluded first one. */
  ghost predicate NotWorthAt(cost: (nat, nat) -> real, a: nat, b: nat, p: nat) {
    Chosen(cost, a, b, p) && (cost(a, p) + cost(p, b) > cost(a, b) || p == a + 1)
  }

  ghost predicate NotWorth(cost: (nat, nat) -> real, a: nat, b: nat) {
    exists p :: NotWorthAt(cost, a, b, p)
  }

  /** A cut at p between a and b, where it was chosen and costs no more than no cut. Each of
      a and b is a cut or an end as the splitter sees it. */
  ghost predicate PaysAt(cost: (nat, nat) -> real, points: seq<nat>, llsize: nat, p: nat, a: nat, b: nat) {
    && (a == 0 || a in points) && (b in points || b == llsize - 1 || b == llsize)
    && Chosen(cost, a, b, p) && p != a + 1 && cost(a, p) + cost(p, b) <= cost(a, b)
  }

  ghost predicate Pays(cost: (nat, nat) -> real, points: seq<nat>, llsize: nat, p: nat) {
    exists a, b :: PaysAt(cost, points, llsize, p, a, b)
  }

  ghost predicate AllPay(cost: (nat, nat) -> real, points: seq<nat>, llsize: nat) {
    forall p | p in points :: Pays(cost, points, llsize, p)
  }

  /** Why nothing more was cut: the limit was reached, or no block is both worth cutting and
      of at least ten items. Without any cut that is said of the data as a whole. */
  ghost predicate Finished(cost: (nat, nat) -> real, points: seq<nat>, llsize: nat, maxblocks: nat)
    requires llsize > 0
  {
    || (maxblocks > 0 && |points| + 1 == maxblocks)
    || (points == [] && NotWorth(cost, 0, llsize))
    || (points != [] && forall i: nat | i <= |points| :: Settled(cost, points, llsize, i))
  }

  ghost predicate Settled(cost: (nat, nat) -> real, points: seq<nat>, llsize: nat, i: nat)
    requires i <= |points| && llsize > 0
  {
    var a, b := BlockStart(points, i), BlockEnd(points, llsize, i);
    NotWorth(cost, a, b) || b - a < 10
  }

  /** What the splitter promises of its cuts. */
  ghost predicate GoodSplit(cost: (nat, nat) -> real, points: seq<nat>, llsize: nat, maxblocks: nat) {
    && Inside(points, 0, llsize) && (maxblocks > 0 ==> |points| < maxblocks)
    && (llsize < 10 ==> points == [])
    && (llsize >= 10 ==> AllPay(cost, points, llsize) && Finished(cost, points, llsize, maxblocks))
  }

  /** The blocks done with are those not worth cutting. */
  ghost predicate DoneOk(cost: (nat, nat) -> real, points: seq<nat>, llsize: nat, done: seq<bool>)
    requires llsize > 0
  {
    && |done| == llsize && Inside(points, 0, llsize)
    && (forall x: nat | x < llsize && done[x] :: x == 0 || x in points)
    && (forall i: nat | i <= |points| && done[BlockStart(points, i)] ::
          NotWorth(cost, BlockStart(points, i), BlockEnd(points, llsize, i)))
  }

  lemma {:induction false} PaysMore(cost: (nat, nat) -> real, points: seq<nat>, llsize: nat, value: nat, a: nat, b: nat)
    requires AllPay(cost, points, llsize) && PaysAt(cost, points, llsize, value, a, b)
    ensures AllPay(cost, Inserted(points, value), llsize)
  {
    hide PaysAt, Inserted;
    var out := Inserted(points, value);
    InsertedHolds(points, value);
    forall p | p in out
      ensures Pays(cost, out, llsize, p)
    {
      if p == value {
        PaysStill(cost, points, out, llsize, p, a, b);
      } else {
        assert p in points && Pays(cost, points, llsize, p);
        var x, y :| PaysAt(cost, points, llsize, p, x, y);
        PaysStill(cost, points, out, llsize, p, x, y);
      }
    }
  }

  lemma {:induction false} PaysStill(cost: (nat, nat) -> real, points: seq<nat>, out: seq<nat>, llsize: nat, p: nat,
                                     a: nat, b: nat)
    requires PaysAt(cost, points, llsize, p, a, b) && forall x | x in points :: x in out
    ensures PaysAt(cost, out, llsize, p, a, b)
  {
    hide Chosen;
  }

  lemma {:induction false} InsertedHolds(points: seq<nat>, value: nat)
    ensures forall x :: x in Inserted(points, value) <==> x == value || x in points
  {
    hide FirstLarger;
    var k := FirstLarger(points, value);
    assert points == points[..k] + points[k..];
  }

  /** The blocks after a cut: two new ones, the others as before. */
  lemma {:induction false} BlocksAfter(points: seq<nat>, llsize: nat, block: nat, value: nat, i: nat)
    requires Inside(points, 0, llsize) && FirstLarger(points, value) == block && i <= |points| + 1
    ensures |Inserted(points, value)| == |points| + 1
    ensures var out := Inserted(points, value);
            && (i < block ==> BlockStart(out, i) == BlockStart(points, i)
                              && BlockEnd(out, llsize, i) == BlockEnd(points, llsize, i))
            && (i == block ==> BlockStart(out, i) == BlockStart(points, i))
            && (i == block + 1 ==> BlockStart(out, i) == value)
            && (i > block + 1 ==> BlockStart(out, i) == BlockStart(points, i - 1)
                                  && BlockEnd(out, llsize, i) == BlockEnd(points, llsize, i - 1))
    requires llsize > 0
  {
    hide FirstLarger;
  }

  lemma {:induction false} DoneAfter(cost: (nat, nat) -> real, points: seq<nat>, llsize: nat, done: seq<bool>,
                                     block: nat, lstart: nat, lend: nat, value: nat)
    requires llsize > 0 && DoneOk(cost, points, llsize, done) && BlockAt(points, llsize, block, lstart, lend)
    requires lstart < value < lend && !done[lstart]
    ensures DoneOk(cost, Inserted(points, value), llsize, done)
  {
    hide NotWorth, FirstLarger;
    SplitInside(points, llsize, block, lstart, lend, value);
    var out := Inserted(points, value);
    assert points == points[..block] + points[block..];
    assert !done[value];
    forall i: nat | i <= |out| && done[BlockStart(out, i)]
      ensures NotWorth(cost, BlockStart(out, i), BlockEnd(out, llsize, i))
    {
      BlocksAfter(points, llsize, block, value, i);
    }
  }

  lemma {:induction false} CloseBlock(cost: (nat, nat) -> real, points: seq<nat>, llsize: nat, done: seq<bool>,
                                      block: nat)
    requires llsize > 0 && DoneOk(cost, points, llsize, done) && block <= |points|
    requires NotWorth(cost, BlockStart(points, block), BlockEnd(points, llsize, block))
    ensures DoneOk(cost, points, llsize, done[BlockStart(points, block) := true])
  {
    hide NotWorth;
    var done' := done[BlockStart(points, block) := true];
    forall i: nat | i <= |points| && done'[BlockStart(points, i)]
      ensures NotWorth(cost, BlockStart(points, i), BlockEnd(points, llsize, i))
    {
      assert BlockStart(points, i) == BlockStart(points, block) ==> i == block;
    }
  }

  /** The best place to cut, and whether the cut pays. */
  method TryCut(cost: (nat, nat) -> real, lstart: nat, lend: nat) returns (llpos: nat, pays: bool)
    requires lstart + 10 <= lend
    ensures lstart < llpos < lend && Chosen(cost, lstart, lend, llpos)
    ensures pays <==> llpos != lstart + 1 && cost(lstart, llpos) + cost(llpos, lend) <= cost(lstart, lend)
    ensures !pays ==> NotWorth(cost, lstart, lend)
  {
    ghost var tried;
    llpos, tried := FindMinimum(SplitCost(cost, lstart, lend), lstart + 1, lend);
    assert ChosenAmong(cost, lstart, lend, llpos, tried);
    var splitcost := cost(lstart, llpos) + cost(llpos, lend);
    var origcost := cost(lstart, lend);
    pays := !(splitcost > origcost || llpos == lstart + 1 || llpos == lend);
    if !pays {
      assert NotWorthAt(cost, lstart, lend, llpos);
    }
  }

  /** Nothing is left to cut. */
  lemma {:induction false} AllSettled(cost: (nat, nat) -> real, points: seq<nat>, llsize: nat, done: seq<bool>,
                                      largest: int)
    requires llsize > 0 && DoneOk(cost, points, llsize, done) && points != [] && largest < 10
    requires forall i: nat | i <= |points| && Splittable(points, llsize, done, i) ::
               BlockEnd(points, llsize, i) - BlockStart(points, i) <= largest
    ensures forall i: nat | i <= |points| :: Settled(cost, points, llsize, i)
  {
    hide NotWorth;
    forall i: nat | i <= |points|
      ensures Settled(cost, points, llsize, i)
    {
      assert Splittable(points, llsize, done, i) ==> BlockEnd(points, llsize, i) - BlockStart(points, i) < 10;
    }
  }

  lemma {:induction false} NoneLeft(llsize: nat, done: seq<bool>)
    requires llsize > 0 && |done| == llsize && done[0]
    ensures Inside([], 0, llsize) && forall i: nat | i <= 0 :: !Splittable([], llsize, done, i)
  {
  }

  /** Where the search for the next cut takes place: over all the data at first, then in a
      block not done with. */
  ghost predicate Searching(points: seq<nat>, llsize: nat, block: nat, lstart: nat, lend: nat)
    requires llsize > 0
  {
    && block <= |points| && lstart == BlockStart(points, block) && lstart + 10 <= lend
    && lend == (if points == [] then llsize else BlockEnd(points, llsize, block))
  }

  /** Splits LZ77 data of llsize items; `cost` estimates the size of a range of items as
      one block. A cut is made where the two halves together cost no more. */
  method BlockSplitLZ77(cost: (nat, nat) -> real, llsize: nat, maxblocks: nat) returns (points: seq<nat>)
    ensures GoodSplit(cost, points, llsize, maxblocks)
  {
    points := [];
    if llsize < 10 {
      return;
    }
    hide Chosen, NotWorth, Pays, FirstLarger, Inserted, Splittable, Settled;
    var done := seq(llsize, _ => false);
    var numblocks := 1;
    var lstart: nat, lend: nat := 0, llsize;
    ghost var block: nat := 0;
    while maxblocks == 0 || numblocks < maxblocks
      invariant DoneOk(cost, points, llsize, done) && numblocks == |points| + 1 <= llsize
      invariant Searching(points, llsize, block, lstart, lend) && !done[lstart]
      invariant maxblocks > 0 ==> numblocks <= maxblocks
      invariant AllPay(cost, points, llsize)
      decreases Open(done) + llsize - |points|
    {
      var llpos, pays := TryCut(cost, lstart, lend);
      if !pays {
        CloseOne(done, lstart);
        if points != [] {
          CloseBlock(cost, points, llsize, done, block);
        }
        done := done[lstart := true];
      } else {
        SplitInside(points, llsize, block, lstart, lend, llpos);
        DoneAfter(cost, points, llsize, done, block, lstart, lend, llpos);
        assert PaysAt(cost, points, llsize, llpos, lstart, lend);
        PaysMore(cost, points, llsize, llpos, lstart, lend);
        points := AddSorted(llpos, points);
        FewPoints(points, 0, llsize, |points| - 1);
        numblocks := numblocks + 1;
      }
      var found;
      found, lstart, lend, block := FindLargestSplittableBlock(llsize, done, points);
      if points == [] {
        NoneLeft(llsize, done);
      } else if !found || lend - lstart < 10 {
        AllSettled(cost, points, llsize, done, if found then lend - lstart else 0);
      }
      if !found || lend - lstart < 10 {
        break;
      }
    }
  }

  // ----- Byte positions -----------------------------------------------------------------------

  lemma {:induction false} SizeGrows(items: Store, a: nat, b: nat)
    requires ValidStore(items) && a <= b <= |items|
    ensures StoreSize(items[..a]) + (b - a) <= StoreSize(items[..b])
    decreases b
  {
    if a < b {
      SizeGrows(items, a, b - 1);
      assert items[..b][..b - 1] == items[..b - 1];
    }
  }

  /** Positions in the LZ77 data as positions in the input. */
  method ToBytePositions(items: Store, instart: nat, lzpoints: seq<nat>) returns (points: seq<nat>)
    requires ValidStore(items) && Inside(lzpoints, 0, |items|)
    ensures |points| == |lzpoints|
    ensures forall k | 0 <= k < |points| :: points[k] == instart + StoreSize(items[..lzpoints[k]])
    ensures Inside(points, instart, instart + StoreSize(items))
  {
    points := [];
    var pos := instart;
    if |lzpoints| > 0 {
      var i := 0;
      while i < |items|
        invariant 0 <= i <= |items| && pos == instart + StoreSize(items[..i]) && |points| < |lzpoints|
        invariant forall k | 0 <= k < |points| :: points[k] == instart + StoreSize(items[..lzpoints[k]])
        invariant i <= lzpoints[|points|] < |items|
      {
        var length := if items[i].dist == 0 then 1 else items[i].litlen;
        if lzpoints[|points|] == i {
          points := points + [pos];
          if |points| == |lzpoints| {
            break;
          }
        }
        assert items[..i + 1][..i] == items[..i];
        pos := pos + length;
        i := i + 1;
      }
    }
    PointsInside(items, instart, lzpoints, points);
  }

  lemma {:induction false} PointsInside(items: Store, instart: nat, lzpoints: seq<nat>, points: seq<nat>)
    requires ValidStore(items) && Inside(lzpoints, 0, |items|) && |points| == |lzpoints|
    requires forall k | 0 <= k < |points| :: points[k] == instart + StoreSize(items[..lzpoints[k]])
    ensures Inside(points, instart, instart + StoreSize(items))
  {
    forall i | 0 <= i < |points|
      ensures instart < points[i] < instart + StoreSize(items)
    {
      SizeGrows(items, 0, lzpoints[i]);
      SizeGrows(items, lzpoints[i], |items|);
      assert items[..|items|] == items;
    }
    forall i, j | 0 <= i < j < |points|
      ensures points[i] < points[j]
    {
      SizeGrows(items, lzpoints[i], lzpoints[j]);
    }
  }

  /** The estimated cost of a range of items as one dynamic block. */
  function EstimateCost(items: Store, lstart: nat, lend: nat): real
    requires ValidStore(items)
  {
    if lstart <= lend <= |items| then
      assert forall i | 0 <= i < lend - lstart :: items[lstart..lend][i] == items[lstart + i];
      EstimatedSize(items[lstart..lend]) as real
    else 0.0
  }

  function DynamicCosts(items: Store): (nat, nat) -> real
    requires ValidStore(items)
  {
    (a: nat, b: nat) => EstimateCost(items, a, b)
  }

  /** The byte positions of cuts between items. */
  ghost predicate BytesOf(items: Store, instart: nat, lzpoints: seq<nat>, points: seq<nat>) {
    && |points| == |lzpoints| && (forall k | 0 <= k < |lzpoints| :: lzpoints[k] <= |items|)
    && forall k | 0 <= k < |points| :: points[k] == instart + StoreSize(items[..lzpoints[k]])
  }

  /** Splits a part of the input, judging by its greedy parse. */
  method BlockSplit(data: seq<Byte>, instart: nat, inend: nat, maxblocks: nat)
    returns (points: seq<nat>, ghost lzpoints: seq<nat>)
    requires instart <= inend <= |data|
    ensures Inside(points, instart, inend)
    ensures maxblocks > 0 ==> |points| < maxblocks
    ensures var items := GreedyParse(data, instart, inend);
            && ValidStore(items) && GoodSplit(DynamicCosts(items), lzpoints, |items|, maxblocks)
            && BytesOf(items, instart, lzpoints, points)
  {
    hide EstimateCost, DynamicCosts, Inside, GreedyParse, GoodSplit, Replays, ValidStore;
    var items := LZ77Greedy(null, data, instart, inend);
    ReplaysValid(data[..instart], items, data[..inend]);
    var lz := BlockSplitLZ77(DynamicCosts(items), |items|, maxblocks);
    SplitShape(DynamicCosts(items), lz, |items|, maxblocks);
    points := ToBytePositions(items, instart, lz);
    lzpoints := lz;
  }

  lemma {:induction false} SplitShape(cost: (nat, nat) -> real, points: seq<nat>, llsize: nat, maxblocks: nat)
    requires GoodSplit(cost, points, llsize, maxblocks)
    ensures Inside(points, 0, llsize) && (maxblocks > 0 ==> |points| < maxblocks)
    ensures forall k | 0 <= k < |points| :: points[k] <= llsize
  {
    hide AllPay, Finished;
  }

  /** The k-th multiple of a block size after the start. */
  function Cut(instart: nat, blocksize: nat, k: nat): nat {
    instart + k * blocksize
  }

  lemma {:induction false} NextCut(instart: nat, blocksize: nat, k: nat)
    ensures Cut(instart, blocksize, 0) == instart
    ensures Cut(instart, blocksize, k + 1) == Cut(instart, blocksize, k) + blocksize
  {
  }

  /** Cuts every `blocksize` bytes; the first cut is at the start itself. */
  method BlockSplitSimple(instart: nat, inend: nat, blocksize: nat) returns (points: seq<nat>)
    requires blocksize > 0 && instart <= inend
    ensures forall k | 0 <= k < |points| :: points[k] < inend && points[k] == Cut(instart, blocksize, k)
    ensures Cut(instart, blocksize, |points|) >= inend
    ensures points == [] <==> instart == inend
  {
    hide Cut;
    points := [];
    var i := instart;
    NextCut(instart, blocksize, 0);
    while i < inend
      invariant i == Cut(instart, blocksize, |points|)
      invariant forall k | 0 <= k < |points| :: points[k] < inend && points[k] == Cut(instart, blocksize, k)
      invariant i >= instart && (points != [] <==> i > instart)
      decreases inend - i
    {
      NextCut(instart, blocksize, |points|);
      points := points + [i];
      i := i + blocksize;
    }
  }
}
