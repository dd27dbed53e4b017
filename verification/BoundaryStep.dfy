/**
 Boundary package-merge on values: each list keeps only its last two chains, and a
 step in one list recursively replaces the two chains it used up in the list below.
 The main result is that the chains kept are the last two items the eager merge
 would have produced, up to lookaheads past the end of an exhausted list, and that
 those are too heavy ever to be taken.
 */
module BoundaryStep {
  import opened Arith
  import opened PackageMerge
  import opened MinimumRedundancy

  /** Per list, the two lookahead chains. */
  type Lists = seq<(Node, Node)>

  function Initial(w: seq<nat>, maxbits: nat): (r: Lists)
    requires |w| >= 2
    ensures |r| == maxbits
  {
    seq(maxbits, _ => (Link(w[0], 1, End), Link(w[1], 2, End)))
  }

  /** One step in list `index`. */
  function Step(w: seq<nat>, lists: Lists, index: nat, last: bool): (r: Lists)
    requires index < |lists|
    ensures |r| == |lists|
    ensures forall j | index < j < |lists| :: r[j] == lists[j]
    decreases index
  {
    var cur := lists[index].1;
    var c := cur.count;
    if index == 0 then
      if c >= |w| then lists else lists[0 := (cur, Link(w[c], c + 1, End))]
    else
      var sum := lists[index - 1].0.weight + lists[index - 1].1.weight;
      if c < |w| && sum > w[c] then lists[index := (cur, Link(w[c], c + 1, cur.tail))]
      else
        var r := lists[index := (cur, Link(sum, c, lists[index - 1].1))];
        if last then r
        else Step(w, Step(w, r, index - 1, false), index - 1, false)
  }

  /** `k` steps in the last list, the last of them final when `last`. */
  function Run(w: seq<nat>, lists: Lists, k: nat): (r: Lists)
    requires |lists| >= 1
    ensures |r| == |lists|
  {
    if k == 0 then lists else Step(w, Run(w, lists, k - 1), |lists| - 1, false)
  }

  // ----- What the lookaheads are ---------------------------------------------------

  /** List j holds items k - 1 and k of the eager merge. */
  ghost predicate Genuine(w: seq<nat>, lists: Lists, j: nat, k: nat)
    requires j < |lists|
  {
    2 <= k <= |Level(w, j + 1)| &&
    lists[j] == (Level(w, j + 1)[k - 2], Level(w, j + 1)[k - 1])
  }

  /** List j is exhausted: its chains outweigh every leaf and count all of them. */
  ghost predicate Stale(w: seq<nat>, lists: Lists, j: nat)
    requires j < |lists| && |w| >= 1
  {
    lists[j].0.weight + lists[j].1.weight > w[|w| - 1] && lists[j].1.count == |w|
  }

  /** After k items of list j, how far list j - 1 has advanced; one more than its
      length stands for exhausted. */
  function Below(w: seq<nat>, lists: Lists, j: nat, k: nat): nat
    requires 1 <= j < |lists|
  {
    var len := |Level(w, j)|;
    if k > |Level(w, j + 1)| || k < lists[j].1.count then len + 1
    else Min(2 * (k - lists[j].1.count) + 2, len + 1)
  }

  /** Lists 0..j are in step with the eager merge when list j stands at item k. */
  ghost predicate InStep(w: seq<nat>, lists: Lists, j: nat, k: nat)
    requires j < |lists| && |w| >= 2
    decreases j
  {
    && k <= |Level(w, j + 1)| + 1
    && (if k <= |Level(w, j + 1)| then Genuine(w, lists, j, k) else Stale(w, lists, j))
    && (j > 0 ==> InStep(w, lists, j - 1, Below(w, lists, j, k)))
  }

  lemma {:induction false} InStepFrame(w: seq<nat>, a: Lists, b: Lists, j: nat, k: nat)
    requires j < |a| && |a| == |b| && |w| >= 2
    requires forall i | 0 <= i <= j :: a[i] == b[i]
    requires InStep(w, a, j, k)
    ensures InStep(w, b, j, k)
    decreases j
  {
    hide Level;
    assert a[j] == b[j];
    if j > 0 {
      InStepFrame(w, a, b, j - 1, Below(w, a, j, k));
    }
  }

  // ----- The first two items are leaves ----------------------------------------------

  lemma {:induction false} FirstItems(w: seq<nat>, d: nat)
    requires Leaves(w) && |w| >= 2 && d >= 1
    ensures |Level(w, d)| >= 2
    ensures Level(w, d)[0] == Link(w[0], 1, End) && Level(w, d)[1] == Link(w[1], 2, End)
  {
    hide Level;
    var prev := Level(w, d - 1);
    LevelUnfold(w, d);
    LevelSize(w, d);
    if d > 1 {
      FirstItems(w, d - 1);
    } else {
      LevelZero(w);
    }
    FirstTwoLeaves(w, prev);
  }

  lemma {:induction false} LevelZero(w: seq<nat>)
    ensures Level(w, 0) == []
  {
  }

  lemma {:induction false} FirstTwoLeaves(w: seq<nat>, prev: seq<Node>)
    requires Leaves(w) && |w| >= 2
    requires |prev| >= 2 ==> PairWeight(prev, 0) == w[0] + w[1]
    ensures Merged(w, prev)[0] == Link(w[0], 1, End) && Merged(w, prev)[1] == Link(w[1], 2, End)
  {
    assert LeafCount(w, prev, 0) == 0;
    assert LeafNext(w, prev, 0, 0);
    assert LeafCount(w, prev, 1) == 1;
    assert LeafNext(w, prev, 1, 0);
    assert Item(w, prev, 1) == Link(w[0], 1, End);
    assert Item(w, prev, 2) == Link(w[1], 2, End);
  }

  lemma {:induction false} InitialInStep(w: seq<nat>, maxbits: nat, j: nat)
    requires Leaves(w) && |w| >= 2 && j < maxbits
    ensures InStep(w, Initial(w, maxbits), j, 2)
    decreases j
  {
    hide Level;
    FirstItems(w, j + 1);
    if j > 0 {
      FirstItems(w, j);
      InitialInStep(w, maxbits, j - 1);
      assert Below(w, Initial(w, maxbits), j, 2) == 2;
    }
  }

  // ----- A step keeps the lists in step -------------------------------------------------

  lemma {:induction false} LeavesOnly(w: seq<nat>, k: nat)
    requires k <= |w|
    ensures LeafCount(w, [], k) == k
  {
    if k > 0 {
      LeavesOnly(w, k - 1);
    }
  }

  lemma {:induction false} BottomItem(w: seq<nat>, k: nat)
    requires 1 <= k <= |w|
    ensures |Level(w, 1)| == |w| && Level(w, 1)[k - 1] == Link(w[k - 1], k, End)
  {
    LevelUnfold(w, 1);
    LevelZero(w);
    LeavesOnly(w, k - 1);
    LeavesOnly(w, k);
    assert Merged(w, [])[k - 1] == Item(w, [], k);
  }

  lemma {:induction false} StepBottom(w: seq<nat>, lists: Lists, k: nat, last: bool)
    requires Leaves(w) && |w| >= 2 && |lists| >= 1 && InStep(w, lists, 0, k)
    ensures InStep(w, Step(w, lists, 0, last), 0, Min(k + 1, |w| + 1))
    ensures |Level(w, 1)| == |w|
  {
    hide Level;
    BottomItem(w, 1);
    if k <= |w| {
      BottomItem(w, k);
      BottomItem(w, k - 1);
      if k < |w| {
        BottomItem(w, k + 1);
      }
    }
  }

  /** Item k + 1 of list j, from item k and the state of list j - 1. */
  lemma {:induction false} NextItem(w: seq<nat>, j: nat, k: nat)
    requires j >= 1 && 1 <= k < |Level(w, j + 1)|
    ensures var prev := Level(w, j);
            var it, c := Level(w, j + 1)[k - 1], Level(w, j + 1)[k - 1].count;
            && |Level(w, j + 1)| == |w| + |prev| / 2 && c <= k && k - c <= |prev| / 2 && c <= |w|
            && Level(w, j + 1)[k] ==
               if LeafNext(w, prev, c, k - c) then Link(w[c], c + 1, it.tail)
               else Link(PairWeight(prev, k - c), c, prev[2 * (k - c) + 1])
  {
    hide Level, LeafCount;
    var prev := Level(w, j);
    LevelStep(w, j + 1, k);
    LevelStep(w, j + 1, k + 1);
    ItemTail(w, prev, k);
  }

  lemma {:induction false} LastItem(w: seq<nat>, j: nat)
    requires j >= 1 && |w| >= 2
    ensures |Level(w, j + 1)| >= |w|
    ensures var len := |Level(w, j + 1)|;
            && Level(w, j + 1)[len - 1].count == |w|
            && len - |w| == |Level(w, j)| / 2
  {
    hide Level, LeafCount;
    LevelSize(w, j + 1);
    var len := |Level(w, j + 1)|;
    LevelStep(w, j + 1, len);
  }

  lemma {:induction false} ItemCounts(w: seq<nat>, j: nat, k: nat)
    requires 1 <= k <= |Level(w, j + 1)|
    ensures var c := Level(w, j + 1)[k - 1].count;
            c <= k && c <= |w| && k - c <= |Level(w, j)| / 2
    ensures |Level(w, j + 1)| == |w| + |Level(w, j)| / 2
  {
    hide Level, LeafCount;
    LevelStep(w, j + 1, k);
  }

  /** What a step puts at the end of list j, given what lists j and j - 1 hold. */
  lemma {:induction false} NewChain(w: seq<nat>, lists: Lists, j: nat, k: nat, last: bool)
    requires Leaves(w) && |w| >= 2 && 1 <= j < |lists| && InStep(w, lists, j, k)
    ensures var r := Step(w, lists, j, last)[j];
            if k < |Level(w, j + 1)| then r == (Level(w, j + 1)[k - 1], Level(w, j + 1)[k])
            else r.0.weight + r.1.weight > w[|w| - 1] && r.1.count == |w|
  {
    hide Level, LeafCount;
    var len, prev := |Level(w, j + 1)|, Level(w, j);
    var b := Below(w, lists, j, k);
    assert InStep(w, lists, j - 1, b);
    if k < len {
      NextItem(w, j, k);
      LeafHeaviest(w);
    } else if k == len {
      LastItem(w, j);
      assert b == |prev| + 1;
    }
  }

  lemma {:induction false} LeafHeaviest(w: seq<nat>)
    requires Leaves(w) && |w| >= 1
    ensures forall c | 0 <= c < |w| :: w[c] <= w[|w| - 1]
  {
  }

  /** The step took a leaf, or it packaged the two chains of the list below. */
  lemma {:induction false} StepShape(w: seq<nat>, lists: Lists, j: nat, last: bool)
    requires 1 <= j < |lists|
    ensures var cur := lists[j].1;
            var sum := lists[j - 1].0.weight + lists[j - 1].1.weight;
            var r := Step(w, lists, j, last);
            if cur.count < |w| && sum > w[cur.count]
            then r == lists[j := r[j]] && r[j].1.count == cur.count + 1
            else
              && r[j] == (cur, Link(sum, cur.count, lists[j - 1].1))
              && (if last then r == lists[j := r[j]]
                  else r == Step(w, Step(w, lists[j := r[j]], j - 1, false), j - 1, false))
  {
  }

  lemma {:induction false} StepInStep(w: seq<nat>, lists: Lists, j: nat, k: nat)
    requires Leaves(w) && |w| >= 2 && j < |lists| && InStep(w, lists, j, k)
    ensures InStep(w, Step(w, lists, j, false), j, Min(k + 1, |Level(w, j + 1)| + 1))
    decreases j
  {
    hide Level, LeafCount, Step;
    if j == 0 {
      StepBottom(w, lists, k, false);
    } else {
      var len, prev := |Level(w, j + 1)|, Level(w, j);
      var r := Step(w, lists, j, false);
      var k' := Min(k + 1, len + 1);
      var b := Below(w, lists, j, k);
      var b' := Below(w, r, j, k');
      NewChain(w, lists, j, k, false);
      StepShape(w, lists, j, false);
      if k <= len {
        ItemCounts(w, j, k);
      }
      if k < len {
        ItemCounts(w, j, k + 1);
      }
      var cur := lists[j].1;
      var sum := lists[j - 1].0.weight + lists[j - 1].1.weight;
      if cur.count < |w| && sum > w[cur.count] {
        assert k < len by {
          if k == len { LastItem(w, j); }
        }
        assert b' == b;
        InStepFrame(w, lists, r, j - 1, b);
      } else {
        var mid := lists[j := r[j]];
        InStepFrame(w, lists, mid, j - 1, b);
        StepInStep(w, mid, j - 1, b);
        var mid2 := Step(w, mid, j - 1, false);
        var b1 := Min(b + 1, |prev| + 1);
        StepInStep(w, mid2, j - 1, b1);
        assert b' == Min(b1 + 1, |prev| + 1);
      }
    }
  }

  lemma {:induction false} RunInStep(w: seq<nat>, maxbits: nat, k: nat)
    requires Leaves(w) && |w| >= 2 && maxbits >= 1
    ensures InStep(w, Run(w, Initial(w, maxbits), k), maxbits - 1,
                   Min(k + 2, |Level(w, maxbits)| + 1))
  {
    hide Level, Step, InStep;
    LevelSize(w, maxbits);
    if k == 0 {
      InitialInStep(w, maxbits, maxbits - 1);
    } else {
      RunInStep(w, maxbits, k - 1);
      StepInStep(w, Run(w, Initial(w, maxbits), k - 1), maxbits - 1, Min(k + 1, |Level(w, maxbits)| + 1));
    }
  }

  /** The final step, which skips the recursion, still appends the right chain. */
  lemma {:induction false} FinalStep(w: seq<nat>, lists: Lists, k: nat)
    requires Leaves(w) && |w| >= 2 && |lists| >= 1
    requires InStep(w, lists, |lists| - 1, k) && k < |Level(w, |lists|)|
    ensures Step(w, lists, |lists| - 1, true)[|lists| - 1].1 == Level(w, |lists|)[k]
  {
    hide Level, Step, InStep;
    if |lists| == 1 {
      StepBottom(w, lists, k, true);
      InStepTop(w, Step(w, lists, 0, true), 0, k + 1);
    } else {
      NewChain(w, lists, |lists| - 1, k, true);
    }
  }

  lemma {:induction false} InStepTop(w: seq<nat>, lists: Lists, j: nat, k: nat)
    requires j < |lists| && |w| >= 2 && InStep(w, lists, j, k) && k <= |Level(w, j + 1)|
    ensures k >= 2 && lists[j].1 == Level(w, j + 1)[k - 1]
  {
  }

  /** The lists after all 2n - 4 runs, the last one final. */
  function AllRuns(w: seq<nat>, maxbits: nat): (r: Lists)
    requires |w| >= 2 && maxbits >= 1
    ensures |r| == maxbits
  {
    if |w| == 2 then Initial(w, maxbits)
    else Step(w, Run(w, Initial(w, maxbits), 2 * |w| - 5), maxbits - 1, true)
  }

  /** Boundary package-merge refines plain package-merge: the last chain of the last
      list is item 2n - 2 of the eager merge, and no stale chain is ever part of it. */
  lemma {:induction false} RefinesPackageMerge(w: seq<nat>, maxbits: nat)
    requires Leaves(w) && 2 <= |w| <= Pow2(maxbits) && maxbits >= 1
    ensures AllRuns(w, maxbits)[maxbits - 1].1 == CodeChain(w, maxbits)
  {
    hide Level, Step, InStep, Run, Pow2;
    EnoughItems(w, maxbits);
    if |w| == 2 {
      FirstItems(w, maxbits);
    } else {
      RunInStep(w, maxbits, 2 * |w| - 5);
      FinalStep(w, Run(w, Initial(w, maxbits), 2 * |w| - 5), 2 * |w| - 3);
    }
  }

  /** Chains of list j never have more than j + 1 nodes, which bounds the node pool. */
  ghost predicate Shallow(lists: Lists) {
    forall j | 0 <= j < |lists| :: Depth(lists[j].0) <= j + 1 && Depth(lists[j].1) <= j + 1
  }

  lemma {:induction false} StepShallow(w: seq<nat>, lists: Lists, index: nat, last: bool)
    requires index < |lists| && Shallow(lists)
    ensures Shallow(Step(w, lists, index, last))
    decreases index
  {
    if index == 0 {
      var c := lists[0].1.count;
      assert c < |w| ==> Depth(Link(w[c], c + 1, End)) == 1;
    } else {
      hide Step;
      StepShape(w, lists, index, last);
      var cur := lists[index].1;
      var sum := lists[index - 1].0.weight + lists[index - 1].1.weight;
      if cur.count < |w| && sum > w[cur.count] { StepLeaf(w, lists, index, last); }
      var r := Step(w, lists, index, last);
      assert Shallow(lists[index := r[index]]);
      if !(cur.count < |w| && sum > w[cur.count]) && !last {
        StepShallow(w, lists[index := r[index]], index - 1, false);
        StepShallow(w, Step(w, lists[index := r[index]], index - 1, false), index - 1, false);
      }
    }
  }

  lemma {:induction false} StepLeaf(w: seq<nat>, lists: Lists, j: nat, last: bool)
    requires 1 <= j < |lists|
    requires lists[j].1.count < |w| && lists[j - 1].0.weight + lists[j - 1].1.weight > w[lists[j].1.count]
    ensures var cur := lists[j].1;
            Step(w, lists, j, last)[j] == (cur, Link(w[cur.count], cur.count + 1, cur.tail))
  {
  }
}
