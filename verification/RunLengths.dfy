/**
 Which entry the run-length coding of the code lengths uses where: a rule that looks only
 at the place reached and at how far the run goes on from there.
 */
module RunLengths {
  import opened Arith
  import opened TreeHeader

  /** The length before is the same. */
  predicate Repeats(l: seq<nat>, p: nat)
    requires p < |l|
  {
    p > 0 && l[p - 1] == l[p]
  }

  /** Zeros go into one entry for up to 138 of them; another length is written once and
      then repeated six or three at a time. Fewer than three are written singly. */
  predicate EntryAt(l: seq<nat>, p: nat, e: Entry)
    requires p < |l|
  {
    var left := RunFrom(l, p, p);
    if l[p] == 0 && left >= 11 then e == Entry(18, (if left < 138 then left else 138) - 11)
    else if l[p] == 0 && left >= 3 then e == Entry(17, left - 3)
    else if l[p] != 0 && Repeats(l, p) && left >= 6 then e == Entry(16, 3)
    else if l[p] != 0 && Repeats(l, p) && left >= 3 then e == Entry(16, 0)
    else e == Entry(l[p], 0)
  }

  /** How many lengths an entry stands for. */
  function Covers(e: Entry): nat {
    if e.symbol == 18 then e.extra + 11 else if e.symbol in {16, 17} then e.extra + 3 else 1
  }

  /** Entry after entry covers the lengths from p on, each chosen by the rule. */
  ghost predicate ByRule(l: seq<nat>, p: nat, es: seq<Entry>)
    requires p <= |l|
    decreases |es|
  {
    if p == |l| then es == []
    else es != [] && EntryAt(l, p, es[0]) && p + Covers(es[0]) <= |l| && ByRule(l, p + Covers(es[0]), es[1..])
  }

  lemma {:induction false} ByRuleCons(l: seq<nat>, p: nat, e: Entry, es: seq<Entry>)
    requires p < |l| && EntryAt(l, p, e) && p + Covers(e) <= |l| && ByRule(l, p + Covers(e), es)
    ensures ByRule(l, p, [e] + es)
  {
    hide EntryAt;
    assert ([e] + es)[1..] == es;
  }

  /** Inside a run, the rest of it is left. */
  lemma {:induction false} RunLeft(l: seq<nat>, p: nat, k: nat)
    requires p < |l| && k < RunFrom(l, p, p)
    ensures RunFrom(l, p + k, p + k) == RunFrom(l, p, p) - k && l[p + k] == l[p]
    ensures k > 0 ==> Repeats(l, p + k)
  {
    hide RunFrom;
    RunTail(l, p, p, k);
    SameRun(l, p, p + k, p + k);
  }

  lemma {:induction false} RunTail(l: seq<nat>, i: nat, j: nat, k: nat)
    requires i < |l| && j <= |l| && k <= RunFrom(l, i, j)
    ensures RunFrom(l, i, j) == k + RunFrom(l, i, j + k)
    decreases k
  {
    if k > 0 {
      RunTail(l, i, j + 1, k - 1);
    }
  }

  lemma {:induction false} SameRun(l: seq<nat>, i: nat, i': nat, j: nat)
    requires i < |l| && i' < |l| && j <= |l| && l[i] == l[i']
    ensures RunFrom(l, i, j) == RunFrom(l, i', j)
    decreases |l| - j
  {
    if j < |l| && l[j] == l[i] {
      SameRun(l, i, i', j + 1);
    }
  }

  /** At a new run, and wherever the coder starts afresh. */
  predicate Fresh(l: seq<nat>, p: nat)
    requires p <= |l|
  {
    p == |l| || l[p] == 0 || !Repeats(l, p) || RunFrom(l, p, p) < 3
  }

  lemma {:induction false} RunEnds(l: seq<nat>, p: nat)
    requires p < |l|
    ensures 1 <= RunFrom(l, p, p) <= |l| - p && Fresh(l, p + RunFrom(l, p, p))
  {
  }

  /** The last lengths of a run, one by one. */
  lemma {:induction false} LiteralsByRule(l: seq<nat>, p: nat, n: nat, es: seq<Entry>)
    requires Below16(l) && p + n <= |l| && n < 3 && (n > 0 ==> RunFrom(l, p, p) == n) && ByRule(l, p + n, es)
    ensures ByRule(l, p, Literals(if n > 0 then l[p] else 0, n) + es)
    decreases n
  {
    hide ByRule, RunFrom;
    if n == 0 {
      assert Literals(0, 0) + es == es;
    } else {
      var v := l[p];
      if n > 1 {
        RunLeft(l, p, 1);
      }
      LiteralsByRule(l, p + 1, n - 1, es);
      ByRuleCons(l, p, Entry(v, 0), Literals(v, n - 1) + es);
      assert [Entry(v, 0)] + (Literals(v, n - 1) + es) == Literals(v, n) + es;
    }
  }

  /** The rest of a run of another length than 0. */
  lemma {:induction false} CopiesByRule(l: seq<nat>, p: nat, v: nat, n: nat, es: seq<Entry>)
    requires Below16(l) && 0 < p && p + n <= |l| && v == l[p - 1] != 0
    requires n > 0 ==> l[p] == v && RunFrom(l, p, p) == n
    requires ByRule(l, p + n, es)
    ensures ByRule(l, p, Copies(v, n) + es)
    decreases n
  {
    hide ByRule, RunFrom;
    if n >= 6 {
      if n > 6 {
        RunLeft(l, p, 6);
      }
      RunLeft(l, p, 5);
      CopiesByRule(l, p + 6, v, n - 6, es);
      ByRuleCons(l, p, Entry(16, 3), Copies(v, n - 6) + es);
      assert [Entry(16, 3)] + (Copies(v, n - 6) + es) == Copies(v, n) + es;
    } else if n >= 3 {
      if n > 3 {
        RunLeft(l, p, 3);
      }
      LiteralsByRule(l, p + 3, n - 3, es);
      assert n == 3 ==> Literals(v, 0) == Literals(0, 0);
      ByRuleCons(l, p, Entry(16, 0), Literals(v, n - 3) + es);
      assert [Entry(16, 0)] + (Literals(v, n - 3) + es) == Copies(v, n) + es;
    } else {
      LiteralsByRule(l, p, n, es);
      assert n == 0 ==> Literals(v, 0) == Literals(0, 0);
    }
  }

  lemma {:induction false} RunByRule(l: seq<nat>, i: nat, es: seq<Entry>)
    requires Below16(l) && i < |l| && Fresh(l, i) && ByRule(l, i + Run(l, i).1, es)
    ensures ByRule(l, i, Run(l, i).0 + es) && Fresh(l, i + Run(l, i).1)
  {
    hide ByRule, RunFrom, Copies;
    var v, count := l[i], RunFrom(l, i, i);
    var n := Run(l, i).1;
    RunEnds(l, i);
    if n < count {
      RunLeft(l, i, n);
    }
    if v != 0 && count >= 4 {
      RunLeft(l, i, 1);
      CopiesByRule(l, i + 1, v, count - 1, es);
      ByRuleCons(l, i, Entry(v, 0), Copies(v, count - 1) + es);
      assert [Entry(v, 0)] + (Copies(v, count - 1) + es) == Run(l, i).0 + es;
    } else {
      ByRuleCons(l, i, Run(l, i).0[0], es);
      assert Run(l, i).0 == [Run(l, i).0[0]];
    }
  }

  /** The run-length coding follows the rule. */
  lemma {:induction false} RleByRule(l: seq<nat>, i: nat)
    requires Below16(l) && i <= |l| && Fresh(l, i)
    ensures ByRule(l, i, Rle(l, i))
    decreases |l| - i
  {
    hide Run, Fresh, EntryAt;
    RleUnfold(l, i);
    if i < |l| {
      var n := Run(l, i).1;
      FreshNext(l, i);
      RleByRule(l, i + n);
      RunByRule(l, i, Rle(l, i + n));
    }
  }

  lemma {:induction false} FreshNext(l: seq<nat>, i: nat)
    requires i < |l| && Fresh(l, i)
    ensures Fresh(l, i + Run(l, i).1)
  {
    hide RunFrom;
    RunEnds(l, i);
    var n := Run(l, i).1;
    if n < RunFrom(l, i, i) {
      RunLeft(l, i, n);
    }
  }
}
