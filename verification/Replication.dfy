/**
 Several servers that sync pairwise, round after round, some requests failing: what every
 run keeps, and when all servers end up with everything. A round is what module Sync
 proves of one: contents only spread between its two servers.
 */
module Replication {

  /** The contents each server holds. */
  type Servers = seq<set<string>>

  /** A round of server i with server j, in which any request may have failed. */
  ghost predicate Round(a: Servers, b: Servers, i: nat, j: nat) {
    && |a| == |b| && i < |a| && j < |a| && i != j
    && a[i] <= b[i] && a[j] <= b[j] && b[i] + b[j] == a[i] + a[j]
    && forall k | 0 <= k < |a| && k != i && k != j :: b[k] == a[k]
  }

  ghost predicate SomeRound(a: Servers, b: Servers) {
    exists i: nat, j: nat :: Round(a, b, i, j)
  }

  /** States of a run, each one round after the one before. */
  ghost predicate Run(states: seq<Servers>) {
    |states| > 0 && forall t | 0 <= t < |states| - 1 :: SomeRound(states[t], states[t + 1])
  }

  /** Everything the first n servers hold. */
  function Union(s: Servers, n: nat): set<string>
    requires n <= |s|
  {
    if n == 0 then {} else Union(s, n - 1) + s[n - 1]
  }

  function All(s: Servers): set<string> {
    Union(s, |s|)
  }

  lemma {:induction false} InUnion(s: Servers, n: nat, c: string)
    requires n <= |s|
    ensures c in Union(s, n) <==> exists k :: 0 <= k < n && c in s[k]
  {
    if n > 0 {
      InUnion(s, n - 1, c);
    }
  }

  /** Nothing held anywhere is lost, and nothing appears from nowhere. */
  lemma {:induction false} RoundKeepsAll(a: Servers, b: Servers)
    requires SomeRound(a, b)
    ensures |a| == |b| && All(a) == All(b) && forall k | 0 <= k < |a| :: a[k] <= b[k]
  {
    hide Union;
    var i: nat, j: nat :| Round(a, b, i, j);
    forall c
      ensures c in All(a) <==> c in All(b)
    {
      InUnion(a, |a|, c);
      InUnion(b, |b|, c);
      if c in All(a) {
        var k :| 0 <= k < |a| && c in a[k];
        assert c in b[k];
      }
      if c in All(b) {
        var k :| 0 <= k < |b| && c in b[k];
        assert c in a[k] || c in a[i] || c in a[j];
      }
    }
  }

  /** Over every run, whatever fails: servers only gain, and together hold the same. */
  lemma {:induction false} RunKeepsAll(states: seq<Servers>, t: nat)
    requires Run(states) && t < |states|
    ensures |states[t]| == |states[0]| && All(states[t]) == All(states[0])
    ensures forall k | 0 <= k < |states[0]| :: states[0][k] <= states[t][k]
  {
    hide Union, SomeRound;
    if t > 0 {
      RunKeepsAll(states, t - 1);
      assert SomeRound(states[t - 1], states[t - 1 + 1]);
      RoundKeepsAll(states[t - 1], states[t]);
    }
  }

  // ----- Rounds without failures ----------------------------------------------------------------

  /** A round in both directions in which nothing failed. */
  function FullRound(s: Servers, i: nat, j: nat): (r: Servers)
    requires i < |s| && j < |s|
    ensures |r| == |s|
  {
    s[i := s[i] + s[j]][j := s[i] + s[j]]
  }

  lemma {:induction false} FullRoundIsRound(s: Servers, i: nat, j: nat)
    requires i < |s| && j < |s| && i != j
    ensures Round(s, FullRound(s, i, j), i, j)
  {
  }

  /** Server 0 syncs with servers 1 to k in turn. */
  function Sweep(s: Servers, k: nat): (r: Servers)
    requires k < |s|
    ensures |r| == |s|
  {
    if k == 0 then s else FullRound(Sweep(s, k - 1), 0, k)
  }

  lemma {:induction false} SweepGathers(s: Servers, k: nat)
    requires k < |s|
    ensures Sweep(s, k)[0] == Union(s, k + 1)
    ensures forall i | k < i < |s| :: Sweep(s, k)[i] == s[i]
  {
    if k == 0 {
      assert Union(s, 1) == Union(s, 0) + s[0];
    } else {
      SweepGathers(s, k - 1);
    }
  }

  lemma {:induction false} SweepSpreads(s: Servers, k: nat, u: set<string>)
    requires k < |s| && s[0] == u && forall i | 0 <= i < |s| :: s[i] <= u
    ensures forall i | 0 <= i <= k :: Sweep(s, k)[i] == u
    ensures forall i | k < i < |s| :: Sweep(s, k)[i] == s[i]
  {
    if k > 0 {
      SweepSpreads(s, k - 1, u);
    }
  }

  lemma {:induction false} SweepIsRun(s: Servers, k: nat)
    requires k < |s|
    ensures All(Sweep(s, k)) == All(s)
  {
    hide Union;
    if k > 0 {
      SweepIsRun(s, k - 1);
      FullRoundIsRound(Sweep(s, k - 1), 0, k);
      RoundKeepsAll(Sweep(s, k - 1), Sweep(s, k));
    }
  }

  lemma {:induction false} MemberOfUnion(s: Servers, n: nat, k: nat)
    requires k < n <= |s|
    ensures s[k] <= Union(s, n)
  {
    if k < n - 1 {
      MemberOfUnion(s, n - 1, k);
    }
  }

  /** After two sweeps without failures every server holds everything. */
  lemma {:induction false} TwoSweepsConverge(s: Servers)
    requires |s| > 0
    ensures var n := |s| - 1;
            forall i | 0 <= i < |s| :: Sweep(Sweep(s, n), n)[i] == All(s)
  {
    hide Union, Sweep;
    var n := |s| - 1;
    var once := Sweep(s, n);
    SweepGathers(s, n);
    SweepIsRun(s, n);
    forall i | 0 <= i < |s|
      ensures once[i] <= All(s)
    {
      MemberOfUnion(once, |once|, i);
    }
    SweepSpreads(once, n, All(s));
  }
}
