/**
 What the walk along the chains finds: which earlier positions are compared at all, and
 that the answer is the longest match any of them gives, at the nearest one giving it.
 */
module ChainWalk {
  import opened Arith
  import opened Symbols
  import opened Inflate
  import opened MatchSpec

  /** A distance inside the window. */
  predicate InWindow(c: Ctx, pos: nat, d: nat) {
    1 <= d < 32768 && c.start + d <= pos
  }

  predicate Inside(c: Ctx, pos: nat, limit: nat, ds: seq<nat>) {
    && ValidCtx(c) && c.start <= pos < c.end && pos + limit <= c.end
    && forall i | 0 <= i < |ds| :: InWindow(c, pos, ds[i])
  }

  function Longer(a: nat, b: nat): nat {
    if a < b then b else a
  }

  /** The length of the longest match at any of the distances, 1 when none is longer. */
  function Reach(c: Ctx, pos: nat, limit: nat, ds: seq<nat>): nat
    requires Inside(c, pos, limit, ds)
  {
    if ds == [] then 1
    else
      var n := |ds| - 1;
      Longer(Reach(c, pos, limit, ds[..n]), MatchLength(c, pos, ds[n], limit))
  }

  /** Whether the second hash is followed once the distances have been visited: from the
      first one on that has the same second hash value when the best match so far covers
      the run at pos. */
  predicate OnSecond(c: Ctx, pos: nat, limit: nat, ds: seq<nat>)
    requires Inside(c, pos, limit, ds)
  {
    ds != [] &&
    var n := |ds| - 1;
    || OnSecond(c, pos, limit, ds[..n])
    || (Reach(c, pos, limit, ds) >= Same(c, pos) && HashOf(c, true, pos) == HashOf(c, true, pos - ds[n]))
  }

  /** The link that leads on from the last distance visited, 0 for none. */
  function LinkFrom(c: Ctx, pos: nat, limit: nat, ds: seq<nat>): nat
    requires Inside(c, pos, limit, ds)
  {
    ChainLink(c, OnSecond(c, pos, limit, ds), if ds == [] then pos else pos - ds[|ds| - 1])
  }

  /** The walk ends: the limit is reached, the chain ends or leaves the window, or 8192
      positions have been visited. */
  predicate Ends(c: Ctx, pos: nat, limit: nat, ds: seq<nat>)
    requires Inside(c, pos, limit, ds) && ds != []
  {
    var link := LinkFrom(c, pos, limit, ds);
    Reach(c, pos, limit, ds) >= limit || link == 0 || ds[|ds| - 1] + link >= 32768 || |ds| >= 8192
  }

  /** The distances of the positions visited: each follows from those before it. */
  ghost predicate Visited(c: Ctx, pos: nat, limit: nat, ds: seq<nat>)
    requires Inside(c, pos, limit, ds)
  {
    && ds != [] && ds[0] == LinkFrom(c, pos, limit, [])
    && forall i | 0 < i < |ds| ::
         !Ends(c, pos, limit, ds[..i]) && ds[i] == ds[i - 1] + LinkFrom(c, pos, limit, ds[..i])
  }

  /** The nearest of the distances with a match of at least j bytes. */
  ghost predicate Nearest(c: Ctx, pos: nat, limit: nat, ds: seq<nat>, j: nat, d: nat)
    requires Inside(c, pos, limit, ds)
  {
    exists i | 0 <= i < |ds| ::
      && ds[i] == d && MatchLength(c, pos, ds[i], limit) >= j
      && forall k | 0 <= k < i :: MatchLength(c, pos, ds[k], limit) < j
  }

  /** The best match is the one the distances give. */
  ghost predicate BestOf(c: Ctx, pos: nat, limit: nat, ds: seq<nat>, b: Best)
    requires Inside(c, pos, limit, ds)
  {
    && b.length == Reach(c, pos, limit, ds) == |b.sub| + 1
    && (b.length >= 2 ==> b.dist == b.sub[b.length - 2])
    && forall j: nat | SubAt(b, j) :: Nearest(c, pos, limit, ds, j, b.sub[j - 2])
  }

  lemma {:induction false} ReachAll(c: Ctx, pos: nat, limit: nat, ds: seq<nat>, i: nat)
    requires Inside(c, pos, limit, ds) && i < |ds|
    ensures MatchLength(c, pos, ds[i], limit) <= Reach(c, pos, limit, ds)
  {
    hide MatchLength;
    var n := |ds| - 1;
    if i < n {
      ReachAll(c, pos, limit, ds[..n], i);
    }
  }

  /** A byte that differs just past the best length rules a longer match out. */
  lemma {:induction false} Skipped(c: Ctx, pos: nat, limit: nat, d: nat, best: nat)
    requires ValidCtx(c) && 1 <= d <= pos && pos + limit <= c.end && best < limit
    ensures Longer(best, Candidate(c, pos, limit, d, best)) == Longer(best, MatchLength(c, pos, d, limit))
    ensures Candidate(c, pos, limit, d, best) > best ==>
              Candidate(c, pos, limit, d, best) == MatchLength(c, pos, d, limit)
  {
    MatchFromGenuine(c, pos, d, 0, limit);
    if MatchLength(c, pos, d, limit) > best {
      assert Lz77Store.Repeats(c.data, pos + best, d);
    }
  }

  lemma {:induction false} NearestStill(c: Ctx, pos: nat, limit: nat, ds: seq<nat>, d: nat, j: nat, e: nat)
    requires Inside(c, pos, limit, ds) && InWindow(c, pos, d) && Nearest(c, pos, limit, ds, j, e)
    ensures Inside(c, pos, limit, ds + [d])
    ensures Nearest(c, pos, limit, ds + [d], j, e)
  {
    hide MatchLength;
    var i :| 0 <= i < |ds| && ds[i] == e && MatchLength(c, pos, ds[i], limit) >= j
             && forall k | 0 <= k < i :: MatchLength(c, pos, ds[k], limit) < j;
    var es := ds + [d];
    assert es[i] == e;
    assert forall k | 0 <= k < i :: es[k] == ds[k];
  }

  lemma {:induction false} NearestHere(c: Ctx, pos: nat, limit: nat, ds: seq<nat>, d: nat, j: nat)
    requires Inside(c, pos, limit, ds) && InWindow(c, pos, d)
    requires Reach(c, pos, limit, ds) < j <= MatchLength(c, pos, d, limit)
    ensures Inside(c, pos, limit, ds + [d])
    ensures Nearest(c, pos, limit, ds + [d], j, d)
  {
    hide MatchLength, Reach;
    var es := ds + [d];
    assert es[|ds|] == d;
    forall k | 0 <= k < |ds|
      ensures MatchLength(c, pos, es[k], limit) < j
    {
      ReachAll(c, pos, limit, ds, k);
      assert es[k] == ds[k];
    }
  }

  /** One more position keeps the best match the one of the distances visited. */
  lemma {:induction false} BestNext(c: Ctx, pos: nat, limit: nat, ds: seq<nat>, d: nat, b: Best)
    requires Inside(c, pos, limit, ds) && InWindow(c, pos, d)
    requires BestOf(c, pos, limit, ds, b) && b.length < limit
    ensures Inside(c, pos, limit, ds + [d])
    ensures BestOf(c, pos, limit, ds + [d], Improve(b, Candidate(c, pos, limit, d, b.length), d))
  {
    hide MatchLength, Candidate, Nearest;
    Skipped(c, pos, limit, d, b.length);
    assert (ds + [d])[..|ds|] == ds;
    var b' := Improve(b, Candidate(c, pos, limit, d, b.length), d);
    forall j: nat | SubAt(b', j)
      ensures Nearest(c, pos, limit, ds + [d], j, b'.sub[j - 2])
    {
      if SubAt(b, j) {
        NearestStill(c, pos, limit, ds, d, j, b.sub[j - 2]);
      } else {
        NearestHere(c, pos, limit, ds, d, j);
      }
    }
  }

  /** The walk visits the distances that follow from those before. */
  lemma {:induction false} WalkVisits(c: Ctx, pos: nat, limit: nat, ds: seq<nat>, d: nat, b: Best)
      returns (es: seq<nat>)
    requires Inside(c, pos, limit, ds) && InWindow(c, pos, d) && 3 <= limit
    requires Visited(c, pos, limit, ds + [d]) && |ds| < 8192 && BestOf(c, pos, limit, ds, b) && b.length < limit
    ensures Inside(c, pos, limit, es) && Visited(c, pos, limit, es) && |es| <= 8192 && Ends(c, pos, limit, es)
    ensures Walking(c, pos, limit, d, b, 8192 - |ds|)
    ensures BestOf(c, pos, limit, es, Walk(c, pos, limit, OnSecond(c, pos, limit, ds), d, b, 8192 - |ds|))
    decreases 32768 - d
  {
    hide MatchLength, Nearest, Walk, Candidate, ChainLink, HashOf, Same;
    es := ds + [d];
    BestNext(c, pos, limit, ds, d, b);
    assert es[..|ds|] == ds;
    var b' := Improve(b, Candidate(c, pos, limit, d, b.length), d);
    WalkUnfold(c, pos, limit, OnSecond(c, pos, limit, ds), d, b, 8192 - |ds|);
    assert OnSecond(c, pos, limit, es) == Switch(c, pos, OnSecond(c, pos, limit, ds), d, b'.length);
    if !Ends(c, pos, limit, es) {
      var d' := d + LinkFrom(c, pos, limit, es);
      VisitedNext(c, pos, limit, es, d');
      es := WalkVisits(c, pos, limit, es, d', b');
    }
  }

  lemma {:induction false} VisitedNext(c: Ctx, pos: nat, limit: nat, ds: seq<nat>, d: nat)
    requires Inside(c, pos, limit, ds) && Visited(c, pos, limit, ds) && !Ends(c, pos, limit, ds)
    requires d == ds[|ds| - 1] + LinkFrom(c, pos, limit, ds) && InWindow(c, pos, d)
    ensures Inside(c, pos, limit, ds + [d]) && Visited(c, pos, limit, ds + [d])
  {
    hide Ends, LinkFrom;
    var es := ds + [d];
    assert es[..|ds|] == ds;
    forall i | 0 < i < |es|
      ensures !Ends(c, pos, limit, es[..i]) && es[i] == es[i - 1] + LinkFrom(c, pos, limit, es[..i])
    {
      if i < |ds| {
        assert es[..i] == ds[..i];
      }
    }
  }

  /** The search gives the longest match among the positions visited, at most 8192 of
      them, and for every length up to it the nearest of them that matches so far. */
  lemma {:induction false} SearchIsLongest(c: Ctx, pos: nat, limit: nat) returns (ds: seq<nat>)
    requires ValidCtx(c) && c.start <= pos < c.end && limit >= 3
    ensures var l := Min(limit, c.end - pos);
            if c.end - pos < 3 then Search(c, pos, limit).length == 0
            else if ChainLink(c, false, pos) == 0 then Search(c, pos, limit) == NOTHING
            else && Inside(c, pos, l, ds) && Visited(c, pos, l, ds) && |ds| <= 8192 && Ends(c, pos, l, ds)
                 && BestOf(c, pos, l, ds, Search(c, pos, limit))
                 && forall i | 0 <= i < |ds| :: MatchLength(c, pos, ds[i], l) <= Search(c, pos, limit).length
  {
    hide Walk, ChainLink, Ends;
    var l := Min(limit, c.end - pos);
    var d := ChainLink(c, false, pos);
    ds := [];
    if c.end - pos >= 3 && d != 0 {
      assert [] + [d] == [d];
      assert BestOf(c, pos, l, [], NOTHING);
      ds := WalkVisits(c, pos, l, [], d, NOTHING);
      forall i | 0 <= i < |ds|
        ensures MatchLength(c, pos, ds[i], l) <= Search(c, pos, limit).length
      {
        ReachAll(c, pos, l, ds, i);
      }
    }
  }
}
