/**
 The ring-buffer hash chains of the match finder. Positions are reduced modulo the
 window size; what a chain link means is stated here over the true history of hash
 values, one per consecutive position.
 */
module HashChain {
  import opened Symbols

  const NO_HEAD := -1

  /** The ring slot of a position. */
  function Slot(pos: nat): (r: nat)
    ensures r < 32768
  {
    pos % 32768
  }

  /** The latest of the first n positions with hash value v, or -1. */
  function Latest(vals: seq<nat>, n: nat, v: nat): (r: int)
    requires n <= |vals|
    ensures -1 <= r < n
    ensures r >= 0 ==> vals[r] == v
    ensures forall k | r < k < n :: vals[k] != v
  {
    if n == 0 then -1 else if vals[n - 1] == v then n - 1 else Latest(vals, n - 1, v)
  }

  /** How far back the previous position with the same value lies, when that is
      less than a window; 0 otherwise. */
  function LinkBack(vals: seq<nat>, i: nat): (d: nat)
    requires i < |vals|
    ensures d <= i && d < 32768
  {
    var l := Latest(vals, i, vals[i]);
    if l >= 0 && i - l < 32768 then i - l else 0
  }

  lemma {:induction false} LatestPrefix(a: seq<nat>, b: seq<nat>, n: nat, v: nat)
    requires n <= |a| && n <= |b| && a[..n] == b[..n]
    ensures Latest(a, n, v) == Latest(b, n, v)
  {
    if n > 0 {
      assert a[n - 1] == a[..n][n - 1] == b[..n][n - 1];
      assert a[..n - 1] == a[..n][..n - 1] == b[..n - 1];
      LatestPrefix(a, b, n - 1, v);
    }
  }

  lemma {:induction false} LinkBackPrefix(a: seq<nat>, b: seq<nat>, i: nat)
    requires i < |a| && i < |b| && a[..i + 1] == b[..i + 1]
    ensures LinkBack(a, i) == LinkBack(b, i)
  {
    assert a[i] == a[..i + 1][i] == b[i];
    assert a[..i] == a[..i + 1][..i] == b[..i];
    LatestPrefix(a, b, i, a[i]);
  }

  /** Positions less than a window apart have different slots. */
  lemma {:induction false} SlotUnique(a: nat, b: nat)
    requires a < b < a + 32768
    ensures Slot(a) != Slot(b)
  {
  }

  /** The distance recovered from two slots is the true one. */
  lemma {:induction false} RingDistance(pos: nat, d: nat)
    requires d <= pos && d < 32768
    ensures var p, pp := Slot(pos - d), Slot(pos);
            (if p < pp then pp - p else 32768 - p + pp) == if d == 0 then 32768 else d
    ensures d == 0 <==> Slot(pos - d) == Slot(pos)
  {
  }

  /** Position i (counted from `base`) is still in the window once n are stored. */
  predicate InWindow(i: nat, n: nat) {
    i < n && n - i <= 32768
  }

  // ----- What the tables say about the history --------------------------------------

  /** The slot of the latest position with value v, or -1. */
  function HeadSlot(base: nat, vals: seq<nat>, v: nat): int {
    var l := Latest(vals, |vals|, v);
    if l < 0 then NO_HEAD else Slot(base + l)
  }

  ghost predicate HeadsOk(base: nat, vals: seq<nat>, head: seq<int>) {
    |head| == 65536 && forall v | 0 <= v < 65536 :: head[v] == HeadSlot(base, vals, v)
  }

  ghost predicate HashvalsOk(base: nat, vals: seq<nat>, hashval: seq<int>) {
    |hashval| == 32768 && forall i: nat | InWindow(i, |vals|) :: hashval[Slot(base + i)] == vals[i]
  }

  ghost predicate PrevsOk(base: nat, vals: seq<nat>, prev: seq<nat>) {
    && |prev| == 32768
    && forall i: nat | InWindow(i, |vals|) :: prev[Slot(base + i)] == Slot(base + i - LinkBack(vals, i))
  }

  /** The position that holds position l's slot now. */
  lemma {:induction false} Occupant(base: nat, l: nat, n: nat) returns (k: nat)
    requires n - l >= 32768 && Slot(base + l) != Slot(base + n)
    ensures InWindow(k, n) && l < k && Slot(base + k) == Slot(base + l)
    decreases n - l
  {
    k := l + 32768;
    if n - k >= 32768 {
      k := Occupant(base, l + 32768, n);
    }
  }

  /** The comparison of hash values decides whether the head for v is a live earlier
      position, once the current slot has taken value v. */
  lemma {:induction false} HeadIsLive(base: nat, vals: seq<nat>, hashval: seq<int>, v: nat)
    requires HashvalsOk(base, vals, hashval) && v < 65536
    ensures var n, l := |vals|, Latest(vals, |vals|, v);
            l >= 0 ==>
              (hashval[Slot(base + n) := v][Slot(base + l)] == v <==> n - l < 32768 || Slot(base + l) == Slot(base + n))
  {
    var n, l := |vals|, Latest(vals, |vals|, v);
    if l >= 0 {
      if n - l < 32768 {
        assert InWindow(l, n);
      } else if Slot(base + l) != Slot(base + n) {
        var k := Occupant(base, l, n);
        assert hashval[Slot(base + k)] == vals[k] != v;
      }
    }
  }

  lemma {:induction false} AppendLatest(vals: seq<nat>, v: nat, u: nat)
    ensures Latest(vals + [v], |vals| + 1, u) == if u == v then |vals| else Latest(vals, |vals|, u)
  {
    assert (vals + [v])[..|vals|] == vals[..|vals|];
    LatestPrefix(vals + [v], vals, |vals|, u);
  }

  lemma {:induction false} AppendHeads(base: nat, vals: seq<nat>, head: seq<int>, v: nat)
    requires HeadsOk(base, vals, head) && v < 65536
    ensures HeadsOk(base, vals + [v], head[v := Slot(base + |vals|)])
  {
    forall u | 0 <= u < 65536
      ensures head[v := Slot(base + |vals|)][u] == HeadSlot(base, vals + [v], u)
    {
      AppendLatest(vals, v, u);
    }
  }

  lemma {:induction false} AppendHashvals(base: nat, vals: seq<nat>, hashval: seq<int>, v: nat)
    requires HashvalsOk(base, vals, hashval)
    ensures HashvalsOk(base, vals + [v], hashval[Slot(base + |vals|) := v])
  {
    var n := |vals|;
    forall i: nat | InWindow(i, n + 1)
      ensures hashval[Slot(base + n) := v][Slot(base + i)] == (vals + [v])[i]
    {
      if i < n {
        NextSlot(base, i, n);
      }
    }
  }

  lemma {:induction false} NextSlot(base: nat, i: nat, n: nat)
    requires i < n && InWindow(i, n + 1)
    ensures Slot(base + i) != Slot(base + n) && InWindow(i, n)
  {
    SlotUnique(base + i, base + n);
  }

  lemma {:induction false} AppendPrevs(base: nat, vals: seq<nat>, prev: seq<nat>, v: nat, p: nat)
    requires PrevsOk(base, vals, prev)
    requires p == Slot(base + |vals| - LinkBack(vals + [v], |vals|))
    ensures PrevsOk(base, vals + [v], prev[Slot(base + |vals|) := p])
  {
    var n := |vals|;
    forall i: nat | InWindow(i, n + 1)
      ensures prev[Slot(base + n) := p][Slot(base + i)] == Slot(base + i - LinkBack(vals + [v], i))
    {
      if i < n {
        NextSlot(base, i, n);
        assert (vals + [v])[..i + 1] == vals[..i + 1];
        LinkBackPrefix(vals + [v], vals, i);
      }
    }
  }

  /** What Update stores as the link of the new position. */
  lemma {:induction false} NewLink(base: nat, vals: seq<nat>, head: seq<int>, hashval: seq<int>, v: nat)
    requires HeadsOk(base, vals, head) && HashvalsOk(base, vals, hashval) && v < 65536
    ensures head[v] == NO_HEAD || 0 <= head[v] < 32768
    ensures var n := |vals|;
            var here := Slot(base + n);
            Slot(base + n - LinkBack(vals + [v], n)) ==
            if head[v] != NO_HEAD && hashval[here := v][head[v]] == v then head[v] else here
  {
    var n := |vals|;
    HeadIsLive(base, vals, hashval, v);
    assert head[v] == HeadSlot(base, vals, v);
    assert (vals + [v])[..n] == vals[..n];
    LatestPrefix(vals + [v], vals, n, v);
  }

  /** One hash function's chains. */
  class ChainTable {
    const base: nat
    const head: array<int>
    const prev: array<nat>
    const hashval: array<int>
    ghost var vals: seq<nat>

    /** The tables describe the history `vals` of positions base, base + 1, ... */
    ghost predicate Valid()
      reads this, head, prev, hashval
    {
      && head != hashval
      && HeadsOk(base, vals, head[..])
      && HashvalsOk(base, vals, hashval[..])
      && PrevsOk(base, vals, prev[..])
    }

    constructor (base: nat)
      ensures Valid() && this.base == base && vals == []
      ensures fresh(head) && fresh(prev) && fresh(hashval)
    {
      this.base := base;
      head := new int[65536](_ => NO_HEAD);
      prev := new nat[32768](i => i);
      hashval := new int[32768](_ => -1);
      vals := [];
    }

    /** Appends one position's hash value. */
    method Update(hpos: nat, v: nat)
      requires Valid() && v < 65536 && hpos == Slot(base + |vals|)
      modifies this, head, prev, hashval
      ensures Valid() && vals == old(vals) + [v]
    {
      hide Slot, HeadsOk, HashvalsOk, PrevsOk, LinkBack, Latest;
      TableSizes(base, vals, head[..], prev[..], hashval[..]);
      NewLink(base, vals, head[..], hashval[..], v);
      AppendHeads(base, vals, head[..], v);
      AppendHashvals(base, vals, hashval[..], v);
      hashval[hpos] := v;
      assert hashval[..] == old(hashval[..])[hpos := v];
      var link := if head[v] != NO_HEAD && hashval[head[v]] == v then head[v] else hpos;
      AppendPrevs(base, vals, prev[..], v, link);
      prev[hpos] := link;
      assert prev[..] == old(prev[..])[hpos := link];
      head[v] := hpos;
      assert head[..] == old(head[..])[v := hpos];
      vals := vals + [v];
    }

    /** The tables read at a position of the window. */
    lemma {:induction false} Lookup(i: nat)
      requires Valid() && InWindow(i, |vals|)
      ensures prev.Length == 32768 && hashval.Length == 32768
      ensures hashval[Slot(base + i)] == vals[i]
      ensures prev[Slot(base + i)] == Slot(base + i - LinkBack(vals, i))
    {
      assert hashval[..][Slot(base + i)] == vals[i];
      assert prev[..][Slot(base + i)] == Slot(base + i - LinkBack(vals, i));
    }

    lemma {:induction false} LookupHead()
      requires Valid() && vals != [] && vals[|vals| - 1] < 65536
      ensures head.Length == 65536 && head[vals[|vals| - 1]] == Slot(base + |vals| - 1)
    {
      var v := vals[|vals| - 1];
      assert head[..][v] == HeadSlot(base, vals, v);
    }
  }

  lemma {:induction false} TableSizes(base: nat, vals: seq<nat>, head: seq<int>, prev: seq<nat>, hashval: seq<int>)
    requires HeadsOk(base, vals, head) && HashvalsOk(base, vals, hashval) && PrevsOk(base, vals, prev)
    ensures |head| == 65536 && |prev| == 32768 && |hashval| == 32768
  {
  }
}
