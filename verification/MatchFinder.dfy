/**
 The match finder as it runs: hash state in ring buffers, updated once per
 consecutive position, and the chain walk over slots with accumulated distances. It
 is proved to compute the search of module MatchSpec.
 */
module MatchFinder {
  import opened Arith
  import opened Symbols
  import opened Lz77Store
  import opened HashChain
  import opened MatchSpec
  import opened Inflate

  /** The slot before a position; position 0 wraps around. */
  function SlotBefore(pos: nat): nat {
    if pos == 0 then 32767 else Slot(pos - 1)
  }

  ghost predicate SamesOk(c: Ctx, n: nat, same: seq<nat>) {
    && ValidCtx(c) && c.start + n <= c.end && |same| == 32768
    && (n == 0 ==> forall k | 0 <= k < 32768 :: same[k] == 0)
    && (forall i: nat | InWindow(i, n) :: same[Slot(c.start + i)] == Same(c, c.start + i))
  }

  lemma {:induction false} AppendSames(c: Ctx, n: nat, same: seq<nat>)
    requires SamesOk(c, n, same) && c.start + n < c.end
    ensures SamesOk(c, n + 1, same[Slot(c.start + n) := Same(c, c.start + n)])
  {
    var pos, m := c.start + n, n + 1;
    var after := same[Slot(pos) := Same(c, pos)];
    forall i: nat | InWindow(i, m)
      ensures after[Slot(c.start + i)] == Same(c, c.start + i)
    {
      if i < n {
        NextSlot(c.start, i, n);
      }
    }
  }

  lemma {:induction false} SamesSize(c: Ctx, n: nat, same: seq<nat>)
    requires SamesOk(c, n, same)
    ensures |same| == 32768
  {
  }

  lemma {:induction false} SameBefore(c: Ctx, n: nat, same: seq<nat>)
    requires SamesOk(c, n, same) && c.start + n < c.end
    ensures same[SlotBefore(c.start + n)] == if n == 0 then 0 else Same(c, c.start + n - 1)
  {
    if n > 0 {
      assert InWindow(n - 1, n);
      assert Slot(c.start + (n - 1)) == SlotBefore(c.start + n);
    }
  }

  lemma {:induction false} HistoryAppend(c: Ctx, second: bool, n: nat)
    requires ValidCtx(c) && c.start + n < c.end
    ensures History(c, second, n + 1) == History(c, second, n) + [HashOf(c, second, c.start + n)]
  {
  }

  lemma {:induction false} RunContinues(c: Ctx, pos: nat, amount: nat)
    requires ValidCtx(c) && 1 <= pos < c.end && Same(c, pos - 1) == amount + 1
    ensures pos + amount < c.end && amount < 65536
    ensures forall i | pos <= i <= pos + amount :: c.data[i] == c.data[pos]
  {
    hide Same;
    SameEqual(c, pos - 1, pos);
    forall i | pos <= i <= pos + amount
      ensures c.data[i] == c.data[pos]
    {
      SameEqual(c, pos - 1, i);
    }
  }

  lemma {:induction false} RunLength(c: Ctx, pos: nat, amount: nat)
    requires ValidCtx(c) && pos + amount < c.end && amount <= 65535
    requires forall i | pos <= i <= pos + amount :: c.data[i] == c.data[pos]
    requires pos + amount + 1 < c.end && c.data[pos + amount + 1] == c.data[pos] ==> amount == 65535
    ensures amount == Same(c, pos)
  {
    RunAtLeast(c, pos, 0, amount);
    RunFromEqual(c, pos, 0);
    if RunFrom(c, pos, 0) > amount {
      assert c.data[pos + amount + 1] == c.data[pos];
    }
  }

  lemma {:induction false} RunAtLeast(c: Ctx, pos: nat, k: nat, amount: nat)
    requires ValidCtx(c) && k <= amount && pos + amount < c.end
    requires forall i | pos <= i <= pos + amount :: c.data[i] == c.data[pos]
    ensures RunFrom(c, pos, k) >= amount
    decreases amount - k
  {
    if k < amount {
      RunAtLeast(c, pos, k + 1, amount);
    }
  }

  /** How often data[pos] repeats, continuing from the count of the position before. */
  method CountRepeats(ghost c: Ctx, ghost n: nat, same: array<nat>, data: seq<Byte>, pos: nat, end: nat)
    returns (amount: nat)
    requires SamesOk(c, n, same[..]) && data == c.data && end == c.end && pos == c.start + n && pos < end
    ensures amount == Same(c, pos)
  {
    hide Slot, RunFrom, Same;
    SameBefore(c, n, same[..]);
    amount := 0;
    var before := same[..][SlotBefore(pos)];
    if before > 1 {
      amount := before - 1;
      RunContinues(c, pos, amount);
    }
    while pos + amount + 1 < end && data[pos] == data[pos + amount + 1] && amount < 65535
      invariant pos + amount < end && amount <= 65535
      invariant forall i | pos <= i <= pos + amount :: data[i] == data[pos]
      decreases end - amount
    {
      amount := amount + 1;
    }
    RunLength(c, pos, amount);
  }

  lemma {:induction false} UpdateValue(c: Ctx, pos: nat)
    requires ValidCtx(c) && c.start <= pos
    ensures Rolling(c, pos) == Roll(if pos == c.start then Warm(c) else Rolling(c, pos - 1), Fed(c, pos))
  {
    hide Roll, Warm;
  }

  lemma {:induction false} HashValues(c: Ctx, pos: nat)
    requires ValidCtx(c) && c.start <= pos < c.end
    ensures HashOf(c, false, pos) == Number(Rolling(c, pos))
    ensures HashOf(c, true, pos) == Number(WithRun(Rolling(c, pos), Same(c, pos)))
  {
    hide Rolling, Same, WithRun;
  }

  class Hash {
    const first: ChainTable
    const second: ChainTable
    const same: array<nat>
    var val: bv16
    var val2: bv16
    ghost const c: Ctx
    ghost var n: nat

    ghost predicate Valid()
      reads this, first, first.head, first.prev, first.hashval, second, second.head, second.prev, second.hashval, same
    {
      && ValidCtx(c) && c.start + n <= c.end
      && first.base == second.base == c.start
      && {first, first.head, first.prev, first.hashval} !! {second, second.head, second.prev, second.hashval}
      && same != first.prev && same != second.prev
      && first.Valid() && second.Valid()
      && first.vals == History(c, false, n) && second.vals == History(c, true, n)
      && SamesOk(c, n, same[..])
      && val == (if n == 0 then Warm(c) else Rolling(c, c.start + n - 1))
      && (n > 0 ==> val2 == WithRun(Rolling(c, c.start + n - 1), Same(c, c.start + n - 1)))
    }

    /** Empty tables, and the first two bytes of the window shifted into the hash. */
    constructor (ghost c: Ctx, data: seq<Byte>, start: nat)
      requires ValidCtx(c) && data == c.data && start == c.start
      ensures Valid() && this.c == c && n == 0
      ensures fresh(first) && fresh(first.head) && fresh(first.prev) && fresh(first.hashval)
      ensures fresh(second) && fresh(second.head) && fresh(second.prev) && fresh(second.hashval) && fresh(same)
    {
      this.c := c;
      first := new ChainTable(start);
      second := new ChainTable(start);
      same := new nat[32768](_ => 0);
      val := Roll(Roll(0, if start < |data| then data[start] else 0),
                  if start + 1 < |data| then data[start + 1] else 0);
      val2 := 0;
      n := 0;
    }

    /** Takes in one position: rolls the hash, links both chains, counts repeats. */
    method Update(data: seq<Byte>, pos: nat, end: nat)
      requires Valid() && data == c.data && end == c.end && pos == c.start + n && pos < end
      modifies this`val, this`val2, this`n, same
      modifies first, first.head, first.prev, first.hashval
      modifies second, second.head, second.prev, second.hashval
      ensures Valid() && n == old(n) + 1
    {
      hide Roll, Slot, History, Rolling, SamesOk, Same, WithRun, HashOf, Warm;
      var hpos := Slot(pos);
      UpdateValue(c, pos);
      val := Roll(val, if pos + 3 <= end then data[pos + 2] else 0);
      HistoryAppend(c, false, n);
      HistoryAppend(c, true, n);
      HashValues(c, pos);
      first.Update(hpos, Number(val));
      var amount := CountRepeats(c, n, same, data, pos, end);
      AppendSames(c, n, same[..]);
      SamesSize(c, n, same[..]);
      same[hpos] := amount;
      assert same[..] == old(same[..])[hpos := amount];
      val2 := WithRun(val, amount);
      second.Update(hpos, Number(val2));
      n := n + 1;
    }
  }

  lemma {:induction false} LinkInHistory(c: Ctx, second: bool, n: nat, i: nat)
    requires ValidCtx(c) && c.start + n <= c.end && i < n
    ensures LinkBack(History(c, second, n), i) == ChainLink(c, second, c.start + i)
  {
    hide HashOf, LinkBack;
    assert History(c, second, n)[..i + 1] == History(c, second, i + 1)[..i + 1];
    LinkBackPrefix(History(c, second, n), History(c, second, i + 1), i);
  }

  /** The tables, read at a position of the window, give its chain links and its second
      hash value; the heads lead to the current position. */
  lemma {:induction false} ReadTables(h: Hash, i: nat)
    requires h.Valid() && InWindow(i, h.n)
    ensures h.first.prev.Length == 32768 && h.second.prev.Length == 32768 && h.second.hashval.Length == 32768
    ensures h.first.prev[Slot(h.c.start + i)] == Slot(h.c.start + i - ChainLink(h.c, false, h.c.start + i))
    ensures h.second.prev[Slot(h.c.start + i)] == Slot(h.c.start + i - ChainLink(h.c, true, h.c.start + i))
    ensures h.second.hashval[Slot(h.c.start + i)] == HashOf(h.c, true, h.c.start + i)
  {
    hide Slot, ChainLink, HashOf, LinkBack, SamesOk, Rolling, Warm, WithRun, Same;
    h.first.Lookup(i);
    h.second.Lookup(i);
    LinkInHistory(h.c, false, h.n, i);
    LinkInHistory(h.c, true, h.n, i);
  }

  lemma {:induction false} ReadHead(h: Hash)
    requires h.Valid() && h.n > 0
    ensures h.first.head.Length == 65536 && h.first.head[Number(h.val)] == Slot(h.c.start + h.n - 1)
    ensures Number(h.val2) == HashOf(h.c, true, h.c.start + h.n - 1)
  {
    hide Slot, HashOf, SamesOk, Rolling, Warm, WithRun, Same, History, Number;
    HashValues(h.c, h.c.start + h.n - 1);
    h.first.LookupHead();
  }

  // ----- Comparing bytes ----------------------------------------------------------------

  /** How far the match reaches, starting `k` bytes in: eight bytes at a time while
      they fit, then one by one. */
  method GetMatch(ghost c: Ctx, data: seq<Byte>, pos: nat, dist: nat, k: nat, limit: nat) returns (r: nat)
    requires ValidCtx(c) && data == c.data && 1 <= dist <= pos && k <= limit && pos + limit <= c.end
    ensures r == MatchFrom(c, pos, dist, k, limit)
  {
    hide MatchFrom;
    var scan := pos + k;
    var end := pos + limit;
    while scan < end - 8 && data[scan..scan + 8] == data[scan - dist..scan - dist + 8]
      invariant pos + k <= scan <= end
      invariant MatchFrom(c, pos, dist, scan - pos, limit) == MatchFrom(c, pos, dist, k, limit)
    {
      EightBytes(c, pos, dist, scan, limit);
      scan := scan + 8;
    }
    while scan != end && data[scan] == data[scan - dist]
      invariant pos + k <= scan <= end
      invariant MatchFrom(c, pos, dist, scan - pos, limit) == MatchFrom(c, pos, dist, k, limit)
    {
      OneByte(c, pos, dist, scan - pos, limit);
      scan := scan + 1;
    }
    OneByte(c, pos, dist, scan - pos, limit);
    r := scan - pos;
  }

  lemma {:induction false} EightBytes(c: Ctx, pos: nat, dist: nat, scan: nat, limit: nat)
    requires ValidCtx(c) && 1 <= dist <= pos <= scan && scan + 8 <= pos + limit <= c.end
    requires c.data[scan..scan + 8] == c.data[scan - dist..scan - dist + 8]
    ensures MatchFrom(c, pos, dist, scan - pos, limit) == MatchFrom(c, pos, dist, scan + 8 - pos, limit)
  {
    hide MatchFrom;
    forall i: nat | scan <= i < scan + 8
      ensures Lz77Store.Repeats(c.data, i, dist)
    {
      assert c.data[scan..scan + 8][i - scan] == c.data[scan - dist..scan - dist + 8][i - scan];
    }
    MatchFromInside(c, pos, dist, scan - pos, scan + 8 - pos, limit);
  }

  lemma {:induction false} OneByte(c: Ctx, pos: nat, dist: nat, k: nat, limit: nat)
    requires ValidCtx(c) && 1 <= dist <= pos && k <= limit && pos + limit <= c.end
    ensures MatchFrom(c, pos, dist, k, limit) ==
            if k < limit && c.data[pos + k] == c.data[pos + k - dist]
            then MatchFrom(c, pos, dist, k + 1, limit) else k
  {
  }

  /** Skipping the common part of two runs of the same byte is justified. */
  lemma {:induction false} SkipRun(c: Ctx, pos: nat, dist: nat, limit: nat, skip: nat)
    requires ValidCtx(c) && 1 <= dist <= pos && pos < c.end && pos + limit <= c.end
    requires c.data[pos] == c.data[pos - dist]
    requires skip <= limit && skip <= Same(c, pos) && skip <= Same(c, pos - dist)
    ensures MatchFrom(c, pos, dist, skip, limit) == MatchLength(c, pos, dist, limit)
  {
    hide Same, MatchFrom;
    forall i: nat | pos <= i < pos + skip
      ensures Lz77Store.Repeats(c.data, i, dist)
    {
      SameEqual(c, pos, i);
      SameEqual(c, pos - dist, i - dist);
    }
    MatchFromInside(c, pos, dist, 0, skip, limit);
  }

  /** The length tried at one chain position. */
  method TryDistance(h: Hash, data: seq<Byte>, pos: nat, size: nat, limit: nat, dist: nat, bestlength: nat)
    returns (currentlength: nat)
    requires h.Valid() && data == h.c.data && size == h.c.end && h.n > 0 && pos == h.c.start + h.n - 1
    requires 1 <= dist < 32768 && h.c.start + dist <= pos && pos + limit <= size
    ensures currentlength == Candidate(h.c, pos, limit, dist, bestlength)
  {
    hide Same, MatchFrom, Slot, MatchLength;
    currentlength := 0;
    if pos + bestlength >= size || data[pos + bestlength] == data[pos + bestlength - dist] {
      ReadSame(h.c, h.n, h.same[..], h.n - 1);
      ReadSame(h.c, h.n, h.same[..], h.n - 1 - dist);
      var same0 := h.same[Slot(pos)];
      var skip := 0;
      if same0 > 2 && data[pos] == data[pos - dist] {
        var same1 := h.same[Slot(pos - dist)];
        skip := Min(Min(same0, same1), limit);
        SkipRun(h.c, pos, dist, limit, skip);
      }
      MatchLengthIs(h.c, pos, dist, limit);
      currentlength := GetMatch(h.c, data, pos, dist, skip, limit);
    }
  }

  lemma {:induction false} ReadSame(c: Ctx, n: nat, same: seq<nat>, i: nat)
    requires SamesOk(c, n, same) && InWindow(i, n)
    ensures |same| == 32768 && same[Slot(c.start + i)] == Same(c, c.start + i)
  {
  }

  // ----- The walk over slots --------------------------------------------------------------

  /** The distance between two ring slots, the second one earlier. */
  function RingGap(pp: nat, p: nat): nat
    requires pp < 32768 && p < 32768
  {
    if p < pp then pp - p else 32768 - p + pp
  }

  ghost predicate SubWritten(sublen: seq<nat>, b: Best) {
    && |sublen| == 259 && |b.sub| + 1 == b.length <= 258
    && forall j | 2 <= j <= b.length :: sublen[j] == b.sub[j - 2]
  }

  /** Records `dist` for the lengths from `from` up to `to`. */
  method FillSublen(sublen: array<nat>, from: nat, to: nat, dist: nat, ghost b: Best)
    requires SubWritten(sublen[..], b) && from == b.length + 1 <= to <= 258
    modifies sublen
    ensures SubWritten(sublen[..], Improve(b, to, dist))
  {
    for j := from to to + 1
      invariant forall i | 2 <= i <= b.length :: sublen[i] == b.sub[i - 2]
      invariant forall i | from <= i < j :: sublen[i] == dist
    {
      sublen[j] := dist;
    }
  }

  /** The current position is the last one the hash has taken in. */
  ghost predicate AtPosition(h: Hash, data: seq<Byte>, pos: nat, size: nat)
    reads h, h.first, h.first.head, h.first.prev, h.first.hashval
    reads h.second, h.second.head, h.second.prev, h.second.hashval, h.same
  {
    h.Valid() && data == h.c.data && size == h.c.end && h.n > 0 && pos == h.c.start + h.n - 1
  }

  ghost predicate Separate(h: Hash, sublen: array?<nat>)
  {
    sublen != null ==>
      sublen.Length == 259 && sublen != h.same && sublen != h.first.prev && sublen != h.second.prev
  }

  /** Tries one distance and keeps it if it is better. */
  method TryAndRecord(h: Hash, data: seq<Byte>, pos: nat, size: nat, limit: nat, dist: nat, sublen: array?<nat>,
                      bestlength: nat, bestdist: nat, ghost b: Best)
    returns (bestlength': nat, bestdist': nat, currentlength: nat)
    requires AtPosition(h, data, pos, size) && Separate(h, sublen) && limit <= 258
    requires 1 <= dist < 32768 && h.c.start + dist <= pos && pos + limit <= size
    requires bestlength == b.length && bestdist == b.dist && (sublen != null ==> SubWritten(sublen[..], b))
    modifies sublen
    ensures currentlength == Candidate(h.c, pos, limit, dist, b.length)
    ensures var b' := Improve(b, currentlength, dist);
            bestlength' == b'.length && bestdist' == b'.dist && (sublen != null ==> SubWritten(sublen[..], b'))
  {
    hide Candidate, SubWritten, SamesOk, History, Rolling, Warm, WithRun;
    bestlength', bestdist' := bestlength, bestdist;
    currentlength := TryDistance(h, data, pos, size, limit, dist, bestlength);
    if currentlength > bestlength {
      if sublen != null {
        FillSublen(sublen, bestlength + 1, currentlength, dist, b);
      }
      bestdist' := dist;
      bestlength' := currentlength;
    }
  }

  /** One step back along the chain, on the second hash once that pays off. */
  method FollowLink(h: Hash, data: seq<Byte>, pos: nat, size: nat, dist: nat, p: nat, second: bool, bestlength: nat)
    returns (second': bool, p': nat)
    requires AtPosition(h, data, pos, size)
    requires 1 <= dist < 32768 && h.c.start + dist <= pos && p == Slot(pos - dist)
    ensures second' == Switch(h.c, pos, second, dist, bestlength)
    ensures var d := ChainLink(h.c, second', pos - dist);
            && p' == Slot(pos - dist - d) && p' < 32768
            && (p' == p <==> d == 0) && (d > 0 ==> RingGap(p, p') == d)
  {
    hide Slot, ChainLink, HashOf, SamesOk, Rolling, Warm, WithRun, Same, History;
    ReadTables(h, h.n - 1 - dist);
    ReadHead(h);
    ReadSame(h.c, h.n, h.same[..], h.n - 1);
    second' := second;
    if !second && bestlength >= h.same[Slot(pos)] && Number(h.val2) == h.second.hashval[p] {
      second' := true;
    }
    p' := if second' then h.second.prev[p] else h.first.prev[p];
    ghost var d := ChainLink(h.c, second', pos - dist);
    RingDistance(pos - dist, d);
  }

  /** Where the walk starts. */
  method FirstLink(h: Hash, data: seq<Byte>, pos: nat, size: nat) returns (p: nat, dist: nat)
    requires AtPosition(h, data, pos, size)
    ensures var d := ChainLink(h.c, false, pos);
            p == Slot(pos - d) && dist == if d == 0 then 32768 else d
  {
    hide Slot, ChainLink, HashOf, SamesOk, Rolling, Warm, WithRun, Same, History;
    ReadHead(h);
    ReadTables(h, h.n - 1);
    RingDistance(pos, ChainLink(h.c, false, pos));
    var pp := h.first.head[Number(h.val)];
    p := h.first.prev[pp];
    dist := RingGap(pp, p);
  }

  /** The uncached search; `sublen`, if given, receives the distance per length. */
  method WalkChains(h: Hash, data: seq<Byte>, pos: nat, size: nat, limit: nat, sublen: array?<nat>)
    returns (bestlength: nat, bestdist: nat, ghost b: Best)
    requires AtPosition(h, data, pos, size) && Separate(h, sublen)
    requires 3 <= limit <= 258 && pos + limit <= size
    modifies sublen
    ensures var d := ChainLink(h.c, false, pos);
            b == if d == 0 then NOTHING else Walk(h.c, pos, limit, false, d, NOTHING, MAX_CHAIN_HITS)
    ensures bestlength == b.length && bestdist == b.dist
    ensures sublen != null ==> SubWritten(sublen[..], b)
  {
    hide Slot, ChainLink, HashOf, SamesOk, Rolling, Warm, WithRun, Same, Walk, Candidate, History, Switch;
    ghost var c := h.c;
    b := NOTHING;
    bestlength, bestdist := 1, 0;
    var chainCounter := MAX_CHAIN_HITS;
    var p, dist := FirstLink(h, data, pos, size);
    var second := false;
    ghost var target := if dist == 32768 then NOTHING else Walk(c, pos, limit, false, dist, NOTHING, MAX_CHAIN_HITS);
    while dist < 32768
      invariant AtPosition(h, data, pos, size) && b.length == bestlength && b.dist == bestdist
      invariant sublen != null ==> SubWritten(sublen[..], b)
      invariant chainCounter >= 1 && dist >= 1
      invariant (dist < 32768 ==>
                  && Walking(c, pos, limit, dist, b, chainCounter) && p == Slot(pos - dist)
                  && Walk(c, pos, limit, second, dist, b, chainCounter) == target)
      invariant dist >= 32768 ==> b == target
      decreases 32768 - dist
    {
      WalkUnfold(c, pos, limit, second, dist, b, chainCounter);
      var lastlength := bestlength;
      var currentlength;
      bestlength, bestdist, currentlength :=
        TryAndRecord(h, data, pos, size, limit, dist, sublen, bestlength, bestdist, b);
      b := Improve(b, currentlength, dist);
      if currentlength > lastlength && currentlength >= limit {
        break;
      }
      var pp := p;
      second, p := FollowLink(h, data, pos, size, dist, p, second, bestlength);
      if p == pp {
        break;
      }
      dist := dist + RingGap(pp, p);
      chainCounter := chainCounter - 1;
      if chainCounter <= 0 {
        break;
      }
    }
  }
}
