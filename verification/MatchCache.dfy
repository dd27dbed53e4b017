/**
 The longest-match cache: per position of the block the length and distance of the
 full search, and up to eight runs of equal distances packed into 24 bytes. Reading
 the cache must be indistinguishable from searching again.
 */
module MatchCache {
  import opened Arith
  import opened Symbols
  import opened Lz77Store
  import opened HashChain
  import opened MatchSpec
  import opened MatchFinder

  const RUNS := 8

  // ----- Packed runs ------------------------------------------------------------------

  /** The distance stored in run j. */
  function RunDist(row: seq<Byte>, j: nat): nat
    requires |row| == 24 && j < RUNS
  {
    row[3 * j + 1] as int + 256 * row[3 * j + 2] as int
  }

  /** The longest length run j stands for. */
  function RunEnd(row: seq<Byte>, j: nat): nat
    requires |row| == 24 && j < RUNS
  {
    row[3 * j] as int + 3
  }

  function RunStart(ends: seq<nat>, j: nat): nat
    requires j <= |ends|
  {
    if j == 0 then 3 else ends[j - 1] + 1
  }

  /** Run j of the row covers the lengths after run j - 1 up to ends[j], all with the
      distance the search recorded. */
  ghost predicate RunOk(row: seq<Byte>, ends: seq<nat>, sub: seq<nat>, j: nat)
    requires |row| == 24 && j < |ends| <= RUNS
  {
    && RunEnd(row, j) == ends[j] && RunStart(ends, j) <= ends[j] <= |sub| + 1
    && forall k: nat | RunStart(ends, j) <= k <= ends[j] :: DistIs(sub, k, RunDist(row, j))
  }

  predicate DistIs(sub: seq<nat>, k: nat, dist: nat) {
    2 <= k < |sub| + 2 && sub[k - 2] == dist
  }

  ghost predicate Packed(row: seq<Byte>, ends: seq<nat>, sub: seq<nat>) {
    && |row| == 24 && |ends| <= RUNS
    && forall j | 0 <= j < |ends| :: RunOk(row, ends, sub, j)
  }

  /** The length up to which distances are cached; 0 when nothing is. */
  function MaxCachedSublen(row: seq<Byte>): nat
    requires |row| == 24
  {
    if row[1] == 0 && row[2] == 0 then 0 else row[3 * (RUNS - 1)] as int + 3
  }

  lemma {:induction false} PackRun(row: seq<Byte>, ends: seq<nat>, sub: seq<nat>, i: nat, d: nat)
    requires Packed(row, ends, sub) && |ends| < RUNS
    requires 3 <= RunStart(ends, |ends|) <= i <= |sub| + 1 && i <= 258 && d < 65536
    requires forall k: nat | RunStart(ends, |ends|) <= k <= i :: DistIs(sub, k, d)
    ensures var j := |ends|;
            Packed(row[3 * j := i - 3][3 * j + 1 := d % 256][3 * j + 2 := d / 256 % 256], ends + [i], sub)
  {
    var j := |ends|;
    var row' := row[3 * j := i - 3][3 * j + 1 := d % 256][3 * j + 2 := d / 256 % 256];
    var ends' := ends + [i];
    forall t | 0 <= t < |ends'|
      ensures RunOk(row', ends', sub, t)
    {
      if t < j {
        assert RunOk(row, ends, sub, t);
        assert RunStart(ends', t) == RunStart(ends, t);
        assert RunDist(row', t) == RunDist(row, t) && RunEnd(row', t) == RunEnd(row, t);
      } else {
        assert RunDist(row', j) == d;
      }
    }
  }

  /** The distances of lengths 3..m can be read off the row. */
  ghost predicate Caches(row: seq<Byte>, sub: seq<nat>, m: nat) {
    |row| == 24 && MaxCachedSublen(row) == m && exists ends :: EndsAt(row, ends, sub, m)
  }

  ghost predicate EndsAt(row: seq<Byte>, ends: seq<nat>, sub: seq<nat>, m: nat) {
    Packed(row, ends, sub) && 1 <= |ends| && ends[|ends| - 1] == m
  }

  ghost predicate Distances(sublen: seq<nat>, length: nat) {
    |sublen| == 259 && length <= 258 && forall k: nat | 2 <= k <= length :: 1 <= sublen[k] < 32768
  }

  lemma {:induction false} FirstRunSet(row: seq<Byte>, ends: seq<nat>, sub: seq<nat>)
    requires Packed(row, ends, sub) && 1 <= |ends| && forall k | 0 <= k < |sub| :: sub[k] >= 1
    ensures (row[1] != 0 || row[2] != 0)
  {
    assert RunOk(row, ends, sub, 0);
    assert DistIs(sub, 3, RunDist(row, 0));
  }

  /** The end of the last run goes into the last slot unless that slot is taken. */
  lemma {:induction false} SetMax(row: seq<Byte>, ends: seq<nat>, sub: seq<nat>, m: nat)
    requires Packed(row, ends, sub) && 1 <= |ends| && ends[|ends| - 1] == m && 3 <= m <= 258
    ensures |ends| < RUNS ==> Packed(row[21 := m - 3], ends, sub)
    ensures |ends| == RUNS ==> row[21] as int + 3 == m
  {
    if |ends| < RUNS {
      var row' := row[21 := m - 3];
      forall j | 0 <= j < |ends|
        ensures RunOk(row', ends, sub, j)
      {
        assert RunOk(row, ends, sub, j);
        assert RunDist(row', j) == RunDist(row, j) && RunEnd(row', j) == RunEnd(row, j);
      }
    } else {
      assert RunOk(row, ends, sub, 7);
    }
  }

  /** Packs the distances for lengths 3..length, as many runs as fit. */
  method SublenToCache(sublen: seq<nat>, length: nat, row: seq<Byte>, ghost b: Best) returns (r: seq<Byte>)
    requires SubWritten(sublen, b) && length == b.length && 3 <= length && |row| == 24 && Distances(sublen, length)
    ensures |r| == 24 && 3 <= MaxCachedSublen(r) <= length && Caches(r, b.sub, MaxCachedSublen(r))
  {
    hide Packed, MaxCachedSublen, EndsAt;
    forall k | 0 <= k < |b.sub|
      ensures b.sub[k] >= 1
    {
      assert sublen[k + 2] == b.sub[k + 2 - 2];
    }
    r := row;
    ghost var ends: seq<nat> := [];
    NoRuns(r, b.sub);
    var i, j, bestlength := 3, 0, 0;
    while i <= length
      invariant 3 <= i <= length + 1 && |r| == 24 && j == |ends| < RUNS && Packed(r, ends, b.sub)
      invariant 3 <= RunStart(ends, |ends|) <= i
      invariant i <= length ==> forall k: nat | RunStart(ends, |ends|) <= k <= i :: sublen[k] == sublen[i]
      invariant i > length ==> ends != []
      invariant ends != [] ==> bestlength == ends[|ends| - 1] && 3 <= bestlength <= length
    {
      if i == length || sublen[i] != sublen[i + 1] {
        ghost var d := sublen[i];
        forall k: nat | RunStart(ends, |ends|) <= k <= i
          ensures DistIs(b.sub, k, d)
        {
          assert sublen[k] == d;
        }
        PackRun(r, ends, b.sub, i, d);
        r := r[3 * j := i - 3][3 * j + 1 := sublen[i] % 256][3 * j + 2 := sublen[i] / 256 % 256];
        ends := ends + [i];
        bestlength := i;
        j := j + 1;
        if j >= RUNS {
          break;
        }
      }
      i := i + 1;
    }
    SetMax(r, ends, b.sub, bestlength);
    if j < RUNS {
      r := r[3 * (RUNS - 1) := bestlength - 3];
    }
    FirstRunSet(r, ends, b.sub);
    MaxIs(r, ends, b.sub, bestlength);
  }

  lemma {:induction false} NoRuns(row: seq<Byte>, sub: seq<nat>)
    requires |row| == 24
    ensures Packed(row, [], sub)
  {
  }

  lemma {:induction false} MaxIs(row: seq<Byte>, ends: seq<nat>, sub: seq<nat>, m: nat)
    requires Packed(row, ends, sub) && 1 <= |ends| && ends[|ends| - 1] == m
    requires (row[1] != 0 || row[2] != 0) && row[21] as int + 3 == m
    ensures MaxCachedSublen(row) == m && Caches(row, sub, m)
  {
    assert EndsAt(row, ends, sub, m);
  }

  lemma {:induction false} LaterRun(row: seq<Byte>, ends: seq<nat>, sub: seq<nat>, j: nat)
    requires Packed(row, ends, sub) && j < |ends| - 1
    ensures ends[j] < ends[|ends| - 1]
    decreases |ends| - j
  {
    assert RunOk(row, ends, sub, j + 1);
    if j + 1 < |ends| - 1 {
      LaterRun(row, ends, sub, j + 1);
    }
  }

  /** Unpacks the cached distances. */
  method CacheToSublen(row: seq<Byte>, length: nat, sublen: array<nat>, ghost sub: seq<nat>)
    requires |row| == 24 && sublen.Length == 259 && length >= 3 && |sub| <= 257
    requires Caches(row, sub, MaxCachedSublen(row))
    modifies sublen
    ensures MaxCachedSublen(row) <= |sub| + 1
    ensures forall k: nat | 3 <= k <= MaxCachedSublen(row) :: sublen[k] == sub[k - 2]
  {
    hide MaxCachedSublen, Packed;
    var maxlength := MaxCachedSublen(row);
    ghost var ends :| EndsAt(row, ends, sub, maxlength);
    var prevlength := 0;
    var j := 0;
    LastRun(row, ends, sub);
    while j < RUNS
      invariant 0 <= j < |ends| <= RUNS && prevlength == (if j == 0 then 0 else ends[j - 1] + 1)
      invariant RunStart(ends, j) <= 259
      invariant forall k: nat | 3 <= k < RunStart(ends, j) :: DistIs(sub, k, sublen[k])
      decreases RUNS - j
    {
      RunAt(row, ends, sub, j);
      var len := RunEnd(row, j);
      var dist := RunDist(row, j);
      var i := prevlength;
      while i <= len
        invariant prevlength <= i <= len + 1
        invariant forall k: nat | 3 <= k < RunStart(ends, j) :: DistIs(sub, k, sublen[k])
        invariant forall k: nat | prevlength <= k < i :: sublen[k] == dist
      {
        sublen[i] := dist;
        i := i + 1;
      }
      if len == maxlength {
        forall k: nat | 3 <= k <= maxlength
          ensures sublen[k] == sub[k - 2]
        {
          if k < RunStart(ends, j) {
            assert DistIs(sub, k, sublen[k]);
          } else {
            assert DistIs(sub, k, RunDist(row, j));
          }
        }
        break;
      }
      prevlength := len + 1;
      j := j + 1;
    }
  }

  lemma {:induction false} LastRun(row: seq<Byte>, ends: seq<nat>, sub: seq<nat>)
    requires Packed(row, ends, sub) && 1 <= |ends|
    ensures |ends| <= RUNS && ends[|ends| - 1] <= |sub| + 1
  {
    assert RunOk(row, ends, sub, |ends| - 1);
  }

  lemma {:induction false} RunAt(row: seq<Byte>, ends: seq<nat>, sub: seq<nat>, j: nat)
    requires Packed(row, ends, sub) && j < |ends|
    ensures |ends| <= RUNS && |row| == 24 && RunEnd(row, j) == ends[j] && 3 <= RunStart(ends, j) <= ends[j] <= |sub| + 1
    ensures forall k: nat | RunStart(ends, j) <= k <= ends[j] :: DistIs(sub, k, RunDist(row, j))
    ensures j < |ends| - 1 ==> ends[j] < ends[|ends| - 1]
  {
    assert RunOk(row, ends, sub, j);
    if j > 0 {
      assert RunOk(row, ends, sub, j - 1);
    }
    if j < |ends| - 1 {
      LaterRun(row, ends, sub, j);
    }
  }

  // ----- The cache of a block ---------------------------------------------------------

  /** Not filled in: the impossible pair of length 1 and distance 0. */
  predicate Vacant(length: nat, dist: nat) {
    length == 1 && dist == 0
  }

  /** What a filled entry of the cache holds: the full search, lengths below 3 as 0. */
  ghost predicate Remembers(c: Ctx, pos: nat, length: nat, dist: nat, row: seq<Byte>) {
    && ValidCtx(c) && c.start <= pos < c.end && |row| == 24
    && var f := Search(c, pos, 258);
       if f.length < 3 then length == 0 && dist == 0 && MaxCachedSublen(row) == 0
       else length == f.length && dist == f.dist && MaxCachedSublen(row) <= length
            && Caches(row, f.sub, MaxCachedSublen(row))
  }

  ghost predicate EntryOk(c: Ctx, pos: nat, length: nat, dist: nat, row: seq<Byte>) {
    |row| == 24 && if Vacant(length, dist) then MaxCachedSublen(row) == 0 else Remembers(c, pos, length, dist, row)
  }

  class Cache {
    const blockstart: nat
    const length: array<nat>
    const dist: array<nat>
    const rows: array<seq<Byte>>

    ghost predicate Valid(c: Ctx)
      reads length, dist, rows
    {
      && length.Length == dist.Length == rows.Length && length != dist
      && blockstart + length.Length <= c.end
      && forall i | 0 <= i < length.Length :: EntryOk(c, blockstart + i, length[i], dist[i], rows[i])
    }

    constructor (blockstart: nat, blocksize: nat)
      ensures this.blockstart == blockstart && length.Length == blocksize
      ensures fresh(length) && fresh(dist) && fresh(rows)
      ensures forall c: Ctx | blockstart + blocksize <= c.end :: Valid(c)
    {
      this.blockstart := blockstart;
      length := new nat[blocksize](_ => 1);
      dist := new nat[blocksize](_ => 0);
      rows := new seq<Byte>[blocksize](_ => EmptyRow());
    }

    /** Length > 0 with distance 0 marks an entry as not filled in. */
    predicate Available(i: nat)
      requires i < length.Length && i < dist.Length
      reads length, dist
    {
      length[i] == 0 || dist[i] != 0
    }

    /** Fills in a vacant entry with the result of a full search. */
    method Store(ghost c: Ctx, i: nat, sublen: seq<nat>, distance: nat, len: nat, ghost b: Best)
      requires Valid(c) && i < length.Length && !Available(i)
      requires ValidCtx(c) && c.start <= blockstart + i < c.end && b == Search(c, blockstart + i, 258) && b.length >= 1
      requires len == b.length && distance == b.dist && SubWritten(sublen, b) && Distances(sublen, len)
      modifies length, dist, rows
      ensures Valid(c) && Available(i)
    {
      hide Search, MaxCachedSublen, Caches, SubWritten, Distances;
      assert EntryOk(c, blockstart + i, length[i], dist[i], rows[i]);
      VacantEntry(c, blockstart + i, length[i], dist[i], rows[i]);
      ghost var ls, ds, rs := length[..], dist[..], rows[..];
      dist[i] := if len < 3 then 0 else distance;
      length[i] := if len < 3 then 0 else len;
      if len >= 3 {
        var row := SublenToCache(sublen, len, rows[i], b);
        rows[i] := row;
      }
      DistPositive(sublen, b);
      if len >= 3 {
        SearchSound(c, blockstart + i, 258);
        SoundDist(c, blockstart + i, b, len);
      }
      forall k | 0 <= k < length.Length
        ensures EntryOk(c, blockstart + k, length[k], dist[k], rows[k])
      {
        if k != i {
          assert EntryOk(c, blockstart + k, ls[k], ds[k], rs[k]);
        }
      }
    }
  }

  function EmptyRow(): (r: seq<Byte>)
    ensures |r| == 24 && MaxCachedSublen(r) == 0
  {
    seq(24, _ => 0)
  }

  /** An entry is available exactly when it is not vacant. */
  lemma {:induction false} VacantEntry(c: Ctx, pos: nat, length: nat, dist: nat, row: seq<Byte>)
    requires EntryOk(c, pos, length, dist, row)
    ensures |row| == 24 && (Vacant(length, dist) <==> !(length == 0 || dist != 0))
    ensures Vacant(length, dist) ==> MaxCachedSublen(row) == 0
  {
    hide Search, Caches, MaxCachedSublen;
    if Remembers(c, pos, length, dist, row) {
      SearchSound(c, pos, 258);
      var f := Search(c, pos, 258);
      if f.length >= 3 {
        SoundDist(c, pos, f, f.length);
      }
    }
  }

  lemma {:induction false} SoundDist(c: Ctx, pos: nat, b: Best, j: nat)
    requires Sound(c, pos, b) && 2 <= j <= b.length
    ensures |b.sub| + 1 == b.length && 1 <= b.sub[j - 2] < 32768 && b.sub[j - 2] <= pos - c.start
    ensures Matches(c.data, pos, b.sub[j - 2], j)
    ensures b.dist == b.sub[b.length - 2] && pos + b.length <= c.end
  {
    assert SubAt(b, j);
    assert SubAt(b, b.length);
  }

  lemma {:induction false} DistPositive(sublen: seq<nat>, b: Best)
    requires SubWritten(sublen, b) && Distances(sublen, b.length)
    ensures b.length >= 2 ==> b.sub[b.length - 2] >= 1
  {
    if b.length >= 2 {
      assert sublen[b.length] == b.sub[b.length - 2];
    }
  }
}
