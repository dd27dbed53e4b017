/**
 What the match finder computes, on true positions: hash values as functions of the
 bytes, chains as links to the previous position with the same value, and the walk
 along a chain that keeps the best match so far. No ring buffers and no cache.
 */
module MatchSpec {
  import opened Arith
  import opened Symbols
  import opened Lz77Store
  import opened HashChain
  import opened Inflate

  const MAX_CHAIN_HITS := 8192

  /** The data, where the window starts and where matching must stop. */
  datatype Ctx = Ctx(data: seq<Byte>, start: nat, end: nat)

  predicate ValidCtx(c: Ctx) {
    c.start <= c.end <= |c.data|
  }

  // ----- Hash values -----------------------------------------------------------------

  /** A byte of the buffer; one past the data reads as the terminating zero. */
  function ByteAt(c: Ctx, i: nat): Byte {
    if i < |c.data| then c.data[i] else 0
  }

  function Mix(v: bv16, x: bv16): bv16 {
    ((v << 5) ^ x) & 32767
  }

  function Roll(v: bv16, b: Byte): bv16 {
    Mix(v, b as bv16)
  }

  /** The byte shifted into the hash at a position. */
  function Fed(c: Ctx, pos: nat): Byte
    requires ValidCtx(c)
  {
    if pos + 3 <= c.end then c.data[pos + 2] else 0
  }

  function Warm(c: Ctx): bv16 {
    Roll(Roll(0, ByteAt(c, c.start)), ByteAt(c, c.start + 1))
  }

  function Rolling(c: Ctx, pos: nat): bv16
    requires ValidCtx(c) && c.start <= pos
    decreases pos
  {
    Roll(if pos == c.start then Warm(c) else Rolling(c, pos - 1), Fed(c, pos))
  }

  /** Three bytes push everything older out of the hash. */
  lemma {:induction false} RollForgets(v: bv16, w: bv16, x: Byte, y: Byte, z: Byte)
    ensures Roll(Roll(Roll(v, x), y), z) == Roll(Roll(Roll(w, x), y), z)
  {
    MixForgets(v, w, x as bv16, y as bv16, z as bv16);
  }

  lemma {:induction false} MixForgets(v: bv16, w: bv16, a: bv16, b: bv16, d: bv16)
    ensures Mix(Mix(Mix(v, a), b), d) == Mix(Mix(Mix(w, a), b), d)
  {
  }

  /** Following bytes equal to the one at pos, from the k-th on. */
  function RunFrom(c: Ctx, pos: nat, k: nat): (r: nat)
    requires ValidCtx(c) && pos + k < c.end
    ensures k <= r && pos + r < c.end
    decreases c.end - pos - k
  {
    if pos + k + 1 < c.end && c.data[pos + k + 1] == c.data[pos] then RunFrom(c, pos, k + 1) else k
  }

  /** How often the byte at pos is repeated right after it, at most 65535. */
  function Same(c: Ctx, pos: nat): (r: nat)
    requires ValidCtx(c) && pos < c.end
    ensures pos + r < c.end && r < 65536
  {
    Min(RunFrom(c, pos, 0), 65535)
  }

  lemma {:induction false} RunFromEqual(c: Ctx, pos: nat, k: nat)
    requires ValidCtx(c) && pos + k < c.end
    requires forall i | pos <= i <= pos + k :: c.data[i] == c.data[pos]
    ensures forall i | pos <= i <= pos + RunFrom(c, pos, k) :: c.data[i] == c.data[pos]
    decreases c.end - pos - k
  {
    if pos + k + 1 < c.end && c.data[pos + k + 1] == c.data[pos] {
      RunFromEqual(c, pos, k + 1);
    }
  }

  lemma {:induction false} SameEqual(c: Ctx, pos: nat, i: nat)
    requires ValidCtx(c) && pos < c.end && pos <= i <= pos + Same(c, pos)
    ensures c.data[i] == c.data[pos]
  {
    RunFromEqual(c, pos, 0);
  }

  function Number(v: bv16): (r: nat)
    ensures r < 65536
  {
    v as nat
  }

  /** The second hash value: the first one mixed with the length of the run. */
  function WithRun(v: bv16, same: nat): bv16 {
    (((same - 3) % 256) as bv16) ^ v
  }

  /** The first hash, or the second one, which mixes in the length of the run. */
  function HashOf(c: Ctx, second: bool, pos: nat): (r: nat)
    requires ValidCtx(c) && c.start <= pos < c.end
    ensures r < 65536
  {
    if second then Number(WithRun(Rolling(c, pos), Same(c, pos))) else Number(Rolling(c, pos))
  }

  /** The hash values of the first n positions of the window. */
  function History(c: Ctx, second: bool, n: nat): (r: seq<nat>)
    requires ValidCtx(c) && c.start + n <= c.end
    ensures |r| == n && forall i | 0 <= i < n :: r[i] == HashOf(c, second, c.start + i)
  {
    seq<nat>(n, i requires 0 <= i < n => HashOf(c, second, c.start + i))
  }

  /** The distance from a position to the previous one on its chain, 0 for none. */
  function ChainLink(c: Ctx, second: bool, pos: nat): (d: nat)
    requires ValidCtx(c) && c.start <= pos < c.end
    ensures d <= pos - c.start && d < 32768
  {
    LinkBack(History(c, second, pos - c.start + 1), pos - c.start)
  }

  // ----- Matches ------------------------------------------------------------------------

  /** The length of the match at `dist`, known to be at least k, up to the limit. */
  function MatchFrom(c: Ctx, pos: nat, dist: nat, k: nat, limit: nat): (r: nat)
    requires ValidCtx(c) && 1 <= dist <= pos && k <= limit && pos + limit <= c.end
    ensures k <= r <= limit
    decreases limit - k
  {
    if k < limit && c.data[pos + k] == c.data[pos + k - dist] then MatchFrom(c, pos, dist, k + 1, limit) else k
  }

  lemma {:induction false} MatchFromGenuine(c: Ctx, pos: nat, dist: nat, k: nat, limit: nat)
    requires ValidCtx(c) && 1 <= dist <= pos && k <= limit && pos + limit <= c.end
    ensures forall i: nat | pos + k <= i < pos + MatchFrom(c, pos, dist, k, limit) :: Lz77Store.Repeats(c.data, i, dist)
    decreases limit - k
  {
    if k < limit && c.data[pos + k] == c.data[pos + k - dist] {
      MatchFromGenuine(c, pos, dist, k + 1, limit);
    }
  }

  function MatchLength(c: Ctx, pos: nat, dist: nat, limit: nat): (r: nat)
    requires ValidCtx(c) && 1 <= dist <= pos && pos + limit <= c.end
    ensures r <= limit
  {
    MatchFrom(c, pos, dist, 0, limit)
  }

  /** Matching may start anywhere inside the match. */
  lemma {:induction false} MatchFromInside(c: Ctx, pos: nat, dist: nat, k: nat, k': nat, limit: nat)
    requires ValidCtx(c) && 1 <= dist <= pos && k <= k' <= limit && pos + limit <= c.end
    requires forall i: nat | pos + k <= i < pos + k' :: Lz77Store.Repeats(c.data, i, dist)
    ensures MatchFrom(c, pos, dist, k, limit) == MatchFrom(c, pos, dist, k', limit)
    decreases k' - k
  {
    if k < k' {
      assert Lz77Store.Repeats(c.data, pos + k, dist);
      MatchFromInside(c, pos, dist, k + 1, k', limit);
    }
  }

  lemma {:induction false} MatchLimit(c: Ctx, pos: nat, dist: nat, k: nat, l: nat, m: nat)
    requires ValidCtx(c) && 1 <= dist <= pos && k <= l <= m && pos + m <= c.end
    ensures MatchFrom(c, pos, dist, k, l) == Min(MatchFrom(c, pos, dist, k, m), l)
    decreases l - k
  {
    if k < l && c.data[pos + k] == c.data[pos + k - dist] {
      MatchLimit(c, pos, dist, k + 1, l, m);
    }
  }

  // ----- The walk ---------------------------------------------------------------------------

  /** The best match so far and, for each length from 2 on, the distance that first
      reached it: sub[j - 2] for length j. */
  datatype Best = Best(length: nat, dist: nat, sub: seq<nat>)

  const NOTHING := Best(1, 0, [])

  /** The match length tried at a distance: 0 when the byte just past the best length
      already differs. */
  function Candidate(c: Ctx, pos: nat, limit: nat, dist: nat, best: nat): (r: nat)
    requires ValidCtx(c) && 1 <= dist <= pos && pos + limit <= c.end
    ensures r <= limit
  {
    if pos + best >= c.end || c.data[pos + best] == c.data[pos + best - dist]
    then MatchLength(c, pos, dist, limit) else 0
  }

  function Improve(b: Best, cur: nat, dist: nat): Best {
    if cur > b.length then Best(cur, dist, b.sub + Repeated(dist, cur - b.length)) else b
  }

  /** Whether to follow the second hash from here on. */
  predicate Switch(c: Ctx, pos: nat, second: bool, dist: nat, best: nat)
    requires ValidCtx(c) && c.start + dist <= pos < c.end
  {
    second || (best >= Same(c, pos) && HashOf(c, true, pos) == HashOf(c, true, pos - dist))
  }

  predicate Walking(c: Ctx, pos: nat, limit: nat, dist: nat, b: Best, hits: nat) {
    && ValidCtx(c) && 1 <= dist < 32768 && c.start + dist <= pos && 3 <= limit && pos + limit <= c.end
    && b.length >= 1 && hits >= 1
  }

  function Walk(c: Ctx, pos: nat, limit: nat, second: bool, dist: nat, b: Best, hits: nat): Best
    requires Walking(c, pos, limit, dist, b, hits)
    decreases 32768 - dist
  {
    var cur := Candidate(c, pos, limit, dist, b.length);
    var b' := Improve(b, cur, dist);
    if cur > b.length && cur >= limit then b'
    else
      var second' := Switch(c, pos, second, dist, b'.length);
      var d := ChainLink(c, second', pos - dist);
      if d == 0 || hits <= 1 || dist + d >= 32768 then b'
      else Walk(c, pos, limit, second', dist + d, b', hits - 1)
  }

  /** The search at a position, for matches of at most `limit` bytes. */
  function Search(c: Ctx, pos: nat, limit: nat): Best
    requires ValidCtx(c) && c.start <= pos < c.end && limit >= 3
  {
    if c.end - pos < 3 then Best(0, 0, [])
    else
      var d := ChainLink(c, false, pos);
      if d == 0 then NOTHING
      else Walk(c, pos, Min(limit, c.end - pos), false, d, NOTHING, MAX_CHAIN_HITS)
  }

  // ----- Every match found is genuine -----------------------------------------------------------

  /** Length j is reached at the recorded distance, within the window. */
  predicate SubAt(b: Best, j: nat) {
    2 <= j && j - 2 < |b.sub|
  }

  ghost predicate Sound(c: Ctx, pos: nat, b: Best) {
    && |b.sub| + 1 == b.length && pos + b.length <= c.end
    && (b.length >= 2 ==> b.dist == b.sub[b.length - 2])
    && forall j: nat | SubAt(b, j) ::
         b.sub[j - 2] < 32768 && b.sub[j - 2] <= pos - c.start && Matches(c.data, pos, b.sub[j - 2], j)
  }

  lemma {:induction false} ImproveSound(c: Ctx, pos: nat, limit: nat, dist: nat, b: Best, hits: nat)
    requires Walking(c, pos, limit, dist, b, hits) && Sound(c, pos, b)
    ensures Sound(c, pos, Improve(b, Candidate(c, pos, limit, dist, b.length), dist))
  {
    var cur := Candidate(c, pos, limit, dist, b.length);
    var b' := Improve(b, cur, dist);
    MatchFromGenuine(c, pos, dist, 0, limit);
    if cur > b.length {
      forall j: nat | SubAt(b', j)
        ensures b'.sub[j - 2] < 32768 && b'.sub[j - 2] <= pos - c.start && Matches(c.data, pos, b'.sub[j - 2], j)
      {
        if j - 2 < |b.sub| {
          assert SubAt(b, j) && b'.sub[j - 2] == b.sub[j - 2];
        }
      }
    }
  }

  lemma {:induction false} WalkSound(c: Ctx, pos: nat, limit: nat, second: bool, dist: nat, b: Best, hits: nat)
    requires Walking(c, pos, limit, dist, b, hits) && Sound(c, pos, b) && b.length <= limit
    ensures var r := Walk(c, pos, limit, second, dist, b, hits);
            Sound(c, pos, r) && b.length <= r.length <= limit && b.sub <= r.sub
    decreases 32768 - dist
  {
    hide Candidate, Sound, Switch, ChainLink;
    ImproveSound(c, pos, limit, dist, b, hits);
    var cur := Candidate(c, pos, limit, dist, b.length);
    var b' := Improve(b, cur, dist);
    if !(cur > b.length && cur >= limit) {
      var second' := Switch(c, pos, second, dist, b'.length);
      var d := ChainLink(c, second', pos - dist);
      if d != 0 && hits > 1 && dist + d < 32768 {
        WalkSound(c, pos, limit, second', dist + d, b', hits - 1);
      }
    }
  }

  /** Match soundness: the length and distance found, and the distance recorded for
      every shorter length, are byte-for-byte matches inside the window and the limit. */
  lemma {:induction false} SearchSound(c: Ctx, pos: nat, limit: nat)
    requires ValidCtx(c) && c.start <= pos < c.end && limit >= 3
    ensures var b := Search(c, pos, limit);
            b.length <= limit && (b.length > 0 ==> Sound(c, pos, b))
  {
    hide Walk, ChainLink;
    if c.end - pos >= 3 {
      assert Sound(c, pos, NOTHING);
      var d := ChainLink(c, false, pos);
      if d != 0 {
        WalkSound(c, pos, Min(limit, c.end - pos), false, d, NOTHING, MAX_CHAIN_HITS);
      }
    }
  }

  // ----- A limited search agrees with the full one ------------------------------------------------

  /** What a search limited to l must return, given the full search's result. */
  predicate CutTo(full: Best, cut: Best, l: nat) {
    if full.length >= l
    then 2 <= l <= |full.sub| + 1 && cut == Best(l, full.sub[l - 2], full.sub[..l - 1])
    else cut == full
  }

  lemma {:induction false} WalkLimited(c: Ctx, pos: nat, l: nat, m: nat, second: bool, dist: nat, b: Best, hits: nat)
    requires Walking(c, pos, l, dist, b, hits) && Walking(c, pos, m, dist, b, hits) && l <= m
    requires Sound(c, pos, b) && b.length < l
    ensures CutTo(Walk(c, pos, m, second, dist, b, hits), Walk(c, pos, l, second, dist, b, hits), l)
    decreases 32768 - dist
  {
    hide Sound, Switch, ChainLink, Candidate, Walk, CutTo;
    var curL := Candidate(c, pos, l, dist, b.length);
    var curM := Candidate(c, pos, m, dist, b.length);
    CandidateLimit(c, pos, l, m, dist, b.length);
    var b' := Improve(b, curM, dist);
    if curM > b.length && curM >= l {
      CutHere(c, pos, l, m, second, dist, b, hits);
    } else {
      ImproveSound(c, pos, m, dist, b, hits);
      ImproveSize(c, pos, b');
      WalkUnfold(c, pos, l, second, dist, b, hits);
      WalkUnfold(c, pos, m, second, dist, b, hits);
      var second' := Switch(c, pos, second, dist, b'.length);
      var d := ChainLink(c, second', pos - dist);
      if d == 0 || hits <= 1 || dist + d >= 32768 {
        CutSame(b', l);
      } else {
        WalkLimited(c, pos, l, m, second', dist + d, b', hits - 1);
      }
    }
  }

  lemma {:induction false} CutSame(b: Best, l: nat)
    requires b.length < l
    ensures CutTo(b, b, l)
  {
  }

  lemma {:induction false} CandidateLimit(c: Ctx, pos: nat, l: nat, m: nat, dist: nat, best: nat)
    requires ValidCtx(c) && 1 <= dist <= pos && l <= m && pos + m <= c.end
    ensures Candidate(c, pos, l, dist, best) == Min(Candidate(c, pos, m, dist, best), l)
  {
    hide MatchFrom;
    MatchLimit(c, pos, dist, 0, l, m);
  }

  lemma {:induction false} WalkUnfold(c: Ctx, pos: nat, limit: nat, second: bool, dist: nat, b: Best, hits: nat)
    requires Walking(c, pos, limit, dist, b, hits)
    ensures var cur := Candidate(c, pos, limit, dist, b.length);
            var b' := Improve(b, cur, dist);
            var second' := Switch(c, pos, second, dist, b'.length);
            var d := ChainLink(c, second', pos - dist);
            Walk(c, pos, limit, second, dist, b, hits) ==
            if (cur > b.length && cur >= limit) || d == 0 || hits <= 1 || dist + d >= 32768 then b'
            else Walk(c, pos, limit, second', dist + d, b', hits - 1)
  {
    hide Candidate, Switch, ChainLink;
  }

  lemma {:induction false} ImproveSize(c: Ctx, pos: nat, b: Best)
    requires Sound(c, pos, b)
    ensures |b.sub| + 1 == b.length
  {
  }

  lemma {:induction false} MatchLengthIs(c: Ctx, pos: nat, dist: nat, limit: nat)
    requires ValidCtx(c) && 1 <= dist <= pos && pos + limit <= c.end
    ensures MatchLength(c, pos, dist, limit) == MatchFrom(c, pos, dist, 0, limit)
  {
  }

  /** The full walk reaches length l here: the limited walk stops with the same
      distance, and the full walk's later steps only touch longer lengths. */
  lemma {:induction false} CutHere(c: Ctx, pos: nat, l: nat, m: nat, second: bool, dist: nat, b: Best, hits: nat)
    requires Walking(c, pos, l, dist, b, hits) && Walking(c, pos, m, dist, b, hits) && l <= m
    requires Sound(c, pos, b) && b.length < l
    requires Candidate(c, pos, m, dist, b.length) >= l
    requires Candidate(c, pos, l, dist, b.length) == l
    ensures CutTo(Walk(c, pos, m, second, dist, b, hits), Walk(c, pos, l, second, dist, b, hits), l)
  {
    hide Switch, ChainLink, Candidate, Sound;
    ImproveSize(c, pos, b);
    var curM := Candidate(c, pos, m, dist, b.length);
    var b' := Improve(b, curM, dist);
    ImproveSound(c, pos, m, dist, b, hits);
    var full := Walk(c, pos, m, second, dist, b, hits);
    assert b'.sub <= full.sub && full.length >= curM && |full.sub| + 1 == full.length by {
      WalkSound(c, pos, m, second, dist, b, hits);
      ImproveSize(c, pos, full);
      if !(curM >= m) {
        var second' := Switch(c, pos, second, dist, b'.length);
        var d := ChainLink(c, second', pos - dist);
        if d != 0 && hits > 1 && dist + d < 32768 {
          WalkSound(c, pos, m, second', dist + d, b', hits - 1);
        }
      }
    }
    var cut := Walk(c, pos, l, second, dist, b, hits);
    assert cut == Improve(b, l, dist);
    assert full.sub[..l - 1] == b'.sub[..l - 1] == b.sub + Repeated(dist, l - b.length);
    assert full.sub[l - 2] == b'.sub[l - 2] == dist;
  }

  /** Limited search agrees with full search: whenever the full search reaches length
      l, the search limited to l returns exactly l and the distance the full search
      recorded for it; otherwise both return the same. */
  lemma {:induction false} SearchLimited(c: Ctx, pos: nat, l: nat)
    requires ValidCtx(c) && c.start <= pos < c.end && 3 <= l <= 258
    ensures CutTo(Search(c, pos, 258), Search(c, pos, l), l)
  {
    hide Walk, ChainLink, Sound;
    if c.end - pos >= 3 {
      var d := ChainLink(c, false, pos);
      if d != 0 {
        NothingSound(c, pos);
        var lim, m := Min(l, c.end - pos), Min(258, c.end - pos);
        WalkSound(c, pos, m, false, d, NOTHING, MAX_CHAIN_HITS);
        WalkLimited(c, pos, lim, m, false, d, NOTHING, MAX_CHAIN_HITS);
      }
    }
  }

  lemma {:induction false} NothingSound(c: Ctx, pos: nat)
    requires pos < c.end
    ensures Sound(c, pos, NOTHING)
  {
  }

  // ----- Long repetitions ---------------------------------------------------------------------

  /** The hash at a position with three bytes ahead depends on just those bytes. */
  lemma {:induction false} RollingLastThree(c: Ctx, pos: nat)
    requires ValidCtx(c) && c.start <= pos && pos + 3 <= c.end
    ensures Rolling(c, pos) == Roll(Roll(Roll(0, c.data[pos]), c.data[pos + 1]), c.data[pos + 2])
  {
    hide Roll;
    var x, y, z := c.data[pos], c.data[pos + 1], c.data[pos + 2];
    assert Fed(c, pos) == z;
    if pos > c.start {
      assert Fed(c, pos - 1) == y;
      if pos == c.start + 1 {
        assert Rolling(c, pos - 1) == Roll(Roll(Roll(0, c.data[pos - 1]), x), y);
        RollForgets(Roll(0, c.data[pos - 1]), 0, x, y, z);
      } else {
        assert Fed(c, pos - 2) == x;
        var v := if pos - 2 == c.start then Warm(c) else Rolling(c, pos - 3);
        assert Rolling(c, pos - 2) == Roll(v, x);
        RollForgets(v, 0, x, y, z);
      }
    }
  }

  /** The bytes from pos - 1 up to pos + 258 are all the same. */
  ghost predicate InRun(c: Ctx, pos: nat) {
    && c.start < pos && pos + 258 <= c.end
    && forall i: nat | pos <= i < pos + 258 :: Lz77Store.Repeats(c.data, i, 1)
  }

  lemma {:induction false} RunHash(c: Ctx, pos: nat)
    requires ValidCtx(c) && InRun(c, pos)
    ensures ChainLink(c, false, pos) == 1
  {
    hide Roll, Latest;
    assert Lz77Store.Repeats(c.data, pos, 1) && Lz77Store.Repeats(c.data, pos + 1, 1)
           && Lz77Store.Repeats(c.data, pos + 2, 1);
    RollingLastThree(c, pos);
    RollingLastThree(c, pos - 1);
    var i := pos - c.start;
    var h := History(c, false, i + 1);
    assert h[i - 1] == HashOf(c, false, c.start + (i - 1)) == h[i];
    LatestHere(h, i);
  }

  lemma {:induction false} LatestHere(vals: seq<nat>, n: nat)
    requires 0 < n < |vals| && vals[n - 1] == vals[n]
    ensures Latest(vals, n, vals[n]) == n - 1
  {
  }

  /** Inside a long run the very first candidate, one byte back, is a maximal match. */
  lemma {:induction false} RunSearch(c: Ctx, pos: nat)
    requires ValidCtx(c) && InRun(c, pos)
    ensures Search(c, pos, 258).length == 258 == |Search(c, pos, 258).sub| + 1 && Search(c, pos, 258).sub[256] == 1
  {
    hide ChainLink, MatchFrom;
    RunHash(c, pos);
    MatchFromInside(c, pos, 1, 0, 258, 258);
    MatchFromEnd(c, pos, 1, 258);
    assert Lz77Store.Repeats(c.data, pos + 1, 1);
    assert Candidate(c, pos, 258, 1, 1) == 258;
  }

  lemma {:induction false} MatchFromEnd(c: Ctx, pos: nat, dist: nat, limit: nat)
    requires ValidCtx(c) && 1 <= dist <= pos && pos + limit <= c.end
    ensures MatchFrom(c, pos, dist, limit, limit) == limit
  {
  }
}
