/**
 ZopfliFindLongestMatch with its cache. The answer is that of the uncached search:
 the same length, distance and per-length distances whenever the length is at least
 3, and a length below 3 otherwise.
 */
module LongestMatch {
  import opened Arith
  import opened Symbols
  import opened Lz77Store
  import opened HashChain
  import opened MatchSpec
  import opened MatchFinder
  import opened MatchCache

  /** A reported match against the search it stands for. */
  ghost predicate Answers(b: Best, length: nat, distance: nat) {
    if b.length >= 3 then length == b.length && distance == b.dist else length < 3
  }

  ghost predicate AnswersSub(b: Best, sublen: seq<nat>) {
    b.length >= 3 ==>
      b.length < |sublen| && b.length == |b.sub| + 1 && forall k: nat | 3 <= k <= b.length :: sublen[k] == b.sub[k - 2]
  }

  /** The limit the search really obeys. With per-length distances requested, a limit
      below 258, and a cached length above what the cache can unpack, the code replaces
      the limit by the cached length even when that is larger. */
  function EffectiveLimit(wantSublen: bool, limit: nat, cachedLength: nat, cachedUpTo: nat): nat {
    if wantSublen && limit < 258 && limit <= cachedUpTo < cachedLength then cachedLength else limit
  }

  ghost function HashRepr(h: Hash): set<object> {
    {h, h.first, h.first.head, h.first.prev, h.first.hashval,
     h.second, h.second.head, h.second.prev, h.second.hashval, h.same}
  }

  ghost function CacheRepr(lmc: Cache?): set<object> {
    if lmc == null then {} else {lmc.length, lmc.dist, lmc.rows}
  }

  ghost predicate Disjoint(h: Hash, lmc: Cache?, sublen: array?<nat>) {
    HashRepr(h) !! CacheRepr(lmc) && (sublen != null ==> sublen !in HashRepr(h) && sublen !in CacheRepr(lmc))
  }

  /** The cache belongs to the block being matched and holds its position. */
  ghost predicate CacheOk(lmc: Cache?, c: Ctx, pos: nat)
    reads CacheRepr(lmc)
  {
    lmc != null ==> lmc.Valid(c) && lmc.blockstart <= pos < lmc.blockstart + lmc.length.Length
  }

  /** The limit obeyed at a position, given what the cache holds there. */
  ghost function LimitFor(lmc: Cache?, pos: nat, limit: nat, wantSublen: bool): nat
    reads CacheRepr(lmc)
  {
    if lmc == null || pos < lmc.blockstart then limit
    else
      var i := pos - lmc.blockstart;
      if i < lmc.length.Length && i < lmc.dist.Length && i < lmc.rows.Length && lmc.Available(i) && |lmc.rows[i]| == 24
      then EffectiveLimit(wantSublen, limit, lmc.length[i], MaxCachedSublen(lmc.rows[i]))
      else limit
  }

  // ----- Agreement of limited searches with the cached one ------------------------------

  lemma {:induction false} CachedAnswer(c: Ctx, pos: nat, limit: nat, length: nat, dist: nat, row: seq<Byte>)
    requires Remembers(c, pos, length, dist, row) && 3 <= limit <= 258 && length <= limit
    ensures Answers(Search(c, pos, limit), length, dist)
    ensures length >= 3 ==> Search(c, pos, limit) == Search(c, pos, 258)
  {
    hide Search, Caches, MaxCachedSublen, Sound;
    SearchLimited(c, pos, limit);
    SearchSound(c, pos, 258);
    var f := Search(c, pos, 258);
    if f.length >= 3 {
      SoundDist(c, pos, f, f.length);
      assert f.length == limit ==> f.sub[..limit - 1] == f.sub;
    }
  }

  lemma {:induction false} CutAnswer(c: Ctx, pos: nat, limit: nat, length: nat, dist: nat, row: seq<Byte>)
    requires Remembers(c, pos, length, dist, row) && 3 <= limit <= 258 && length > limit
    ensures var f := Search(c, pos, 258);
            |f.sub| >= limit - 1 && Search(c, pos, limit) == Best(limit, f.sub[limit - 2], f.sub[..limit - 1])
  {
    hide Search, Caches, MaxCachedSublen, Sound;
    SearchLimited(c, pos, limit);
  }

  lemma {:induction false} SoundSub(c: Ctx, pos: nat, limit: nat)
    requires ValidCtx(c) && c.start <= pos < c.end && 3 <= limit <= 258
    ensures var f := Search(c, pos, limit);
            f.length <= limit && (f.length >= 3 ==> |f.sub| + 1 == f.length && f.dist == f.sub[f.length - 2])
  {
    hide Search;
    SearchSound(c, pos, limit);
  }

  /** Cache transparency, exactly: what is reported with a filled entry answers for the
      search under the limit asked for, unless the entry holds only part of a match longer
      than the limit, but a part that reaches the limit, and distances were asked for. Then
      the match reported is longer than the limit. */
  lemma {:induction false} TransparentExactly(c: Ctx, pos: nat, limit: nat, wantSublen: bool, length: nat, dist: nat,
                                              row: seq<Byte>)
    requires Remembers(c, pos, length, dist, row) && 3 <= limit <= 258
    ensures var asked := Search(c, pos, limit);
            var obeyed := Search(c, pos, EffectiveLimit(wantSublen, limit, length, MaxCachedSublen(row)));
            && ((forall l: nat, d: nat :: Answers(obeyed, l, d) ==> Answers(asked, l, d))
                <==> !(wantSublen && limit < 258 && limit <= MaxCachedSublen(row) < length))
            && (wantSublen && limit < 258 && limit <= MaxCachedSublen(row) < length ==>
                  obeyed.length == length > limit == asked.length)
  {
    hide Search, Caches, MaxCachedSublen, Sound;
    SoundSub(c, pos, 258);
    if wantSublen && limit < 258 && limit <= MaxCachedSublen(row) < length {
      SearchLimited(c, pos, limit);
      SearchLimited(c, pos, length);
      var asked, obeyed := Search(c, pos, limit), Search(c, pos, length);
      assert Answers(obeyed, length, obeyed.dist) && !Answers(asked, length, obeyed.dist);
    }
  }

  /** Reads a fully cached entry. */
  method ReadCache(lmc: Cache, ghost c: Ctx, i: nat, limit: nat, sublen: array?<nat>)
    returns (distance: nat, length: nat)
    requires lmc.Valid(c) && i < lmc.length.Length && lmc.Available(i) && 3 <= limit <= 258
    requires sublen != null ==> sublen.Length == 259 && sublen !in CacheRepr(lmc)
    requires |lmc.rows[i]| == 24
    requires sublen == null ==> limit == 258 || lmc.length[i] <= limit
    requires sublen != null ==>
               lmc.length[i] <= MaxCachedSublen(lmc.rows[i]) || lmc.length[i] == 0
    modifies sublen
    ensures var b := Search(c, lmc.blockstart + i, limit);
            Answers(b, length, distance) && (sublen != null ==> AnswersSub(b, sublen[..]))
  {
    hide Search, MaxCachedSublen, Caches, Sound;
    ghost var pos := lmc.blockstart + i;
    assert EntryOk(c, pos, lmc.length[i], lmc.dist[i], lmc.rows[i]);
    VacantEntry(c, pos, lmc.length[i], lmc.dist[i], lmc.rows[i]);
    ghost var f := Search(c, pos, 258);
    SoundSub(c, pos, 258);
    SoundSub(c, pos, limit);
    length := lmc.length[i];
    if length > limit {
      CutAnswer(c, pos, limit, lmc.length[i], lmc.dist[i], lmc.rows[i]);
      length := limit;
    } else {
      CachedAnswer(c, pos, limit, lmc.length[i], lmc.dist[i], lmc.rows[i]);
    }
    if sublen != null {
      if length >= 3 {
        CacheToSublen(lmc.rows[i], length, sublen, f.sub);
      }
      distance := sublen[length];
    } else {
      distance := lmc.dist[i];
    }
  }

  lemma {:induction false} SearchIs(c: Ctx, pos: nat, limit: nat)
    requires ValidCtx(c) && c.start <= pos < c.end && 3 <= limit <= 258
    ensures c.end - pos < 3 ==> Search(c, pos, limit).length == 0
    ensures c.end - pos >= 3 ==>
              var d := ChainLink(c, false, pos);
              Search(c, pos, limit) ==
              if d == 0 then NOTHING
              else Walk(c, pos, Min(limit, c.end - pos), false, d, NOTHING, MAX_CHAIN_HITS)
  {
    hide Walk, ChainLink;
  }

  lemma {:induction false} SubDistances(c: Ctx, pos: nat, b: Best, sublen: seq<nat>)
    requires Sound(c, pos, b) && SubWritten(sublen, b)
    ensures Distances(sublen, b.length)
  {
    forall k: nat | 2 <= k <= b.length
      ensures 1 <= sublen[k] < 32768
    {
      SoundDist(c, pos, b, k);
    }
  }

  lemma {:induction false} WrittenAnswers(b: Best, sublen: seq<nat>)
    requires SubWritten(sublen, b)
    ensures AnswersSub(b, sublen) && b.length >= 1
  {
  }

  /** The search without the cache, whose result is stored when it is a full one. */
  method SearchAndStore(lmc: Cache?, h: Hash, data: seq<Byte>, pos: nat, size: nat, limit: nat, sublen: array?<nat>)
    returns (distance: nat, length: nat)
    requires AtPosition(h, data, pos, size) && Separate(h, sublen) && Disjoint(h, lmc, sublen)
    requires 3 <= limit <= 258 && CacheOk(lmc, h.c, pos)
    modifies sublen, CacheRepr(lmc)
    ensures AtPosition(h, data, pos, size) && CacheOk(lmc, h.c, pos)
    ensures var b := Search(h.c, pos, limit);
            Answers(b, length, distance) && (sublen != null ==> AnswersSub(b, sublen[..]))
    ensures lmc != null && sublen != null && limit == 258 && pos + 258 <= size ==> lmc.Available(pos - lmc.blockstart)
    ensures lmc != null && old(lmc.Available(pos - lmc.blockstart)) ==> lmc.Available(pos - lmc.blockstart)
  {
    hide Search, Walk, ChainLink, SubWritten, Distances, Sound, EntryOk, SamesOk, History, Rolling, WithRun, Same, Slot;
    SearchIs(h.c, pos, limit);
    if size - pos < 3 {
      return 0, 0;
    }
    var lim := if pos + limit > size then size - pos else limit;
    ghost var b;
    length, distance, b := WalkChains(h, data, pos, size, lim, sublen);
    SearchSound(h.c, pos, limit);
    if sublen != null {
      WrittenAnswers(b, sublen[..]);
      if lmc != null && lim == 258 {
        var i := pos - lmc.blockstart;
        if !lmc.Available(i) {
          SubDistances(h.c, pos, b, sublen[..]);
          lmc.Store(h.c, i, sublen[..], distance, length, b);
        }
      }
    }
  }

  /** The longest match at a position, from the cache where possible. */
  method FindLongestMatch(lmc: Cache?, h: Hash, data: seq<Byte>, pos: nat, size: nat, limit: nat, sublen: array?<nat>)
    returns (distance: nat, length: nat)
    requires AtPosition(h, data, pos, size) && Separate(h, sublen) && Disjoint(h, lmc, sublen)
    requires 3 <= limit <= 258 && CacheOk(lmc, h.c, pos)
    modifies sublen, CacheRepr(lmc)
    ensures AtPosition(h, data, pos, size) && CacheOk(lmc, h.c, pos)
    ensures var eff := old(LimitFor(lmc, pos, limit, sublen != null));
            var b := Search(h.c, pos, eff);
            && 3 <= eff <= 258
            && Answers(b, length, distance) && (sublen != null ==> AnswersSub(b, sublen[..]))
    ensures lmc != null && sublen != null && limit == 258 && pos + 258 <= size ==> lmc.Available(pos - lmc.blockstart)
  {
    hide Search, MaxCachedSublen, Caches, Sound, Answers, AnswersSub, SamesOk, History, Rolling, WithRun, Same, Slot;
    var lim := limit;
    if lmc != null {
      var i := pos - lmc.blockstart;
      assert EntryOk(h.c, lmc.blockstart + i, lmc.length[i], lmc.dist[i], lmc.rows[i]);
      VacantEntry(h.c, pos, lmc.length[i], lmc.dist[i], lmc.rows[i]);
      if lmc.Available(i) {
        SoundSub(h.c, pos, 258);
        var cached, upTo := lmc.length[i], MaxCachedSublen(lmc.rows[i]);
        if limit == 258 || cached <= limit || (sublen != null && upTo >= limit) {
          if sublen == null || cached <= upTo {
            distance, length := ReadCache(lmc, h.c, i, limit, sublen);
            return;
          }
          lim := cached;
          if cached <= limit {
            CachedAnswer(h.c, pos, limit, cached, lmc.dist[i], lmc.rows[i]);
            CachedAnswer(h.c, pos, cached, cached, lmc.dist[i], lmc.rows[i]);
          }
        }
      }
    }
    distance, length := SearchAndStore(lmc, h, data, pos, size, lim, sublen);
  }
}
