/**
 LZ77 with lazy matching: a match is held back for one position in case the next
 position has a better one. Whatever the match finder's cache holds, the items
 produced replay to exactly the input.
 */
module Greedy {
  import opened Symbols
  import opened Lz77Store
  import opened HashChain
  import opened MatchSpec
  import opened MatchFinder
  import opened MatchCache
  import opened LongestMatch

  /** The hash window of a block: up to 32768 bytes before it. */
  function WindowStart(instart: nat): nat {
    if instart > 32768 then instart - 32768 else 0
  }

  function BlockCtx(data: seq<Byte>, instart: nat, inend: nat): Ctx {
    Ctx(data, WindowStart(instart), inend)
  }

  /** The cache, if any, belongs to the block. */
  ghost predicate BlockCache(lmc: Cache?, data: seq<Byte>, instart: nat, inend: nat)
    reads CacheRepr(lmc)
  {
    lmc != null ==>
      lmc.Valid(BlockCtx(data, instart, inend)) && lmc.blockstart == instart && lmc.length.Length == inend - instart
  }

  /** The hash has taken in all positions before pos. */
  ghost predicate HashAt(h: Hash, data: seq<Byte>, instart: nat, inend: nat, pos: nat)
    reads HashRepr(h)
  {
    h.Valid() && h.c == BlockCtx(data, instart, inend) && WindowStart(instart) + h.n == pos <= inend
  }

  /** Takes in positions from..to - 1. */
  method Advance(h: Hash, data: seq<Byte>, instart: nat, inend: nat, from: nat, to: nat)
    requires HashAt(h, data, instart, inend, from) && from <= to <= inend <= |data|
    modifies HashRepr(h)
    ensures HashAt(h, data, instart, inend, to)
  {
    for i := from to to
      invariant HashAt(h, data, instart, inend, i)
    {
      h.Update(data, i, inend);
    }
  }

  /** A hash warmed up with the window before the block. */
  method StartHash(data: seq<Byte>, instart: nat, inend: nat) returns (h: Hash)
    requires instart <= inend <= |data|
    ensures fresh(HashRepr(h)) && HashAt(h, data, instart, inend, instart)
  {
    var start := WindowStart(instart);
    h := new Hash(BlockCtx(data, instart, inend), data, start);
    Advance(h, data, instart, inend, start, instart);
  }

  /** The full search at the position just taken in, per-length distances included. */
  method FullMatch(lmc: Cache?, h: Hash, data: seq<Byte>, instart: nat, inend: nat, pos: nat, sublen: array<nat>)
    returns (dist: nat, leng: nat)
    requires HashAt(h, data, instart, inend, pos + 1) && instart <= pos < inend <= |data|
    requires BlockCache(lmc, data, instart, inend) && Disjoint(h, lmc, sublen) && sublen.Length == 259
    modifies sublen, CacheRepr(lmc)
    ensures HashAt(h, data, instart, inend, pos + 1) && BlockCache(lmc, data, instart, inend)
    ensures var b := Search(BlockCtx(data, instart, inend), pos, 258);
            Answers(b, leng, dist) && AnswersSub(b, sublen[..])
  {
    hide Search, SamesOk, History, Rolling, WithRun, Same, Slot, Answers, AnswersSub, EntryOk;
    dist, leng := FindLongestMatch(lmc, h, data, pos, inend, 258, sublen);
  }

  /** A match that may be stored: at least 3 bytes long and genuine. */
  ghost predicate GoodMatch(data: seq<Byte>, inend: nat, pos: nat, leng: nat, dist: nat) {
    3 <= leng <= 258 && pos + leng <= inend <= |data| && dist <= 32768 && Matches(data, pos, dist, leng)
  }

  lemma {:induction false} AnswerIsGood(data: seq<Byte>, instart: nat, inend: nat, pos: nat, leng: nat, dist: nat)
    requires instart <= pos < inend <= |data|
    requires Answers(Search(BlockCtx(data, instart, inend), pos, 258), leng, dist)
    ensures leng >= 3 ==> GoodMatch(data, inend, pos, leng, dist)
    ensures leng <= 258
  {
    hide Search;
    var c := BlockCtx(data, instart, inend);
    SearchSound(c, pos, 258);
    if leng >= 3 {
      SoundDist(c, pos, Search(c, pos, 258), leng);
    }
  }

  // ----- The rule --------------------------------------------------------------------------

  /** The full search at every position of a block. */
  ghost function Finder(c: Ctx): nat -> Best {
    (p: nat) => if ValidCtx(c) && c.start <= p < c.end then Search(c, p, 258) else Best(0, 0, [])
  }

  lemma {:induction false} FinderAt(c: Ctx, p: nat)
    requires ValidCtx(c) && c.start <= p < c.end
    ensures Finder(c)(p) == Search(c, p, 258)
  {
    hide Search;
  }

  /** What a match is worth: its length, one less from farther than 1024 bytes back. */
  function Worth(b: Best): int {
    if b.length < 3 then 0 else if b.dist > 1024 then b.length - 1 else b.length
  }

  /** The match at p is taken: worth at least 3, and not outdone by the next one by more
      than 1. */
  ghost predicate TakesMatch(end: nat, f: nat -> Best, p: nat) {
    Worth(f(p)) >= 3 && (p + 1 < end ==> Worth(f(p + 1)) <= Worth(f(p)) + 1)
  }

  /** Lazy matching as a rule with one position of foresight, without any state. */
  ghost function LazyParse(data: seq<Byte>, end: nat, f: nat -> Best, p: nat): Store
    requires p <= end <= |data|
    decreases end - p
  {
    if p == end then []
    else if TakesMatch(end, f, p) && p + f(p).length <= end
    then [Item(f(p).length, f(p).dist)] + LazyParse(data, end, f, p + f(p).length)
    else [Item(data[p], 0)] + LazyParse(data, end, f, p + 1)
  }

  /** The lazy parse of a block. */
  ghost function GreedyParse(data: seq<Byte>, instart: nat, inend: nat): Store
    requires instart <= inend <= |data|
  {
    LazyParse(data, inend, Finder(BlockCtx(data, instart, inend)), instart)
  }

  /** Item k of the parse, at its byte position: a match exactly where one is taken. */
  lemma {:induction false} LazyItem(data: seq<Byte>, end: nat, f: nat -> Best, p: nat, k: nat)
    requires p <= end <= |data| && k < |LazyParse(data, end, f, p)|
    requires forall q | p <= q < end :: f(q).length >= 3 ==> q + f(q).length <= end && f(q).dist > 0
    ensures var items := LazyParse(data, end, f, p);
            var q := p + StoreSize(items[..k]);
            && q < end
            && (TakesMatch(end, f, q) ==> items[k] == Item(f(q).length, f(q).dist) && items[k].dist > 0)
            && (!TakesMatch(end, f, q) ==> items[k] == Item(data[q], 0))
    decreases k
  {
    hide TakesMatch, LazyParse;
    var items := LazyParse(data, end, f, p);
    LazyFirst(data, end, f, p);
    if k > 0 {
      var n := ItemSize(items[0]);
      var rest := LazyParse(data, end, f, p + n);
      LazyItem(data, end, f, p + n, k - 1);
      StoreSizeCons(items[..k]);
      assert items[..k][1..] == rest[..k - 1];
    }
  }

  lemma {:induction false} LazyFirst(data: seq<Byte>, end: nat, f: nat -> Best, p: nat)
    requires p <= end <= |data| && LazyParse(data, end, f, p) != []
    requires p < end && f(p).length >= 3 ==> p + f(p).length <= end && f(p).dist > 0
    ensures var items := LazyParse(data, end, f, p);
            && p < end
            && (TakesMatch(end, f, p) ==> items[0] == Item(f(p).length, f(p).dist) && items[0].dist > 0)
            && (!TakesMatch(end, f, p) ==> items[0] == Item(data[p], 0))
            && p + ItemSize(items[0]) <= end && items[1..] == LazyParse(data, end, f, p + ItemSize(items[0]))
  {
    hide TakesMatch;
    MatchWorth(end, f, p);
  }

  lemma {:induction false} MatchWorth(end: nat, f: nat -> Best, p: nat)
    ensures TakesMatch(end, f, p) ==> f(p).length >= 3
  {
  }

  /** The same for the parse of a block. */
  lemma {:induction false} GreedyItem(data: seq<Byte>, instart: nat, inend: nat, k: nat)
    requires instart <= inend <= |data| && k < |GreedyParse(data, instart, inend)|
    ensures var f := Finder(BlockCtx(data, instart, inend));
            var items := GreedyParse(data, instart, inend);
            var q := instart + StoreSize(items[..k]);
            && q < inend
            && (TakesMatch(inend, f, q) ==> items[k] == Item(f(q).length, f(q).dist) && items[k].dist > 0)
            && (!TakesMatch(inend, f, q) ==> items[k] == Item(data[q], 0))
  {
    hide Finder, TakesMatch, LazyParse;
    var f := Finder(BlockCtx(data, instart, inend));
    forall q | instart <= q < inend
      ensures f(q).length >= 3 ==> q + f(q).length <= inend && f(q).dist > 0
    {
      FinderFits(data, instart, inend, q);
    }
    LazyItem(data, inend, f, instart, k);
  }

  lemma {:induction false} FinderFits(data: seq<Byte>, instart: nat, inend: nat, q: nat)
    requires instart <= q < inend <= |data|
    ensures var b := Finder(BlockCtx(data, instart, inend))(q);
            b.length >= 3 ==> q + b.length <= inend && b.dist > 0
  {
    hide Search, Finder;
    var c := BlockCtx(data, instart, inend);
    FinderAt(c, q);
    SearchSound(c, q, 258);
    if Search(c, q, 258).length >= 3 {
      SoundDist(c, q, Search(c, q, 258), Search(c, q, 258).length);
    }
  }

  // ----- The loop ------------------------------------------------------------------------------

  /** A long distance makes a match worth one byte less. */
  function LengthValue(length: nat, distance: nat): int {
    if distance > 1024 then length - 1 else length
  }

  /** The state of lazy matching before position i: a match at i - 1 may be held back,
      in which case the store only reaches up to there. */
  datatype Lazy = Lazy(store: Store, matchAvailable: bool, prevLength: nat, prevMatch: nat)

  /** Up to where the store reaches. */
  function Reach(i: nat, s: Lazy): int {
    if s.matchAvailable then i - 1 else i
  }

  ghost predicate LazyOk(data: seq<Byte>, instart: nat, inend: nat, i: nat, s: Lazy) {
    && instart <= i <= inend <= |data| && (s.matchAvailable ==> instart < i)
    && (s.matchAvailable ==> GoodMatch(data, inend, i - 1, s.prevLength, s.prevMatch))
    && Replays(data[..instart], s.store, data[..Reach(i, s)])
  }

  /** The store is what the rule gives up to here, and a match held back is one the rule may
      still take. */
  ghost predicate OnRule(data: seq<Byte>, instart: nat, inend: nat, f: nat -> Best, i: nat, s: Lazy) {
    && instart <= Reach(i, s) <= inend <= |data|
    && s.store + LazyParse(data, inend, f, Reach(i, s)) == LazyParse(data, inend, f, instart)
    && (s.matchAvailable ==>
          s.prevLength == f(i - 1).length && s.prevMatch == f(i - 1).dist && Worth(f(i - 1)) >= 3)
  }

  /** The rule's next item is a literal or a match. */
  lemma {:induction false} RuleLiteral(data: seq<Byte>, inend: nat, f: nat -> Best, p: nat, store: Store, whole: Store)
    requires p < inend <= |data| && store + LazyParse(data, inend, f, p) == whole && !TakesMatch(inend, f, p)
    ensures store + [Item(data[p], 0)] + LazyParse(data, inend, f, p + 1) == whole
  {
    hide TakesMatch;
    assert store + [Item(data[p], 0)] + LazyParse(data, inend, f, p + 1)
        == store + ([Item(data[p], 0)] + LazyParse(data, inend, f, p + 1));
  }

  lemma {:induction false} RuleMatch(data: seq<Byte>, inend: nat, f: nat -> Best, p: nat, store: Store, whole: Store)
    requires p < inend <= |data| && store + LazyParse(data, inend, f, p) == whole && TakesMatch(inend, f, p)
    requires p + f(p).length <= inend && f(p).length >= 3
    ensures store + [Item(f(p).length, f(p).dist)] + LazyParse(data, inend, f, p + f(p).length) == whole
  {
    hide TakesMatch;
    var it := Item(f(p).length, f(p).dist);
    var rest := LazyParse(data, inend, f, p + f(p).length);
    assert store + [it] + rest == store + ([it] + rest);
  }

  /** What to output at position i, given the match found there, and where to go on. */
  method LazyStep(data: seq<Byte>, ghost instart: nat, ghost inend: nat, ghost f: nat -> Best, i: nat, leng: nat,
                  dist: nat, s: Lazy)
    returns (r: Lazy, next: nat)
    requires LazyOk(data, instart, inend, i, s) && OnRule(data, instart, inend, f, i, s) && i < inend
    requires leng <= 258 && (leng >= 3 ==> GoodMatch(data, inend, i, leng, dist))
    requires Answers(f(i), leng, dist) && (i + 1 < inend ==> f(i + 1).length <= 258)
    ensures i < next <= inend && LazyOk(data, instart, inend, next, r) && OnRule(data, instart, inend, f, next, r)
  {
    hide Replays, Matches, LazyParse;
    ghost var whole := LazyParse(data, inend, f, instart);
    var lengvalue := LengthValue(leng, dist);
    var prevlengvalue := LengthValue(s.prevLength, s.prevMatch);
    var store := s.store;
    if s.matchAvailable {
      if lengvalue > prevlengvalue + 1 {
        ReplaysLiteral(data, instart, store, i - 1);
        RuleLiteral(data, inend, f, i - 1, store, whole);
        store := store + [Item(data[i - 1], 0)];
        if lengvalue >= 3 && lengvalue < 258 {
          return Lazy(store, true, leng, dist), i + 1;
        }
      } else {
        ReplaysMatch(data, instart, store, i - 1, s.prevMatch, s.prevLength);
        RuleMatch(data, inend, f, i - 1, store, whole);
        store := store + [Item(s.prevLength, s.prevMatch)];
        return Lazy(store, false, s.prevLength, s.prevMatch), i - 1 + s.prevLength;
      }
    } else if lengvalue >= 3 && leng < 258 {
      return Lazy(store, true, leng, dist), i + 1;
    }
    if lengvalue >= 3 {
      ReplaysMatch(data, instart, store, i, dist, leng);
      RuleMatch(data, inend, f, i, store, whole);
      store := store + [Item(leng, dist)];
      next := i + leng;
    } else {
      ReplaysLiteral(data, instart, store, i);
      RuleLiteral(data, inend, f, i, store, whole);
      store := store + [Item(data[i], 0)];
      next := i + 1;
    }
    r := Lazy(store, false, s.prevLength, s.prevMatch);
  }

  /** One round of the loop: take in position i, search there, decide, move on. */
  method GreedyStep(lmc: Cache?, h: Hash, sublen: array<nat>, data: seq<Byte>, instart: nat, inend: nat, i: nat,
                    s: Lazy)
    returns (r: Lazy, next: nat)
    requires HashAt(h, data, instart, inend, i) && BlockCache(lmc, data, instart, inend)
    requires instart <= i < inend <= |data| && LazyOk(data, instart, inend, i, s)
    requires OnRule(data, instart, inend, Finder(BlockCtx(data, instart, inend)), i, s)
    requires Disjoint(h, lmc, sublen) && sublen.Length == 259
    modifies HashRepr(h), sublen, CacheRepr(lmc)
    ensures BlockCache(lmc, data, instart, inend)
    ensures i < next <= inend && LazyOk(data, instart, inend, next, r) && HashAt(h, data, instart, inend, next)
    ensures OnRule(data, instart, inend, Finder(BlockCtx(data, instart, inend)), next, r)
  {
    hide Search, Answers, AnswersSub, Replays, LazyOk, OnRule, GoodMatch, Hash.Valid, EntryOk, Finder;
    ghost var c := BlockCtx(data, instart, inend);
    Advance(h, data, instart, inend, i, i + 1);
    var dist, leng := FullMatch(lmc, h, data, instart, inend, i, sublen);
    AnswerIsGood(data, instart, inend, i, leng, dist);
    FinderAt(c, i);
    FinderBound(c, i + 1);
    r, next := LazyStep(data, instart, inend, Finder(c), i, leng, dist, s);
    Advance(h, data, instart, inend, i + 1, next);
  }

  /** Lazy matching over the whole block. A match can never be left pending at the end,
      because it still needs three bytes from where it starts. */
  method LZ77Greedy(lmc: Cache?, data: seq<Byte>, instart: nat, inend: nat) returns (store: Store)
    requires instart <= inend <= |data| && BlockCache(lmc, data, instart, inend)
    modifies CacheRepr(lmc)
    ensures BlockCache(lmc, data, instart, inend)
    ensures Replays(data[..instart], store, data[..inend])
    ensures store == GreedyParse(data, instart, inend)
  {
    hide Replays, HashAt, BlockCache, GreedyParse;
    var h := StartHash(data, instart, inend);
    var dummysublen := new nat[259];
    store := GreedyLoop(lmc, h, dummysublen, data, instart, inend);
  }

  /** The rounds of the loop, from the start of the block to its end. */
  method GreedyLoop(lmc: Cache?, h: Hash, sublen: array<nat>, data: seq<Byte>, instart: nat, inend: nat)
    returns (store: Store)
    requires HashAt(h, data, instart, inend, instart) && BlockCache(lmc, data, instart, inend)
    requires instart <= inend <= |data| && Disjoint(h, lmc, sublen) && sublen.Length == 259
    modifies HashRepr(h), sublen, CacheRepr(lmc)
    ensures BlockCache(lmc, data, instart, inend)
    ensures Replays(data[..instart], store, data[..inend])
    ensures store == GreedyParse(data, instart, inend)
  {
    hide Replays, HashAt, BlockCache, LazyOk, OnRule, Finder, GreedyParse;
    StartLazy(data, instart, inend);
    var s := Lazy([], false, 0, 0);
    var i := instart;
    while i < inend
      invariant HashAt(h, data, instart, inend, i) && BlockCache(lmc, data, instart, inend)
      invariant instart <= i <= inend && LazyOk(data, instart, inend, i, s)
      invariant OnRule(data, instart, inend, Finder(BlockCtx(data, instart, inend)), i, s)
      decreases inend - i
    {
      s, i := GreedyStep(lmc, h, sublen, data, instart, inend, i, s);
    }
    store := s.store;
    EndLazy(data, instart, inend, s);
  }

  lemma {:induction false} FinderBound(c: Ctx, p: nat)
    requires ValidCtx(c) && c.start <= p
    ensures Finder(c)(p).length <= 258
  {
    hide Search;
    if p < c.end {
      SearchSound(c, p, 258);
    }
  }

  lemma {:induction false} StartLazy(data: seq<Byte>, instart: nat, inend: nat)
    requires instart <= inend <= |data|
    ensures LazyOk(data, instart, inend, instart, Lazy([], false, 0, 0))
    ensures OnRule(data, instart, inend, Finder(BlockCtx(data, instart, inend)), instart, Lazy([], false, 0, 0))
  {
    hide LazyParse, Finder;
  }

  /** No match is left pending at the end of the block. */
  lemma {:induction false} EndLazy(data: seq<Byte>, instart: nat, inend: nat, s: Lazy)
    requires LazyOk(data, instart, inend, inend, s)
    requires OnRule(data, instart, inend, Finder(BlockCtx(data, instart, inend)), inend, s)
    ensures !s.matchAvailable && Replays(data[..instart], s.store, data[..inend])
    ensures s.store == GreedyParse(data, instart, inend)
  {
    hide Replays, Matches, Finder, TakesMatch;
  }
}
