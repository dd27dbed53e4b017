/**
 An input on which the cache raises the limit of a search. Ten blocks of 16 bytes start
 with the same bytes 1, 2, 3, ..., and the farther back a block lies the longer it agrees
 with the last one. So the search there finds nine lengths at nine distances, one more
 than the cache can hold.
 */
module CacheOverrun {
  import opened Arith
  import opened Symbols
  import opened Lz77Store
  import opened Inflate
  import opened HashChain
  import opened MatchSpec
  import opened MatchFinder
  import opened MatchCache
  import opened LongestMatch
  import opened Greedy

  // ----- The input ------------------------------------------------------------------------

  /** How many bytes of block j agree with the last block, which is block 9. */
  function Width(j: nat): nat
    requires j <= 9
  {
    if j == 9 then 12 else 11 - j
  }

  function ByteOf(i: nat): Byte {
    if i >= 160 then 0
    else if i % 16 < Width(i / 16) then i % 16 + 1
    else 20 + i % 2
  }

  const SIZE: nat := 402
  const HERE: nat := 144

  function Input(): (r: seq<Byte>)
    ensures |r| == SIZE && forall i | 0 <= i < SIZE :: r[i] == ByteOf(i)
  {
    seq(SIZE, i requires 0 <= i < SIZE => ByteOf(i))
  }

  function Whole(): (c: Ctx)
    ensures ValidCtx(c) && c.start == 0 && c.end == SIZE && c.data == Input()
  {
    Ctx(Input(), 0, SIZE)
  }

  /** Bytes are small, neighbours differ, and only blocks start with 1. */
  lemma {:induction false} Bytes(i: nat)
    ensures ByteOf(i) < 22
    ensures i < 160 ==> (ByteOf(i) == 1 <==> i % 16 == 0)
    ensures i < 159 ==> ByteOf(i) != ByteOf(i + 1)
    ensures i % 16 == 0 && i < 160 ==> ByteOf(i + 1) == 2 && ByteOf(i + 2) == 3
  {
  }

  // ----- Hashes and links ---------------------------------------------------------------------

  lemma {:induction false} NumberInjective(v: bv16, w: bv16)
    requires Number(v) == Number(w)
    ensures v == w
  {
    assert v == (v as nat) as bv16;
  }

  lemma {:induction false} SmallByte(n: nat)
    requires n < 22
    ensures n as bv16 < 32 && (n as bv16 == 1 <==> n == 1)
  {
  }

  /** The first of three small bytes can be read off their hash. */
  lemma {:induction false} TopOfMix(a: bv16, b: bv16, d: bv16)
    requires a < 32 && b < 32 && d < 32
    ensures Mix(Mix(Mix(0, a), b), d) >> 10 == a
  {
  }

  lemma {:induction false} XorInjective(u: bv16, v: bv16, w: bv16)
    requires u ^ v == u ^ w
    ensures v == w
  {
  }

  lemma {:induction false} NoRun(p: nat)
    requires p < 159
    ensures Same(Whole(), p) == 0
  {
    Bytes(p);
  }

  /** Equal hashes, of either kind, mean equal first hashes, and those tell block starts. */
  lemma {:induction false} HashTells(second: bool, p: nat, q: nat)
    requires p < 159 && q < 159
    ensures HashOf(Whole(), second, p) == HashOf(Whole(), second, q) <==> Rolling(Whole(), p) == Rolling(Whole(), q)
  {
    hide Rolling, Same, WithRun, Mix;
    var c := Whole();
    var v, w := Rolling(c, p), Rolling(c, q);
    NoRun(p);
    NoRun(q);
    HashValues(c, p);
    HashValues(c, q);
    if HashOf(c, second, p) == HashOf(c, second, q) {
      if second {
        NumberInjective(WithRun(v, 0), WithRun(w, 0));
        RunInjective(v, w);
      } else {
        NumberInjective(v, w);
      }
    }
  }

  lemma {:induction false} RunInjective(v: bv16, w: bv16)
    requires WithRun(v, 0) == WithRun(w, 0)
    ensures v == w
  {
    XorInjective(253, v, w);
  }

  lemma {:induction false} DataAt(i: nat)
    requires i < SIZE
    ensures Whole().data[i] == ByteOf(i)
  {
    hide ByteOf;
  }

  /** The hash at a position, from its three bytes. */
  lemma {:induction false} HashFromBytes(p: nat)
    requires p < 157
    ensures Rolling(Whole(), p) == Roll(Roll(Roll(0, ByteOf(p)), ByteOf(p + 1)), ByteOf(p + 2))
  {
    hide ByteOf, Rolling, Roll, Input;
    var c := Whole();
    RollingLastThree(c, p);
    DataAt(p);
    DataAt(p + 1);
    DataAt(p + 2);
  }

  lemma {:induction false} RollingTop(p: nat)
    requires p < 157
    ensures Rolling(Whole(), p) >> 10 == 1 <==> p % 16 == 0
  {
    hide Rolling, Mix, ByteOf, Whole, Input;
    HashFromBytes(p);
    Bytes(p);
    Bytes(p + 1);
    Bytes(p + 2);
    SmallByte(ByteOf(p));
    SmallByte(ByteOf(p + 1));
    SmallByte(ByteOf(p + 2));
    TopOfMix(ByteOf(p) as bv16, ByteOf(p + 1) as bv16, ByteOf(p + 2) as bv16);
  }

  lemma {:induction false} BlockHash(j: nat)
    requires j <= 9
    ensures Rolling(Whole(), 16 * j) == Roll(Roll(Roll(0, 1), 2), 3)
  {
    hide Rolling, Roll, ByteOf, Whole, Input;
    HashFromBytes(16 * j);
    assert 16 * j % 16 == 0;
    Bytes(16 * j);
  }

  /** On both chains every block leads to the block before. */
  lemma {:induction false} BlockLink(second: bool, j: nat)
    requires j <= 9
    ensures ChainLink(Whole(), second, 16 * j) == if j == 0 then 0 else 16
  {
    hide Rolling, HashOf, Roll;
    var c, p := Whole(), 16 * j;
    var h := History(c, second, p + 1);
    BlockHash(j);
    RollingTop(p);
    forall q | 0 <= q < p
      ensures h[q] == h[p] <==> q % 16 == 0
    {
      assert h[q] == HashOf(c, second, c.start + q) && h[p] == HashOf(c, second, c.start + p);
      HashTells(second, q, p);
      RollingTop(q);
      if q % 16 == 0 {
        BlockHash(q / 16);
        assert q == 16 * (q / 16);
      }
    }
    LatestBlock(h, j);
  }

  lemma {:induction false} NoneBetween(j: nat, l: int)
    requires 16 * j - 16 < l < 16 * j
    ensures l % 16 != 0
  {
  }

  lemma {:induction false} LatestBlock(h: seq<nat>, j: nat)
    requires |h| == 16 * j + 1 && forall q | 0 <= q < 16 * j :: h[q] == h[16 * j] <==> q % 16 == 0
    ensures Latest(h, 16 * j, h[16 * j]) == 16 * j - 16 || (j == 0 && Latest(h, 16 * j, h[16 * j]) == -1)
  {
    hide Latest;
    var l := Latest(h, 16 * j, h[16 * j]);
    if j > 0 {
      assert (16 * j - 16) % 16 == 0;
      assert h[16 * j - 16] == h[16 * j];
      if l > 16 * j - 16 {
        NoneBetween(j, l);
      }
    }
  }

  // ----- The search --------------------------------------------------------------------------------

  /** The distances recorded after t candidates: 16 for lengths 2 and 3, then 32, 48, ... */
  function Recorded(t: nat): (r: seq<nat>)
    ensures |r| == t + 1 && forall i | 0 <= i < t + 1 :: r[i] == if i == 0 then 16 else 16 * i
  {
    seq(t + 1, i requires 0 <= i < t + 1 => if i == 0 then 16 else 16 * i)
  }

  function After(t: nat): Best {
    if t == 0 then NOTHING else Best(t + 2, 16 * t, Recorded(t))
  }

  /** The t-th candidate agrees for t + 2 bytes. */
  lemma {:induction false} Agrees(t: nat)
    requires 1 <= t <= 9
    ensures MatchFrom(Whole(), HERE, 16 * t, 0, 258) == t + 2
    ensures forall i: nat | HERE <= i < HERE + (t + 2) :: Lz77Store.Repeats(Whole().data, i, 16 * t)
  {
    hide MatchFrom, ByteOf, Whole, Input;
    var c, d := Whole(), 16 * t;
    forall i: nat | HERE <= i < HERE + (t + 2)
      ensures Lz77Store.Repeats(c.data, i, d)
    {
      SamePlace(t, i - HERE);
      DataAt(i);
      DataAt(i - d);
    }
    MatchFromInside(c, HERE, d, 0, t + 2, 258);
    SamePlace(t, t + 2);
    DataAt(HERE + (t + 2));
    DataAt(HERE + (t + 2) - d);
    MatchStops(c, HERE, d, t + 2, 258);
  }

  lemma {:induction false} MatchStops(c: Ctx, pos: nat, dist: nat, k: nat, limit: nat)
    requires ValidCtx(c) && 1 <= dist <= pos && k < limit && pos + limit <= c.end
    requires c.data[pos + k] != c.data[pos + k - dist]
    ensures MatchFrom(c, pos, dist, k, limit) == k
  {
  }

  lemma {:induction false} SamePlace(t: nat, k: nat)
    requires 1 <= t <= 9 && k <= t + 2
    ensures ByteOf(HERE + k) == ByteOf(HERE + k - 16 * t) <==> k < t + 2
  {
    var i := HERE + k - 16 * t;
    assert i == 16 * (9 - t) + k && (HERE + k) == 16 * 9 + k;
    assert i / 16 == 9 - t && i % 16 == k && (HERE + k) / 16 == 9 && (HERE + k) % 16 == k;
  }

  /** So each candidate is one byte longer than the one before. */
  lemma {:induction false} Step(t: nat)
    requires 1 <= t <= 9
    ensures Candidate(Whole(), HERE, 258, 16 * t, After(t - 1).length) == t + 2
    ensures Improve(After(t - 1), t + 2, 16 * t) == After(t)
  {
    hide MatchFrom, ByteOf, Whole, Input;
    Agrees(t);
    MatchLengthIs(Whole(), HERE, 16 * t, 258);
    var best := After(t - 1).length;
    assert Lz77Store.Repeats(Whole().data, HERE + best, 16 * t);
    var b := After(t - 1);
    assert b.sub + Repeated(16 * t, t + 2 - b.length) == Recorded(t);
  }

  lemma {:induction false} WalkOn(t: nat, second: bool, hits: nat)
    requires 1 <= t <= 9 && hits == MAX_CHAIN_HITS - (t - 1)
    ensures Walk(Whole(), HERE, 258, second, 16 * t, After(t - 1), hits) == After(9)
    decreases 9 - t
  {
    hide Walk, Candidate, Switch, ChainLink, Improve, Recorded;
    Step(t);
    WalkUnfold(Whole(), HERE, 258, second, 16 * t, After(t - 1), hits);
    var second' := Switch(Whole(), HERE, second, 16 * t, After(t).length);
    BlockLink(second', 9 - t);
    assert HERE - 16 * t == 16 * (9 - t);
    if t < 9 {
      WalkOn(t + 1, second', hits - 1);
    }
  }

  /** The full search finds 11 bytes, and a distance of its own for every length. */
  lemma {:induction false} Found()
    ensures Search(Whole(), HERE, 258) == After(9)
  {
    hide Walk, ChainLink;
    BlockLink(false, 9);
    WalkOn(1, false, MAX_CHAIN_HITS);
  }

  // ----- The cache ------------------------------------------------------------------------------------

  /** Each packed run holds a single length, so eight runs end at length 10. */
  lemma {:induction false} RunsEnd(row: seq<Byte>, ends: seq<nat>, j: nat)
    requires Packed(row, ends, Recorded(9)) && j < |ends|
    ensures ends[j] == j + 3
  {
    if j > 0 {
      RunsEnd(row, ends, j - 1);
    }
    RunAt(row, ends, Recorded(9), j);
    var first := RunStart(ends, j);
    assert DistIs(Recorded(9), first, RunDist(row, j)) && DistIs(Recorded(9), ends[j], RunDist(row, j));
  }

  /** Whatever a filled entry at this position looks like, it holds part of a match of 11. */
  lemma {:induction false} EntryIsPartial(length: nat, dist: nat, row: seq<Byte>)
    requires Remembers(Whole(), HERE, length, dist, row)
    ensures length == 11 && 3 <= MaxCachedSublen(row) <= 10
  {
    hide Search, Packed, MaxCachedSublen;
    Found();
    var m := MaxCachedSublen(row);
    var ends :| EndsAt(row, ends, Recorded(9), m);
    LastRun(row, ends, Recorded(9));
    RunsEnd(row, ends, |ends| - 1);
  }

  lemma {:induction false} Limited()
    ensures Search(Whole(), HERE, 3).length == 3 && Search(Whole(), HERE, 11).length == 11
  {
    hide Search;
    Found();
    SearchLimited(Whole(), HERE, 3);
    SearchLimited(Whole(), HERE, 11);
  }

  /** A filled entry raises a limit of 3 to 11. */
  lemma {:induction false} LimitRaised(lmc: Cache)
    requires CacheOk(lmc, Whole(), HERE) && lmc.Available(HERE - lmc.blockstart)
    ensures LimitFor(lmc, HERE, 3, true) == 11
  {
    hide Search, Remembers, MaxCachedSublen;
    var i := HERE - lmc.blockstart;
    var length, dist, row := lmc.length[i], lmc.dist[i], lmc.rows[i];
    assert EntryOk(Whole(), lmc.blockstart + i, length, dist, row);
    VacantEntry(Whole(), HERE, length, dist, row);
    EntryIsPartial(length, dist, row);
  }

  /** Two searches at the same position: a full one, which fills the cache, and one with a
      limit of 3. */
  method AskTwice(lmc: Cache, h: Hash, data: seq<Byte>, sublen: array<nat>) returns (length: nat)
    requires HashAt(h, data, 0, SIZE, HERE + 1) && data == Input() && h.c == Whole()
    requires CacheOk(lmc, Whole(), HERE) && Disjoint(h, lmc, sublen) && sublen.Length == 259
    modifies sublen, CacheRepr(lmc)
    ensures length == 11
  {
    hide Search, SamesOk, History, Rolling, WithRun, Same, Slot, AnswersSub, EntryOk, LimitFor;
    var distance;
    distance, length := FindLongestMatch(lmc, h, data, HERE, SIZE, 258, sublen);
    LimitRaised(lmc);
    Limited();
    distance, length := FindLongestMatch(lmc, h, data, HERE, SIZE, 3, sublen);
  }

  /** The call itself: a search with a limit of 3, after the cache has been filled by a full
      search, reports 11 bytes; without the cache it would report 3. */
  method Overrun() returns (length: nat)
    ensures length == 11 && Search(Whole(), HERE, 3).length == 3
  {
    hide Search, HashAt, EntryOk;
    var data := Input();
    var lmc := new Cache(0, SIZE);
    var h := StartHash(data, 0, SIZE);
    Advance(h, data, 0, SIZE, 0, HERE + 1);
    var sublen := new nat[259];
    AtStart(h, data);
    Limited();
    length := AskTwice(lmc, h, data, sublen);
  }

  lemma {:induction false} AtStart(h: Hash, data: seq<Byte>)
    requires HashAt(h, data, 0, SIZE, HERE + 1) && data == Input()
    ensures h.c == Whole()
  {
    hide SamesOk, History, Rolling, WithRun, Same, Slot;
  }
}
