/**
 Replication between two blob servers: the two phases of a round. Any request may fail,
 and other clients may upload to the other side meanwhile. Whatever happens, contents only
 spread; when no request fails, everything either side had is on both afterwards.
 */
module Sync {
  import opened Optional
  import opened BlobKeys
  import opened Paging
  import opened BlobIndex
  import opened BlobServer
  import Replication

  // ----- Other clients -----------------------------------------------------------------------

  /** What other clients upload to the other side, request by request: batch n arrives just
      before the n-th request of the round. */
  type Arrivals = seq<seq<string>>

  ghost predicate AllStorable(h: Hasher, arrivals: Arrivals) {
    forall n | 0 <= n < |arrivals| :: Storable(h, arrivals[n])
  }

  /** How many batches are still to come. */
  function Pending(arrivals: Arrivals, n: nat): nat {
    if n < |arrivals| then |arrivals| - n else 0
  }

  function Arrived(arrivals: Arrivals): set<string> {
    set n, p | 0 <= n < |arrivals| && p in arrivals[n] && p != [] :: p
  }

  ghost predicate Peers(local: Index, remote: Index)
    reads local, remote
  {
    local != remote && local.hasher == remote.hasher && local.Valid() && remote.Valid()
  }

  /** The batch that arrives before request n, if any. */
  method Arrive(local: Index, remote: Index, arrivals: Arrivals, n: nat)
    requires Peers(local, remote) && AllStorable(local.hasher, arrivals)
    modifies remote
    ensures Peers(local, remote)
    ensures old(remote.contents) <= remote.contents <= old(remote.contents) + Arrived(arrivals)
    ensures n >= |arrivals| ==> remote.order == old(remote.order) && remote.contents == old(remote.contents)
  {
    hide CollisionFree, Holds, Plain, Increasing;
    if n < |arrivals| {
      HandlePut(remote, arrivals[n]);
      assert Kept(arrivals[n]) <= Arrived(arrivals);
    }
  }

  /** The keys of an index that gains contents stay. */
  lemma {:induction false} KeyStays(bi: Index, contents: set<string>, k: BlobKey)
    requires bi.Valid() && contents <= bi.contents && Owned(bi.hasher, contents, k)
    ensures k in bi.blobs && k in bi.order
  {
    hide Index.Valid, Owned;
    OwnedMonotone(bi.hasher, contents, bi.contents, k);
    KeysAre(bi, k);
  }

  // ----- Getting -------------------------------------------------------------------------------

  /** Every request succeeds. */
  ghost predicate AllUp(net: nat -> bool) {
    forall i: nat :: net(i)
  }

  /** Gets one blob from the other side, if the request succeeds. */
  method FetchBlob(local: Index, remote: Index, ref: string, ghost k: BlobKey, up: bool) returns (ghost c: string)
    requires Peers(local, remote) && k in remote.blobs && ref == Blobref(k)
    modifies local
    ensures Peers(local, remote) && c in remote.contents && IsKeyOf(remote.hasher, k, c)
    ensures local.contents == if up then old(local.contents) + {c} else old(local.contents)
  {
    hide CollisionFree, Ordered, Holds, NulFree, Blobref, CreateBlobKey;
    c := TextOfKey(remote, k);
    if up {
      var content := HandleGet(remote, ref);
      var _ := local.AddBlob(Some(ref), content.value);
    }
  }

  ghost predicate NoRepeats(s: seq<string>) {
    forall i, j | 0 <= i < j < |s| :: s[i] != s[j]
  }

  /** What has been fetched so far, if every request succeeded: contents of the other
      side that were missing, each once, and now present. */
  ghost predicate FetchedOnce(log: seq<string>, before: set<string>, now: set<string>, source: set<string>) {
    NoRepeats(log) && forall i | 0 <= i < |log| :: log[i] in source && log[i] !in before && log[i] in now
  }

  /** Nothing is lost and nothing comes from elsewhere. */
  ghost predicate Spread(before: set<string>, now: set<string>, source: set<string>) {
    before <= now <= before + source
  }

  ghost predicate AllOwned(h: Hasher, contents: set<string>, keys: seq<BlobKey>) {
    forall i | 0 <= i < |keys| :: Owned(h, contents, keys[i])
  }

  lemma {:induction false} AllOwnedMonotone(h: Hasher, a: set<string>, b: set<string>, keys: seq<BlobKey>)
    requires AllOwned(h, a, keys) && a <= b
    ensures AllOwned(h, b, keys)
  {
    hide Owned;
    forall i | 0 <= i < |keys|
      ensures Owned(h, b, keys[i])
    {
      OwnedMonotone(h, a, b, keys[i]);
    }
  }

  /** The state of a get phase: how the contents have changed, and what was fetched. */
  ghost predicate Getting(net: nat -> bool, log: seq<string>, before: set<string>, now: set<string>,
                          source: set<string>) {
    Spread(before, now, source) && (AllUp(net) ==> FetchedOnce(log, before, now, source))
  }

  lemma {:induction false} GettingWider(net: nat -> bool, log: seq<string>, before: set<string>, now: set<string>,
                                        source: set<string>, source': set<string>)
    requires Getting(net, log, before, now, source) && source <= source'
    ensures Getting(net, log, before, now, source')
  {
    hide AllUp;
  }

  /** One reference of a page: fetched if it is missing. */
  method GetRef(local: Index, remote: Index, ref: string, ghost k: BlobKey, net: nat -> bool, arrivals: Arrivals,
                n: nat, ghost log: seq<string>, ghost before: set<string>)
    returns (m: nat, ghost log': seq<string>)
    requires Peers(local, remote) && AllStorable(local.hasher, arrivals) && k in remote.blobs && ref == Blobref(k)
    requires Getting(net, log, before, local.contents, remote.contents)
    modifies local, remote
    ensures Peers(local, remote) && Getting(net, log', before, local.contents, remote.contents) && n <= m
    ensures old(local.contents) <= local.contents
    ensures old(remote.contents) <= remote.contents <= old(remote.contents) + Arrived(arrivals)
    ensures n >= |arrivals| ==> remote.order == old(remote.order) && remote.contents == old(remote.contents)
    ensures AllUp(net) ==> Owned(local.hasher, local.contents, k)
  {
    hide CollisionFree, Ordered, Holds, NulFree, Blobref, CreateBlobKey, Owned, IsKeyOf, AllStorable;
    ghost var _ := TextOfKey(remote, k);
    var blob := local.Get(ref);
    KeysAre(local, k);
    m, log' := n, log;
    if blob.None? {
      ghost var was, source := local.contents, remote.contents;
      KeysAre(remote, k);
      Arrive(local, remote, arrivals, n);
      KeyStays(remote, source, k);
      ghost var c := FetchBlob(local, remote, ref, k, net(n));
      assert c !in was by {
        if c in was {
          OwnedBy(local.hasher, was, k, c);
        }
      }
      log' := log + [c];
      m := n + 1;
      if c in local.contents {
        OwnedBy(local.hasher, local.contents, k, c);
      }
    }
  }

  /** A page of references. */
  method GetPage(local: Index, remote: Index, refs: seq<string>, ghost keys: seq<BlobKey>, net: nat -> bool,
                 arrivals: Arrivals, n: nat, ghost log: seq<string>, ghost before: set<string>)
    returns (m: nat, ghost log': seq<string>)
    requires Peers(local, remote) && AllStorable(local.hasher, arrivals)
    requires refs == Refs(keys) && (forall i | 0 <= i < |keys| :: keys[i] in remote.blobs)
    requires Getting(net, log, before, local.contents, remote.contents)
    modifies local, remote
    ensures Peers(local, remote) && Getting(net, log', before, local.contents, remote.contents) && n <= m
    ensures old(local.contents) <= local.contents
    ensures old(remote.contents) <= remote.contents <= old(remote.contents) + Arrived(arrivals)
    ensures n >= |arrivals| ==> remote.order == old(remote.order) && remote.contents == old(remote.contents)
    ensures AllUp(net) ==> AllOwned(local.hasher, local.contents, keys)
  {
    hide Index.Valid, Owned, Blobref, Getting, AllStorable, AllUp;
    m, log' := n, log;
    ghost var source := remote.contents;
    PageOwned(remote, keys);
    for i := 0 to |refs|
      invariant Peers(local, remote) && Getting(net, log', before, local.contents, remote.contents) && n <= m
      invariant old(local.contents) <= local.contents
      invariant source <= remote.contents <= source + Arrived(arrivals)
      invariant n >= |arrivals| ==> remote.order == old(remote.order) && remote.contents == source
      invariant AllUp(net) ==> AllOwned(local.hasher, local.contents, keys[..i])
    {
      ghost var was := local.contents;
      KeyStays(remote, source, keys[i]);
      m, log' := GetRef(local, remote, refs[i], keys[i], net, arrivals, m, log', before);
      if AllUp(net) {
        AllOwnedMonotone(local.hasher, was, local.contents, keys[..i]);
        assert keys[..i + 1] == keys[..i] + [keys[i]];
      }
    }
    assert keys[..|keys|] == keys;
  }

  lemma {:induction false} PageOwned(bi: Index, keys: seq<BlobKey>)
    requires bi.Valid() && (forall i | 0 <= i < |keys| :: keys[i] in bi.blobs)
    ensures AllOwned(bi.hasher, bi.contents, keys)
  {
    hide Index.Valid, Owned;
    forall i | 0 <= i < |keys|
      ensures Owned(bi.hasher, bi.contents, keys[i])
    {
      KeysAre(bi, keys[i]);
    }
  }

  /** The part of the order a page covers, and where the next page starts. */
  lemma {:induction false} PageIs(order: seq<BlobKey>, after: Option<BlobKey>, count: nat)
    requires Increasing(order) && count >= 2
    ensures var page, start := Page(order, after, count), StartOf(order, after);
            && start + |page| <= |order| && page == order[start..start + |page|] && |page| <= count
            && (|page| < count ==> start + |page| == |order|)
            && (|page| == count ==> StartOf(order, Some(page[count - 1])) == start + count - 1)
  {
    hide Less, LowerBound;
    if |Page(order, after, count)| == count {
      PageProgress(order, after, count);
    }
  }

  /** The text of a cursor: empty, or the text of a key of some contents. */
  ghost predicate CursorOk(h: Hasher, contents: set<string>, last: string, cursor: Option<BlobKey>) {
    && |last| < NPOS32 && (last == "" <==> cursor.None?)
    && (cursor.Some? ==>
          Owned(h, contents, cursor.value) && last == Blobref(cursor.value) && CreateBlobKey(last) == cursor)
  }

  lemma {:induction false} CursorMoves(bi: Index, k: BlobKey)
    requires bi.Valid() && k in bi.blobs
    ensures CursorOk(bi.hasher, bi.contents, Blobref(k), Some(k))
  {
    hide Index.Valid, CreateBlobKey, Owned;
    var _ := TextOfKey(bi, k);
    KeysAre(bi, k);
    assert |Blobref(k)| > 0;
  }

  lemma {:induction false} CursorStays(h: Hasher, a: set<string>, b: set<string>, last: string, cursor: Option<BlobKey>)
    requires CursorOk(h, a, last, cursor) && a <= b
    ensures CursorOk(h, b, last, cursor)
  {
    hide Owned, Blobref, CreateBlobKey;
    if cursor.Some? {
      OwnedMonotone(h, a, b, cursor.value);
    }
  }

  /** Keys of contents held are keys of the index. */
  lemma {:induction false} OwnedWithin(bi: Index, keys: seq<BlobKey>)
    requires bi.Valid() && AllOwned(bi.hasher, bi.contents, keys)
    ensures Within(keys, bi.order)
  {
    hide Index.Valid, Owned;
    forall k | k in keys
      ensures k in bi.order
    {
      var i :| 0 <= i < |keys| && keys[i] == k;
      KeysAre(bi, k);
    }
  }

  lemma {:induction false} OrderedKeys(bi: Index)
    requires bi.Valid()
    ensures Ordered(bi.order, bi.blobs) && Increasing(bi.order)
    ensures forall i | 0 <= i < |bi.order| :: bi.order[i] in bi.blobs
  {
    hide CollisionFree, Holds, Increasing;
  }

  /** Every key of a list is dealt with or still ahead of the cursor. */
  ghost predicate Behind(h: Hasher, contents: set<string>, keys: seq<BlobKey>, more: bool, cursor: Option<BlobKey>) {
    forall k | k in keys :: Owned(h, contents, k) || (more && AtLeast(k, cursor))
  }

  /** After a page, the keys that were ahead are on it, all but the last of a full one, or
      still ahead. */
  lemma {:induction false} PageMoves(h: Hasher, was: set<string>, now: set<string>, start: seq<BlobKey>,
                                     order: seq<BlobKey>, cursor: Option<BlobKey>, keys: seq<BlobKey>)
    requires Increasing(order) && Within(start, order) && was <= now && Behind(h, was, start, true, cursor)
    requires var page := Page(order, cursor, 26);
             keys == (if |page| == 26 then page[..25] else page) && AllOwned(h, now, keys)
    ensures var page := Page(order, cursor, 26);
            if |page| == 26 then Behind(h, now, start, true, Some(page[25])) else Behind(h, now, start, false, None)
  {
    hide Owned, Less, Page;
    var page := Page(order, cursor, 26);
    forall k | k in start
      ensures Owned(h, now, k) || (|page| == 26 && AtLeast(k, Some(page[25])))
    {
      PageSize(order, cursor, 26);
      PageHolds(order, cursor, 26, k);
      if Owned(h, was, k) {
        OwnedMonotone(h, was, now, k);
      } else if k in page {
        var i :| 0 <= i < |page| && page[i] == k;
        if i < |keys| {
          assert keys[i] == k;
        } else {
          LessTotal(k, k);
        }
      } else {
        LessTotal(page[25], k);
      }
    }
  }

  /** A page's keys are in the index. */
  lemma {:induction false} PageKeys(bi: Index, cursor: Option<BlobKey>, keys: seq<BlobKey>)
    requires bi.Valid()
    requires var page := Page(bi.order, cursor, 26); keys == page || (|page| == 26 && keys == page[..25])
    ensures forall i | 0 <= i < |Page(bi.order, cursor, 26)| :: Page(bi.order, cursor, 26)[i] in bi.blobs
    ensures forall i | 0 <= i < |keys| :: keys[i] in bi.blobs
  {
    hide Index.Valid, LowerBound, Increasing;
    OrderedKeys(bi);
  }

  /** One request for a page, and the blobs on it. Returns the next cursor, or none. */
  method GetStep(local: Index, remote: Index, last: string, ghost cursor: Option<BlobKey>, ghost start: seq<BlobKey>,
                 net: nat -> bool, arrivals: Arrivals, n: nat, ghost log: seq<string>, ghost before: set<string>)
    returns (more: Option<string>, ghost next: Option<BlobKey>, m: nat, ghost log': seq<string>)
    requires Peers(local, remote) && AllStorable(local.hasher, arrivals)
    requires CursorOk(local.hasher, remote.contents, last, cursor)
    requires Getting(net, log, before, local.contents, remote.contents)
    requires AllOwned(local.hasher, remote.contents, start)
    requires AllUp(net) ==> Behind(local.hasher, local.contents, start, true, cursor)
    modifies local, remote
    ensures Peers(local, remote) && Getting(net, log', before, local.contents, remote.contents) && n < m
    ensures old(remote.contents) <= remote.contents <= old(remote.contents) + Arrived(arrivals)
    ensures n >= |arrivals| ==> remote.order == old(remote.order) && remote.contents == old(remote.contents)
    ensures more.Some? ==> CursorOk(local.hasher, remote.contents, more.value, next)
    ensures more.Some? && n >= |arrivals| ==> StartOf(remote.order, next) > StartOf(remote.order, cursor)
    ensures AllUp(net) ==> Behind(local.hasher, local.contents, start, more.Some?, next)
  {
    hide Index.Valid, Owned, Blobref, CreateBlobKey, Getting, Page, Ordered, Increasing, StartOf, AllStorable, Behind,
         Within, AllOwned;
    m, log', next := n + 1, log, None;
    ghost var source := remote.contents;
    Arrive(local, remote, arrivals, n);
    GettingWider(net, log, before, local.contents, source, remote.contents);
    if !net(n) {
      return None, next, m, log';
    }
    CursorStays(local.hasher, source, remote.contents, last, cursor);
    AllOwnedMonotone(local.hasher, source, remote.contents, start);
    var after: Option<string> := if |last| > 0 then Some(last) else None;
    OrderedKeys(remote);
    OwnedWithin(remote, start);
    ghost var order := remote.order;
    ghost var page := Page(order, cursor, 26);
    PageIs(order, cursor, 26);
    var refs, continueAfter := HandleEnumerate(remote, after);
    ghost var keys := if |page| == 26 then page[..25] else page;
    PageKeys(remote, cursor, keys);
    if |page| == 26 {
      CursorMoves(remote, page[25]);
    }
    ghost var was, held := local.contents, remote.contents;
    m, log' := GetPage(local, remote, refs, keys, net, arrivals, m, log', before);
    if AllUp(net) {
      PageMoves(local.hasher, was, local.contents, start, order, cursor, keys);
    }
    if continueAfter.Some? {
      next := Some(page[25]);
      CursorStays(local.hasher, held, remote.contents, continueAfter.value, next);
    }
    more := continueAfter;
  }

  /** The get phase: pages through the other side and fetches what is missing, while other
      clients may add to the other side. */
  method GetPhase(local: Index, remote: Index, net: nat -> bool, arrivals: Arrivals, n: nat)
    returns (m: nat, ghost log: seq<string>)
    requires Peers(local, remote) && AllStorable(local.hasher, arrivals)
    modifies local, remote
    ensures Peers(local, remote) && Spread(old(local.contents), local.contents, remote.contents) && n <= m
    ensures old(remote.contents) <= remote.contents <= old(remote.contents) + Arrived(arrivals)
    ensures AllUp(net) ==> old(remote.contents) <= local.contents
    ensures AllUp(net) ==> FetchedOnce(log, old(local.contents), local.contents, remote.contents)
  {
    hide Index.Valid, Owned, Blobref, CreateBlobKey, Page, Increasing, LowerBound, AllUp, Behind, AllOwned, AllStorable;
    var getMore, last := true, "";
    ghost var cursor: Option<BlobKey> := None;
    ghost var start := remote.order;
    m, log := n, [];
    StartGet(remote, local.contents);
    while getMore
      invariant Peers(local, remote) && n <= m
      invariant Getting(net, log, old(local.contents), local.contents, remote.contents)
      invariant old(remote.contents) <= remote.contents <= old(remote.contents) + Arrived(arrivals)
      invariant getMore ==> CursorOk(local.hasher, remote.contents, last, cursor)
      invariant AllOwned(local.hasher, remote.contents, start)
      invariant AllUp(net) ==> Behind(local.hasher, local.contents, start, getMore, cursor)
      decreases getMore, Pending(arrivals, m), |remote.order| - StartOf(remote.order, cursor)
    {
      var more;
      ghost var was := remote.contents;
      more, cursor, m, log := GetStep(local, remote, last, cursor, start, net, arrivals, m, log, old(local.contents));
      AllOwnedMonotone(local.hasher, was, remote.contents, start);
      if more.Some? {
        last := more.value;
      } else {
        getMore := false;
      }
    }
    if AllUp(net) {
      GotAll(local, old(remote.contents), start, cursor);
    }
  }

  lemma {:induction false} StartGet(remote: Index, now: set<string>)
    requires remote.Valid()
    ensures AllOwned(remote.hasher, remote.contents, remote.order)
            && KeysListed(remote.hasher, remote.contents, remote.order)
    ensures Behind(remote.hasher, now, remote.order, true, None)
  {
    hide Index.Valid, Owned;
    OrderedKeys(remote);
    PageOwned(remote, remote.order);
    IndexLists(remote);
  }

  lemma {:induction false} GotAll(local: Index, source: set<string>, start: seq<BlobKey>, cursor: Option<BlobKey>)
    requires local.Valid() && KeysListed(local.hasher, source, start)
    requires Behind(local.hasher, local.contents, start, false, cursor)
    ensures source <= local.contents
  {
    hide Index.Valid, Owned, KeysListed;
    AllPlain(local);
    ValidHasher(local);
    ContentsFollow(local.hasher, source, start, local.contents);
  }


  /** A client that follows the listing text by text, while other clients add to the index:
      it sees ascending texts of strictly increasing keys, every key that was there when it started, and only
      keys that are there when it ends. */
  method FollowListing(bi: Index, arrivals: Arrivals) returns (refs: seq<string>, ghost keys: seq<BlobKey>)
    requires bi.Valid() && AllStorable(bi.hasher, arrivals)
    modifies bi
    ensures bi.Valid() && refs == Refs(keys) && Increasing(keys)
    ensures Within(old(bi.order), keys) && Within(keys, bi.order) && RefsAscend(refs)
  {
    hide Index.Valid, Owned, Blobref, CreateBlobKey, StartOf, AllStorable, AllOwned, Increasing, Listed;
    var more, last, n := true, "", 0;
    ghost var cursor: Option<BlobKey> := None;
    ghost var start := bi.order;
    refs, keys := [], [];
    StartListing(bi);
    while more
      invariant bi.Valid() && refs == Refs(keys) && Listed(start, keys, more, cursor)
      invariant more ==> CursorOk(bi.hasher, bi.contents, last, cursor)
      invariant AllOwned(bi.hasher, bi.contents, start) && AllOwned(bi.hasher, bi.contents, keys)
      decreases more, Pending(arrivals, n), |bi.order| - StartOf(bi.order, cursor)
    {
      ghost var was := bi.contents;
      var batch := if n < |arrivals| then arrivals[n] else [];
      BatchStorable(bi.hasher, arrivals, n);
      OrderedKeys(bi);
      HandlePut(bi, batch);
      n := n + 1;
      CursorStays(bi.hasher, was, bi.contents, last, cursor);
      AllOwnedMonotone(bi.hasher, was, bi.contents, start);
      AllOwnedMonotone(bi.hasher, was, bi.contents, keys);
      more, last, cursor, refs, keys := ListPage(bi, last, cursor, start, refs, keys);
    }
    OwnedWithin(bi, keys);
    ListingDone(start, keys, cursor);
    KeysAscend(bi, keys);
  }

  /** One page of the listing. */
  method ListPage(bi: Index, last: string, ghost cursor: Option<BlobKey>, ghost start: seq<BlobKey>,
                  refs: seq<string>, ghost keys: seq<BlobKey>)
    returns (more: bool, last': string, ghost cursor': Option<BlobKey>, refs': seq<string>, ghost keys': seq<BlobKey>)
    requires bi.Valid() && refs == Refs(keys) && Listed(start, keys, true, cursor)
    requires CursorOk(bi.hasher, bi.contents, last, cursor)
    requires AllOwned(bi.hasher, bi.contents, start) && AllOwned(bi.hasher, bi.contents, keys)
    ensures refs' == Refs(keys') && Listed(start, keys', more, cursor') && AllOwned(bi.hasher, bi.contents, keys')
    ensures more ==> CursorOk(bi.hasher, bi.contents, last', cursor')
    ensures more ==> StartOf(bi.order, cursor') > StartOf(bi.order, cursor)
  {
    hide Index.Valid, Owned, Blobref, CreateBlobKey, Page, Ordered, StartOf, AllOwned, Increasing, Listed, Less,
         RefsAscend;
    OrderedKeys(bi);
    OwnedWithin(bi, start);
    ghost var page := Page(bi.order, cursor, 26);
    PageIs(bi.order, cursor, 26);
    var listed, continueAfter := HandleEnumerate(bi, if |last| > 0 then Some(last) else None);
    ghost var now := if |page| == 26 then page[..25] else page;
    PageKeys(bi, cursor, now);
    PageOwned(bi, now);
    ListedMore(start, keys, bi.order, cursor, now);
    AllOwnedConcat(bi.hasher, bi.contents, keys, now);
    refs', keys' := refs + listed, keys + now;
    more, last' := continueAfter.Some?, last;
    cursor' := if |page| == 26 then Some(page[25]) else None;
    if more {
      last' := continueAfter.value;
      CursorMoves(bi, page[25]);
    }
  }

  lemma {:induction false} BatchStorable(h: Hasher, arrivals: Arrivals, n: nat)
    requires AllStorable(h, arrivals)
    ensures Storable(h, if n < |arrivals| then arrivals[n] else []) && Kept([]) == {}
  {
  }

  /** What a listing has seen: increasing keys before the cursor, and every key of a list
      that is not still ahead. */
  ghost predicate Listed(start: seq<BlobKey>, keys: seq<BlobKey>, more: bool, cursor: Option<BlobKey>) {
    && Increasing(keys)
    && (forall k | k in start :: k in keys || (more && AtLeast(k, cursor)))
    && (more && cursor.Some? ==> forall k | k in keys :: Less(k, cursor.value))
    && (more && cursor.None? ==> keys == [])
  }

  lemma {:induction false} StartListing(bi: Index)
    requires bi.Valid()
    ensures Listed(bi.order, [], true, None) && AllOwned(bi.hasher, bi.contents, bi.order)
    ensures AllOwned(bi.hasher, bi.contents, []) && CursorOk(bi.hasher, bi.contents, "", None)
  {
    hide Index.Valid, Owned, Less;
    OrderedKeys(bi);
    PageOwned(bi, bi.order);
  }

  lemma {:induction false} AllOwnedConcat(h: Hasher, contents: set<string>, a: seq<BlobKey>, b: seq<BlobKey>)
    requires AllOwned(h, contents, a) && AllOwned(h, contents, b)
    ensures AllOwned(h, contents, a + b)
  {
    hide Owned;
  }

  /** The keys of a page continue a listing. */
  lemma {:induction false} ListedMore(start: seq<BlobKey>, keys: seq<BlobKey>, order: seq<BlobKey>,
                                      cursor: Option<BlobKey>,
                                      now: seq<BlobKey>)
    requires Listed(start, keys, true, cursor) && Increasing(order) && Within(start, order)
    requires var page := Page(order, cursor, 26); now == if |page| == 26 then page[..25] else page
    ensures var page := Page(order, cursor, 26);
            Listed(start, keys + now, |page| == 26, if |page| == 26 then Some(page[25]) else None)
  {
    hide Less, Page;
    var page := Page(order, cursor, 26);
    PageSize(order, cursor, 26);
    PageHolds(order, cursor, 26, BlobKey("", ""));
    var all := keys + now;
    forall i, j | 0 <= i < j < |all|
      ensures Less(all[i], all[j])
    {
      if i < |keys| <= j {
        assert all[j] == page[j - |keys|] && all[j] in page && all[i] in keys;
        PageHolds(order, cursor, 26, all[j]);
        LessAtLeast(all[i], cursor.value, all[j]);
      }
    }
    forall k | k in start
      ensures k in all || (|page| == 26 && AtLeast(k, Some(page[25])))
    {
      if k !in keys {
        PageHolds(order, cursor, 26, k);
        if k in page {
          var i :| 0 <= i < |page| && page[i] == k;
          if i < |now| {
            assert now[i] == k && k in now;
          } else {
            LessTotal(k, k);
          }
        } else {
          LessTotal(page[25], k);
        }
      }
    }
    if |page| == 26 {
      forall k | k in all
        ensures Less(k, page[25])
      {
        if k in now {
          var i :| 0 <= i < |now| && now[i] == k;
          assert page[i] == k;
        } else {
          assert page[25] in page;
          PageHolds(order, cursor, 26, page[25]);
          LessAtLeast(k, cursor.value, page[25]);
        }
      }
    }
  }

  lemma {:induction false} LessAtLeast(a: BlobKey, b: BlobKey, c: BlobKey)
    requires Less(a, b) && !Less(c, b)
    ensures Less(a, c)
  {
    hide Less;
    LessTotal(b, c);
    if b != c {
      LessTransitive(a, b, c);
    }
  }

  lemma {:induction false} ListingDone(start: seq<BlobKey>, keys: seq<BlobKey>, cursor: Option<BlobKey>)
    requires Listed(start, keys, false, cursor)
    ensures Increasing(keys) && Within(start, keys)
  {
  }

  // ----- Sending -------------------------------------------------------------------------------

  /** Uploads one blob, if the request succeeds. */
  method SendBlob(local: Index, remote: Index, ref: string, ghost k: BlobKey, up: bool) returns (ghost c: string)
    requires Peers(local, remote) && k in local.blobs && ref == Blobref(k)
    modifies remote
    ensures Peers(local, remote) && c in local.contents && IsKeyOf(local.hasher, k, c)
    ensures remote.contents == if up then old(remote.contents) + {c} else old(remote.contents)
  {
    hide CollisionFree, Ordered, Holds, NulFree, Blobref, CreateBlobKey;
    c := TextOfKey(local, k);
    var content := HandleGet(local, ref);
    if up {
      assert content == Some(c) && Kept([c]) == {c};
      assert Storable(remote.hasher, [c]);
      HandlePut(remote, [content.value]);
    }
  }

  /** Texts of keys of an index. */
  ghost predicate RefsOf(bi: Index, refs: set<string>)
    reads bi
  {
    forall r | r in refs :: IsRef(bi, r)
  }

  ghost predicate IsRef(bi: Index, r: string)
    reads bi
  {
    Has(bi, r) && r == Blobref(CreateBlobKey(r).value)
  }

  /** The key a reference stands for is held there. */
  ghost predicate RefOwned(h: Hasher, contents: set<string>, r: string) {
    |r| < NPOS32 && CreateBlobKey(r).Some? && Owned(h, contents, CreateBlobKey(r).value)
  }

  /** Only contents held here and missing there before. */
  ghost predicate SentNew(log: seq<string>, contents: set<string>, before: set<string>) {
    forall i | 0 <= i < |log| :: log[i] in contents && log[i] !in before
  }

  /** Uploads all the missing ones, in any order. */
  method SendAll(local: Index, remote: Index, missing: set<string>, net: nat -> bool, arrivals: Arrivals, n: nat,
                 ghost before: set<string>)
    returns (m: nat, ghost log: seq<string>)
    requires Peers(local, remote) && AllStorable(local.hasher, arrivals) && RefsOf(local, missing)
    requires forall r | r in missing :: !RefOwned(local.hasher, before, r)
    modifies remote
    ensures Peers(local, remote) && Spread(old(remote.contents), remote.contents, local.contents + Arrived(arrivals))
    ensures AllUp(net) ==> forall r | r in missing :: RefOwned(local.hasher, remote.contents, r)
    ensures SentNew(log, local.contents, before)
  {
    hide Index.Valid, Owned, IsKeyOf, Blobref, CreateBlobKey, AllStorable, Arrived;
    m, log := n, [];
    var todo := missing;
    while todo != {}
      invariant Peers(local, remote)
      invariant Spread(old(remote.contents), remote.contents, local.contents + Arrived(arrivals))
      invariant todo <= missing && SentNew(log, local.contents, before)
      invariant AllUp(net) ==> forall r | r in missing - todo :: RefOwned(local.hasher, remote.contents, r)
      decreases todo
    {
      var r :| r in todo;
      ghost var k := CreateBlobKey(r).value;
      assert IsRef(local, r);
      ghost var was := remote.contents;
      Arrive(local, remote, arrivals, m);
      ghost var c := SendBlob(local, remote, r, k, net(m));
      assert !RefOwned(local.hasher, before, r);
      if c in before {
        OwnedBy(local.hasher, before, k, c);
      }
      log := log + [c];
      if AllUp(net) {
        OwnedBy(local.hasher, remote.contents, k, c);
        forall x | x in missing - todo
          ensures RefOwned(local.hasher, remote.contents, x)
        {
          OwnedMonotone(local.hasher, was, remote.contents, CreateBlobKey(x).value);
        }
      }
      m := m + 1;
      todo := todo - {r};
    }
  }

  /** Asks which of a page's references the other side has and uploads the others. */
  method SendPage(local: Index, remote: Index, page: seq<(BlobKey, Blob)>, ghost keys: seq<BlobKey>, net: nat -> bool,
                  arrivals: Arrivals, n: nat, ghost before: set<string>)
    returns (ok: bool, m: nat, ghost log: seq<string>)
    requires Peers(local, remote) && AllStorable(local.hasher, arrivals) && |page| == |keys|
    requires forall i | 0 <= i < |page| :: page[i].0 == keys[i] && keys[i] in local.blobs
    requires before <= remote.contents
    modifies remote
    ensures Peers(local, remote) && Spread(old(remote.contents), remote.contents, local.contents + Arrived(arrivals))
    ensures AllUp(net) ==> ok && AllOwned(local.hasher, remote.contents, keys)
    ensures SentNew(log, local.contents, before)
  {
    hide Index.Valid, Owned, IsKeyOf, Blobref, CreateBlobKey, RefOwned, AllStorable, Arrived;
    m, log := n, [];
    var refs: seq<string> := [];
    for i := 0 to |page|
      invariant Peers(local, remote) && remote.contents == old(remote.contents)
      invariant |refs| == i && forall x | 0 <= x < i :: refs[x] == Blobref(keys[x]) && |refs[x]| < NPOS32
    {
      ghost var _ := TextOfKey(local, keys[i]);
      refs := refs + [Blobref(page[i].0)];
    }
    Arrive(local, remote, arrivals, m);
    var up := net(m);
    m := m + 1;
    if !up {
      return false, m, log;
    }
    var stat := HandleStat(remote, refs);
    var missing := (set r | r in refs) - (set r | r in stat);
    PageRefs(local, keys, refs, missing);
    ghost var was := remote.contents;
    PresentOwned(remote, keys, refs, missing, stat);
    MissingNew(remote, missing, stat, before);
    m, log := SendAll(local, remote, missing, net, arrivals, m, before);
    ok := true;
    if AllUp(net) {
      forall i | 0 <= i < |keys|
        ensures Owned(local.hasher, remote.contents, keys[i])
      {
        ghost var _ := TextOfKey(local, keys[i]);
        SentOrPresent(local.hasher, was, remote.contents, keys[i], refs[i], missing);
      }
    }
  }

  /** What is reported missing is missing. */
  lemma {:induction false} MissingNew(remote: Index, missing: set<string>, stat: seq<string>, before: set<string>)
    requires remote.Valid() && before <= remote.contents
    requires forall r | r in missing :: r !in stat && !Has(remote, r)
    ensures forall r | r in missing :: !RefOwned(remote.hasher, before, r)
  {
    hide Index.Valid, Owned, CreateBlobKey;
    forall r | r in missing
      ensures !RefOwned(remote.hasher, before, r)
    {
      if RefOwned(remote.hasher, before, r) {
        KeyStays(remote, before, CreateBlobKey(r).value);
      }
    }
  }

  lemma {:induction false} PageRefs(local: Index, keys: seq<BlobKey>, refs: seq<string>, missing: set<string>)
    requires local.Valid() && |refs| == |keys|
    requires forall i | 0 <= i < |keys| :: keys[i] in local.blobs && refs[i] == Blobref(keys[i])
    requires forall r | r in missing :: r in refs
    ensures RefsOf(local, missing)
  {
    hide Index.Valid, Blobref, CreateBlobKey;
    forall r | r in missing
      ensures IsRef(local, r)
    {
      var i :| 0 <= i < |refs| && refs[i] == r;
      var _ := TextOfKey(local, keys[i]);
    }
  }

  /** References not missing are held by the other side already. */
  lemma {:induction false} PresentOwned(remote: Index, keys: seq<BlobKey>, refs: seq<string>, missing: set<string>,
                                        stat: seq<string>)
    requires remote.Valid() && |refs| == |keys|
    requires forall r | r in refs && r !in missing :: r in stat
    requires forall r | r in stat :: Has(remote, r)
    ensures forall r | r in refs && r !in missing :: RefOwned(remote.hasher, remote.contents, r)
  {
    hide Index.Valid, Owned, Blobref, CreateBlobKey;
    forall r | r in refs && r !in missing
      ensures RefOwned(remote.hasher, remote.contents, r)
    {
      KeysAre(remote, CreateBlobKey(r).value);
    }
  }

  lemma {:induction false} SentOrPresent(h: Hasher, was: set<string>, now: set<string>, k: BlobKey, ref: string,
                                         missing: set<string>)
    requires was <= now && |ref| < NPOS32 && CreateBlobKey(ref) == Some(k)
    requires ref in missing ==> RefOwned(h, now, ref)
    requires ref !in missing ==> RefOwned(h, was, ref)
    ensures Owned(h, now, k)
  {
    hide Owned, CreateBlobKey;
    if ref !in missing {
      OwnedMonotone(h, was, now, k);
    }
  }

  /** The cursor of the send loop. */
  ghost predicate AfterOk(bi: Index, after: Option<string>, cursor: Option<BlobKey>)
    reads bi
  {
    (after.None? <==> cursor.None?) && (after.Some? ==> CursorOk(bi.hasher, bi.contents, after.value, cursor))
  }

  /** One page of the send loop: 501 keys, of which the last starts the next page too. */
  method SendStep(local: Index, remote: Index, after: Option<string>, ghost cursor: Option<BlobKey>, net: nat -> bool,
                  arrivals: Arrivals, n: nat, ghost before: set<string>)
    returns (more: Option<string>, ghost next: Option<BlobKey>, m: nat, ghost log: seq<string>)
    requires before <= remote.contents
    requires Peers(local, remote) && AllStorable(local.hasher, arrivals) && AfterOk(local, after, cursor)
    requires AllUp(net) ==> AllOwned(local.hasher, remote.contents, local.order[..StartOf(local.order, cursor)])
    modifies remote
    ensures Peers(local, remote) && Spread(old(remote.contents), remote.contents, local.contents + Arrived(arrivals))
    ensures more.Some? ==> AfterOk(local, more, next) && StartOf(local.order, next) > StartOf(local.order, cursor)
    ensures AllUp(net) ==> AllOwned(local.hasher, remote.contents,
                                    local.order[..if more.Some? then StartOf(local.order, next) else |local.order|])
    ensures SentNew(log, local.contents, before)
  {
    hide Index.Valid, Owned, Blobref, CreateBlobKey, Page, Ordered, Increasing, StartOf, AllStorable, Arrived;
    OrderedKeys(local);
    m, next, log := n, None, [];
    ghost var start, keys := StartOf(local.order, cursor), Page(local.order, cursor, 501);
    PageIs(local.order, cursor, 501);
    var page := local.Paginate(after, 501);
    more := None;
    if |page| == 501 {
      more := Some(Blobref(page[500].0));
      next := Some(keys[500]);
      CursorMoves(local, keys[500]);
    }
    ghost var was := remote.contents;
    if |page| > 0 {
      var ok;
      ok, m, log := SendPage(local, remote, page, keys, net, arrivals, m, before);
      if !ok {
        more := None;
      }
    }
    if AllUp(net) {
      AllOwnedMonotone(local.hasher, was, remote.contents, local.order[..start]);
      assert local.order[..start + |keys|] == local.order[..start] + keys;
      if |keys| == 501 {
        assert local.order[..start + 500] == local.order[..start + 501][..start + 500];
      }
    }
  }

  /** The send phase: pages through the own index and uploads what the other side lacks. */
  method SendPhase(local: Index, remote: Index, net: nat -> bool, arrivals: Arrivals, n: nat)
    returns (m: nat, ghost log: seq<string>)
    requires Peers(local, remote) && AllStorable(local.hasher, arrivals)
    modifies remote
    ensures Peers(local, remote) && Spread(old(remote.contents), remote.contents, local.contents + Arrived(arrivals))
    ensures AllUp(net) ==> local.contents <= remote.contents
    ensures SentNew(log, local.contents, old(remote.contents))
  {
    hide Index.Valid, Owned, Blobref, CreateBlobKey, Page, Increasing, LowerBound, AllUp, AllStorable, Arrived;
    var checkMore := true;
    var after: Option<string> := None;
    ghost var cursor: Option<BlobKey> := None;
    m, log := n, [];
    while checkMore
      invariant Peers(local, remote)
      invariant Spread(old(remote.contents), remote.contents, local.contents + Arrived(arrivals))
      invariant checkMore ==> AfterOk(local, after, cursor)
      invariant SentNew(log, local.contents, old(remote.contents))
      invariant AllUp(net) ==> AllOwned(local.hasher, remote.contents,
                                       local.order[..if checkMore then StartOf(local.order, cursor) else |local.order|])
      decreases checkMore, |local.order| - StartOf(local.order, cursor)
    {
      ghost var sent;
      after, cursor, m, sent := SendStep(local, remote, after, cursor, net, arrivals, m, old(remote.contents));
      log := log + sent;
      if after.None? {
        checkMore := false;
      }
    }
    if AllUp(net) {
      SentAll(local, remote);
    }
  }

  lemma {:induction false} SentAll(local: Index, remote: Index)
    requires Peers(local, remote) && AllOwned(local.hasher, remote.contents, local.order[..|local.order|])
    ensures local.contents <= remote.contents
  {
    hide Index.Valid, Owned, KeysListed;
    AllPlain(remote);
    ValidHasher(remote);
    IndexLists(local);
    forall k | k in local.order
      ensures Owned(local.hasher, remote.contents, k)
    {
      var i :| 0 <= i < |local.order| && local.order[i] == k;
      assert local.order[..|local.order|][i] == k;
    }
    ContentsFollow(local.hasher, local.contents, local.order, remote.contents);
  }

  // ----- A round ---------------------------------------------------------------------------------

  /** Equal contents make equal indexes. */
  lemma {:induction false} SameIndex(a: Index, b: Index)
    requires Peers(a, b) && a.contents == b.contents
    ensures a.blobs == b.blobs && a.order == b.order
  {
    hide Index.Valid;
    forall k
      ensures k in a.blobs <==> k in b.blobs
      ensures k in a.blobs && k in b.blobs ==> a.blobs[k] == b.blobs[k]
      ensures k in a.order <==> k in b.order
    {
      SameEntry(a, b, k);
    }
    OrderedKeys(a);
    OrderedKeys(b);
    SameOrder(a.order, b.order);
  }

  lemma {:induction false} SameEntry(a: Index, b: Index, k: BlobKey)
    requires Peers(a, b) && a.contents == b.contents
    ensures k in a.blobs <==> k in b.blobs
    ensures k in a.blobs && k in b.blobs ==> a.blobs[k] == b.blobs[k]
    ensures k in a.order <==> k in b.order
  {
    hide Index.Valid, Owned, IsKeyOf, BlobOf, Held, CreateBlobKey, Blobref;
    KeysAre(a, k);
    KeysAre(b, k);
    if k in a.blobs && k in b.blobs {
      var c := TextOfKey(a, k);
      var d := TextOfKey(b, k);
      HeldPlain(a.hasher, a.blobs, a.files, c);
      HeldPlain(b.hasher, b.blobs, b.files, d);
      ValidHasher(a);
      SoleOwner(a.hasher, k, c, d);
    }
  }

  lemma {:induction false} TailOf(x: seq<BlobKey>, k: BlobKey)
    requires Increasing(x) && x != []
    ensures k in x[1..] <==> k in x && k != x[0]
  {
    hide Less;
    LessTotal(x[0], x[0]);
    assert x == [x[0]] + x[1..];
    if k in x[1..] {
      var i :| 0 <= i < |x| - 1 && x[1..][i] == k;
      assert Less(x[0], x[i + 1]);
    }
  }

  lemma {:induction false} SameOrder(x: seq<BlobKey>, y: seq<BlobKey>)
    requires Increasing(x) && Increasing(y) && forall k :: k in x <==> k in y
    ensures x == y
    decreases |x|
  {
    hide Less;
    assert y != [] ==> y[0] in y && y[0] in x;
    if x != [] {
      assert x[0] in x && x[0] in y;
      assert y[0] in y && y[0] in x;
      LessTotal(x[0], y[0]);
      assert x[0] == y[0];
      forall k
        ensures k in x[1..] <==> k in y[1..]
      {
        TailOf(x, k);
        TailOf(y, k);
      }
      SameOrder(x[1..], y[1..]);
    }
  }

  /** One round with another host. Contents only spread; with both phases on and no failed
      request everything either side had at the start is on both at the end, and if nobody
      else interferes both indexes equal the union. No content is fetched twice, and none is
      sent that was there at the start. */
  method SyncHost(local: Index, remote: Index, get: bool, send: bool, net: nat -> bool, arrivals: Arrivals)
    returns (ghost log: seq<string>, ghost sent: seq<string>)
    requires Peers(local, remote) && AllStorable(local.hasher, arrivals)
    modifies local, remote
    ensures Peers(local, remote) && SentNew(sent, local.contents, old(remote.contents))
    ensures Spread(old(local.contents), local.contents, remote.contents)
    ensures Spread(old(remote.contents), remote.contents, local.contents + Arrived(arrivals))
    ensures !get ==> local.contents == old(local.contents)
    ensures get && AllUp(net) ==>
              old(remote.contents) <= local.contents
              && FetchedOnce(log, old(local.contents), local.contents, remote.contents)
    ensures send && AllUp(net) ==> local.contents <= remote.contents
    ensures arrivals == [] && !send ==> remote.contents == old(remote.contents)
    ensures arrivals == [] ==>
              Replication.Round([old(local.contents), old(remote.contents)], [local.contents, remote.contents], 0, 1)
    ensures arrivals == [] && get && send && AllUp(net) ==>
              && remote.contents == local.contents == old(local.contents) + old(remote.contents)
              && remote.blobs == local.blobs && remote.order == local.order
              && [local.contents, remote.contents]
                 == Replication.FullRound([old(local.contents), old(remote.contents)], 0, 1)
  {
    hide Index.Valid, AllUp, NoRepeats, AllStorable, Arrived;
    var n := 0;
    log, sent := [], [];
    NoArrivals(arrivals);
    if get {
      n, log := GetPhase(local, remote, net, arrivals, n);
    }
    ghost var source := remote.contents;
    if send {
      n, sent := SendPhase(local, remote, net, arrivals, n);
    }
    if arrivals == [] && get && send && AllUp(net) {
      SameIndex(local, remote);
    }
  }

  lemma {:induction false} NoArrivals(arrivals: Arrivals)
    ensures arrivals == [] ==> Arrived(arrivals) == {}
  {
  }

  /** Two servers started empty, uploads to each of them, and one round: both then hold what
      was uploaded to either. */
  method UploadAndSync(h: Hasher, xs: seq<string>, ys: seq<string>, net: nat -> bool) returns (a: Index, b: Index)
    requires CollisionFree(h) && Storable(h, xs) && Storable(h, ys)
    ensures fresh(a) && fresh(b) && Peers(a, b) && a.hasher == h
    ensures Kept(xs) <= a.contents <= Kept(xs) + Kept(ys) && Kept(ys) <= b.contents <= Kept(xs) + Kept(ys)
    ensures AllUp(net) ==> a.contents == b.contents == Kept(xs) + Kept(ys) && a.blobs == b.blobs && a.order == b.order
  {
    hide CollisionFree, Storable, Holds, Increasing, AllUp;
    a := new Index(h);
    b := new Index(h);
    HandlePut(a, xs);
    HandlePut(b, ys);
    ghost var _, _ := SyncHost(a, b, true, true, net, []);
  }

  /** Its premise can be met: for any two short texts there is a hasher, and the union is
      both of them. */
  lemma {:induction false} SmallUploads(x: string, y: string)
    requires 0 < |x| <= 64 && 0 < |y| <= 64 && NulFree(x) && NulFree(y)
    ensures var h := Hasher(Clip, Clip, {x, y});
            CollisionFree(h) && Storable(h, [x]) && Storable(h, [y])
    ensures Kept([x]) + Kept([y]) == {x, y}
  {
    hide CollisionFree, NulFree;
    SomeHasher({x, y});
  }
}
