/**
 Paging through an ordered index: each page starts at a given key, inclusive, and the
 next page starts at the last key of the one before. Between pages the index may grow.
 */
module Paging {
  import opened Optional
  import opened Arith
  import opened BlobKeys

  ghost predicate Increasing(keys: seq<BlobKey>) {
    forall i, j | 0 <= i < j < |keys| :: Less(keys[i], keys[j])
  }

  /** The first position whose key is not less. */
  function LowerBound(keys: seq<BlobKey>, k: BlobKey): (r: nat)
    ensures r <= |keys|
  {
    if keys == [] || !Less(keys[0], k) then 0 else 1 + LowerBound(keys[1..], k)
  }

  lemma {:induction false} LowerBoundIs(keys: seq<BlobKey>, k: BlobKey, i: nat)
    requires Increasing(keys) && i < |keys|
    ensures i < LowerBound(keys, k) <==> Less(keys[i], k)
  {
    hide Less;
    if Less(keys[0], k) {
      if i > 0 {
        LowerBoundIs(keys[1..], k, i - 1);
      }
    } else if i > 0 && Less(keys[i], k) {
      LessTransitive(keys[0], keys[i], k);
    }
  }

  /** Where a page starts. */
  function StartOf(keys: seq<BlobKey>, after: Option<BlobKey>): (r: nat)
    ensures r <= |keys|
  {
    match after
    case None => 0
    case Some(k) => LowerBound(keys, k)
  }

  /** At most `count` keys from the start on. */
  function Page(keys: seq<BlobKey>, after: Option<BlobKey>, count: nat): (r: seq<BlobKey>)
    ensures |r| <= count
  {
    var rest := keys[StartOf(keys, after)..];
    if |rest| <= count then rest else rest[..count]
  }

  ghost predicate AtLeast(k: BlobKey, after: Option<BlobKey>) {
    after.Some? ==> !Less(k, after.value)
  }

  lemma {:induction false} StartIs(keys: seq<BlobKey>, after: Option<BlobKey>, i: nat)
    requires Increasing(keys) && i < |keys|
    ensures StartOf(keys, after) <= i <==> AtLeast(keys[i], after)
  {
    hide Less;
    if after.Some? {
      LowerBoundIs(keys, after.value, i);
    }
  }

  /** A page holds, in order, exactly the keys from its start up to its last key; a page
      that is not full holds all of them. */
  lemma {:induction false} PageHolds(keys: seq<BlobKey>, after: Option<BlobKey>, count: nat, k: BlobKey)
    requires Increasing(keys) && count >= 1
    ensures Increasing(Page(keys, after, count))
    ensures k in Page(keys, after, count) ==> k in keys && AtLeast(k, after)
    ensures k in keys && AtLeast(k, after) ==>
              var page := Page(keys, after, count);
              k in page || (|page| == count && Less(page[count - 1], k))
  {
    hide Less, LowerBound, Page, StartOf, AtLeast;
    PageSlice(keys, after, count);
    if k in Page(keys, after, count) {
      OnPage(keys, after, count, k);
    }
    if k in keys && AtLeast(k, after) {
      OnOrAfterPage(keys, after, count, k);
    }
  }

  /** A page is a slice of the keys: all from the start on, if they fit. */
  lemma {:induction false} PageSlice(keys: seq<BlobKey>, after: Option<BlobKey>, count: nat)
    ensures var start, page := StartOf(keys, after), Page(keys, after, count);
            && start + |page| <= |keys| && page == keys[start..start + |page|]
            && (|page| < count ==> start + |page| == |keys|)
    ensures Increasing(keys) ==> Increasing(Page(keys, after, count))
  {
    hide Less, LowerBound;
  }

  lemma {:induction false} OnPage(keys: seq<BlobKey>, after: Option<BlobKey>, count: nat, k: BlobKey)
    requires Increasing(keys) && k in Page(keys, after, count)
    ensures k in keys && AtLeast(k, after)
  {
    hide Less, LowerBound, Page, StartOf, AtLeast, Increasing;
    PageSlice(keys, after, count);
    var start, page := StartOf(keys, after), Page(keys, after, count);
    var i :| 0 <= i < |page| && page[i] == k;
    assert keys[start + i] == k;
    StartIs(keys, after, start + i);
  }

  lemma {:induction false} OnOrAfterPage(keys: seq<BlobKey>, after: Option<BlobKey>, count: nat, k: BlobKey)
    requires Increasing(keys) && count >= 1 && k in keys && AtLeast(k, after)
    ensures var page := Page(keys, after, count);
            k in page || (|page| == count && Less(page[count - 1], k))
  {
    hide Less, LowerBound, Page, StartOf, AtLeast;
    PageSlice(keys, after, count);
    var start, page := StartOf(keys, after), Page(keys, after, count);
    var i :| 0 <= i < |keys| && keys[i] == k;
    StartIs(keys, after, i);
    PageSize(keys, after, count);
    if i - start < |page| {
      assert page[i - start] == k;
    } else {
      assert page[count - 1] == keys[start + count - 1];
    }
  }

  // ----- A run of pages ---------------------------------------------------------------------

  /** The run ends: some page is not full. */
  predicate Ends(snaps: seq<seq<BlobKey>>, after: Option<BlobKey>, count: nat)
    requires count >= 1
    decreases |snaps|
  {
    snaps != [] &&
    var page := Page(snaps[0], after, count);
    |page| < count || Ends(snaps[1..], Some(page[count - 1]), count)
  }

  /** What is listed: of a full page all but the last key, which starts the next page. */
  function Listing(snaps: seq<seq<BlobKey>>, after: Option<BlobKey>, count: nat): seq<BlobKey>
    requires count >= 1 && Ends(snaps, after, count)
    decreases |snaps|
  {
    var page := Page(snaps[0], after, count);
    if |page| < count then page
    else page[..count - 1] + Listing(snaps[1..], Some(page[count - 1]), count)
  }

  /** The keys of one are among those of the other. */
  ghost predicate Within(a: seq<BlobKey>, b: seq<BlobKey>) {
    forall k | k in a :: k in b
  }

  /** Snapshots of an index that only grows. */
  ghost predicate Growing(snaps: seq<seq<BlobKey>>) {
    && (forall i | 0 <= i < |snaps| :: Increasing(snaps[i]))
    && (forall i, j | 0 <= i <= j < |snaps| :: Within(snaps[i], snaps[j]))
  }

  /** Whatever is added between the pages, the listing is strictly increasing, misses no
      key that was there at the start, and lists nothing that is not there at the end. */
  lemma {:induction false} ListingComplete(snaps: seq<seq<BlobKey>>, after: Option<BlobKey>, count: nat)
    requires count >= 1 && Growing(snaps) && Ends(snaps, after, count)
    ensures var l := Listing(snaps, after, count);
            && Increasing(l)
            && (forall k | k in snaps[0] && AtLeast(k, after) :: k in l)
            && (forall k | k in l :: k in snaps[|snaps| - 1] && AtLeast(k, after))
    decreases |snaps|
  {
    hide Less, Page;
    var page := Page(snaps[0], after, count);
    var l := Listing(snaps, after, count);
    assert Within(snaps[0], snaps[|snaps| - 1]);
    if |page| < count {
      forall k
        ensures k in snaps[0] && AtLeast(k, after) ==> k in page
        ensures k in page ==> k in snaps[|snaps| - 1] && AtLeast(k, after)
      {
        PageHolds(snaps[0], after, count, k);
      }
      PageHolds(snaps[0], after, count, BlobKey("", ""));
    } else {
      PageSize(snaps[0], after, count);
      var last := page[count - 1];
      var rest := snaps[1..];
      forall i, j | 0 <= i <= j < |rest|
        ensures Within(rest[i], rest[j])
      {
        assert Within(snaps[i + 1], snaps[j + 1]);
      }
      ListingComplete(rest, Some(last), count);
      NextPage(snaps, after, count, l, Listing(rest, Some(last), count));
    }
  }

  lemma {:induction false} PageSize(keys: seq<BlobKey>, after: Option<BlobKey>, count: nat)
    ensures |Page(keys, after, count)| <= count
  {
  }

  lemma {:induction false} NextPage(snaps: seq<seq<BlobKey>>, after: Option<BlobKey>, count: nat, l: seq<BlobKey>,
                                    tail: seq<BlobKey>)
    requires count >= 1 && |snaps| >= 2 && Growing(snaps) && |Page(snaps[0], after, count)| == count
    requires var page := Page(snaps[0], after, count);
             && l == page[..count - 1] + tail && Increasing(tail)
             && (forall k | k in snaps[1] && AtLeast(k, Some(page[count - 1])) :: k in tail)
             && (forall k | k in tail :: k in snaps[|snaps| - 1] && AtLeast(k, Some(page[count - 1])))
    ensures Increasing(l)
    ensures forall k | k in snaps[0] && AtLeast(k, after) :: k in l
    ensures forall k | k in l :: k in snaps[|snaps| - 1] && AtLeast(k, after)
  {
    hide Less, Page;
    var page := Page(snaps[0], after, count);
    var last := page[count - 1];
    PageHolds(snaps[0], after, count, last);
    assert page[count - 1] in page;
    forall i, j | 0 <= i < j < |l|
      ensures Less(l[i], l[j])
    {
      if j >= count - 1 {
        var k := l[j];
        assert k == tail[j - (count - 1)] && k in tail;
        assert AtLeast(k, Some(last));
        if i < count - 1 {
          LessTotal(last, k);
          assert Less(page[i], last);
          if last != k {
            LessTransitive(page[i], last, k);
          }
        } else {
          assert l[i] == tail[i - (count - 1)];
        }
      }
    }
    forall k | k in snaps[0] && AtLeast(k, after)
      ensures k in l
    {
      PageHolds(snaps[0], after, count, k);
      assert Within(snaps[0], snaps[1]);
      LessTotal(k, last);
      if k in page && k != last {
        var i :| 0 <= i < count && page[i] == k;
        assert l[i] == k;
      } else {
        assert AtLeast(k, Some(last));
      }
    }
    forall k | k in l
      ensures k in snaps[|snaps| - 1] && AtLeast(k, after)
    {
      assert Within(snaps[0], snaps[|snaps| - 1]);
      if k !in tail {
        var i :| 0 <= i < |l| && l[i] == k;
        assert i < count - 1;
        assert page[i] == k;
        PageHolds(snaps[0], after, count, k);
      } else if after.Some? {
        LessTotal(k, last);
        LessTotal(last, after.value);
        if Less(k, after.value) {
          LessTransitive(last, k, after.value);
        }
      }
    }
  }

  // ----- A fixed index ------------------------------------------------------------------------

  /** On a fixed index every full page moves the start on by all its keys but one. */
  lemma {:induction false} PageProgress(keys: seq<BlobKey>, after: Option<BlobKey>, count: nat)
    requires Increasing(keys) && count >= 1 && |Page(keys, after, count)| == count
    ensures StartOf(keys, Some(Page(keys, after, count)[count - 1])) == StartOf(keys, after) + count - 1 < |keys|
  {
    hide Less, LowerBound;
    var start, page := StartOf(keys, after), Page(keys, after, count);
    var i := start + count - 1;
    assert page[count - 1] == keys[i];
    LessTotal(keys[i], keys[i]);
    LowerBoundIs(keys, keys[i], i);
    if i > 0 {
      LowerBoundIs(keys, keys[i], i - 1);
    }
  }

  /** So paging through it ends. */
  lemma {:induction false} FixedIndexEnds(snaps: seq<seq<BlobKey>>, keys: seq<BlobKey>, after: Option<BlobKey>,
                                          count: nat)
    requires Increasing(keys) && count >= 2 && (forall i | 0 <= i < |snaps| :: snaps[i] == keys)
    requires |snaps| > |keys| - StartOf(keys, after)
    ensures Ends(snaps, after, count)
    decreases |snaps|
  {
    hide Less, Page;
    PageSize(keys, after, count);
    if |Page(keys, after, count)| == count {
      PageProgress(keys, after, count);
      FixedIndexEnds(snaps[1..], keys, Some(Page(keys, after, count)[count - 1]), count);
    }
  }
}
