/**
 The server's side of the blob protocol: what it answers to enumerate, stat, get and
 upload requests, and what holds of any index these are asked of.
 */
module BlobServer {
  import opened Optional
  import opened BlobKeys
  import opened Paging
  import opened BlobIndex

  // ----- Facts about valid indexes -----------------------------------------------------------

  /** The keys of an index are those of its contents. */
  lemma {:induction false} KeysAre(bi: Index, k: BlobKey)
    requires bi.Valid()
    ensures k in bi.blobs <==> Owned(bi.hasher, bi.contents, k)
    ensures k in bi.blobs <==> k in bi.order
  {
    hide CollisionFree, Increasing, Held, Owned;
    if Owned(bi.hasher, bi.contents, k) {
      var c := PickOwner(bi.hasher, bi.contents, k);
      HeldKey(bi.hasher, bi.blobs, bi.files, c, k);
    }
  }

  lemma {:induction false} TextOfKey(bi: Index, k: BlobKey) returns (c: string)
    requires bi.Valid() && k in bi.blobs
    ensures |Blobref(k)| < NPOS32 && CreateBlobKey(Blobref(k)) == Some(k)
    ensures c in bi.contents && IsKeyOf(bi.hasher, k, c) && bi.blobs[k] == BlobOf(bi.hasher, c)
            && Held(bi.hasher, bi.blobs, bi.files, c)
  {
    hide CollisionFree, Increasing, Held, Owned, Blobref, CreateBlobKey;
    c := OwnerOf(bi.hasher, bi.blobs, bi.files, bi.contents, k);
    HeldPlain(bi.hasher, bi.blobs, bi.files, c);
    KeyText(bi.hasher, k, c);
  }

  lemma {:induction false} OwnedBy(h: Hasher, contents: set<string>, k: BlobKey, c: string)
    requires c in contents && IsKeyOf(h, k, c)
    ensures Owned(h, contents, k)
  {
    hide IsKeyOf;
  }

  lemma {:induction false} OwnedMonotone(h: Hasher, a: set<string>, b: set<string>, k: BlobKey)
    requires Owned(h, a, k) && a <= b
    ensures Owned(h, b, k)
  {
    hide IsKeyOf;
  }

  /** The first keys of some contents are all in a list. */
  ghost predicate KeysListed(h: Hasher, contents: set<string>, keys: seq<BlobKey>) {
    forall c | c in contents :: Plain(h, c) && Sha1Key(h, c) in keys
  }

  lemma {:induction false} IndexLists(bi: Index)
    requires bi.Valid()
    ensures KeysListed(bi.hasher, bi.contents, bi.order)
  {
    hide CollisionFree, Increasing, Owned, Plain, IsKeyOf;
    forall c | c in bi.contents
      ensures Plain(bi.hasher, c) && Sha1Key(bi.hasher, c) in bi.order
    {
      assert Held(bi.hasher, bi.blobs, bi.files, c);
      HeldPlain(bi.hasher, bi.blobs, bi.files, c);
      FirstKey(bi.hasher, c);
      OwnedBy(bi.hasher, bi.contents, Sha1Key(bi.hasher, c), c);
      KeysAre(bi, Sha1Key(bi.hasher, c));
    }
  }

  /** Where all the keys of some contents are, the contents are. */
  lemma {:induction false} ContentsFollow(h: Hasher, source: set<string>, keys: seq<BlobKey>, now: set<string>)
    requires CollisionFree(h) && KeysListed(h, source, keys)
    requires (forall c | c in now :: Plain(h, c)) && (forall k | k in keys :: Owned(h, now, k))
    ensures source <= now
  {
    hide CollisionFree, Owned, Plain, IsKeyOf, Sha1Key;
    forall c | c in source
      ensures c in now
    {
      FirstKey(h, c);
      var x := PickOwner(h, now, Sha1Key(h, c));
      SoleOwner(h, Sha1Key(h, c), c, x);
    }
  }

  lemma {:induction false} FirstKey(h: Hasher, c: string)
    ensures IsKeyOf(h, Sha1Key(h, c), c)
  {
  }

  lemma {:induction false} HeldPlain(h: Hasher, blobs: map<BlobKey, Blob>, files: map<string, string>, c: string)
    requires Held(h, blobs, files, c)
    ensures Plain(h, c)
  {
  }

  lemma {:induction false} AllPlain(bi: Index)
    requires bi.Valid()
    ensures forall c | c in bi.contents :: Plain(bi.hasher, c)
  {
    hide CollisionFree, Increasing, Owned, Plain, IsKeyOf, Held;
    forall c | c in bi.contents
      ensures Plain(bi.hasher, c)
    {
      HeldPlain(bi.hasher, bi.blobs, bi.files, c);
    }
  }

  // ----- The server's side --------------------------------------------------------------------

  function Refs(keys: seq<BlobKey>): (r: seq<string>)
    ensures |r| == |keys| && forall i | 0 <= i < |r| :: r[i] == Blobref(keys[i])
  {
    seq(|keys|, i requires 0 <= i < |keys| => Blobref(keys[i]))
  }

  function ParseAfter(after: Option<string>): Option<BlobKey>
    requires after.Some? ==> |after.value| < NPOS32
  {
    if after.Some? then CreateBlobKey(after.value) else None
  }

  /** Of any two references the first one comes first as a text. */
  ghost predicate RefsAscend(refs: seq<string>) {
    forall i, j | 0 <= i < j < |refs| :: Upwards(refs[i], refs[j])
  }

  lemma {:induction false} NamedKey(bi: Index, k: BlobKey)
    requires bi.Valid() && k in bi.blobs
    ensures Named(k)
  {
    hide Index.Valid, CreateBlobKey, Blobref;
    var _ := TextOfKey(bi, k);
  }

  /** References of increasing keys of an index ascend. */
  lemma {:induction false} KeysAscend(bi: Index, keys: seq<BlobKey>)
    requires bi.Valid() && Increasing(keys) && forall k | k in keys :: k in bi.order
    ensures RefsAscend(Refs(keys))
  {
    hide Index.Valid, Less, Upwards, Blobref;
    forall i, j | 0 <= i < j < |keys|
      ensures Upwards(Blobref(keys[i]), Blobref(keys[j]))
    {
      assert keys[i] in keys && keys[j] in keys;
      KeysAre(bi, keys[i]);
      KeysAre(bi, keys[j]);
      NamedKey(bi, keys[i]);
      NamedKey(bi, keys[j]);
      TextsAscend(keys[i], keys[j]);
    }
  }

  lemma {:induction false} PageAscends(bi: Index, after: Option<BlobKey>, count: nat)
    requires bi.Valid() && count >= 1
    ensures RefsAscend(Refs(Page(bi.order, after, count)))
  {
    hide Index.Valid, Less, Page, Increasing, RefsAscend;
    OrderIncreasing(bi);
    PageSlice(bi.order, after, count);
    KeysAscend(bi, Page(bi.order, after, count));
  }

  lemma {:induction false} OrderIncreasing(bi: Index)
    requires bi.Valid()
    ensures Increasing(bi.order)
  {
    hide CollisionFree, Holds, Increasing;
  }

  /** A page of 26 keys: 25 are listed, the last one says where to continue. */
  method HandleEnumerate(bi: Index, after: Option<string>) returns (refs: seq<string>, continueAfter: Option<string>)
    requires Ordered(bi.order, bi.blobs) && (after.Some? ==> |after.value| < NPOS32)
    ensures var page := Page(bi.order, ParseAfter(after), 26);
            && refs == Refs(if |page| == 26 then page[..25] else page)
            && continueAfter == if |page| == 26 then Some(Blobref(page[25])) else None
    ensures bi.Valid() ==> RefsAscend(if continueAfter.Some? then refs + [continueAfter.value] else refs)
  {
    hide Increasing, Blobref, CreateBlobKey, Page, Index.Valid, RefsAscend;
    var blobs := bi.Paginate(after, 26);
    refs := [];
    var count := 0;
    for i := 0 to |blobs|
      invariant count == i && |refs| == if i < 25 then i else 25
      invariant forall x | 0 <= x < |refs| :: refs[x] == Blobref(blobs[x].0)
    {
      if count < 25 {
        refs := refs + [Blobref(blobs[i].0)];
      }
      count := count + 1;
    }
    continueAfter := if |blobs| > 25 then Some(Blobref(blobs[|blobs| - 1].0)) else None;
    PageSize(bi.order, ParseAfter(after), 26);
    if bi.Valid() {
      ghost var page := Page(bi.order, ParseAfter(after), 26);
      PageAscends(bi, ParseAfter(after), 26);
      assert Refs(page) == if continueAfter.Some? then refs + [continueAfter.value] else refs;
    }
  }

  /** The index has the key a reference stands for. */
  ghost predicate Has(bi: Index, ref: string)
    reads bi
  {
    |ref| < NPOS32 && CreateBlobKey(ref).Some? && CreateBlobKey(ref).value in bi.blobs
  }

  /** Which of the references asked about are in the index. */
  method HandleStat(bi: Index, refs: seq<string>) returns (stat: seq<string>)
    requires forall i | 0 <= i < |refs| :: |refs[i]| < NPOS32
    ensures forall r :: r in stat <==> r in refs && Has(bi, r)
  {
    hide CreateBlobKey;
    stat := [];
    for i := 0 to |refs|
      invariant forall r :: r in stat <==> r in refs[..i] && Has(bi, r)
    {
      var found := bi.Get(refs[i]);
      assert refs[..i + 1] == refs[..i] + [refs[i]];
      if found.Some? {
        stat := stat + [refs[i]];
      }
    }
    assert refs[..|refs|] == refs;
  }

  /** The file of the blob with the given reference. */
  method HandleGet(bi: Index, ref: string) returns (content: Option<string>)
    requires |ref| < NPOS32
    ensures var k := CreateBlobKey(ref);
            content == if k.Some? && k.value in bi.blobs && bi.blobs[k.value].path in bi.files
                       then Some(bi.files[bi.blobs[k.value].path]) else None
  {
    hide CreateBlobKey;
    var blob := bi.Get(ref);
    if blob.Some? && blob.value.path in bi.files {
      content := Some(bi.files[blob.value.path]);
    } else {
      content := None;
    }
  }

  /** The payloads that are kept: those that are not empty. */
  function Kept(payloads: seq<string>): set<string> {
    set p | p in payloads && p != []
  }

  ghost predicate Storable(h: Hasher, payloads: seq<string>) {
    forall p | p in payloads && p != [] :: Plain(h, p)
  }

  /** An upload: every payload that is not empty is added. */
  method HandlePut(bi: Index, payloads: seq<string>)
    requires Ordered(bi.order, bi.blobs)
    modifies bi
    ensures Ordered(bi.order, bi.blobs)
    ensures old(bi.Valid()) && Storable(bi.hasher, payloads) ==>
              bi.Valid() && bi.contents == old(bi.contents) + Kept(payloads)
    ensures Kept(payloads) == {} ==> bi.order == old(bi.order) && bi.blobs == old(bi.blobs) && bi.files == old(bi.files)
  {
    hide CollisionFree, Ordered, Holds, Plain;
    ghost var ok := bi.Valid() && Storable(bi.hasher, payloads);
    for i := 0 to |payloads|
      invariant Ordered(bi.order, bi.blobs)
      invariant ok ==> bi.Valid() && bi.contents == old(bi.contents) + Kept(payloads[..i])
      invariant Kept(payloads) == {} ==>
                  bi.order == old(bi.order) && bi.blobs == old(bi.blobs) && bi.files == old(bi.files)
    {
      assert payloads[..i + 1] == payloads[..i] + [payloads[i]];
      if |payloads[i]| > 0 {
        assert payloads[i] in Kept(payloads);
        var _ := bi.AddBlob(None, payloads[i]);
      }
    }
    assert payloads[..|payloads|] == payloads;
  }

  lemma {:induction false} ValidHasher(bi: Index)
    requires bi.Valid()
    ensures CollisionFree(bi.hasher)
  {
    hide CollisionFree, Ordered, Holds;
  }
}
