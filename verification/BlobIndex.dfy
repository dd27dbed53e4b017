/**
 The index of a blob server: an ordered map from keys to blobs, and the files that hold
 their contents. Every content is found under two keys, its SHA-1 and its SHA-256.
 */
module BlobIndex {
  import opened Optional
  import opened BlobKeys
  import opened Paging

  // ----- Hashes ---------------------------------------------------------------------------

  /** The two hash functions, as text, and the contents they have to tell apart: those
      that ever come up. */
  datatype Hasher = Hasher(sha1: string -> string, sha256: string -> string, ghost known: set<string>)

  /** Among the known contents neither hash has a collision that the code could see; the
      texts are short. */
  ghost predicate CollisionFree(h: Hasher) {
    && (forall a, b | a in h.known && b in h.known ::
          h.sha1(CString(a)) == h.sha1(CString(b)) ==> CString(a) == CString(b))
    && (forall a, b | a in h.known && b in h.known ::
          h.sha256(CString(a)) == h.sha256(CString(b)) ==> CString(a) == CString(b))
    && (forall a | a in h.known :: |h.sha1(CString(a))| <= 64 && |h.sha256(CString(a))| <= 64)
  }

  /** What a NUL-terminated reading sees of some bytes. */
  function CString(bytes: string): string {
    if bytes == [] || bytes[0] == '\0' then [] else [bytes[0]] + CString(bytes[1..])
  }

  predicate NulFree(bytes: string) {
    '\0' !in bytes
  }

  lemma {:induction false} CStringAll(bytes: string)
    ensures NulFree(bytes) <==> CString(bytes) == bytes
  {
    if bytes != [] {
      CStringAll(bytes[1..]);
      assert bytes == [bytes[0]] + bytes[1..];
      if bytes[0] != '\0' {
        assert CString(bytes)[1..] == CString(bytes[1..]);
      }
    }
  }

  /** The length given is ignored: bytes after a NUL do not count. */
  function Sha1Key(h: Hasher, bytes: string): BlobKey {
    BlobKey("sha1", h.sha1(CString(bytes)))
  }

  function Sha256Key(h: Hasher, bytes: string): BlobKey {
    BlobKey("sha256", h.sha256(CString(bytes)))
  }

  ghost predicate IsKeyOf(h: Hasher, k: BlobKey, bytes: string) {
    k == Sha1Key(h, bytes) || k == Sha256Key(h, bytes)
  }

  /** Different contents share keys exactly when they agree up to their first NUL. */
  lemma {:induction false} SharedKeys(h: Hasher, a: string, b: string)
    requires CollisionFree(h) && a in h.known && b in h.known
    ensures (exists k :: IsKeyOf(h, k, a) && IsKeyOf(h, k, b)) <==> CString(a) == CString(b)
    ensures NulFree(a) && NulFree(b) ==> ((exists k :: IsKeyOf(h, k, a) && IsKeyOf(h, k, b)) <==> a == b)
    ensures Sha1Key(h, "x\0y") == Sha1Key(h, "x\0z") && Sha256Key(h, "x\0y") == Sha256Key(h, "x\0z")
  {
    CStringAll(a);
    CStringAll(b);
    if CString(a) == CString(b) {
      assert IsKeyOf(h, Sha1Key(h, a), a) && IsKeyOf(h, Sha1Key(h, a), b);
    }
    assert "x\0y"[1..] == "\0y" && "x\0z"[1..] == "\0z";
    assert CString("x\0y") == "x" == CString("x\0z");
  }

  /** Hash functions that keep the first 64 characters have no collision among short
      contents, so there are hashers for any of those. */
  lemma {:induction false} SomeHasher(known: set<string>)
    requires forall a | a in known :: |a| <= 64
    ensures CollisionFree(Hasher(Clip, Clip, known))
  {
    forall a | a in known
      ensures Clip(CString(a)) == CString(a)
    {
      CStringShorter(a);
    }
  }

  function Clip(s: string): string {
    if |s| <= 64 then s else s[..64]
  }

  lemma {:induction false} CStringShorter(bytes: string)
    ensures |CString(bytes)| <= |bytes|
  {
    if bytes != [] {
      CStringShorter(bytes[1..]);
    }
  }

  /** Keys of contents survive printing and parsing. */
  lemma {:induction false} KeyText(h: Hasher, k: BlobKey, bytes: string)
    requires CollisionFree(h) && IsKeyOf(h, k, bytes) && bytes in h.known
    ensures |Blobref(k)| < NPOS32 && CreateBlobKey(Blobref(k)) == Some(k)
  {
    hide CString, CreateBlobKey;
    BlobrefRoundTrip(k);
  }

  // ----- The ordered map --------------------------------------------------------------------

  /** A blob: the file that holds it and its size. */
  datatype Blob = Blob(path: string, size: nat)

  function InsertKey(order: seq<BlobKey>, k: BlobKey): seq<BlobKey> {
    if k in order then order else order[..LowerBound(order, k)] + [k] + order[LowerBound(order, k)..]
  }

  lemma {:induction false} InsertKeeps(order: seq<BlobKey>, k: BlobKey)
    requires Increasing(order)
    ensures Increasing(InsertKey(order, k))
    ensures forall x :: x in InsertKey(order, k) <==> x in order || x == k
  {
    hide Less, LowerBound;
    var n, r := LowerBound(order, k), InsertKey(order, k);
    if k !in order {
      forall i, j | 0 <= i < j < |r|
        ensures Less(r[i], r[j])
      {
        if i == n {
          LowerBoundIs(order, k, j - 1);
          LessTotal(k, order[j - 1]);
        } else if j == n {
          LowerBoundIs(order, k, i);
        }
      }
      forall x
        ensures x in r <==> x in order || x == k
      {
        assert order == order[..n] + order[n..];
      }
    }
  }

  ghost predicate Ordered(order: seq<BlobKey>, blobs: map<BlobKey, Blob>) {
    Increasing(order) && forall k :: k in order <==> k in blobs
  }

  /** A content that can be kept: a known one, not empty and without NUL. */
  ghost predicate Plain(h: Hasher, bytes: string) {
    bytes in h.known && bytes != [] && NulFree(bytes)
  }

  /** The blob recorded for a content. */
  function BlobOf(h: Hasher, bytes: string): Blob {
    Blob(h.sha256(CString(bytes)), |bytes|)
  }

  ghost predicate Held(h: Hasher, blobs: map<BlobKey, Blob>, files: map<string, string>, c: string) {
    && Plain(h, c) && Sha1Key(h, c) in blobs && Sha256Key(h, c) in blobs
    && blobs[Sha1Key(h, c)] == blobs[Sha256Key(h, c)] == BlobOf(h, c)
    && BlobOf(h, c).path in files && files[BlobOf(h, c).path] == c
  }

  ghost predicate Owned(h: Hasher, contents: set<string>, k: BlobKey) {
    exists c :: c in contents && IsKeyOf(h, k, c)
  }

  /** The index holds exactly these contents. */
  ghost predicate Holds(h: Hasher, blobs: map<BlobKey, Blob>, files: map<string, string>, contents: set<string>) {
    && (forall c | c in contents :: Held(h, blobs, files, c))
    && (forall k | k in blobs :: Owned(h, contents, k))
    && (forall p | p in files :: Plain(h, files[p]) && BlobOf(h, files[p]).path == p)
  }

  function BlobsWith(h: Hasher, blobs: map<BlobKey, Blob>, c: string): map<BlobKey, Blob> {
    blobs[Sha1Key(h, c) := BlobOf(h, c)][Sha256Key(h, c) := BlobOf(h, c)]
  }

  /** A file is written only if there is none yet. */
  function FilesWith(h: Hasher, files: map<string, string>, c: string): map<string, string> {
    if BlobOf(h, c).path in files then files else files[BlobOf(h, c).path := c]
  }

  lemma {:induction false} HeldStays(h: Hasher, blobs: map<BlobKey, Blob>, files: map<string, string>, c: string,
                                     x: string)
    requires CollisionFree(h) && Held(h, blobs, files, x) && Plain(h, c) && x != c
    ensures Held(h, BlobsWith(h, blobs, c), FilesWith(h, files, c), x)
  {
    Distinct(h, x, c);
    hide Sha1Key, Sha256Key, BlobOf, CollisionFree, NulFree;
  }

  lemma {:induction false} HeldNew(h: Hasher, blobs: map<BlobKey, Blob>, files: map<string, string>,
                                   contents: set<string>, c: string)
    requires CollisionFree(h) && Holds(h, blobs, files, contents) && Plain(h, c)
    ensures Held(h, BlobsWith(h, blobs, c), FilesWith(h, files, c), c)
  {
    hide CString, CollisionFree, NulFree, Held;
    if BlobOf(h, c).path in files {
      SamePath(h, files[BlobOf(h, c).path], c);
    }
    HeldShape(h, blobs, files, c);
  }

  lemma {:induction false} HeldShape(h: Hasher, blobs: map<BlobKey, Blob>, files: map<string, string>, c: string)
    requires Plain(h, c) && (BlobOf(h, c).path in files ==> files[BlobOf(h, c).path] == c)
    ensures Held(h, BlobsWith(h, blobs, c), FilesWith(h, files, c), c)
  {
    hide CString, NulFree;
  }

  lemma {:induction false} OwnedMore(h: Hasher, blobs: map<BlobKey, Blob>, contents: set<string>, c: string, k: BlobKey)
    requires (k in blobs ==> Owned(h, contents, k)) && k in BlobsWith(h, blobs, c)
    ensures Owned(h, contents + {c}, k)
  {
    hide BlobOf;
    if k in blobs {
      var x :| x in contents && IsKeyOf(h, k, x);
      assert x in contents + {c};
    } else {
      assert IsKeyOf(h, k, c) && c in contents + {c};
    }
  }

  /** Adding a content, seen on the maps. */
  lemma {:induction false} HoldsMore(h: Hasher, blobs: map<BlobKey, Blob>, files: map<string, string>,
                                     contents: set<string>, c: string)
    requires CollisionFree(h) && Holds(h, blobs, files, contents) && Plain(h, c)
    ensures Holds(h, BlobsWith(h, blobs, c), FilesWith(h, files, c), contents + {c})
  {
    hide BlobsWith, CollisionFree, NulFree, Held, Owned, BlobOf;
    HeldNew(h, blobs, files, contents, c);
    forall x | x in contents + {c}
      ensures Held(h, BlobsWith(h, blobs, c), FilesWith(h, files, c), x)
    {
      if x != c {
        HeldStays(h, blobs, files, c, x);
      }
    }
    forall k | k in BlobsWith(h, blobs, c)
      ensures Owned(h, contents + {c}, k)
    {
      OwnedMore(h, blobs, contents, c, k);
    }
  }

  lemma {:induction false} SamePath(h: Hasher, a: string, b: string)
    requires CollisionFree(h) && Plain(h, a) && Plain(h, b) && BlobOf(h, a).path == BlobOf(h, b).path
    ensures a == b
  {
    CStringAll(a);
    CStringAll(b);
  }

  lemma {:induction false} Distinct(h: Hasher, a: string, b: string)
    requires CollisionFree(h) && Plain(h, a) && Plain(h, b) && a != b
    ensures Sha1Key(h, a) != Sha1Key(h, b) && Sha256Key(h, a) != Sha256Key(h, b)
    ensures Sha1Key(h, a) != Sha256Key(h, b) && Sha256Key(h, a) != Sha1Key(h, b)
  {
    CStringAll(a);
    CStringAll(b);
  }

  /** A key in the index belongs to one of its contents, */
  lemma {:induction false} OwnerOf(h: Hasher, blobs: map<BlobKey, Blob>, files: map<string, string>,
                                   contents: set<string>, k: BlobKey) returns (c: string)
    requires Holds(h, blobs, files, contents) && k in blobs
    ensures c in contents && IsKeyOf(h, k, c) && blobs[k] == BlobOf(h, c) && Held(h, blobs, files, c)
  {
    hide Held, Owned, BlobOf, IsKeyOf, Plain;
    c := PickOwner(h, contents, k);
    HeldKey(h, blobs, files, c, k);
  }

  lemma {:induction false} PickOwner(h: Hasher, contents: set<string>, k: BlobKey) returns (c: string)
    requires Owned(h, contents, k)
    ensures c in contents && IsKeyOf(h, k, c)
  {
    hide IsKeyOf;
    c :| c in contents && IsKeyOf(h, k, c);
  }

  lemma {:induction false} HeldKey(h: Hasher, blobs: map<BlobKey, Blob>, files: map<string, string>, c: string,
                                   k: BlobKey)
    requires Held(h, blobs, files, c) && IsKeyOf(h, k, c)
    ensures k in blobs && blobs[k] == BlobOf(h, c)
  {
    hide CString, NulFree;
  }

  /** and to no other content at all. */
  lemma {:induction false} SoleOwner(h: Hasher, k: BlobKey, a: string, b: string)
    requires CollisionFree(h) && Plain(h, a) && Plain(h, b) && IsKeyOf(h, k, a) && IsKeyOf(h, k, b)
    ensures a == b
  {
    hide CString, CollisionFree, NulFree;
    if a != b {
      Distinct(h, a, b);
    }
  }

  class Index {
    const hasher: Hasher
    var order: seq<BlobKey>
    var blobs: map<BlobKey, Blob>
    var files: map<string, string>
    ghost var contents: set<string>

    ghost predicate Valid()
      reads this
    {
      CollisionFree(hasher) && Ordered(order, blobs) && Holds(hasher, blobs, files, contents)
    }

    constructor (hasher: Hasher)
      requires CollisionFree(hasher)
      ensures Valid() && this.hasher == hasher && contents == {}
    {
      this.hasher := hasher;
      order, blobs, files, contents := [], map[], map[], {};
    }

    /** Adds a content under both its keys, unless a reference was given that names
        neither. The file is written only if there is none yet. */
    method AddBlob(provided: Option<string>, bytes: string) returns (r: Option<Blob>)
      requires Ordered(order, blobs) && bytes != []
      modifies this
      ensures Ordered(order, blobs)
      ensures var k1, k2, b := Sha1Key(hasher, bytes), Sha256Key(hasher, bytes), BlobOf(hasher, bytes);
              if provided.None? || provided.value == Blobref(k1) || provided.value == Blobref(k2)
              then r == Some(b) && blobs == BlobsWith(hasher, old(blobs), bytes)
                   && files == FilesWith(hasher, old(files), bytes)
              else r == None && order == old(order) && blobs == old(blobs) && files == old(files)
      ensures old(Valid()) && Plain(hasher, bytes) ==> Valid()
      ensures contents == if r.Some? && Plain(hasher, bytes) then old(contents) + {bytes} else old(contents)
    {
      hide CString, Less, CollisionFree, Increasing, Blobref, Holds, InsertKey, Plain;
      var b := BlobOf(hasher, bytes);
      var k1, k2 := Sha1Key(hasher, bytes), Sha256Key(hasher, bytes);
      if provided.Some? && provided.value != Blobref(k1) && provided.value != Blobref(k2) {
        return None;
      }
      if Holds(hasher, blobs, files, contents) && CollisionFree(hasher) && Plain(hasher, bytes) {
        HoldsMore(hasher, blobs, files, contents, bytes);
      }
      InsertKeeps(order, k1);
      InsertKeeps(InsertKey(order, k1), k2);
      order := InsertKey(InsertKey(order, k1), k2);
      blobs := blobs[k1 := b][k2 := b];
      if b.path !in files {
        files := files[b.path := bytes];
      }
      contents := if Plain(hasher, bytes) then contents + {bytes} else contents;
      r := Some(b);
    }

    /** The blob with a given reference. */
    method Get(hash: string) returns (r: Option<Blob>)
      requires |hash| < NPOS32
      ensures var k := CreateBlobKey(hash);
              r == if k.Some? && k.value in blobs then Some(blobs[k.value]) else None
    {
      hide CreateBlobKey;
      var k := CreateBlobKey(hash);
      if k.Some? && k.value in blobs {
        r := Some(blobs[k.value]);
      } else {
        r := None;
      }
    }

    /** A page of at most `count` keys with their blobs. */
    method Paginate(last: Option<string>, count: nat) returns (page: seq<(BlobKey, Blob)>)
      requires Ordered(order, blobs) && count >= 1 && (last.Some? ==> |last.value| < NPOS32)
      ensures var keys := Page(order, if last.Some? then CreateBlobKey(last.value) else None, count);
              && |page| == |keys|
              && forall i | 0 <= i < |page| ::
                   page[i].0 == keys[i] && page[i].0 in blobs && page[i].1 == blobs[page[i].0]
    {
      hide CreateBlobKey, LowerBound, Increasing;
      var after: Option<BlobKey> := if last.Some? then CreateBlobKey(last.value) else None;
      var i := StartOf(order, after);
      ghost var start := i;
      page := [];
      while i < |order|
        invariant start <= i <= |order| && |page| == i - start && (i > start ==> |page| < count)
        invariant forall x | 0 <= x < |page| ::
                    page[x].0 == order[start + x] && page[x].0 in blobs && page[x].1 == blobs[page[x].0]
      {
        page := page + [(order[i], blobs[order[i]])];
        if |page| >= count {
          return;
        }
        i := i + 1;
      }
    }
  }
}
