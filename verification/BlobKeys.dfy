/**
 Keys of blobs: a hash name and a hash value, their order in the index, and their
 textual form name-value.
 */
module BlobKeys {
  import opened Optional

  datatype BlobKey = BlobKey(hashType: string, hashValue: string)

  // ----- Order -------------------------------------------------------------------------

  predicate StrLess(a: string, b: string)
    decreases |a|
  {
    |b| > 0 && (|a| == 0 || a[0] < b[0] || (a[0] == b[0] && StrLess(a[1..], b[1..])))
  }

  predicate Less(a: BlobKey, b: BlobKey) {
    if a.hashType != b.hashType then StrLess(a.hashType, b.hashType) else StrLess(a.hashValue, b.hashValue)
  }

  lemma {:induction false} StrTotal(a: string, b: string)
    ensures StrLess(a, b) || a == b || StrLess(b, a)
    ensures !(StrLess(a, b) && StrLess(b, a)) && !StrLess(a, a)
    decreases |a|
  {
    if |a| > 0 {
      StrTotal(a[1..], a[1..]);
      if |b| > 0 {
        StrTotal(a[1..], b[1..]);
        assert a == [a[0]] + a[1..] && b == [b[0]] + b[1..];
      }
    }
  }

  lemma {:induction false} StrTransitive(a: string, b: string, c: string)
    requires StrLess(a, b) && StrLess(b, c)
    ensures StrLess(a, c)
    decreases |a|
  {
    if |a| > 0 && a[0] == b[0] == c[0] {
      StrTransitive(a[1..], b[1..], c[1..]);
    }
  }

  /** The key order is a strict total order. */
  lemma {:induction false} LessTotal(a: BlobKey, b: BlobKey)
    ensures Less(a, b) || a == b || Less(b, a)
    ensures !(Less(a, b) && Less(b, a)) && !Less(a, a)
  {
    StrTotal(a.hashType, b.hashType);
    StrTotal(a.hashValue, b.hashValue);
    StrTotal(a.hashValue, a.hashValue);
  }

  lemma {:induction false} LessTransitive(a: BlobKey, b: BlobKey, c: BlobKey)
    requires Less(a, b) && Less(b, c)
    ensures Less(a, c)
  {
    StrTotal(a.hashType, b.hashType);
    StrTotal(b.hashType, c.hashType);
    StrTotal(a.hashType, c.hashType);
    if a.hashType == b.hashType == c.hashType {
      StrTransitive(a.hashValue, b.hashValue, c.hashValue);
    } else if a.hashType != b.hashType && b.hashType != c.hashType {
      StrTransitive(a.hashType, b.hashType, c.hashType);
    }
  }

  /** Two texts agree for k characters, and there the first one ends or has the smaller
      character. */
  predicate DifferUpwardsAt(a: string, b: string, k: nat) {
    k <= |a| && k < |b| && a[..k] == b[..k] && (k == |a| || a[k] < b[k])
  }

  /** The first of two texts comes first: at their first difference it ends or is smaller. */
  ghost predicate Upwards(a: string, b: string) {
    exists k: nat :: DifferUpwardsAt(a, b, k)
  }

  /** Texts are ordered by their first difference, characters ascending. */
  lemma {:induction false} StrLessIs(a: string, b: string)
    ensures StrLess(a, b) <==> Upwards(a, b)
    decreases |a|
  {
    if StrLess(a, b) {
      if a == [] || a[0] < b[0] {
        assert DifferUpwardsAt(a, b, 0);
      } else {
        StrLessIs(a[1..], b[1..]);
        var k: nat :| DifferUpwardsAt(a[1..], b[1..], k);
        DifferLater(a, b, k);
      }
    }
    if Upwards(a, b) {
      var k: nat :| DifferUpwardsAt(a, b, k);
      if k > 0 {
        assert a[..k][0] == a[0] && b[..k][0] == b[0];
        assert a[1..][..k - 1] == a[..k][1..] && b[1..][..k - 1] == b[..k][1..];
        assert DifferUpwardsAt(a[1..], b[1..], k - 1);
        StrLessIs(a[1..], b[1..]);
      }
    }
  }

  lemma {:induction false} DifferLater(a: string, b: string, k: nat)
    requires |a| > 0 && |b| > 0 && a[0] == b[0] && DifferUpwardsAt(a[1..], b[1..], k)
    ensures DifferUpwardsAt(a, b, k + 1)
  {
    assert a[..k + 1] == [a[0]] + a[1..][..k] && b[..k + 1] == [b[0]] + b[1..][..k];
  }

  /** Keys are ordered by the names of their hashes, then by the values. */
  lemma {:induction false} LessIs(a: BlobKey, b: BlobKey)
    ensures Less(a, b) <==>
            Upwards(a.hashType, b.hashType) || (a.hashType == b.hashType && Upwards(a.hashValue, b.hashValue))
  {
    hide Upwards;
    StrLessIs(a.hashType, b.hashType);
    StrLessIs(a.hashValue, b.hashValue);
    StrTotal(a.hashType, a.hashType);
  }

  /** So SHA-1 keys come before SHA-256 keys. */
  lemma {:induction false} Sha1First(x: string, y: string)
    ensures Less(BlobKey("sha1", x), BlobKey("sha256", y))
  {
    assert DifferUpwardsAt("sha1", "sha256", 3);
    LessIs(BlobKey("sha1", x), BlobKey("sha256", y));
  }

  // ----- Text ------------------------------------------------------------------------------

  function Blobref(k: BlobKey): string {
    k.hashType + "-" + k.hashValue
  }

  /** The position of the first dash, or the length without one. */
  function FindDash(s: string): (r: nat)
    ensures r <= |s| && (r < |s| ==> s[r] == '-') && '-' !in s[..r]
  {
    if s == [] || s[0] == '-' then 0
    else
      var r := 1 + FindDash(s[1..]);
      assert s[..r] == [s[0]] + s[1..][..r - 1];
      r
  }

  const NPOS32: nat := 0xFFFF_FFFF
  const NPOS64: nat := 0xFFFF_FFFF_FFFF_FFFF

  /** The position is kept in 32 bits, "not found" included, and then compared with the
      64-bit "not found". */
  function CreateBlobKey(hash: string): Option<BlobKey>
    requires |hash| < NPOS32
  {
    var splitPos := if FindDash(hash) < |hash| then FindDash(hash) else NPOS32;
    if splitPos != NPOS64 then
      var count := if splitPos <= |hash| then splitPos else |hash|;
      Some(BlobKey(hash[..count], hash[(splitPos + 1) % (NPOS32 + 1)..]))
    else None
  }

  /** So a text without a dash is not refused: it is taken as both name and value. */
  lemma {:induction false} DashlessKey(hash: string)
    requires |hash| < NPOS32
    ensures CreateBlobKey(hash).Some?
    ensures '-' !in hash <==> CreateBlobKey(hash) == Some(BlobKey(hash, hash))
    ensures '-' in hash ==> Blobref(CreateBlobKey(hash).value) == hash
  {
    hide FindDash;
    var r := FindDash(hash);
    assert hash[..|hash|] == hash;
    if r < |hash| {
      assert hash == hash[..r] + "-" + hash[r + 1..];
      assert |hash[..r]| < |hash|;
      assert hash[r] in hash;
    }
  }

  lemma {:induction false} FindDashAfter(a: string, b: string)
    requires '-' !in a
    ensures FindDash(a + "-" + b) == |a|
  {
    var s := a + "-" + b;
    if a != [] {
      FindDashAfter(a[1..], b);
      assert s[1..] == a[1..] + "-" + b;
    }
  }

  /** Printing a key and parsing it gives the key back exactly when its name has no dash. */
  lemma {:induction false} BlobrefRoundTrip(k: BlobKey)
    requires |Blobref(k)| < NPOS32
    ensures CreateBlobKey(Blobref(k)) == Some(k) <==> '-' !in k.hashType
  {
    var s := Blobref(k);
    if '-' !in k.hashType {
      FindDashAfter(k.hashType, k.hashValue);
      assert s[..|k.hashType|] == k.hashType;
      assert s[|k.hashType| + 1..] == k.hashValue;
    } else {
      assert s[|k.hashType|] == '-';
      assert '-' !in s[..FindDash(s)];
    }
  }

  /** Hash names in use. */
  predicate Named(k: BlobKey) {
    k.hashType == "sha1" || k.hashType == "sha256"
  }

  lemma {:induction false} UpwardsAfter(p: string, a: string, b: string)
    requires Upwards(a, b)
    ensures Upwards(p + a, p + b)
  {
    var k: nat :| DifferUpwardsAt(a, b, k);
    assert (p + a)[..|p| + k] == p + a[..k] && (p + b)[..|p| + k] == p + b[..k];
    assert DifferUpwardsAt(p + a, p + b, |p| + k);
  }

  /** The texts of keys in use are in the order of the keys. */
  lemma {:induction false} TextsAscend(a: BlobKey, b: BlobKey)
    requires Named(a) && Named(b) && Less(a, b)
    ensures Upwards(Blobref(a), Blobref(b))
  {
    hide Less, Upwards;
    LessIs(a, b);
    if a.hashType == b.hashType {
      StrTotal(a.hashType, a.hashType);
      StrLessIs(a.hashType, a.hashType);
      UpwardsAfter(a.hashType + "-", a.hashValue, b.hashValue);
    } else {
      NamesDiffer(a, b);
    }
  }

  lemma {:induction false} NamesDiffer(a: BlobKey, b: BlobKey)
    requires Named(a) && Named(b) && Less(a, b) && a.hashType != b.hashType
    ensures Upwards(Blobref(a), Blobref(b))
  {
    Sha1First(b.hashValue, a.hashValue);
    LessTotal(a, b);
    hide Less, StrLess;
    assert a.hashType == "sha1" && b.hashType == "sha256";
    assert Blobref(a)[..3] == "sha" == Blobref(b)[..3];
    assert DifferUpwardsAt(Blobref(a), Blobref(b), 3);
  }
}
