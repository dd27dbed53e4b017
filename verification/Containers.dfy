/**
 The zlib and gzip wrappers around a DEFLATE stream (RFC 1950 and RFC 1952), with
 decoders for both. A decoder accepts what was written and returns the input exactly
 when the input is not empty and its checksum was taken over all of it.
 */
module Containers {
  import opened Optional
  import opened Arith
  import opened Bits
  import opened Symbols
  import opened Lz77Store
  import opened CanonicalCode
  import opened Inflate
  import opened BitWriter
  import opened SqueezeRuns
  import opened Deflate
  import opened Checksums

  // ----- Decoders ----------------------------------------------------------------------------

  /** The data of a DEFLATE stream and what follows it from the next byte boundary on. */
  function Body(bytes: seq<Byte>): Option<(seq<Byte>, BitString)> {
    match Blocks(ByteBits(bytes), [])
    case None => None
    case Some((data, rest)) => Some((data, rest[|rest| % 8..]))
  }

  function BigEndian(bytes: seq<Byte>): nat {
    if bytes == [] then 0 else 256 * BigEndian(bytes[..|bytes| - 1]) + bytes[|bytes| - 1]
  }

  function LittleEndian(bytes: seq<Byte>): nat {
    if bytes == [] then 0 else bytes[0] + 256 * LittleEndian(bytes[1..])
  }

  /** Method 8 with a window of at most 32K, no dictionary, and a valid header check. */
  predicate ZlibHeader(bytes: seq<Byte>) {
    && |bytes| >= 2 && bytes[0] % 16 == 8 && bytes[0] / 16 <= 7
    && (256 * bytes[0] as int + bytes[1]) % 31 == 0 && bytes[1] / 32 % 2 == 0
  }

  predicate ZlibTrailer(check: BitString, data: seq<Byte>) {
    match ReadBytes(check, 4)
    case None => false
    case Some((b, tail)) => tail == [] && BigEndian(b) == Adler(data)
  }

  function Unzlib(bytes: seq<Byte>): Option<seq<Byte>> {
    if !ZlibHeader(bytes) then None
    else
      match Body(bytes[2..])
      case None => None
      case Some((data, check)) => if ZlibTrailer(check, data) then Some(data) else None
  }

  /** Magic number, method 8, and no optional fields. */
  predicate GzipHeader(bytes: seq<Byte>) {
    |bytes| >= 10 && bytes[0] == 31 && bytes[1] == 139 && bytes[2] == 8 && bytes[3] == 0
  }

  predicate GzipTrailer(check: BitString, data: seq<Byte>) {
    && |check| == 64 && check[..32] == Crc(Zeros(32), data)
    && match ReadBytes(check[32..], 4)
       case None => false
       case Some((b, _)) => LittleEndian(b) == |data| % MODULUS32
  }

  function Gunzip(bytes: seq<Byte>): Option<seq<Byte>> {
    if !GzipHeader(bytes) then None
    else
      match Body(bytes[10..])
      case None => None
      case Some((data, check)) => if GzipTrailer(check, data) then Some(data) else None
  }

  // ----- The stream inside --------------------------------------------------------------------

  /** Bytes are determined by their bits. */
  lemma {:induction false} ByteBitsPrefix(a: seq<Byte>, b: seq<Byte>)
    requires ByteBits(a) <= ByteBits(b)
    ensures a <= b
  {
    hide ByteBits, ReadBytes;
    ByteBitsSize(a);
    ByteBitsSize(b);
    var n := |a|;
    var r := ByteBits(b)[8 * n..];
    assert ByteBits(b) == ByteBits(a) + r;
    ReadBytesBack(a, r);
    assert b == b[..n] + b[n..];
    ByteBitsConcat(b[..n], b[n..]);
    ReadBytesBack(b[..n], ByteBits(b[n..]));
  }

  lemma {:induction false} ByteBitsDrop(b: seq<Byte>, n: nat)
    requires n <= |b|
    ensures |ByteBits(b)| >= 8 * n && ByteBits(b[n..]) == ByteBits(b)[8 * n..]
  {
    hide ByteBits;
    assert b == b[..n] + b[n..];
    ByteBitsConcat(b[..n], b[n..]);
    ByteBitsSize(b[..n]);
  }

  lemma {:induction false} BlocksConsume(bits: BitString, out: seq<Byte>)
    ensures Blocks(bits, out).Some? ==> |Blocks(bits, out).value.1| + 3 <= |bits|
    decreases |bits|
  {
    hide Block;
    if |bits| >= 3 {
      var r := Block(BitValue(bits[1]) + 2 * BitValue(bits[2]), bits[3..], out);
      if r.Some? && !bits[0] {
        BlocksConsume(r.value.1, r.value.0);
      }
    }
  }

  /** A header, a stream and a trailer: behind the header the decoder finds the data and
      then the trailer; without data it does not find the whole trailer. */
  lemma {:induction false} StreamInside(header: seq<Byte>, out: seq<Byte>, used: nat, trailer: seq<Byte>,
                                        data: seq<Byte>)
    requires used < 8 && (used > 0 ==> out != [] && out[|out| - 1] < Pow2(used))
    requires Extends(ByteBits(header), Written(out, used), [], data, data != [])
    requires data == [] ==> Written(out, used) == ByteBits(header)
    ensures header <= out + trailer
    ensures data != [] ==> Body((out + trailer)[|header|..]) == Some((data, ByteBits(trailer)))
    ensures data == [] ==> Body((out + trailer)[|header|..]).Some? ==>
              |Body((out + trailer)[|header|..]).value.1| < 8 * |trailer|
  {
    hide Blocks, ByteBits, Written, Decodes, Zeros;
    AlignWritten(out, used);
    var start, all, pad := ByteBits(header), Written(out, used), Zeros((8 - used) % 8);
    assert start <= ByteBits(out);
    ByteBitsPrefix(header, out);
    ByteBitsSize(header);
    ByteBitsSize(trailer);
    ByteBitsConcat(out, trailer);
    var n := |header|;
    var whole := out + trailer;
    ByteBitsDrop(whole, n);
    var bits, tail := all[|start|..], ByteBits(trailer);
    assert ByteBits(whole[n..]) == bits + (pad + tail);
    PaddedSize(|all|, used);
    if data != [] {
      BodyFound(|start|, bits, pad, tail, data, whole[n..]);
    } else {
      NoBodyFound(used, |all|, pad, tail, whole[n..]);
    }
  }

  lemma {:induction false} BodyFound(pos: nat, bits: BitString, pad: BitString, tail: BitString, data: seq<Byte>,
                                     bytes: seq<Byte>)
    requires Decodes(pos, bits, [], data, true) && |pad| < 8 && |tail| % 8 == 0 && (pos + |bits| + |pad|) % 8 == 0
    requires ByteBits(bytes) == bits + (pad + tail)
    ensures Body(bytes) == Some((data, tail))
  {
    hide Decodes, Blocks, ByteBits;
    assert (pos + |bits| + |pad + tail|) % 8 == 0;
    DecodesWith(pos, bits, pad + tail, data);
    TrimPad(pad, tail);
  }

  lemma {:induction false} NoBodyFound(used: nat, n: nat, pad: BitString, tail: BitString, bytes: seq<Byte>)
    requires n % 8 == 0 && used < 8 && n % 8 == used && |pad| == (8 - used) % 8
    requires ByteBits(bytes) == [] + (pad + tail)
    ensures Body(bytes).Some? ==> |Body(bytes).value.1| < |tail|
  {
    hide Blocks, ByteBits;
    BlocksConsume(ByteBits(bytes), []);
  }

  lemma {:induction false} TrimPad(pad: BitString, tail: BitString)
    requires |pad| < 8 && |tail| % 8 == 0
    ensures (pad + tail)[|pad + tail| % 8..] == tail
  {
    assert |pad + tail| % 8 == |pad|;
  }

  // ----- zlib -----------------------------------------------------------------------------------

  /** What remains of an input whose size is cut to 32 bits. */
  function Truncated(data: seq<Byte>): seq<Byte> {
    data[..|data| % MODULUS32]
  }

  lemma {:induction false} NothingTruncated(data: seq<Byte>)
    requires |data| < MODULUS32
    ensures Truncated(data) == data
  {
  }

  /** 2^32 zero bytes: the truncated size is 0, and the checksum of nothing is another one. */
  lemma {:induction false} ChecksumMisses()
    ensures var data := ZeroBytes(MODULUS32);
            Truncated(data) == [] && Adler(Truncated(data)) == 1 && Adler(data) == 225 * 65536 + 1
  {
    var data := ZeroBytes(MODULUS32);
    AdlerOfZeros(MODULUS32);
    AdlerOfZeros(0);
    assert ZeroBytes(0) == [] == Truncated(data);
  }

  function ByteOf(v: nat, shift: nat): Byte
    requires shift > 0
  {
    v / shift % 256
  }

  lemma {:induction false} BigEndianSnoc(bytes: seq<Byte>, b: Byte)
    ensures BigEndian(bytes + [b]) == 256 * BigEndian(bytes) + b
  {
    assert (bytes + [b])[..|bytes|] == bytes;
  }

  /** The four bytes of a 32-bit number, most significant first. */
  function BigBytes(v: nat): (r: seq<Byte>)
    ensures |r| == 4
  {
    [ByteOf(v, 16777216), ByteOf(v, 65536), ByteOf(v, 256), ByteOf(v, 1)]
  }

  /** The four bytes of a 32-bit number, least significant first. */
  function LittleBytes(v: nat): (r: seq<Byte>)
    ensures |r| == 4
  {
    [ByteOf(v, 1), ByteOf(v, 256), ByteOf(v, 65536), ByteOf(v, 16777216)]
  }

  lemma {:induction false} BigEndianFour(v: nat)
    requires v < MODULUS32
    ensures BigEndian(BigBytes(v)) == v
  {
    hide ByteOf;
    FourBytes(v);
    var a, b, c, d := ByteOf(v, 16777216), ByteOf(v, 65536), ByteOf(v, 256), ByteOf(v, 1);
    BigEndianSnoc([], a);
    BigEndianSnoc([a], b);
    BigEndianSnoc([a, b], c);
    BigEndianSnoc([a, b, c], d);
    assert [] + [a] == [a] && [a] + [b] == [a, b] && [a, b] + [c] == [a, b, c] && [a, b, c] + [d] == [a, b, c, d];
  }

  lemma {:induction false} FourBytes(v: nat)
    requires v < MODULUS32
    ensures v == ByteOf(v, 1) as int + 256 * ByteOf(v, 256) as int + 65536 * ByteOf(v, 65536) as int
            + 16777216 * ByteOf(v, 16777216) as int
  {
    var x := v / 256;
    var y := x / 256;
    var z := y / 256;
    assert y == v / 65536 && z == v / 16777216 && z < 256;
  }

  lemma {:induction false} LittleEndianCons(b: Byte, bytes: seq<Byte>)
    ensures LittleEndian([b] + bytes) == b + 256 * LittleEndian(bytes)
  {
    assert ([b] + bytes)[1..] == bytes;
  }

  /** Multiples of 2^32 do not reach the four low bytes. */
  lemma {:induction false} LowBytes(w: nat, q: nat)
    ensures var v := w + MODULUS32 * q;
            && ByteOf(v, 1) == ByteOf(w, 1) && ByteOf(v, 256) == ByteOf(w, 256)
            && ByteOf(v, 65536) == ByteOf(w, 65536) && ByteOf(v, 16777216) == ByteOf(w, 16777216)
  {
    LowByte(w, 16777216 * q);
    var x := w / 256;
    Quotient(w, 16777216 * q);
    LowByte(x, 65536 * q);
    var y := x / 256;
    Quotient(x, 65536 * q);
    LowByte(y, 256 * q);
    Quotient(y, 256 * q);
    LowByte(y / 256, q);
    Quotients(w);
    Quotients(w + MODULUS32 * q);
  }

  lemma {:induction false} LowByte(a: nat, b: nat)
    ensures (a + 256 * b) % 256 == a % 256
  {
  }

  lemma {:induction false} Quotient(a: nat, b: nat)
    ensures (a + 256 * b) / 256 == a / 256 + b
  {
  }

  lemma {:induction false} Quotients(v: nat)
    ensures v / 65536 == v / 256 / 256 && v / 16777216 == v / 256 / 256 / 256
  {
  }

  lemma {:induction false} LittleEndianFour(v: nat)
    ensures LittleEndian(LittleBytes(v)) == v % MODULUS32
  {
    hide ByteOf;
    var w := v % MODULUS32;
    LowBytes(w, v / MODULUS32);
    FourBytes(w);
    var a, b, c, d := ByteOf(w, 1), ByteOf(w, 256), ByteOf(w, 65536), ByteOf(w, 16777216);
    LittleEndianCons(d, []);
    LittleEndianCons(c, [d]);
    LittleEndianCons(b, [c, d]);
    LittleEndianCons(a, [b, c, d]);
    assert [d] + [] == [d] && [c] + [d] == [c, d] && [b] + [c, d] == [b, c, d] && [a] + [b, c, d] == [a, b, c, d];
  }

  lemma {:induction false} ZlibTrailerIs(v: nat, data: seq<Byte>)
    requires v < MODULUS32
    ensures ZlibTrailer(ByteBits(BigBytes(v)), data) <==> v == Adler(data)
  {
    hide ByteBits, ReadBytes, Adler, BigBytes, BigEndian;
    BigEndianFour(v);
    ReadBytesBack(BigBytes(v), []);
    assert ByteBits(BigBytes(v)) + [] == ByteBits(BigBytes(v));
  }

  lemma {:induction false} ShortTrailer(check: BitString, data: seq<Byte>)
    requires |check| < 32
    ensures !ZlibTrailer(check, data)
  {
    hide Adler;
  }

  /** zlib: the checksum covers only what a 32-bit size can reach. */
  method ZlibCompress(o: Options, e: Estimator, data: seq<Byte>) returns (out: seq<Byte>)
    requires Sensible(e) && |data| <= MAX_SIZE && o.numiterations >= 1
    ensures Unzlib(out) == if data != [] && Adler(Truncated(data)) == Adler(data) then Some(data) else None
    ensures data != [] && |data| < MODULUS32 ==> Unzlib(out) == Some(data)
    ensures [120, 1] <= out
  {
    hide Extends, Blocks, ByteBits, Written, Adler, Body, BigBytes, ZlibTrailer, Sensible;
    var checksum := Adler32(Truncated(data));
    var cmf: nat := 120;
    var cmfflg: nat := 256 * cmf;
    var fcheck := 31 - cmfflg % 31;
    cmfflg := cmfflg + fcheck;
    var header: seq<Byte> := [cmfflg / 256, cmfflg % 256];
    var w := new Writer(header);
    DeflateAll(w, o, e, 2, true, data);
    out := w.out + BigBytes(checksum);
    StreamInside(header, w.out, w.bp % 8, BigBytes(checksum), data);
    ZlibTrailerIs(checksum, data);
    assert out[..2] == header;
    assert ZlibHeader(out);
    if data == [] {
      var body := Body(out[2..]);
      if body.Some? {
        ShortTrailer(body.value.1, body.value.0);
      }
    }
    if |data| < MODULUS32 {
      NothingTruncated(data);
    }
  }

  // ----- gzip -------------------------------------------------------------------------------------

  /** The four bytes of a register. */
  function WordBytes(c: Word): (r: seq<Byte>)
    ensures |r| == 4
  {
    [RegisterByte(c, 0), RegisterByte(c, 8), RegisterByte(c, 16), RegisterByte(c, 24)]
  }

  /** The byte from bit `from` on: the register shifted right, modulo 256. */
  function RegisterByte(c: Word, from: nat): Byte
    requires from <= 24
  {
    FromLowFirstRange(c[from..from + 8]);
    SmallPowers();
    FromLowFirst(c[from..from + 8])
  }

  lemma {:induction false} WordBytesBits(c: Word)
    ensures ByteBits(WordBytes(c)) == c
  {
    hide LowFirst, ByteBits;
    FromLowFirstRoundTrip(c[0..8]);
    FromLowFirstRoundTrip(c[8..16]);
    FromLowFirstRoundTrip(c[16..24]);
    FromLowFirstRoundTrip(c[24..32]);
    var p, q, r, s := RegisterByte(c, 0), RegisterByte(c, 8), RegisterByte(c, 16), RegisterByte(c, 24);
    NoBytes();
    ByteBitsSnoc([], p);
    ByteBitsSnoc([p], q);
    ByteBitsSnoc([p, q], r);
    ByteBitsSnoc([p, q, r], s);
    assert [] + [p] == [p] && [p] + [q] == [p, q] && [p, q] + [r] == [p, q, r] && [p, q, r] + [s] == [p, q, r, s];
    assert c == c[0..8] + c[8..16] + c[16..24] + c[24..32];
  }

  lemma {:induction false} GzipTrailerIs(c: Word, n: nat, data: seq<Byte>)
    requires n == |data|
    ensures GzipTrailer(ByteBits(WordBytes(c) + LittleBytes(n)), data) <==> c == Crc(Zeros(32), data)
  {
    hide ByteBits, ReadBytes, Crc, LittleBytes, WordBytes, LittleEndian;
    WordBytesBits(c);
    ByteBitsConcat(WordBytes(c), LittleBytes(n));
    ByteBitsSize(LittleBytes(n));
    var check := ByteBits(WordBytes(c) + LittleBytes(n));
    assert check[..32] == c && check[32..] == ByteBits(LittleBytes(n));
    ReadBytesBack(LittleBytes(n), []);
    assert ByteBits(LittleBytes(n)) + [] == ByteBits(LittleBytes(n));
    LittleEndianFour(n);
  }

  /** gzip. The CRC takes the size as an int, so it must not come out negative. */
  method GzipCompress(table: CrcTable, o: Options, e: Estimator, data: seq<Byte>) returns (out: seq<Byte>)
    requires table.Valid() && Sensible(e) && |data| <= MAX_SIZE && o.numiterations >= 1
    requires |data| % MODULUS32 < 0x8000_0000
    modifies table, table.entries
    ensures table.Valid()
    ensures Gunzip(out) ==
            if data != [] && Crc(Zeros(32), Truncated(data)) == Crc(Zeros(32), data) then Some(data) else None
    ensures data != [] && |data| < MODULUS32 ==> Gunzip(out) == Some(data)
    ensures [31, 139, 8, 0, 0, 0, 0, 0, 2, 3] <= out
  {
    hide Extends, Blocks, ByteBits, Written, Crc, Body, WordBytes, LittleBytes, GzipTrailer, Sensible, TableEntry;
    var crcvalue := table.UpdateCRC(Zeros(32), Truncated(data));
    var header: seq<Byte> := [31, 139, 8, 0, 0, 0, 0, 0, 2, 3];
    var w := new Writer(header);
    DeflateAll(w, o, e, 2, true, data);
    var trailer := WordBytes(crcvalue) + LittleBytes(|data|);
    out := w.out + trailer;
    StreamInside(header, w.out, w.bp % 8, trailer, data);
    GzipTrailerIs(crcvalue, |data|, data);
    HeaderKept(header, out);
    if data == [] {
      var body := Body(out[10..]);
      if body.Some? {
        ShortGzipTrailer(body.value.1, body.value.0);
      }
    }
    if |data| < MODULUS32 {
      NothingTruncated(data);
    }
  }

  lemma {:induction false} HeaderKept(header: seq<Byte>, out: seq<Byte>)
    requires header <= out && header == [31, 139, 8, 0, 0, 0, 0, 0, 2, 3]
    ensures GzipHeader(out) && |header| == 10
  {
    assert out[..10] == header;
  }

  lemma {:induction false} ShortGzipTrailer(check: BitString, data: seq<Byte>)
    requires |check| < 64
    ensures !GzipTrailer(check, data)
  {
    hide Crc;
  }

  // ----- The library's entry point ---------------------------------------------------------------

  datatype Format = GZIP | ZLIB | DEFLATE

  function Decompress(format: Format, bytes: seq<Byte>): Option<seq<Byte>> {
    match format
    case GZIP => Gunzip(bytes)
    case ZLIB => Unzlib(bytes)
    case DEFLATE =>
      match Blocks(ByteBits(bytes), [])
      case None => None
      case Some((data, rest)) => if |rest| < 8 then Some(data) else None
  }

  /** The checksum of the format, taken over the truncated size, is that of the data. */
  ghost predicate ChecksumCovers(format: Format, data: seq<Byte>) {
    match format
    case GZIP => Crc(Zeros(32), Truncated(data)) == Crc(Zeros(32), data)
    case ZLIB => Adler(Truncated(data)) == Adler(data)
    case DEFLATE => true
  }

  /** In each format, what was compressed is decompressed again, exactly when it was not
      empty and its checksum covers it. Only gzip restricts the size. */
  method CompressAs(table: CrcTable, format: Format, o: Options, e: Estimator, data: seq<Byte>) returns (out: seq<Byte>)
    requires table.Valid() && Sensible(e) && |data| <= MAX_SIZE && o.numiterations >= 1
    requires format == GZIP ==> |data| % MODULUS32 < 0x8000_0000
    modifies table, table.entries
    ensures table.Valid()
    ensures Decompress(format, out) == if data != [] && ChecksumCovers(format, data) then Some(data) else None
    ensures |data| < MODULUS32 ==> ChecksumCovers(format, data)
  {
    hide Blocks, ByteBits, Crc, Adler, Sensible, TableEntry, Unzlib, Gunzip, Truncated;
    if |data| < MODULUS32 {
      NothingTruncated(data);
    }
    match format
    case GZIP => out := GzipCompress(table, o, e, data);
    case ZLIB => out := ZlibCompress(o, e, data);
    case DEFLATE => out := Compress(o, e, 2, data);
  }
}
