/**
 The two checksums. Adler-32 (sections 2.2 and 8.2 of RFC 1950) takes remainders only
 every 5550 bytes, which never overflows 32 bits. The CRC (section 8 of RFC 1952) is
 driven by a table and equals the CRC computed bit by bit.
 */
module Checksums {
  import opened Arith
  import opened Bits
  import opened Symbols
  import opened Lz77Store
  import opened BitWriter

  // ----- Adler-32 -------------------------------------------------------------------------

  const BASE: nat := 65521
  const MODULUS32: nat := 0x1_0000_0000

  /** Both sums with a remainder taken after every byte. */
  function AdlerSums(data: seq<Byte>): (nat, nat) {
    if data == [] then (1, 0)
    else
      var s := AdlerSums(data[..|data| - 1]);
      var t1 := (s.0 + data[|data| - 1]) % BASE;
      (t1, (s.1 + t1) % BASE)
  }

  function Adler(data: seq<Byte>): nat {
    AdlerSums(data).1 * 65536 + AdlerSums(data).0
  }

  lemma {:induction false} AdlerNext(data: seq<Byte>, i: nat, s1: nat, s2: nat)
    requires i < |data| && AdlerSums(data[..i]) == (s1 % BASE, s2 % BASE)
    ensures AdlerSums(data[..i + 1]) == ((s1 + data[i]) % BASE, (s2 + (s1 + data[i])) % BASE)
  {
    assert data[..i + 1][..i] == data[..i];
    AddMod(s1, data[i]);
    AddMod(s2, (s1 % BASE + data[i]) % BASE);
    AddMod(s1 + data[i], s2);
  }

  lemma {:induction false} AddMod(a: nat, b: nat)
    ensures (a % BASE + b) % BASE == (a + b) % BASE
  {
  }

  function ZeroBytes(n: nat): (r: seq<Byte>)
    ensures |r| == n && forall i | 0 <= i < n :: r[i] == 0
  {
    seq(n, _ => 0)
  }

  /** Zeros leave the first sum at 1 and only count in the second. */
  lemma {:induction false} AdlerOfZeros(n: nat)
    ensures AdlerSums(ZeroBytes(n)) == (1, n % BASE)
  {
    if n > 0 {
      AdlerOfZeros(n - 1);
      assert ZeroBytes(n)[..n - 1] == ZeroBytes(n - 1);
      AddMod(n - 1, 1);
    }
  }

  /** The largest the second sum can become k bytes after a remainder. */
  function SumBound(k: nat): nat {
    if k == 0 then 65520 else SumBound(k - 1) + 65520 + 255 * k
  }

  lemma {:induction false} SumBoundIs(k: nat)
    ensures 2 * SumBound(k) == 131040 + 131040 * k + 255 * k * (k + 1)
  {
    if k > 0 {
      SumBoundIs(k - 1);
    }
  }

  lemma {:induction false} SumBoundMonotone(k: nat, n: nat)
    requires k <= n
    ensures SumBound(k) <= SumBound(n)
  {
    if k < n {
      SumBoundMonotone(k, n - 1);
    }
  }

  /** 5550 bytes are few enough. */
  lemma {:induction false} NoOverflow(k: nat)
    requires k <= 5550
    ensures SumBound(k) < MODULUS32 && 65520 + 255 * k < MODULUS32
  {
    SumBoundMonotone(k, 5550);
    SumBoundIs(5550);
  }

  lemma {:induction false} BoundStep(k: nat)
    ensures SumBound(0) == 65520 && SumBound(k + 1) == SumBound(k) + 65520 + 255 * (k + 1)
  {
  }

  lemma {:induction false} Fits32(x: nat)
    requires x < MODULUS32
    ensures x % MODULUS32 == x
  {
  }

  /** A run of bytes without remainders, in 32-bit arithmetic. */
  method AdlerRun(data: seq<Byte>, from: nat, amount: nat, a1: nat, a2: nat) returns (s1: nat, s2: nat)
    requires from + amount <= |data| && amount <= 5550 && a1 < BASE && a2 < BASE
    requires AdlerSums(data[..from]) == (a1, a2)
    ensures AdlerSums(data[..from + amount]) == (s1 % BASE, s2 % BASE)
  {
    hide AdlerSums, SumBound;
    s1, s2 := a1, a2;
    BoundStep(0);
    for k := 0 to amount
      invariant AdlerSums(data[..from + k]) == (s1 % BASE, s2 % BASE)
      invariant s1 <= 65520 + 255 * k && s2 <= SumBound(k)
    {
      AdlerNext(data, from + k, s1, s2);
      NoOverflow(k + 1);
      BoundStep(k);
      Fits32(s1 + data[from + k]);
      Fits32(s2 + s1 + data[from + k]);
      s1 := (s1 + data[from + k]) % MODULUS32;
      s2 := (s2 + s1) % MODULUS32;
    }
  }

  method Adler32(data: seq<Byte>) returns (r: nat)
    ensures r == Adler(data) && r < MODULUS32
  {
    var s1, s2 := 1, 0;
    var pos := 0;
    while pos < |data|
      invariant 0 <= pos <= |data| && 0 <= s1 < BASE && 0 <= s2 < BASE
      invariant AdlerSums(data[..pos]) == (s1, s2)
    {
      var amount := if |data| - pos > 5550 then 5550 else |data| - pos;
      s1, s2 := AdlerRun(data, pos, amount, s1, s2);
      s1, s2 := s1 % BASE, s2 % BASE;
      pos := pos + amount;
    }
    assert data[..|data|] == data;
    r := s2 * 65536 + s1;
  }

  // ----- CRC ----------------------------------------------------------------------------------

  /** A 32-bit register, least significant bit first. */
  type Word = w: BitString | |w| == 32 witness Zeros(32)

  function Xor(a: Word, b: Word): (r: Word)
    ensures forall i | 0 <= i < 32 :: r[i] == (a[i] != b[i])
  {
    seq(32, i requires 0 <= i < 32 => a[i] != b[i])
  }

  function ShiftRight(a: Word, k: nat): (r: Word)
    requires k <= 32
    ensures forall i | 0 <= i < 32 :: r[i] == (i + k < 32 && a[i + k])
  {
    a[k..] + Zeros(k)
  }

  /** A number below 2^n as a register. */
  function Extend(bits: BitString): (r: Word)
    requires |bits| <= 32
    ensures forall i | 0 <= i < 32 :: r[i] == (i < |bits| && bits[i])
  {
    bits + Zeros(32 - |bits|)
  }

  function Polynomial(): Word {
    LowFirst(0xedb88320, 32)
  }

  /** The generator x^32 + x^26 + x^23 + x^22 + x^16 + x^12 + x^11 + x^10 + x^8 + x^7 + x^5 +
      x^4 + x^2 + x + 1, without x^32 and with the highest power first. */
  lemma {:induction false} PolynomialTerms(i: nat)
    requires i < 32
    ensures Polynomial()[31 - i] <==> i in [26, 23, 22, 16, 12, 11, 10, 8, 7, 5, 4, 2, 1, 0]
  {
    hide LowFirst;
    LowHalf();
    HighHalf();
  }

  lemma {:induction false} LowHalf()
    ensures LowFirst(0xedb88320, 32) ==
            [false, false, false, false, false, true, false, false, true, true, false, false, false, false, false, true]
            + LowFirst(0xedb8, 16)
  {
    hide LowFirst;
    HexDigit(0xedb88320, 28);
    HexDigit(0xedb8832, 24);
    HexDigit(0xedb883, 20);
    HexDigit(0xedb88, 16);
  }

  lemma {:induction false} HighHalf()
    ensures LowFirst(0xedb8, 16) ==
            [false, false, false, true, true, true, false, true, true, false, true, true, false, true, true, true]
  {
    hide LowFirst;
    HexDigit(0xedb8, 12);
    HexDigit(0xedb, 8);
    HexDigit(0xed, 4);
    HexDigit(0xe, 0);
  }

  lemma {:induction false} HexDigit(v: nat, n: nat)
    ensures LowFirst(v, n + 4) == [v % 2 == 1, v / 2 % 2 == 1, v / 4 % 2 == 1, v / 8 % 2 == 1] + LowFirst(v / 16, n)
  {
    assert v / 2 / 2 == v / 4 && v / 4 / 2 == v / 8 && v / 8 / 2 == v / 16;
    assert LowFirst(v, n + 4) == [v % 2 == 1] + LowFirst(v / 2, n + 3);
    assert LowFirst(v / 2, n + 3) == [v / 2 % 2 == 1] + LowFirst(v / 4, n + 2);
    assert LowFirst(v / 4, n + 2) == [v / 4 % 2 == 1] + LowFirst(v / 8, n + 1);
    assert LowFirst(v / 8, n + 1) == [v / 8 % 2 == 1] + LowFirst(v / 16, n);
  }

  function Ones(): (r: Word)
    ensures forall i | 0 <= i < 32 :: r[i]
  {
    seq(32, _ => true)
  }

  /** One message bit: the register is shifted, and the polynomial subtracted when the bit
      shifted out differs from the message bit. */
  function Feed(c: Word, bit: bool): Word {
    if c[0] != bit then Xor(Polynomial(), ShiftRight(c, 1)) else ShiftRight(c, 1)
  }

  function BitCrc(c: Word, bits: BitString): Word
    decreases |bits|
  {
    if bits == [] then c else Feed(BitCrc(c, bits[..|bits| - 1]), bits[|bits| - 1])
  }

  /** The CRC of bytes, continuing from the CRC of earlier ones. */
  function Crc(crc: Word, bytes: seq<Byte>): Word {
    Xor(BitCrc(Xor(crc, Ones()), ByteBits(bytes)), Ones())
  }

  lemma {:induction false} BitCrcConcat(c: Word, x: BitString, y: BitString)
    ensures BitCrc(c, x + y) == BitCrc(BitCrc(c, x), y)
    decreases |y|
  {
    hide Feed;
    if y == [] {
      assert x + y == x;
    } else {
      BitCrcConcat(c, x, y[..|y| - 1]);
      assert (x + y)[..|x + y| - 1] == x + y[..|y| - 1];
    }
  }

  /** The CRC composes over concatenation. */
  lemma {:induction false} CrcConcat(crc: Word, x: seq<Byte>, y: seq<Byte>)
    ensures Crc(Crc(crc, x), y) == Crc(crc, x + y)
  {
    hide BitCrc, ByteBits;
    ByteBitsConcat(x, y);
    BitCrcConcat(Xor(crc, Ones()), ByteBits(x), ByteBits(y));
    var mid := BitCrc(Xor(crc, Ones()), ByteBits(x));
    assert Xor(Xor(mid, Ones()), Ones()) == mid;
  }

  /** A known value: four bytes of ones clear the register, whose inverse is the CRC. */
  lemma {:induction false} CrcOfOnes()
    ensures Crc(Zeros(32), [255, 255, 255, 255]) == LowFirst(0xFFFF_FFFF, 32)
  {
    hide BitCrc, LowFirst, ByteBits;
    var bits := seq<bool>(32, _ => true);
    AllOnes();
    NoBytes();
    ByteBitsSnoc([], 255);
    ByteBitsSnoc([255], 255);
    ByteBitsSnoc([255, 255], 255);
    ByteBitsSnoc([255, 255, 255], 255);
    assert [] + [255] == [255] && [255] + [255] == [255, 255] && [255, 255] + [255] == [255, 255, 255]
           && [255, 255, 255] + [255] == [255, 255, 255, 255];
    assert ByteBits([255, 255, 255, 255]) == bits;
    OnesCleared(32);
    assert Xor(Zeros(32), Ones()) == Ones();
    assert seq<bool>(32, _ => true) == bits;
    assert Xor(BitCrc(Ones(), bits), Ones()) == Ones();
  }

  lemma {:induction false} AllOnes()
    ensures forall i | 0 <= i < 8 :: LowFirst(255, 8)[i]
    ensures LowFirst(0xFFFF_FFFF, 32) == Ones()
  {
    hide LowFirst;
    HexDigit(0xff, 4);
    HexDigit(0xf, 0);
    HexDigit(0xFFFF_FFFF, 28);
    HexDigit(0xFFF_FFFF, 24);
    HexDigit(0xFF_FFFF, 20);
    HexDigit(0xF_FFFF, 16);
    HexDigit(0xFFFF, 12);
    HexDigit(0xFFF, 8);
    HexDigit(0xFF, 4);
    HexDigit(0xF, 0);
  }

  lemma {:induction false} OnesCleared(n: nat)
    requires n <= 32
    ensures BitCrc(Ones(), seq(n, _ => true)) == seq(32, i => i + n < 32)
  {
    hide Polynomial;
    if n > 0 {
      OnesCleared(n - 1);
      assert seq(n, _ => true)[..n - 1] == seq(n - 1, _ => true);
    }
  }

  // ----- The table ------------------------------------------------------------------------------

  function Step(c: Word): Word {
    if c[0] then Xor(Polynomial(), ShiftRight(c, 1)) else ShiftRight(c, 1)
  }

  function Steps(c: Word, k: nat): Word {
    if k == 0 then c else Step(Steps(c, k - 1))
  }

  lemma {:induction false} StepLinear(a: Word, b: Word)
    ensures Step(Xor(a, b)) == Xor(Step(a), Step(b))
  {
    hide Polynomial;
  }

  lemma {:induction false} StepsLinear(a: Word, b: Word, k: nat)
    ensures Steps(Xor(a, b), k) == Xor(Steps(a, k), Steps(b, k))
  {
    hide Step;
    if k > 0 {
      StepsLinear(a, b, k - 1);
      StepLinear(Steps(a, k - 1), Steps(b, k - 1));
    }
  }

  lemma {:induction false} StepsShift(a: Word, k: nat)
    requires k <= 32 && forall i | 0 <= i < k :: !a[i]
    ensures Steps(a, k) == ShiftRight(a, k)
  {
    hide Polynomial;
    if k > 0 {
      StepsShift(a, k - 1);
      assert !ShiftRight(a, k - 1)[0];
      assert ShiftRight(ShiftRight(a, k - 1), 1) == ShiftRight(a, k);
    } else {
      assert ShiftRight(a, 0) == a;
    }
  }

  /** Bit k alone. */
  function OneBit(k: nat, bit: bool): (r: Word)
    requires k < 32
    ensures forall i | 0 <= i < 32 :: r[i] == (i == k && bit)
  {
    seq(32, i requires 0 <= i < 32 => i == k && bit)
  }

  lemma {:induction false} FeedIsStep(c: Word, bit: bool)
    ensures Feed(c, bit) == Step(Xor(c, OneBit(0, bit)))
  {
    hide Polynomial;
    assert ShiftRight(Xor(c, OneBit(0, bit)), 1) == ShiftRight(c, 1);
  }

  /** Message bits may all be added to the register first. */
  lemma {:induction false} FeedAll(c: Word, bits: BitString)
    requires |bits| <= 32
    ensures BitCrc(c, bits) == Steps(Xor(c, Extend(bits)), |bits|)
    decreases |bits|
  {
    hide Feed, Step;
    if bits == [] {
      assert Xor(c, Extend(bits)) == c;
    } else {
      var k := |bits| - 1;
      var init, bit := bits[..k], bits[k];
      FeedAll(c, init);
      var one := OneBit(k, bit);
      assert Xor(c, Extend(bits)) == Xor(Xor(c, Extend(init)), one);
      StepsLinear(Xor(c, Extend(init)), one, k);
      StepsShift(one, k);
      assert ShiftRight(one, k) == OneBit(0, bit);
      FeedIsStep(BitCrc(c, init), bit);
    }
  }

  lemma {:induction false} EightSteps(x: Word)
    ensures Steps(x, 8) == Xor(Steps(Extend(x[..8]), 8), ShiftRight(x, 8))
  {
    hide Steps;
    var high: Word := Zeros(8) + x[8..];
    assert x == Xor(Extend(x[..8]), high);
    StepsLinear(Extend(x[..8]), high, 8);
    StepsShift(high, 8);
    assert ShiftRight(high, 8) == ShiftRight(x, 8);
  }

  /** What the table holds for an index: eight steps from it. */
  function TableEntry(n: nat): Word
    requires n < 256
  {
    Steps(LowFirst(n, 32), 8)
  }

  lemma {:induction false} ByteWord(v: nat)
    requires v < 256
    ensures LowFirst(v, 32) == Extend(LowFirst(v, 8))
  {
    SmallPowers();
    HighZeros(v, 8, 32);
  }

  /** One table lookup does the work of eight message bits. */
  lemma {:induction false} LookupStep(c: Word, b: Byte)
    ensures var x := Xor(c, LowFirst(b, 32));
            && FromLowFirst(x[..8]) < 256
            && Xor(TableEntry(FromLowFirst(x[..8])), ShiftRight(c, 8)) == BitCrc(c, LowFirst(b, 8))
  {
    hide Steps, LowFirst, BitCrc;
    var x := Xor(c, LowFirst(b, 32));
    ByteWord(b);
    FeedAll(c, LowFirst(b, 8));
    EightSteps(x);
    FromLowFirstRange(x[..8]);
    SmallPowers();
    FromLowFirstRoundTrip(x[..8]);
    ByteWord(FromLowFirst(x[..8]));
    assert ShiftRight(x, 8) == ShiftRight(c, 8);
  }

  /** The table, filled in when first needed. */
  class CrcTable {
    const entries: array<Word>
    var computed: bool

    ghost predicate Valid()
      reads this, entries
    {
      entries.Length == 256 && (computed ==> forall n | 0 <= n < 256 :: entries[n] == TableEntry(n))
    }

    constructor ()
      ensures Valid() && fresh(entries)
    {
      entries := new Word[256](_ => Zeros(32));
      computed := false;
    }

    method MakeCRCTable()
      requires Valid()
      modifies this, entries
      ensures Valid() && computed
    {
      hide LowFirst;
      for n := 0 to 256
        invariant entries.Length == 256 && forall m | 0 <= m < n :: entries[m] == TableEntry(m)
      {
        var c: Word := LowFirst(n, 32);
        for k := 0 to 8
          invariant c == Steps(LowFirst(n, 32), k)
        {
          if c[0] {
            c := Xor(Polynomial(), ShiftRight(c, 1));
          } else {
            c := ShiftRight(c, 1);
          }
        }
        entries[n] := c;
      }
      computed := true;
    }

    /** Continues a CRC over more bytes. */
    method UpdateCRC(crc: Word, buf: seq<Byte>) returns (r: Word)
      requires Valid()
      modifies this, entries
      ensures Valid() && r == Crc(crc, buf)
    {
      hide BitCrc, ByteBits, LowFirst, TableEntry;
      var c := Xor(crc, Ones());
      if !computed {
        MakeCRCTable();
      }
      NoBytesCrc(c);
      for n := 0 to |buf|
        invariant Valid() && computed
        invariant c == BitCrc(Xor(crc, Ones()), ByteBits(buf[..n]))
      {
        var x := Xor(c, LowFirst(buf[n], 32));
        LookupStep(c, buf[n]);
        NextByteCrc(Xor(crc, Ones()), buf, n);
        c := Xor(entries[FromLowFirst(x[..8])], ShiftRight(c, 8));
      }
      assert buf[..|buf|] == buf;
      r := Xor(c, Ones());
    }
  }

  lemma {:induction false} NoBytesCrc(c: Word)
    ensures BitCrc(c, ByteBits([])) == c
  {
  }

  lemma {:induction false} NextByteCrc(c: Word, buf: seq<Byte>, n: nat)
    requires n < |buf|
    ensures BitCrc(c, ByteBits(buf[..n + 1])) == BitCrc(BitCrc(c, ByteBits(buf[..n])), LowFirst(buf[n], 8))
  {
    hide BitCrc, LowFirst, ByteBits;
    assert buf[..n + 1] == buf[..n] + [buf[n]];
    ByteBitsSnoc(buf[..n], buf[n]);
    BitCrcConcat(c, ByteBits(buf[..n]), LowFirst(buf[n], 8));
  }
}
