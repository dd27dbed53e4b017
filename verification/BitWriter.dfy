/**
 The output buffer: bytes filled bit by bit from the least significant end, with a
 bit pointer whose low three bits say how much of the last byte is taken.
 */
module BitWriter {
  import opened Optional
  import opened Arith
  import opened Bits
  import opened Symbols
  import opened Lz77Store
  import opened Inflate
  import opened CanonicalCode

  function ByteBits(bytes: seq<Byte>): BitString {
    if bytes == [] then [] else ByteBits(bytes[..|bytes| - 1]) + LowFirst(bytes[|bytes| - 1], 8)
  }

  lemma {:induction false} ByteBitsSize(bytes: seq<Byte>)
    ensures |ByteBits(bytes)| == 8 * |bytes|
  {
    if bytes != [] {
      ByteBitsSize(bytes[..|bytes| - 1]);
    }
  }

  lemma {:induction false} ByteBitsSnoc(bytes: seq<Byte>, b: Byte)
    ensures ByteBits(bytes + [b]) == ByteBits(bytes) + LowFirst(b, 8)
  {
    assert (bytes + [b])[..|bytes|] == bytes;
  }

  lemma {:induction false} NoBytes()
    ensures ByteBits([]) == []
  {
  }

  lemma {:induction false} ByteBitsConcat(a: seq<Byte>, b: seq<Byte>)
    ensures ByteBits(a + b) == ByteBits(a) + ByteBits(b)
  {
    hide LowFirst, ByteBits;
    if b == [] {
      assert a + b == a;
      NoBytes();
    } else {
      var init, last := b[..|b| - 1], b[|b| - 1];
      ByteBitsConcat(a, init);
      assert a + b == a + init + [last];
      ByteBitsSnoc(a + init, last);
      assert b == init + [last];
      ByteBitsSnoc(init, last);
    }
  }

  /** Reading whole bytes back. */
  lemma {:induction false} ReadBytesBack(bytes: seq<Byte>, rest: BitString)
    ensures ReadBytes(ByteBits(bytes) + rest, |bytes|) == Some((bytes, rest))
  {
    if bytes == [] {
      assert ByteBits(bytes) + rest == rest;
    } else {
      var b, tail := bytes[0], bytes[1..];
      assert bytes == [b] + tail;
      ByteBitsConcat([b], tail);
      ByteBitsSnoc([], b);
      assert [] + [b] == [b];
      var bits := ByteBits(bytes) + rest;
      assert bits == LowFirst(b, 8) + (ByteBits(tail) + rest);
      SmallPowers();
      LowFirstRoundTrip(b, 8);
      assert bits[..8] == LowFirst(b, 8);
      assert bits[8..] == ByteBits(tail) + rest;
      ReadBytesBack(tail, rest);
    }
  }

  /** The bits written: whole bytes, then the part of the last byte in use. */
  function Written(out: seq<Byte>, used: nat): BitString
    requires used < 8 && (used > 0 ==> out != [])
  {
    if used == 0 then ByteBits(out)
    else ByteBits(out[..|out| - 1]) + LowFirst(out[|out| - 1], used)
  }

  lemma {:induction false} SetBit(v: nat, k: nat, bit: bool)
    requires v < Pow2(k)
    ensures LowFirst(v + (if bit then Pow2(k) else 0), k + 1) == LowFirst(v, k) + [bit]
    ensures v + (if bit then Pow2(k) else 0) < Pow2(k + 1)
  {
    if k > 0 {
      SetBit(v / 2, k - 1, bit);
      var v' := v + (if bit then Pow2(k) else 0);
      assert v' / 2 == v / 2 + (if bit then Pow2(k - 1) else 0) && v' % 2 == v % 2;
      assert LowFirst(v', k + 1) == [v' % 2 == 1] + LowFirst(v' / 2, k);
    } else {
      assert LowFirst(v / 2, 0) == [];
    }
  }

  lemma {:induction false} WriteBit(out: seq<Byte>, used: nat, bit: bool)
    requires used < 8 && (used > 0 ==> out != [] && out[|out| - 1] < Pow2(used))
    ensures var base := if used == 0 then out + [0] else out;
            var last := base[|base| - 1] + (if bit then Pow2(used) else 0);
            && last < Pow2(used + 1) <= 256
            && Written(base[|base| - 1 := last], (used + 1) % 8) == Written(out, used) + [bit]
  {
    hide LowFirst, ByteBits, Written, Pow2;
    var base := if used == 0 then out + [0] else out;
    var init, v := base[..|base| - 1], base[|base| - 1];
    PowersAt(used);
    LastBit(init, v, used, bit);
    var last := v + (if bit then Pow2(used) else 0);
    assert base[|base| - 1 := last] == init + [last];
    if used == 0 {
      assert init == out;
      WholeBytes(out);
      NoBits(v);
    } else {
      LastByte(out, used);
    }
  }

  /** Setting a bit of the last byte. */
  lemma {:induction false} LastBit(init: seq<Byte>, v: nat, used: nat, bit: bool)
    requires used < 8 && v < Pow2(used)
    ensures var last := v + (if bit then Pow2(used) else 0);
            && last < Pow2(used + 1) <= 256
            && Written(init + [last], (used + 1) % 8) == ByteBits(init) + LowFirst(v, used) + [bit]
  {
    hide LowFirst, ByteBits, Written, Pow2;
    SetBit(v, used, bit);
    Pow2Monotone(used + 1, 8);
    SmallPowers();
    var last := v + (if bit then Pow2(used) else 0);
    LastByte(init + [last], used + 1);
    assert (init + [last])[..|init|] == init;
  }

  lemma {:induction false} WholeBytes(out: seq<Byte>)
    ensures Written(out, 0) == ByteBits(out)
  {
  }

  lemma {:induction false} PowersAt(used: nat)
    ensures Pow2(0) == 1 && Pow2(used) > 0
  {
  }

  lemma {:induction false} NoBits(v: nat)
    ensures LowFirst(v, 0) == []
  {
  }

  lemma {:induction false} LastByte(out: seq<Byte>, used: nat)
    requires out != [] && 1 <= used <= 8
    ensures Written(out, used % 8) == ByteBits(out[..|out| - 1]) + LowFirst(out[|out| - 1], used)
  {
  }

  /** One more bit of a code, and the bit pointer after it. */
  lemma {:induction false} NextBit(start: BitString, code: BitString, i: nat, bp: nat)
    requires i < |code|
    ensures start + code[..i] + [code[i]] == start + code[..i + 1]
    ensures ((bp + i) % 256 + 1) % 256 == (bp + i + 1) % 256
  {
  }

  lemma {:induction false} NextPointer(bp: nat)
    ensures (bp + 1) % 256 % 8 == (bp % 8 + 1) % 8
  {
  }

  class Writer {
    var out: seq<Byte>
    var bp: nat

    ghost predicate Valid()
      reads this
    {
      bp < 256 && (bp % 8 > 0 ==> out != [] && out[|out| - 1] < Pow2(bp % 8))
    }

    /** Everything written so far. */
    ghost function Bits(): BitString
      requires Valid()
      reads this
    {
      Written(out, bp % 8)
    }

    constructor (out: seq<Byte>)
      ensures Valid() && this.out == out && bp == 0 && Bits() == ByteBits(out)
    {
      this.out := out;
      bp := 0;
    }

    /** The byte's bit is still clear, so setting it is an addition. */
    method AddBit(bit: bool)
      requires Valid()
      modifies this
      ensures Valid() && Bits() == old(Bits()) + [bit] && bp == (old(bp) + 1) % 256
    {
      hide Written, Pow2;
      WriteBit(out, bp % 8, bit);
      NextPointer(bp);
      if bp % 8 == 0 {
        out := out + [0];
      }
      out := out[|out| - 1 := out[|out| - 1] + (if bit then Pow2(bp % 8) else 0)];
      bp := (bp + 1) % 256;
    }

    method AddBits(symbol: nat, length: nat)
      requires Valid()
      modifies this
      ensures Valid() && Bits() == old(Bits()) + LowFirst(symbol, length)
      ensures bp == (old(bp) + length) % 256
    {
      hide LowFirst, Shift, Written, Pow2;
      ghost var code := LowFirst(symbol, length);
      NoShift(symbol);
      var rest := symbol;
      for i := 0 to length
        invariant Valid() && Bits() == old(Bits()) + code[..i]
        invariant rest == Shift(symbol, i) && bp == (old(bp) + i) % 256
      {
        LowFirstAt(symbol, length, i);
        ShiftStep(symbol, i);
        NextBit(old(Bits()), code, i, old(bp));
        AddBit(rest % 2 == 1);
        rest := rest / 2;
      }
      assert code[..length] == code;
    }

    /** Like AddBits in the opposite order. */
    method AddHuffmanBits(symbol: nat, length: nat)
      requires Valid()
      modifies this
      ensures Valid() && Bits() == old(Bits()) + HighFirst(symbol, length)
      ensures bp == (old(bp) + length) % 256
    {
      hide HighFirst, Shift, Written, Pow2;
      ghost var code := HighFirst(symbol, length);
      for i := 0 to length
        invariant Valid() && Bits() == old(Bits()) + code[..i] && bp == (old(bp) + i) % 256
      {
        HighFirstAt(symbol, length, i);
        NextBit(old(Bits()), code, i, old(bp));
        AddBit(Shift(symbol, length - i - 1) % 2 == 1);
      }
      assert code[..length] == code;
    }

    /** Skips to the next byte boundary. */
    method Align()
      requires Valid()
      modifies this
      ensures Valid() && bp == 0 && out == old(out)
      ensures Bits() == old(Bits()) + Zeros((8 - |old(Bits())| % 8) % 8)
    {
      AlignWritten(out, bp % 8);
      bp := 0;
    }

    method AppendByte(b: Byte)
      requires Valid() && bp % 8 == 0
      modifies this
      ensures Valid() && bp == old(bp) && out == old(out) + [b] && Bits() == old(Bits()) + LowFirst(b, 8)
    {
      ByteBitsSnoc(out, b);
      out := out + [b];
    }
  }

  function Zeros(n: nat): (r: BitString)
    ensures |r| == n && forall i | 0 <= i < n :: !r[i]
  {
    seq(n, _ => false)
  }

  lemma {:induction false} HighZeros(v: nat, k: nat, n: nat)
    requires v < Pow2(k) && k <= n
    ensures LowFirst(v, n) == LowFirst(v, k) + Zeros(n - k)
  {
    if n > 0 {
      if k == 0 {
        HighZeros(0, 0, n - 1);
        assert Zeros(n) == [false] + Zeros(n - 1);
      } else {
        HighZeros(v / 2, k - 1, n - 1);
      }
    }
  }

  /** Bits of whole bytes are the bits written and zero padding. */
  lemma {:induction false} AlignWritten(out: seq<Byte>, used: nat)
    requires used < 8 && (used > 0 ==> out != [] && out[|out| - 1] < Pow2(used))
    ensures ByteBits(out) == Written(out, used) + Zeros((8 - used) % 8)
    ensures |Written(out, used)| % 8 == used
  {
    hide LowFirst, ByteBits, Pow2;
    if used == 0 {
      ByteBitsSize(out);
      assert ByteBits(out) + Zeros(0) == ByteBits(out);
    } else {
      ByteBitsSnoc(out[..|out| - 1], out[|out| - 1]);
      assert out == out[..|out| - 1] + [out[|out| - 1]];
      HighZeros(out[|out| - 1], used, 8);
      ByteBitsSize(out[..|out| - 1]);
    }
  }
}
