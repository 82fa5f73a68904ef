/** The bit-level reader and writer of the DEFLATE codec, each tied to a bit stream. */
module BitIO {
  import opened Bits

  datatype DecodeError =
    | UnexpectedEnd
    | InvalidBlockType
    | InvalidStoredLen
    | InvalidHuffmanCode
    | InvalidLengthCode
    | InvalidDistanceCode
    | DistanceTooFar
    | InvalidGzipMagic
    | UnsupportedGzipMethod
    | GzipReservedFlags
    | GzipCrcMismatch
    | GzipSizeMismatch
    | OutputTooLarge

  datatype Result<+T> = Ok(value: T) | Err(error: DecodeError) {
    predicate IsFailure() { Err? }
    function PropagateFailure<U>(): Result<U>
      requires Err?
    {
      Err(error)
    }
    function Extract(): T
      requires Ok?
    {
      value
    }
  }

  /** The n-bit field at a position of a bit stream. */
  function ReadField(bits: seq<bool>, pos: nat, n: nat): (r: Result<nat>)
  {
    if pos + n > |bits| then Err(UnexpectedEnd) else Ok(Field(bits, pos, n))
  }

  /** The next byte boundary. */
  function RoundUp8(pos: nat): (r: nat)
    ensures pos <= r < pos + 8 && r % 8 == 0
  {
    (pos + 7) / 8 * 8
  }

  class BitReader {
    const data: seq<byte>
    ghost const bits: seq<bool>
    var bytePos: nat
    var bitPos: nat

    ghost predicate Valid()
      reads this
    {
      && bits == BytesToBits(data)
      && bitPos < 8
      && bytePos <= |data|
      && (bytePos == |data| ==> bitPos == 0)
    }

    ghost function Pos(): nat
      reads this
    {
      8 * bytePos + bitPos
    }

    constructor (d: seq<byte>)
      ensures Valid() && data == d && Pos() == 0
    {
      data := d;
      bits := BytesToBits(d);
      bytePos, bitPos := 0, 0;
    }

    method ReadBits(n: nat) returns (r: Result<nat>)
      requires Valid() && n <= 32
      modifies this
      ensures Valid()
      ensures r == ReadField(bits, old(Pos()), n)
      ensures r.Ok? ==> Pos() == old(Pos()) + n
    {
      var value := 0;
      ghost var p0 := Pos();
      for i := 0 to n
        invariant Valid() && Pos() == p0 + i <= |bits|
        invariant value == Field(bits, p0, i)
      {
        if bytePos >= |data| {
          return Err(UnexpectedEnd);
        }
        var bit := Shr(data[bytePos], bitPos) % 2;
        NextBit(data, bits, p0, i, bytePos, bitPos);
        value := BitOr(value, Shl(bit, i));
        bitPos := bitPos + 1;
        if bitPos == 8 {
          bitPos := 0;
          bytePos := bytePos + 1;
        }
      }
      r := Ok(value);
    }

    method AlignToByte()
      requires Valid()
      modifies this
      ensures Valid() && bitPos == 0 && Pos() == RoundUp8(old(Pos()))
    {
      if bitPos != 0 {
        bitPos := 0;
        bytePos := bytePos + 1;
      }
    }

    /** A little-endian 16-bit number at a byte boundary is a 16-bit field. */
    method ReadAlignedU16Le() returns (r: Result<nat>)
      requires Valid() && bitPos == 0
      modifies this
      ensures Valid() && bitPos == 0
      ensures r == ReadField(bits, old(Pos()), 16)
      ensures r.Ok? ==> Pos() == old(Pos()) + 16
    {
      if bytePos + 2 > |data| {
        return Err(UnexpectedEnd);
      }
      var lo := data[bytePos];
      var hi := data[bytePos + 1];
      TwoBytesAt(data, bits, bytePos);
      bytePos := bytePos + 2;
      r := Ok(BitOr(lo, Shl(hi, 8)));
    }

    method ReadAlignedBytes(n: nat) returns (r: Result<seq<byte>>)
      requires Valid() && bitPos == 0
      modifies this
      ensures Valid() && bitPos == 0
      ensures r == if old(bytePos) + n > |data| then Err(UnexpectedEnd) else Ok(data[old(bytePos)..old(bytePos) + n])
      ensures r.Ok? ==> bytePos == old(bytePos) + n
    {
      if bytePos + n > |data| {
        return Err(UnexpectedEnd);
      }
      r := Ok(data[bytePos..bytePos + n]);
      bytePos := bytePos + n;
    }
  }

  /** One step of the reader's loop. */
  lemma {:induction false} NextBit(data: seq<byte>, bits: seq<bool>, p0: nat, i: nat, bytePos: nat, bitPos: nat)
    requires bits == BytesToBits(data) && bytePos < |data| && bitPos < 8 && p0 + i == 8 * bytePos + bitPos
    ensures Field(bits, p0, i + 1) == BitOr(Field(bits, p0, i), Shl(Shr(data[bytePos], bitPos) % 2, i))
  {
    ByteAt(data, bits, bytePos);
    LsbBitAt(data[bytePos], 8, bitPos);
    FieldBound(bits, p0, i);
    OrIsAdd(Field(bits, p0, i), Shr(data[bytePos], bitPos) % 2, i);
  }

  lemma {:induction false} TwoBytesAt(data: seq<byte>, bits: seq<bool>, i: nat)
    requires bits == BytesToBits(data) && i + 2 <= |data|
    ensures Field(bits, 8 * i, 16) == BitOr(data[i], Shl(data[i + 1], 8))
  {
    ByteValue(data, bits, i);
    ByteValue(data, bits, i + 1);
    ByteBound(data[i]);
    FieldConcat(bits, 8 * i, 8, 8);
    OrIsAdd(data[i], data[i + 1], 8);
  }

  lemma {:induction false} ByteValue(data: seq<byte>, bits: seq<bool>, i: nat)
    requires bits == BytesToBits(data) && i < |data|
    ensures Field(bits, 8 * i, 8) == data[i]
  {
    ByteAt(data, bits, i);
    ByteBound(data[i]);
    FieldWritten(bits, 8 * i, data[i], 8);
  }

  class BitWriter {
    var out: seq<byte>
    var bitBuf: nat
    var bitCnt: nat
    /** Everything written so far. */
    ghost var written: seq<bool>

    ghost predicate Valid()
      reads this
    {
      bitCnt < 8 && Holds(out, bitBuf, bitCnt, written)
    }

    constructor ()
      ensures Valid() && written == []
    {
      out, bitBuf, bitCnt, written := [], 0, 0, [];
    }

    /** The 32-bit buffer holds the pending bits and the new field when n <= 24. */
    method WriteBits(val: nat, n: nat)
      requires Valid() && n <= 24 && val < Pow2(n)
      modifies this
      ensures Valid()
      ensures written == old(written) + LsbBits(val, n)
    {
      hide Holds, LsbBits, Shl, BitOr, Pow2;
      ghost var all := written + LsbBits(val, n);
      AppendField(out, bitBuf, bitCnt, written, val, n);
      bitBuf := BitOr(bitBuf, Shl(val, bitCnt));
      bitCnt := bitCnt + n;
      while bitCnt >= 8
        invariant Holds(out, bitBuf, bitCnt, all)
      {
        FlushByte(out, bitBuf, bitCnt, all);
        out := out + [bitBuf % 256];
        bitBuf := bitBuf / 256;
        bitCnt := bitCnt - 8;
      }
      written := all;
    }

    /** Huffman codes go out most significant bit first. */
    method WriteHuff(code: nat, n: nat)
      requires Valid()
      modifies this
      ensures Valid()
      ensures written == old(written) + MsbBits(code, n)
    {
      ghost var w := written;
      var i: nat := n;
      while i > 0
        invariant 0 <= i <= n
        invariant Valid()
        invariant written == w + MsbBits(Shr(code, i), n - i)
      {
        i := i - 1;
        ShrStep(code, i);
        var bit := Shr(code, i) % 2;
        OneBit(bit);
        WriteBits(bit, 1);
        ghost var top := Shr(code, i);
        assert (w + MsbBits(top / 2, n - i - 1)) + [top % 2 == 1] == w + MsbBits(top, n - i);
      }
    }

    /** The last byte is padded with zero bits. */
    method Finish() returns (r: seq<byte>)
      requires Valid()
      modifies this
      ensures Packs(r, old(written))
    {
      PadByte(out, bitBuf, bitCnt, written);
      if bitCnt > 0 {
        out := out + [bitBuf % 256];
      }
      r := out;
    }
  }

  /** Whole bytes and pending bits that make up w. */
  ghost predicate Holds(out: seq<byte>, buf: nat, cnt: nat, w: seq<bool>)
  {
    buf < Pow2(cnt) && w == BytesToBits(out) + LsbBits(buf, cnt)
  }

  lemma {:induction false} OneBit(bit: nat)
    requires bit < 2
    ensures bit < Pow2(1) && LsbBits(bit, 1) == [bit == 1]
  {
  }

  lemma {:induction false} AppendField(out: seq<byte>, buf: nat, cnt: nat, w: seq<bool>, val: nat, n: nat)
    requires Holds(out, buf, cnt, w) && val < Pow2(n)
    ensures Holds(out, BitOr(buf, Shl(val, cnt)), cnt + n, w + LsbBits(val, n))
  {
    OrIsAdd(buf, val, cnt);
    LsbConcat(buf, cnt, val, n);
    ShlBound(val, n, cnt);
    var o, u, f := BytesToBits(out), LsbBits(buf, cnt), LsbBits(val, n);
    assert o + (u + f) == (o + u) + f;
  }

  lemma {:induction false} FlushByte(out: seq<byte>, buf: nat, cnt: nat, w: seq<bool>)
    requires cnt >= 8 && Holds(out, buf, cnt, w)
    ensures Holds(out + [buf % 256], buf / 256, cnt - 8, w)
  {
    ShrByte(buf);
    ShrBound(buf, cnt - 8, 8);
    LsbSplit(buf, 8, cnt);
    LowByte(buf);
    ByteBits(buf % 256);
    BytesToBitsConcat(out, [buf % 256]);
    var o, low, high := BytesToBits(out), LsbBits(buf, 8), LsbBits(buf / 256, cnt - 8);
    assert o + (low + high) == (o + low) + high;
  }

  /** As few bytes as hold w, which comes first; the bits after it are zero. */
  ghost predicate Packs(c: seq<byte>, w: seq<bool>)
  {
    && |c| == (|w| + 7) / 8 && At(BytesToBits(c), 0, w)
    && forall i :: |w| <= i < 8 * |c| ==> !BytesToBits(c)[i]
  }

  lemma {:induction false} PadByte(out: seq<byte>, buf: nat, cnt: nat, w: seq<bool>)
    requires cnt < 8 && Holds(out, buf, cnt, w)
    ensures Packs(if cnt > 0 then out + [buf % 256] else out, w)
  {
    hide LsbBits, BytesToBits;
    if cnt > 0 {
      LowByte(buf);
      ByteBits(buf % 256);
      BytesToBitsConcat(out, [buf % 256]);
      LsbSplit(buf, cnt, 8);
      ShrBound(buf, 0, cnt);
      One();
      NoBits(8 - cnt);
      var pad := LsbBits(0, 8 - cnt);
      assert BytesToBits(out + [buf % 256]) == w + pad;
      forall i | |w| <= i < |w + pad|
        ensures !(w + pad)[i]
      {
        assert (w + pad)[i] == pad[i - |w|];
      }
    } else {
      assert BytesToBits(out) + LsbBits(buf, 0) == BytesToBits(out);
    }
  }

  lemma {:induction false} One()
    ensures Pow2(0) == 1
  {
  }

  lemma {:induction false} NoBits(n: nat)
    ensures forall i :: 0 <= i < n ==> !LsbBits(0, n)[i]
  {
    if n > 0 { NoBits(n - 1); }
  }

  /** The bits written determine the bytes. */
  lemma {:induction false} PacksOnce(c: seq<byte>, d: seq<byte>, w: seq<bool>)
    requires Packs(c, w) && Packs(d, w)
    ensures c == d
  {
    hide BytesToBits;
    var b := BytesToBits(c);
    forall i | 0 <= i < |b|
      ensures b[i] == BytesToBits(d)[i]
    {
      if i < |w| { assert b[0 + i] == w[i] == BytesToBits(d)[0 + i]; }
    }
    assert b == BytesToBits(d);
    forall i | 0 <= i < |c|
      ensures c[i] == d[i]
    {
      ByteValue(c, b, i);
      ByteValue(d, b, i);
    }
  }
}
