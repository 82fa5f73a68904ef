/** Bytes, powers of two and the two bit orders of DEFLATE: plain fields are
    written least significant bit first, Huffman codes most significant bit first. */
module Bits {

  type byte = x: int | 0 <= x < 256

  function Pow2(n: nat): (r: nat)
    ensures r >= 1
  {
    if n == 0 then 1 else 2 * Pow2(n - 1)
  }

  lemma {:induction false} Pow2Mono(a: nat, b: nat)
    requires a <= b
    ensures Pow2(a) <= Pow2(b)
  {
    if a < b { Pow2Mono(a, b - 1); }
  }

  function B2N(b: bool): (r: nat)
  {
    if b then 1 else 0
  }

  function Min(a: nat, b: nat): nat
  {
    if a <= b then a else b
  }

  /** The conversion to a 32-bit signed integer. */
  function ToI32(x: int): (r: int)
    ensures -0x8000_0000 <= r < 0x8000_0000
    ensures -0x8000_0000 <= x < 0x8000_0000 ==> r == x
    ensures x >= 0 ==> r <= x
  {
    (x + 0x8000_0000) % 0x1_0000_0000 - 0x8000_0000
  }

  /** The bitwise OR of two numbers. */
  function BitOr(a: nat, b: nat): (r: nat)
    decreases a + b
  {
    if a == 0 && b == 0 then 0
    else (if a % 2 == 1 || b % 2 == 1 then 1 else 0) + 2 * BitOr(a / 2, b / 2)
  }

  /** The bitwise exclusive OR of two numbers. */
  function BitXor(a: nat, b: nat): (r: nat)
    decreases a + b
  {
    if a == 0 && b == 0 then 0
    else (if a % 2 != b % 2 then 1 else 0) + 2 * BitXor(a / 2, b / 2)
  }

  lemma {:induction false} OrComm(a: nat, b: nat)
    ensures BitOr(a, b) == BitOr(b, a)
    decreases a + b
  {
    if a + b > 0 { OrComm(a / 2, b / 2); }
  }

  lemma {:induction false} OrDouble(a: nat, c: nat)
    ensures BitOr(a, 2 * c) == a % 2 + 2 * BitOr(a / 2, c)
  {
  }

  lemma {:induction false} OrZero(b: nat)
    ensures BitOr(0, b) == b
  {
    if b != 0 { OrZero(b / 2); }
  }

  lemma {:induction false} OrBit(a: nat, b: nat)
    ensures BitOr(a, b) % 2 == (if a % 2 == 1 || b % 2 == 1 then 1 else 0) && BitOr(a, b) / 2 == BitOr(a / 2, b / 2)
  {
  }

  lemma {:induction false} OrBound(a: nat, b: nat, n: nat)
    requires a < Pow2(n) && b < Pow2(n)
    ensures BitOr(a, b) < Pow2(n)
  {
    if n > 0 { OrBound(a / 2, b / 2, n - 1); }
  }

  lemma {:induction false} XorBit(a: nat, b: nat)
    ensures BitXor(a, b) % 2 == (a % 2 + b % 2) % 2 && BitXor(a, b) / 2 == BitXor(a / 2, b / 2)
  {
  }

  lemma {:induction false} XorBound(a: nat, b: nat, n: nat)
    requires a < Pow2(n) && b < Pow2(n)
    ensures BitXor(a, b) < Pow2(n)
  {
    if n > 0 { XorBound(a / 2, b / 2, n - 1); }
  }

  /** v << k, without a width limit. */
  function Shl(v: nat, k: nat): (r: nat)
  {
    if k == 0 then v else 2 * Shl(v, k - 1)
  }

  /** v >> k. */
  function Shr(v: nat, k: nat): (r: nat)
  {
    if k == 0 then v else Shr(v / 2, k - 1)
  }

  lemma {:induction false} ShrStep(v: nat, k: nat)
    ensures Shr(v, k + 1) == Shr(v, k) / 2
  {
    if k > 0 { ShrStep(v / 2, k - 1); }
  }

  /** A value below 2^n shifted left by k stays below 2^(k+n), with room for the k bits below it. */
  lemma {:induction false} ShlBound(v: nat, n: nat, k: nat)
    requires v < Pow2(n)
    ensures Shl(v, k) + Pow2(k) <= Pow2(k + n)
  {
    if k > 0 { ShlBound(v, n, k - 1); }
  }

  lemma {:induction false} ShrBound(v: nat, n: nat, k: nat)
    requires v < Pow2(n + k)
    ensures Shr(v, k) < Pow2(n)
  {
    if k > 0 { ShrBound(v / 2, n, k - 1); }
  }

  lemma {:induction false} ShlAdd(a: nat, b: nat, k: nat)
    ensures Shl(a + b, k) == Shl(a, k) + Shl(b, k)
  {
    if k > 0 { ShlAdd(a, b, k - 1); }
  }

  lemma {:induction false} ShlOne(k: nat)
    ensures Shl(1, k) == Pow2(k)
  {
    if k > 0 { ShlOne(k - 1); }
  }

  lemma {:induction false} ShlZero(k: nat)
    ensures Shl(0, k) == 0
  {
    if k > 0 { ShlZero(k - 1); }
  }

  lemma {:induction false} ShlDouble(v: nat, k: nat)
    ensures Shl(2 * v, k) == Shl(v, k + 1)
  {
    if k > 0 { ShlDouble(v, k - 1); }
  }

  lemma {:induction false} ShlCancel(v: nat, l: nat, k: nat)
    requires Shl(v, k) <= Pow2(l + k)
    ensures v <= Pow2(l)
  {
    if k > 0 { ShlCancel(v, l, k - 1); }
  }

  /** OR of numbers whose bits do not overlap is addition. */
  lemma {:induction false} OrIsAdd(a: nat, b: nat, k: nat)
    requires a < Pow2(k)
    ensures BitOr(a, Shl(b, k)) == a + Shl(b, k)
  {
    if k == 0 {
      OrZero(b);
    } else {
      OrIsAdd(a / 2, b, k - 1);
      OrDouble(a, Shl(b, k - 1));
    }
  }

  lemma {:induction false} ShrByte(v: nat)
    ensures Shr(v, 8) == v / 256
  {
    ShrStep(v, 1); ShrStep(v, 2); ShrStep(v, 3);
    assert Shr(v, 4) == v / 16;
    ShrStep(v, 4); ShrStep(v, 5); ShrStep(v, 6); ShrStep(v, 7);
  }

  lemma {:induction false} ShlByte(q: nat)
    ensures Shl(q, 8) == 256 * q
  {
    assert Shl(q, 1) == 2 * q;
    assert Shl(q, 2) == 4 * q;
    assert Shl(q, 3) == 8 * q;
    assert Shl(q, 4) == 16 * q;
    assert Shl(q, 5) == 32 * q;
    assert Shl(q, 6) == 64 * q;
    assert Shl(q, 7) == 128 * q;
  }

  lemma {:induction false} ByteBound(b: byte)
    ensures b < Pow2(8)
  {
    assert Pow2(4) == 16;
  }

  // ---------- Bits of a number ----------

  /** The low n bits of v, least significant first. */
  function LsbBits(v: nat, n: nat): (r: seq<bool>)
    ensures |r| == n
  {
    if n == 0 then [] else [v % 2 == 1] + LsbBits(v / 2, n - 1)
  }

  /** The low n bits of v, most significant first. */
  function MsbBits(v: nat, n: nat): (r: seq<bool>)
    ensures |r| == n
  {
    if n == 0 then [] else MsbBits(v / 2, n - 1) + [v % 2 == 1]
  }

  lemma {:induction false} LsbBitAt(v: nat, n: nat, i: nat)
    requires i < n
    ensures LsbBits(v, n)[i] == (Shr(v, i) % 2 == 1)
  {
    if i > 0 { LsbBitAt(v / 2, n - 1, i - 1); }
  }

  lemma {:induction false} MsbBitAt(v: nat, n: nat, i: nat)
    requires i < n
    ensures MsbBits(v, n)[i] == (Shr(v, n - 1 - i) % 2 == 1)
  {
    if i < n - 1 { MsbBitAt(v / 2, n - 1, i); }
  }

  /** Two fields written one after the other are one wide field. */
  lemma {:induction false} LsbConcat(a: nat, k: nat, b: nat, n: nat)
    requires a < Pow2(k)
    ensures LsbBits(a + Shl(b, k), k + n) == LsbBits(a, k) + LsbBits(b, n)
  {
    if k > 0 {
      LsbConcat(a / 2, k - 1, b, n);
      assert (a + Shl(b, k)) / 2 == a / 2 + Shl(b, k - 1);
      assert k + n - 1 == k - 1 + n;
    }
  }

  lemma {:induction false} LsbSplit(v: nat, k: nat, n: nat)
    requires k <= n
    ensures LsbBits(v, n) == LsbBits(v, k) + LsbBits(Shr(v, k), n - k)
  {
    if k > 0 { LsbSplit(v / 2, k - 1, n - 1); }
  }

  lemma {:induction false} LowBits(v: nat, q: nat, k: nat)
    requires v >= Shl(q, k)
    ensures LsbBits(v - Shl(q, k), k) == LsbBits(v, k)
  {
    if k > 0 {
      LowBits(v / 2, q, k - 1);
      assert (v - Shl(q, k)) / 2 == v / 2 - Shl(q, k - 1);
    }
  }

  lemma {:induction false} LowByte(v: nat)
    ensures LsbBits(v % 256, 8) == LsbBits(v, 8)
  {
    ShlByte(v / 256);
    LowBits(v, v / 256, 8);
  }

  // ---------- Streams ----------

  /** The first n bytes as the bit stream a DEFLATE reader sees. */
  function BitsTo(s: seq<byte>, n: nat): (r: seq<bool>)
    requires n <= |s|
    ensures |r| == 8 * n
  {
    if n == 0 then [] else BitsTo(s, n - 1) + LsbBits(s[n - 1], 8)
  }

  /** A byte sequence as a bit stream. */
  function BytesToBits(s: seq<byte>): (r: seq<bool>)
    ensures |r| == 8 * |s|
  {
    BitsTo(s, |s|)
  }

  lemma {:induction false} BitsSame(s: seq<byte>, t: seq<byte>, n: nat)
    requires n <= |s| && n <= |t| && forall i :: 0 <= i < n ==> s[i] == t[i]
    ensures BitsTo(s, n) == BitsTo(t, n)
  {
    if n > 0 { BitsSame(s, t, n - 1); }
  }

  lemma {:induction false} BitsToConcat(a: seq<byte>, b: seq<byte>, n: nat)
    requires n <= |b|
    ensures BitsTo(a + b, |a| + n) == BytesToBits(a) + BitsTo(b, n)
  {
    if n == 0 {
      BitsSame(a + b, a, |a|);
    } else {
      BitsToConcat(a, b, n - 1);
      var u, v, w := BytesToBits(a), BitsTo(b, n - 1), LsbBits(b[n - 1], 8);
      assert (u + v) + w == u + (v + w);
    }
  }

  lemma {:induction false} BytesToBitsConcat(a: seq<byte>, b: seq<byte>)
    ensures BytesToBits(a + b) == BytesToBits(a) + BytesToBits(b)
  {
    BitsToConcat(a, b, |b|);
  }

  /** One byte is its eight bits. */
  lemma {:induction false} ByteBits(b: byte)
    ensures BytesToBits([b]) == LsbBits(b, 8)
  {
    assert BitsTo([b], 0) == [];
  }

  // ---------- Reading numbers off a stream ----------

  /** w stands at position pos of the stream. */
  ghost predicate At(bits: seq<bool>, pos: nat, w: seq<bool>)
  {
    pos + |w| <= |bits| && forall i :: 0 <= i < |w| ==> bits[pos + i] == w[i]
  }

  lemma {:induction false} AtSplit(bits: seq<bool>, pos: nat, u: seq<bool>, w: seq<bool>)
    requires At(bits, pos, u + w)
    ensures At(bits, pos, u) && At(bits, pos + |u|, w)
  {
    forall i | 0 <= i < |u|
      ensures bits[pos + i] == u[i]
    {
      assert (u + w)[i] == u[i];
    }
    forall i | 0 <= i < |w|
      ensures bits[pos + |u| + i] == w[i]
    {
      assert (u + w)[|u| + i] == w[i];
    }
  }

  lemma {:induction false} AtJoin(bits: seq<bool>, pos: nat, u: seq<bool>, w: seq<bool>)
    requires At(bits, pos, u) && At(bits, pos + |u|, w)
    ensures At(bits, pos, u + w)
  {
    forall i | 0 <= i < |u + w|
      ensures bits[pos + i] == (u + w)[i]
    {
      if i >= |u| { assert bits[pos + |u| + (i - |u|)] == w[i - |u|]; }
    }
  }

  lemma {:induction false} ByteAtTo(s: seq<byte>, n: nat, i: nat)
    requires i < n <= |s|
    ensures At(BitsTo(s, n), 8 * i, LsbBits(s[i], 8))
  {
    if i < n - 1 { ByteAtTo(s, n - 1, i); }
  }

  /** Byte i stands at bit 8i. */
  lemma {:induction false} ByteAt(s: seq<byte>, bits: seq<bool>, i: nat)
    requires bits == BytesToBits(s) && i < |s|
    ensures At(bits, 8 * i, LsbBits(s[i], 8))
  {
    ByteAtTo(s, |s|, i);
  }

  /** The n-bit number at pos, least significant bit first. */
  function Field(bits: seq<bool>, pos: nat, n: nat): (v: nat)
    requires pos + n <= |bits|
  {
    if n == 0 then 0 else Field(bits, pos, n - 1) + Shl(B2N(bits[pos + n - 1]), n - 1)
  }

  /** The n-bit number at pos, most significant bit first. */
  function MsbField(bits: seq<bool>, pos: nat, n: nat): (v: nat)
    requires pos + n <= |bits|
  {
    if n == 0 then 0 else 2 * MsbField(bits, pos, n - 1) + B2N(bits[pos + n - 1])
  }

  lemma {:induction false} FieldConcat(bits: seq<bool>, pos: nat, n: nat, k: nat)
    requires pos + n + k <= |bits|
    ensures Field(bits, pos, n + k) == Field(bits, pos, n) + Shl(Field(bits, pos + n, k), n)
  {
    if k == 0 {
      ShlZero(n);
    } else {
      FieldConcat(bits, pos, n, k - 1);
      ShlAdd(Field(bits, pos + n, k - 1), Shl(B2N(bits[pos + n + k - 1]), k - 1), n);
      ShlShl(B2N(bits[pos + n + k - 1]), k - 1, n);
    }
  }

  lemma {:induction false} ShlShl(v: nat, j: nat, k: nat)
    ensures Shl(Shl(v, j), k) == Shl(v, j + k)
  {
    if k > 0 { ShlShl(v, j, k - 1); }
  }

  lemma {:induction false} FieldBound(bits: seq<bool>, pos: nat, n: nat)
    requires pos + n <= |bits|
    ensures Field(bits, pos, n) < Pow2(n)
  {
    if n > 0 {
      FieldBound(bits, pos, n - 1);
      ShlZero(n - 1);
      ShlOne(n - 1);
    }
  }

  /** The low k bits of v as a number. */
  function Low(v: nat, k: nat): (r: nat)
  {
    if k == 0 then 0 else v % 2 + 2 * Low(v / 2, k - 1)
  }

  lemma {:induction false} LowStep(v: nat, k: nat)
    ensures Low(v, k + 1) == Low(v, k) + Shl(Shr(v, k) % 2, k)
  {
    if k > 0 { LowStep(v / 2, k - 1); }
  }

  lemma {:induction false} LowAll(v: nat, n: nat)
    requires v < Pow2(n)
    ensures Low(v, n) == v
  {
    if n > 0 { LowAll(v / 2, n - 1); }
  }

  lemma {:induction false} FieldLow(bits: seq<bool>, pos: nat, v: nat, n: nat, k: nat)
    requires At(bits, pos, LsbBits(v, n)) && k <= n
    ensures Field(bits, pos, k) == Low(v, k)
  {
    if k > 0 {
      FieldLow(bits, pos, v, n, k - 1);
      LsbBitAt(v, n, k - 1);
      LowStep(v, k - 1);
    }
  }

  /** A field that was written is read back. */
  lemma {:induction false} FieldWritten(bits: seq<bool>, pos: nat, v: nat, n: nat)
    requires v < Pow2(n) && At(bits, pos, LsbBits(v, n))
    ensures Field(bits, pos, n) == v
  {
    FieldLow(bits, pos, v, n, n);
    LowAll(v, n);
  }

  lemma {:induction false} MsbFieldHigh(bits: seq<bool>, pos: nat, v: nat, n: nat, k: nat)
    requires At(bits, pos, MsbBits(v, n)) && k <= n && v < Pow2(n)
    ensures MsbField(bits, pos, k) == Shr(v, n - k)
  {
    if k == 0 {
      ShrBound(v, 0, n);
    } else {
      MsbFieldHigh(bits, pos, v, n, k - 1);
      MsbBitAt(v, n, k - 1);
      ShrStep(v, n - k);
    }
  }

  lemma {:induction false} MsbFieldWritten(bits: seq<bool>, pos: nat, v: nat, n: nat)
    requires v < Pow2(n) && At(bits, pos, MsbBits(v, n))
    ensures MsbField(bits, pos, n) == v
  {
    MsbFieldHigh(bits, pos, v, n, n);
  }

  lemma {:induction false} AtSnoc(bits: seq<bool>, pos: nat, w: seq<bool>, b: bool)
    requires At(bits, pos, w) && pos + |w| < |bits| && bits[pos + |w|] == b
    ensures At(bits, pos, w + [b])
  {
  }

  /** Conversely, the bits read are the bits of the number read. */
  lemma {:induction false} AtMsbField(bits: seq<bool>, pos: nat, n: nat)
    requires pos + n <= |bits|
    ensures At(bits, pos, MsbBits(MsbField(bits, pos, n), n))
  {
    if n > 0 {
      AtMsbField(bits, pos, n - 1);
      AtSnoc(bits, pos, MsbBits(MsbField(bits, pos, n - 1), n - 1), bits[pos + n - 1]);
    }
  }

  // ---------- Bytes in a byte string ----------

  /** t stands in s at pos. */
  ghost predicate BytesAt(s: seq<byte>, pos: nat, t: seq<byte>)
  {
    pos + |t| <= |s| && forall i :: 0 <= i < |t| ==> s[pos + i] == t[i]
  }

  lemma {:induction false} BytesAtSplit(s: seq<byte>, pos: nat, t: seq<byte>, u: seq<byte>)
    requires BytesAt(s, pos, t + u)
    ensures BytesAt(s, pos, t) && BytesAt(s, pos + |t|, u)
  {
    forall i | 0 <= i < |t|
      ensures s[pos + i] == t[i]
    {
      assert (t + u)[i] == t[i];
    }
    forall i | 0 <= i < |u|
      ensures s[pos + |t| + i] == u[i]
    {
      assert (t + u)[|t| + i] == u[i];
    }
  }

  lemma {:induction false} LastByte(s: seq<byte>, pos: nat, b: byte)
    requires BytesAt(s, pos, [b])
    ensures pos < |s| && s[pos] == b
  {
    assert s[pos + 0] == [b][0];
  }

  lemma {:induction false} BytesAtTail(s: seq<byte>, pos: nat, b: byte, t: seq<byte>)
    requires BytesAt(s, pos, [b] + t)
    ensures pos < |s| && s[pos] == b && BytesAt(s, pos + 1, t)
  {
    BytesAtSplit(s, pos, [b], t);
    LastByte(s, pos, b);
  }
}
