/** The CRC of gzip: the table-driven computation equals the register that is fed
    one bit at a time. */
module Crc32 {
  import opened Bits
  import opened BitIO

  const POLY: nat := 0xEDB88320
  const MASK: nat := 0xFFFFFFFF

  // ---------- Exclusive OR ----------

  lemma {:induction false} XorZero(a: nat)
    ensures BitXor(a, 0) == a
  {
    if a != 0 { XorZero(a / 2); }
  }

  lemma {:induction false} XorComm(a: nat, b: nat)
    ensures BitXor(a, b) == BitXor(b, a)
    decreases a + b
  {
    if a + b > 0 { XorComm(a / 2, b / 2); }
  }

  lemma {:induction false} XorAssoc(a: nat, b: nat, c: nat)
    ensures BitXor(BitXor(a, b), c) == BitXor(a, BitXor(b, c))
    decreases a + b + c
  {
    hide BitXor;
    if a + b + c > 0 {
      XorAssoc(a / 2, b / 2, c / 2);
      XorBit(a, b);
      XorBit(b, c);
      XorBit(BitXor(a, b), c);
      XorBit(a, BitXor(b, c));
    } else {
      XorZero(0);
    }
  }

  /** Two numbers cancel exactly when they are equal. */
  lemma {:induction false} XorSelf(a: nat, b: nat)
    ensures BitXor(a, b) == 0 <==> a == b
    decreases a + b
  {
    if a + b > 0 { XorSelf(a / 2, b / 2); }
  }

  /** On numbers whose bits do not overlap it is addition. */
  lemma {:induction false} XorIsAdd(a: nat, b: nat, k: nat)
    requires a < Pow2(k)
    ensures BitXor(a, Shl(b, k)) == a + Shl(b, k)
  {
    hide BitXor;
    if k == 0 {
      XorComm(0, b);
      XorZero(b);
    } else {
      XorIsAdd(a / 2, b, k - 1);
      XorBit(a, Shl(b, k));
    }
  }

  lemma {:induction false} XorShr(a: nat, b: nat, k: nat)
    ensures Shr(BitXor(a, b), k) == BitXor(Shr(a, k), Shr(b, k))
  {
    if k > 0 {
      XorBit(a, b);
      XorShr(a / 2, b / 2, k - 1);
    }
  }

  // ---------- The register ----------

  /** One step of the reflected register. */
  function Step(c: nat): (r: nat)
  {
    if c % 2 == 1 then BitXor(POLY, c / 2) else c / 2
  }

  function Steps(c: nat, n: nat): (r: nat)
  {
    if n == 0 then c else Step(Steps(c, n - 1))
  }

  /** The register after one bit of input: it shifts, and takes in the polynomial when the bit shifted out differs
      from the input. */
  function FeedBit(c: nat, bit: bool): (r: nat)
  {
    if (c % 2 == 1) != bit then BitXor(POLY, c / 2) else c / 2
  }

  /** The register after n bits of the stream from pos on. */
  function Feed(c: nat, bits: seq<bool>, pos: nat, n: nat): (r: nat)
    requires pos + n <= |bits|
  {
    if n == 0 then c else FeedBit(Feed(c, bits, pos, n - 1), bits[pos + n - 1])
  }

  /** The CRC, one bit at a time. */
  function CrcOf(data: seq<byte>): (r: nat)
  {
    BitXor(Feed(MASK, BytesToBits(data), 0, 8 * |data|), MASK)
  }

  lemma {:induction false} XorSwap(p: nat, a: nat, b: nat)
    ensures BitXor(BitXor(p, a), b) == BitXor(p, BitXor(a, b))
    ensures BitXor(a, BitXor(p, b)) == BitXor(p, BitXor(a, b))
    ensures BitXor(BitXor(p, a), BitXor(p, b)) == BitXor(a, b)
  {
    hide BitXor;
    XorAssoc(p, a, b);
    XorAssoc(a, p, b);
    XorAssoc(p, a, BitXor(p, b));
    XorComm(p, a);
    XorAssoc(p, p, BitXor(a, b));
    XorSelf(p, p);
    XorComm(0, BitXor(a, b));
    XorZero(BitXor(a, b));
  }

  lemma {:induction false} StepLinear(a: nat, b: nat)
    ensures Step(BitXor(a, b)) == BitXor(Step(a), Step(b))
  {
    hide BitXor;
    XorBit(a, b);
    XorSwap(POLY, a / 2, b / 2);
  }

  lemma {:induction false} StepsLinear(a: nat, b: nat, n: nat)
    ensures Steps(BitXor(a, b), n) == BitXor(Steps(a, n), Steps(b, n))
  {
    hide BitXor;
    if n > 0 {
      StepsLinear(a, b, n - 1);
      StepLinear(Steps(a, n - 1), Steps(b, n - 1));
    }
  }

  lemma {:induction false} StepsInner(c: nat, n: nat)
    ensures Steps(Step(c), n) == Steps(c, n + 1)
  {
    hide Step;
    if n > 0 { StepsInner(c, n - 1); }
  }

  /** Bits above the n shifted out come down unchanged. */
  lemma {:induction false} StepsShl(h: nat, n: nat)
    ensures Steps(Shl(h, n), n) == h
  {
    if n > 0 {
      StepsInner(Shl(h, n), n - 1);
      StepsShl(h, n - 1);
    }
  }

  // ---------- A byte at a time ----------

  lemma {:induction false} FeedIsStep(c: nat, bit: bool)
    ensures FeedBit(c, bit) == Step(BitXor(c, B2N(bit)))
  {
    XorBit(c, B2N(bit));
    XorZero(c / 2);
  }

  /** Feeding a field is taking it in at once and stepping. */
  lemma {:induction false} FeedField(c: nat, bits: seq<bool>, pos: nat, n: nat)
    requires pos + n <= |bits|
    ensures Feed(c, bits, pos, n) == Steps(BitXor(c, Field(bits, pos, n)), n)
  {
    hide BitXor, Step;
    if n == 0 {
      XorZero(c);
    } else {
      var k := n - 1;
      var f, b := Field(bits, pos, k), B2N(bits[pos + k]);
      FeedField(c, bits, pos, k);
      FeedIsStep(Feed(c, bits, pos, k), bits[pos + k]);
      StepsShl(b, k);
      StepsLinear(BitXor(c, f), Shl(b, k), k);
      XorAssoc(c, f, Shl(b, k));
      FieldBound(bits, pos, k);
      XorIsAdd(f, b, k);
    }
  }

  lemma {:induction false} FeedSplit(c: nat, bits: seq<bool>, pos: nat, m: nat, n: nat)
    requires pos + m + n <= |bits|
    ensures Feed(c, bits, pos, m + n) == Feed(Feed(c, bits, pos, m), bits, pos + m, n)
  {
    hide FeedBit;
    if n > 0 { FeedSplit(c, bits, pos, m, n - 1); }
  }

  /** The table has the eight steps of every byte; the rest of the register moves down by a byte. */
  lemma {:induction false} TableStep(c: nat, b: byte)
    ensures BitXor(Steps(BitXor(c, b) % 256, 8), c / 256) == Steps(BitXor(c, b), 8)
  {
    hide BitXor, Step, Steps;
    var x := BitXor(c, b);
    ByteBound(x % 256);
    ShlByte(x / 256);
    XorIsAdd(x % 256, x / 256, 8);
    StepsLinear(x % 256, Shl(x / 256, 8), 8);
    StepsShl(x / 256, 8);
    XorShr(c, b, 8);
    ShrByte(x);
    ShrByte(c);
    ShrByte(b);
    XorZero(c / 256);
  }

  lemma {:induction false} StepBound(c: nat)
    requires c < Pow2(32)
    ensures Step(c) < Pow2(32)
  {
    Pow2Of32();
    XorBound(POLY, c / 2, 32);
  }

  lemma {:induction false} Pow2Of32()
    ensures Pow2(32) == 0x1_0000_0000
  {
    assert Pow2(4) == 16;
    assert Pow2(8) == 256;
    assert Pow2(12) == 4096;
    assert Pow2(16) == 65536;
    assert Pow2(20) == 0x10_0000;
    assert Pow2(24) == 0x100_0000;
    assert Pow2(28) == 0x1000_0000;
  }

  lemma {:induction false} StepsBound(c: nat, n: nat)
    requires c < Pow2(32)
    ensures Steps(c, n) < Pow2(32)
  {
    hide Step, Pow2;
    if n > 0 {
      StepsBound(c, n - 1);
      StepBound(Steps(c, n - 1));
    }
  }

  lemma {:induction false} FeedBitBound(c: nat, bit: bool)
    requires c < Pow2(32)
    ensures FeedBit(c, bit) < Pow2(32)
  {
    Pow2Of32();
    XorBound(POLY, c / 2, 32);
  }

  lemma {:induction false} FeedBound(c: nat, bits: seq<bool>, pos: nat, n: nat)
    requires pos + n <= |bits| && c < Pow2(32)
    ensures Feed(c, bits, pos, n) < Pow2(32)
  {
    hide FeedBit, Pow2;
    if n > 0 {
      FeedBound(c, bits, pos, n - 1);
      FeedBitBound(Feed(c, bits, pos, n - 1), bits[pos + n - 1]);
    }
  }

  lemma {:induction false} ByteFed(data: seq<byte>, i: nat)
    requires i < |data|
    ensures Feed(MASK, BytesToBits(data), 0, 8 * (i + 1))
         == Steps(BitXor(Feed(MASK, BytesToBits(data), 0, 8 * i), data[i]), 8)
  {
    hide BytesToBits, Feed, Steps, BitXor, Field;
    var bits := BytesToBits(data);
    FeedSplit(MASK, bits, 0, 8 * i, 8);
    FeedField(Feed(MASK, bits, 0, 8 * i), bits, 8 * i, 8);
    ByteValue(data, bits, i);
  }

  lemma {:induction false} CrcBound(data: seq<byte>)
    ensures CrcOf(data) < Pow2(32)
  {
    hide BitXor, Feed, BytesToBits, Pow2;
    Pow2Of32();
    FeedBound(MASK, BytesToBits(data), 0, 8 * |data|);
    XorBound(Feed(MASK, BytesToBits(data), 0, 8 * |data|), MASK, 32);
  }

  method BuildTable() returns (table: seq<nat>)
    ensures |table| == 256 && forall n :: 0 <= n < 256 ==> table[n] == Steps(n, 8)
  {
    hide Step, Steps, BitXor;
    table := [];
    for n := 0 to 256
      invariant |table| == n && forall k :: 0 <= k < n ==> table[k] == Steps(k, 8)
    {
      var c := EightSteps(n);
      table := table + [c];
    }
  }

  method EightSteps(n: nat) returns (c: nat)
    ensures c == Steps(n, 8)
  {
    hide BitXor;
    c := n;
    for k := 0 to 8
      invariant c == Steps(n, k)
    {
      c := if c % 2 != 0 then BitXor(POLY, c / 2) else c / 2;
    }
  }

  /** A table lookup for each byte computes the register fed bit by bit. */
  method Crc32(data: seq<byte>) returns (r: nat)
    ensures r == CrcOf(data) && r < 0x1_0000_0000
  {
    hide Steps, BitXor, Feed, BytesToBits;
    var table := BuildTable();
    var c := MASK;
    assert Feed(MASK, BytesToBits(data), 0, 0) == MASK by { FeedNone(BytesToBits(data)); }
    for i := 0 to |data|
      invariant c == Feed(MASK, BytesToBits(data), 0, 8 * i)
    {
      ByteFed(data, i);
      TableStep(c, data[i]);
      c := BitXor(table[BitXor(c, data[i]) % 256], c / 256);
    }
    CrcBound(data);
    Pow2Of32();
    r := BitXor(c, MASK);
  }

  lemma {:induction false} FeedNone(bits: seq<bool>)
    ensures Feed(MASK, bits, 0, 0) == MASK
  {
  }

  // ---------- What the CRC detects ----------

  lemma {:induction false} StepInjective(a: nat, b: nat)
    requires a < Pow2(32) && b < Pow2(32) && a != b
    ensures Step(a) != Step(b)
  {
    hide BitXor, Pow2;
    Pow2Of32();
    var d := BitXor(a, b);
    XorBound(a, b, 32);
    XorSelf(a, b);
    StepLinear(a, b);
    XorSelf(Step(a), Step(b));
    XorSelf(POLY, d / 2);
  }

  lemma {:induction false} StepsInjective(a: nat, b: nat, n: nat)
    requires a < Pow2(32) && b < Pow2(32) && a != b
    ensures Steps(a, n) != Steps(b, n)
  {
    hide Step, Pow2;
    if n > 0 {
      StepsInjective(a, b, n - 1);
      StepsBound(a, n - 1);
      StepsBound(b, n - 1);
      StepInjective(Steps(a, n - 1), Steps(b, n - 1));
    }
  }

  lemma {:induction false} FieldSame(s: seq<bool>, t: seq<bool>, pos: nat, n: nat, i: nat)
    requires pos + n <= |s| && pos + n <= |t| && i < n && Field(s, pos, n) == Field(t, pos, n)
    ensures s[pos + i] == t[pos + i]
  {
    FieldBound(s, pos, n - 1);
    FieldBound(t, pos, n - 1);
    ShlOne(n - 1);
    ShlZero(n - 1);
    if i < n - 1 { FieldSame(s, t, pos, n - 1, i); }
  }

  lemma {:induction false} FeedAlike(c: nat, s: seq<bool>, t: seq<bool>, pos: nat, n: nat)
    requires pos + n <= |s| && pos + n <= |t| && forall i :: pos <= i < pos + n ==> s[i] == t[i]
    ensures Feed(c, s, pos, n) == Feed(c, t, pos, n)
  {
    hide FeedBit;
    if n > 0 { FeedAlike(c, s, t, pos, n - 1); }
  }

  /** Registers that differ stay different on the same input. */
  lemma {:induction false} FeedInjective(a: nat, b: nat, bits: seq<bool>, pos: nat, n: nat)
    requires pos + n <= |bits| && a < Pow2(32) && b < Pow2(32) && a != b
    ensures Feed(a, bits, pos, n) != Feed(b, bits, pos, n)
  {
    hide BitXor, Pow2, Feed, Steps, Field;
    var f := Field(bits, pos, n);
    FeedField(a, bits, pos, n);
    FeedField(b, bits, pos, n);
    StepsLinear(a, f, n);
    StepsLinear(b, f, n);
    StepsInjective(a, b, n);
    XorSwap(Steps(f, n), Steps(a, n), Steps(b, n));
    XorComm(Steps(a, n), Steps(f, n));
    XorComm(Steps(b, n), Steps(f, n));
    XorSelf(Steps(a, n), Steps(b, n));
    XorSelf(BitXor(Steps(a, n), Steps(f, n)), BitXor(Steps(b, n), Steps(f, n)));
  }

  lemma {:induction false} FeedWindow(c: nat, s: seq<bool>, t: seq<bool>, pos: nat, w: nat)
    requires c < Pow2(32) && w <= 32 && pos + w <= |s| && pos + w <= |t|
    requires exists i :: pos <= i < pos + w && s[i] != t[i]
    ensures Feed(c, s, pos, w) != Feed(c, t, pos, w)
  {
    hide BitXor, Pow2, Feed, Steps, Field;
    var i :| pos <= i < pos + w && s[i] != t[i];
    var f, g := Field(s, pos, w), Field(t, pos, w);
    if f == g { FieldSame(s, t, pos, w, i - pos); assert false; }
    FieldBound(s, pos, w);
    FieldBound(t, pos, w);
    Pow2Mono(w, 32);
    FeedField(c, s, pos, w);
    FeedField(c, t, pos, w);
    XorBound(c, f, 32);
    XorBound(c, g, 32);
    XorSwap(c, f, g);
    XorSelf(f, g);
    XorSelf(BitXor(c, f), BitXor(c, g));
    StepsInjective(BitXor(c, f), BitXor(c, g), w);
  }

  /** Messages of equal length that differ only within a window of 32 bits have different CRCs. */
  lemma {:induction false} DetectsBursts(a: seq<byte>, b: seq<byte>, pos: nat, w: nat)
    requires |a| == |b| && a != b && w <= 32 && pos + w <= 8 * |a|
    requires forall i :: 0 <= i < 8 * |a| && !(pos <= i < pos + w) ==> BytesToBits(a)[i] == BytesToBits(b)[i]
    ensures CrcOf(a) != CrcOf(b)
  {
    hide BitXor, Pow2, Feed, BytesToBits;
    var s, t, n := BytesToBits(a), BytesToBits(b), 8 * |a|;
    var rest := n - pos - w;
    DifferInWindow(a, b, pos, w);
    FeedAlike(MASK, s, t, 0, pos);
    var c := Feed(MASK, s, 0, pos);
    Pow2Of32();
    FeedBound(MASK, s, 0, pos);
    FeedWindow(c, s, t, pos, w);
    FeedBound(c, s, pos, w);
    FeedBound(c, t, pos, w);
    FeedInjective(Feed(c, s, pos, w), Feed(c, t, pos, w), s, pos + w, rest);
    FeedAlike(Feed(c, t, pos, w), s, t, pos + w, rest);
    FeedSplit(MASK, s, 0, pos, w);
    FeedSplit(MASK, t, 0, pos, w);
    FeedSplit(MASK, s, 0, pos + w, rest);
    FeedSplit(MASK, t, 0, pos + w, rest);
    MaskInjective(Feed(MASK, s, 0, n), Feed(MASK, t, 0, n));
  }

  lemma {:induction false} MaskInjective(a: nat, b: nat)
    requires a != b
    ensures BitXor(a, MASK) != BitXor(b, MASK)
  {
    hide BitXor;
    XorComm(a, MASK);
    XorComm(b, MASK);
    XorSwap(MASK, a, b);
    XorSelf(a, b);
    XorSelf(BitXor(a, MASK), BitXor(b, MASK));
  }

  lemma {:induction false} DifferInWindow(a: seq<byte>, b: seq<byte>, pos: nat, w: nat)
    requires |a| == |b| && a != b && pos + w <= 8 * |a|
    requires forall i :: 0 <= i < 8 * |a| && !(pos <= i < pos + w) ==> BytesToBits(a)[i] == BytesToBits(b)[i]
    ensures exists i :: pos <= i < pos + w && BytesToBits(a)[i] != BytesToBits(b)[i]
  {
    hide BytesToBits;
    var s, t := BytesToBits(a), BytesToBits(b);
    var i := DifferingBit(a, b);
    assert s[i] != t[i];
  }

  lemma {:induction false} DifferingBit(a: seq<byte>, b: seq<byte>) returns (i: nat)
    requires |a| == |b| && a != b
    ensures i < 8 * |a| && BytesToBits(a)[i] != BytesToBits(b)[i]
  {
    hide BytesToBits;
    var s, t := BytesToBits(a), BytesToBits(b);
    var k :| 0 <= k < |a| && a[k] != b[k];
    ByteValue(a, s, k);
    ByteValue(b, t, k);
    i := DifferingFieldBit(s, t, 8 * k, 8);
  }

  lemma {:induction false} DifferingFieldBit(s: seq<bool>, t: seq<bool>, pos: nat, n: nat) returns (i: nat)
    requires pos + n <= |s| && pos + n <= |t| && Field(s, pos, n) != Field(t, pos, n)
    ensures pos <= i < pos + n && s[i] != t[i]
  {
    if s[pos + n - 1] != t[pos + n - 1] {
      i := pos + n - 1;
    } else {
      i := DifferingFieldBit(s, t, pos, n - 1);
    }
  }

  // ---------- A check value ----------

  lemma {:induction false} XorShl(a: nat, b: nat, k: nat)
    ensures BitXor(Shl(a, k), Shl(b, k)) == Shl(BitXor(a, b), k)
  {
    hide BitXor;
    if k > 0 {
      XorShl(a, b, k - 1);
      XorBit(Shl(a, k), Shl(b, k));
    }
  }

  lemma {:induction false} TopByte(v: nat)
    ensures Shl(v, 24) == 0x100_0000 * v
  {
    hide Shl;
    ShlByte(v);
    ShlByte(256 * v);
    ShlByte(0x1_0000 * v);
    ShlShl(v, 8, 8);
    ShlShl(v, 16, 8);
  }

  lemma {:induction false} Pow2Of24()
    ensures Pow2(24) == 0x100_0000
  {
    assert Pow2(8) == 256;
    assert Pow2(16) == 0x1_0000;
  }

  /** The polynomial, seen through the low three bytes and the mask. */
  lemma {:induction false} PolyMasked()
    ensures BitXor(BitXor(POLY, 0xFF_FFFF), MASK) == 0x12B8_8320
  {
    hide BitXor, Shl, Pow2;
    var low, p := 0xFF_FFFF, 0xB8_8320;
    var ed, ff, x := Shl(0xED, 24), Shl(0xFF, 24), Shl(0x12, 24);
    Pow2Of24();
    TopByte(0xED);
    TopByte(0xFF);
    TopByte(0x12);
    XorIsAdd(low, 0xFF, 24);
    XorIsAdd(p, 0xED, 24);
    XorIsAdd(p, 0x12, 24);
    XorAssoc(POLY, low, MASK);
    XorAssoc(low, low, ff);
    XorSelf(low, low);
    XorComm(0, ff);
    XorZero(ff);
    XorAssoc(p, ed, ff);
    XorShl(0xED, 0xFF, 24);
    TwoBytes();
  }

  lemma {:induction false} TwoBytes()
    ensures BitXor(0xED, 0xFF) == 0x12
  {
    hide BitXor;
    XorBit(0xED, 0xFF);
    XorBit(0x76, 0x7F);
    XorBit(0x3B, 0x3F);
    XorBit(0x1D, 0x1F);
    XorBit(0x0E, 0x0F);
    XorSelf(7, 7);
  }

  lemma {:induction false} SevenOnes()
    ensures BytesToBits([0x7F]) == [true, true, true, true, true, true, true, false]
  {
    hide BytesToBits;
    ByteBits(0x7F);
    assert LsbBits(0x7F, 8) == [true, true, true, true, true, true, true, false];
  }

  lemma {:induction false} FeedOne(c: nat)
    requires c % 2 == 1
    ensures FeedBit(c, true) == c / 2 && FeedBit(c, false) == BitXor(POLY, c / 2)
  {
  }

  /** The CRC of the byte 0x7F, which shows the polynomial and the masks. */
  lemma {:induction false} CrcOfByte()
    ensures CrcOf([0x7F]) == 0x12B8_8320
  {
    hide FeedBit, BitXor, BytesToBits;
    SevenOnes();
    var bits := BytesToBits([0x7F]);
    FeedOne(0xFFFF_FFFF);
    FeedOne(0x7FFF_FFFF);
    FeedOne(0x3FFF_FFFF);
    FeedOne(0x1FFF_FFFF);
    FeedOne(0x0FFF_FFFF);
    FeedOne(0x07FF_FFFF);
    FeedOne(0x03FF_FFFF);
    FeedOne(0x01FF_FFFF);
    assert Feed(MASK, bits, 0, 2) == 0x3FFF_FFFF;
    assert Feed(MASK, bits, 0, 4) == 0x0FFF_FFFF;
    assert Feed(MASK, bits, 0, 6) == 0x03FF_FFFF;
    assert Feed(MASK, bits, 0, 7) == 0x01FF_FFFF;
    PolyMasked();
  }
}
