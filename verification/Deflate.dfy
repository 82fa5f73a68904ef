/** Stored blocks, and the compressor that takes the smallest of its encodings. */
module Deflate {
  import opened Bits
  import opened BitIO
  import opened Lz77
  import opened Inflate
  import opened TokenCode
  import opened Dynamic
  import opened FixedBlock

  const STORED_MAX: nat := 0xFFFF

  // ---------- Stored blocks ----------

  /** The header of a stored block of n bytes: the final flag, the length and its complement, both little-endian. */
  function StoredHeader(final: bool, n: nat): (h: seq<byte>)
    requires n <= STORED_MAX
    ensures |h| == 5
  {
    var len, inv := n, 0xFFFF - n;
    [if final then 1 else 0, len % 256, len / 256, inv % 256, inv / 256]
  }

  function ChunkLen(d: seq<byte>, i: nat): (n: nat)
    requires i <= |d|
    ensures n <= STORED_MAX && i + n <= |d| && (i < |d| ==> n > 0)
  {
    Min(STORED_MAX, |d| - i)
  }

  /** The stored blocks for the bytes from i on. */
  function StoredFrom(d: seq<byte>, i: nat): (c: seq<byte>)
    requires i <= |d|
    decreases |d| - i, d
  {
    var n := ChunkLen(d, i);
    var block := StoredHeader(i + n == |d|, n) + d[i..i + n];
    if i + n == |d| then block else block + StoredFrom(d, i + n)
  }

  lemma {:induction false} FlagBits(c: seq<byte>, bits: seq<bool>, p: nat)
    requires bits == BytesToBits(c) && p < |c| && c[p] <= 1
    ensures ReadField(bits, 8 * p, 1) == Ok(c[p]) && ReadField(bits, 8 * p + 1, 2) == Ok(0)
  {
    hide At, BytesToBits, ReadField;
    var b := c[p];
    ByteAt(c, bits, p);
    assert LsbBits(b, 8) == LsbBits(b, 1) + (LsbBits(0, 2) + LsbBits(0, 5)) by {
      LsbSplit(b, 1, 8);
      LsbSplit(0, 2, 7);
    }
    AtSplit(bits, 8 * p, LsbBits(b, 1), LsbBits(0, 2) + LsbBits(0, 5));
    AtSplit(bits, 8 * p + 1, LsbBits(0, 2), LsbBits(0, 5));
    FieldBack(bits, 8 * p, b, 1);
    FieldBack(bits, 8 * p + 1, 0, 2);
  }

  lemma {:induction false} TwoBytesRead(c: seq<byte>, bits: seq<bool>, p: nat, v: nat)
    requires bits == BytesToBits(c) && p + 2 <= |c| && v <= 0xFFFF && c[p] == v % 256 && c[p + 1] == v / 256
    ensures ReadField(bits, 8 * p, 16) == Ok(v)
  {
    hide BytesToBits, BitOr;
    ByteBound(c[p]);
    TwoBytesAt(c, bits, p);
    OrIsAdd(c[p], c[p + 1], 8);
    ShlByte(c[p + 1]);
  }

  /** One stored block is read back. */
  lemma {:induction false} StoredBlockBack(c: seq<byte>, bits: seq<bool>, p: nat, final: bool, s: seq<byte>,
      out: seq<byte>, max: nat)
    requires bits == BytesToBits(c) && |s| <= STORED_MAX
    requires BytesAt(c, p, StoredHeader(final, |s|)) && BytesAt(c, p + 5, s)
    requires |out| + |s| <= max
    ensures NextBlock(c, bits, 8 * p, out, max) == Ok(((final, out + s), 8 * (p + 5 + |s|)))
  {
    hide BytesToBits, ReadField;
    var h, len, inv := StoredHeader(final, |s|), |s|, 0xFFFF - |s|;
    assert c[p] == h[0] && c[p + 1] == h[1] && c[p + 2] == h[2] && c[p + 3] == h[3] && c[p + 4] == h[4];
    FlagBits(c, bits, p);
    TwoBytesRead(c, bits, p + 1, len);
    TwoBytesRead(c, bits, p + 3, inv);
    assert c[p + 5..p + 5 + len] == s;
    assert Stored(c, bits, 8 * (p + 1), out, max) == Ok((out + s, 8 * (p + 5 + |s|)));
    assert RoundUp8(8 * p + 3) == 8 * (p + 1);
  }

  lemma {:induction false} BlocksStep(c: seq<byte>, bits: seq<bool>, pos: nat, out: seq<byte>, max: nat, final: bool,
      out': seq<byte>, p: nat)
    requires |bits| == 8 * |c| && NextBlock(c, bits, pos, out, max) == Ok(((final, out'), p))
    ensures Blocks(c, bits, pos, out, max) == if final then Ok((out', p)) else Blocks(c, bits, p, out', max)
  {
    hide NextBlock;
  }

  lemma {:induction false} StoredBack(c: seq<byte>, bits: seq<bool>, p: nat, d: seq<byte>, i: nat, max: nat)
    requires bits == BytesToBits(c) && i <= |d| <= max && BytesAt(c, p, StoredFrom(d, i))
    ensures Blocks(c, bits, 8 * p, d[..i], max) == Ok((d, 8 * (p + |StoredFrom(d, i)|)))
    decreases |d| - i
  {
    hide BytesToBits, BytesAt, Blocks, NextBlock, StoredHeader, ChunkLen;
    var n := ChunkLen(d, i);
    var s, final := d[i..i + n], i + n == |d|;
    var h := StoredHeader(final, n);
    if !final { BytesAtSplit(c, p, h + s, StoredFrom(d, i + n)); }
    BytesAtSplit(c, p, h, s);
    assert d[..i] + s == d[..i + n];
    StoredBlockBack(c, bits, p, final, s, d[..i], max);
    BlocksStep(c, bits, 8 * p, d[..i], max, final, d[..i + n], 8 * (p + 5 + n));
    if final {
      assert d[..i + n] == d;
    } else {
      StoredBack(c, bits, p + 5 + n, d, i + n, max);
    }
  }

  lemma {:induction false} StoredDecompresses(d: seq<byte>)
    ensures Decompresses(StoredFrom(d, 0), d)
  {
    hide BytesToBits, Blocks, StoredFrom;
    var c := StoredFrom(d, 0);
    forall tail: seq<byte>, max: nat | max >= |d|
      ensures Inflated(c + tail, max) == Ok((d, |c|))
    {
      assert d[..0] == [];
      StoredBack(c + tail, BytesToBits(c + tail), 0, d, 0, max);
    }
  }

  /** How many stored blocks n bytes need; one when there are none. */
  function StoredBlocks(n: nat): (k: nat)
  {
    if n <= STORED_MAX then 1 else 1 + StoredBlocks(n - STORED_MAX)
  }

  /** Blocks of 65535 bytes, the last one of the rest. */
  lemma {:induction false} StoredBlocksIs(n: nat)
    ensures StoredBlocks(n) == if n == 0 then 1 else (n + 65534) / 65535
  {
    if n > STORED_MAX { StoredBlocksIs(n - STORED_MAX); }
  }

  lemma {:induction false} StoredLength(d: seq<byte>, i: nat)
    requires i <= |d|
    ensures |StoredFrom(d, i)| == |d| - i + 5 * StoredBlocks(|d| - i)
    decreases |d| - i
  {
    hide StoredHeader;
    if i + ChunkLen(d, i) < |d| { StoredLength(d, i + ChunkLen(d, i)); }
  }

  /** Five bytes for each block of at most 65535 bytes. */
  method DeflateStored(data: seq<byte>) returns (c: seq<byte>)
    ensures Decompresses(c, data) && c == StoredFrom(data, 0) && |c| == |data| + 5 * StoredBlocks(|data|)
  {
    hide Decompresses, StoredHeader, StoredFrom;
    StoredDecompresses(data);
    StoredLength(data, 0);
    c := [];
    if |data| == 0 {
      StoredNothing(data);
      return [0x01, 0x00, 0x00, 0xFF, 0xFF];
    }
    var i := 0;
    while i < |data|
      invariant 0 <= i <= |data|
      invariant if i < |data| then c + StoredFrom(data, i) == StoredFrom(data, 0) else c == StoredFrom(data, 0)
    {
      var n := ChunkLen(data, i);
      StoredStep(c, data, i, n);
      c := c + StoredHeader(i + n == |data|, n);
      c := c + data[i..i + n];
      i := i + n;
    }
  }

  lemma {:induction false} StoredNothing(d: seq<byte>)
    requires d == []
    ensures StoredFrom(d, 0) == [0x01, 0x00, 0x00, 0xFF, 0xFF]
  {
  }

  /** One block more. */
  lemma {:induction false} StoredStep(c: seq<byte>, d: seq<byte>, i: nat, n: nat)
    requires i <= |d| && n == ChunkLen(d, i)
    ensures var c' := (c + StoredHeader(i + n == |d|, n)) + d[i..i + n];
            c + StoredFrom(d, i) == if i + n == |d| then c' else c' + StoredFrom(d, i + n)
  {
    hide StoredHeader, ChunkLen;
    var h, s := StoredHeader(i + n == |d|, n), d[i..i + n];
    assert (c + h) + s == c + (h + s);
    if i + n < |d| {
      var rest := StoredFrom(d, i + n);
      assert (c + (h + s)) + rest == c + ((h + s) + rest);
    }
  }

  // ---------- The smallest encoding ----------

  /** The stored blocks if they are shorter than both others, else the dynamic block unless the fixed one is shorter. */
  function Best(stored: seq<byte>, dynamic: seq<byte>, fixed: seq<byte>): (best: seq<byte>)
    ensures best in [stored, dynamic, fixed]
    ensures |best| <= |stored| && |best| <= |dynamic| && |best| <= |fixed|
  {
    if |stored| < |dynamic| && |stored| < |fixed| then stored
    else if |dynamic| <= |fixed| then dynamic
    else fixed
  }

  /** c is the best encoding of the data. */
  ghost predicate IsBest(c: seq<byte>, data: seq<byte>)
  {
    exists dynamic, fixed :: IsDynamic(dynamic, data) && IsFixed(fixed, data)
      && c == Best(StoredFrom(data, 0), dynamic, fixed)
  }

  /** The shortest of the three encodings; among equals the dynamic one, then the fixed one. */
  method DeflateBest(data: seq<byte>) returns (best: seq<byte>)
    ensures Decompresses(best, data) && IsBest(best, data)
    ensures |best| <= |data| + 5 * StoredBlocks(|data|)
  {
    hide Decompresses, IsDynamic, IsFixed, StoredFrom;
    var d := DeflateDynamic(data);
    var f := DeflateFixed(data);
    best := if |d| <= |f| then d else f;
    var s := DeflateStored(data);
    if |s| < |best| {
      best := s;
    }
    assert best == Best(StoredFrom(data, 0), d, f);
  }
}
