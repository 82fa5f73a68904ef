/** The DEFLATE decompressor: block decoding on a bit stream, and the methods
    that carry it out on a bit reader. */
module Inflate {
  import opened Bits
  import opened BitIO
  import opened Huffman
  import opened DeflateTables

  // ---------- Specification on the stream ----------

  /** n copies of v. */
  function Repeat(v: nat, n: nat): (r: seq<nat>)
    ensures |r| == n && forall i :: 0 <= i < n ==> r[i] == v
  {
    seq(n, _ => v)
  }

  /** The code length code lengths after the first n have been read. */
  function ClLens(bits: seq<bool>, pos: nat, n: nat): (r: Result<seq<nat>>)
    requires n <= 19
    ensures r.Ok? ==> |r.value| == 19
  {
    if n == 0 then Ok(Repeat(0, 19))
    else
      var lens :- ClLens(bits, pos, n - 1);
      var v :- ReadField(bits, pos + 3 * (n - 1), 3);
      Ok(lens[ClOrder(n - 1) := v])
  }

  /** What a code length symbol adds to the lengths so far: the new lengths and the position after it. */
  function AddLens(sym: nat, bits: seq<bool>, pos: nat, acc: seq<nat>, total: nat): (r: Result<(seq<nat>, nat)>)
    ensures r.Ok? ==> pos <= r.value.1 && |acc| < |r.value.0|
    ensures r.Ok? && sym > 15 ==> |r.value.0| <= total && r.value.1 <= |bits|
    ensures r.Ok? && sym <= 15 ==> r.value.1 == pos && |r.value.0| == |acc| + 1
  {
    if sym <= 15 then Ok((acc + [sym], pos))
    else if sym == 16 then
      if acc == [] then Err(InvalidHuffmanCode)
      else
        var n :- ReadField(bits, pos, 2);
        if |acc| + n + 3 > total then Err(InvalidHuffmanCode)
        else Ok((acc + Repeat(acc[|acc| - 1], n + 3), pos + 2))
    else if sym == 17 then
      var n :- ReadField(bits, pos, 3);
      if |acc| + n + 3 > total then Err(InvalidHuffmanCode) else Ok((acc + Repeat(0, n + 3), pos + 3))
    else if sym == 18 then
      var n :- ReadField(bits, pos, 7);
      if |acc| + n + 11 > total then Err(InvalidHuffmanCode) else Ok((acc + Repeat(0, n + 11), pos + 7))
    else Err(InvalidHuffmanCode)
  }

  /** The run-length coded lengths, read until there are `total` of them. */
  function Lens(cl: seq<nat>, bits: seq<bool>, pos: nat, acc: seq<nat>, total: nat): (r: Result<(seq<nat>, nat)>)
    requires |acc| <= total
    ensures r.Ok? ==> |r.value.0| == total && pos <= r.value.1
    decreases total - |acc|, bits
  {
    if |acc| >= total then Ok((acc, pos))
    else
      var (sym, p) :- Decode(cl, bits, pos);
      var (acc', p') :- AddLens(sym, bits, p, acc, total);
      Lens(cl, bits, p', acc', total)
  }

  /** The numbers of literal/length, distance and code length codes. */
  function Counts(bits: seq<bool>, pos: nat): (r: Result<((nat, nat, nat), nat)>)
    ensures r.Ok? ==> pos <= r.value.1 && r.value.0.2 <= 19
  {
    var hlit :- ReadField(bits, pos, 5);
    var hdist :- ReadField(bits, pos + 5, 5);
    var hclen :- ReadField(bits, pos + 10, 4);
    SmallField(bits, pos + 10, hclen);
    Ok(((hlit + 257, hdist + 1, hclen + 4), pos + 14))
  }

  lemma {:induction false} SmallField(bits: seq<bool>, pos: nat, v: nat)
    requires ReadField(bits, pos, 4) == Ok(v)
    ensures v < 16
  {
    FieldBound(bits, pos, 4);
    Pow2Values();
  }

  /** All code lengths, read with the code length code sent before them. */
  function AllLens(bits: seq<bool>, pos: nat, hclen: nat, total: nat): (r: Result<(seq<nat>, nat)>)
    requires hclen <= 19
    ensures r.Ok? ==> |r.value.0| == total && pos <= r.value.1
  {
    var cl :- ClLens(bits, pos, hclen);
    Lens(cl, bits, pos + 3 * hclen, [], total)
  }

  /** The header of a dynamic block: literal/length and distance code lengths, and where the data start. */
  function Header(bits: seq<bool>, pos: nat): (r: Result<((seq<nat>, seq<nat>), nat)>)
    ensures r.Ok? ==> pos <= r.value.1
  {
    var ((hlit, hdist, hclen), p) :- Counts(bits, pos);
    var (all, p') :- AllLens(bits, p, hclen, hlit + hdist);
    Ok(((all[..hlit], all[hlit..]), p'))
  }

  /** n bytes copied from dist back, byte by byte, so that a copy may read what it has just written. */
  function Copy(out: seq<byte>, dist: nat, n: nat): (r: seq<byte>)
    requires 1 <= dist <= |out|
    ensures |r| == |out| + n
  {
    if n == 0 then out
    else
      var o := Copy(out, dist, n - 1);
      o + [o[|o| - dist]]
  }

  /** The output stays, and every byte after it equals the one dist before it. */
  lemma {:induction false} CopyRepeats(out: seq<byte>, dist: nat, n: nat)
    requires 1 <= dist <= |out|
    ensures var r := Copy(out, dist, n);
            r[..|out|] == out && forall k :: |out| <= k < |out| + n ==> r[k] == r[k - dist]
  {
    if n > 0 {
      CopyRepeats(out, dist, n - 1);
      var r, o := Copy(out, dist, n), Copy(out, dist, n - 1);
      assert r == o + [o[|o| - dist]] && r[..|out|] == o[..|out|];
      forall k | |out| <= k < |out| + n
        ensures r[k] == r[k - dist]
      {
        if k < |o| { assert o[k] == o[k - dist]; }
      }
    }
  }

  /** Length and distance that follow length code c, and the position after them. */
  function MatchAt(c: nat, bits: seq<bool>, pos: nat, dist: seq<nat>): (r: Result<((nat, nat), nat)>)
    requires c < 29
    ensures r.Ok? ==> pos < r.value.1 <= |bits| && r.value.0.1 >= 1
  {
    var lx :- ReadField(bits, pos, LengthExtra(c));
    var (d, p) :- Decode(dist, bits, pos + LengthExtra(c));
    if d >= 30 then Err(InvalidDistanceCode)
    else
      var dx :- ReadField(bits, p, DistExtra(d));
      Ok(((LengthBase(c) + lx, DistBase(d) + dx), p + DistExtra(d)))
  }

  /** The output of a compressed block and the position after it. */
  function Block(bits: seq<bool>, pos: nat, out: seq<byte>, lit: seq<nat>, dist: seq<nat>,
      max: nat): (r: Result<(seq<byte>, nat)>)
    ensures r.Ok? ==> pos <= r.value.1 <= |bits| && |out| <= |r.value.0| <= max
    decreases |bits| - pos, bits
  {
    if |out| > max then Err(OutputTooLarge)
    else
      var (sym, p) :- Decode(lit, bits, pos);
      if sym < 256 then Block(bits, p, out + [sym], lit, dist, max)
      else if sym == 256 then Ok((out, p))
      else if sym - 257 >= 29 then Err(InvalidLengthCode)
      else
        var ((len, d), p') :- MatchAt(sym - 257, bits, p, dist);
        if d > |out| then Err(DistanceTooFar)
        else if |out| + len > max then Err(OutputTooLarge)
        else Block(bits, p', Copy(out, d, len), lit, dist, max)
  }

  /** A stored block at a byte boundary. */
  function Stored(data: seq<byte>, bits: seq<bool>, pos: nat, out: seq<byte>, max: nat): (r: Result<(seq<byte>, nat)>)
    requires pos % 8 == 0 && |bits| == 8 * |data|
    ensures r.Ok? ==> pos <= r.value.1 <= |bits| && (|out| <= max ==> |r.value.0| <= max) && |out| <= |r.value.0|
  {
    var len :- ReadField(bits, pos, 16);
    var nlen :- ReadField(bits, pos + 16, 16);
    if len + nlen != 0xFFFF then Err(InvalidStoredLen)
    else
      var p := pos / 8 + 4;
      if p + len > |data| then Err(UnexpectedEnd)
      else if |out| + len > max then Err(OutputTooLarge)
      else Ok((out + data[p..p + len], pos + 32 + 8 * len))
  }

  /** One block whose header has been read: the type selects how it is decoded. */
  function BlockOfType(btype: nat, data: seq<byte>, bits: seq<bool>, pos: nat, out: seq<byte>,
      max: nat): (r: Result<(seq<byte>, nat)>)
    requires |bits| == 8 * |data|
    ensures r.Ok? ==> pos <= r.value.1 <= |bits| && (|out| <= max ==> |r.value.0| <= max) && |out| <= |r.value.0|
  {
    if btype == 0 then Stored(data, bits, RoundUp8(pos), out, max)
    else if btype == 1 then Block(bits, pos, out, FixedLit(), FixedDist(), max)
    else if btype == 2 then
      var ((lit, dist), p) :- Header(bits, pos);
      Block(bits, p, out, lit, dist, max)
    else Err(InvalidBlockType)
  }

  /** The next block: whether it is the final one, the output after it, and the position after it. */
  function NextBlock(data: seq<byte>, bits: seq<bool>, pos: nat, out: seq<byte>,
      max: nat): (r: Result<((bool, seq<byte>), nat)>)
    requires |bits| == 8 * |data|
    ensures r.Ok? ==> pos < r.value.1 <= |bits| && (|out| <= max ==> |r.value.0.1| <= max)
  {
    var bfinal :- ReadField(bits, pos, 1);
    var btype :- ReadField(bits, pos + 1, 2);
    var (out', p) :- BlockOfType(btype, data, bits, pos + 3, out, max);
    Ok(((bfinal != 0, out'), p))
  }

  /** The blocks up to and including the final one. */
  function Blocks(data: seq<byte>, bits: seq<bool>, pos: nat, out: seq<byte>, max: nat): (r: Result<(seq<byte>, nat)>)
    requires |bits| == 8 * |data|
    ensures r.Ok? ==> pos <= r.value.1 <= |bits| && (|out| <= max ==> |r.value.0| <= max)
    decreases |bits| - pos, data
  {
    var ((final, out'), p) :- NextBlock(data, bits, pos, out, max);
    if final then Ok((out', p)) else Blocks(data, bits, p, out', max)
  }

  /** Decompression: the output and the number of bytes consumed. The output never exceeds the limit and
      no more than the input is consumed. */
  function Inflated(data: seq<byte>, max: nat): (r: Result<(seq<byte>, nat)>)
    ensures r.Ok? ==> |r.value.0| <= max && r.value.1 <= |data|
  {
    var (out, p) :- Blocks(data, BytesToBits(data), 0, [], max);
    Ok((out, RoundUp8(p) / 8))
  }

  // ---------- Fixed code lengths ----------

  function FixedLitLen(s: nat): (l: nat)
  {
    if s < 144 then 8 else if s < 256 then 9 else if s < 280 then 7 else 8
  }

  function FixedLit(): (r: seq<nat>)
    ensures |r| == 288 && forall s :: 0 <= s < 288 ==> r[s] == FixedLitLen(s)
  {
    seq(288, s requires 0 <= s => FixedLitLen(s))
  }

  function FixedDist(): (r: seq<nat>)
    ensures |r| == 30 && forall s :: 0 <= s < 30 ==> r[s] == 5
  {
    seq(30, _ => 5)
  }

  // ---------- The decoder on a bit reader ----------

  lemma {:induction false} FieldSmall(bits: seq<bool>, pos: nat, n: nat, v: nat)
    requires ReadField(bits, pos, n) == Ok(v)
    ensures v < Pow2(n)
  {
    FieldBound(bits, pos, n);
  }

  method ReadClLens(br: BitReader, n: nat) returns (r: Result<seq<nat>>)
    requires br.Valid() && n <= 19
    modifies br
    ensures br.Valid()
    ensures r == ClLens(br.bits, old(br.Pos()), n)
    ensures r.Ok? ==> br.Pos() == old(br.Pos()) + 3 * n && Bounded(r.value, 15)
  {
    hide ClOrder, Pow2;
    var lens: seq<nat> := Repeat(0, 19);
    ghost var p0 := br.Pos();
    for i := 0 to n
      invariant br.Valid() && br.Pos() == p0 + 3 * i
      invariant |lens| == 19 && Bounded(lens, 15) && ClLens(br.bits, p0, i) == Ok(lens)
    {
      var rd := br.ReadBits(3);
      if rd.Err? {
        ClLensFail(br.bits, p0, i, n);
        return Err(rd.error);
      }
      FieldSmall(br.bits, p0 + 3 * i, 3, rd.value);
      Pow2Values();
      lens := lens[ClOrder(i) := rd.value];
    }
    r := Ok(lens);
  }

  lemma {:induction false} ClLensFail(bits: seq<bool>, pos: nat, i: nat, n: nat)
    requires i < n <= 19 && ClLens(bits, pos, i).Ok? && ReadField(bits, pos + 3 * i, 3).Err?
    ensures ClLens(bits, pos, n) == Err(UnexpectedEnd)
  {
    if i < n - 1 { ClLensFail(bits, pos, i, n - 1); }
  }

  method ReadAddLens(sym: nat, br: BitReader, acc: seq<nat>, total: nat) returns (r: Result<seq<nat>>)
    requires br.Valid() && |acc| < total && Bounded(acc, 15)
    modifies br
    ensures br.Valid()
    ensures Agrees(r, br.Pos(), AddLens(sym, br.bits, old(br.Pos()), acc, total))
    ensures r.Ok? ==> |acc| < |r.value| <= total && Bounded(r.value, 15)
  {
    hide Field, Repeat;
    var v, more := 0, 0;
    if sym <= 15 {
      return Ok(acc + [sym]);
    } else if sym == 16 {
      if acc == [] { return Err(InvalidHuffmanCode); }
      v := acc[|acc| - 1];
      var n :- br.ReadBits(2);
      more := n + 3;
    } else if sym == 17 {
      var n :- br.ReadBits(3);
      more := n + 3;
    } else if sym == 18 {
      var n :- br.ReadBits(7);
      more := n + 11;
    } else {
      return Err(InvalidHuffmanCode);
    }
    r := Extend(acc, v, more, total);
  }

  /** Appends the copies one by one until they are all there or the lengths are full. */
  method Extend(acc: seq<nat>, v: nat, more: nat, total: nat) returns (r: Result<seq<nat>>)
    requires |acc| <= total
    ensures r == if |acc| + more > total then Err(InvalidHuffmanCode) else Ok(acc + Repeat(v, more))
  {
    var lens := acc;
    for i := 0 to more
      invariant |acc| + i <= total && lens == acc + Repeat(v, i)
    {
      if |lens| >= total { return Err(InvalidHuffmanCode); }
      lens := lens + [v];
    }
    r := Ok(lens);
  }

  method ReadLens(cl: HuffmanTable, ghost clLens: seq<nat>, br: BitReader, total: nat) returns (r: Result<seq<nat>>)
    requires IsTableOf(cl, clLens) && br.Valid()
    modifies br
    ensures br.Valid()
    ensures Agrees(r, br.Pos(), Lens(clLens, br.bits, old(br.Pos()), [], total))
    ensures r.Ok? ==> |r.value| == total && Bounded(r.value, 15)
  {
    var acc: seq<nat> := [];
    ghost var spec := Lens(clLens, br.bits, br.Pos(), [], total);
    while |acc| < total
      invariant br.Valid() && |acc| <= total && Bounded(acc, 15)
      invariant spec == Lens(clLens, br.bits, br.Pos(), acc, total)
      decreases total - |acc|
    {
      var sym :- DecodeSymbol(cl, br, clLens);
      acc :- ReadAddLens(sym, br, acc, total);
    }
    r := Ok(acc);
  }

  method ReadCounts(br: BitReader) returns (r: Result<(nat, nat, nat)>)
    requires br.Valid()
    modifies br
    ensures br.Valid()
    ensures Agrees(r, br.Pos(), Counts(br.bits, old(br.Pos())))
  {
    var hlit :- br.ReadBits(5);
    var hdist :- br.ReadBits(5);
    var hclen :- br.ReadBits(4);
    r := Ok((hlit + 257, hdist + 1, hclen + 4));
  }

  method ReadAllLens(br: BitReader, hclen: nat, total: nat) returns (r: Result<seq<nat>>)
    requires br.Valid() && hclen <= 19
    modifies br
    ensures br.Valid()
    ensures Agrees(r, br.Pos(), AllLens(br.bits, old(br.Pos()), hclen, total))
    ensures r.Ok? ==> Bounded(r.value, 15)
  {
    var cl :- ReadClLens(br, hclen);
    var clTable := FromLengths(cl);
    r := ReadLens(clTable.value, cl, br, total);
  }

  /** The two tables of a dynamic block. */
  method ReadDynamicTables(br: BitReader) returns (r: Result<(HuffmanTable, HuffmanTable)>,
      ghost lens: (seq<nat>, seq<nat>))
    requires br.Valid()
    modifies br
    ensures br.Valid()
    ensures r.Err? ==> Header(br.bits, old(br.Pos())) == Err(r.error)
    ensures r.Ok? ==> Header(br.bits, old(br.Pos())) == Ok((lens, br.Pos()))
    ensures r.Ok? ==> IsTableOf(r.value.0, lens.0) && IsTableOf(r.value.1, lens.1)
  {
    lens := ([], []);
    var counts := ReadCounts(br);
    if counts.Err? { return Err(counts.error), lens; }
    var (hlit, hdist, hclen) := counts.value;
    var all := ReadAllLens(br, hclen, hlit + hdist);
    if all.Err? { return Err(all.error), lens; }
    lens := (all.value[..hlit], all.value[hlit..]);
    r := TwoTables(all.value[..hlit], all.value[hlit..]);
  }

  method TwoTables(lit: seq<nat>, dist: seq<nat>) returns (r: Result<(HuffmanTable, HuffmanTable)>)
    requires Bounded(lit, 15) && Bounded(dist, 15)
    ensures r.Ok? && IsTableOf(r.value.0, lit) && IsTableOf(r.value.1, dist)
  {
    var litTable := FromLengths(lit);
    var distTable := FromLengths(dist);
    r := Ok((litTable.value, distTable.value));
  }

  method CopyMatch(out: seq<byte>, dist: nat, len: nat, max: nat) returns (r: Result<seq<byte>>)
    requires 1 <= dist <= |out| <= max
    ensures r == if |out| + len > max then Err(OutputTooLarge) else Ok(Copy(out, dist, len))
  {
    var o := out;
    var start := |out| - dist;
    for i := 0 to len
      invariant |out| + i <= max && o == Copy(out, dist, i)
    {
      var b := o[start + i];
      o := o + [b];
      if |o| > max { return Err(OutputTooLarge); }
    }
    r := Ok(o);
  }

  method ReadMatch(c: nat, br: BitReader, dist: HuffmanTable, ghost distLens: seq<nat>) returns (r: Result<(nat, nat)>)
    requires c < 29 && br.Valid() && IsTableOf(dist, distLens)
    modifies br
    ensures br.Valid()
    ensures Agrees(r, br.Pos(), MatchAt(c, br.bits, old(br.Pos()), distLens))
  {
    hide Decode, ReadField, LengthBase, DistBase, LengthExtra, DistExtra, IsTableOf;
    var lx :- br.ReadBits(LengthExtra(c));
    var d :- DecodeSymbol(dist, br, distLens);
    if d >= 30 {
      return Err(InvalidDistanceCode);
    }
    var dx :- br.ReadBits(DistExtra(d));
    r := Ok((LengthBase(c) + lx, DistBase(d) + dx));
  }

  /** Decodes symbols until the end-of-block symbol; it copies only from bytes already produced. */
  method DecompressBlock(br: BitReader, start: seq<byte>, lit: HuffmanTable, dist: HuffmanTable, max: nat,
      ghost litLens: seq<nat>, ghost distLens: seq<nat>) returns (r: Result<seq<byte>>)
    requires br.Valid() && IsTableOf(lit, litLens) && IsTableOf(dist, distLens)
    modifies br
    ensures br.Valid()
    ensures Agrees(r, br.Pos(), Block(br.bits, old(br.Pos()), start, litLens, distLens, max))
  {
    var out := start;
    ghost var spec := Block(br.bits, br.Pos(), start, litLens, distLens, max);
    while true
      invariant br.Valid()
      invariant spec == Block(br.bits, br.Pos(), out, litLens, distLens, max)
      decreases |br.bits| - br.Pos()
    {
      if |out| > max {
        return Err(OutputTooLarge);
      }
      var sym :- DecodeSymbol(lit, br, litLens);
      if sym < 256 {
        out := out + [sym];
      } else if sym == 256 {
        return Ok(out);
      } else {
        var code := sym - 257;
        if code >= 29 {
          return Err(InvalidLengthCode);
        }
        var m :- ReadMatch(code, br, dist, distLens);
        if m.1 > |out| {
          return Err(DistanceTooFar);
        }
        out :- CopyMatch(out, m.1, m.0, max);
      }
    }
  }

  method InflateStored(br: BitReader, out: seq<byte>, max: nat) returns (r: Result<seq<byte>>)
    requires br.Valid()
    modifies br
    ensures br.Valid()
    ensures Agrees(r, br.Pos(), Stored(br.data, br.bits, RoundUp8(old(br.Pos())), out, max))
  {
    hide BitXor;
    br.AlignToByte();
    ghost var p := br.Pos();
    var len :- br.ReadAlignedU16Le();
    var nlen :- br.ReadAlignedU16Le();
    StoredLengths(br.bits, p, len, nlen);
    if BitXor(len, nlen) != 0xFFFF {
      return Err(InvalidStoredLen);
    }
    var bytes :- br.ReadAlignedBytes(len);
    if |out| + |bytes| > max {
      return Err(OutputTooLarge);
    }
    r := Ok(out + bytes);
  }

  lemma {:induction false} StoredLengths(bits: seq<bool>, pos: nat, len: nat, nlen: nat)
    requires ReadField(bits, pos, 16) == Ok(len) && ReadField(bits, pos + 16, 16) == Ok(nlen)
    ensures BitXor(len, nlen) == 0xFFFF <==> len + nlen == 0xFFFF
  {
    hide BitXor, Field;
    FieldBound(bits, pos, 16);
    FieldBound(bits, pos + 16, 16);
    Complement(len, nlen);
  }

  lemma {:induction false} ComplementTo(a: nat, b: nat, n: nat)
    requires a < Pow2(n) && b < Pow2(n)
    ensures BitXor(a, b) == Pow2(n) - 1 <==> a + b == Pow2(n) - 1
  {
    hide BitXor;
    XorBit(a, b);
    if n == 0 {
      XorBound(a, b, 0);
    } else {
      ComplementTo(a / 2, b / 2, n - 1);
      XorBound(a / 2, b / 2, n - 1);
    }
  }

  lemma {:induction false} Complement(a: nat, b: nat)
    requires a < Pow2(16) && b < Pow2(16)
    ensures BitXor(a, b) == 0xFFFF <==> a + b == 0xFFFF
  {
    hide BitXor;
    ComplementTo(a, b, 16);
    Pow2Values();
  }

  method InflateBlock(br: BitReader, btype: nat, out: seq<byte>, max: nat) returns (r: Result<seq<byte>>)
    requires br.Valid()
    modifies br
    ensures br.Valid()
    ensures Agrees(r, br.Pos(), BlockOfType(btype, br.data, br.bits, old(br.Pos()), out, max))
  {
    hide Stored, Block, Header, IsTableOf;
    if btype == 0 {
      r := InflateStored(br, out, max);
    } else if btype == 1 {
      var lit := FromLengths(FixedLit());
      var dist := FromLengths(FixedDist());
      r := DecompressBlock(br, out, lit.value, dist.value, max, FixedLit(), FixedDist());
    } else if btype == 2 {
      ghost var lens;
      var tables;
      tables, lens := ReadDynamicTables(br);
      if tables.Err? { return Err(tables.error); }
      r := DecompressBlock(br, out, tables.value.0, tables.value.1, max, lens.0, lens.1);
    } else {
      r := Err(InvalidBlockType);
    }
  }

  method InflateNext(br: BitReader, out: seq<byte>, max: nat) returns (r: Result<(bool, seq<byte>)>)
    requires br.Valid()
    modifies br
    ensures br.Valid()
    ensures Agrees(r, br.Pos(), NextBlock(br.data, br.bits, old(br.Pos()), out, max))
  {
    hide BlockOfType, ReadField;
    var bfinal :- br.ReadBits(1);
    var btype :- br.ReadBits(2);
    var o :- InflateBlock(br, btype, out, max);
    r := Ok((bfinal != 0, o));
  }

  /** Decompresses block after block; every block consumes input, so it ends. */
  method InflateWithLimitConsumed(data: seq<byte>, max: nat) returns (r: Result<(seq<byte>, nat)>)
    ensures r == Inflated(data, max)
  {
    hide NextBlock, BytesToBits;
    var br := new BitReader(data);
    var out := [];
    ghost var spec := Blocks(data, br.bits, 0, [], max);
    var final := false;
    while !final
      invariant br.Valid() && br.data == data
      invariant spec == if final then Ok((out, br.Pos())) else Blocks(data, br.bits, br.Pos(), out, max)
      decreases !final, |br.bits| - br.Pos()
    {
      var next :- InflateNext(br, out, max);
      final, out := next.0, next.1;
    }
    br.AlignToByte();
    r := Ok((out, br.bytePos));
  }
}
