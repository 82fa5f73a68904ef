/** Decompression depends only on the bytes it consumes. */
module Locality {
  import opened Bits
  import opened BitIO
  import opened Huffman
  import opened DeflateTables
  import opened Inflate

  /** The two streams agree on their first p bits. */
  ghost predicate Alike(s: seq<bool>, t: seq<bool>, p: nat)
  {
    p <= |s| && p <= |t| && forall i :: 0 <= i < p ==> s[i] == t[i]
  }

  lemma {:induction false} FieldLocal(s: seq<bool>, t: seq<bool>, p: nat, pos: nat, n: nat)
    requires Alike(s, t, p) && pos + n <= p
    ensures ReadField(s, pos, n) == ReadField(t, pos, n) && ReadField(s, pos, n).Ok?
  {
    if n > 0 { FieldLocal(s, t, p, pos, n - 1); }
  }

  lemma {:induction false} DecodeAtLocal(s: seq<bool>, t: seq<bool>, p: nat, lengths: seq<nat>, pos: nat, l: nat,
      code: nat)
    requires Alike(s, t, p) && 1 <= l <= 16 && FirstCode(lengths, l) <= 2 * code
    requires var r := DecodeAt(lengths, s, pos, l, code); r.Ok? && r.value.1 <= p
    ensures DecodeAt(lengths, t, pos, l, code) == DecodeAt(lengths, s, pos, l, code)
    decreases 16 - l
  {
    hide FirstCode, CountOf, SymbolsOf;
    if l < 16 && pos < |s| {
      var c := 2 * code + B2N(s[pos]);
      if c >= FirstCode(lengths, l) + CountOf(lengths, l) {
        CodesAbove(lengths, l, c);
        DecodeAtLocal(s, t, p, lengths, pos + 1, l + 1, c);
      }
    }
  }

  lemma {:induction false} DecodeLocal(s: seq<bool>, t: seq<bool>, p: nat, lengths: seq<nat>, pos: nat)
    requires Alike(s, t, p) && Decode(lengths, s, pos).Ok? && Decode(lengths, s, pos).value.1 <= p
    ensures Decode(lengths, t, pos) == Decode(lengths, s, pos)
  {
    hide DecodeAt, Alike;
    DecodeAtLocal(s, t, p, lengths, pos, 1, 0);
  }

  lemma {:induction false} ClLensLocal(s: seq<bool>, t: seq<bool>, p: nat, pos: nat, n: nat)
    requires n <= 19 && Alike(s, t, p) && pos + 3 * n <= p
    ensures ClLens(t, pos, n) == ClLens(s, pos, n)
  {
    hide Alike, ReadField, ClOrder;
    if n > 0 {
      ClLensLocal(s, t, p, pos, n - 1);
      FieldLocal(s, t, p, pos + 3 * (n - 1), 3);
    }
  }

  lemma {:induction false} AddLensLocal(s: seq<bool>, t: seq<bool>, p: nat, sym: nat, pos: nat, acc: seq<nat>,
      total: nat)
    requires Alike(s, t, p) && AddLens(sym, s, pos, acc, total).Ok? && AddLens(sym, s, pos, acc, total).value.1 <= p
    ensures AddLens(sym, t, pos, acc, total) == AddLens(sym, s, pos, acc, total)
  {
    hide Alike, ReadField, Repeat;
    if sym == 16 { FieldLocal(s, t, p, pos, 2); }
    if sym == 17 { FieldLocal(s, t, p, pos, 3); }
    if sym == 18 { FieldLocal(s, t, p, pos, 7); }
  }

  lemma {:induction false} LensLocal(s: seq<bool>, t: seq<bool>, p: nat, cl: seq<nat>, pos: nat, acc: seq<nat>,
      total: nat)
    requires |acc| <= total && Alike(s, t, p) && Lens(cl, s, pos, acc, total).Ok?
    requires Lens(cl, s, pos, acc, total).value.1 <= p
    ensures Lens(cl, t, pos, acc, total) == Lens(cl, s, pos, acc, total)
    decreases total - |acc|
  {
    hide Alike, Decode, AddLens;
    if |acc| < total {
      var (sym, q) := Decode(cl, s, pos).value;
      var (acc', q') := AddLens(sym, s, q, acc, total).value;
      LensLocal(s, t, p, cl, q', acc', total);
      DecodeLocal(s, t, p, cl, pos);
      AddLensLocal(s, t, p, sym, q, acc, total);
    }
  }

  lemma {:induction false} HeaderLocal(s: seq<bool>, t: seq<bool>, p: nat, pos: nat)
    requires Alike(s, t, p) && Header(s, pos).Ok? && Header(s, pos).value.1 <= p
    ensures Header(t, pos) == Header(s, pos)
  {
    hide Alike, ReadField, ClLens, Lens;
    var ((hlit, hdist, hclen), q) := Counts(s, pos).value;
    FieldLocal(s, t, p, pos, 5);
    FieldLocal(s, t, p, pos + 5, 5);
    FieldLocal(s, t, p, pos + 10, 4);
    ClLensLocal(s, t, p, q, hclen);
    LensLocal(s, t, p, ClLens(s, q, hclen).value, q + 3 * hclen, [], hlit + hdist);
  }

  lemma {:induction false} MatchLocal(s: seq<bool>, t: seq<bool>, p: nat, c: nat, pos: nat, dist: seq<nat>)
    requires c < 29 && Alike(s, t, p) && MatchAt(c, s, pos, dist).Ok? && MatchAt(c, s, pos, dist).value.1 <= p
    ensures MatchAt(c, t, pos, dist) == MatchAt(c, s, pos, dist)
  {
    hide Alike, ReadField, Decode, LengthBase, DistBase, LengthExtra, DistExtra;
    var (d, q) := Decode(dist, s, pos + LengthExtra(c)).value;
    FieldLocal(s, t, p, pos, LengthExtra(c));
    DecodeLocal(s, t, p, dist, pos + LengthExtra(c));
    FieldLocal(s, t, p, q, DistExtra(d));
  }

  lemma {:induction false} BlockLocal(s: seq<bool>, t: seq<bool>, p: nat, pos: nat, out: seq<byte>, lit: seq<nat>,
      dist: seq<nat>, max: nat)
    requires Alike(s, t, p) && Block(s, pos, out, lit, dist, max).Ok? && Block(s, pos, out, lit, dist, max).value.1 <= p
    ensures Block(t, pos, out, lit, dist, max) == Block(s, pos, out, lit, dist, max)
    decreases |s| - pos
  {
    hide Alike, Decode, MatchAt, Copy;
    var (sym, q) := Decode(lit, s, pos).value;
    if sym < 256 {
      BlockLocal(s, t, p, q, out + [sym], lit, dist, max);
    } else if sym > 256 {
      var ((len, d), q') := MatchAt(sym - 257, s, q, dist).value;
      BlockLocal(s, t, p, q', Copy(out, d, len), lit, dist, max);
      MatchLocal(s, t, p, sym - 257, q, dist);
    }
    DecodeLocal(s, t, p, lit, pos);
  }

  /** Byte strings that agree on the first n bytes. */
  ghost predicate AlikeBytes(c: seq<byte>, e: seq<byte>, n: nat)
  {
    n <= |c| && n <= |e| && forall i :: 0 <= i < n ==> c[i] == e[i]
  }

  lemma {:induction false} AlikeBits(c: seq<byte>, e: seq<byte>, n: nat, p: nat)
    requires AlikeBytes(c, e, n) && p <= 8 * n
    ensures Alike(BytesToBits(c), BytesToBits(e), p)
  {
    BitsSame(c, e, n);
    BitsGrow(c, n, |c|);
    BitsGrow(e, n, |e|);
  }

  lemma {:induction false} BitsGrow(c: seq<byte>, n: nat, m: nat)
    requires n <= m <= |c|
    ensures forall i :: 0 <= i < 8 * n ==> BitsTo(c, n)[i] == BitsTo(c, m)[i]
  {
    if n < m { BitsGrow(c, n, m - 1); }
  }

  lemma {:induction false} StoredLocal(c: seq<byte>, e: seq<byte>, n: nat, s: seq<bool>, t: seq<bool>, p: nat, pos: nat,
      out: seq<byte>, max: nat)
    requires |s| == 8 * |c| && |t| == 8 * |e| && Alike(s, t, p) && AlikeBytes(c, e, n) && p <= 8 * n && pos % 8 == 0
    requires Stored(c, s, pos, out, max).Ok? && Stored(c, s, pos, out, max).value.1 <= p
    ensures Stored(e, t, pos, out, max) == Stored(c, s, pos, out, max)
  {
    hide Alike, ReadField;
    var q, len := pos / 8 + 4, ReadField(s, pos, 16).value;
    assert pos == 8 * (pos / 8);
    FieldLocal(s, t, p, pos, 16);
    FieldLocal(s, t, p, pos + 16, 16);
    assert c[q..q + len] == e[q..q + len];
  }

  lemma {:induction false} TypeLocal(c: seq<byte>, e: seq<byte>, n: nat, s: seq<bool>, t: seq<bool>, p: nat, btype: nat,
      pos: nat, out: seq<byte>, max: nat)
    requires |s| == 8 * |c| && |t| == 8 * |e| && Alike(s, t, p) && AlikeBytes(c, e, n) && p <= 8 * n
    requires BlockOfType(btype, c, s, pos, out, max).Ok? && BlockOfType(btype, c, s, pos, out, max).value.1 <= p
    ensures BlockOfType(btype, e, t, pos, out, max) == BlockOfType(btype, c, s, pos, out, max)
  {
    hide Alike, AlikeBytes, Stored, Block, Header, RoundUp8;
    if btype == 0 {
      StoredLocal(c, e, n, s, t, p, RoundUp8(pos), out, max);
    } else if btype == 1 {
      BlockLocal(s, t, p, pos, out, FixedLit(), FixedDist(), max);
    } else {
      var ((lit, dist), q) := Header(s, pos).value;
      BlockLocal(s, t, p, q, out, lit, dist, max);
      HeaderLocal(s, t, p, pos);
    }
  }

  lemma {:induction false} NextLocal(c: seq<byte>, e: seq<byte>, n: nat, s: seq<bool>, t: seq<bool>, p: nat, pos: nat,
      out: seq<byte>, max: nat)
    requires |s| == 8 * |c| && |t| == 8 * |e| && Alike(s, t, p) && AlikeBytes(c, e, n) && p <= 8 * n
    requires NextBlock(c, s, pos, out, max).Ok? && NextBlock(c, s, pos, out, max).value.1 <= p
    ensures NextBlock(e, t, pos, out, max) == NextBlock(c, s, pos, out, max)
  {
    hide Alike, AlikeBytes, ReadField, BlockOfType;
    FieldLocal(s, t, p, pos, 1);
    FieldLocal(s, t, p, pos + 1, 2);
    TypeLocal(c, e, n, s, t, p, ReadField(s, pos + 1, 2).value, pos + 3, out, max);
  }

  lemma {:induction false} BlocksLocal(c: seq<byte>, e: seq<byte>, n: nat, s: seq<bool>, t: seq<bool>, p: nat, pos: nat,
      out: seq<byte>, max: nat)
    requires |s| == 8 * |c| && |t| == 8 * |e| && Alike(s, t, p) && AlikeBytes(c, e, n) && p <= 8 * n
    requires Blocks(c, s, pos, out, max).Ok? && Blocks(c, s, pos, out, max).value.1 <= p
    ensures Blocks(e, t, pos, out, max) == Blocks(c, s, pos, out, max)
    decreases |s| - pos
  {
    hide Alike, AlikeBytes, NextBlock;
    var ((final, out'), q) := NextBlock(c, s, pos, out, max).value;
    if !final { BlocksLocal(c, e, n, s, t, p, q, out', max); }
    NextLocal(c, e, n, s, t, p, pos, out, max);
  }

  /** Any input that starts with the bytes consumed decompresses in the same way. */
  lemma {:induction false} InflatedLocal(c: seq<byte>, e: seq<byte>, max: nat)
    requires Inflated(c, max).Ok? && AlikeBytes(c, e, Inflated(c, max).value.1)
    ensures Inflated(e, max) == Inflated(c, max)
  {
    hide Alike, Blocks, BytesToBits;
    var (out, p) := Blocks(c, BytesToBits(c), 0, [], max).value;
    var n := Inflated(c, max).value.1;
    AlikeBits(c, e, n, p);
    BlocksLocal(c, e, n, BytesToBits(c), BytesToBits(e), p, 0, [], max);
  }

  // ---------- The output limit ----------

  /** The result of a successful run under another limit. */
  function Limited(r: Result<(seq<byte>, nat)>, max: nat): (r': Result<(seq<byte>, nat)>)
  {
    if r.Ok? && |r.value.0| > max then Err(OutputTooLarge) else r
  }

  lemma {:induction false} BlockLimit(bits: seq<bool>, pos: nat, out: seq<byte>, lit: seq<nat>, dist: seq<nat>,
      max: nat, max': nat)
    requires Block(bits, pos, out, lit, dist, max).Ok?
    ensures Block(bits, pos, out, lit, dist, max') == Limited(Block(bits, pos, out, lit, dist, max), max')
    decreases |bits| - pos
  {
    hide Decode, MatchAt, Copy;
    var (sym, q) := Decode(lit, bits, pos).value;
    if sym < 256 {
      BlockLimit(bits, q, out + [sym], lit, dist, max, max');
    } else if sym > 256 {
      var ((len, d), q') := MatchAt(sym - 257, bits, q, dist).value;
      BlockLimit(bits, q', Copy(out, d, len), lit, dist, max, max');
    }
  }

  lemma {:induction false} NextLimit(data: seq<byte>, bits: seq<bool>, pos: nat, out: seq<byte>, max: nat, max': nat)
    requires |bits| == 8 * |data| && NextBlock(data, bits, pos, out, max).Ok?
    ensures var ((final, out'), q) := NextBlock(data, bits, pos, out, max).value;
            |out| <= |out'| && NextBlock(data, bits, pos, out, max') == if |out'| > max' then Err(OutputTooLarge)
                else Ok(((final, out'), q))
  {
    hide Block, ReadField, Header;
    var btype := ReadField(bits, pos + 1, 2).value;
    if btype == 1 {
      BlockLimit(bits, pos + 3, out, FixedLit(), FixedDist(), max, max');
    } else if btype == 2 {
      var ((lit, dist), q) := Header(bits, pos + 3).value;
      BlockLimit(bits, q, out, lit, dist, max, max');
    }
  }

  lemma {:induction false} BlocksLimit(data: seq<byte>, bits: seq<bool>, pos: nat, out: seq<byte>, max: nat, max': nat)
    requires |bits| == 8 * |data| && Blocks(data, bits, pos, out, max).Ok?
    ensures |out| <= |Blocks(data, bits, pos, out, max).value.0|
    ensures Blocks(data, bits, pos, out, max') == Limited(Blocks(data, bits, pos, out, max), max')
    decreases |bits| - pos
  {
    hide NextBlock;
    var ((final, out'), q) := NextBlock(data, bits, pos, out, max).value;
    NextLimit(data, bits, pos, out, max, max');
    if !final { BlocksLimit(data, bits, q, out', max, max'); }
  }

  /** The limit decides only whether the output fits: under another limit the result is the same, or too large. */
  lemma {:induction false} InflatedLimit(data: seq<byte>, max: nat, max': nat)
    requires Inflated(data, max).Ok?
    ensures Inflated(data, max') == Limited(Inflated(data, max), max')
  {
    hide Blocks, BytesToBits;
    BlocksLimit(data, BytesToBits(data), 0, [], max, max');
  }
}
