/** Input that is cut short: whatever is missing from a stream or from a gzip member, the error is that the input ended
    too early. */
module Truncation {
  import opened Bits
  import opened BitIO
  import opened Huffman
  import opened DeflateTables
  import opened Inflate
  import opened Locality
  import opened Crc32
  import opened Containers

  /** t is the start of s. */
  ghost predicate Cut(s: seq<bool>, t: seq<bool>)
  {
    |t| <= |s| && Alike(s, t, |t|)
  }

  lemma {:induction false} FieldCut(s: seq<bool>, t: seq<bool>, pos: nat, n: nat)
    requires Cut(s, t) && ReadField(s, pos, n).Ok?
    ensures pos + n <= |t| ==> ReadField(t, pos, n) == ReadField(s, pos, n)
    ensures pos + n > |t| ==> ReadField(t, pos, n) == Err(UnexpectedEnd)
  {
    hide Field, Alike;
    if pos + n <= |t| { FieldLocal(s, t, |t|, pos, n); }
  }

  lemma {:induction false} DecodeAtCut(s: seq<bool>, t: seq<bool>, lengths: seq<nat>, pos: nat, l: nat, code: nat)
    requires Cut(s, t) && 1 <= l <= 16 && FirstCode(lengths, l) <= 2 * code
    requires var r := DecodeAt(lengths, s, pos, l, code); r.Ok? && r.value.1 > |t|
    ensures DecodeAt(lengths, t, pos, l, code) == Err(UnexpectedEnd)
    decreases 16 - l
  {
    hide FirstCode, CountOf, SymbolsOf;
    if l < 16 && pos < |t| {
      var c := 2 * code + B2N(s[pos]);
      CodesAbove(lengths, l, c);
      DecodeAtCut(s, t, lengths, pos + 1, l + 1, c);
    }
  }

  /** One symbol. */
  lemma {:induction false} DecodeCut(s: seq<bool>, t: seq<bool>, lengths: seq<nat>, pos: nat)
    requires Cut(s, t) && Decode(lengths, s, pos).Ok?
    ensures var q := Decode(lengths, s, pos).value.1;
            Decode(lengths, t, pos) == if q <= |t| then Decode(lengths, s, pos) else Err(UnexpectedEnd)
  {
    hide DecodeAt, Alike;
    if Decode(lengths, s, pos).value.1 <= |t| {
      DecodeLocal(s, t, |t|, lengths, pos);
    } else {
      DecodeAtCut(s, t, lengths, pos, 1, 0);
    }
  }

  // ---------- Headers ----------

  lemma {:induction false} ClLensCut(s: seq<bool>, t: seq<bool>, pos: nat, n: nat)
    requires Cut(s, t) && n <= 19 && ClLens(s, pos, n).Ok? && pos <= |t|
    ensures ClLens(t, pos, n) == if pos + 3 * n <= |t| then ClLens(s, pos, n) else Err(UnexpectedEnd)
  {
    hide Alike, ReadField, ClOrder;
    if n > 0 {
      ClLensCut(s, t, pos, n - 1);
      FieldCut(s, t, pos + 3 * (n - 1), 3);
    }
  }

  lemma {:induction false} AddLensCut(s: seq<bool>, t: seq<bool>, sym: nat, pos: nat, acc: seq<nat>, total: nat)
    requires Cut(s, t) && AddLens(sym, s, pos, acc, total).Ok? && pos <= |t|
    ensures var q := AddLens(sym, s, pos, acc, total).value.1;
            AddLens(sym, t, pos, acc, total) ==
              if q <= |t| then AddLens(sym, s, pos, acc, total) else Err(UnexpectedEnd)
  {
    hide Alike, ReadField, Repeat;
    if sym == 16 { FieldCut(s, t, pos, 2); }
    if sym == 17 { FieldCut(s, t, pos, 3); }
    if sym == 18 { FieldCut(s, t, pos, 7); }
  }

  lemma {:induction false} LensCut(s: seq<bool>, t: seq<bool>, cl: seq<nat>, pos: nat, acc: seq<nat>, total: nat)
    requires Cut(s, t) && |acc| <= total && Lens(cl, s, pos, acc, total).Ok? && pos <= |t|
    ensures var q := Lens(cl, s, pos, acc, total).value.1;
            Lens(cl, t, pos, acc, total) == if q <= |t| then Lens(cl, s, pos, acc, total) else Err(UnexpectedEnd)
    decreases total - |acc|
  {
    hide Alike, Decode, AddLens;
    if |acc| < total {
      var (sym, p) := Decode(cl, s, pos).value;
      var (acc', p') := AddLens(sym, s, p, acc, total).value;
      DecodeCut(s, t, cl, pos);
      if p <= |t| {
        AddLensCut(s, t, sym, p, acc, total);
        if p' <= |t| { LensCut(s, t, cl, p', acc', total); }
      }
    }
  }

  lemma {:induction false} CountsCut(s: seq<bool>, t: seq<bool>, pos: nat)
    requires Cut(s, t) && Counts(s, pos).Ok?
    ensures Counts(t, pos) == if pos + 14 <= |t| then Counts(s, pos) else Err(UnexpectedEnd)
  {
    hide Alike, ReadField;
    FieldCut(s, t, pos, 5);
    FieldCut(s, t, pos + 5, 5);
    FieldCut(s, t, pos + 10, 4);
  }

  lemma {:induction false} HeaderCut(s: seq<bool>, t: seq<bool>, pos: nat)
    requires Cut(s, t) && Header(s, pos).Ok?
    ensures var q := Header(s, pos).value.1; Header(t, pos) == if q <= |t| then Header(s, pos) else Err(UnexpectedEnd)
  {
    hide Alike, ReadField, ClLens, Lens, Counts;
    var ((hlit, hdist, hclen), p) := Counts(s, pos).value;
    CountsEnd(s, pos);
    CountsCut(s, t, pos);
    if p <= |t| {
      var q := p + 3 * hclen;
      ClLensCut(s, t, p, hclen);
      if q <= |t| { LensCut(s, t, ClLens(s, p, hclen).value, q, [], hlit + hdist); }
    }
  }

  lemma {:induction false} CountsEnd(s: seq<bool>, pos: nat)
    requires Counts(s, pos).Ok?
    ensures Counts(s, pos).value.1 == pos + 14
  {
    hide ReadField;
  }

  // ---------- Blocks ----------

  lemma {:induction false} MatchCut(s: seq<bool>, t: seq<bool>, c: nat, pos: nat, dist: seq<nat>)
    requires c < 29 && Cut(s, t) && MatchAt(c, s, pos, dist).Ok?
    ensures var q := MatchAt(c, s, pos, dist).value.1;
            MatchAt(c, t, pos, dist) == if q <= |t| then MatchAt(c, s, pos, dist) else Err(UnexpectedEnd)
  {
    hide Alike, ReadField, Decode, LengthBase, DistBase, LengthExtra, DistExtra;
    var (d, q) := Decode(dist, s, pos + LengthExtra(c)).value;
    FieldCut(s, t, pos, LengthExtra(c));
    DecodeCut(s, t, dist, pos + LengthExtra(c));
    FieldCut(s, t, q, DistExtra(d));
  }

  lemma {:induction false} BlockCut(s: seq<bool>, t: seq<bool>, pos: nat, out: seq<byte>, lit: seq<nat>, dist: seq<nat>,
      max: nat)
    requires Cut(s, t) && Block(s, pos, out, lit, dist, max).Ok?
    ensures var q := Block(s, pos, out, lit, dist, max).value.1;
            Block(t, pos, out, lit, dist, max) ==
              if q <= |t| then Block(s, pos, out, lit, dist, max) else Err(UnexpectedEnd)
    decreases |s| - pos
  {
    hide Alike, Decode, MatchAt, Copy;
    var (sym, p) := Decode(lit, s, pos).value;
    DecodeCut(s, t, lit, pos);
    if sym < 256 {
      BlockCut(s, t, p, out + [sym], lit, dist, max);
    } else if sym > 256 {
      var ((len, d), p') := MatchAt(sym - 257, s, p, dist).value;
      MatchCut(s, t, sym - 257, p, dist);
      BlockCut(s, t, p', Copy(out, d, len), lit, dist, max);
    }
  }

  /** The bytes e are the start of c, and t are their bits. */
  ghost predicate CutBytes(c: seq<byte>, e: seq<byte>, s: seq<bool>, t: seq<bool>)
  {
    e <= c && |s| == 8 * |c| && |t| == 8 * |e| && Cut(s, t)
  }

  lemma {:induction false} StoredCut(c: seq<byte>, e: seq<byte>, s: seq<bool>, t: seq<bool>, pos: nat, out: seq<byte>,
      max: nat)
    requires CutBytes(c, e, s, t) && pos % 8 == 0 && Stored(c, s, pos, out, max).Ok?
    ensures var q := Stored(c, s, pos, out, max).value.1;
            Stored(e, t, pos, out, max) == if q <= |t| then Stored(c, s, pos, out, max) else Err(UnexpectedEnd)
  {
    hide Alike, ReadField;
    var p, len := pos / 8 + 4, ReadField(s, pos, 16).value;
    assert pos == 8 * (pos / 8);
    FieldCut(s, t, pos, 16);
    FieldCut(s, t, pos + 16, 16);
    if p + len <= |e| { assert c[p..p + len] == e[p..p + len]; }
  }

  lemma {:induction false} TypeCut(c: seq<byte>, e: seq<byte>, s: seq<bool>, t: seq<bool>, btype: nat, pos: nat,
      out: seq<byte>, max: nat)
    requires CutBytes(c, e, s, t) && BlockOfType(btype, c, s, pos, out, max).Ok?
    ensures var q := BlockOfType(btype, c, s, pos, out, max).value.1;
            BlockOfType(btype, e, t, pos, out, max) ==
              if q <= |t| then BlockOfType(btype, c, s, pos, out, max) else Err(UnexpectedEnd)
  {
    hide Cut, Stored, Block, Header, RoundUp8, FixedLit, FixedDist;
    if btype == 0 {
      StoredCut(c, e, s, t, RoundUp8(pos), out, max);
    } else if btype == 1 {
      BlockCut(s, t, pos, out, FixedLit(), FixedDist(), max);
    } else {
      var ((lit, dist), p) := Header(s, pos).value;
      HeaderCut(s, t, pos);
      BlockCut(s, t, p, out, lit, dist, max);
    }
  }

  lemma {:induction false} NextCut(c: seq<byte>, e: seq<byte>, s: seq<bool>, t: seq<bool>, pos: nat, out: seq<byte>,
      max: nat)
    requires CutBytes(c, e, s, t) && NextBlock(c, s, pos, out, max).Ok?
    ensures var q := NextBlock(c, s, pos, out, max).value.1;
            NextBlock(e, t, pos, out, max) == if q <= |t| then NextBlock(c, s, pos, out, max) else Err(UnexpectedEnd)
  {
    hide Alike, ReadField, BlockOfType;
    FieldCut(s, t, pos, 1);
    FieldCut(s, t, pos + 1, 2);
    TypeCut(c, e, s, t, ReadField(s, pos + 1, 2).value, pos + 3, out, max);
  }

  lemma {:induction false} BlocksCut(c: seq<byte>, e: seq<byte>, s: seq<bool>, t: seq<bool>, pos: nat, out: seq<byte>,
      max: nat)
    requires CutBytes(c, e, s, t) && Blocks(c, s, pos, out, max).Ok? && Blocks(c, s, pos, out, max).value.1 > |t|
    ensures Blocks(e, t, pos, out, max) == Err(UnexpectedEnd)
    decreases |s| - pos
  {
    hide CutBytes, NextBlock;
    Sizes(c, e, s, t);
    var ((final, out'), q) := NextBlock(c, s, pos, out, max).value;
    NextCut(c, e, s, t, pos, out, max);
    if !final { BlocksCut(c, e, s, t, q, out', max); }
  }

  lemma {:induction false} Sizes(c: seq<byte>, e: seq<byte>, s: seq<bool>, t: seq<bool>)
    requires CutBytes(c, e, s, t)
    ensures |s| == 8 * |c| && |t| == 8 * |e|
  {
  }

  /** Decompressing fewer bytes than it takes fails because the input ends. */
  lemma {:induction false} InflatedCut(c: seq<byte>, max: nat, k: nat)
    requires Inflated(c, max).Ok? && k < Inflated(c, max).value.1
    ensures Inflated(c[..k], max) == Err(UnexpectedEnd)
  {
    hide Alike, Blocks, BytesToBits, RoundUp8;
    var e := c[..k];
    assert AlikeBytes(c, e, k);
    AlikeBits(c, e, k, 8 * k);
    BlocksCut(c, e, BytesToBits(c), BytesToBits(e), 0, [], max);
  }

  // ---------- Members ----------

  lemma {:induction false} ZeroCut(c: seq<byte>, k: nat, p: nat)
    requires k <= |c| && FirstZero(c, p) >= k
    ensures FirstZero(c[..k], p) >= k
  {
  }

  lemma {:induction false} ExtraCut(c: seq<byte>, flg: byte, k: nat)
    requires 18 <= k <= |c| && SkipExtra(c, flg, 10).Ok?
    ensures var q := SkipExtra(c, flg, 10).value;
            SkipExtra(c[..k], flg, 10) == if q <= k then Ok(q) else Err(UnexpectedEnd)
  {
    hide BitOr, HasFlag;
  }

  lemma {:induction false} StringCut(c: seq<byte>, present: bool, p: nat, k: nat)
    requires p <= k <= |c| && SkipString(c, present, p).Ok?
    ensures var q := SkipString(c, present, p).value;
            SkipString(c[..k], present, p) == if q <= k then Ok(q) else Err(UnexpectedEnd)
  {
    hide FirstZero;
    var e := c[..k];
    if present {
      if FirstZero(c, p) < k {
        assert AlikeBytes(c, e, k);
        ZeroLocal(c, e, k, p);
      } else {
        ZeroCut(c, k, p);
      }
    }
  }

  lemma {:induction false} CheckCut(c: seq<byte>, flg: byte, p: nat, k: nat)
    requires p <= k <= |c| && SkipCrc(c, flg, p).Ok?
    ensures var q := SkipCrc(c, flg, p).value; SkipCrc(c[..k], flg, p) == if q <= k then Ok(q) else Err(UnexpectedEnd)
  {
    hide HasFlag;
  }

  lemma {:induction false} HeaderEndCut(c: seq<byte>, k: nat)
    requires 18 <= k <= |c| && HeaderEnd(c).Ok?
    ensures var q := HeaderEnd(c).value; HeaderEnd(c[..k]) == if q <= k then Ok(q) else Err(UnexpectedEnd)
  {
    hide SkipExtra, SkipString, SkipCrc, HasFlag;
    var flg := c[3];
    var p1 := SkipExtra(c, flg, 10).value;
    var p2 := SkipString(c, HasFlag(flg, 3), p1).value;
    var p3 := SkipString(c, HasFlag(flg, 4), p2).value;
    ExtraCut(c, flg, k);
    if p1 <= k { StringCut(c, HasFlag(flg, 3), p1, k); }
    if p2 <= k { StringCut(c, HasFlag(flg, 4), p2, k); }
    if p3 <= k { CheckCut(c, flg, p3, k); }
  }

  /** Unpacking fewer bytes than a member has fails because the input ends. */
  lemma {:induction false} MemberCut(c: seq<byte>, max: nat, k: nat)
    requires Member(c, max).Ok? && k < Member(c, max).value.1
    ensures Member(c[..k], max) == Err(UnexpectedEnd)
  {
    hide Inflated, HeaderEnd, CrcOf, FromLe;
    if k >= 18 {
      var p := HeaderEnd(c).value;
      HeaderEndCut(c, k);
      if p <= k {
        var n := Inflated(c[p..], max).value.1;
        assert c[..k][p..] == c[p..][..k - p];
        if k - p < n {
          InflatedCut(c[p..], max, k - p);
        } else {
          assert AlikeBytes(c[p..], c[p..][..k - p], n);
          InflatedLocal(c[p..], c[p..][..k - p], max);
        }
      }
    }
  }
}
