/** Tokens as Huffman-coded bits, and the proof that a decoder of the block
    rebuilds the data that the tokens spell. */
module TokenCode {
  import opened Bits
  import opened BitIO
  import opened Huffman
  import opened Lz77
  import opened DeflateTables
  import opened Inflate

  const END_OF_BLOCK: nat := 256

  /** The literal/length symbol of a token. */
  function SymOf(t: Tok): (s: nat)
    ensures s < 286 && s != END_OF_BLOCK
  {
    match t
    case Lit(b) => b
    case Match(len, _) => 257 + LengthCode(len)
  }

  /** A token of the format, whose symbols have codes. */
  ghost predicate CodesTok(t: Tok, ll: seq<nat>, dl: seq<nat>)
  {
    && SymOf(t) < |ll| && ll[SymOf(t)] > 0
    && (t.Match? ==> 3 <= t.len <= 258 && 1 <= t.dist <= 32768 && DistCode(t.dist) < |dl| && dl[DistCode(t.dist)] > 0)
  }

  /** The rest of a length, then a distance. */
  ghost function PairBits(lc: nat, lx: nat, dc: nat, dx: nat, dl: seq<nat>): (w: seq<bool>)
    requires lc < 29 && dc < 30 && dc < |dl|
  {
    LsbBits(lx, LengthExtra(lc)) + (CodeBits(dl, dc) + LsbBits(dx, DistExtra(dc)))
  }

  /** What follows the symbol of a match. */
  ghost function MatchBits(t: Tok, dl: seq<nat>): (w: seq<bool>)
    requires t.Match? && 3 <= t.len <= 258 && 1 <= t.dist <= 32768 && DistCode(t.dist) < |dl|
  {
    var lc, dc := LengthCode(t.len), DistCode(t.dist);
    LengthFits(t.len);
    DistFits(t.dist);
    PairBits(lc, t.len - LengthBase(lc), dc, t.dist - DistBase(dc), dl)
  }

  ghost function TokBits(t: Tok, ll: seq<nat>, dl: seq<nat>): (w: seq<bool>)
    requires CodesTok(t, ll, dl)
  {
    CodeBits(ll, SymOf(t)) + (if t.Match? then MatchBits(t, dl) else [])
  }

  ghost predicate AllCoded(toks: seq<Tok>, ll: seq<nat>, dl: seq<nat>)
  {
    forall k :: 0 <= k < |toks| ==> CodesTok(toks[k], ll, dl)
  }

  /** What is written for the first k tokens. */
  ghost function TokensBits(toks: seq<Tok>, k: nat, ll: seq<nat>, dl: seq<nat>): (w: seq<bool>)
    requires k <= |toks| && AllCoded(toks, ll, dl)
  {
    if k == 0 then [] else TokensBits(toks, k - 1, ll, dl) + TokBits(toks[k - 1], ll, dl)
  }

  /** All tokens and the end of the block. */
  ghost function BlockBits(toks: seq<Tok>, ll: seq<nat>, dl: seq<nat>): (w: seq<bool>)
    requires AllCoded(toks, ll, dl) && END_OF_BLOCK < |ll|
  {
    TokensBits(toks, |toks|, ll, dl) + CodeBits(ll, END_OF_BLOCK)
  }

  lemma {:induction false} NthTok(toks: seq<Tok>, k: nat, n: nat, ll: seq<nat>, dl: seq<nat>, bits: seq<bool>, pos: nat)
    requires k < n <= |toks| && AllCoded(toks, ll, dl) && At(bits, pos, TokensBits(toks, n, ll, dl))
    ensures At(bits, pos + |TokensBits(toks, k, ll, dl)|, TokBits(toks[k], ll, dl))
  {
    hide TokBits, At, CodesTok;
    AtSplit(bits, pos, TokensBits(toks, n - 1, ll, dl), TokBits(toks[n - 1], ll, dl));
    if k < n - 1 { NthTok(toks, k, n - 1, ll, dl, bits, pos); }
  }

  // ---------- The decoder's step on one token ----------

  lemma {:induction false} FieldBack(bits: seq<bool>, pos: nat, v: nat, n: nat)
    requires v < Pow2(n) && At(bits, pos, LsbBits(v, n))
    ensures ReadField(bits, pos, n) == Ok(v)
  {
    FieldWritten(bits, pos, v, n);
  }

  lemma {:induction false} PairBack(lc: nat, lx: nat, dc: nat, dx: nat, dl: seq<nat>, bits: seq<bool>, pos: nat)
    requires lc < 29 && lx < Pow2(LengthExtra(lc)) && dc < 30 && dx < Pow2(DistExtra(dc)) && dc < |dl| && dl[dc] > 0
    requires PrefixCode(dl, 15) && At(bits, pos, PairBits(lc, lx, dc, dx, dl))
    ensures MatchAt(lc, bits, pos, dl)
         == Ok(((LengthBase(lc) + lx, DistBase(dc) + dx), pos + |PairBits(lc, lx, dc, dx, dl)|))
  {
    hide At, LsbBits, CodeBits, Decode, DecodeAt, PrefixCode, LengthBase, LengthExtra, DistBase, DistExtra, ReadField;
    var a, b, c := LsbBits(lx, LengthExtra(lc)), CodeBits(dl, dc), LsbBits(dx, DistExtra(dc));
    AtSplit(bits, pos, a, b + c);
    AtSplit(bits, pos + |a|, b, c);
    FieldBack(bits, pos, lx, LengthExtra(lc));
    DecodeWritten(dl, 15, dc, bits, pos + |a|);
    FieldBack(bits, pos + |a| + |b|, dx, DistExtra(dc));
  }

  /** The length and the distance of a match are read back. */
  lemma {:induction false} MatchBack(t: Tok, dl: seq<nat>, bits: seq<bool>, pos: nat)
    requires t.Match? && 3 <= t.len <= 258 && 1 <= t.dist <= 32768
    requires DistCode(t.dist) < |dl| && dl[DistCode(t.dist)] > 0
    requires PrefixCode(dl, 15) && At(bits, pos, MatchBits(t, dl))
    ensures MatchAt(LengthCode(t.len), bits, pos, dl) == Ok(((t.len, t.dist), pos + |MatchBits(t, dl)|))
  {
    hide At, PairBits, MatchAt, PrefixCode, LengthBase, LengthExtra, DistBase, DistExtra, LengthCode, DistCode;
    var lc, dc := LengthCode(t.len), DistCode(t.dist);
    LengthFits(t.len);
    DistFits(t.dist);
    PairBack(lc, t.len - LengthBase(lc), dc, t.dist - DistBase(dc), dl, bits, pos);
  }

  /** out is the first i bytes of d. */
  ghost predicate Rebuilt(out: seq<byte>, d: seq<byte>, i: nat)
  {
    |out| == i <= |d| && forall x :: 0 <= x < i ==> out[x] == d[x]
  }

  /** A copy rebuilds the bytes it stands for, also where it overlaps itself. */
  lemma {:induction false} CopyRebuilds(out: seq<byte>, d: seq<byte>, i: nat, len: nat, dist: nat, n: nat)
    requires Rebuilt(out, d, i) && Repeats(d, i, len, dist) && n <= len
    ensures Rebuilt(Copy(out, dist, n), d, i + n)
  {
    if n > 0 {
      CopyRebuilds(out, d, i, len, dist, n - 1);
      assert CopiedByte(d, i, dist, n - 1);
    }
  }

  lemma {:induction false} LitStep(bits: seq<bool>, pos: nat, out: seq<byte>, ll: seq<nat>, dl: seq<nat>, max: nat,
      b: byte, p: nat)
    requires |out| <= max && Decode(ll, bits, pos) == Ok((b, p))
    ensures Block(bits, pos, out, ll, dl, max) == Block(bits, p, out + [b], ll, dl, max)
  {
    hide Decode;
  }

  lemma {:induction false} CopyStep(bits: seq<bool>, pos: nat, out: seq<byte>, ll: seq<nat>, dl: seq<nat>, max: nat,
      c: nat, p: nat, len: nat, dist: nat, p': nat)
    requires c < 29 && Decode(ll, bits, pos) == Ok((257 + c, p)) && MatchAt(c, bits, p, dl) == Ok(((len, dist), p'))
    requires 1 <= dist <= |out| && |out| + len <= max
    ensures Block(bits, pos, out, ll, dl, max) == Block(bits, p', Copy(out, dist, len), ll, dl, max)
  {
    hide Decode, MatchAt, Copy;
  }

  lemma {:induction false} EndStep(bits: seq<bool>, pos: nat, out: seq<byte>, ll: seq<nat>, dl: seq<nat>, max: nat,
      p: nat)
    requires |out| <= max && Decode(ll, bits, pos) == Ok((END_OF_BLOCK, p))
    ensures Block(bits, pos, out, ll, dl, max) == Ok((out, p))
  {
    hide Decode;
  }

  lemma {:induction false} SpellsHead(toks: seq<Tok>, k: nat, d: seq<byte>, i: nat)
    requires k < |toks| && Spells(toks, k, d, i)
    ensures TokOf(toks[k], d, i) && i + TokSize(toks[k]) <= |d| && Spells(toks, k + 1, d, i + TokSize(toks[k]))
  {
  }

  lemma {:induction false} TokStep(t: Tok, ll: seq<nat>, dl: seq<nat>, bits: seq<bool>, pos: nat, out: seq<byte>,
      d: seq<byte>, i: nat, max: nat)
      returns (out': seq<byte>)
    requires PrefixCode(ll, 15) && PrefixCode(dl, 15) && CodesTok(t, ll, dl) && At(bits, pos, TokBits(t, ll, dl))
    requires Rebuilt(out, d, i) && TokOf(t, d, i) && i + TokSize(t) <= |d| <= max
    ensures Rebuilt(out', d, i + TokSize(t))
    ensures Block(bits, pos, out, ll, dl, max) == Block(bits, pos + |TokBits(t, ll, dl)|, out', ll, dl, max)
  {
    hide At, Block, Decode, DecodeAt, PrefixCode, MatchAt, MatchBits, Copy, CodeBits, LengthCode, DistCode, Repeats;
    var s := SymOf(t);
    AtSplit(bits, pos, CodeBits(ll, s), if t.Match? then MatchBits(t, dl) else []);
    DecodeWritten(ll, 15, s, bits, pos);
    var p := pos + ll[s];
    match t
    case Lit(b) =>
      LitStep(bits, pos, out, ll, dl, max, b, p);
      out' := out + [b];
    case Match(len, dist) =>
      MatchBack(t, dl, bits, p);
      RepeatsInside(d, i, len, dist);
      CopyStep(bits, pos, out, ll, dl, max, LengthCode(len), p, len, dist, p + |MatchBits(t, dl)|);
      CopyRebuilds(out, d, i, len, dist, len);
      out' := Copy(out, dist, len);
  }

  lemma {:induction false} RepeatsInside(d: seq<byte>, i: nat, len: nat, dist: nat)
    requires Repeats(d, i, len, dist)
    ensures 1 <= dist <= i && i + len <= |d|
  {
  }

  /** Decoding the tokens from k on rebuilds the data from where they spell them. */
  lemma {:induction false} TokensBack(toks: seq<Tok>, k: nat, ll: seq<nat>, dl: seq<nat>, bits: seq<bool>, pos: nat,
      out: seq<byte>, d: seq<byte>, i: nat, max: nat)
    requires PrefixCode(ll, 15) && PrefixCode(dl, 15) && AllCoded(toks, ll, dl)
    requires END_OF_BLOCK < |ll| && ll[END_OF_BLOCK] > 0
    requires At(bits, pos, TokensBits(toks, |toks|, ll, dl))
    requires At(bits, pos + |TokensBits(toks, |toks|, ll, dl)|, CodeBits(ll, END_OF_BLOCK))
    requires k <= |toks| && Spells(toks, k, d, i) && Rebuilt(out, d, i) && |d| <= max
    ensures Block(bits, pos + |TokensBits(toks, k, ll, dl)|, out, ll, dl, max)
         == Ok((d, pos + |TokensBits(toks, |toks|, ll, dl)| + ll[END_OF_BLOCK]))
    decreases |toks| - k
  {
    hide At, Block, Decode, DecodeAt, PrefixCode, TokBits, CodeBits, CodesTok, Repeats, TokOf;
    var p := pos + |TokensBits(toks, k, ll, dl)|;
    if k == |toks| {
      assert out == d;
      DecodeWritten(ll, 15, END_OF_BLOCK, bits, p);
      EndStep(bits, p, out, ll, dl, max, p + ll[END_OF_BLOCK]);
    } else {
      NthTok(toks, k, |toks|, ll, dl, bits, pos);
      SpellsHead(toks, k, d, i);
      var out' := TokStep(toks[k], ll, dl, bits, p, out, d, i, max);
      TokensBack(toks, k + 1, ll, dl, bits, pos, out', d, i + TokSize(toks[k]), max);
    }
  }

  /** A block of coded tokens decodes to the data that the tokens spell. */
  lemma {:induction false} BlockBack(toks: seq<Tok>, ll: seq<nat>, dl: seq<nat>, bits: seq<bool>, pos: nat,
      d: seq<byte>, max: nat)
    requires PrefixCode(ll, 15) && PrefixCode(dl, 15) && AllCoded(toks, ll, dl)
    requires END_OF_BLOCK < |ll| && ll[END_OF_BLOCK] > 0
    requires At(bits, pos, BlockBits(toks, ll, dl)) && Spells(toks, 0, d, 0) && |d| <= max
    ensures Block(bits, pos, [], ll, dl, max) == Ok((d, pos + |BlockBits(toks, ll, dl)|))
  {
    hide At, Block, Decode, DecodeAt, PrefixCode, TokBits, CodeBits, CodesTok, Spells;
    AtSplit(bits, pos, TokensBits(toks, |toks|, ll, dl), CodeBits(ll, END_OF_BLOCK));
    TokensBack(toks, 0, ll, dl, bits, pos, [], d, 0, max);
  }

  // ---------- Writing ----------

  /** codes are the canonical codes of the symbols in use. */
  ghost predicate CodesFor(codes: seq<nat>, lengths: seq<nat>)
  {
    |codes| == |lengths| && forall s :: 0 <= s < |lengths| && lengths[s] > 0 ==> codes[s] == CodeOf(lengths, s)
  }

  method WriteMatch(bw: BitWriter, t: Tok, dCodes: seq<nat>, dl: seq<nat>)
    requires bw.Valid() && t.Match? && 3 <= t.len <= 258 && 1 <= t.dist <= 32768
    requires DistCode(t.dist) < |dl| && dl[DistCode(t.dist)] > 0 && CodesFor(dCodes, dl)
    modifies bw
    ensures bw.Valid() && bw.written == old(bw.written) + MatchBits(t, dl)
  {
    hide Holds, LsbBits, MsbBits, LengthCode, DistCode, LengthBase, DistBase, LengthExtra, DistExtra, CodeOf;
    LengthFits(t.len);
    DistFits(t.dist);
    var lc := EncLengthCode(t.len);
    var dc := EncDistanceCode(t.dist);
    ghost var w := bw.written;
    bw.WriteBits(t.len - LengthBase(lc), LengthExtra(lc));
    bw.WriteHuff(dCodes[dc], dl[dc]);
    bw.WriteBits(t.dist - DistBase(dc), DistExtra(dc));
    Assoc(w, LsbBits(t.len - LengthBase(lc), LengthExtra(lc)), CodeBits(dl, dc),
        LsbBits(t.dist - DistBase(dc), DistExtra(dc)));
  }

  lemma {:induction false} Assoc(w: seq<bool>, a: seq<bool>, b: seq<bool>, c: seq<bool>)
    ensures ((w + a) + b) + c == w + (a + (b + c))
  {
  }

  method WriteTok(bw: BitWriter, t: Tok, llCodes: seq<nat>, ll: seq<nat>, dCodes: seq<nat>, dl: seq<nat>)
    requires bw.Valid() && CodesTok(t, ll, dl) && CodesFor(llCodes, ll) && CodesFor(dCodes, dl)
    modifies bw
    ensures bw.Valid() && bw.written == old(bw.written) + TokBits(t, ll, dl)
  {
    hide Holds, LsbBits, MsbBits, LengthCode, DistCode, MatchBits, CodeOf;
    ghost var w := bw.written;
    match t
    case Lit(b) =>
      bw.WriteHuff(llCodes[b], ll[b]);
      assert bw.written == w + (CodeBits(ll, b) + []);
    case Match(len, dist) =>
      var lc := EncLengthCode(len);
      var sym := 257 + lc;
      bw.WriteHuff(llCodes[sym], ll[sym]);
      WriteMatch(bw, t, dCodes, dl);
      assert bw.written == w + (CodeBits(ll, sym) + MatchBits(t, dl));
  }

  /** Writes the tokens and the end of the block. */
  method WriteBlock(bw: BitWriter, toks: seq<Tok>, llCodes: seq<nat>, ll: seq<nat>, dCodes: seq<nat>, dl: seq<nat>)
    requires bw.Valid() && AllCoded(toks, ll, dl) && CodesFor(llCodes, ll) && CodesFor(dCodes, dl)
    requires END_OF_BLOCK < |ll| && ll[END_OF_BLOCK] > 0
    modifies bw
    ensures bw.Valid() && bw.written == old(bw.written) + BlockBits(toks, ll, dl)
  {
    hide Holds, TokBits, CodesTok, MsbBits, CodeOf;
    ghost var w := bw.written;
    for k := 0 to |toks|
      invariant bw.Valid() && bw.written == w + TokensBits(toks, k, ll, dl)
    {
      WriteTok(bw, toks[k], llCodes, ll, dCodes, dl);
      assert (w + TokensBits(toks, k, ll, dl)) + TokBits(toks[k], ll, dl) == w + TokensBits(toks, k + 1, ll, dl);
    }
    bw.WriteHuff(llCodes[END_OF_BLOCK], ll[END_OF_BLOCK]);
    assert (w + TokensBits(toks, |toks|, ll, dl)) + CodeBits(ll, END_OF_BLOCK) == w + BlockBits(toks, ll, dl);
  }
}
