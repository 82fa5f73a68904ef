/** Compression into one block with the fixed codes of section 3.2.6 of RFC 1951. */
module FixedBlock {
  import opened Bits
  import opened BitIO
  import opened Huffman
  import opened Lz77
  import opened DeflateTables
  import opened Inflate
  import opened TokenCode
  import opened CodeChoice
  import opened Dynamic

  // ---------- The fixed codes are the canonical ones of the fixed lengths ----------

  /** How many of the first n symbols have code length l. */
  function FixedCount(n: nat, l: nat): (c: nat)
  {
    if l == 8 then (if n <= 144 then n else if n <= 280 then 144 else n - 136)
    else if l == 9 then (if n <= 144 then 0 else if n <= 256 then n - 144 else 112)
    else if l == 7 then (if n <= 256 then 0 else if n <= 280 then n - 256 else 24)
    else 0
  }

  lemma {:induction false} FixedCounts(n: nat, l: nat)
    requires n <= 288
    ensures CountTo(FixedLit(), n, l) == FixedCount(n, l)
  {
    if n > 0 { FixedCounts(n - 1, l); }
  }

  lemma {:induction false} FixedFirst(l: nat)
    requires l <= 9
    ensures FirstCode(FixedLit(), l) == if l == 9 then 0x190 else if l == 8 then 0x30 else 0
  {
    hide FixedLit, CountTo;
    if l > 1 {
      FixedFirst(l - 1);
      FixedCounts(288, l - 1);
    }
  }

  /** Code and length of a literal/length symbol. */
  function FixedCode(sym: nat): (r: (nat, nat))
    requires sym < 288
  {
    if sym <= 143 then (0x30 + sym, 8)
    else if sym <= 255 then (0x190 + (sym - 144), 9)
    else if sym <= 279 then (sym - 256, 7)
    else (0xC0 + (sym - 280), 8)
  }

  lemma {:induction false} FixedCodeIsCanonical(sym: nat)
    requires sym < 288
    ensures FixedCode(sym) == (CodeOf(FixedLit(), sym), FixedLit()[sym])
  {
    hide CountTo, FirstCode;
    FixedCounts(sym, FixedLitLen(sym));
    FixedFirst(FixedLitLen(sym));
  }

  lemma {:induction false} DistCounts(n: nat, l: nat)
    requires n <= 30
    ensures CountTo(FixedDist(), n, l) == if l == 5 then n else 0
  {
    if n > 0 { DistCounts(n - 1, l); }
  }

  lemma {:induction false} DistFirst(l: nat)
    requires l <= 5
    ensures FirstCode(FixedDist(), l) == 0
  {
    hide FixedDist, CountTo;
    if l > 1 {
      DistFirst(l - 1);
      DistCounts(30, l - 1);
    }
  }

  /** A distance code is its own five-bit code. */
  lemma {:induction false} FixedDistIsCanonical(dc: nat)
    requires dc < 30
    ensures CodeOf(FixedDist(), dc) == dc && FixedDist()[dc] == 5
  {
    hide CountTo, FirstCode;
    DistCounts(dc, 5);
    DistFirst(5);
  }

  lemma {:induction false} FixedKraftTo(n: nat)
    requires n <= 288
    ensures KraftTo(FixedLit(), n, 15) == 128 * FixedCount(n, 8) + 64 * FixedCount(n, 9) + 256 * FixedCount(n, 7)
  {
    if n > 0 {
      FixedKraftTo(n - 1);
      Pow2Values();
    }
  }

  lemma {:induction false} DistKraftTo(n: nat)
    requires n <= 30
    ensures KraftTo(FixedDist(), n, 15) == 1024 * n
  {
    if n > 0 {
      DistKraftTo(n - 1);
      Pow2Values();
    }
  }

  /** The fixed lengths describe prefix codes; the literal/length code is complete. */
  lemma {:induction false} FixedPrefixCodes()
    ensures PrefixCode(FixedLit(), 15) && PrefixCode(FixedDist(), 15) && KraftSum(FixedLit(), 15) == Pow2(15)
  {
    hide KraftTo;
    FixedKraftTo(288);
    DistKraftTo(30);
    Pow2Values();
  }

  // ---------- Tokens written so far ----------

  lemma {:induction false} TokensBitsSame(s: seq<Tok>, t: seq<Tok>, k: nat, ll: seq<nat>, dl: seq<nat>)
    requires k <= |s| && k <= |t| && AllCoded(s, ll, dl) && AllCoded(t, ll, dl)
    requires forall x :: 0 <= x < k ==> s[x] == t[x]
    ensures TokensBits(s, k, ll, dl) == TokensBits(t, k, ll, dl)
  {
    hide TokBits, CodesTok;
    if k > 0 { TokensBitsSame(s, t, k - 1, ll, dl); }
  }

  /** w is the start of a fixed block that holds the first i bytes of d as these tokens. */
  ghost predicate Written(w: seq<bool>, toks: seq<Tok>, d: seq<byte>, i: nat)
  {
    && SpelledTo(toks, d, i) && AllCoded(toks, FixedLit(), FixedDist())
    && w == (LsbBits(1, 1) + LsbBits(1, 2)) + TokensBits(toks, |toks|, FixedLit(), FixedDist())
  }

  lemma {:induction false} WriteMore(w: seq<bool>, toks: seq<Tok>, d: seq<byte>, i: nat, t: Tok)
    requires Written(w, toks, d, i) && TokOf(t, d, i) && i + TokSize(t) <= |d| && CodesTok(t, FixedLit(), FixedDist())
    ensures Written(w + TokBits(t, FixedLit(), FixedDist()), toks + [t], d, i + TokSize(t))
  {
    hide SpelledTo, TokOf, CodesTok, TokBits, LsbBits, FixedLit, FixedDist;
    SpellMore(toks, d, i, t);
    TokensBitsSame(toks + [t], toks, |toks|, FixedLit(), FixedDist());
    var h, b, x := LsbBits(1, 1) + LsbBits(1, 2), TokensBits(toks, |toks|, FixedLit(), FixedDist()),
        TokBits(t, FixedLit(), FixedDist());
    assert (h + b) + x == h + (b + x);
  }

  /** Every token of the format has fixed codes. */
  lemma {:induction false} FixedCoded(t: Tok)
    requires t.Match? ==> 3 <= t.len <= 258 && 1 <= t.dist <= 32768
    ensures CodesTok(t, FixedLit(), FixedDist())
  {
    hide LengthCode, DistCode;
  }

  lemma {:induction false} FixedBack(c: seq<byte>, d: seq<byte>, max: nat, toks: seq<Tok>, w: seq<bool>)
    requires Written(w, toks, d, |d|) && |d| <= max && At(BytesToBits(c), 0, w + CodeBits(FixedLit(), END_OF_BLOCK))
    ensures Inflated(c, max) == Ok((d, RoundUp8(|w| + 7) / 8))
  {
    hide At, PrefixCode, AllCoded, LsbBits, TokensBits, Block, Spells, SpelledTo, BytesToBits, Inflated, ReadField,
        RoundUp8, CodeBits;
    var bits, ll, dl := BytesToBits(c), FixedLit(), FixedDist();
    var u, v, b, e := LsbBits(1, 1), LsbBits(1, 2), TokensBits(toks, |toks|, ll, dl), CodeBits(ll, END_OF_BLOCK);
    assert ((u + v) + b) + e == u + (v + (b + e));
    FinalBlock(bits, 1, b + e);
    FixedPrefixCodes();
    SpelledSpells(toks, d, 0);
    BlockBack(toks, ll, dl, bits, 3, d, max);
    OneBlock(c, 1, max, d, 3 + |b + e|);
  }

  lemma {:induction false} FixedDecompresses(c: seq<byte>, d: seq<byte>, toks: seq<Tok>, w: seq<bool>)
    requires Written(w, toks, d, |d|) && At(BytesToBits(c), 0, w + CodeBits(FixedLit(), END_OF_BLOCK))
    requires |c| == (|w| + 7 + 7) / 8
    ensures Decompresses(c, d)
  {
    hide At, Written, BytesToBits, Inflated, CodeBits;
    forall tail: seq<byte>, max: nat | max >= |d|
      ensures Inflated(c + tail, max) == Ok((d, |c|))
    {
      WithTail(c, tail, w + CodeBits(FixedLit(), END_OF_BLOCK));
      FixedBack(c + tail, d, max, toks, w);
    }
  }

  // ---------- Writing ----------

  method WriteFixedLiteral(bw: BitWriter, b: byte)
    requires bw.Valid()
    modifies bw
    ensures bw.Valid() && CodesTok(Lit(b), FixedLit(), FixedDist())
    ensures bw.written == old(bw.written) + TokBits(Lit(b), FixedLit(), FixedDist())
  {
    hide Holds, FixedLit, FixedDist, FixedCode, CodeOf, MsbBits;
    FixedCodeIsCanonical(b);
    FixedCoded(Lit(b));
    ghost var w := bw.written;
    var (c, n) := FixedCode(b);
    bw.WriteHuff(c, n);
    assert w + (CodeBits(FixedLit(), b) + []) == w + CodeBits(FixedLit(), b);
  }

  /** What follows the symbol of a match. */
  method WriteFixedRest(bw: BitWriter, len: nat, dist: nat, lc: nat)
    requires bw.Valid() && 3 <= len <= 258 && 1 <= dist <= 32768 && lc == LengthCode(len)
    requires DistCode(dist) < |FixedDist()|
    modifies bw
    ensures bw.Valid() && bw.written == old(bw.written) + MatchBits(Match(len, dist), FixedDist())
  {
    hide Holds, FixedDist, CodeOf, MsbBits, LsbBits, LengthCode, DistCode, LengthBase, DistBase, LengthExtra, DistExtra,
        Pow2, Bounded;
    LengthFits(len);
    DistFits(dist);
    var dc := EncDistanceCode(dist);
    FixedDistIsCanonical(dc);
    ghost var w := bw.written;
    bw.WriteBits(len - LengthBase(lc), LengthExtra(lc));
    bw.WriteHuff(dc, 5);
    bw.WriteBits(dist - DistBase(dc), DistExtra(dc));
    Assoc(w, LsbBits(len - LengthBase(lc), LengthExtra(lc)), CodeBits(FixedDist(), dc),
        LsbBits(dist - DistBase(dc), DistExtra(dc)));
  }

  method WriteFixedMatch(bw: BitWriter, len: nat, dist: nat)
    requires bw.Valid() && 3 <= len <= 258 && 1 <= dist <= 32768
    modifies bw
    ensures bw.Valid() && CodesTok(Match(len, dist), FixedLit(), FixedDist())
    ensures bw.written == old(bw.written) + TokBits(Match(len, dist), FixedLit(), FixedDist())
  {
    hide Holds, FixedLit, FixedDist, FixedCode, CodeOf, MsbBits, LengthCode, DistCode, MatchBits, Bounded;
    var lc := EncLengthCode(len);
    FixedCodeIsCanonical(257 + lc);
    FixedCoded(Match(len, dist));
    ghost var w := bw.written;
    var (c, n) := FixedCode(257 + lc);
    bw.WriteHuff(c, n);
    WriteFixedRest(bw, len, dist, lc);
    ghost var x, y := CodeBits(FixedLit(), 257 + lc), MatchBits(Match(len, dist), FixedDist());
    assert (w + x) + y == w + (x + y);
  }

  /** The header of a final block with the fixed codes. */
  method StartFixed(d: seq<byte>) returns (bw: BitWriter)
    ensures fresh(bw) && bw.Valid() && Written(bw.written, [], d, 0)
  {
    hide Holds, LsbBits;
    Pow2Values();
    bw := new BitWriter();
    bw.WriteBits(1, 1);
    bw.WriteBits(1, 2);
    ghost var u, v := LsbBits(1, 1), LsbBits(1, 2);
    assert ([] + u) + v == (u + v) + [];
  }

  /** The stream of a final fixed block of these tokens. */
  ghost function FixedBits(toks: seq<Tok>): (w: seq<bool>)
    requires AllCoded(toks, FixedLit(), FixedDist())
  {
    ((LsbBits(1, 1) + LsbBits(1, 2)) + TokensBits(toks, |toks|, FixedLit(), FixedDist())) +
        CodeBits(FixedLit(), END_OF_BLOCK)
  }

  /** c is the fixed block of tokens that spell the data, and nothing more. */
  ghost predicate Writes(c: seq<byte>, data: seq<byte>, toks: seq<Tok>)
  {
    && Spells(toks, 0, data, 0) && AllCoded(toks, FixedLit(), FixedDist())
    && Packs(c, FixedBits(toks))
  }

  /** The tokens are those of the search (below 2^31 bytes). */
  ghost predicate IsFixed(c: seq<byte>, data: seq<byte>)
  {
    exists toks :: Writes(c, data, toks) && (|data| < 0x8000_0000 ==> toks == Tokens(data))
  }

  method EndFixed(bw: BitWriter, d: seq<byte>, ghost toks: seq<Tok>) returns (c: seq<byte>)
    requires bw.Valid() && Written(bw.written, toks, d, |d|)
    modifies bw
    ensures Decompresses(c, d) && Writes(c, d, toks)
  {
    hide Holds, At, BytesToBits, FixedCode, CodeOf, MsbBits, Decompresses, FixedLit, AllCoded, SpelledTo, TokensBits,
        Spells, LsbBits;
    FixedCodeIsCanonical(END_OF_BLOCK);
    assert FixedCode(END_OF_BLOCK).1 == 7 by { SevenBits(); }
    ghost var w := bw.written;
    var (code, n) := FixedCode(END_OF_BLOCK);
    bw.WriteHuff(code, n);
    c := bw.Finish();
    FixedDecompresses(c, d, toks, w);
    SpelledSpells(toks, d, 0);
    StartNone(toks);
  }

  lemma {:induction false} StartNone(toks: seq<Tok>)
    ensures Start(toks, 0) == 0
  {
  }

  lemma {:induction false} SevenBits()
    ensures FixedCode(END_OF_BLOCK) == (0, 7)
  {
  }

  method DeflateFixedLiterals(data: seq<byte>) returns (c: seq<byte>)
    ensures Decompresses(c, data) && forall toks :: AllLiterals(toks, data) ==> Writes(c, data, toks)
  {
    hide Holds, Written, Decompresses, TokBits, CodesTok, Writes;
    var bw := StartFixed(data);
    ghost var toks := [];
    for i := 0 to |data|
      invariant bw.Valid() && fresh(bw) && Written(bw.written, toks, data, i)
      invariant |toks| == i && forall k :: 0 <= k < i ==> toks[k] == Lit(data[k])
    {
      ghost var w := bw.written;
      WriteFixedLiteral(bw, data[i]);
      WriteMore(w, toks, data, i, Lit(data[i]));
      toks := toks + [Lit(data[i])];
    }
    c := EndFixed(bw, data, toks);
    assert forall other :: AllLiterals(other, data) ==> other == toks;
  }

  /** The tokenizer and the writer in one pass. */
  method DeflateFixed(data: seq<byte>) returns (c: seq<byte>)
    ensures Decompresses(c, data) && IsFixed(c, data)
  {
    hide Holds, Written, Decompresses, TokBits, CodesTok, Linked, FindMatch, Repeats, Writes;
    ghost var small := |data| < 0x8000_0000;
    if |data| < MIN_MATCH {
      c := DeflateFixedLiterals(data);
      ShortTokens(data, 0, []);
      return;
    }
    var bw := StartFixed(data);
    ghost var toks := [];
    var head := new int[HASH_SIZE](_ => -1);
    var prev := new int[|data|](_ => -1);
    InitialChains(head[..], prev[..], data);
    var i := 0;
    while i < |data|
      invariant 0 <= i <= |data| && Linked(head[..], prev[..], data, i)
      invariant small ==> Tokens(data) == TokensFrom(data, i, toks)
      invariant bw.Valid() && fresh(bw) && Written(bw.written, toks, data, i)
    {
      var bestLen, bestDist := WalkChain(data, i, head, prev);
      ghost var w := bw.written;
      if bestLen >= MIN_MATCH {
        MatchInRange(data, i, bestLen, bestDist);
        WriteFixedMatch(bw, bestLen, bestDist);
        WriteMore(w, toks, data, i, Match(bestLen, bestDist));
        toks := toks + [Match(bestLen, bestDist)];
        EnterAll(data, i, i + bestLen, head, prev);
        i := i + bestLen;
      } else {
        WriteFixedLiteral(bw, data[i]);
        WriteMore(w, toks, data, i, Lit(data[i]));
        toks := toks + [Lit(data[i])];
        Enter(data, i, head, prev);
        i := i + 1;
      }
    }
    c := EndFixed(bw, data, toks);
  }

  lemma {:induction false} MatchInRange(d: seq<byte>, i: nat, len: nat, dist: nat)
    requires Repeats(d, i, len, dist)
    ensures 1 <= dist <= 32768 && len <= 258 && i + len <= |d|
  {
  }

  // ---------- The encoder for small inputs ----------

  /** The best match among the first j positions, the first of the longest. */
  function SmallTo(d: seq<byte>, i: nat, j: nat): (r: (nat, nat))
    requires j <= i <= |d|
  {
    if j == 0 then (0, 0)
    else
      var best := SmallTo(d, i, j - 1);
      var len := MatchLen(d, j - 1, i, 0, MaxMatch(d, i));
      if len > best.0 then (len, i - (j - 1)) else best
  }

  function SmallMatch(d: seq<byte>, i: nat): (r: (nat, nat))
    requires i <= |d|
  {
    if SmallTo(d, i, i).0 >= MIN_MATCH then SmallTo(d, i, i) else (0, 0)
  }

  /** The tokens so far followed by those of the bytes from i on: a match that was not put off before gives way to a
      literal when the next position promises as much. */
  function LazyFrom(d: seq<byte>, i: nat, deferred: bool, acc: seq<Tok>): (r: seq<Tok>)
    decreases |d| - i, d
  {
    if i >= |d| then acc
    else
      var (len, dist) := SmallMatch(d, i);
      var next := if i + 1 < |d| then SmallMatch(d, i + 1).0 else 0;
      if len >= MIN_MATCH && (deferred || next + 1 < len) then LazyFrom(d, i + len, false, acc + [Match(len, dist)])
      else LazyFrom(d, i + 1, len >= MIN_MATCH, acc + [Lit(d[i])])
  }

  /** The bytes from i on repeat those dist back for len bytes and no longer. */
  ghost predicate IsMatch(d: seq<byte>, i: nat, len: nat, dist: nat)
    requires i <= |d|
  {
    1 <= dist <= i && len == MatchLen(d, i - dist, i, 0, MaxMatch(d, i))
  }

  /** The longest match over all earlier positions; the farthest of the longest. */
  method SmallBestMatch(d: seq<byte>, i: nat) returns (bestLen: nat, bestDist: nat)
    requires i <= |d|
    ensures (bestLen, bestDist) == SmallMatch(d, i)
    ensures bestLen > 0 ==> MIN_MATCH <= bestLen && IsMatch(d, i, bestLen, bestDist)
    ensures bestLen > 0 && bestDist <= WSIZE ==> Repeats(d, i, bestLen, bestDist)
    ensures forall j :: 0 <= j < i ==>
              MatchLen(d, j, i, 0, MaxMatch(d, i)) <= if bestLen == 0 then MIN_MATCH - 1 else bestLen
    ensures bestLen > 0 ==> forall j :: 0 <= j < i - bestDist ==> MatchLen(d, j, i, 0, MaxMatch(d, i)) < bestLen
  {
    hide Repeats, MatchLen, MaxMatch;
    bestLen, bestDist := 0, 0;
    for j := 0 to i
      invariant (bestLen, bestDist) == SmallTo(d, i, j)
      invariant bestLen > 0 ==> IsMatch(d, i, bestLen, bestDist)
      invariant bestLen > 0 && bestDist <= WSIZE ==> Repeats(d, i, bestLen, bestDist)
      invariant forall k :: 0 <= k < j ==> MatchLen(d, k, i, 0, MaxMatch(d, i)) <= bestLen
      invariant bestLen > 0 ==> forall k :: 0 <= k < i - bestDist ==> MatchLen(d, k, i, 0, MaxMatch(d, i)) < bestLen
    {
      var len := CommonLength(d, j, i, MaxMatch(d, i));
      if i - j <= WSIZE { MatchRepeats(d, j, i); }
      if len > bestLen {
        bestLen, bestDist := len, i - j;
      }
    }
    if bestLen < MIN_MATCH {
      bestLen, bestDist := 0, 0;
    }
  }

  /** The fixed block of the lazy tokens. */
  method DeflateFixedSmallLazy(data: seq<byte>) returns (c: seq<byte>)
    requires |data| <= WSIZE
    ensures Decompresses(c, data) && Writes(c, data, LazyFrom(data, 0, false, []))
  {
    hide Holds, Written, Decompresses, TokBits, CodesTok, Repeats, Writes, SmallMatch;
    var bw := StartFixed(data);
    ghost var toks := [];
    var i := 0;
    var deferred := false;
    while i < |data|
      invariant 0 <= i <= |data| && LazyFrom(data, 0, false, []) == LazyFrom(data, i, deferred, toks)
      invariant bw.Valid() && fresh(bw) && Written(bw.written, toks, data, i)
    {
      var bestLen, bestDist := SmallBestMatch(data, i);
      var defer := false;
      if bestLen >= MIN_MATCH && !deferred {
        var nextLen := 0;
        if i + 1 < |data| {
          var next, _ := SmallBestMatch(data, i + 1);
          nextLen := next;
        }
        defer := nextLen + 1 >= bestLen;
      }
      ghost var w := bw.written;
      if bestLen >= MIN_MATCH && !defer {
        MatchInRange(data, i, bestLen, bestDist);
        WriteFixedMatch(bw, bestLen, bestDist);
        WriteMore(w, toks, data, i, Match(bestLen, bestDist));
        toks := toks + [Match(bestLen, bestDist)];
        i := i + bestLen;
        deferred := false;
      } else {
        WriteFixedLiteral(bw, data[i]);
        WriteMore(w, toks, data, i, Lit(data[i]));
        toks := toks + [Lit(data[i])];
        i := i + 1;
        deferred := defer;
      }
    }
    c := EndFixed(bw, data, toks);
  }
}
