/** Compression into one block with its own Huffman codes. */
module Dynamic {
  import opened Bits
  import opened BitIO
  import opened Huffman
  import opened PackageMerge
  import opened Lz77
  import opened DeflateTables
  import opened Inflate
  import opened CodeLengths
  import opened TokenCode
  import opened CodeChoice

  /** c decompresses to d, whatever follows it, and all of c is consumed. */
  ghost predicate Decompresses(c: seq<byte>, d: seq<byte>)
  {
    forall tail: seq<byte>, max: nat :: max >= |d| ==> Inflated(c + tail, max) == Ok((d, |c|))
  }

  // ---------- The stream of a dynamic block ----------

  ghost function HeaderBits(hlit: nat, hdist: nat, hclen: nat, cl: seq<nat>, syms: seq<ClSym>): (w: seq<bool>)
    requires 257 <= hlit && 1 <= hdist && 4 <= hclen <= 19 && |cl| == 19 && Coded(syms, cl)
  {
    LsbBits(hlit - 257, 5) + (LsbBits(hdist - 1, 5) +
        (LsbBits(hclen - 4, 4) + (ClBits(cl, hclen) + RunBits(syms, |syms|, cl))))
  }

  /** The header's parts fit together. */
  ghost predicate HeaderForm(ll: seq<nat>, dl: seq<nat>, hclen: nat, cl: seq<nat>, syms: seq<ClSym>)
  {
    && 257 <= |ll| <= 288 && 1 <= |dl| <= 32 && 4 <= hclen
    && SentUpTo(cl, hclen) && Bounded(cl, 7) && Sound(syms) && Coded(syms, cl) && Unroll(syms, |syms|) == ll + dl
  }

  /** Likewise, with a prefix code for the code lengths. */
  ghost predicate HeaderOk(ll: seq<nat>, dl: seq<nat>, hclen: nat, cl: seq<nat>, syms: seq<ClSym>)
  {
    HeaderForm(ll, dl, hclen, cl, syms) && PrefixCode(cl, 7)
  }

  lemma {:induction false} CountsBack(bits: seq<bool>, pos: nat, hlit: nat, hdist: nat, hclen: nat)
    requires 257 <= hlit <= 288 && 1 <= hdist <= 32 && 4 <= hclen <= 19
    requires At(bits, pos, LsbBits(hlit - 257, 5)) && At(bits, pos + 5, LsbBits(hdist - 1, 5))
    requires At(bits, pos + 10, LsbBits(hclen - 4, 4))
    ensures Counts(bits, pos) == Ok(((hlit, hdist, hclen), pos + 14))
  {
    hide At, LsbBits, ReadField;
    Pow2Values();
    FieldBack(bits, pos, hlit - 257, 5);
    FieldBack(bits, pos + 5, hdist - 1, 5);
    FieldBack(bits, pos + 10, hclen - 4, 4);
  }

  lemma {:induction false} AllLensBack(bits: seq<bool>, pos: nat, hclen: nat, cl: seq<nat>, syms: seq<ClSym>,
      all: seq<nat>)
    requires SentUpTo(cl, hclen) && PrefixCode(cl, 7) && Sound(syms) && Coded(syms, cl) && Unroll(syms, |syms|) == all
    requires At(bits, pos, ClBits(cl, hclen)) && At(bits, pos + 3 * hclen, RunBits(syms, |syms|, cl))
    ensures AllLens(bits, pos, hclen, |all|) == Ok((all, pos + 3 * hclen + |RunBits(syms, |syms|, cl)|))
  {
    hide At, Lens, ClLens, ClBits, Sound, Coded, SentUpTo, KraftSum;
    ClLensRead(cl, hclen, bits, pos);
    RunsRead(syms, cl, 7, bits, pos + 3 * hclen, 0, all);
    assert Unroll(syms, 0) == [] && RunBits(syms, 0, cl) == [];
  }

  /** The decoder reads back the code lengths of both codes. */
  lemma {:induction false} HeaderBack(bits: seq<bool>, pos: nat, ll: seq<nat>, dl: seq<nat>, hclen: nat, cl: seq<nat>,
      syms: seq<ClSym>)
    requires HeaderOk(ll, dl, hclen, cl, syms) && At(bits, pos, HeaderBits(|ll|, |dl|, hclen, cl, syms))
    ensures Header(bits, pos) == Ok(((ll, dl), pos + |HeaderBits(|ll|, |dl|, hclen, cl, syms)|))
  {
    hide At, Counts, AllLens, ClBits, Sound, Coded, PrefixCode, LsbBits, RunBits, Unroll;
    var a, b, c, e, f := LsbBits(|ll| - 257, 5), LsbBits(|dl| - 1, 5), LsbBits(hclen - 4, 4), ClBits(cl, hclen),
        RunBits(syms, |syms|, cl);
    AtSplit(bits, pos, a, b + (c + (e + f)));
    AtSplit(bits, pos + 5, b, c + (e + f));
    AtSplit(bits, pos + 10, c, e + f);
    AtSplit(bits, pos + 14, e, f);
    CountsBack(bits, pos, |ll|, |dl|, hclen);
    AllLensBack(bits, pos + 14, hclen, cl, syms, ll + dl);
    assert (ll + dl)[..|ll|] == ll && (ll + dl)[|ll|..] == dl;
  }

  ghost function DynamicBits(toks: seq<Tok>, ll: seq<nat>, dl: seq<nat>, hclen: nat, cl: seq<nat>,
      syms: seq<ClSym>): (w: seq<bool>)
    requires HeaderOk(ll, dl, hclen, cl, syms) && AllCoded(toks, ll, dl)
  {
    LsbBits(1, 1) + (LsbBits(2, 2) + (HeaderBits(|ll|, |dl|, hclen, cl, syms) + BlockBits(toks, ll, dl)))
  }

  /** The first three bits of a final block. */
  lemma {:induction false} FinalBlock(bits: seq<bool>, btype: nat, rest: seq<bool>)
    requires btype < 4 && At(bits, 0, LsbBits(1, 1) + (LsbBits(btype, 2) + rest))
    ensures ReadField(bits, 0, 1) == Ok(1) && ReadField(bits, 1, 2) == Ok(btype) && At(bits, 3, rest)
  {
    hide At, LsbBits, ReadField;
    AtSplit(bits, 0, LsbBits(1, 1), LsbBits(btype, 2) + rest);
    AtSplit(bits, 1, LsbBits(btype, 2), rest);
    Pow2Values();
    FieldBack(bits, 0, 1, 1);
    FieldBack(bits, 1, btype, 2);
  }

  /** A stream that consists of one final block. */
  lemma {:induction false} OneBlock(data: seq<byte>, btype: nat, max: nat, d: seq<byte>, p: nat)
    requires ReadField(BytesToBits(data), 0, 1) == Ok(1) && ReadField(BytesToBits(data), 1, 2) == Ok(btype)
    requires BlockOfType(btype, data, BytesToBits(data), 3, [], max) == Ok((d, p))
    ensures Inflated(data, max) == Ok((d, RoundUp8(p) / 8))
  {
    hide ReadField, BlockOfType, BytesToBits;
    assert NextBlock(data, BytesToBits(data), 0, [], max) == Ok(((true, d), p));
  }

  lemma {:induction false} DynamicBack(c: seq<byte>, d: seq<byte>, max: nat, toks: seq<Tok>, ll: seq<nat>, dl: seq<nat>,
      hclen: nat, cl: seq<nat>, syms: seq<ClSym>)
    requires HeaderOk(ll, dl, hclen, cl, syms) && AllCoded(toks, ll, dl) && PrefixCode(ll, 15) && PrefixCode(dl, 15)
    requires ll[END_OF_BLOCK] > 0 && Spells(toks, 0, d, 0) && |d| <= max
    requires At(BytesToBits(c), 0, DynamicBits(toks, ll, dl, hclen, cl, syms))
    ensures Inflated(c, max) == Ok((d, RoundUp8(|DynamicBits(toks, ll, dl, hclen, cl, syms)|) / 8))
  {
    hide At, Sound, Coded, Unroll, PrefixCode, AllCoded, LsbBits, HeaderBits, BlockBits, Header, Block, Spells,
        BytesToBits, Inflated, ReadField, RoundUp8;
    var bits, h, b := BytesToBits(c), HeaderBits(|ll|, |dl|, hclen, cl, syms), BlockBits(toks, ll, dl);
    FinalBlock(bits, 2, h + b);
    AtSplit(bits, 3, h, b);
    HeaderBack(bits, 3, ll, dl, hclen, cl, syms);
    BlockBack(toks, ll, dl, bits, 3 + |h|, d, max);
    OneBlock(c, 2, max, d, 3 + |h| + |b|);
  }

  /** The compressed bytes followed by anything are still read the same way. */
  lemma {:induction false} WithTail(c: seq<byte>, tail: seq<byte>, w: seq<bool>)
    requires At(BytesToBits(c), 0, w)
    ensures At(BytesToBits(c + tail), 0, w)
  {
    hide BytesToBits;
    BytesToBitsConcat(c, tail);
  }

  lemma {:induction false} DynamicDecompresses(c: seq<byte>, d: seq<byte>, toks: seq<Tok>, ll: seq<nat>, dl: seq<nat>,
      hclen: nat, cl: seq<nat>, syms: seq<ClSym>)
    requires HeaderOk(ll, dl, hclen, cl, syms) && BlockCodes(toks, ll, dl) && Spells(toks, 0, d, 0)
    requires At(BytesToBits(c), 0, DynamicBits(toks, ll, dl, hclen, cl, syms))
    requires |c| == (|DynamicBits(toks, ll, dl, hclen, cl, syms)| + 7) / 8
    ensures Decompresses(c, d)
  {
    hide At, HeaderOk, PrefixCode, AllCoded, DynamicBits, Spells, BytesToBits, Inflated;
    forall tail: seq<byte>, max: nat | max >= |d|
      ensures Inflated(c + tail, max) == Ok((d, |c|))
    {
      WithTail(c, tail, DynamicBits(toks, ll, dl, hclen, cl, syms));
      DynamicBack(c + tail, d, max, toks, ll, dl, hclen, cl, syms);
    }
  }

  // ---------- The code length code ----------

  /** Occurrences of the code length symbols. */
  function ClFreqs(syms: seq<ClSym>, n: nat): (f: seq<nat>)
    requires n <= |syms|
    ensures |f| == 19
  {
    if n == 0 then Repeat(0, 19)
    else if syms[n - 1].sym < 19 then Bump(ClFreqs(syms, n - 1), syms[n - 1].sym)
    else ClFreqs(syms, n - 1)
  }

  lemma {:induction false} ClCounted(syms: seq<ClSym>, n: nat, k: nat)
    requires k < n <= |syms| && syms[k].sym < 19
    ensures ClFreqs(syms, n)[syms[k].sym] > 0
  {
    if k < n - 1 { ClCounted(syms, n - 1, k); }
  }

  method CountClFreqs(syms: seq<ClSym>) returns (f: seq<nat>)
    requires Sound(syms)
    ensures f == ClFreqs(syms, |syms|)
  {
    f := Repeat(0, 19);
    for k := 0 to |syms|
      invariant f == ClFreqs(syms, k)
    {
      f := Bump(f, syms[k].sym);
    }
  }

  /** The code length code, and how many of its lengths are sent. */
  method ChooseCl(syms: seq<ClSym>) returns (cl: seq<nat>, hclen: nat)
    requires Sound(syms)
    ensures 4 <= hclen && SentUpTo(cl, hclen) && PrefixCode(cl, 7) && Coded(syms, cl)
    ensures hclen > 4 ==> cl[ClOrder(hclen - 1)] != 0
    ensures BestCode(ClFreqs(syms, |syms|), cl, 7)
  {
    hide KraftSum, ClFreqs, Cost, LeafCoins, ClOrder, ClRank;
    var freqs := CountClFreqs(syms);
    Pow2Values();
    cl := PackageMerge.PackageMerge(freqs, 7);
    forall k | 0 <= k < |syms|
      ensures syms[k].sym < |cl| && cl[syms[k].sym] > 0
    {
      ClCounted(syms, |syms|, k);
    }
    hclen := 19;
    while hclen > 4 && cl[ClOrder(hclen - 1)] == 0
      invariant 4 <= hclen <= 19 && SentUpTo(cl, hclen)
    {
      FewerSent(cl, hclen);
      hclen := hclen - 1;
    }
  }

  lemma {:induction false} FewerSent(cl: seq<nat>, n: nat)
    requires 0 < n && SentUpTo(cl, n) && cl[ClOrder(n - 1)] == 0
    ensures SentUpTo(cl, n - 1)
  {
    hide ClOrder, ClRank;
    var n' := n - 1;
    forall s | 0 <= s < 19 && ClRank(s) >= n'
      ensures cl[s] == 0
    {
      ClOrderPermutes(s, n');
    }
  }

  // ---------- Writing ----------

  method WriteClLens(bw: BitWriter, cl: seq<nat>, hclen: nat)
    requires bw.Valid() && |cl| == 19 && hclen <= 19 && Bounded(cl, 7)
    modifies bw
    ensures bw.Valid() && bw.written == old(bw.written) + ClBits(cl, hclen)
  {
    hide Holds, LsbBits, ClOrder;
    Pow2Values();
    ghost var w := bw.written;
    for k := 0 to hclen
      invariant bw.Valid() && bw.written == w + ClBits(cl, k)
    {
      bw.WriteBits(cl[ClOrder(k)], 3);
      assert (w + ClBits(cl, k)) + LsbBits(cl[ClOrder(k)], 3) == w + ClBits(cl, k + 1);
    }
  }

  method WriteRuns(bw: BitWriter, syms: seq<ClSym>, cl: seq<nat>, clCodes: seq<nat>)
    requires bw.Valid() && Sound(syms) && Coded(syms, cl) && CodesFor(clCodes, cl)
    modifies bw
    ensures bw.Valid() && bw.written == old(bw.written) + RunBits(syms, |syms|, cl)
  {
    hide Holds, CodeOf, LsbBits, MsbBits, CodeBits, SymBits, WellFormed, Pow2;
    Pow2Values();
    ghost var w := bw.written;
    for k := 0 to |syms|
      invariant bw.Valid() && bw.written == w + RunBits(syms, k, cl)
    {
      WriteRun(bw, syms[k], cl, clCodes);
      assert (w + RunBits(syms, k, cl)) + SymBits(syms[k], cl) == w + RunBits(syms, k + 1, cl);
    }
  }

  method WriteRun(bw: BitWriter, s: ClSym, cl: seq<nat>, clCodes: seq<nat>)
    requires bw.Valid() && WellFormed(s) && s.sym < |cl| && cl[s.sym] > 0 && CodesFor(clCodes, cl)
    modifies bw
    ensures bw.Valid() && bw.written == old(bw.written) + SymBits(s, cl)
  {
    hide Holds, CodeOf, LsbBits, MsbBits, Pow2;
    Pow2Values();
    ghost var w := bw.written;
    bw.WriteHuff(clCodes[s.sym], cl[s.sym]);
    if s.nbits > 0 {
      bw.WriteBits(s.extra, s.nbits);
    }
    assert (w + CodeBits(cl, s.sym)) + LsbBits(s.extra, s.nbits) == w + SymBits(s, cl);
  }

  method WriteHeader(bw: BitWriter, hlit: nat, hdist: nat, hclen: nat, cl: seq<nat>, syms: seq<ClSym>)
    requires bw.Valid() && 257 <= hlit <= 288 && 1 <= hdist <= 32 && 4 <= hclen <= 19
    requires |cl| == 19 && Bounded(cl, 7) && Sound(syms) && Coded(syms, cl)
    modifies bw
    ensures bw.Valid() && bw.written == old(bw.written) + HeaderBits(hlit, hdist, hclen, cl, syms)
  {
    hide Holds, LsbBits, ClBits, RunBits, Sound, Coded, CodeOf;
    Pow2Values();
    var clCodes := CanonicalCodes(cl);
    ghost var w := bw.written;
    bw.WriteBits(hlit - 257, 5);
    bw.WriteBits(hdist - 1, 5);
    bw.WriteBits(hclen - 4, 4);
    WriteClLens(bw, cl, hclen);
    WriteRuns(bw, syms, cl, clCodes);
    ghost var a, b, c, e, f := LsbBits(hlit - 257, 5), LsbBits(hdist - 1, 5), LsbBits(hclen - 4, 4), ClBits(cl, hclen),
        RunBits(syms, |syms|, cl);
    assert ((((w + a) + b) + c) + e) + f == w + (a + (b + (c + (e + f))));
  }

  /** All choices behind a dynamic block. */
  datatype Plan = Plan(toks: seq<Tok>, ll: seq<nat>, dl: seq<nat>, hclen: nat, cl: seq<nat>, syms: seq<ClSym>)

  /** The parts fit together: a header and codes for tokens that spell the data. */
  ghost predicate Fitting(data: seq<byte>, p: Plan)
  {
    && Spells(p.toks, 0, data, 0) && BlockCodes(p.toks, p.ll, p.dl)
    && HeaderOk(p.ll, p.dl, p.hclen, p.cl, p.syms)
  }

  /** The tokens are those of the search (below 2^31 bytes), no codes make the block shorter, the code lengths are sent
      in the longest runs, and their code is the cheapest for its symbols, with no unused length sent last. */
  ghost predicate Frugal(data: seq<byte>, p: Plan)
    requires Fitting(data, p)
  {
    && (|data| < 0x8000_0000 ==> p.toks == Tokens(data)) && Shortest(p.toks, p.ll, p.dl)
    && p.syms == RunsFrom(p.ll + p.dl, 0)
    && BestCode(ClFreqs(p.syms, |p.syms|), p.cl, 7) && (p.hclen > 4 ==> p.cl[ClOrder(p.hclen - 1)] != 0)
  }

  /** c is the stream of the plan and nothing more. */
  ghost predicate Writes(c: seq<byte>, data: seq<byte>, p: Plan)
    requires Fitting(data, p)
  {
    Packs(c, DynamicBits(p.toks, p.ll, p.dl, p.hclen, p.cl, p.syms))
  }

  ghost predicate Planned(c: seq<byte>, data: seq<byte>, p: Plan)
  {
    Fitting(data, p) && Frugal(data, p) && Writes(c, data, p)
  }

  /** c is the stream of a frugal plan for the data. */
  ghost predicate IsDynamic(c: seq<byte>, data: seq<byte>)
  {
    exists p :: Planned(c, data, p)
  }

  /** Writes the whole stream of a dynamic block. */
  method WriteDynamic(toks: seq<Tok>, ll: seq<nat>, dl: seq<nat>, hclen: nat, cl: seq<nat>,
      syms: seq<ClSym>) returns (c: seq<byte>)
    requires HeaderOk(ll, dl, hclen, cl, syms) && BlockCodes(toks, ll, dl)
    ensures Packs(c, DynamicBits(toks, ll, dl, hclen, cl, syms))
  {
    hide Holds, LsbBits, KraftSum, Sound, Coded, Unroll, AllCoded, HeaderBits, BlockBits, At, CodeOf, BytesToBits;
    var llCodes := CanonicalCodes(ll);
    var dCodes := CanonicalCodes(dl);
    Pow2Values();
    var bw := new BitWriter();
    bw.WriteBits(1, 1);
    bw.WriteBits(2, 2);
    WriteHeader(bw, |ll|, |dl|, hclen, cl, syms);
    WriteBlock(bw, toks, llCodes, ll, dCodes, dl);
    ghost var x, y, h, b := LsbBits(1, 1), LsbBits(2, 2), HeaderBits(|ll|, |dl|, hclen, cl, syms),
        BlockBits(toks, ll, dl);
    assert (([] + x + y) + h) + b == x + (y + (h + b));
    c := bw.Finish();
  }

  /** What it writes decompresses to the data; it is the stream of a frugal plan. */
  method DeflateDynamic(data: seq<byte>) returns (c: seq<byte>)
    ensures Decompresses(c, data) && IsDynamic(c, data)
  {
    hide Spells, PrefixCode, AllCoded, Shortest, Sound, Coded, SentUpTo, At, Decompresses, BlockBits, Tokens, BestCode,
      DynamicBits, ClOrder, BytesToBits, ClFreqs, RunsFrom;
    var toks := Tokenize(data);
    SpellsWellformed(toks, 0, data, 0);
    var ll, dl := ChooseCodes(toks);
    BothBounded(ll, dl);
    var syms := RunLengths(ll + dl);
    var cl, hclen := ChooseCl(syms);
    SentInRange(cl, hclen);
    PrefixBounded(cl);
    c := WriteDynamic(toks, ll, dl, hclen, cl, syms);
    DynamicDecompresses(c, data, toks, ll, dl, hclen, cl, syms);
    assert Planned(c, data, Plan(toks, ll, dl, hclen, cl, syms));
  }

  lemma {:induction false} BothBounded(ll: seq<nat>, dl: seq<nat>)
    requires PrefixCode(ll, 15) && PrefixCode(dl, 15)
    ensures Bounded(ll + dl, 15)
  {
  }

  lemma {:induction false} PrefixBounded(cl: seq<nat>)
    requires PrefixCode(cl, 7)
    ensures Bounded(cl, 7)
  {
  }

  lemma {:induction false} SentInRange(cl: seq<nat>, n: nat)
    requires SentUpTo(cl, n)
    ensures |cl| == 19 && n <= 19
  {
  }
}
