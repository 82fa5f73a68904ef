/** Choosing the code lengths of a dynamic block from how often the tokens'
    symbols occur, and the proof that no other codes give a shorter block. */
module CodeChoice {
  import opened Bits
  import opened Huffman
  import opened PackageMerge
  import opened Lz77
  import opened DeflateTables
  import opened Inflate
  import opened TokenCode

  const NLIT: nat := 286
  const NDIST: nat := 30

  // ---------- How often symbols occur ----------

  function Bump(f: seq<nat>, s: nat): (r: seq<nat>)
    requires s < |f|
    ensures |r| == |f|
  {
    f[s := f[s] + 1]
  }

  /** Occurrences of the literal/length symbols among the first n tokens. */
  function LitFreqs(toks: seq<Tok>, n: nat): (f: seq<nat>)
    requires n <= |toks|
    ensures |f| == NLIT
  {
    if n == 0 then Repeat(0, NLIT) else Bump(LitFreqs(toks, n - 1), SymOf(toks[n - 1]))
  }

  /** Occurrences of the distance codes. */
  function DistFreqs(toks: seq<Tok>, n: nat): (f: seq<nat>)
    requires n <= |toks|
    ensures |f| == NDIST
  {
    if n == 0 then Repeat(0, NDIST)
    else if toks[n - 1].Match? then Bump(DistFreqs(toks, n - 1), DistCode(toks[n - 1].dist))
    else DistFreqs(toks, n - 1)
  }

  /** With the end of the block, which occurs once. */
  function BlockFreqs(toks: seq<Tok>): (f: seq<nat>)
    ensures |f| == NLIT
  {
    Bump(LitFreqs(toks, |toks|), END_OF_BLOCK)
  }

  lemma {:induction false} FreqCounted(toks: seq<Tok>, n: nat, k: nat)
    requires k < n <= |toks|
    ensures LitFreqs(toks, n)[SymOf(toks[k])] > 0
    ensures toks[k].Match? ==> DistFreqs(toks, n)[DistCode(toks[k].dist)] > 0
  {
    hide SymOf, DistCode, DistCodeTo;
    if k < n - 1 { FreqCounted(toks, n - 1, k); }
  }

  /** A code for the tokens has lengths for all symbols counted. */
  lemma {:induction false} FreqCoded(toks: seq<Tok>, n: nat, s: nat, ll: seq<nat>, dl: seq<nat>)
    requires n <= |toks| && AllCoded(toks, ll, dl)
    ensures s < NLIT && LitFreqs(toks, n)[s] > 0 ==> s < |ll| && ll[s] > 0
    ensures s < NDIST && DistFreqs(toks, n)[s] > 0 ==> s < |dl| && dl[s] > 0
  {
    hide SymOf, DistCode, DistCodeTo;
    if n > 0 {
      FreqCoded(toks, n - 1, s, ll, dl);
      assert CodesTok(toks[n - 1], ll, dl);
    }
  }

  method CountFreqs(toks: seq<Tok>) returns (llFreq: seq<nat>, dFreq: seq<nat>)
    ensures llFreq == BlockFreqs(toks) && dFreq == DistFreqs(toks, |toks|)
  {
    hide LengthCode, DistCode, LengthCodeTo, DistCodeTo;
    llFreq, dFreq := Repeat(0, NLIT), Repeat(0, NDIST);
    for k := 0 to |toks|
      invariant llFreq == LitFreqs(toks, k) && dFreq == DistFreqs(toks, k)
    {
      match toks[k]
      case Lit(b) =>
        llFreq := Bump(llFreq, b);
      case Match(len, dist) =>
        var lc := EncLengthCode(len);
        var dc := EncDistanceCode(dist);
        llFreq := Bump(llFreq, 257 + lc);
        dFreq := Bump(dFreq, dc);
    }
    llFreq := Bump(llFreq, END_OF_BLOCK);
  }

  // ---------- Lengths cut or filled up with zeros ----------

  /** Lengths for n symbols: those beyond the end are zero. */
  function Fit(l: seq<nat>, n: nat): (r: seq<nat>)
    ensures |r| == n && forall s :: 0 <= s < n ==> r[s] == if s < |l| then l[s] else 0
  {
    seq(n, s requires 0 <= s => if s < |l| then l[s] else 0)
  }

  lemma {:induction false} KraftFit(l: seq<nat>, n: nat, k: nat, m: nat)
    requires k <= n
    ensures KraftTo(Fit(l, n), k, m) <= KraftSum(l, m)
    ensures k <= |l| ==> KraftTo(Fit(l, n), k, m) == KraftTo(l, k, m)
  {
    hide Fit;
    if k > 0 { KraftFit(l, n, k - 1, m); }
    if k <= |l| { KraftMono(l, k, |l|, m); }
  }

  lemma {:induction false} KraftMono(l: seq<nat>, j: nat, k: nat, m: nat)
    requires j <= k <= |l|
    ensures KraftTo(l, j, m) <= KraftTo(l, k, m)
  {
    if j < k { KraftMono(l, j, k - 1, m); }
  }

  /** Cutting or filling up keeps a prefix code one. */
  lemma {:induction false} PrefixFit(l: seq<nat>, n: nat, m: nat)
    requires PrefixCode(l, m)
    ensures PrefixCode(Fit(l, n), m)
  {
    KraftFit(l, n, n, m);
  }

  // ---------- The length of a block ----------

  lemma {:induction false} CostBump(f: seq<nat>, l: seq<nat>, s: nat, n: nat)
    requires s < |f| == |l| && n <= |f|
    ensures CostTo(Bump(f, s), l, n) == CostTo(f, l, n) + (if s < n then l[s] else 0)
  {
    if n > 0 {
      CostBump(f, l, s, n - 1);
      if s == n - 1 { Distribute(f[s], l[s]); }
    }
  }

  lemma {:induction false} Distribute(x: nat, y: nat)
    ensures (x + 1) * y == x * y + y
  {
  }

  lemma {:induction false} CostZero(l: seq<nat>, f: seq<nat>, n: nat)
    requires n <= |f| == |l| && forall s :: 0 <= s < |f| ==> f[s] == 0
    ensures CostTo(f, l, n) == 0
  {
    if n > 0 { CostZero(l, f, n - 1); }
  }

  /** The extra bits of the first n tokens; they do not depend on the codes. */
  function ExtraBits(toks: seq<Tok>, n: nat): (x: nat)
    requires n <= |toks|
  {
    if n == 0 then 0
    else
      ExtraBits(toks, n - 1) +
      match toks[n - 1]
      case Lit(_) => 0
      case Match(len, dist) => LengthExtra(LengthCode(len)) + DistExtra(DistCode(dist))
  }

  lemma {:induction false} TokLength(t: Tok, ll: seq<nat>, dl: seq<nat>)
    requires CodesTok(t, ll, dl)
    ensures |TokBits(t, ll, dl)| == ll[SymOf(t)] +
            match t
            case Lit(_) => 0
            case Match(len, dist) => LengthExtra(LengthCode(len)) + dl[DistCode(dist)] + DistExtra(DistCode(dist))
  {
    hide LengthCode, DistCode, LengthExtra, DistExtra, LengthBase, DistBase, CodeBits, LsbBits;
  }

  /** The bits of the first n tokens, symbol by symbol. */
  lemma {:induction false} TokensLength(toks: seq<Tok>, n: nat, ll: seq<nat>, dl: seq<nat>)
    requires n <= |toks| && AllCoded(toks, ll, dl)
    ensures |TokensBits(toks, n, ll, dl)|
         == Cost(LitFreqs(toks, n), Fit(ll, NLIT)) + Cost(DistFreqs(toks, n), Fit(dl, NDIST)) + ExtraBits(toks, n)
  {
    hide LengthCode, DistCode, LengthExtra, DistExtra, TokBits, Fit, CostTo, Bump;
    if n == 0 {
      CostZero(Fit(ll, NLIT), LitFreqs(toks, 0), NLIT);
      CostZero(Fit(dl, NDIST), DistFreqs(toks, 0), NDIST);
    } else {
      var t := toks[n - 1];
      TokensLength(toks, n - 1, ll, dl);
      TokLength(t, ll, dl);
      CostBump(LitFreqs(toks, n - 1), Fit(ll, NLIT), SymOf(t), NLIT);
      if t.Match? { CostBump(DistFreqs(toks, n - 1), Fit(dl, NDIST), DistCode(t.dist), NDIST); }
    }
  }

  lemma {:induction false} BlockLength(toks: seq<Tok>, ll: seq<nat>, dl: seq<nat>)
    requires AllCoded(toks, ll, dl) && END_OF_BLOCK < |ll|
    ensures |BlockBits(toks, ll, dl)|
         == Cost(BlockFreqs(toks), Fit(ll, NLIT)) + Cost(DistFreqs(toks, |toks|), Fit(dl, NDIST)) +
             ExtraBits(toks, |toks|)
  {
    hide AllCoded, Fit, CostTo, Bump, LitFreqs, DistFreqs, ExtraBits, TokensBits;
    TokensLength(toks, |toks|, ll, dl);
    CostBump(LitFreqs(toks, |toks|), Fit(ll, NLIT), END_OF_BLOCK, NLIT);
  }

  // ---------- The best codes ----------

  /** No assignment of lengths up to m costs less. */
  ghost predicate Cheapest(freqs: seq<nat>, lens: seq<nat>, m: nat)
    requires |freqs| == |lens|
  {
    forall other :: Assigns(freqs, other, m) ==> Cost(freqs, lens) <= Cost(freqs, other)
  }

  /** A pair of codes for a block of these tokens. */
  ghost predicate BlockCodes(toks: seq<Tok>, ll: seq<nat>, dl: seq<nat>)
  {
    && PrefixCode(ll, 15) && PrefixCode(dl, 15) && AllCoded(toks, ll, dl)
    && END_OF_BLOCK < |ll| && ll[END_OF_BLOCK] > 0
  }

  /** No other pair of codes gives a shorter block. */
  ghost predicate Shortest(toks: seq<Tok>, ll: seq<nat>, dl: seq<nat>)
    requires BlockCodes(toks, ll, dl)
  {
    forall ll', dl' :: BlockCodes(toks, ll', dl') ==> |BlockBits(toks, ll, dl)| <= |BlockBits(toks, ll', dl')|
  }

  lemma {:induction false} CodesAssign(toks: seq<Tok>, ll: seq<nat>, dl: seq<nat>)
    requires BlockCodes(toks, ll, dl)
    ensures Assigns(BlockFreqs(toks), Fit(ll, NLIT), 15) && Assigns(DistFreqs(toks, |toks|), Fit(dl, NDIST), 15)
  {
    hide KraftSum, LitFreqs, DistFreqs, CodesTok, Fit, KraftTo;
    PrefixFit(ll, NLIT, 15);
    PrefixFit(dl, NDIST, 15);
    forall s | 0 <= s < NLIT && BlockFreqs(toks)[s] > 0
      ensures 1 <= Fit(ll, NLIT)[s] <= 15
    {
      FreqCoded(toks, |toks|, s, ll, dl);
    }
    forall s | 0 <= s < NDIST && DistFreqs(toks, |toks|)[s] > 0
      ensures 1 <= Fit(dl, NDIST)[s] <= 15
    {
      FreqCoded(toks, |toks|, s, ll, dl);
    }
  }

  lemma {:induction false} CheapestIsShortest(toks: seq<Tok>, ll: seq<nat>, dl: seq<nat>)
    requires BlockCodes(toks, ll, dl)
    requires Cheapest(BlockFreqs(toks), Fit(ll, NLIT), 15) && Cheapest(DistFreqs(toks, |toks|), Fit(dl, NDIST), 15)
    ensures Shortest(toks, ll, dl)
  {
    hide PrefixCode, AllCoded, Fit, Cost, BlockFreqs, DistFreqs, ExtraBits, BlockBits, Assigns;
    forall ll', dl' | BlockCodes(toks, ll', dl')
      ensures |BlockBits(toks, ll, dl)| <= |BlockBits(toks, ll', dl')|
    {
      BlockLength(toks, ll, dl);
      BlockLength(toks, ll', dl');
      CodesAssign(toks, ll', dl');
    }
  }

  // ---------- Choosing ----------

  /** The highest n from lo to hi whose symbol n-1 is in use, or lo. */
  method LastUsed(lens: seq<nat>, lo: nat, hi: nat) returns (n: nat)
    requires 1 <= lo <= hi == |lens|
    ensures lo <= n <= hi
    ensures forall s :: n <= s < |lens| ==> lens[s] == 0
    ensures n > lo ==> lens[n - 1] != 0
  {
    n := hi;
    while n > lo && lens[n - 1] == 0
      invariant lo <= n <= hi && forall s :: n <= s < |lens| ==> lens[s] == 0
    {
      n := n - 1;
    }
  }

  lemma {:induction false} CutAndFill(l: seq<nat>, n: nat)
    requires n <= |l| && forall s :: n <= s < |l| ==> l[s] == 0
    ensures l[..n] == Fit(l, n) && Fit(l[..n], |l|) == l
  {
  }

  /** The code lengths of the literal/length symbols, without the unused ones at the end. */
  method ChooseLit(toks: seq<Tok>, freqs: seq<nat>) returns (ll: seq<nat>)
    requires freqs == BlockFreqs(toks)
    ensures 257 <= |ll| <= NLIT && PrefixCode(ll, 15) && Cheapest(freqs, Fit(ll, NLIT), 15)
    ensures forall s :: 0 <= s < NLIT && freqs[s] > 0 ==> s < |ll| && ll[s] > 0
  {
    hide KraftSum, LitFreqs, Cost, LeafCoins;
    Pow2Values();
    var full := PackageMerge.PackageMerge(freqs, 15);
    var hlit := LastUsed(full, 257, NLIT);
    CutAndFill(full, hlit);
    PrefixFit(full, hlit, 15);
    ll := full[..hlit];
  }

  /** The code lengths of the distance codes; one code of one bit when no distance occurs. */
  method ChooseDist(toks: seq<Tok>, freqs: seq<nat>) returns (dl: seq<nat>)
    requires freqs == DistFreqs(toks, |toks|)
    ensures 1 <= |dl| <= NDIST && PrefixCode(dl, 15) && Cheapest(freqs, Fit(dl, NDIST), 15)
    ensures forall s :: 0 <= s < NDIST && freqs[s] > 0 ==> s < |dl| && dl[s] > 0
  {
    hide KraftSum, DistFreqs, CostTo, LeafCoins, DistCode;
    Pow2Values();
    var full := PackageMerge.PackageMerge(freqs, 15);
    var none := AllZero(full);
    if none {
      full := full[0 := 1];
      OneCode(full);
      CostZero(full, freqs, NDIST);
    }
    var hdist := LastUsed(full, 1, NDIST);
    CutAndFill(full, hdist);
    PrefixFit(full, hdist, 15);
    dl := full[..hdist];
  }

  method AllZero(lens: seq<nat>) returns (z: bool)
    ensures z <==> forall s :: 0 <= s < |lens| ==> lens[s] == 0
  {
    for i := 0 to |lens|
      invariant forall s :: 0 <= s < i ==> lens[s] == 0
    {
      if lens[i] != 0 { return false; }
    }
    return true;
  }

  lemma {:induction false} OneCodeTo(l: seq<nat>, n: nat)
    requires 1 <= n <= |l| && l[0] == 1 && forall s :: 1 <= s < |l| ==> l[s] == 0
    ensures KraftTo(l, n, 15) == Pow2(14)
  {
    if n == 1 {
      assert KraftTo(l, 0, 15) == 0;
    } else {
      OneCodeTo(l, n - 1);
    }
  }

  lemma {:induction false} OneCode(l: seq<nat>)
    requires 1 <= |l| && l[0] == 1 && forall s :: 1 <= s < |l| ==> l[s] == 0
    ensures PrefixCode(l, 15)
  {
    OneCodeTo(l, |l|);
    Pow2Values();
  }

  /** Tokens of the format. */
  ghost predicate Wellformed(toks: seq<Tok>)
  {
    forall k :: 0 <= k < |toks| && toks[k].Match? ==> 3 <= toks[k].len <= 258 && 1 <= toks[k].dist <= 32768
  }

  lemma {:induction false} SpellsWellformed(toks: seq<Tok>, k: nat, d: seq<byte>, i: nat)
    requires k <= |toks| && Spells(toks, k, d, i)
    ensures forall j :: k <= j < |toks| && toks[j].Match? ==> 3 <= toks[j].len <= 258 && 1 <= toks[j].dist <= 32768
    decreases |toks| - k
  {
    if k < |toks| {
      SpellsHead(toks, k, d, i);
      SpellsWellformed(toks, k + 1, d, i + TokSize(toks[k]));
    }
  }

  /** Codes for a block of the tokens, and no pair of codes makes it shorter. */
  method ChooseCodes(toks: seq<Tok>) returns (ll: seq<nat>, dl: seq<nat>)
    requires Wellformed(toks)
    ensures 257 <= |ll| <= NLIT && 1 <= |dl| <= NDIST
    ensures BlockCodes(toks, ll, dl) && Shortest(toks, ll, dl)
  {
    hide PrefixCode, Cheapest, LitFreqs, DistFreqs, Shortest, BlockBits, DistCode, SymOf;
    var llFreq, dFreq := CountFreqs(toks);
    ll := ChooseLit(toks, llFreq);
    dl := ChooseDist(toks, dFreq);
    forall k | 0 <= k < |toks|
      ensures CodesTok(toks[k], ll, dl)
    {
      FreqCounted(toks, |toks|, k);
      assert BlockFreqs(toks)[SymOf(toks[k])] > 0;
    }
    CheapestIsShortest(toks, ll, dl);
  }
}
