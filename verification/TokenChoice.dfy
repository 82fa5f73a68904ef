/** Which tokens the compressors choose, said of the bytes: the greedy tokens of the hash-chain search and the lazy ones
    of the search for small inputs. */
module TokenChoice {
  import opened Bits
  import opened BitIO
  import opened Lz77
  import opened FixedBlock

  // ---------- Matches ----------

  /** The n bytes at i repeat those at p. */
  ghost predicate Copies(d: seq<byte>, i: nat, p: nat, n: nat)
  {
    p < i && Repeats(d, i, n, i - p)
  }

  /** How far two positions agree, within the longest match. */
  lemma {:induction false} CopiesIff(d: seq<byte>, p: nat, i: nat, n: nat)
    requires p < i <= |d| && i - p <= WSIZE
    ensures Copies(d, i, p, n) <==> n <= MatchLen(d, p, i, 0, MaxMatch(d, i))
  {
    var dist, m := i - p, MatchLen(d, p, i, 0, MaxMatch(d, i));
    MatchRepeats(d, p, i);
    if n <= m {
      forall x | 0 <= x < n
        ensures CopiedByte(d, i, dist, x)
      {
        assert Repeats(d, i, m, dist);
      }
    } else if n <= MaxMatch(d, i) {
      assert !CopiedByte(d, i, dist, m);
    }
  }

  /** A position that the search at i looks at: the same hash, at most 32768 back, among the 256 nearest. */
  ghost predicate Candidate(d: seq<byte>, i: nat, p: nat)
  {
    && p < i && i + MIN_MATCH <= |d| && i - p <= 32768
    && HasHash(d, Hash3(d, i), p) && HashCount(d, Hash3(d, i), p, i) <= 256
  }

  /** The match goes to a candidate; no candidate repeats more bytes, and no nearer one as many. */
  ghost predicate BestMatch(d: seq<byte>, i: nat, len: nat, dist: nat)
  {
    && 1 <= dist <= i && Candidate(d, i, i - dist) && Repeats(d, i, len, dist)
    && (forall p: nat, n: nat :: Candidate(d, i, p) && Copies(d, i, p, n) ==> n <= len)
    && (forall p: nat, n: nat :: Candidate(d, i, p) && Copies(d, i, p, n) && p > i - dist ==> n < len)
  }

  /** The token at i is the best match if some candidate repeats three bytes, and otherwise the byte. */
  ghost predicate GreedyAt(d: seq<byte>, i: nat, t: Tok)
  {
    match t
    case Match(len, dist) => len >= 3 && BestMatch(d, i, len, dist)
    case Lit(b) => i < |d| && b == d[i] && forall p: nat :: Candidate(d, i, p) ==> !Copies(d, i, p, 3)
  }

  /** r is a match longer than least with a position of the chain from j on; nearer positions match less. */
  ghost predicate Found(d: seq<byte>, i: nat, j: int, chain: nat, least: nat, r: (nat, nat))
    requires i + MIN_MATCH <= |d|
  {
    && r.0 > least && 1 <= r.1 <= i && r.1 <= WSIZE
    && var q := i - r.1;
    && q <= j && HasHash(d, Hash3(d, i), q) && chain + HashCount(d, Hash3(d, i), q, j) < MAX_CHAIN
    && r.0 == MatchLen(d, q, i, 0, MaxMatch(d, i))
    && forall p :: q < p <= j && p < i && HasHash(d, Hash3(d, i), p) ==> MatchLen(d, p, i, 0, MaxMatch(d, i)) < r.0
  }

  lemma {:induction false} FoundHere(d: seq<byte>, i: nat, j: nat, chain: nat, least: nat)
    requires i + MIN_MATCH <= |d| && j < i && i - j <= WSIZE && chain < MAX_CHAIN && HasHash(d, Hash3(d, i), j)
    requires MatchLen(d, j, i, 0, MaxMatch(d, i)) > least
    ensures Found(d, i, j, chain, least, (MatchLen(d, j, i, 0, MaxMatch(d, i)), i - j))
  {
    hide MatchLen, MaxMatch, HasHash, Hash3;
    assert HashCount(d, Hash3(d, i), j, j) == 0;
  }

  /** What the search over the chain from j on brings. */
  lemma {:induction false} SearchFound(d: seq<byte>, i: nat, j: int, chain: nat, best: (nat, nat))
    requires i + MIN_MATCH <= |d| && -1 <= j < i && (j >= 0 ==> HasHash(d, Hash3(d, i), j))
    ensures var r := Search(d, i, j, chain, best); r == best || Found(d, i, j, chain, best.0, r)
    decreases j + 1
  {
    hide MatchLen, MaxMatch, HasHash, Found, LastPos, Hash3;
    if !(j < 0 || i - j > WSIZE || chain >= MAX_CHAIN) {
      var h, l := Hash3(d, i), MatchLen(d, j, i, 0, MaxMatch(d, i));
      var best' := if l > best.0 then (l, i - j) else best;
      var j' := LastPos(d, h, j);
      if l > best.0 { FoundHere(d, i, j, chain, best.0); }
      if !(l > best.0 && l >= MaxMatch(d, i)) {
        StartHash(d, h, j);
        SearchFound(d, i, j', chain + 1, best');
        var r := Search(d, i, j', chain + 1, best');
        if r != best' { FoundBefore(d, i, j, chain, best.0, best'.0, r); }
      }
    }
  }

  lemma {:induction false} FoundBefore(d: seq<byte>, i: nat, j: nat, chain: nat, least: nat, least': nat, r: (nat, nat))
    requires i + MIN_MATCH <= |d| && j < i && HasHash(d, Hash3(d, i), j)
    requires least <= least' && MatchLen(d, j, i, 0, MaxMatch(d, i)) <= least'
    requires Found(d, i, LastPos(d, Hash3(d, i), j), chain + 1, least', r)
    ensures Found(d, i, j, chain, least, r)
  {
    hide MatchLen, MaxMatch, HasHash;
    var h, q := Hash3(d, i), i - r.1;
    LastPosCount(d, h, q, j);
    forall p | q < p <= j && p < i && HasHash(d, h, p)
      ensures MatchLen(d, p, i, 0, MaxMatch(d, i)) < r.0
    {
      if p < j { NoneBetween(d, h, p, j); }
    }
  }

  lemma {:induction false} NoneBetween(d: seq<byte>, h: nat, p: nat, j: nat)
    requires p < j && HasHash(d, h, p)
    ensures p <= LastPos(d, h, j)
  {
    LastPosCount(d, h, p, j);
  }

  lemma {:induction false} ChainStart(d: seq<byte>, h: nat, p: nat, i: nat)
    requires p < i && HasHash(d, h, p)
    ensures LastPos(d, h, i) >= p && HashCount(d, h, p, i) == HashCount(d, h, p, LastPos(d, h, i)) + 1
  {
    LastPosCount(d, h, p, i);
  }

  lemma {:induction false} NoneLonger(d: seq<byte>, i: nat, p: nat, n: nat)
    requires i < |d| && Candidate(d, i, p) && Copies(d, i, p, n)
    ensures n <= FindMatch(d, i).0
  {
    hide FindMatch, MatchLen, MaxMatch, HasHash, Copies;
    FindsLongest(d, i, p);
    CopiesIff(d, p, i, n);
  }

  lemma {:induction false} MatchFound(d: seq<byte>, i: nat)
    requires i + MIN_MATCH <= |d| && FindMatch(d, i).0 > 0
    ensures Found(d, i, LastPos(d, Hash3(d, i), i), 0, 0, FindMatch(d, i))
  {
    hide Search, Found, HasHash;
    StartHash(d, Hash3(d, i), i);
    SearchFound(d, i, LastPos(d, Hash3(d, i), i), 0, (0, 0));
  }

  lemma {:induction false} MatchIsBest(d: seq<byte>, i: nat, len: nat, dist: nat)
    requires i + MIN_MATCH <= |d| && FindMatch(d, i) == (len, dist) && len > 0
    ensures BestMatch(d, i, len, dist)
  {
    hide FindMatch, MatchLen, MaxMatch, HasHash, Copies, Candidate;
    var h := Hash3(d, i);
    MatchFound(d, i);
    var q := i - dist;
    MatchRepeats(d, q, i);
    FoundCandidate(d, i, len, dist);
    forall p: nat, n: nat | Candidate(d, i, p) && Copies(d, i, p, n)
      ensures n <= len
    {
      NoneLonger(d, i, p, n);
    }
    forall p: nat, n: nat | Candidate(d, i, p) && Copies(d, i, p, n) && p > q
      ensures n < len
    {
      CandidateParts(d, i, p);
      NoneBetween(d, h, p, i);
      CopiesIff(d, p, i, n);
    }
  }

  lemma {:induction false} CandidateParts(d: seq<byte>, i: nat, p: nat)
    requires Candidate(d, i, p)
    ensures p < i && i - p <= WSIZE && HasHash(d, Hash3(d, i), p)
  {
  }

  lemma {:induction false} FoundCandidate(d: seq<byte>, i: nat, len: nat, dist: nat)
    requires i + MIN_MATCH <= |d| && Found(d, i, LastPos(d, Hash3(d, i), i), 0, 0, (len, dist))
    ensures Candidate(d, i, i - dist)
  {
    hide MatchLen, MaxMatch, HasHash;
    ChainStart(d, Hash3(d, i), i - dist, i);
  }

  lemma {:induction false} GreedyToken(d: seq<byte>, i: nat)
    requires i < |d|
    ensures GreedyAt(d, i, TokAt(d, i))
  {
    hide Copies, Candidate, BestMatch, Search;
    var (len, dist) := FindMatch(d, i);
    if len >= MIN_MATCH {
      MatchIsBest(d, i, len, dist);
    } else {
      forall p: nat | Candidate(d, i, p)
        ensures !Copies(d, i, p, 3)
      {
        if Copies(d, i, p, 3) { NoneLonger(d, i, p, 3); }
      }
    }
  }

  lemma {:induction false} StartHash(d: seq<byte>, h: nat, i: nat)
    ensures LastPos(d, h, i) >= 0 ==> HasHash(d, h, LastPos(d, h, i))
  {
  }

  /** All tokens, each at the place where the ones before it end. */
  ghost predicate AllGreedy(d: seq<byte>, toks: seq<Tok>)
  {
    forall k :: 0 <= k < |toks| ==> GreedyAt(d, Start(toks, k), toks[k])
  }

  lemma {:induction false} MoreGreedy(d: seq<byte>, toks: seq<Tok>, t: Tok)
    requires AllGreedy(d, toks) && GreedyAt(d, Start(toks, |toks|), t)
    ensures AllGreedy(d, toks + [t]) && Start(toks + [t], |toks| + 1) == Start(toks, |toks|) + TokSize(t)
  {
    hide GreedyAt, Start;
    var more := toks + [t];
    forall k | 0 <= k < |more|
      ensures GreedyAt(d, Start(more, k), more[k])
    {
      StartSame(more, toks, k);
    }
    StartMore(toks, t);
  }

  lemma {:induction false} StartMore(toks: seq<Tok>, t: Tok)
    ensures Start(toks + [t], |toks| + 1) == Start(toks, |toks|) + TokSize(t)
  {
    StartSame(toks + [t], toks, |toks|);
  }

  lemma {:induction false} GreedyFrom(d: seq<byte>, i: nat, acc: seq<Tok>)
    requires AllGreedy(d, acc) && Start(acc, |acc|) == i
    ensures AllGreedy(d, TokensFrom(d, i, acc)) && Start(TokensFrom(d, i, acc), |TokensFrom(d, i, acc)|) >= |d|
    decreases |d| - i
  {
    hide AllGreedy, TokAt, Start;
    if i < |d| {
      var t := TokAt(d, i);
      GreedyToken(d, i);
      MoreGreedy(d, acc, t);
      SomeSize(d, i, t);
      GreedyFrom(d, i + TokSize(t), acc + [t]);
    }
  }

  lemma {:induction false} SomeSize(d: seq<byte>, i: nat, t: Tok)
    requires GreedyAt(d, i, t)
    ensures TokSize(t) > 0
  {
  }

  /** The tokens of the search cover the input, and each is the greedy one at its place. */
  lemma {:induction false} TokensAreGreedy(d: seq<byte>)
    ensures AllGreedy(d, Tokens(d)) && Start(Tokens(d), |Tokens(d)|) >= |d|
  {
    hide GreedyAt, TokensFrom;
    GreedyFrom(d, 0, []);
  }

  // ---------- Lazy tokens ----------

  /** How many bytes the best match at i repeats, over all earlier positions; none below three. */
  function BestAt(d: seq<byte>, i: nat): (n: nat)
  {
    if i < |d| then SmallMatch(d, i).0 else 0
  }

  /** The token before k was a byte although a match was possible there. */
  ghost predicate PutOff(d: seq<byte>, toks: seq<Tok>, k: nat)
    requires k <= |toks|
  {
    k > 0 && toks[k - 1].Lit? && BestAt(d, Start(toks, k - 1)) >= 3
  }

  /** The best match, unless the next position promises as much and no match has just been put off; otherwise the
      byte. */
  ghost predicate LazyAt(d: seq<byte>, toks: seq<Tok>, k: nat)
    requires k < |toks|
  {
    var i := Start(toks, k);
    && i < |d| && (toks[k].Match? <==> BestAt(d, i) >= 3 && (PutOff(d, toks, k) || BestAt(d, i + 1) + 1 < BestAt(d, i)))
    && toks[k] == if toks[k].Match? then Match(SmallMatch(d, i).0, SmallMatch(d, i).1) else Lit(d[i])
  }

  ghost predicate AllLazy(d: seq<byte>, toks: seq<Tok>)
  {
    forall k :: 0 <= k < |toks| ==> LazyAt(d, toks, k)
  }

  lemma {:induction false} MoreLazy(d: seq<byte>, toks: seq<Tok>, t: Tok)
    requires AllLazy(d, toks) && LazyAt(d, toks + [t], |toks|)
    ensures AllLazy(d, toks + [t]) && Start(toks + [t], |toks| + 1) == Start(toks, |toks|) + TokSize(t)
  {
    hide SmallMatch, Start;
    var more := toks + [t];
    forall k | 0 <= k < |more|
      ensures LazyAt(d, more, k)
    {
      if k < |toks| {
        StartSame(more, toks, k);
        if k > 0 { StartSame(more, toks, k - 1); }
        assert LazyAt(d, toks, k);
      }
    }
    StartMore(toks, t);
  }

  lemma {:induction false} LazyNext(d: seq<byte>, toks: seq<Tok>, i: nat, deferred: bool, t: Tok)
    requires Start(toks, |toks|) == i < |d| && (deferred <==> PutOff(d, toks, |toks|))
    requires var (len, dist) := SmallMatch(d, i);
             t == if len >= 3 && (deferred || BestAt(d, i + 1) + 1 < len) then Match(len, dist) else Lit(d[i])
    ensures LazyAt(d, toks + [t], |toks|)
    ensures PutOff(d, toks + [t], |toks| + 1) <==> t.Lit? && SmallMatch(d, i).0 >= 3
  {
    hide SmallMatch;
    var more := toks + [t];
    StartSame(more, toks, |toks|);
    if |toks| > 0 { StartSame(more, toks, |toks| - 1); }
  }

  lemma {:induction false} LazyTokens(d: seq<byte>, i: nat, deferred: bool, acc: seq<Tok>)
    requires AllLazy(d, acc) && Start(acc, |acc|) == i && (i < |d| ==> (deferred <==> PutOff(d, acc, |acc|)))
    ensures var toks := LazyFrom(d, i, deferred, acc); AllLazy(d, toks) && Start(toks, |toks|) >= |d|
    decreases |d| - i
  {
    hide AllLazy, SmallMatch, PutOff, Start;
    if i < |d| {
      var (len, dist) := SmallMatch(d, i);
      var next := if i + 1 < |d| then SmallMatch(d, i + 1).0 else 0;
      var t := if len >= MIN_MATCH && (deferred || next + 1 < len) then Match(len, dist) else Lit(d[i]);
      LazyNext(d, acc, i, deferred, t);
      MoreLazy(d, acc, t);
      LazyTokens(d, i + TokSize(t), t.Lit? && len >= MIN_MATCH, acc + [t]);
    }
  }

  /** The tokens for small inputs cover the input, and each is the lazy one at its place. */
  lemma {:induction false} TokensAreLazy(d: seq<byte>)
    ensures var toks := LazyFrom(d, 0, false, []); AllLazy(d, toks) && Start(toks, |toks|) >= |d|
  {
    hide LazyAt, LazyFrom;
    LazyTokens(d, 0, false, []);
  }
}
