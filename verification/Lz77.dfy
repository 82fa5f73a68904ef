/** The LZ77 stage of the compressor: a greedy tokenizer whose hash chains stand
    for a search over earlier positions. */
module Lz77 {
  import opened Bits

  const MIN_MATCH: nat := 3
  const MAX_MATCH: nat := 258
  const WSIZE: nat := 32768
  const HASH_SIZE: nat := 32768
  const MAX_CHAIN: nat := 256

  datatype Tok = Lit(b: byte) | Match(len: nat, dist: nat)

  /** The 15-bit hash of the three bytes at i. */
  function Hash3(d: seq<byte>, i: nat): (h: nat)
    requires i + MIN_MATCH <= |d|
    ensures h < HASH_SIZE
  {
    BitXor(BitXor(Shl(d[i], 10), Shl(d[i + 1], 5)), d[i + 2]) % HASH_SIZE
  }

  // ---------- What the chains stand for ----------

  /** The last position before i whose three bytes hash to h, or -1. */
  function LastPos(d: seq<byte>, h: nat, i: nat): (p: int)
    ensures -1 <= p < i
    ensures p >= 0 ==> p + MIN_MATCH <= |d| && Hash3(d, p) == h
  {
    if i == 0 then -1
    else if i - 1 + MIN_MATCH <= |d| && Hash3(d, i - 1) == h then i - 1
    else LastPos(d, h, i - 1)
  }

  /** How long the bytes at j and i agree, from offset l on and up to max. */
  function MatchLen(d: seq<byte>, j: nat, i: nat, l: nat, max: nat): (r: nat)
    requires j < i && l <= max && i + max <= |d|
    ensures l <= r <= max
    ensures r < max ==> d[j + r] != d[i + r]
    decreases max - l, d
  {
    if l < max && d[j + l] == d[i + l] then MatchLen(d, j, i, l + 1, max) else l
  }

  lemma {:induction false} MatchLenAgrees(d: seq<byte>, j: nat, i: nat, l: nat, max: nat, x: nat)
    requires j < i && l <= max && i + max <= |d| && l <= x < MatchLen(d, j, i, l, max)
    ensures d[j + x] == d[i + x]
    decreases max - l
  {
    if l < x { MatchLenAgrees(d, j, i, l + 1, max, x); }
  }

  /** The longest match that may start at i. */
  function MaxMatch(d: seq<byte>, i: nat): (m: nat)
    requires i <= |d|
    ensures i + m <= |d| && m <= MAX_MATCH
  {
    Min(|d| - i, MAX_MATCH)
  }

  /** The search over earlier positions with the hash of i, nearest first, at most 256 of them and
      none farther away than 32768; the first of the longest matches wins. */
  function Search(d: seq<byte>, i: nat, j: int, chain: nat, best: (nat, nat)): (r: (nat, nat))
    requires i + MIN_MATCH <= |d| && -1 <= j < i
    decreases j + 1, d
  {
    if j < 0 || i - j > WSIZE || chain >= MAX_CHAIN then best
    else
      var max := MaxMatch(d, i);
      var l := MatchLen(d, j, i, 0, max);
      var best' := if l > best.0 then (l, i - j) else best;
      if l > best.0 && l >= max then best'
      else Search(d, i, LastPos(d, Hash3(d, i), j), chain + 1, best')
  }

  function FindMatch(d: seq<byte>, i: nat): (r: (nat, nat))
    requires i <= |d|
  {
    if i + MIN_MATCH <= |d| then Search(d, i, LastPos(d, Hash3(d, i), i), 0, (0, 0)) else (0, 0)
  }

  /** A copy of len bytes from dist back reproduces the bytes at i. */
  ghost predicate Repeats(d: seq<byte>, i: nat, len: nat, dist: nat)
  {
    && 1 <= dist <= i && dist <= WSIZE && i + len <= |d| && len <= MAX_MATCH
    && forall x :: 0 <= x < len ==> CopiedByte(d, i, dist, x)
  }

  ghost predicate CopiedByte(d: seq<byte>, i: nat, dist: nat, x: nat)
    requires 1 <= dist <= i && i + x < |d|
  {
    d[i + x] == d[i - dist + x]
  }

  lemma {:induction false} MatchRepeats(d: seq<byte>, j: nat, i: nat)
    requires j < i <= |d| && i - j <= WSIZE
    ensures Repeats(d, i, MatchLen(d, j, i, 0, MaxMatch(d, i)), i - j)
  {
    var max, dist := MaxMatch(d, i), i - j;
    forall x | 0 <= x < MatchLen(d, j, i, 0, max)
      ensures CopiedByte(d, i, dist, x)
    {
      MatchLenAgrees(d, j, i, 0, max, x);
    }
  }

  // ---------- The search finds the longest match among its candidates ----------

  predicate HasHash(d: seq<byte>, h: nat, p: nat)
  {
    p + MIN_MATCH <= |d| && Hash3(d, p) == h
  }

  /** How many positions in p..q have hash h. */
  function HashCount(d: seq<byte>, h: nat, p: nat, q: nat): (c: nat)
    requires p <= q
    decreases q - p, d
  {
    if p == q then 0 else HashCount(d, h, p, q - 1) + (if HasHash(d, h, q - 1) then 1 else 0)
  }

  /** Between the last position with hash h and i there is no other. */
  lemma {:induction false} LastPosCount(d: seq<byte>, h: nat, p: nat, i: nat)
    requires p < i && HasHash(d, h, p)
    ensures var j := LastPos(d, h, i); p <= j && HashCount(d, h, p, i) == HashCount(d, h, p, j) + 1
  {
    if !HasHash(d, h, i - 1) { LastPosCount(d, h, p, i - 1); }
  }

  lemma {:induction false} SearchKeeps(d: seq<byte>, i: nat, j: int, chain: nat, best: (nat, nat))
    requires i + MIN_MATCH <= |d| && -1 <= j < i
    ensures Search(d, i, j, chain, best).0 >= best.0
    decreases j + 1
  {
    if !(j < 0 || i - j > WSIZE || chain >= MAX_CHAIN) {
      var l := MatchLen(d, j, i, 0, MaxMatch(d, i));
      SearchKeeps(d, i, LastPos(d, Hash3(d, i), j), chain + 1, if l > best.0 then (l, i - j) else best);
    }
  }

  lemma {:induction false} SearchBeats(d: seq<byte>, i: nat, j: int, chain: nat, best: (nat, nat), p: nat)
    requires i + MIN_MATCH <= |d| && -1 <= j < i && p <= j && HasHash(d, Hash3(d, i), j)
    requires HasHash(d, Hash3(d, i), p) && i - p <= WSIZE && chain + HashCount(d, Hash3(d, i), p, j) < MAX_CHAIN
    ensures MatchLen(d, p, i, 0, MaxMatch(d, i)) <= Search(d, i, j, chain, best).0
    decreases j + 1
  {
    var h := Hash3(d, i);
    var l := MatchLen(d, j, i, 0, MaxMatch(d, i));
    var best' := if l > best.0 then (l, i - j) else best;
    if p == j {
      SearchKeeps(d, i, LastPos(d, h, j), chain + 1, best');
    } else {
      LastPosCount(d, h, p, j);
      if !(l > best.0 && l >= MaxMatch(d, i)) {
        SearchBeats(d, i, LastPos(d, h, j), chain + 1, best', p);
      }
    }
  }

  /** No position among the 256 nearest with the same hash, and at most 32768 back, matches longer. */
  lemma {:induction false} FindsLongest(d: seq<byte>, i: nat, p: nat)
    requires i + MIN_MATCH <= |d| && p < i && i - p <= WSIZE
    requires HasHash(d, Hash3(d, i), p) && HashCount(d, Hash3(d, i), p, i) <= MAX_CHAIN
    ensures MatchLen(d, p, i, 0, MaxMatch(d, i)) <= FindMatch(d, i).0
  {
    LastPosCount(d, Hash3(d, i), p, i);
    SearchBeats(d, i, LastPos(d, Hash3(d, i), i), 0, (0, 0), p);
  }

  // ---------- Tokens ----------

  /** The token chosen at i. */
  function TokAt(d: seq<byte>, i: nat): (t: Tok)
    requires i < |d|
  {
    var (len, dist) := FindMatch(d, i);
    if len >= MIN_MATCH then Match(len, dist) else Lit(d[i])
  }

  function TokSize(t: Tok): (n: nat)
  {
    match t
    case Lit(_) => 1
    case Match(len, _) => len
  }

  /** The tokens so far followed by those of the bytes from i on. */
  function TokensFrom(d: seq<byte>, i: nat, acc: seq<Tok>): (r: seq<Tok>)
    decreases |d| - i, d
  {
    if i >= |d| then acc
    else
      var t := TokAt(d, i);
      var n := TokSize(t);
      if n == 0 then acc else TokensFrom(d, i + n, acc + [t])
  }

  function Tokens(d: seq<byte>): (r: seq<Tok>)
  {
    TokensFrom(d, 0, [])
  }

  /** The tokens from k on spell the bytes from i on. */
  ghost predicate Spells(toks: seq<Tok>, k: nat, d: seq<byte>, i: nat)
    requires k <= |toks|
    decreases |toks| - k, toks
  {
    if k == |toks| then i == |d|
    else
      match toks[k]
      case Lit(b) => i < |d| && d[i] == b && Spells(toks, k + 1, d, i + 1)
      case Match(len, dist) =>
        len >= MIN_MATCH && Repeats(d, i, len, dist) && Spells(toks, k + 1, d, i + len)
  }

  /** The token stands for the bytes of d at i. */
  ghost predicate TokOf(t: Tok, d: seq<byte>, i: nat)
  {
    match t
    case Lit(b) => i < |d| && d[i] == b
    case Match(len, dist) => len >= MIN_MATCH && Repeats(d, i, len, dist)
  }

  /** The bytes that the first k tokens stand for. */
  function Start(toks: seq<Tok>, k: nat): (i: nat)
    requires k <= |toks|
  {
    if k == 0 then 0 else Start(toks, k - 1) + TokSize(toks[k - 1])
  }

  ghost predicate StandsAt(toks: seq<Tok>, d: seq<byte>, k: nat)
    requires k < |toks|
  {
    TokOf(toks[k], d, Start(toks, k)) && Start(toks, k + 1) <= |d|
  }

  /** The tokens stand for the first i bytes. */
  ghost predicate SpelledTo(toks: seq<Tok>, d: seq<byte>, i: nat)
  {
    Start(toks, |toks|) == i && forall k :: 0 <= k < |toks| ==> StandsAt(toks, d, k)
  }

  lemma {:induction false} StartSame(s: seq<Tok>, t: seq<Tok>, k: nat)
    requires k <= |s| && k <= |t| && forall x :: 0 <= x < k ==> s[x] == t[x]
    ensures Start(s, k) == Start(t, k)
  {
    if k > 0 { StartSame(s, t, k - 1); }
  }

  lemma {:induction false} SpellMore(toks: seq<Tok>, d: seq<byte>, i: nat, t: Tok)
    requires SpelledTo(toks, d, i) && TokOf(t, d, i) && i + TokSize(t) <= |d|
    ensures SpelledTo(toks + [t], d, i + TokSize(t))
  {
    hide TokOf;
    var more := toks + [t];
    StartSame(more, toks, |toks|);
    forall k | 0 <= k < |more|
      ensures StandsAt(more, d, k)
    {
      StartSame(more, toks, Min(k, |toks|));
      if k < |toks| {
        StartSame(more, toks, k + 1);
        assert StandsAt(toks, d, k);
      }
    }
  }

  lemma {:induction false} SpelledSpells(toks: seq<Tok>, d: seq<byte>, k: nat)
    requires SpelledTo(toks, d, |d|) && k <= |toks|
    ensures Spells(toks, k, d, Start(toks, k))
    decreases |toks| - k
  {
    if k < |toks| {
      SpelledSpells(toks, d, k + 1);
      assert StandsAt(toks, d, k);
    }
  }

  // ---------- The hash chains ----------

  /** head[h] is the last position before i with hash h. */
  ghost predicate HeadOk(head: seq<int>, d: seq<byte>, i: nat, h: nat)
    requires h < |head|
  {
    head[h] == LastPos(d, h, i)
  }

  /** prev[p] is the last position before p with p's hash. */
  ghost predicate PrevOk(prev: seq<int>, d: seq<byte>, p: nat)
    requires p + MIN_MATCH <= |d| == |prev|
  {
    prev[p] == LastPos(d, Hash3(d, p), p)
  }

  /** The chains of all positions before i. */
  ghost predicate Chains(head: seq<int>, prev: seq<int>, d: seq<byte>, i: nat)
  {
    && |head| == HASH_SIZE && |prev| == |d|
    && (forall h :: 0 <= h < HASH_SIZE ==> HeadOk(head, d, i, h))
    && (forall p :: 0 <= p < i && p + MIN_MATCH <= |d| ==> PrevOk(prev, d, p))
  }

  /** Entering position i at the front of its chain. */
  lemma {:induction false} EnterChain(head: seq<int>, prev: seq<int>, d: seq<byte>, i: nat, i': nat)
    requires Chains(head, prev, d, i) && i < |d| && i' == i + 1
    ensures i + MIN_MATCH > |d| ==> Chains(head, prev, d, i')
    ensures i + MIN_MATCH <= |d| ==>
              var h := Hash3(d, i); Chains(head[h := i], prev[i := head[h]], d, i')
  {
    var fits := i + MIN_MATCH <= |d|;
    var head' := if fits then head[Hash3(d, i) := i] else head;
    var prev' := if fits then prev[i := head[Hash3(d, i)]] else prev;
    forall h | 0 <= h < HASH_SIZE
      ensures HeadOk(head', d, i', h)
    {
      assert HeadOk(head, d, i, h);
    }
    forall p | 0 <= p < i' && p + MIN_MATCH <= |d|
      ensures PrevOk(prev', d, p)
    {
      if p < i { assert PrevOk(prev, d, p); } else { assert HeadOk(head, d, i, Hash3(d, i)); }
    }
  }

  /** Whatever the arrays hold, a position they name comes before i, and those of prev get smaller. */
  ghost predicate Earlier(head: seq<int>, prev: seq<int>, d: seq<byte>, i: nat)
  {
    && |head| == HASH_SIZE && |prev| == |d| && (forall h :: 0 <= h < HASH_SIZE ==> head[h] < i)
    && (forall p :: 0 <= p < |d| ==> prev[p] < p)
  }

  /** Positions are kept as 32-bit integers, so the chains are those of the search for data below 2^31 bytes. */
  ghost predicate Linked(head: seq<int>, prev: seq<int>, d: seq<byte>, i: nat)
  {
    Earlier(head, prev, d, i) && (|d| < 0x8000_0000 ==> Chains(head, prev, d, i))
  }

  lemma {:induction false} EnterEarlier(head: seq<int>, prev: seq<int>, d: seq<byte>, i: nat)
    requires Earlier(head, prev, d, i) && i + MIN_MATCH <= |d|
    ensures var h := Hash3(d, i); Earlier(head[h := ToI32(i)], prev[i := head[h]], d, i + 1)
  {
    hide Hash3, ToI32;
  }

  method Enter(d: seq<byte>, i: nat, head: array<int>, prev: array<int>)
    requires i < |d| && head != prev && Linked(head[..], prev[..], d, i)
    modifies head, prev
    ensures Linked(head[..], prev[..], d, i + 1)
  {
    hide Chains, Hash3, ToI32;
    if |d| < 0x8000_0000 { EnterChain(head[..], prev[..], d, i, i + 1); }
    if i + MIN_MATCH <= |d| {
      var h := Hash3(d, i);
      EnterEarlier(head[..], prev[..], d, i);
      ghost var head0, prev0 := head[..], prev[..];
      prev[i] := head[h];
      head[h] := ToI32(i);
      assert head[..] == head0[h := ToI32(i)];
      assert prev[..] == prev0[i := head0[h]];
    }
  }

  method EnterAll(d: seq<byte>, i: nat, end: nat, head: array<int>, prev: array<int>)
    requires i <= end <= |d| && head != prev && Linked(head[..], prev[..], d, i)
    modifies head, prev
    ensures Linked(head[..], prev[..], d, end)
  {
    hide Linked;
    var k := i;
    while k < end
      invariant i <= k <= end && Linked(head[..], prev[..], d, k)
    {
      Enter(d, k, head, prev);
      k := k + 1;
    }
  }

  method CommonLength(d: seq<byte>, j: nat, i: nat, max: nat) returns (l: nat)
    requires j < i && i + max <= |d|
    ensures l == MatchLen(d, j, i, 0, max)
  {
    l := 0;
    while l < max && d[j + l] == d[i + l]
      invariant l <= max && MatchLen(d, j, i, 0, max) == MatchLen(d, j, i, l, max)
    {
      l := l + 1;
    }
  }

  /** A match that the walk reports can be copied; below 2^31 bytes the walk is the search over earlier positions. */
  method WalkChain(d: seq<byte>, i: nat, head: array<int>, prev: array<int>) returns (bestLen: nat, bestDist: nat)
    requires i <= |d| && Linked(head[..], prev[..], d, i)
    ensures bestLen > 0 ==> Repeats(d, i, bestLen, bestDist)
    ensures |d| < 0x8000_0000 ==> (bestLen, bestDist) == FindMatch(d, i)
  {
    hide Repeats, Hash3, MatchLen, LastPos;
    bestLen, bestDist := 0, 0;
    if i + MIN_MATCH <= |d| {
      var h := Hash3(d, i);
      ghost var small := |d| < 0x8000_0000;
      if small { assert HeadOk(head[..], d, i, h); }
      var j := head[h];
      var chain := 0;
      while j >= 0 && i - j <= WSIZE && chain < MAX_CHAIN
        invariant j < i && 0 <= chain
        invariant bestLen > 0 ==> Repeats(d, i, bestLen, bestDist)
        invariant small ==> -1 <= j && (j >= 0 ==> HasHash(d, h, j))
        invariant small ==> FindMatch(d, i) == Search(d, i, j, chain, (bestLen, bestDist))
        decreases j
      {
        var max := Min(|d| - i, MAX_MATCH);
        var l := CommonLength(d, j, i, max);
        MatchRepeats(d, j, i);
        if l > bestLen {
          bestLen, bestDist := l, i - j;
          if l >= max {
            return;
          }
        }
        if small { assert PrevOk(prev[..], d, j); }
        j := prev[j];
        chain := chain + 1;
      }
    }
  }

  /** The tokens of the data spell the data; below 2^31 bytes they are the tokens of the search. */
  method Tokenize(d: seq<byte>) returns (toks: seq<Tok>)
    ensures Spells(toks, 0, d, 0)
    ensures |d| < 0x8000_0000 ==> toks == Tokens(d)
  {
    hide Linked, FindMatch, Repeats, SpelledTo, TokOf;
    toks := [];
    ghost var small := |d| < 0x8000_0000;
    SpelledNothing(d);
    if |d| < MIN_MATCH {
      for i := 0 to |d|
        invariant SpelledTo(toks, d, i) && Tokens(d) == TokensFrom(d, i, toks)
      {
        LiteralToken(d, i);
        SpellMore(toks, d, i, Lit(d[i]));
        toks := toks + [Lit(d[i])];
      }
      SpelledSpells(toks, d, 0);
      return;
    }
    var head := new int[HASH_SIZE](_ => -1);
    var prev := new int[|d|](_ => -1);
    InitialChains(head[..], prev[..], d);
    var i := 0;
    while i < |d|
      invariant 0 <= i <= |d| && Linked(head[..], prev[..], d, i) && SpelledTo(toks, d, i)
      invariant small ==> Tokens(d) == TokensFrom(d, i, toks)
    {
      var bestLen, bestDist := WalkChain(d, i, head, prev);
      if bestLen >= MIN_MATCH {
        MatchToken(d, i, bestLen, bestDist);
        SpellMore(toks, d, i, Match(bestLen, bestDist));
        toks := toks + [Match(bestLen, bestDist)];
        EnterAll(d, i, i + bestLen, head, prev);
        i := i + bestLen;
      } else {
        assert TokOf(Lit(d[i]), d, i) by { OneLiteral(d, i); }
        SpellMore(toks, d, i, Lit(d[i]));
        toks := toks + [Lit(d[i])];
        Enter(d, i, head, prev);
        i := i + 1;
      }
    }
    SpelledSpells(toks, d, 0);
  }

  lemma {:induction false} SpelledNothing(d: seq<byte>)
    ensures SpelledTo([], d, 0)
  {
  }

  lemma {:induction false} OneLiteral(d: seq<byte>, i: nat)
    requires i < |d|
    ensures TokOf(Lit(d[i]), d, i)
  {
  }

  lemma {:induction false} LiteralToken(d: seq<byte>, i: nat)
    requires i < |d| < MIN_MATCH
    ensures TokOf(Lit(d[i]), d, i) && TokAt(d, i) == Lit(d[i])
  {
  }

  /** One literal for each byte. */
  ghost predicate AllLiterals(toks: seq<Tok>, d: seq<byte>)
  {
    |toks| == |d| && forall i :: 0 <= i < |d| ==> toks[i] == Lit(d[i])
  }

  lemma {:induction false} ShortTokens(d: seq<byte>, i: nat, acc: seq<Tok>)
    requires i <= |d| < MIN_MATCH && |acc| == i && forall k :: 0 <= k < i ==> acc[k] == Lit(d[k])
    ensures AllLiterals(TokensFrom(d, i, acc), d)
    decreases |d| - i
  {
    hide TokAt;
    if i < |d| {
      LiteralToken(d, i);
      ShortTokens(d, i + 1, acc + [Lit(d[i])]);
    }
  }

  lemma {:induction false} MatchToken(d: seq<byte>, i: nat, len: nat, dist: nat)
    requires Repeats(d, i, len, dist) && len >= MIN_MATCH
    ensures TokOf(Match(len, dist), d, i) && i + len <= |d|
  {
  }

  lemma {:induction false} InitialChains(head: seq<int>, prev: seq<int>, d: seq<byte>)
    requires |head| == HASH_SIZE && |prev| == |d| && forall h :: 0 <= h < HASH_SIZE ==> head[h] == -1
    requires forall p :: 0 <= p < |d| ==> prev[p] == -1
    ensures Linked(head, prev, d, 0)
  {
    forall h | 0 <= h < HASH_SIZE
      ensures HeadOk(head, d, 0, h)
    {
    }
  }
}
