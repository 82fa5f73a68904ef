/** Run-length coding of code lengths (section 3.2.7 of RFC 1951): the encoder's
    runs, and the proof that the decoder unrolls them. */
module CodeLengths {
  import opened Bits
  import opened BitIO
  import opened Huffman
  import opened DeflateTables
  import opened Inflate

  /** A code length symbol with its extra bits. */
  datatype ClSym = ClSym(sym: nat, extra: nat, nbits: nat)

  /** Symbols the header format knows, with extra bits of the right size. */
  predicate WellFormed(s: ClSym)
  {
    || (s.sym <= 15 && s.extra == 0 && s.nbits == 0)
    || (s.sym == 16 && s.extra < 4 && s.nbits == 2)
    || (s.sym == 17 && s.extra < 8 && s.nbits == 3)
    || (s.sym == 18 && s.extra < 128 && s.nbits == 7)
  }

  /** The length a symbol repeats and how often, given the lengths before it. */
  function RunOf(s: ClSym, acc: seq<nat>): (r: (nat, nat))
  {
    if s.sym <= 15 then (s.sym, 1)
    else if s.sym == 16 then (if acc == [] then 0 else acc[|acc| - 1], s.extra + 3)
    else if s.sym == 17 then (0, s.extra + 3)
    else (0, s.extra + 11)
  }

  function Apply(s: ClSym, acc: seq<nat>): (r: seq<nat>)
    ensures |acc| < |r|
  {
    acc + Repeat(RunOf(s, acc).0, RunOf(s, acc).1)
  }

  /** The lengths that the first k symbols stand for. */
  function Unroll(syms: seq<ClSym>, k: nat): (r: seq<nat>)
    requires k <= |syms|
  {
    if k == 0 then [] else Apply(syms[k - 1], Unroll(syms, k - 1))
  }

  /** Every symbol is well formed, and none repeats a length that is not there. */
  ghost predicate Sound(syms: seq<ClSym>)
  {
    forall k :: 0 <= k < |syms| ==> WellFormed(syms[k]) && (syms[k].sym == 16 ==> k > 0)
  }

  lemma {:induction false} UnrollSame(s: seq<ClSym>, t: seq<ClSym>, k: nat)
    requires k <= |s| && k <= |t| && forall i :: 0 <= i < k ==> s[i] == t[i]
    ensures Unroll(s, k) == Unroll(t, k)
  {
    if k > 0 { UnrollSame(s, t, k - 1); }
  }

  // ---------- The decoder unrolls what was written ----------

  function SymBits(s: ClSym, cl: seq<nat>): (w: seq<bool>)
    requires s.sym < |cl|
    ensures |w| == cl[s.sym] + s.nbits
  {
    CodeBits(cl, s.sym) + LsbBits(s.extra, s.nbits)
  }

  ghost predicate Coded(syms: seq<ClSym>, cl: seq<nat>)
  {
    forall k :: 0 <= k < |syms| ==> syms[k].sym < |cl| && cl[syms[k].sym] > 0
  }

  /** What the encoder writes for the first k symbols. */
  function RunBits(syms: seq<ClSym>, k: nat, cl: seq<nat>): (w: seq<bool>)
    requires k <= |syms| && Coded(syms, cl)
  {
    if k == 0 then [] else RunBits(syms, k - 1, cl) + SymBits(syms[k - 1], cl)
  }

  lemma {:induction false} NthRun(syms: seq<ClSym>, k: nat, n: nat, cl: seq<nat>, bits: seq<bool>, pos: nat)
    requires k < n <= |syms| && Coded(syms, cl) && At(bits, pos, RunBits(syms, n, cl))
    ensures At(bits, pos + |RunBits(syms, k, cl)|, SymBits(syms[k], cl))
  {
    AtSplit(bits, pos, RunBits(syms, n - 1, cl), SymBits(syms[n - 1], cl));
    if k < n - 1 { NthRun(syms, k, n - 1, cl, bits, pos); }
  }

  /** The decoder's step on a symbol is Apply. */
  lemma {:induction false} AddsRun(s: ClSym, bits: seq<bool>, pos: nat, acc: seq<nat>, total: nat)
    requires WellFormed(s) && (s.sym == 16 ==> acc != []) && |Apply(s, acc)| <= total
    requires At(bits, pos, LsbBits(s.extra, s.nbits))
    ensures AddLens(s.sym, bits, pos, acc, total) == Ok((Apply(s, acc), pos + s.nbits))
  {
    Pow2Values();
    FieldWritten(bits, pos, s.extra, s.nbits);
    if s.sym <= 15 { assert Repeat(s.sym, 1) == [s.sym]; }
  }

  lemma {:induction false} UnrollNonEmpty(syms: seq<ClSym>, k: nat)
    requires 0 < k <= |syms|
    ensures Unroll(syms, k) != []
  {
  }

  /** The decoder's step on the k-th symbol. */
  lemma {:induction false} ReadsOne(syms: seq<ClSym>, cl: seq<nat>, m: nat, bits: seq<bool>, pos: nat, k: nat,
      total: nat)
    requires Sound(syms) && Coded(syms, cl) && PrefixCode(cl, m) && m <= 15
    requires k < |syms| && |Unroll(syms, k + 1)| <= total
    requires At(bits, pos, SymBits(syms[k], cl))
    ensures |Unroll(syms, k)| < total
    ensures Lens(cl, bits, pos, Unroll(syms, k), total)
         == Lens(cl, bits, pos + |SymBits(syms[k], cl)|, Unroll(syms, k + 1), total)
  {
    hide Decode, DecodeAt, AddLens, Lens, At, PrefixCode, CodeBits, RunOf;
    var s, acc := syms[k], Unroll(syms, k);
    AtSplit(bits, pos, CodeBits(cl, s.sym), LsbBits(s.extra, s.nbits));
    DecodeWritten(cl, m, s.sym, bits, pos);
    if k > 0 { UnrollNonEmpty(syms, k); }
    AddsRun(s, bits, pos + cl[s.sym], acc, total);
    LensStep(cl, bits, pos, acc, total, s.sym, pos + cl[s.sym], Apply(s, acc), pos + |SymBits(s, cl)|);
  }

  lemma {:induction false} LensStep(cl: seq<nat>, bits: seq<bool>, pos: nat, acc: seq<nat>, total: nat, sym: nat,
      p: nat, acc': seq<nat>, p': nat)
    requires |acc| < total && |acc'| <= total
    requires Decode(cl, bits, pos) == Ok((sym, p)) && AddLens(sym, bits, p, acc, total) == Ok((acc', p'))
    ensures Lens(cl, bits, pos, acc, total) == Lens(cl, bits, p', acc', total)
  {
    hide Decode, AddLens;
  }

  lemma {:induction false} RunStep(syms: seq<ClSym>, cl: seq<nat>, m: nat, bits: seq<bool>, pos: nat, k: nat,
      total: nat)
    requires Sound(syms) && Coded(syms, cl) && PrefixCode(cl, m) && m <= 15
    requires k < |syms| && |Unroll(syms, k + 1)| <= total && At(bits, pos, RunBits(syms, |syms|, cl))
    ensures |Unroll(syms, k)| < total
    ensures Lens(cl, bits, pos + |RunBits(syms, k, cl)|, Unroll(syms, k), total)
         == Lens(cl, bits, pos + |RunBits(syms, k + 1, cl)|, Unroll(syms, k + 1), total)
  {
    hide Lens, Unroll, At, PrefixCode, Sound, SymBits;
    NthRun(syms, k, |syms|, cl, bits, pos);
    ReadsOne(syms, cl, m, bits, pos + |RunBits(syms, k, cl)|, k, total);
  }

  lemma {:induction false} LensDone(cl: seq<nat>, bits: seq<bool>, pos: nat, acc: seq<nat>)
    ensures Lens(cl, bits, pos, acc, |acc|) == Ok((acc, pos))
  {
  }

  /** Reading the written symbols gives back the lengths they stand for. */
  lemma {:induction false} RunsRead(syms: seq<ClSym>, cl: seq<nat>, m: nat, bits: seq<bool>, pos: nat, k: nat,
      all: seq<nat>)
    requires Sound(syms) && Coded(syms, cl) && PrefixCode(cl, m) && m <= 15
    requires k <= |syms| && At(bits, pos, RunBits(syms, |syms|, cl)) && all == Unroll(syms, |syms|)
    ensures |Unroll(syms, k)| <= |all|
    ensures Lens(cl, bits, pos + |RunBits(syms, k, cl)|, Unroll(syms, k), |all|) ==
              Ok((all, pos + |RunBits(syms, |syms|, cl)|))
    decreases |syms| - k
  {
    hide *;
    if k == |syms| {
      LensDone(cl, bits, pos + |RunBits(syms, k, cl)|, all);
    } else {
      RunsRead(syms, cl, m, bits, pos, k + 1, all);
      RunStep(syms, cl, m, bits, pos, k, |all|);
    }
  }

  // ---------- The encoder's runs ----------

  /** syms stands for the first n lengths. */
  ghost predicate StandsFor(syms: seq<ClSym>, all: seq<nat>, n: nat)
  {
    && n <= |all| && Sound(syms)
    && |Unroll(syms, |syms|)| == n && forall i :: 0 <= i < n ==> Unroll(syms, |syms|)[i] == all[i]
  }

  /** One more symbol, when the lengths it stands for come next. */
  lemma {:induction false} PushRun(syms: seq<ClSym>, all: seq<nat>, n: nat, s: ClSym, v: nat, c: nat)
    requires StandsFor(syms, all, n) && WellFormed(s) && n + c <= |all|
    requires RunOf(s, Unroll(syms, |syms|)) == (v, c) && (s.sym == 16 ==> syms != [])
    requires forall i :: n <= i < n + c ==> all[i] == v
    ensures StandsFor(syms + [s], all, n + c)
  {
    UnrollSame(syms + [s], syms, |syms|);
  }

  /** v once for each of n lengths. */
  function Single(v: nat, n: nat): (syms: seq<ClSym>)
  {
    if n == 0 then [] else [ClSym(v, 0, 0)] + Single(v, n - 1)
  }

  /** n zeros: symbol 18 for 11 to 138 of them as long as there are that many, then 17 for 3 to 10, then single ones. */
  function Zeros(n: nat): (syms: seq<ClSym>)
  {
    if n >= 11 then [ClSym(18, Min(n, 138) - 11, 7)] + Zeros(n - Min(n, 138))
    else if n >= 3 then [ClSym(17, n - 3, 3)]
    else Single(0, n)
  }

  /** v n times more: symbol 16 for 3 to 6 repetitions, then single ones. */
  function More(v: nat, n: nat): (syms: seq<ClSym>)
  {
    if n >= 3 then [ClSym(16, Min(n, 6) - 3, 2)] + More(v, n - Min(n, 6)) else Single(v, n)
  }

  /** The end of the run of all[i], of which the lengths before k are known to be part. */
  function RunEnd(all: seq<nat>, i: nat, k: nat): (end: nat)
    requires i < k <= |all|
    ensures k <= end <= |all|
    decreases |all| - k
  {
    if k < |all| && all[k] == all[i] then RunEnd(all, i, k + 1) else k
  }

  /** The symbols for a run of all[i]. */
  function RunPart(all: seq<nat>, i: nat, run: nat): (syms: seq<ClSym>)
    requires i < |all| && run >= 1
  {
    if all[i] == 0 then Zeros(run) else [ClSym(all[i], 0, 0)] + More(all[i], run - 1)
  }

  /** The symbols for the lengths from i on: every run of equal lengths as a whole. */
  function RunsFrom(all: seq<nat>, i: nat): (syms: seq<ClSym>)
    requires i <= |all|
    decreases |all| - i
  {
    if i == |all| then []
    else
      var end := RunEnd(all, i, i + 1);
      RunPart(all, i, end - i) + RunsFrom(all, end)
  }

  // ---------- Which runs are sent ----------

  /** Exactly r lengths from p on are equal. */
  ghost predicate RunIs(all: seq<nat>, p: nat, r: nat)
  {
    && 1 <= r && p + r <= |all| && (forall q :: p <= q < p + r ==> all[q] == all[p])
    && (p + r < |all| ==> all[p + r] != all[p])
  }

  /** The symbol for a place with r equal lengths to go: as many zeros as one symbol takes, as many repetitions of the
      length before, or the length itself. */
  function Choice(all: seq<nat>, p: nat, r: nat): (s: ClSym)
    requires p < |all|
  {
    if all[p] == 0 && r >= 11 then ClSym(18, Min(r, 138) - 11, 7)
    else if all[p] == 0 && r >= 3 then ClSym(17, r - 3, 3)
    else if all[p] != 0 && p > 0 && all[p - 1] == all[p] && r >= 3 then ClSym(16, Min(r, 6) - 3, 2)
    else ClSym(all[p], 0, 0)
  }

  /** The symbols from place p on are the ones chosen. */
  ghost predicate Chosen(all: seq<nat>, p: nat, syms: seq<ClSym>)
    decreases |syms|
  {
    if syms == [] then p == |all|
    else
      && (exists r: nat :: RunIs(all, p, r) && syms[0] == Choice(all, p, r))
      && Chosen(all, p + RunOf(syms[0], []).1, syms[1..])
  }

  lemma {:induction false} ChosenMore(all: seq<nat>, p: nat, r: nat, s: ClSym, rest: seq<ClSym>)
    requires RunIs(all, p, r) && s == Choice(all, p, r) && Chosen(all, p + RunOf(s, []).1, rest)
    ensures Chosen(all, p, [s] + rest)
  {
    hide RunIs, RunOf;
    assert ([s] + rest)[1..] == rest;
  }

  lemma {:induction false} RunLater(all: seq<nat>, p: nat, r: nat, k: nat)
    requires RunIs(all, p, r) && k < r
    ensures RunIs(all, p + k, r - k) && all[p + k] == all[p] && (k > 0 ==> all[p + k - 1] == all[p])
  {
  }

  lemma {:induction false} SinglesChosen(all: seq<nat>, p: nat, n: nat, v: nat, rest: seq<ClSym>)
    requires n > 0 ==> RunIs(all, p, n) && n < 3 && v == all[p] <= 15
    requires Chosen(all, p + n, rest)
    ensures Chosen(all, p, Single(v, n) + rest)
    decreases n
  {
    hide Chosen;
    if n == 0 {
      assert Single(v, 0) + rest == rest;
    } else {
      if n == 2 { RunLater(all, p, n, 1); }
      SinglesChosen(all, p + 1, n - 1, v, rest);
      ChosenMore(all, p, n, ClSym(v, 0, 0), Single(v, n - 1) + rest);
      assert Single(v, n) + rest == [ClSym(v, 0, 0)] + (Single(v, n - 1) + rest);
    }
  }

  lemma {:induction false} Cons(s: ClSym, a: seq<ClSym>, rest: seq<ClSym>)
    ensures ([s] + a) + rest == [s] + (a + rest)
  {
  }

  lemma {:induction false} ZerosStep(n: nat)
    ensures n < 3 ==> Zeros(n) == Single(0, n)
    ensures 3 <= n < 11 ==> Zeros(n) == [ClSym(17, n - 3, 3)]
    ensures n >= 11 ==> Zeros(n) == [ClSym(18, Min(n, 138) - 11, 7)] + Zeros(n - Min(n, 138))
  {
    hide Single;
  }

  lemma {:induction false} ZerosChosen(all: seq<nat>, p: nat, n: nat, rest: seq<ClSym>)
    requires n > 0 ==> RunIs(all, p, n) && all[p] == 0
    requires Chosen(all, p + n, rest)
    ensures Chosen(all, p, Zeros(n) + rest)
    decreases n
  {
    hide RunIs, Chosen, Zeros, Single;
    ZerosStep(n);
    if n < 3 {
      SinglesChosen(all, p, n, 0, rest);
    } else if n < 11 {
      ChosenMore(all, p, n, ClSym(17, n - 3, 3), rest);
    } else {
      var take := Min(n, 138);
      var s := ClSym(18, take - 11, 7);
      if take < n { RunLater(all, p, n, take); }
      ZerosChosen(all, p + take, n - take, rest);
      ChosenMore(all, p, n, s, Zeros(n - take) + rest);
      Cons(s, Zeros(n - take), rest);
    }
  }

  lemma {:induction false} MoreStep(v: nat, n: nat)
    ensures n < 3 ==> More(v, n) == Single(v, n)
    ensures n >= 3 ==> More(v, n) == [ClSym(16, Min(n, 6) - 3, 2)] + More(v, n - Min(n, 6))
  {
    hide Single;
  }

  lemma {:induction false} MoreChosen(all: seq<nat>, p: nat, v: nat, n: nat, rest: seq<ClSym>)
    requires n > 0 ==> RunIs(all, p, n) && p > 0 && all[p - 1] == all[p] == v && 0 < v <= 15
    requires Chosen(all, p + n, rest)
    ensures Chosen(all, p, More(v, n) + rest)
    decreases n
  {
    hide RunIs, Chosen, More, Single;
    MoreStep(v, n);
    if n < 3 {
      SinglesChosen(all, p, n, v, rest);
    } else {
      var take := Min(n, 6);
      var s := ClSym(16, take - 3, 2);
      if take < n { RunLater(all, p, n, take); }
      MoreChosen(all, p + take, v, n - take, rest);
      ChosenMore(all, p, n, s, More(v, n - take) + rest);
      Cons(s, More(v, n - take), rest);
    }
  }

  lemma {:induction false} RunEndIs(all: seq<nat>, i: nat, k: nat)
    requires i < k <= |all| && forall q :: i <= q < k ==> all[q] == all[i]
    ensures RunIs(all, i, RunEnd(all, i, k) - i)
    decreases |all| - k
  {
    if k < |all| && all[k] == all[i] { RunEndIs(all, i, k + 1); }
  }

  lemma {:induction false} RunPartChosen(all: seq<nat>, i: nat, run: nat, rest: seq<ClSym>)
    requires i < |all| && run >= 1 && RunIs(all, i, run) && all[i] <= 15 && (i > 0 ==> all[i] != all[i - 1])
    requires Chosen(all, i + run, rest)
    ensures Chosen(all, i, RunPart(all, i, run) + rest)
  {
    hide Chosen, Zeros, More, RunIs;
    var v := all[i];
    if v == 0 {
      ZerosChosen(all, i, run, rest);
    } else {
      if run > 1 { RunLater(all, i, run, 1); }
      MoreChosen(all, i + 1, v, run - 1, rest);
      ChosenMore(all, i, run, ClSym(v, 0, 0), More(v, run - 1) + rest);
      Cons(ClSym(v, 0, 0), More(v, run - 1), rest);
    }
  }

  /** At every place the symbol is the one for the rest of the maximal run there. */
  lemma {:induction false} RunsChosen(all: seq<nat>, i: nat)
    requires i <= |all| && Bounded(all, 15) && (0 < i < |all| ==> all[i] != all[i - 1])
    ensures Chosen(all, i, RunsFrom(all, i))
    decreases |all| - i
  {
    hide Chosen, RunEnd, RunPart, RunIs;
    if i == |all| {
      NothingChosen(all);
    } else {
      var end := RunEnd(all, i, i + 1);
      RunEndIs(all, i, i + 1);
      RunStops(all, i, end - i);
      RunsChosen(all, end);
      RunPartChosen(all, i, end - i, RunsFrom(all, end));
    }
  }

  lemma {:induction false} RunStops(all: seq<nat>, p: nat, r: nat)
    requires RunIs(all, p, r)
    ensures 0 < p + r < |all| ==> all[p + r] != all[p + r - 1]
  {
  }

  lemma {:induction false} NothingChosen(all: seq<nat>)
    ensures Chosen(all, |all|, [])
  {
  }

  /** The run of equal lengths that starts at i. */
  method RunAt(all: seq<nat>, i: nat) returns (run: nat)
    requires i < |all|
    ensures 1 <= run && i + run <= |all| && forall k :: i <= k < i + run ==> all[k] == all[i]
    ensures i + run < |all| ==> all[i + run] != all[i]
    ensures i + run == RunEnd(all, i, i + 1)
  {
    run := 1;
    while i + run < |all| && all[i + run] == all[i]
      invariant i + run <= |all| && RunEnd(all, i, i + 1) == RunEnd(all, i, i + run)
      invariant 1 <= run && i + run <= |all| && forall k :: i <= k < i + run ==> all[k] == all[i]
    {
      run := run + 1;
    }
  }

  /** A run of zeros: symbol 18 for 11 to 138 of them, 17 for 3 to 10, then single ones. */
  method ZeroRun(all: seq<nat>, i: nat, run: nat, syms0: seq<ClSym>) returns (syms: seq<ClSym>)
    requires StandsFor(syms0, all, i) && i + run <= |all| && forall k :: i <= k < i + run ==> all[k] == 0
    ensures StandsFor(syms, all, i + run) && syms == syms0 + Zeros(run)
  {
    hide StandsFor, Single;
    syms := syms0;
    var r: nat := run;
    while r >= 11
      invariant r <= run && StandsFor(syms, all, i + run - r) && syms + Zeros(r) == syms0 + Zeros(run)
    {
      var take := Min(r, 138);
      var s := ClSym(18, take - 11, 7);
      PushRun(syms, all, i + run - r, s, 0, take);
      assert (syms + [s]) + Zeros(r - take) == syms + ([s] + Zeros(r - take));
      syms := syms + [s];
      r := r - take;
    }
    while r >= 3
      invariant r <= run && StandsFor(syms, all, i + run - r) && r < 11 && syms + Zeros(r) == syms0 + Zeros(run)
    {
      var take := Min(r, 10);
      var s := ClSym(17, take - 3, 3);
      PushRun(syms, all, i + run - r, s, 0, take);
      NoneSingle(0);
      assert syms + [s] == (syms + [s]) + Zeros(0);
      syms := syms + [s];
      r := r - take;
    }
    syms := Singles(all, i + run - r, r, 0, syms);
  }

  /** The rest of a run, one symbol for each length. */
  method Singles(all: seq<nat>, i: nat, run: nat, v: nat, syms0: seq<ClSym>) returns (syms: seq<ClSym>)
    requires StandsFor(syms0, all, i) && v <= 15 && i + run <= |all| && forall k :: i <= k < i + run ==> all[k] == v
    ensures StandsFor(syms, all, i + run) && syms == syms0 + Single(v, run)
  {
    hide StandsFor;
    syms := syms0;
    for k := 0 to run
      invariant StandsFor(syms, all, i + k) && syms + Single(v, run - k) == syms0 + Single(v, run)
    {
      var s := ClSym(v, 0, 0);
      PushRun(syms, all, i + k, s, v, 1);
      assert (syms + [s]) + Single(v, run - k - 1) == syms + ([s] + Single(v, run - k - 1));
      syms := syms + [s];
    }
  }

  lemma {:induction false} NoneSingle(v: nat)
    ensures Single(v, 0) == [] && Single(v, 1) == [ClSym(v, 0, 0)]
  {
    assert Single(v, 0) == [];
  }

  /** A run of some other length: the length itself, then symbol 16 for 3 to 6 repetitions. */
  method ValueRun(all: seq<nat>, i: nat, run: nat, syms0: seq<ClSym>) returns (syms: seq<ClSym>)
    requires StandsFor(syms0, all, i) && run >= 1 && i + run <= |all| && all[i] <= 15
    requires forall k :: i <= k < i + run ==> all[k] == all[i]
    ensures StandsFor(syms, all, i + run) && syms == syms0 + ([ClSym(all[i], 0, 0)] + More(all[i], run - 1))
  {
    hide Single, Unroll;
    var v := all[i];
    NoneSingle(v);
    syms := Singles(all, i, 1, v, syms0);
    ghost var start := syms;
    var r: nat := run - 1;
    while r >= 3
      invariant r <= run - 1 && StandsFor(syms, all, i + run - r) && syms != []
      invariant syms + More(v, r) == start + More(v, run - 1)
    {
      var take := Min(r, 6);
      var s := ClSym(16, take - 3, 2);
      assert Unroll(syms, |syms|)[i + run - r - 1] == all[i + run - r - 1];
      PushRun(syms, all, i + run - r, s, v, take);
      assert (syms + [s]) + More(v, r - take) == syms + ([s] + More(v, r - take));
      syms := syms + [s];
      r := r - take;
    }
    syms := Singles(all, i + run - r, r, v, syms);
  }

  method OneRun(all: seq<nat>, i: nat, run: nat, syms0: seq<ClSym>) returns (syms: seq<ClSym>)
    requires StandsFor(syms0, all, i) && run >= 1 && i + run <= |all| && all[i] <= 15
    requires forall k :: i <= k < i + run ==> all[k] == all[i]
    ensures StandsFor(syms, all, i + run) && syms == syms0 + RunPart(all, i, run)
  {
    hide StandsFor, Zeros, More;
    if all[i] == 0 {
      syms := ZeroRun(all, i, run, syms0);
    } else {
      syms := ValueRun(all, i, run, syms0);
    }
  }

  lemma {:induction false} RunsStep(syms: seq<ClSym>, all: seq<nat>, i: nat, run: nat)
    requires i < |all| && i + run == RunEnd(all, i, i + 1)
    ensures (syms + RunPart(all, i, run)) + RunsFrom(all, i + run) == syms + RunsFrom(all, i)
  {
    hide RunPart, RunEnd;
    assert RunsFrom(all, i) == RunPart(all, i, run) + RunsFrom(all, i + run);
  }

  lemma {:induction false} RunsEnd(syms: seq<ClSym>, all: seq<nat>)
    requires StandsFor(syms, all, |all|)
    ensures Sound(syms) && Unroll(syms, |syms|) == all && RunsFrom(all, |all|) == []
  {
    hide Unroll, Sound;
  }

  /** The symbols stand for exactly the lengths, with each run of equal lengths sent as a whole. */
  method RunLengths(all: seq<nat>) returns (syms: seq<ClSym>)
    requires Bounded(all, 15)
    ensures Sound(syms) && Unroll(syms, |syms|) == all
    ensures syms == RunsFrom(all, 0) && Chosen(all, 0, syms)
  {
    hide StandsFor, Sound, Unroll, RunPart, RunsFrom, RunEnd, Chosen;
    RunsChosen(all, 0);
    syms := [];
    var i := 0;
    NothingYet(all);
    while i < |all|
      invariant 0 <= i <= |all| && StandsFor(syms, all, i) && syms + RunsFrom(all, i) == RunsFrom(all, 0)
    {
      var run := RunAt(all, i);
      RunsStep(syms, all, i, run);
      syms := OneRun(all, i, run, syms);
      i := i + run;
    }
    RunsEnd(syms, all);
  }

  lemma {:induction false} NothingYet(all: seq<nat>)
    ensures StandsFor([], all, 0)
  {
  }

  // ---------- The code length code ----------

  /** What is written for the first n code length code lengths, three bits each in the order of the format. */
  function ClBits(cl: seq<nat>, n: nat): (w: seq<bool>)
    requires |cl| == 19 && n <= 19
    ensures |w| == 3 * n
  {
    if n == 0 then [] else ClBits(cl, n - 1) + LsbBits(cl[ClOrder(n - 1)], 3)
  }

  /** Lengths not sent are zero. */
  ghost predicate SentUpTo(cl: seq<nat>, n: nat)
  {
    |cl| == 19 && n <= 19 && forall s :: 0 <= s < 19 && ClRank(s) >= n ==> cl[s] == 0
  }

  /** The first n lengths of the order, the others zero. */
  ghost predicate Partly(lens: seq<nat>, cl: seq<nat>, n: nat)
    requires |cl| == 19
  {
    |lens| == 19 && forall s :: 0 <= s < 19 ==> lens[s] == if ClRank(s) < n then cl[s] else 0
  }

  lemma {:induction false} OneMore(lens: seq<nat>, cl: seq<nat>, n: nat)
    requires |cl| == 19 && n < 19 && Partly(lens, cl, n)
    ensures Partly(lens[ClOrder(n) := cl[ClOrder(n)]], cl, n + 1)
  {
    forall s | 0 <= s < 19
      ensures lens[ClOrder(n) := cl[ClOrder(n)]][s] == if ClRank(s) < n + 1 then cl[s] else 0
    {
      ClOrderPermutes(s, n);
    }
  }

  lemma {:induction false} ClLensPartly(cl: seq<nat>, n: nat, bits: seq<bool>, pos: nat)
    requires |cl| == 19 && n <= 19 && Bounded(cl, 7) && At(bits, pos, ClBits(cl, n))
    ensures ClLens(bits, pos, n).Ok? && Partly(ClLens(bits, pos, n).value, cl, n)
  {
    if n > 0 {
      var v := cl[ClOrder(n - 1)];
      AtSplit(bits, pos, ClBits(cl, n - 1), LsbBits(v, 3));
      ClLensPartly(cl, n - 1, bits, pos);
      assert v < Pow2(3);
      FieldWritten(bits, pos + 3 * (n - 1), v, 3);
      OneMore(ClLens(bits, pos, n - 1).value, cl, n - 1);
    }
  }

  /** The decoder reads back the code length code. */
  lemma {:induction false} ClLensRead(cl: seq<nat>, n: nat, bits: seq<bool>, pos: nat)
    requires SentUpTo(cl, n) && Bounded(cl, 7) && At(bits, pos, ClBits(cl, n))
    ensures ClLens(bits, pos, n) == Ok(cl)
  {
    ClLensPartly(cl, n, bits, pos);
    var lens := ClLens(bits, pos, n).value;
    forall s | 0 <= s < 19
      ensures lens[s] == cl[s]
    {
      assert ClRank(s) < n || cl[s] == 0;
    }
    assert lens == cl;
  }
}
