/** Length-limited Huffman code lengths by the package-merge algorithm: the
    result is a complete prefix code and no cheaper one exists within the limit. */
module PackageMerge {
  import opened Bits
  import opened Huffman
  import opened Coins
  import opened PackageChain

  // ---------- The levels of the algorithm ----------

  /** The leaves merged with the packages of the list below. */
  function Above(a: seq<Coin>, below: seq<Coin>): (r: seq<Coin>)
    ensures |r| == |a| + |below| / 2
  {
    Merge(a, |a|, Pairs(below), |below| / 2)
  }

  ghost predicate NextLevel(a: seq<Coin>, lv: seq<seq<Coin>>, t: nat)
    requires 1 <= t < |lv|
  {
    lv[t] == Above(a, lv[t - 1])
  }

  /** The lists after each round. */
  ghost predicate Levels(a: seq<Coin>, lv: seq<seq<Coin>>)
  {
    && |lv| >= 1 && lv[0] == a
    && forall t :: 1 <= t < |lv| ==> NextLevel(a, lv, t)
  }

  lemma {:induction false} LevelSorted(a: seq<Coin>, lv: seq<seq<Coin>>, t: nat)
    requires Sorted(a) && Levels(a, lv) && t < |lv|
    ensures Sorted(lv[t])
  {
    if t > 0 {
      LevelSorted(a, lv, t - 1);
      assert NextLevel(a, lv, t);
      PairsSorted(lv[t - 1]);
      SortIsMerge(a, Pairs(lv[t - 1]));
    }
  }

  lemma {:induction false} LevelPositive(a: seq<Coin>, lv: seq<seq<Coin>>, t: nat)
    requires Positive(a) && Levels(a, lv) && t < |lv|
    ensures Positive(lv[t])
  {
    if t > 0 {
      LevelPositive(a, lv, t - 1);
      assert NextLevel(a, lv, t);
      PairsPositive(lv[t - 1]);
      MergePositive(a, |a|, Pairs(lv[t - 1]), |lv[t - 1]| / 2);
    }
  }

  /** How many of the first c coins above are leaves. */
  function Leaves(a: seq<Coin>, below: seq<Coin>, c: nat): (k: nat)
    requires c <= |a| + |below| / 2
    ensures k <= |a| && k <= c && 2 * (c - k) <= |below|
  {
    FromLeft(a, |a|, Pairs(below), |below| / 2, c)
  }

  /** The first c coins above are the first leaves and the packages of the first coins below. */
  lemma {:induction false} TotalAbove(q: Measure, a: seq<Coin>, below: seq<Coin>, c: nat)
    requires c <= |a| + |below| / 2
    ensures Total(q, Above(a, below), c)
         == Total(q, a, Leaves(a, below, c)) + Total(q, below, 2 * (c - Leaves(a, below, c)))
  {
    hide Total, Merge, PairsTo, SamePrefix, FromLeft;
    var p, n, k := Pairs(below), |below| / 2, Leaves(a, below, c);
    MergePrefix(a, |a|, p, n, c);
    TotalSame(q, Above(a, below), Merge(a, k, p, c - k), c);
    MergeTotal(q, a, k, p, c - k);
    PairsTotal(q, below, n, c - k);
  }

  /** Leaf counts never grow at deeper levels: a package outweighs its parts, so a leaf inside a
      package that was taken was taken itself. */
  lemma {:induction false} LeavesShrink(a: seq<Coin>, below: seq<Coin>, c: nat, k: nat, k': nat)
    requires Sorted(a) && Sorted(below) && Positive(below) && c <= |a| + |below| / 2 && k == Leaves(a, below, c)
    requires k' <= |a| && k' <= 2 * (c - k) && (k' > 0 ==> below[2 * (c - k) - 1].weight >= a[k' - 1].weight)
    ensures k' <= k
  {
    if k' > k {
      if k < k' - 1 { assert Below(a, k, k' - 1); }
      PairsSorted(below);
      LeftOutIsHeavier(a, |a|, Pairs(below), |below| / 2, c);
      PackageOutweighs(below, c - k);
      assert false;
    }
  }

  // ---------- The leaves chosen by the algorithm ----------

  /** ks[j] leaves are among the first cs[j] coins of level j. */
  ghost predicate Chosen(a: seq<Coin>, lv: seq<seq<Coin>>, ks: seq<nat>, cs: seq<nat>, j: nat)
    requires 1 <= j < |lv| && j < |ks| && j < |cs|
  {
    cs[j] <= |a| + |lv[j - 1]| / 2 && ks[j] == Leaves(a, lv[j - 1], cs[j])
  }

  ghost predicate Choice(a: seq<Coin>, lv: seq<seq<Coin>>, ks: seq<nat>, cs: seq<nat>, t: nat)
  {
    && t < |lv| && Chain(ks, cs, t, |a|)
    && forall j :: 1 <= j <= t ==> Chosen(a, lv, ks, cs, j)
  }

  lemma {:induction false} ExtendChoice(a: seq<Coin>, lv: seq<seq<Coin>>, ks: seq<nat>, cs: seq<nat>, k: nat, c: nat,
      t: nat)
    requires Sorted(a) && Positive(a) && Levels(a, lv) && 0 < t < |lv| && |ks| == |cs| == t
    requires Choice(a, lv, ks, cs, t - 1)
    requires c <= |a| + |lv[t - 1]| / 2 && k == Leaves(a, lv[t - 1], c) && cs[t - 1] == 2 * (c - k)
    requires ks[t - 1] > 0 ==> lv[t - 1][cs[t - 1] - 1].weight >= a[ks[t - 1] - 1].weight
    ensures Choice(a, lv, ks + [k], cs + [c], t)
  {
    var ks', cs' := ks + [k], cs + [c];
    LevelSorted(a, lv, t - 1);
    LevelPositive(a, lv, t - 1);
    LeavesShrink(a, lv[t - 1], c, k, ks[t - 1]);
    forall j | 1 <= j <= t
      ensures Linked(ks', cs', j) && Chosen(a, lv, ks', cs', j)
    {
      if j < t { assert Linked(ks, cs, j) && Chosen(a, lv, ks, cs, j); }
    }
  }

  /** The first c coins of level t determine a chain of leaf counts. */
  lemma {:induction false} Choose(a: seq<Coin>, lv: seq<seq<Coin>>, t: nat, c: nat) returns (ks: seq<nat>, cs: seq<nat>)
    requires Sorted(a) && Positive(a) && Levels(a, lv) && t < |lv| && c <= |lv[t]|
    ensures Choice(a, lv, ks, cs, t) && |ks| == |cs| == t + 1 && cs[t] == c
    ensures ks[t] > 0 ==> lv[t][c - 1].weight >= a[ks[t] - 1].weight
  {
    if t == 0 {
      ks, cs := [c], [c];
    } else {
      assert NextLevel(a, lv, t);
      var k := Leaves(a, lv[t - 1], c);
      ks, cs := Choose(a, lv, t - 1, 2 * (c - k));
      ExtendChoice(a, lv, ks, cs, k, c, t);
      if k > 0 { LeafBelowLast(a, |a|, Pairs(lv[t - 1]), |lv[t - 1]| / 2, c); }
      ks, cs := ks + [k], cs + [c];
    }
  }

  /** The measure of the leaves chosen in the lowest m levels. */
  function ChosenTotal(q: Measure, a: seq<Coin>, ks: seq<nat>, m: nat): (w: nat)
    requires m <= |ks| && forall j :: 0 <= j < m ==> ks[j] <= |a|
  {
    if m == 0 then 0 else ChosenTotal(q, a, ks, m - 1) + Total(q, a, ks[m - 1])
  }

  lemma {:induction false} ChosenIsPrefix(q: Measure, a: seq<Coin>, lv: seq<seq<Coin>>, ks: seq<nat>, cs: seq<nat>,
      t: nat)
    requires Levels(a, lv) && Choice(a, lv, ks, cs, t)
    ensures cs[t] <= |lv[t]| && Total(q, lv[t], cs[t]) == ChosenTotal(q, a, ks, t + 1)
  {
    if t > 0 {
      assert NextLevel(a, lv, t) && Chosen(a, lv, ks, cs, t) && Linked(ks, cs, t);
      ChosenIsPrefix(q, a, lv, ks, cs, t - 1);
      TotalAbove(q, a, lv[t - 1], cs[t]);
    }
  }

  /** The weighted length of an assignment given leaf by leaf. */
  function RankCost(a: seq<Coin>, lp: seq<nat>, n: nat): (w: nat)
    requires n <= |lp| && n <= |a|
  {
    if n == 0 then 0 else RankCost(a, lp, n - 1) + a[n - 1].weight * lp[n - 1]
  }

  /** The cost of the lengths in the lowest m levels. */
  function LenCost(a: seq<Coin>, ks: seq<nat>, m: nat, n: nat): (w: nat)
    requires m <= |ks| && n <= |a|
  {
    if n == 0 then 0 else LenCost(a, ks, m, n - 1) + a[n - 1].weight * LenOf(ks, m, n - 1)
  }

  lemma {:induction false} AddOnce(w: nat, l: nat)
    ensures w * (l + 1) == w * l + w
  {
  }

  lemma {:induction false} CostOneLevel(a: seq<Coin>, ks: seq<nat>, m: nat, n: nat)
    requires m < |ks| && n <= |a| && ks[m] <= |a|
    ensures LenCost(a, ks, m + 1, n) == LenCost(a, ks, m, n) + Total(ByWeight, a, Min(ks[m], n))
  {
    if n > 0 {
      CostOneLevel(a, ks, m, n - 1);
      AddOnce(a[n - 1].weight, LenOf(ks, m, n - 1));
    }
  }

  lemma {:induction false} CostOfNone(a: seq<Coin>, ks: seq<nat>, n: nat)
    requires n <= |a|
    ensures LenCost(a, ks, 0, n) == 0
  {
    if n > 0 { CostOfNone(a, ks, n - 1); }
  }

  lemma {:induction false} CostByLevel(a: seq<Coin>, ks: seq<nat>, m: nat)
    requires m <= |ks| && forall j :: 0 <= j < m ==> ks[j] <= |a|
    ensures LenCost(a, ks, m, |a|) == ChosenTotal(ByWeight, a, ks, m)
  {
    if m == 0 {
      CostOfNone(a, ks, |a|);
    } else {
      CostByLevel(a, ks, m - 1);
      CostOneLevel(a, ks, m - 1, |a|);
    }
  }

  lemma {:induction false} CostByRank(a: seq<Coin>, lp: seq<nat>, ks: seq<nat>, m: nat, n: nat)
    requires m <= |ks| && LensOf(lp, ks, m) && n <= |lp| && n <= |a|
    ensures RankCost(a, lp, n) == LenCost(a, ks, m, n)
  {
    if n > 0 { CostByRank(a, lp, ks, m, n - 1); }
  }

  // ---------- No other assignment is cheaper ----------

  function WeightAtLeast(a: seq<Coin>, lp: seq<nat>, n: nat, k: nat): (w: nat)
    requires n <= |lp| && n <= |a|
  {
    if n == 0 then 0 else WeightAtLeast(a, lp, n - 1, k) + (if lp[n - 1] >= k then a[n - 1].weight else 0)
  }

  /** Any j leaves weigh at least as much as the j lightest. */
  lemma {:induction false} LightestFirst(a: seq<Coin>, lp: seq<nat>, n: nat, k: nat)
    requires Sorted(a) && n <= |lp| && n <= |a|
    ensures Total(ByWeight, a, AtLeast(lp, n, k)) <= WeightAtLeast(a, lp, n, k)
  {
    if n > 0 {
      LightestFirst(a, lp, n - 1, k);
      var c := AtLeast(lp, n, k);
      if lp[n - 1] >= k && c < n { assert Below(a, c - 1, n - 1); }
    }
  }

  lemma {:induction false} WeightMono(s: seq<Coin>, c: nat, d: nat)
    requires c <= d <= |s|
    ensures Total(ByWeight, s, c) <= Total(ByWeight, s, d)
  {
    if c < d { WeightMono(s, c, d - 1); }
  }

  function WeightUpTo(a: seq<Coin>, lp: seq<nat>, n: nat, m: nat, t: nat): (w: nat)
    requires t < m && n <= |lp| && n <= |a|
  {
    (if t == 0 then 0 else WeightUpTo(a, lp, n, m, t - 1)) + WeightAtLeast(a, lp, n, m - t)
  }

  lemma {:induction false} LowerStep(a: seq<Coin>, below: seq<Coin>, c: nat, x: nat, wBelow: nat, wHere: nat)
    requires Sorted(a) && Sorted(below) && x <= |a| && Total(ByWeight, a, x) <= wHere
    requires x < c ==> 2 * (c - x) <= |below| && Total(ByWeight, below, 2 * (c - x)) <= wBelow
    ensures c <= |a| + |below| / 2 && Total(ByWeight, Above(a, below), c) <= wBelow + wHere
  {
    PairsSorted(below);
    var p, n := Pairs(below), |below| / 2;
    if x >= c {
      MergeCheapest(a, |a|, p, n, c, 0);
      WeightMono(a, c, x);
    } else {
      MergeCheapest(a, |a|, p, n, x, c - x);
      PairsTotal(ByWeight, below, n, c - x);
    }
  }

  /** Leaves of total width c at level t weigh at least as much as the first c coins there. */
  lemma {:induction false} LowerBound(a: seq<Coin>, lv: seq<seq<Coin>>, lp: seq<nat>, m: nat, t: nat, c: nat)
    requires Sorted(a) && Levels(a, lv) && t < m && t < |lv| && |lp| == |a|
    requires WidthUpTo(lp, |lp|, m, t) >= Shl(c, t)
    ensures c <= |lv[t]| && Total(ByWeight, lv[t], c) <= WeightUpTo(a, lp, |lp|, m, t)
  {
    var x := AtLeast(lp, |lp|, m - t);
    LightestFirst(a, lp, |lp|, m - t);
    if t == 0 {
      WeightMono(a, c, x);
    } else {
      assert NextLevel(a, lv, t);
      LevelSorted(a, lv, t - 1);
      if x < c {
        WidthBelow(lp, |lp|, m, t, c);
        LowerBound(a, lv, lp, m, t - 1, 2 * (c - x));
      }
      LowerStep(a, lv[t - 1], c, x, WeightUpTo(a, lp, |lp|, m, t - 1), WeightAtLeast(a, lp, |lp|, m - t));
    }
  }

  lemma {:induction false} WeightSnoc(a: seq<Coin>, lp: seq<nat>, n: nat, m: nat, t: nat)
    requires t < m && 0 < n <= |lp| && n <= |a| && lp[n - 1] <= m
    ensures var l, w := lp[n - 1], a[n - 1].weight;
            WeightUpTo(a, lp, n, m, t) == WeightUpTo(a, lp, n - 1, m, t) +
                (if m - l <= t then w * (t + 1 - (m - l)) else 0)
  {
    var l, w := lp[n - 1], a[n - 1].weight;
    if t > 0 { WeightSnoc(a, lp, n, m, t - 1); }
    if m - l < t { assert w * (t - (m - l)) + w == w * (t + 1 - (m - l)); }
  }

  lemma {:induction false} WeightOfNone(a: seq<Coin>, lp: seq<nat>, m: nat, t: nat)
    requires t < m
    ensures WeightUpTo(a, lp, 0, m, t) == 0
  {
    if t > 0 { WeightOfNone(a, lp, m, t - 1); }
  }

  lemma {:induction false} WeightIsCost(a: seq<Coin>, lp: seq<nat>, n: nat, m: nat)
    requires m >= 1 && n <= |lp| && n <= |a| && Bounded(lp, m)
    ensures WeightUpTo(a, lp, n, m, m - 1) == RankCost(a, lp, n)
  {
    if n == 0 {
      WeightOfNone(a, lp, m, m - 1);
    } else {
      WeightIsCost(a, lp, n - 1, m);
      WeightSnoc(a, lp, n, m, m - 1);
    }
  }

  /** The first 2n-2 coins of the top level exist and weigh no more than any assignment that
      satisfies Kraft's inequality. */
  lemma {:induction false} TopIsCheapest(a: seq<Coin>, lv: seq<seq<Coin>>, lp: seq<nat>, m: nat)
    requires Sorted(a) && Levels(a, lv) && |lv| == m && |lp| == |a| >= 1
    requires Bounded(lp, m) && RankKraft(lp, |lp|, m) <= Pow2(m)
    ensures 2 * |a| - 2 <= |lv[m - 1]|
    ensures Total(ByWeight, lv[m - 1], 2 * |a| - 2) <= RankCost(a, lp, |lp|)
  {
    var n := |a|;
    WidthAndKraft(lp, n, m);
    ShlAdd(n - 1, 1, m);
    ShlOne(m);
    ShlDouble(n - 1, m - 1);
    LowerBound(a, lv, lp, m, m - 1, 2 * n - 2);
    WeightIsCost(a, lp, n, m);
  }

  /** When n <= 2^m the top level has at least 2n-2 coins. */
  lemma {:induction false} EnoughCoins(a: seq<Coin>, lv: seq<seq<Coin>>, m: nat)
    requires Sorted(a) && Levels(a, lv) && |lv| == m && 1 <= |a| <= Pow2(m)
    ensures 2 * |a| - 2 <= |lv[m - 1]|
  {
    var lp := seq(|a|, _ => m);
    KraftOfFlat(lp, |a|, m);
    TopIsCheapest(a, lv, lp, m);
  }

  // ---------- From leaves back to symbols ----------

  ghost predicate IsLeaf(c: Coin, freqs: seq<nat>)
  {
    |c.syms| == 1 && c.syms[0] < |freqs| && c.weight == freqs[c.syms[0]] > 0
  }

  /** Each coin holds one symbol, each symbol once, with its frequency as weight. */
  ghost predicate IsLeaves(a: seq<Coin>, freqs: seq<nat>)
  {
    && (forall i :: 0 <= i < |a| ==> IsLeaf(a[i], freqs))
    && (forall i, j :: 0 <= i < j < |a| ==> a[i] != a[j])
  }

  lemma {:induction false} SymbolValue(c: Coin, freqs: seq<nat>, sym: nat)
    requires IsLeaf(c, freqs)
    ensures Value(BySymbol(sym), c) == if c.syms[0] == sym then 1 else 0
  {
    assert c.syms == [c.syms[0]];
  }

  lemma {:induction false} LeavesDiffer(a: seq<Coin>, freqs: seq<nat>, i: nat, j: nat)
    requires IsLeaves(a, freqs) && i < |a| && j < |a| && i != j
    ensures a[i].syms[0] != a[j].syms[0]
  {
    assert IsLeaf(a[i], freqs) && IsLeaf(a[j], freqs);
    var c, e := a[i], a[j];
    assert c.syms == [c.syms[0]] && e.syms == [e.syms[0]];
    assert c.syms[0] == e.syms[0] ==> c == e;
  }

  lemma {:induction false} TakenOnce(a: seq<Coin>, freqs: seq<nat>, k: nat, r: nat)
    requires IsLeaves(a, freqs) && k <= |a| && r < |a|
    ensures Total(BySymbol(a[r].syms[0]), a, k) == if r < k then 1 else 0
  {
    if k > 0 {
      TakenOnce(a, freqs, k - 1, r);
      SymbolValue(a[k - 1], freqs, a[r].syms[0]);
      if r != k - 1 { LeavesDiffer(a, freqs, r, k - 1); }
    }
  }

  /** A leaf is taken as often as its length says. */
  lemma {:induction false} TakenByLeaf(a: seq<Coin>, freqs: seq<nat>, ks: seq<nat>, m: nat, r: nat)
    requires IsLeaves(a, freqs) && r < |a| && m <= |ks| && forall j :: 0 <= j < m ==> ks[j] <= |a|
    ensures ChosenTotal(BySymbol(a[r].syms[0]), a, ks, m) == LenOf(ks, m, r)
  {
    if m > 0 {
      TakenByLeaf(a, freqs, ks, m - 1, r);
      TakenOnce(a, freqs, ks[m - 1], r);
    }
  }

  lemma {:induction false} NeverTaken(a: seq<Coin>, freqs: seq<nat>, k: nat, sym: nat)
    requires IsLeaves(a, freqs) && k <= |a| && sym < |freqs| && freqs[sym] == 0
    ensures Total(BySymbol(sym), a, k) == 0
  {
    if k > 0 {
      NeverTaken(a, freqs, k - 1, sym);
      SymbolValue(a[k - 1], freqs, sym);
    }
  }

  lemma {:induction false} NeverChosen(a: seq<Coin>, freqs: seq<nat>, ks: seq<nat>, m: nat, sym: nat)
    requires IsLeaves(a, freqs) && m <= |ks| && (forall j :: 0 <= j < m ==> ks[j] <= |a|)
    requires sym < |freqs| && freqs[sym] == 0
    ensures ChosenTotal(BySymbol(sym), a, ks, m) == 0
  {
    if m > 0 {
      NeverChosen(a, freqs, ks, m - 1, sym);
      NeverTaken(a, freqs, ks[m - 1], sym);
    }
  }

  /** The coins of the symbols below n that occur, in symbol order. */
  function LeafCoins(freqs: seq<nat>, n: nat): (a: seq<Coin>)
    requires n <= |freqs|
    ensures |a| <= n
  {
    if n == 0 then []
    else LeafCoins(freqs, n - 1) + (if freqs[n - 1] > 0 then [Coin(freqs[n - 1], [n - 1])] else [])
  }

  lemma {:induction false} LeafCoinsAre(freqs: seq<nat>, n: nat)
    requires n <= |freqs|
    ensures IsLeaves(LeafCoins(freqs, n), freqs)
    ensures forall i :: 0 <= i < |LeafCoins(freqs, n)| ==>
              |LeafCoins(freqs, n)[i].syms| == 1 && LeafCoins(freqs, n)[i].syms[0] < n
  {
    if n > 0 {
      LeafCoinsAre(freqs, n - 1);
      var p := LeafCoins(freqs, n - 1);
      if freqs[n - 1] > 0 {
        var c := Coin(freqs[n - 1], [n - 1]);
        assert IsLeaf(c, freqs);
        assert LeafCoins(freqs, n) == p + [c];
        forall i | 0 <= i < |p|
          ensures p[i] != c
        {
          assert p[i].syms[0] < n - 1;
        }
      } else {
        assert LeafCoins(freqs, n) == p;
      }
    }
  }

  lemma {:induction false} LeafCoinsHave(freqs: seq<nat>, n: nat, s: nat)
    requires s < n <= |freqs| && freqs[s] > 0
    ensures Coin(freqs[s], [s]) in LeafCoins(freqs, n)
  {
    if s < n - 1 { LeafCoinsHave(freqs, n - 1, s); }
  }

  lemma {:induction false} InsertLeaf(s: seq<Coin>, c: Coin, freqs: seq<nat>)
    requires IsLeaves(s, freqs) && IsLeaf(c, freqs) && c !in s
    ensures IsLeaves(Insert(s, c), freqs)
  {
  }

  lemma {:induction false} NotYetThere(s: seq<Coin>, n: nat, t: seq<Coin>, freqs: seq<nat>)
    requires IsLeaves(s, freqs) && 0 < n <= |s| && t == SortTo(s, n - 1)
    ensures s[n - 1] !in t
  {
    hide SortTo, IsLeaf;
    SortToContents(s, n - 1);
    var before, c := s[..n - 1], s[n - 1];
    assert c !in before;
    assert c !in multiset(before);
    assert c !in multiset(t);
  }

  lemma {:induction false} SortLeaves(s: seq<Coin>, n: nat, freqs: seq<nat>)
    requires IsLeaves(s, freqs) && n <= |s|
    ensures IsLeaves(SortTo(s, n), freqs)
  {
    if n > 0 {
      SortLeaves(s, n - 1, freqs);
      NotYetThere(s, n, SortTo(s, n - 1), freqs);
      InsertLeaf(SortTo(s, n - 1), s[n - 1], freqs);
    }
  }

  /** a holds the symbols that occur, sorted by frequency. */
  ghost predicate SortedLeaves(a: seq<Coin>, freqs: seq<nat>)
  {
    a == StableSort(LeafCoins(freqs, |freqs|))
  }

  lemma {:induction false} SortedLeavesAre(freqs: seq<nat>, a: seq<Coin>)
    requires SortedLeaves(a, freqs)
    ensures Sorted(a) && Positive(a) && IsLeaves(a, freqs)
  {
    var raw := LeafCoins(freqs, |freqs|);
    SortToSorts(raw, |raw|);
    LeafCoinsAre(freqs, |freqs|);
    SortLeaves(raw, |raw|, freqs);
    forall i | 0 <= i < |a|
      ensures a[i].weight > 0
    {
      assert IsLeaf(a[i], freqs);
    }
  }

  lemma {:induction false} ActiveIsLeaf(freqs: seq<nat>, a: seq<Coin>, s: nat) returns (r: nat)
    requires SortedLeaves(a, freqs) && s < |freqs| && freqs[s] > 0
    ensures r < |a| && a[r] == Coin(freqs[s], [s])
  {
    var raw := LeafCoins(freqs, |freqs|);
    LeafCoinsHave(freqs, |freqs|, s);
    StableSortContents(raw);
    assert Coin(freqs[s], [s]) in multiset(a);
    r :| 0 <= r < |a| && a[r] == Coin(freqs[s], [s]);
  }

  // ---------- Sums over symbols and over sorted leaves ----------

  /** A quantity added up over the symbols below n that occur. */
  function SumActive(freqs: seq<nat>, vals: seq<nat>, n: nat): (t: nat)
    requires n <= |freqs| == |vals|
  {
    if n == 0 then 0 else SumActive(freqs, vals, n - 1) + (if freqs[n - 1] > 0 then vals[n - 1] else 0)
  }

  ghost predicate Singles(s: seq<Coin>, n: nat)
  {
    forall i :: 0 <= i < |s| ==> |s[i].syms| == 1 && s[i].syms[0] < n
  }

  /** The same quantity added up over the first k coins. */
  function SumBy(s: seq<Coin>, k: nat, vals: seq<nat>): (t: nat)
    requires k <= |s| && Singles(s, |vals|)
  {
    if k == 0 then 0 else SumBy(s, k - 1, vals) + vals[s[k - 1].syms[0]]
  }

  lemma {:induction false} SumBySame(s: seq<Coin>, t: seq<Coin>, k: nat, vals: seq<nat>)
    requires Singles(s, |vals|) && Singles(t, |vals|) && SamePrefix(s, t, k)
    ensures SumBy(s, k, vals) == SumBy(t, k, vals)
  {
    if k > 0 { SumBySame(s, t, k - 1, vals); }
  }

  lemma {:induction false} SumByInsertTo(s: seq<Coin>, c: Coin, vals: seq<nat>, n: nat)
    requires Singles(s, |vals|) && Singles(Insert(s, c), |vals|) && |c.syms| == 1 && c.syms[0] < |vals|
    requires Place(s, |s|, c) <= n <= |s|
    ensures SumBy(Insert(s, c), n + 1, vals) == SumBy(s, n, vals) + vals[c.syms[0]]
  {
    var k := Place(s, |s|, c);
    if n == k {
      SumBySame(Insert(s, c), s, k, vals);
    } else {
      SumByInsertTo(s, c, vals, n - 1);
      assert Insert(s, c)[n] == s[n - 1];
    }
  }

  lemma {:induction false} InsertSingle(s: seq<Coin>, c: Coin, n: nat)
    requires Singles(s, n) && |c.syms| == 1 && c.syms[0] < n
    ensures Singles(Insert(s, c), n)
  {
  }

  lemma {:induction false} SumBySort(s: seq<Coin>, n: nat, vals: seq<nat>)
    requires Singles(s, |vals|) && n <= |s|
    ensures Singles(SortTo(s, n), |vals|) && SumBy(SortTo(s, n), n, vals) == SumBy(s, n, vals)
  {
    hide Insert, Place;
    if n > 0 {
      SumBySort(s, n - 1, vals);
      var t := SortTo(s, n - 1);
      InsertSingle(t, s[n - 1], |vals|);
      SumByInsertTo(t, s[n - 1], vals, n - 1);
    }
  }

  lemma {:induction false} SumByLeaves(freqs: seq<nat>, vals: seq<nat>, n: nat)
    requires n <= |freqs| == |vals|
    ensures Singles(LeafCoins(freqs, n), |vals|)
    ensures SumBy(LeafCoins(freqs, n), |LeafCoins(freqs, n)|, vals) == SumActive(freqs, vals, n)
  {
    if n > 0 {
      SumByLeaves(freqs, vals, n - 1);
      var p := LeafCoins(freqs, n - 1);
      if freqs[n - 1] > 0 {
        assert LeafCoins(freqs, n) == p + [Coin(freqs[n - 1], [n - 1])];
        SumBySame(LeafCoins(freqs, n), p, |p|, vals);
      } else {
        assert LeafCoins(freqs, n) == p;
      }
    }
  }

  lemma {:induction false} SumOverLeaves(freqs: seq<nat>, vals: seq<nat>, a: seq<Coin>)
    requires SortedLeaves(a, freqs) && |vals| == |freqs|
    ensures Singles(a, |vals|) && SumBy(a, |a|, vals) == SumActive(freqs, vals, |freqs|)
  {
    SumByLeaves(freqs, vals, |freqs|);
    var raw := LeafCoins(freqs, |freqs|);
    SumBySort(raw, |raw|, vals);
  }

  /** lp gives the leaves the lengths of their symbols. */
  ghost predicate RankLens(lp: seq<nat>, a: seq<Coin>, lens: seq<nat>)
  {
    && |lp| == |a| && Singles(a, |lens|)
    && forall r :: 0 <= r < |a| ==> lp[r] == lens[a[r].syms[0]]
  }

  ghost predicate KraftVals(v: seq<nat>, lens: seq<nat>, m: nat)
  {
    |v| == |lens| && forall s :: 0 <= s < |lens| ==> v[s] == if 0 < lens[s] <= m then Pow2(m - lens[s]) else 0
  }

  ghost predicate CostVals(v: seq<nat>, freqs: seq<nat>, lens: seq<nat>)
  {
    |v| == |lens| == |freqs| && forall s :: 0 <= s < |lens| ==> v[s] == freqs[s] * lens[s]
  }

  /** The number of bits an assignment spends on the first n symbols. */
  function CostTo(freqs: seq<nat>, lens: seq<nat>, n: nat): (c: nat)
    requires n <= |freqs| == |lens|
  {
    if n == 0 then 0 else CostTo(freqs, lens, n - 1) + freqs[n - 1] * lens[n - 1]
  }

  function Cost(freqs: seq<nat>, lens: seq<nat>): (c: nat)
    requires |freqs| == |lens|
  {
    CostTo(freqs, lens, |freqs|)
  }

  lemma {:induction false} CostIsSum(freqs: seq<nat>, lens: seq<nat>, v: seq<nat>, n: nat)
    requires CostVals(v, freqs, lens) && n <= |freqs|
    ensures CostTo(freqs, lens, n) == SumActive(freqs, v, n)
  {
    if n > 0 { CostIsSum(freqs, lens, v, n - 1); }
  }

  lemma {:induction false} KraftAtLeast(freqs: seq<nat>, lens: seq<nat>, v: seq<nat>, m: nat, n: nat)
    requires KraftVals(v, lens, m) && n <= |freqs| == |lens|
    ensures KraftTo(lens, n, m) >= SumActive(freqs, v, n)
    ensures (forall s :: 0 <= s < n && freqs[s] == 0 ==> lens[s] == 0) ==> KraftTo(lens, n, m) == SumActive(freqs, v, n)
  {
    if n > 0 { KraftAtLeast(freqs, lens, v, m, n - 1); }
  }

  lemma {:induction false} RankKraftIsSum(a: seq<Coin>, lens: seq<nat>, lp: seq<nat>, v: seq<nat>, m: nat, n: nat)
    requires RankLens(lp, a, lens) && KraftVals(v, lens, m) && n <= |a|
    requires forall r :: 0 <= r < |a| ==> 1 <= lp[r] <= m
    ensures Bounded(lp, m) && RankKraft(lp, n, m) == SumBy(a, n, v)
  {
    if n > 0 { RankKraftIsSum(a, lens, lp, v, m, n - 1); }
  }

  lemma {:induction false} RankCostIsSum(a: seq<Coin>, freqs: seq<nat>, lens: seq<nat>, lp: seq<nat>, v: seq<nat>,
      n: nat)
    requires IsLeaves(a, freqs) && RankLens(lp, a, lens) && CostVals(v, freqs, lens) && n <= |a|
    ensures RankCost(a, lp, n) == SumBy(a, n, v)
  {
    if n > 0 {
      RankCostIsSum(a, freqs, lens, lp, v, n - 1);
      assert IsLeaf(a[n - 1], freqs);
    }
  }

  /** The cost of an assignment, seen from the sorted leaves. */
  lemma {:induction false} CostsAgree(freqs: seq<nat>, lens: seq<nat>, a: seq<Coin>, lp: seq<nat>)
    requires SortedLeaves(a, freqs) && |lens| == |freqs| && RankLens(lp, a, lens)
    ensures RankCost(a, lp, |a|) == Cost(freqs, lens)
  {
    SortedLeavesAre(freqs, a);
    var v := seq(|freqs|, s requires 0 <= s < |freqs| => freqs[s] * lens[s]);
    SumOverLeaves(freqs, v, a);
    RankCostIsSum(a, freqs, lens, lp, v, |a|);
    CostIsSum(freqs, lens, v, |freqs|);
  }

  /** Its Kraft sum, likewise. */
  lemma {:induction false} KraftsAgree(freqs: seq<nat>, lens: seq<nat>, m: nat, a: seq<Coin>, lp: seq<nat>)
    requires SortedLeaves(a, freqs) && |lens| == |freqs| && RankLens(lp, a, lens)
    requires forall r :: 0 <= r < |a| ==> 1 <= lp[r] <= m
    ensures Bounded(lp, m) && RankKraft(lp, |a|, m) <= KraftSum(lens, m)
    ensures (forall s :: 0 <= s < |freqs| && freqs[s] == 0 ==> lens[s] == 0) ==>
              RankKraft(lp, |a|, m) == KraftSum(lens, m)
  {
    var v := seq(|lens|, s requires 0 <= s < |lens| => if 0 < lens[s] <= m then Pow2(m - lens[s]) else 0);
    SumOverLeaves(freqs, v, a);
    RankKraftIsSum(a, lens, lp, v, m, |a|);
    KraftAtLeast(freqs, lens, v, m, |freqs|);
  }

  // ---------- The algorithm ----------

  /** Lengths of at most m bits for every symbol that occurs, within Kraft's inequality. */
  ghost predicate Assigns(freqs: seq<nat>, lens: seq<nat>, m: nat)
  {
    && |lens| == |freqs|
    && (forall s :: 0 <= s < |freqs| && freqs[s] > 0 ==> 1 <= lens[s] <= m)
    && KraftSum(lens, m) <= Pow2(m)
  }

  /** The lengths count how often each symbol is among the first 2n-2 coins of the top level. */
  ghost predicate CountsTop(freqs: seq<nat>, m: nat, a: seq<Coin>, lv: seq<seq<Coin>>, lengths: seq<nat>)
  {
    && SortedLeaves(a, freqs) && Levels(a, lv) && |lv| == m
    && 2 <= |a| && 2 * |a| - 2 <= |lv[m - 1]| && |lengths| == |freqs|
    && forall s :: 0 <= s < |freqs| ==> lengths[s] == Total(BySymbol(s), lv[m - 1], 2 * |a| - 2)
  }

  ghost predicate TopChoice(m: nat, a: seq<Coin>, lv: seq<seq<Coin>>, ks: seq<nat>, cs: seq<nat>)
  {
    m >= 1 && |a| >= 2 && Choice(a, lv, ks, cs, m - 1) && cs[m - 1] == 2 * |a| - 2
  }

  lemma {:induction false} CountedSymbol(freqs: seq<nat>, m: nat, a: seq<Coin>, lv: seq<seq<Coin>>, lengths: seq<nat>,
      ks: seq<nat>, cs: seq<nat>, s: nat)
    requires CountsTop(freqs, m, a, lv, lengths) && TopChoice(m, a, lv, ks, cs) && s < |freqs|
    ensures lengths[s] == ChosenTotal(BySymbol(s), a, ks, m)
  {
    ChosenIsPrefix(BySymbol(s), a, lv, ks, cs, m - 1);
  }

  lemma {:induction false} LeafLength(freqs: seq<nat>, m: nat, a: seq<Coin>, lv: seq<seq<Coin>>, ks: seq<nat>,
      cs: seq<nat>, r: nat)
    requires IsLeaves(a, freqs) && TopChoice(m, a, lv, ks, cs) && r < |a|
    ensures ChosenTotal(BySymbol(a[r].syms[0]), a, ks, m) == LenOf(ks, m, r) && 1 <= LenOf(ks, m, r) <= m
  {
    TakenByLeaf(a, freqs, ks, m, r);
    TopTakesAll(ks, cs, m, |a|);
  }

  lemma {:induction false} CountedLengths(freqs: seq<nat>, m: nat, a: seq<Coin>, lv: seq<seq<Coin>>, lengths: seq<nat>,
      ks: seq<nat>, cs: seq<nat>, s: nat)
    requires CountsTop(freqs, m, a, lv, lengths) && TopChoice(m, a, lv, ks, cs) && IsLeaves(a, freqs) && s < |freqs|
    ensures if freqs[s] > 0 then 1 <= lengths[s] <= m else lengths[s] == 0
  {
    CountedSymbol(freqs, m, a, lv, lengths, ks, cs, s);
    if freqs[s] > 0 {
      var r := ActiveIsLeaf(freqs, a, s);
      LeafLength(freqs, m, a, lv, ks, cs, r);
    } else {
      NeverChosen(a, freqs, ks, m, s);
    }
  }

  lemma {:induction false} CountedRanks(freqs: seq<nat>, m: nat, a: seq<Coin>, lv: seq<seq<Coin>>, lengths: seq<nat>,
      ks: seq<nat>, cs: seq<nat>) returns (lp: seq<nat>)
    requires CountsTop(freqs, m, a, lv, lengths) && TopChoice(m, a, lv, ks, cs) && IsLeaves(a, freqs)
    ensures RankLens(lp, a, lengths) && LensOf(lp, ks, m) && forall r :: 0 <= r < |a| ==> 1 <= lp[r] <= m
  {
    lp := seq(|a|, r requires 0 <= r => LenOf(ks, m, r));
    forall r | 0 <= r < |a|
      ensures IsLeaf(a[r], freqs) && lengths[a[r].syms[0]] == lp[r] && 1 <= lp[r] <= m
    {
      assert IsLeaf(a[r], freqs);
      CountedSymbol(freqs, m, a, lv, lengths, ks, cs, a[r].syms[0]);
      LeafLength(freqs, m, a, lv, ks, cs, r);
    }
  }

  lemma {:induction false} CountedCost(freqs: seq<nat>, m: nat, a: seq<Coin>, lv: seq<seq<Coin>>, lengths: seq<nat>,
      ks: seq<nat>, cs: seq<nat>, lp: seq<nat>)
    requires CountsTop(freqs, m, a, lv, lengths) && TopChoice(m, a, lv, ks, cs)
    requires RankLens(lp, a, lengths) && LensOf(lp, ks, m)
    ensures Cost(freqs, lengths) == Total(ByWeight, lv[m - 1], 2 * |a| - 2)
  {
    CostsAgree(freqs, lengths, a, lp);
    CostByRank(a, lp, ks, m, |a|);
    CostByLevel(a, ks, m);
    ChosenIsPrefix(ByWeight, a, lv, ks, cs, m - 1);
  }

  /** The lengths are a complete prefix code for the symbols that occur. */
  lemma {:induction false} TopIsComplete(freqs: seq<nat>, m: nat, a: seq<Coin>, lv: seq<seq<Coin>>, lengths: seq<nat>)
    requires CountsTop(freqs, m, a, lv, lengths)
    ensures forall s :: 0 <= s < |freqs| ==> if freqs[s] > 0 then 1 <= lengths[s] <= m else lengths[s] == 0
    ensures KraftSum(lengths, m) == Pow2(m)
    ensures Cost(freqs, lengths) == Total(ByWeight, lv[m - 1], 2 * |a| - 2)
  {
    SortedLeavesAre(freqs, a);
    var ks, cs := Choose(a, lv, m - 1, 2 * |a| - 2);
    forall s | 0 <= s < |freqs|
      ensures if freqs[s] > 0 then 1 <= lengths[s] <= m else lengths[s] == 0
    {
      CountedLengths(freqs, m, a, lv, lengths, ks, cs, s);
    }
    var lp := CountedRanks(freqs, m, a, lv, lengths, ks, cs);
    KraftsAgree(freqs, lengths, m, a, lp);
    CompleteKraft(lp, ks, cs, m, |a|);
    CountedCost(freqs, m, a, lv, lengths, ks, cs, lp);
  }

  lemma {:induction false} OtherRanks(freqs: seq<nat>, a: seq<Coin>, m: nat, other: seq<nat>) returns (lp: seq<nat>)
    requires IsLeaves(a, freqs) && Assigns(freqs, other, m)
    ensures RankLens(lp, a, other) && forall r :: 0 <= r < |a| ==> 1 <= lp[r] <= m
  {
    assert forall r :: 0 <= r < |a| ==> IsLeaf(a[r], freqs);
    lp := seq(|a|, r requires 0 <= r < |a| => other[a[r].syms[0]]);
  }

  /** No assignment within the limit is cheaper. */
  lemma {:induction false} TopIsOptimal(freqs: seq<nat>, m: nat, a: seq<Coin>, lv: seq<seq<Coin>>, lengths: seq<nat>,
      other: seq<nat>)
    requires CountsTop(freqs, m, a, lv, lengths) && Assigns(freqs, other, m)
    ensures Cost(freqs, lengths) <= Cost(freqs, other)
  {
    SortedLeavesAre(freqs, a);
    TopIsComplete(freqs, m, a, lv, lengths);
    var lp := OtherRanks(freqs, a, m, other);
    KraftsAgree(freqs, other, m, a, lp);
    CostsAgree(freqs, other, a, lp);
    TopIsCheapest(a, lv, lp, m);
  }

  /** The number of symbols that occur. */
  function Active(freqs: seq<nat>): (n: nat)
  {
    |LeafCoins(freqs, |freqs|)|
  }

  /** A prefix code of at most m bits for exactly the symbols that occur, complete when there are two
      or more of them, and no assignment within the limit is cheaper. */
  ghost predicate BestCode(freqs: seq<nat>, lengths: seq<nat>, m: nat)
  {
    && |lengths| == |freqs|
    && (forall s :: 0 <= s < |freqs| ==> if freqs[s] > 0 then 1 <= lengths[s] <= m else lengths[s] == 0)
    && KraftSum(lengths, m) <= Pow2(m)
    && (Active(freqs) >= 2 ==> KraftSum(lengths, m) == Pow2(m))
    && forall other :: Assigns(freqs, other, m) ==> Cost(freqs, lengths) <= Cost(freqs, other)
  }

  lemma {:induction false} TopIsBest(freqs: seq<nat>, m: nat, a: seq<Coin>, lv: seq<seq<Coin>>, lengths: seq<nat>)
    requires CountsTop(freqs, m, a, lv, lengths)
    ensures BestCode(freqs, lengths, m)
  {
    TopIsComplete(freqs, m, a, lv, lengths);
    forall other | Assigns(freqs, other, m)
      ensures Cost(freqs, lengths) <= Cost(freqs, other)
    {
      TopIsOptimal(freqs, m, a, lv, lengths, other);
    }
  }

  method Package(prev: seq<Coin>) returns (packaged: seq<Coin>)
    ensures packaged == Pairs(prev)
  {
    packaged := [];
    var i := 0;
    while i + 1 < |prev|
      invariant 0 <= i <= |prev| && i == 2 * |packaged|
      invariant packaged == PairsTo(prev, i / 2)
    {
      packaged := packaged + [Pack(prev[i], prev[i + 1])];
      i := i + 2;
    }
  }

  /** One length bit for each occurrence of a symbol in the first `take` coins. */
  method CountSymbols(prev: seq<Coin>, take: nat, n: nat) returns (lengths: seq<nat>)
    requires take <= |prev| && SymsBelow(prev, n)
    ensures |lengths| == n && forall s :: 0 <= s < n ==> lengths[s] == Total(BySymbol(s), prev, take)
  {
    lengths := seq(n, _ => 0);
    for i := 0 to take
      invariant |lengths| == n && forall s :: 0 <= s < n ==> lengths[s] == Total(BySymbol(s), prev, i)
    {
      lengths := CountCoin(lengths, prev[i].syms);
    }
  }

  method CountCoin(before: seq<nat>, syms: seq<nat>) returns (lengths: seq<nat>)
    requires forall j :: 0 <= j < |syms| ==> syms[j] < |before|
    ensures |lengths| == |before| && forall s :: 0 <= s < |before| ==> lengths[s] == before[s] + multiset(syms)[s]
  {
    lengths := before;
    for j := 0 to |syms|
      invariant |lengths| == |before|
      invariant forall s :: 0 <= s < |before| ==> lengths[s] == before[s] + multiset(syms[..j])[s]
    {
      assert syms[..j + 1] == syms[..j] + [syms[j]];
      lengths := lengths[syms[j] := lengths[syms[j]] + 1];
    }
    assert syms[..|syms|] == syms;
  }

  method CollectLeaves(freqs: seq<nat>) returns (leaves: seq<Coin>)
    ensures leaves == LeafCoins(freqs, |freqs|)
  {
    leaves := [];
    for i := 0 to |freqs|
      invariant leaves == LeafCoins(freqs, i)
    {
      if freqs[i] > 0 {
        leaves := leaves + [Coin(freqs[i], [i])];
      }
    }
  }

  lemma {:induction false} ExtendLevels(a: seq<Coin>, lv: seq<seq<Coin>>, top: seq<Coin>)
    requires Levels(a, lv) && top == Above(a, lv[|lv| - 1])
    ensures Levels(a, lv + [top])
  {
    var lv' := lv + [top];
    forall k | 1 <= k < |lv'|
      ensures NextLevel(a, lv', k)
    {
      if k < |lv| { assert NextLevel(a, lv, k); }
    }
  }

  /** One round: package the list below, put the packages behind the leaves and sort. */
  method Round(leaves: seq<Coin>, prev: seq<Coin>, ghost n: nat) returns (merged: seq<Coin>)
    requires Sorted(leaves) && Sorted(prev) && SymsBelow(leaves, n) && SymsBelow(prev, n)
    ensures merged == Above(leaves, prev) && SymsBelow(merged, n)
  {
    var packaged := Package(prev);
    PairsSorted(prev);
    SortIsMerge(leaves, packaged);
    PairsSyms(prev, n);
    MergeSyms(leaves, |leaves|, packaged, |packaged|, n);
    merged := StableSort(leaves + packaged);
  }

  /** All rounds; lv records the list after each of them. */
  method Rounds(leaves: seq<Coin>, maxBits: nat, ghost n: nat) returns (prev: seq<Coin>, ghost lv: seq<seq<Coin>>)
    requires maxBits >= 1 && Sorted(leaves) && SymsBelow(leaves, n)
    ensures Levels(leaves, lv) && |lv| == maxBits && prev == lv[maxBits - 1] && SymsBelow(prev, n)
  {
    prev := leaves;
    lv := [leaves];
    for t := 1 to maxBits
      invariant Levels(leaves, lv) && |lv| == t && prev == lv[t - 1] && SymsBelow(prev, n)
    {
      LevelSorted(leaves, lv, t - 1);
      prev := Round(leaves, prev, n);
      ExtendLevels(leaves, lv, prev);
      lv := lv + [prev];
    }
  }

  lemma {:induction false} LeavesBelow(a: seq<Coin>, freqs: seq<nat>)
    requires IsLeaves(a, freqs)
    ensures SymsBelow(a, |freqs|)
  {
    assert forall i :: 0 <= i < |a| ==> IsLeaf(a[i], freqs);
  }

  method MergeMany(freqs: seq<nat>, raw: seq<Coin>, maxBits: nat) returns (lengths: seq<nat>)
    requires maxBits >= 1 && raw == LeafCoins(freqs, |freqs|) && |raw| >= 2
    ensures |lengths| == |freqs|
    ensures |raw| <= Pow2(maxBits) ==> BestCode(freqs, lengths, maxBits)
  {
    var leaves := StableSort(raw);
    SortedLeavesAre(freqs, leaves);
    LeavesBelow(leaves, freqs);
    var prev;
    ghost var lv;
    prev, lv := Rounds(leaves, maxBits, |freqs|);
    var take := Min(2 * |leaves| - 2, |prev|);
    lengths := CountSymbols(prev, take, |freqs|);
    if |raw| <= Pow2(maxBits) {
      EnoughCoins(leaves, lv, maxBits);
      TopIsBest(freqs, maxBits, leaves, lv, lengths);
    }
  }

  /** Whenever maxBits bits can tell the symbols that occur apart, the result is the best code. */
  method PackageMerge(freqs: seq<nat>, maxBits: nat) returns (lengths: seq<nat>)
    requires maxBits >= 1
    ensures |lengths| == |freqs|
    ensures Active(freqs) <= Pow2(maxBits) ==> BestCode(freqs, lengths, maxBits)
  {
    var leaves := CollectLeaves(freqs);
    if |leaves| >= 2 {
      lengths := MergeMany(freqs, leaves, maxBits);
    } else {
      lengths := seq(|freqs|, _ => 0);
      LeafCoinsAre(freqs, |freqs|);
      if |leaves| == 1 {
        assert IsLeaf(leaves[0], freqs);
        lengths := lengths[leaves[0].syms[0] := 1];
      }
      FewLeaves(freqs, leaves, lengths, maxBits);
    }
  }

  /** With at most one symbol, one bit for it is within every limit and cheapest. */
  lemma {:induction false} FewLeaves(freqs: seq<nat>, a: seq<Coin>, lengths: seq<nat>, m: nat)
    requires m >= 1 && |lengths| == |freqs| && a == LeafCoins(freqs, |freqs|) && |a| <= 1
    requires |a| == 1 ==> IsLeaf(a[0], freqs)
    requires forall s :: 0 <= s < |freqs| ==> lengths[s] == if |a| == 1 && s == a[0].syms[0] then 1 else 0
    ensures BestCode(freqs, lengths, m)
  {
    forall s | 0 <= s < |freqs|
      ensures lengths[s] == if freqs[s] > 0 then 1 else 0
    {
      if freqs[s] > 0 {
        LeafCoinsHave(freqs, |freqs|, s);
        assert a[0] == Coin(freqs[s], [s]);
      }
    }
    UnitKraft(freqs, lengths, m, |freqs|);
    ShlOne(m - 1);
    ShlZero(m - 1);
    forall other | Assigns(freqs, other, m)
      ensures Cost(freqs, lengths) <= Cost(freqs, other)
    {
      UnitCost(freqs, lengths, other, |freqs|);
    }
  }

  lemma {:induction false} UnitKraft(freqs: seq<nat>, lengths: seq<nat>, m: nat, n: nat)
    requires m >= 1 && n <= |freqs| == |lengths|
    requires forall s :: 0 <= s < |freqs| ==> lengths[s] == if freqs[s] > 0 then 1 else 0
    ensures KraftTo(lengths, n, m) == Shl(|LeafCoins(freqs, n)|, m - 1)
  {
    if n == 0 {
      ShlZero(m - 1);
    } else {
      UnitKraft(freqs, lengths, m, n - 1);
      ShlAdd(|LeafCoins(freqs, n - 1)|, 1, m - 1);
      ShlOne(m - 1);
    }
  }

  lemma {:induction false} UnitCost(freqs: seq<nat>, lengths: seq<nat>, other: seq<nat>, n: nat)
    requires n <= |freqs| == |lengths| == |other|
    requires forall s :: 0 <= s < |freqs| ==> lengths[s] == if freqs[s] > 0 then 1 else 0
    requires forall s :: 0 <= s < |freqs| && freqs[s] > 0 ==> 1 <= other[s]
    ensures CostTo(freqs, lengths, n) <= CostTo(freqs, other, n)
  {
    if n > 0 {
      UnitCost(freqs, lengths, other, n - 1);
      TimesMore(freqs[n - 1], lengths[n - 1], other[n - 1]);
    }
  }

  lemma {:induction false} TimesMore(w: nat, l: nat, l': nat)
    requires w > 0 ==> l <= l'
    ensures w * l <= w * l'
  {
  }
}
