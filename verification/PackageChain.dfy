/** The arithmetic behind package-merge: what the numbers of leaves taken at each
    level say about code lengths and Kraft's sum. */
module PackageChain {
  import opened Bits
  import opened Huffman

  /** Leaf and coin counts of the lowest t+1 levels: ks[j] leaves and (cs[j] - ks[j]) packages make up
      the cs[j] coins taken at level j, and the packages open into cs[j-1] coins below. */
  ghost predicate Chain(ks: seq<nat>, cs: seq<nat>, t: nat, n: nat)
  {
    && t < |ks| && t < |cs| && ks[0] == cs[0]
    && (forall j :: 0 <= j <= t ==> ks[j] <= cs[j] && ks[j] <= n)
    && (forall j :: 1 <= j <= t ==> Linked(ks, cs, j))
  }

  ghost predicate Linked(ks: seq<nat>, cs: seq<nat>, j: nat)
    requires 1 <= j < |ks| && j < |cs| && ks[j] <= cs[j]
  {
    cs[j - 1] == 2 * (cs[j] - ks[j]) && ks[j - 1] <= ks[j]
  }

  /** In how many of the lowest m levels leaf r is taken. */
  function LenOf(ks: seq<nat>, m: nat, r: nat): (l: nat)
    requires m <= |ks|
    ensures l <= m
  {
    if m == 0 then 0 else LenOf(ks, m - 1, r) + (if r < ks[m - 1] then 1 else 0)
  }

  /** A leaf not taken at level t is taken at no lower level. */
  lemma {:induction false} LenBeyond(ks: seq<nat>, cs: seq<nat>, t: nat, n: nat, r: nat)
    requires Chain(ks, cs, t, n) && r >= ks[t]
    ensures LenOf(ks, t + 1, r) == 0
  {
    if t > 0 {
      assert Linked(ks, cs, t);
      LenBeyond(ks, cs, t - 1, n, r);
    }
  }

  /** The width of the k top levels of m, in units of the lowest level. */
  function Gap(m: nat, k: nat): (g: nat)
    requires k <= m
  {
    Pow2Mono(m - k, m);
    Pow2(m) - Pow2(m - k)
  }

  /** The total width of the first r leaves in the lowest m levels. */
  function GapSum(ks: seq<nat>, m: nat, r: nat): (g: nat)
    requires m <= |ks|
  {
    if r == 0 then 0 else GapSum(ks, m, r - 1) + Gap(m, LenOf(ks, m, r - 1))
  }

  /** One more level on top adds its own width for each leaf taken there. */
  lemma {:induction false} GapOneLevel(ks: seq<nat>, cs: seq<nat>, t: nat, n: nat, r: nat)
    requires Chain(ks, cs, t, n)
    ensures Gap(t + 1, LenOf(ks, t + 1, r)) == (if r < ks[t] then Pow2(t) else 0) + Gap(t, LenOf(ks, t, r))
  {
    if r >= ks[t] { LenBeyond(ks, cs, t, n, r); }
  }

  lemma {:induction false} GapStep(ks: seq<nat>, cs: seq<nat>, t: nat, n: nat, r: nat)
    requires Chain(ks, cs, t, n)
    ensures GapSum(ks, t + 1, r) == Shl(Min(ks[t], r), t) + GapSum(ks, t, r)
  {
    hide LenOf, Gap, Shl;
    if r == 0 {
      ShlZero(t);
    } else {
      GapStep(ks, cs, t, n, r - 1);
      GapOneLevel(ks, cs, t, n, r - 1);
      if r <= ks[t] {
        ShlAdd(r - 1, 1, t);
        ShlOne(t);
      }
    }
  }

  lemma {:induction false} GapOfNone(ks: seq<nat>, r: nat)
    ensures GapSum(ks, 0, r) == 0
  {
    if r > 0 { GapOfNone(ks, r - 1); }
  }

  /** The coins taken at the top open into leaves of the same total width. */
  lemma {:induction false} GapTotal(ks: seq<nat>, cs: seq<nat>, t: nat, n: nat)
    requires Chain(ks, cs, t, n)
    ensures GapSum(ks, t + 1, n) == Shl(cs[t], t)
  {
    GapStep(ks, cs, t, n, n);
    if t == 0 {
      GapOfNone(ks, n);
    } else {
      assert Linked(ks, cs, t);
      GapTotal(ks, cs, t - 1, n);
      ShlDouble(cs[t] - ks[t], t - 1);
      ShlAdd(ks[t], cs[t] - ks[t], t);
    }
  }

  /** The Kraft sum of lengths given leaf by leaf, in units of 2^-m. */
  function RankKraft(lp: seq<nat>, n: nat, m: nat): (k: nat)
    requires n <= |lp| && Bounded(lp, m)
  {
    if n == 0 then 0 else RankKraft(lp, n - 1, m) + Pow2(m - lp[n - 1])
  }

  /** lp holds the lengths of its leaves. */
  ghost predicate LensOf(lp: seq<nat>, ks: seq<nat>, m: nat)
    requires m <= |ks|
  {
    forall r :: 0 <= r < |lp| ==> lp[r] == LenOf(ks, m, r)
  }

  lemma {:induction false} GapAndKraft(lp: seq<nat>, ks: seq<nat>, m: nat, n: nat)
    requires m <= |ks| && LensOf(lp, ks, m) && n <= |lp| && Bounded(lp, m)
    ensures GapSum(ks, m, n) + RankKraft(lp, n, m) == Shl(n, m)
  {
    if n == 0 {
      ShlZero(m);
    } else {
      GapAndKraft(lp, ks, m, n - 1);
      ShlAdd(n - 1, 1, m);
      ShlOne(m);
    }
  }

  /** With 2n-2 coins taken at the top, the lengths fill the code space exactly. */
  lemma {:induction false} CompleteKraft(lp: seq<nat>, ks: seq<nat>, cs: seq<nat>, m: nat, n: nat)
    requires m >= 1 && Chain(ks, cs, m - 1, n) && n >= 1 && cs[m - 1] == 2 * n - 2
    requires LensOf(lp, ks, m) && |lp| == n && Bounded(lp, m)
    ensures RankKraft(lp, n, m) == Pow2(m)
  {
    GapTotal(ks, cs, m - 1, n);
    GapAndKraft(lp, ks, m, n);
    ShlDouble(n - 1, m - 1);
    ShlAdd(n - 1, 1, m);
    ShlOne(m);
  }

  lemma {:induction false} GapNarrow(ks: seq<nat>, m: nat, n: nat)
    requires m <= |ks|
    ensures GapSum(ks, m, n) + n <= Shl(n, m)
  {
    if n == 0 {
      ShlZero(m);
    } else {
      GapNarrow(ks, m, n - 1);
      ShlAdd(n - 1, 1, m);
      ShlOne(m);
    }
  }

  lemma {:induction false} GapWithout(ks: seq<nat>, m: nat, n: nat)
    requires m <= |ks| && n >= 1 && LenOf(ks, m, n - 1) == 0
    ensures GapSum(ks, m, n) + (n - 1) <= Shl(n - 1, m)
  {
    GapNarrow(ks, m, n - 1);
    assert Gap(m, 0) == 0;
  }

  /** A leaf that is never taken would leave the others too narrow. */
  lemma {:induction false} TopTakesAll(ks: seq<nat>, cs: seq<nat>, m: nat, n: nat)
    requires m >= 1 && Chain(ks, cs, m - 1, n) && n >= 2 && cs[m - 1] == 2 * n - 2
    ensures ks[m - 1] == n
  {
    GapTotal(ks, cs, m - 1, n);
    ShlDouble(n - 1, m - 1);
    if ks[m - 1] < n {
      LenBeyond(ks, cs, m - 1, n, n - 1);
      GapWithout(ks, m, n);
      assert false;
    }
  }

  // ---------- Lengths of any assignment, level by level ----------

  /** How many of the first n leaves have a length of at least k. */
  function AtLeast(lp: seq<nat>, n: nat, k: nat): (c: nat)
    requires n <= |lp|
    ensures c <= n
  {
    if n == 0 then 0 else AtLeast(lp, n - 1, k) + (if lp[n - 1] >= k then 1 else 0)
  }

  /** The width of an assignment's leaves in levels 0..t: leaf r sits in the lp[r] top levels of m. */
  function WidthUpTo(lp: seq<nat>, n: nat, m: nat, t: nat): (w: nat)
    requires t < m && n <= |lp|
  {
    (if t == 0 then 0 else WidthUpTo(lp, n, m, t - 1)) + Shl(AtLeast(lp, n, m - t), t)
  }

  /** What is left for the levels below when x leaves sit in level t. */
  lemma {:induction false} WidthBelow(lp: seq<nat>, n: nat, m: nat, t: nat, c: nat)
    requires 0 < t < m && n <= |lp| && AtLeast(lp, n, m - t) < c && WidthUpTo(lp, n, m, t) >= Shl(c, t)
    ensures WidthUpTo(lp, n, m, t - 1) >= Shl(2 * (c - AtLeast(lp, n, m - t)), t - 1)
  {
    var x := AtLeast(lp, n, m - t);
    ShlAdd(c - x, x, t);
    ShlDouble(c - x, t - 1);
  }

  /** One more leaf of length l adds the width of the top l levels. */
  lemma {:induction false} WidthSnoc(lp: seq<nat>, n: nat, m: nat, t: nat)
    requires t < m && 0 < n <= |lp| && lp[n - 1] <= m
    ensures WidthUpTo(lp, n, m, t) == WidthUpTo(lp, n - 1, m, t)
              + (if m - lp[n - 1] <= t then Pow2(t + 1) - Pow2(m - lp[n - 1]) else 0)
  {
    if t > 0 { WidthSnoc(lp, n, m, t - 1); }
    if m - lp[n - 1] <= t {
      ShlAdd(AtLeast(lp, n - 1, m - t), 1, t);
      ShlOne(t);
    }
  }

  lemma {:induction false} WidthOfNone(lp: seq<nat>, m: nat, t: nat)
    requires t < m
    ensures WidthUpTo(lp, 0, m, t) == 0
  {
    if t > 0 { WidthOfNone(lp, m, t - 1); }
    ShlZero(t);
  }

  /** Over all levels the width is what Kraft's sum leaves. */
  lemma {:induction false} WidthAndKraft(lp: seq<nat>, n: nat, m: nat)
    requires m >= 1 && n <= |lp| && Bounded(lp, m)
    ensures WidthUpTo(lp, n, m, m - 1) + RankKraft(lp, n, m) == Shl(n, m)
  {
    if n == 0 {
      WidthOfNone(lp, m, m - 1);
      ShlZero(m);
    } else {
      WidthAndKraft(lp, n - 1, m);
      WidthSnoc(lp, n, m, m - 1);
      ShlAdd(n - 1, 1, m);
      ShlOne(m);
    }
  }

  lemma {:induction false} KraftOfFlat(lp: seq<nat>, n: nat, m: nat)
    requires n <= |lp| && forall r :: 0 <= r < |lp| ==> lp[r] == m
    ensures Bounded(lp, m) && RankKraft(lp, n, m) == n
  {
    if n > 0 { KraftOfFlat(lp, n - 1, m); }
  }
}
