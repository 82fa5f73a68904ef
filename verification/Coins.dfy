/** The coins of the package-merge algorithm: stable sorting, merging of sorted
    lists, packaging in pairs, and additive measures of prefixes. */
module Coins {

  /** A symbol, or a package of two coins. */
  datatype Coin = Coin(weight: nat, syms: seq<nat>)

  // ---------- Stable sorting by weight ----------

  ghost predicate Below(s: seq<Coin>, i: nat, j: nat)
    requires i < |s| && j < |s|
  {
    s[i].weight <= s[j].weight
  }

  /** Sorted by weight. */
  ghost predicate Sorted(s: seq<Coin>)
  {
    forall i, j :: 0 <= i < j < |s| ==> Below(s, i, j)
  }

  /** Where c goes among the first n coins: behind every coin that is not heavier. */
  function Place(s: seq<Coin>, n: nat, c: Coin): (k: nat)
    requires n <= |s|
    ensures k <= n
  {
    if n == 0 || s[n - 1].weight <= c.weight then n else Place(s, n - 1, c)
  }

  function Insert(s: seq<Coin>, c: Coin): (r: seq<Coin>)
    ensures |r| == |s| + 1
  {
    var k := Place(s, |s|, c);
    s[..k] + [c] + s[k..]
  }

  /** The first n coins sorted, equal weights in their original order. */
  function SortTo(s: seq<Coin>, n: nat): (r: seq<Coin>)
    requires n <= |s|
    ensures |r| == n
  {
    if n == 0 then [] else Insert(SortTo(s, n - 1), s[n - 1])
  }

  function StableSort(s: seq<Coin>): (r: seq<Coin>)
    ensures |r| == |s|
  {
    SortTo(s, |s|)
  }

  lemma {:induction false} PlaceSplits(s: seq<Coin>, n: nat, c: Coin)
    requires n <= |s| && Sorted(s)
    ensures forall i :: 0 <= i < Place(s, n, c) ==> s[i].weight <= c.weight
    ensures forall i :: Place(s, n, c) <= i < n ==> s[i].weight > c.weight
  {
    if n > 0 {
      if s[n - 1].weight <= c.weight {
        forall i | 0 <= i < n
          ensures s[i].weight <= c.weight
        {
          if i < n - 1 { assert Below(s, i, n - 1); }
        }
      } else {
        PlaceSplits(s, n - 1, c);
      }
    }
  }

  lemma {:induction false} InsertSorted(s: seq<Coin>, c: Coin)
    requires Sorted(s)
    ensures Sorted(Insert(s, c))
  {
    PlaceSplits(s, |s|, c);
    var k, r := Place(s, |s|, c), Insert(s, c);
    forall i, j | 0 <= i < j < |r|
      ensures Below(r, i, j)
    {
      var i', j' := if i <= k then i else i - 1, if j <= k then j else j - 1;
      if i != k && j != k { assert Below(s, i', j'); }
    }
  }

  lemma {:induction false} SortToSorts(s: seq<Coin>, n: nat)
    requires n <= |s|
    ensures Sorted(SortTo(s, n))
  {
    if n > 0 {
      SortToSorts(s, n - 1);
      InsertSorted(SortTo(s, n - 1), s[n - 1]);
    }
  }

  lemma {:induction false} InsertContents(s: seq<Coin>, c: Coin)
    ensures multiset(Insert(s, c)) == multiset(s) + multiset{c}
  {
    var k := Place(s, |s|, c);
    assert s == s[..k] + s[k..];
  }

  lemma {:induction false} TakeContents(s: seq<Coin>, n: nat)
    requires 0 < n <= |s|
    ensures multiset(s[..n]) == multiset(s[..n - 1]) + multiset{s[n - 1]}
  {
    assert s[..n] == s[..n - 1] + [s[n - 1]];
  }

  lemma {:induction false} SortToContents(s: seq<Coin>, n: nat)
    requires n <= |s|
    ensures multiset(SortTo(s, n)) == multiset(s[..n])
  {
    hide Insert;
    if n > 0 {
      SortToContents(s, n - 1);
      InsertContents(SortTo(s, n - 1), s[n - 1]);
      TakeContents(s, n);
    }
  }

  /** Sorting keeps the coins. */
  lemma {:induction false} StableSortContents(s: seq<Coin>)
    ensures multiset(StableSort(s)) == multiset(s)
  {
    SortToContents(s, |s|);
    assert s[..|s|] == s;
  }

  /** The coins of one weight among the first n, in order. */
  ghost function OfWeight(s: seq<Coin>, n: nat, w: nat): (r: seq<Coin>)
    requires n <= |s|
  {
    if n == 0 then [] else OfWeight(s, n - 1, w) + (if s[n - 1].weight == w then [s[n - 1]] else [])
  }

  lemma {:induction false} OfWeightSame(s: seq<Coin>, t: seq<Coin>, n: nat, w: nat)
    requires n <= |s| && n <= |t| && forall i :: 0 <= i < n ==> s[i] == t[i]
    ensures OfWeight(s, n, w) == OfWeight(t, n, w)
  {
    if n > 0 { OfWeightSame(s, t, n - 1, w); }
  }

  /** Behind its place only heavier coins follow the inserted one. */
  lemma {:induction false} InsertStable(s: seq<Coin>, c: Coin, n: nat, w: nat)
    requires Sorted(s) && Place(s, |s|, c) <= n <= |s|
    ensures OfWeight(Insert(s, c), n + 1, w)
         == OfWeight(s, n, w) + (if c.weight == w then [c] else [])
  {
    var k, r := Place(s, |s|, c), Insert(s, c);
    if n == k {
      OfWeightSame(r, s, k, w);
    } else {
      InsertStable(s, c, n - 1, w);
      PlaceSplits(s, |s|, c);
      assert r[n] == s[n - 1];
      if s[n - 1].weight == w {
        assert c.weight != w;
      }
    }
  }

  lemma {:induction false} SortToStable(s: seq<Coin>, n: nat, w: nat)
    requires n <= |s|
    ensures OfWeight(SortTo(s, n), n, w) == OfWeight(s, n, w)
  {
    hide Insert, Sorted;
    if n > 0 {
      SortToStable(s, n - 1, w);
      SortToSorts(s, n - 1);
      var t := SortTo(s, n - 1);
      InsertStable(t, s[n - 1], n - 1, w);
      assert SortTo(s, n) == Insert(t, s[n - 1]);
    }
  }

  /** Coins of equal weight keep their order. */
  lemma {:induction false} StableSortStable(s: seq<Coin>, w: nat)
    ensures OfWeight(StableSort(s), |s|, w) == OfWeight(s, |s|, w)
  {
    SortToStable(s, |s|, w);
  }

  // ---------- Merging two sorted lists ----------

  /** The last coin of a merge of i coins of a and j of p comes from a. */
  predicate LeftLast(a: seq<Coin>, i: nat, p: seq<Coin>, j: nat)
    requires i <= |a| && j <= |p| && i + j > 0
  {
    j == 0 || (i > 0 && a[i - 1].weight > p[j - 1].weight)
  }

  /** The first i coins of a and j of p merged, a first on ties. */
  function Merge(a: seq<Coin>, i: nat, p: seq<Coin>, j: nat): (r: seq<Coin>)
    requires i <= |a| && j <= |p|
    ensures |r| == i + j
    decreases i + j, a, p
  {
    if i + j == 0 then []
    else if LeftLast(a, i, p, j) then Merge(a, i - 1, p, j) + [a[i - 1]]
    else Merge(a, i, p, j - 1) + [p[j - 1]]
  }

  lemma {:induction false} MergeLast(a: seq<Coin>, i: nat, p: seq<Coin>, j: nat, w: nat)
    requires i <= |a| && j <= |p| && i + j > 0
    requires i == 0 || a[i - 1].weight <= w
    requires j == 0 || p[j - 1].weight <= w
    ensures Merge(a, i, p, j)[i + j - 1].weight <= w
  {
  }

  lemma {:induction false} PlaceSame(s: seq<Coin>, t: seq<Coin>, n: nat, c: Coin)
    requires n <= |s| && n <= |t| && forall i :: 0 <= i < n ==> s[i] == t[i]
    ensures Place(s, n, c) == Place(t, n, c)
  {
    if n > 0 { PlaceSame(s, t, n - 1, c); }
  }

  /** Inserting a lighter coin leaves the last one last. */
  lemma {:induction false} InsertBefore(s: seq<Coin>, x: Coin, c: Coin)
    requires x.weight > c.weight
    ensures Insert(s + [x], c) == Insert(s, c) + [x]
  {
    PlaceSame(s + [x], s, |s|, c);
  }

  lemma {:induction false} InsertIsMerge(a: seq<Coin>, i: nat, p: seq<Coin>, j: nat)
    requires Sorted(p) && i <= |a| && 0 < j <= |p|
    ensures Insert(Merge(a, i, p, j - 1), p[j - 1]) == Merge(a, i, p, j)
    decreases i
  {
    var c := p[j - 1];
    if j > 1 { assert Below(p, j - 2, j - 1); }
    if LeftLast(a, i, p, j) {
      InsertIsMerge(a, i - 1, p, j);
      InsertBefore(Merge(a, i - 1, p, j - 1), a[i - 1], c);
    } else {
      if i + j > 1 { MergeLast(a, i, p, j - 1, c.weight); }
    }
  }

  lemma {:induction false} SortOfSorted(a: seq<Coin>, p: seq<Coin>, i: nat)
    requires Sorted(a) && i <= |a|
    ensures SortTo(a + p, i) == Merge(a, i, p, 0)
  {
    if i > 0 {
      SortOfSorted(a, p, i - 1);
      if i > 1 { assert Below(a, i - 2, i - 1); MergeLast(a, i - 1, p, 0, a[i - 1].weight); }
    }
  }

  lemma {:induction false} SortIsMergeTo(a: seq<Coin>, p: seq<Coin>, j: nat)
    requires Sorted(a) && Sorted(p) && j <= |p|
    ensures SortTo(a + p, |a| + j) == Merge(a, |a|, p, j)
  {
    if j == 0 {
      SortOfSorted(a, p, |a|);
    } else {
      SortIsMergeTo(a, p, j - 1);
      InsertIsMerge(a, |a|, p, j);
    }
  }

  /** Stably sorting two sorted lists one after the other merges them. */
  lemma {:induction false} SortIsMerge(a: seq<Coin>, p: seq<Coin>)
    requires Sorted(a) && Sorted(p)
    ensures StableSort(a + p) == Merge(a, |a|, p, |p|) && Sorted(Merge(a, |a|, p, |p|))
  {
    SortIsMergeTo(a, p, |p|);
    SortToSorts(a + p, |a + p|);
  }

  // ---------- Measures of prefixes ----------

  /** Two additive measures of a coin: its weight, and how often it holds a symbol. */
  datatype Measure = ByWeight | BySymbol(sym: nat)

  function Value(q: Measure, c: Coin): (v: nat)
  {
    match q
    case ByWeight => c.weight
    case BySymbol(sym) => multiset(c.syms)[sym]
  }

  /** The measure of the first c coins. */
  function Total(q: Measure, s: seq<Coin>, c: nat): (w: nat)
    requires c <= |s|
  {
    if c == 0 then 0 else Total(q, s, c - 1) + Value(q, s[c - 1])
  }

  /** s and t start with the same c coins. */
  ghost predicate SamePrefix(s: seq<Coin>, t: seq<Coin>, c: nat)
  {
    c <= |s| && c <= |t| && forall i :: 0 <= i < c ==> s[i] == t[i]
  }

  lemma {:induction false} TotalSame(q: Measure, s: seq<Coin>, t: seq<Coin>, c: nat)
    requires SamePrefix(s, t, c)
    ensures Total(q, s, c) == Total(q, t, c)
  {
    if c > 0 { TotalSame(q, s, t, c - 1); }
  }

  lemma {:induction false} TotalSnoc(q: Measure, s: seq<Coin>, x: Coin)
    ensures Total(q, s + [x], |s| + 1) == Total(q, s, |s|) + Value(q, x)
  {
    TotalSame(q, s + [x], s, |s|);
  }

  lemma {:induction false} MergeTotal(q: Measure, a: seq<Coin>, i: nat, p: seq<Coin>, j: nat)
    requires i <= |a| && j <= |p|
    ensures Total(q, Merge(a, i, p, j), i + j) == Total(q, a, i) + Total(q, p, j)
    decreases i + j
  {
    hide Total;
    if i + j > 0 {
      if LeftLast(a, i, p, j) {
        MergeTotal(q, a, i - 1, p, j);
        SnocTotal(q, a, i, Merge(a, i - 1, p, j), Merge(a, i, p, j));
      } else {
        MergeTotal(q, a, i, p, j - 1);
        SnocTotal(q, p, j, Merge(a, i, p, j - 1), Merge(a, i, p, j));
      }
    } else {
      TotalNone(q, Merge(a, 0, p, 0));
      TotalNone(q, a);
      TotalNone(q, p);
    }
  }

  lemma {:induction false} TotalNone(q: Measure, s: seq<Coin>)
    ensures Total(q, s, 0) == 0
  {
  }

  lemma {:induction false} SnocTotal(q: Measure, a: seq<Coin>, i: nat, s: seq<Coin>, t: seq<Coin>)
    requires 0 < i <= |a| && t == s + [a[i - 1]]
    ensures Total(q, t, |t|) - Total(q, s, |s|) == Total(q, a, i) - Total(q, a, i - 1)
  {
    TotalSnoc(q, s, a[i - 1]);
  }

  /** The first k + l coins of a merge weigh no more than any k coins of a and l of p. */
  lemma {:induction false} MergeCheapest(a: seq<Coin>, i: nat, p: seq<Coin>, j: nat, k: nat, l: nat)
    requires Sorted(a) && Sorted(p) && k <= i <= |a| && l <= j <= |p|
    ensures Total(ByWeight, Merge(a, i, p, j), k + l) <= Total(ByWeight, a, k) + Total(ByWeight, p, l)
    decreases i + j
  {
    hide Total, Sorted;
    if k + l == i + j {
      MergeTotal(ByWeight, a, i, p, j);
    } else if LeftLast(a, i, p, j) {
      TotalSame(ByWeight, Merge(a, i, p, j), Merge(a, i - 1, p, j), k + l);
      if k < i {
        MergeCheapest(a, i - 1, p, j, k, l);
      } else {
        MergeCheapest(a, i - 1, p, j, k - 1, l + 1);
        Exchange(p, l, j, a, k);
      }
    } else {
      TotalSame(ByWeight, Merge(a, i, p, j), Merge(a, i, p, j - 1), k + l);
      if l < j {
        MergeCheapest(a, i, p, j - 1, k, l);
      } else {
        MergeCheapest(a, i, p, j - 1, k + 1, l - 1);
        Exchange(a, k, i, p, l);
      }
    }
  }

  /** One coin more of s and one less of t is no heavier when t's last is at least as heavy as all of s's. */
  lemma {:induction false} Exchange(s: seq<Coin>, k: nat, n: nat, t: seq<Coin>, l: nat)
    requires Sorted(s) && k < n <= |s| && 0 < l <= |t| && s[n - 1].weight <= t[l - 1].weight
    ensures Total(ByWeight, s, k + 1) + Total(ByWeight, t, l - 1) <= Total(ByWeight, s, k) + Total(ByWeight, t, l)
  {
    if k < n - 1 { assert Below(s, k, n - 1); }
  }

  /** How many of the first c coins of a merge come from a. */
  function FromLeft(a: seq<Coin>, i: nat, p: seq<Coin>, j: nat, c: nat): (k: nat)
    requires i <= |a| && j <= |p| && c <= i + j
    ensures k <= i && k <= c && c - k <= j
    decreases i + j, a, p
  {
    if c == i + j then i
    else if LeftLast(a, i, p, j) then FromLeft(a, i - 1, p, j, c)
    else FromLeft(a, i, p, j - 1, c)
  }

  lemma {:induction false} MergePrefix(a: seq<Coin>, i: nat, p: seq<Coin>, j: nat, c: nat)
    requires i <= |a| && j <= |p| && c <= i + j
    ensures var k := FromLeft(a, i, p, j, c); SamePrefix(Merge(a, i, p, j), Merge(a, k, p, c - k), c)
    decreases i + j
  {
    if c < i + j {
      if LeftLast(a, i, p, j) {
        MergePrefix(a, i - 1, p, j, c);
      } else {
        MergePrefix(a, i, p, j - 1, c);
      }
    }
  }

  /** The first coin of a left out is at least as heavy as the last coin of p taken. */
  lemma {:induction false} LeftOutIsHeavier(a: seq<Coin>, i: nat, p: seq<Coin>, j: nat, c: nat)
    requires i <= |a| && j <= |p| && c <= i + j && Sorted(p)
    ensures var k := FromLeft(a, i, p, j, c); k < i && k < c ==> p[c - k - 1].weight <= a[k].weight
    decreases i + j
  {
    if c < i + j {
      if LeftLast(a, i, p, j) {
        LeftOutIsHeavier(a, i - 1, p, j, c);
        var k := FromLeft(a, i, p, j, c);
        if k == i - 1 && k < c && c - k < j { assert Below(p, c - k - 1, j - 1); }
      } else {
        LeftOutIsHeavier(a, i, p, j - 1, c);
      }
    }
  }

  /** The last of the first c coins of a merge is at least as heavy as every leaf among them. */
  lemma {:induction false} LeafBelowLast(a: seq<Coin>, i: nat, p: seq<Coin>, j: nat, c: nat)
    requires i <= |a| && j <= |p| && c <= i + j && FromLeft(a, i, p, j, c) > 0
    ensures Merge(a, i, p, j)[c - 1].weight >= a[FromLeft(a, i, p, j, c) - 1].weight
  {
    MergePrefix(a, i, p, j, c);
  }

  // ---------- Packages ----------

  function Pack(c: Coin, d: Coin): (r: Coin)
  {
    Coin(c.weight + d.weight, c.syms + d.syms)
  }

  /** The first n neighbouring pairs, packaged. */
  function PairsTo(s: seq<Coin>, n: nat): (r: seq<Coin>)
    requires 2 * n <= |s|
    ensures |r| == n
  {
    if n == 0 then [] else PairsTo(s, n - 1) + [Pack(s[2 * n - 2], s[2 * n - 1])]
  }

  function Pairs(s: seq<Coin>): (r: seq<Coin>)
    ensures |r| == |s| / 2
  {
    PairsTo(s, |s| / 2)
  }

  lemma {:induction false} PairsAt(s: seq<Coin>, n: nat, i: nat)
    requires 2 * n <= |s| && i < n
    ensures PairsTo(s, n)[i] == Pack(s[2 * i], s[2 * i + 1])
  {
    if i < n - 1 { PairsAt(s, n - 1, i); }
  }

  lemma {:induction false} PairsSorted(s: seq<Coin>)
    requires Sorted(s)
    ensures Sorted(Pairs(s))
  {
    var p, n := Pairs(s), |s| / 2;
    forall i, j | 0 <= i < j < |p|
      ensures Below(p, i, j)
    {
      PairsAt(s, n, i);
      PairsAt(s, n, j);
      assert Below(s, 2 * i, 2 * j) && Below(s, 2 * i + 1, 2 * j + 1);
    }
  }

  lemma {:induction false} PairsTotal(q: Measure, s: seq<Coin>, n: nat, b: nat)
    requires b <= n && 2 * n <= |s|
    ensures Total(q, PairsTo(s, n), b) == Total(q, s, 2 * b)
  {
    if b > 0 {
      PairsTotal(q, s, n, b - 1);
      PairsAt(s, n, b - 1);
      assert Total(q, s, 2 * b) == Total(q, s, 2 * b - 1) + Value(q, s[2 * b - 1]);
      assert Total(q, s, 2 * b - 1) == Total(q, s, 2 * b - 2) + Value(q, s[2 * b - 2]);
    }
  }

  ghost predicate Positive(s: seq<Coin>)
  {
    forall i :: 0 <= i < |s| ==> s[i].weight > 0
  }

  lemma {:induction false} PairsPositive(s: seq<Coin>)
    requires Positive(s)
    ensures Positive(Pairs(s))
  {
    forall i | 0 <= i < |Pairs(s)|
      ensures Pairs(s)[i].weight > 0
    {
      PairsAt(s, |s| / 2, i);
    }
  }

  lemma {:induction false} PackageOutweighs(m: seq<Coin>, b: nat)
    requires Positive(m) && 1 <= b <= |m| / 2
    ensures Pairs(m)[b - 1].weight > m[2 * b - 1].weight
  {
    PairsAt(m, |m| / 2, b - 1);
  }

  lemma {:induction false} MergePositive(a: seq<Coin>, i: nat, p: seq<Coin>, j: nat)
    requires Positive(a) && Positive(p) && i <= |a| && j <= |p|
    ensures Positive(Merge(a, i, p, j))
    decreases i + j
  {
    if i + j > 0 {
      if LeftLast(a, i, p, j) {
        MergePositive(a, i - 1, p, j);
      } else {
        MergePositive(a, i, p, j - 1);
      }
    }
  }

  /** Every symbol held is below n. */
  ghost predicate SymsBelow(s: seq<Coin>, n: nat)
  {
    forall i, j :: 0 <= i < |s| && 0 <= j < |s[i].syms| ==> s[i].syms[j] < n
  }

  lemma {:induction false} PairsSyms(s: seq<Coin>, n: nat)
    requires SymsBelow(s, n)
    ensures SymsBelow(Pairs(s), n)
  {
    forall i, j | 0 <= i < |Pairs(s)| && 0 <= j < |Pairs(s)[i].syms|
      ensures Pairs(s)[i].syms[j] < n
    {
      PairsAt(s, |s| / 2, i);
      assert Pairs(s)[i].syms == s[2 * i].syms + s[2 * i + 1].syms;
    }
  }

  lemma {:induction false} MergeSyms(a: seq<Coin>, i: nat, p: seq<Coin>, j: nat, n: nat)
    requires SymsBelow(a, n) && SymsBelow(p, n) && i <= |a| && j <= |p|
    ensures SymsBelow(Merge(a, i, p, j), n)
    decreases i + j
  {
    if i + j > 0 {
      if LeftLast(a, i, p, j) {
        MergeSyms(a, i - 1, p, j, n);
      } else {
        MergeSyms(a, i, p, j - 1, n);
      }
    }
  }
}
