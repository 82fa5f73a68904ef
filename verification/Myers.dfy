/** The line diff of assertion messages: the greedy O(ND) search for a shortest
    edit script, and the walk back that prints it. */
module Myers {
  import opened Bits

  /** The two sides of a comparison; with comma set, a trailing comma does not count. */
  datatype Sides = Sides(actual: seq<string>, expected: seq<string>, comma: bool)

  datatype Op = DELETE | NOP | INSERT

  datatype Edit = Edit(op: Op, value: string)

  predicate LinesEqual(a: string, b: string, comma: bool)
  {
    a == b || (comma && (a + [','] == b || a == b + [',']))
  }

  predicate EndsWithComma(s: string)
  {
    |s| > 0 && s[|s| - 1] == ','
  }

  /** Line x of the actual side matches line y of the expected side; false outside the grid. */
  predicate Diag(g: Sides, x: nat, y: nat)
  {
    x < |g.actual| && y < |g.expected| && LinesEqual(g.actual[x], g.expected[y], g.comma)
  }

  /** Lines match when they are equal or, where commas do not count, one is the other with a comma at its end. */
  lemma {:induction false} LinesMatch(a: string, b: string, comma: bool)
    ensures LinesEqual(a, b, comma) <==>
            || a == b
            || (comma && EndsWithComma(b) && b[..|b| - 1] == a)
            || (comma && EndsWithComma(a) && a[..|a| - 1] == b)
  {
    if EndsWithComma(b) { assert b == b[..|b| - 1] + [',']; }
    if EndsWithComma(a) { assert a == a[..|a| - 1] + [',']; }
    assert (a + [','])[..|a|] == a && (b + [','])[..|b|] == b;
  }

  // ---------- The edit grid without its border ----------

  /** With i deletions, j insertions and t matches, in some order, one gets to (j + t, i + t). Insertions and
      deletions may leave the grid. */
  ghost predicate Reach(g: Sides, i: nat, j: nat, t: nat)
    decreases i + j + t, g
  {
    || (i == 0 && j == 0 && t == 0)
    || (j > 0 && Reach(g, i, j - 1, t))
    || (i > 0 && Reach(g, i - 1, j, t))
    || (t > 0 && Diag(g, j + t - 1, i + t - 1) && Reach(g, i, j, t - 1))
  }

  /** t, and the matches that follow on the diagonal. */
  function Slide(g: Sides, i: nat, j: nat, t: nat): (r: nat)
    ensures t <= r && !Diag(g, j + r, i + r)
    decreases |g.actual| - t, g
  {
    if Diag(g, j + t, i + t) then Slide(g, i, j, t + 1) else t
  }

  function Max(a: nat, b: nat): nat
  {
    if a >= b then a else b
  }

  /** The matches before the slide. */
  function Far0(g: Sides, i: nat, j: nat): (t: nat)
    decreases i + j, g, 0
  {
    if i == 0 && j == 0 then 0
    else if j == 0 then Far(g, i - 1, j)
    else if i == 0 then Far(g, i, j - 1)
    else Max(Far(g, i - 1, j), Far(g, i, j - 1))
  }

  /** The most matches that the greedy search finds for i deletions and j insertions. */
  function Far(g: Sides, i: nat, j: nat): (t: nat)
    decreases i + j, g, 1
  {
    Slide(g, i, j, Far0(g, i, j))
  }

  lemma {:induction false} SlideReach(g: Sides, i: nat, j: nat, t: nat)
    requires Reach(g, i, j, t)
    ensures Reach(g, i, j, Slide(g, i, j, t))
    decreases |g.actual| - t
  {
    if Diag(g, j + t, i + t) { SlideReach(g, i, j, t + 1); }
  }

  lemma {:induction false} FarReach(g: Sides, i: nat, j: nat)
    ensures Reach(g, i, j, Far0(g, i, j)) && Reach(g, i, j, Far(g, i, j))
    decreases i + j
  {
    hide Slide, Diag;
    if i > 0 { FarReach(g, i - 1, j); }
    if j > 0 { FarReach(g, i, j - 1); }
    SlideReach(g, i, j, Far0(g, i, j));
  }

  /** The greedy search is not beaten. */
  lemma {:induction false} FarIsFarthest(g: Sides, i: nat, j: nat, t: nat)
    requires Reach(g, i, j, t)
    ensures t <= Far(g, i, j)
    decreases i + j + t
  {
    hide Slide, Diag;
    if j > 0 && Reach(g, i, j - 1, t) {
      FarIsFarthest(g, i, j - 1, t);
    } else if i > 0 && Reach(g, i - 1, j, t) {
      FarIsFarthest(g, i - 1, j, t);
    } else if t > 0 {
      FarIsFarthest(g, i, j, t - 1);
    }
  }

  lemma {:induction false} SlideDiag(g: Sides, i: nat, j: nat, t0: nat, t: nat)
    requires t0 <= t < Slide(g, i, j, t0)
    ensures Diag(g, j + t, i + t)
    decreases |g.actual| - t0
  {
    if t0 < t { SlideDiag(g, i, j, t0 + 1, t); }
  }

  /** Fewer matches can be had as well, so the numbers of matches that can be had are those up to the farthest. */
  lemma {:induction false} ReachIff(g: Sides, i: nat, j: nat, t: nat)
    ensures Reach(g, i, j, t) <==> t <= Far(g, i, j)
    decreases i + j + t
  {
    hide Slide, Diag;
    if Reach(g, i, j, t) { FarIsFarthest(g, i, j, t); }
    if t <= Far(g, i, j) {
      if t > Far0(g, i, j) {
        SlideDiag(g, i, j, Far0(g, i, j), t - 1);
        ReachIff(g, i, j, t - 1);
      } else {
        if i > 0 { ReachIff(g, i - 1, j, t); }
        if j > 0 { ReachIff(g, i, j - 1, t); }
      }
    }
  }

  /** A path outside the grid projects to the border, with as many matches. */
  lemma {:induction false} Project(g: Sides, i: nat, j: nat, t: nat)
    requires Reach(g, i, j, t)
    ensures t <= |g.actual| && t <= |g.expected|
    ensures Reach(g, Least(i, |g.expected| - t), Least(j, |g.actual| - t), t)
    decreases i + j + t
  {
    var n, m := |g.actual|, |g.expected|;
    if j > 0 && Reach(g, i, j - 1, t) {
      Project(g, i, j - 1, t);
    } else if i > 0 && Reach(g, i - 1, j, t) {
      Project(g, i - 1, j, t);
    }
  }

  function Least(a: int, b: int): int
  {
    if a <= b then a else b
  }

  lemma {:induction false} MoreDeletions(g: Sides, i: nat, i': nat, j: nat, t: nat)
    requires Reach(g, i, j, t) && i <= i'
    ensures Reach(g, i', j, t)
    decreases i'
  {
    if i < i' { MoreDeletions(g, i, i' - 1, j, t); }
  }

  lemma {:induction false} MoreInsertions(g: Sides, i: nat, j: nat, j': nat, t: nat)
    requires Reach(g, i, j, t) && j <= j'
    ensures Reach(g, i, j', t)
    decreases j'
  {
    if j < j' { MoreInsertions(g, i, j, j' - 1, t); }
  }

  // ---------- The search stops at the end of both sides ----------

  /** The search stops where both sides are used up. */
  predicate Stops(g: Sides, i: nat, j: nat)
  {
    j + Far(g, i, j) >= |g.actual| && i + Far(g, i, j) >= |g.expected|
  }

  /** No stop with fewer than d edits. */
  ghost predicate NoStopBefore(g: Sides, d: nat)
  {
    forall i: nat, j: nat :: i + j < d ==> !Stops(g, i, j)
  }

  /** An alignment with t matches is a stop. */
  lemma {:induction false} EndStops(g: Sides, t: nat)
    requires t <= |g.actual| && t <= |g.expected| && Reach(g, |g.expected| - t, |g.actual| - t, t)
    ensures Stops(g, |g.expected| - t, |g.actual| - t)
  {
    hide Far;
    FarIsFarthest(g, |g.expected| - t, |g.actual| - t, t);
  }

  /** The first stop is exactly the end of both sides. */
  lemma {:induction false} FirstStopIsEnd(g: Sides, i: nat, j: nat)
    requires Stops(g, i, j) && NoStopBefore(g, i + j)
    ensures j + Far(g, i, j) == |g.actual| && i + Far(g, i, j) == |g.expected|
  {
    hide Reach, Far;
    var t := Far(g, i, j);
    FarReach(g, i, j);
    Project(g, i, j, t);
    EndStops(g, t);
  }

  /** No alignment has fewer edits than the first stop. */
  lemma {:induction false} FirstStopIsLeast(g: Sides, d: nat, t: nat)
    requires NoStopBefore(g, d)
    requires t <= |g.actual| && t <= |g.expected| && Reach(g, |g.expected| - t, |g.actual| - t, t)
    ensures d <= |g.actual| + |g.expected| - 2 * t
  {
    hide Reach, Far, Stops;
    EndStops(g, t);
  }

  /** There is a stop within n + m edits. */
  lemma {:induction false} StopExists(g: Sides)
    ensures Stops(g, |g.expected|, |g.actual|)
  {
    hide Far;
    assert Reach(g, 0, 0, 0);
    MoreDeletions(g, 0, |g.expected|, 0, 0);
    MoreInsertions(g, |g.expected|, 0, |g.actual|, 0);
    EndStops(g, 0);
  }

  /** Until the first stop no x exceeds n + m, so it fits 32 bits whenever n + m does. */
  lemma {:induction false} FarBound(g: Sides, i: nat, j: nat)
    requires NoStopBefore(g, i + j)
    ensures j + Far(g, i, j) <= |g.actual| + |g.expected|
  {
    hide Reach, Far, Stops;
    var n, m, t := |g.actual|, |g.expected|, Far(g, i, j);
    FarReach(g, i, j);
    Project(g, i, j, t);
    if j > n - t {
      MoreDeletions(g, Least(i, m - t), m - t, n - t, t);
      EndStops(g, t);
    }
  }

  // ---------- Edit scripts ----------

  /** How many of the first k entries have the operation. */
  function CountOp(r: seq<Edit>, op: Op, k: nat): (c: nat)
    requires k <= |r|
  {
    if k == 0 then 0 else CountOp(r, op, k - 1) + (if r[k - 1].op == op then 1 else 0)
  }

  /** Lines of the actual side left after the first k entries; scripts run from the end to the start. */
  function XAt(g: Sides, r: seq<Edit>, k: nat): (x: int)
    requires k <= |r|
  {
    |g.actual| - CountOp(r, NOP, k) - CountOp(r, INSERT, k)
  }

  function YAt(g: Sides, r: seq<Edit>, k: nat): (y: int)
    requires k <= |r|
  {
    |g.expected| - CountOp(r, NOP, k) - CountOp(r, DELETE, k)
  }

  /** The line shown for a match: the one with the trailing comma, if only one has it. */
  function NopValue(g: Sides, x: nat, y: nat): (v: string)
    requires x < |g.actual| && y < |g.expected|
  {
    if g.comma && !EndsWithComma(g.actual[x]) then g.expected[y] else g.actual[x]
  }

  /** An entry where x lines of the actual and y lines of the expected side are left. */
  predicate EntryAt(g: Sides, e: Edit, x: int, y: int)
  {
    match e.op
    case NOP => 0 < x <= |g.actual| && 0 < y <= |g.expected| && Diag(g, x - 1, y - 1) &&
        e.value == NopValue(g, x - 1, y - 1)
    case INSERT => 0 < x <= |g.actual| && e.value == g.actual[x - 1]
    case DELETE => 0 < y <= |g.expected| && e.value == g.expected[y - 1]
  }

  ghost predicate EntryOk(g: Sides, r: seq<Edit>, k: nat)
    requires k < |r|
  {
    EntryAt(g, r[k], XAt(g, r, k), YAt(g, r, k))
  }

  /** The entries so far lead back to (x, y). */
  ghost predicate BackTo(g: Sides, r: seq<Edit>, x: int, y: int)
  {
    XAt(g, r, |r|) == x && YAt(g, r, |r|) == y && forall k :: 0 <= k < |r| ==> EntryOk(g, r, k)
  }

  /** An alignment of the two sides. */
  ghost predicate Script(g: Sides, r: seq<Edit>)
  {
    BackTo(g, r, 0, 0)
  }

  function Edits(r: seq<Edit>): (c: nat)
  {
    CountOp(r, INSERT, |r|) + CountOp(r, DELETE, |r|)
  }

  lemma {:induction false} CountSame(r: seq<Edit>, s: seq<Edit>, op: Op, k: nat)
    requires k <= |r| && k <= |s| && forall x :: 0 <= x < k ==> r[x] == s[x]
    ensures CountOp(r, op, k) == CountOp(s, op, k)
  {
    if k > 0 { CountSame(r, s, op, k - 1); }
  }

  lemma {:induction false} CountPush(r: seq<Edit>, e: Edit, op: Op)
    ensures CountOp(r + [e], op, |r| + 1) == CountOp(r, op, |r|) + (if e.op == op then 1 else 0)
  {
    CountSame(r + [e], r, op, |r|);
  }

  /** One entry more. */
  lemma {:induction false} Push(g: Sides, r: seq<Edit>, x: int, y: int, e: Edit)
    requires BackTo(g, r, x, y) && EntryAt(g, e, x, y)
    ensures BackTo(g, r + [e], if e.op == DELETE then x else x - 1, if e.op == INSERT then y else y - 1)
    ensures Edits(r + [e]) == Edits(r) + (if e.op == NOP then 0 else 1)
  {
    hide CountOp, EntryAt;
    var s := r + [e];
    CountPush(r, e, NOP);
    CountPush(r, e, INSERT);
    CountPush(r, e, DELETE);
    forall k | 0 <= k < |s|
      ensures EntryOk(g, s, k)
    {
      CountSame(s, r, NOP, k);
      CountSame(s, r, INSERT, k);
      CountSame(s, r, DELETE, k);
      if k < |r| { assert EntryOk(g, r, k); }
    }
  }

  lemma {:induction false} CountMono(r: seq<Edit>, op: Op, k: nat)
    requires k <= |r|
    ensures CountOp(r, op, k) <= CountOp(r, op, |r|)
    decreases |r| - k
  {
    if k < |r| { CountMono(r, op, k + 1); }
  }

  /** What is left of a script after k entries is a path in the grid. */
  lemma {:induction false} RestReaches(g: Sides, r: seq<Edit>, k: nat)
    requires Script(g, r) && k <= |r|
    ensures CountOp(r, DELETE, k) <= CountOp(r, DELETE, |r|)
    ensures CountOp(r, INSERT, k) <= CountOp(r, INSERT, |r|)
    ensures CountOp(r, NOP, k) <= CountOp(r, NOP, |r|)
    ensures Reach(g, CountOp(r, DELETE, |r|) - CountOp(r, DELETE, k),
                  CountOp(r, INSERT, |r|) - CountOp(r, INSERT, k), CountOp(r, NOP, |r|) - CountOp(r, NOP, k))
    decreases |r| - k
  {
    hide Diag;
    CountMono(r, DELETE, k);
    CountMono(r, INSERT, k);
    CountMono(r, NOP, k);
    if k < |r| {
      RestReaches(g, r, k + 1);
      assert EntryOk(g, r, k);
    }
  }

  /** No alignment has fewer edits than a stop that is the first. */
  lemma {:induction false} ScriptCosts(g: Sides, r: seq<Edit>, d: nat)
    requires Script(g, r) && NoStopBefore(g, d)
    ensures d <= Edits(r)
  {
    hide Reach, NoStopBefore, CountOp;
    RestReaches(g, r, 0);
    CountNone(r);
    FirstStopIsLeast(g, d, CountOp(r, NOP, |r|));
  }

  lemma {:induction false} CountNone(r: seq<Edit>)
    ensures CountOp(r, DELETE, 0) == 0 && CountOp(r, INSERT, 0) == 0 && CountOp(r, NOP, 0) == 0
  {
  }

  // ---------- Which script ----------

  /** With i deletions, j insertions and t matches to go: a deletion if the rest can do without it, else an insertion if
      the rest can do without it, else a match. */
  ghost function Pick(g: Sides, i: nat, j: nat, t: nat): (op: Op)
  {
    if i > 0 && Reach(g, i - 1, j, t) then DELETE else if j > 0 && Reach(g, i, j - 1, t) then INSERT else NOP
  }

  /** Entry k of a script with that many insertions is the one picked. */
  ghost predicate Picked(g: Sides, r: seq<Edit>, insertions: nat, k: nat)
    requires k < |r|
  {
    var j := insertions - CountOp(r, INSERT, k);
    var t := XAt(g, r, k) - j;
    var i := YAt(g, r, k) - t;
    i >= 0 && j >= 0 && t >= 0 && r[k].op == Pick(g, i, j, t)
  }

  ghost predicate AllPicked(g: Sides, r: seq<Edit>, insertions: nat)
  {
    forall k :: 0 <= k < |r| ==> Picked(g, r, insertions, k)
  }

  lemma {:induction false} PickMore(g: Sides, r: seq<Edit>, insertions: nat, e: Edit, x: int, y: int, i: nat, j: nat)
    requires AllPicked(g, r, insertions) && BackTo(g, r, x, y) && CountOp(r, INSERT, |r|) + j == insertions
    requires x - j == y - i >= 0 && e.op == Pick(g, i, j, x - j)
    ensures AllPicked(g, r + [e], insertions)
    ensures CountOp(r + [e], INSERT, |r| + 1) == CountOp(r, INSERT, |r|) + (if e.op == INSERT then 1 else 0)
  {
    hide CountOp, Pick, EntryOk;
    var s := r + [e];
    CountPush(r, e, INSERT);
    forall k | 0 <= k < |s|
      ensures Picked(g, s, insertions, k)
    {
      CountSame(s, r, NOP, k);
      CountSame(s, r, INSERT, k);
      CountSame(s, r, DELETE, k);
      if k < |r| { assert Picked(g, r, insertions, k); }
    }
  }

  /** In terms of the search. */
  lemma {:induction false} PickIs(g: Sides, i: nat, j: nat, t: nat)
    requires t <= Far(g, i, j)
    ensures t > Far0(g, i, j) ==> Pick(g, i, j, t) == NOP
    ensures i > 0 && t == Far0(g, i, j) == Far(g, i - 1, j) ==> Pick(g, i, j, t) == DELETE
    ensures j > 0 && t == Far0(g, i, j) == Far(g, i, j - 1) && (i > 0 ==> Far(g, i - 1, j) < t) ==>
              Pick(g, i, j, t) == INSERT
  {
    hide Reach, Far;
    if i > 0 { ReachIff(g, i - 1, j, t); }
    if j > 0 { ReachIff(g, i, j - 1, t); }
  }

  lemma {:induction false} LengthIs(r: seq<Edit>, k: nat)
    requires k <= |r|
    ensures CountOp(r, NOP, k) + CountOp(r, INSERT, k) + CountOp(r, DELETE, k) == k
  {
    if k > 0 { LengthIs(r, k - 1); }
  }

  /** Picking leaves no choice: two such scripts with as many edits are the same. */
  lemma {:induction false} OneScript(g: Sides, r: seq<Edit>, s: seq<Edit>)
    requires Script(g, r) && Script(g, s) && Edits(r) == Edits(s)
    requires AllPicked(g, r, CountOp(r, INSERT, |r|)) && AllPicked(g, s, CountOp(s, INSERT, |s|))
    ensures r == s
  {
    hide CountOp, Picked, EntryOk;
    LengthIs(r, |r|);
    LengthIs(s, |s|);
    SameTo(g, r, s, CountOp(r, INSERT, |r|), |r|);
  }

  lemma {:induction false} SameTo(g: Sides, r: seq<Edit>, s: seq<Edit>, insertions: nat, k: nat)
    requires Script(g, r) && Script(g, s) && |r| == |s| && k <= |r|
    requires AllPicked(g, r, insertions) && AllPicked(g, s, insertions)
    ensures forall x :: 0 <= x < k ==> r[x] == s[x]
  {
    hide CountOp, Pick, Diag;
    if k > 0 {
      SameTo(g, r, s, insertions, k - 1);
      CountSame(r, s, NOP, k - 1);
      CountSame(r, s, INSERT, k - 1);
      CountSame(r, s, DELETE, k - 1);
      assert Picked(g, r, insertions, k - 1) && Picked(g, s, insertions, k - 1);
      assert EntryOk(g, r, k - 1) && EntryOk(g, s, k - 1);
    }
  }

  // ---------- What a script spells ----------

  /** The values of the first k entries that are not op, last entry first. */
  function Without(r: seq<Edit>, op: Op, k: nat): (v: seq<string>)
    requires k <= |r|
  {
    if k == 0 then [] else if r[k - 1].op == op then Without(r, op, k - 1) else [r[k - 1].value] + Without(r, op, k - 1)
  }

  /** v is side from line x on, up to trailing commas where these do not count. */
  ghost predicate Shows(v: seq<string>, side: seq<string>, x: int, comma: bool)
  {
    0 <= x <= |side| && |v| == |side| - x && forall t :: 0 <= t < |v| ==> LinesEqual(v[t], side[x + t], comma)
  }

  lemma {:induction false} ShowsMore(v: seq<string>, side: seq<string>, x: int, comma: bool, line: string)
    requires Shows(v, side, x, comma) && x > 0 && LinesEqual(line, side[x - 1], comma)
    ensures Shows([line] + v, side, x - 1, comma)
  {
    hide LinesEqual;
    var w := [line] + v;
    forall t | 0 <= t < |w|
      ensures LinesEqual(w[t], side[x - 1 + t], comma)
    {
      if t > 0 { assert w[t] == v[t - 1] && side[x + (t - 1)] == side[x - 1 + t]; }
    }
  }

  lemma {:induction false} NopShows(g: Sides, x: nat, y: nat)
    requires Diag(g, x, y)
    ensures LinesEqual(NopValue(g, x, y), g.actual[x], g.comma) && LinesEqual(NopValue(g, x, y), g.expected[y], g.comma)
  {
  }

  /** Where commas do not count, a match shows a line with the trailing comma if either side has it. */
  lemma {:induction false} NopComma(g: Sides, x: nat, y: nat)
    requires g.comma && Diag(g, x, y)
    ensures EndsWithComma(NopValue(g, x, y)) <==> EndsWithComma(g.actual[x]) || EndsWithComma(g.expected[y])
    ensures NopValue(g, x, y) == g.actual[x] || NopValue(g, x, y) == g.expected[y]
  {
  }

  lemma {:induction false} ScriptShows(g: Sides, r: seq<Edit>, k: nat, x: int, y: int)
    requires BackTo(g, r, x, y) && k <= |r|
    ensures Shows(Without(r, DELETE, k), g.actual, XAt(g, r, k), g.comma)
    ensures Shows(Without(r, INSERT, k), g.expected, YAt(g, r, k), g.comma)
  {
    hide Shows, Diag, NopValue, LinesEqual;
    if k == 0 {
      assert Shows([], g.actual, |g.actual|, g.comma) by { ShowsNothing(g.actual, g.comma); }
      assert Shows([], g.expected, |g.expected|, g.comma) by { ShowsNothing(g.expected, g.comma); }
    } else {
      var e, px, py := r[k - 1], XAt(g, r, k - 1), YAt(g, r, k - 1);
      ScriptShows(g, r, k - 1, x, y);
      assert EntryOk(g, r, k - 1);
      if e.op == NOP { NopShows(g, px - 1, py - 1); }
      SameLine(e.value, g.comma);
      if e.op != DELETE { ShowsMore(Without(r, DELETE, k - 1), g.actual, px, g.comma, e.value); }
      if e.op != INSERT { ShowsMore(Without(r, INSERT, k - 1), g.expected, py, g.comma, e.value); }
    }
  }

  lemma {:induction false} SameLine(s: string, comma: bool)
    ensures LinesEqual(s, s, comma)
  {
  }

  lemma {:induction false} ShowsNothing(side: seq<string>, comma: bool)
    ensures Shows([], side, |side|, comma)
  {
  }

  /** Dropping the deletions from a script gives the actual lines and dropping the insertions the expected
      lines: exactly, or up to one trailing comma on matches where commas do not count. */
  lemma {:induction false} ScriptSpells(g: Sides, r: seq<Edit>)
    requires Script(g, r)
    ensures Shows(Without(r, DELETE, |r|), g.actual, 0, g.comma)
    ensures Shows(Without(r, INSERT, |r|), g.expected, 0, g.comma)
    ensures !g.comma ==> Without(r, DELETE, |r|) == g.actual && Without(r, INSERT, |r|) == g.expected
  {
    hide Without, CountOp, EntryOk;
    ScriptShows(g, r, |r|, 0, 0);
  }

  // ---------- The search ----------

  /** Diagonal 2j - d holds the farthest x with j insertions and d - j deletions. */
  ghost predicate HoldsFar(v: seq<int>, off: nat, g: Sides, d: nat, j: nat)
  {
    j <= d && 0 <= off + 2 * j - d < |v| && v[off + 2 * j - d] == j + Far(g, d - j, j)
  }

  /** The first n diagonals of round d. */
  ghost predicate RoundTo(v: seq<int>, off: nat, g: Sides, d: nat, n: nat)
  {
    forall j :: 0 <= j < n ==> HoldsFar(v, off, g, d, j)
  }

  /** The array before round d: the results of round d - 1, or zeros. */
  ghost predicate Before(v: seq<int>, off: nat, g: Sides, d: nat)
  {
    |v| == 2 * off + 1 && off >= 1 && d <= off && if d == 0 then v[off + 1] == 0 else RoundTo(v, off, g, d - 1, d)
  }

  /** Whether the path to diagonal k = 2j - d comes from the diagonal above, and from where. */
  lemma {:induction false} FromWhere(v: seq<int>, off: nat, g: Sides, d: nat, j: nat)
    requires Before(v, off, g, d) && j <= d
    ensures var o := off + 2 * j - d;
            var next := j == 0 || (j != d && v[o - 1] < v[o + 1]);
            if next then v[o + 1] == j + Far0(g, d - j, j) else v[o - 1] == j - 1 + Far0(g, d - j, j)
  {
    hide Far;
    if d > 0 {
      if j > 0 { assert HoldsFar(v, off, g, d - 1, j - 1); }
      if j < d { assert HoldsFar(v, off, g, d - 1, j); }
    }
  }

  method Extend(g: Sides, v: array<int>, off: nat, d: nat, k: int, ghost j: nat) returns (x: int, y: int)
    requires Before(v[..], off, g, d) && j <= d && k == 2 * j - d
    ensures x == j + Far(g, d - j, j) && y == x - k
  {
    hide Far0, RoundTo, Slide;
    FromWhere(v[..], off, g, d, j);
    var o := k + off;
    var takeNext := k == 0 - d || (k != d && v[o - 1] < v[o + 1]);
    x := if takeNext then v[o + 1] else v[o - 1] + 1;
    y := x - k;
    x, y := SlideOn(g, x, y, d - j, j);
  }

  method SlideOn(g: Sides, x0: int, y0: int, ghost i: nat, ghost j: nat) returns (x: int, y: int)
    requires x0 - j == y0 - i && x0 >= j
    ensures x == j + Slide(g, i, j, x0 - j) && x - j == y - i
  {
    x, y := x0, y0;
    while x < |g.actual| && y < |g.expected| && LinesEqual(g.actual[x], g.expected[y], g.comma)
      invariant x - j == y - i && x >= j && Slide(g, i, j, x - j) == Slide(g, i, j, x0 - j)
    {
      x, y := x + 1, y + 1;
    }
  }

  lemma {:induction false} Store(v: seq<int>, off: nat, g: Sides, d: nat, j: nat)
    requires Before(v, off, g, d) && j <= d && RoundTo(v, off, g, d, j)
    ensures var v' := v[off + 2 * j - d := j + Far(g, d - j, j)];
            Before(v', off, g, d) && RoundTo(v', off, g, d, j + 1)
  {
    hide Far;
    var o, x := off + 2 * j - d, j + Far(g, d - j, j);
    var v' := v[o := x];
    if d > 0 {
      var e := d - 1;
      forall q | 0 <= q < d
        ensures HoldsFar(v', off, g, e, q)
      {
        assert HoldsFar(v, off, g, e, q);
      }
    }
    forall q | 0 <= q < j + 1
      ensures HoldsFar(v', off, g, d, q)
    {
      if q < j { assert HoldsFar(v, off, g, d, q); }
    }
  }

  /** Round d stops with j insertions. */
  predicate StopsAt(g: Sides, d: nat, j: nat)
  {
    j <= d && Stops(g, d - j, j)
  }

  ghost predicate NoStopIn(g: Sides, d: nat, n: nat)
  {
    forall j: nat :: j < n ==> !StopsAt(g, d, j)
  }

  lemma {:induction false} NoStopRound(g: Sides, d: nat)
    requires NoStopBefore(g, d) && NoStopIn(g, d, d + 1)
    ensures NoStopBefore(g, d + 1)
  {
    hide Stops;
    var d' := d + 1;
    forall i: nat, j: nat | i + j < d'
      ensures !Stops(g, i, j)
    {
      if i + j == d { assert !StopsAt(g, d, j); }
    }
  }

  /** The snapshots taken before each round so far. */
  ghost predicate Snapshots(trace: seq<seq<int>>, off: nat, g: Sides)
  {
    forall e :: 0 <= e < |trace| ==> Before(trace[e], off, g, e)
  }

  /** One round: either it stops at the end of both sides with j insertions, or it fills its diagonals. */
  method Round(g: Sides, v: array<int>, off: nat, d: nat) returns (stop: bool, ghost j: nat)
    requires off == |g.actual| + |g.expected| < 0x8000_0000 && Before(v[..], off, g, d) && NoStopBefore(g, d)
    modifies v
    ensures stop ==> j <= d && j + Far(g, d - j, j) == |g.actual| && d - j + Far(g, d - j, j) == |g.expected|
    ensures !stop ==> RoundTo(v[..], off, g, d, d + 1) && NoStopBefore(g, d + 1)
  {
    hide Far, RoundTo, NoStopBefore;
    var k: int := 0 - d;
    j := 0;
    assert RoundTo(v[..], off, g, d, 0) by { RoundNone(v[..], off, g, d); }
    while k <= d
      invariant k == 2 * j - d && j <= d + 1
      invariant Before(v[..], off, g, d) && RoundTo(v[..], off, g, d, j) && NoStopIn(g, d, j)
    {
      var x, y := Extend(g, v, off, d, k, j);
      FarBound(g, d - j, j);
      Store(v[..], off, g, d, j);
      ghost var old_v := v[..];
      v[k + off] := ToI32(x);
      assert v[..] == old_v[off + 2 * j - d := x];
      if x >= |g.actual| && y >= |g.expected| {
        FirstStopIsEnd(g, d - j, j);
        return true, j;
      }
      k := k + 2;
      j := j + 1;
    }
    NoStopRound(g, d);
    stop := false;
  }

  lemma {:induction false} RoundNone(v: seq<int>, off: nat, g: Sides, d: nat)
    ensures RoundTo(v, off, g, d, 0)
  {
  }

  // ---------- The walk back ----------

  /** The point from which round d came to diagonal 2j - d; before the first round, one step up from the origin. */
  method Previous(g: Sides, v: seq<int>, off: nat, d: nat, k: int, ghost j: nat) returns (px: int, py: int)
    requires Before(v, off, g, d) && j <= d && k == 2 * j - d
    ensures (px == j + Far0(g, d - j, j) && py == d - j + Far0(g, d - j, j) - 1)
         || (j > 0 && px == j + Far0(g, d - j, j) - 1 && py == d - j + Far0(g, d - j, j))
    ensures d > 0 && px == j + Far0(g, d - j, j) ==> j < d && Far0(g, d - j, j) == Far(g, d - 1 - j, j)
    ensures px < j + Far0(g, d - j, j) ==> Far0(g, d - j, j) == Far(g, d - j, j - 1)
    ensures px < j + Far0(g, d - j, j) && j < d ==> Far(g, d - 1 - j, j) < Far0(g, d - j, j)
  {
    hide Far;
    FromWhere(v, off, g, d, j);
    if d > 0 {
      if j > 0 { assert HoldsFar(v, off, g, d - 1, j - 1); }
      if j < d { assert HoldsFar(v, off, g, d - 1, j); }
    }
    var o := k + off;
    var pk := if k == 0 - d || (k != d && v[o - 1] < v[o + 1]) then k + 1 else k - 1;
    px := v[pk + off];
    py := px - pk;
  }

  /** Back along the matches of the slide. */
  method BackSlide(g: Sides, r0: seq<Edit>, x0: int, y0: int, px: int, py: int, ghost i: nat, ghost j: nat,
      ghost insertions: nat)
      returns (r: seq<Edit>, x: int, y: int)
    requires AllPicked(g, r0, insertions) && CountOp(r0, INSERT, |r0|) + j == insertions
    requires BackTo(g, r0, x0, y0) && x0 == j + Far(g, i, j) && y0 == i + Far(g, i, j)
    requires (px == j + Far0(g, i, j) && py == i + Far0(g, i, j) - 1) ||
               (px == j + Far0(g, i, j) - 1 && py == i + Far0(g, i, j))
    ensures BackTo(g, r, x, y) && Edits(r) == Edits(r0) && x == j + Far0(g, i, j) && y == i + Far0(g, i, j)
    ensures AllPicked(g, r, insertions) && CountOp(r, INSERT, |r|) + j == insertions
  {
    hide Far0, Diag, BackTo, Edits, AllPicked, CountOp, Pick;
    r, x, y := r0, x0, y0;
    while x > px && y > py
      invariant x - j == y - i && Far0(g, i, j) <= x - j <= Far(g, i, j)
      invariant BackTo(g, r, x, y) && Edits(r) == Edits(r0)
      invariant AllPicked(g, r, insertions) && CountOp(r, INSERT, |r|) + j == insertions
    {
      PickIs(g, i, j, x - j);
      SlideDiag(g, i, j, Far0(g, i, j), x - 1 - j);
      InGrid(g, x - 1, y - 1);
      var e := Edit(NOP, NopValue(g, x - 1, y - 1));
      Push(g, r, x, y, e);
      PickMore(g, r, insertions, e, x, y, i, j);
      r := r + [e];
      x, y := x - 1, y - 1;
    }
  }

  lemma {:induction false} InGrid(g: Sides, x: nat, y: nat)
    requires Diag(g, x, y)
    ensures x < |g.actual| && y < |g.expected|
  {
  }

  /** Back from the end of both sides to their start. */
  method Backtrack(trace: seq<seq<int>>, g: Sides, off: nat, ghost j0: nat) returns (r: seq<Edit>)
    requires off == |g.actual| + |g.expected| && Snapshots(trace, off, g) && j0 < |trace|
    requires j0 + Far(g, |trace| - 1 - j0, j0) == |g.actual|
    requires |trace| - 1 - j0 + Far(g, |trace| - 1 - j0, j0) == |g.expected|
    ensures Script(g, r) && Edits(r) == |trace| - 1 && AllPicked(g, r, CountOp(r, INSERT, |r|))
  {
    hide Far, Far0, Edits, BackTo, Before, AllPicked, CountOp, Pick;
    r := [];
    NonePicked(g, j0);
    BackNone(g);
    var x, y := |g.actual|, |g.expected|;
    ghost var j := j0;
    var d := |trace|;
    while d > 0
      invariant 0 <= d <= |trace| && BackTo(g, r, x, y)
      invariant d == 0 ==> x == 0 && y == 0
      invariant d > 0 ==> 0 <= j < d && x == j + Far(g, d - 1 - j, j) && y == d - 1 - j + Far(g, d - 1 - j, j)
      invariant Edits(r) == |trace| - (if d == 0 then 1 else d)
      invariant AllPicked(g, r, j0) && CountOp(r, INSERT, |r|) + j == j0 && (d == 0 ==> j == 0)
    {
      d := d - 1;
      ghost var i := d - j;
      var px, py := Previous(g, trace[d], off, d, x - y, j);
      r, x, y := BackSlide(g, r, x, y, px, py, i, j, j0);
      SlideOnward(g, i, j);
      PickIs(g, i, j, x - j);
      if d > 0 {
        if x > px {
          x := x - 1;
          InsertHere(g, r, x, y);
          Push(g, r, x + 1, y, Edit(INSERT, g.actual[x]));
          PickMore(g, r, j0, Edit(INSERT, g.actual[x]), x + 1, y, i, j);
          r := r + [Edit(INSERT, g.actual[x])];
          j := j - 1;
        } else {
          y := y - 1;
          DeleteHere(g, r, x, y);
          Push(g, r, x, y + 1, Edit(DELETE, g.expected[y]));
          PickMore(g, r, j0, Edit(DELETE, g.expected[y]), x, y + 1, i, j);
          r := r + [Edit(DELETE, g.expected[y])];
        }
      } else {
        FarStart(g);
      }
    }
  }

  lemma {:induction false} SlideOnward(g: Sides, i: nat, j: nat)
    ensures Far0(g, i, j) <= Far(g, i, j)
  {
  }

  lemma {:induction false} NonePicked(g: Sides, insertions: nat)
    ensures AllPicked(g, [], insertions) && CountOp([], INSERT, 0) == 0
  {
  }

  lemma {:induction false} FarStart(g: Sides)
    ensures Far0(g, 0, 0) == 0
  {
  }

  lemma {:induction false} BackNone(g: Sides)
    ensures BackTo(g, [], |g.actual|, |g.expected|) && Edits([]) == 0
  {
  }

  lemma {:induction false} InsertHere(g: Sides, r: seq<Edit>, x: int, y: int)
    requires x >= 0 && BackTo(g, r, x + 1, y)
    ensures x < |g.actual|
  {
  }

  lemma {:induction false} DeleteHere(g: Sides, r: seq<Edit>, x: int, y: int)
    requires y >= 0 && BackTo(g, r, x, y + 1)
    ensures y < |g.expected|
  {
  }

  /** An alignment of the two sides with the fewest insertions and deletions; from the end, wherever a deletion can come
      next it does, else an insertion, else a match. */
  method Diff(g: Sides) returns (r: seq<Edit>)
    requires |g.actual| + |g.expected| < 0x8000_0000
    ensures Script(g, r)
    ensures forall s :: Script(g, s) ==> Edits(r) <= Edits(s)
    ensures AllPicked(g, r, CountOp(r, INSERT, |r|))
  {
    hide Far, Edits, Script, NoStopBefore, RoundTo, AllPicked, CountOp;
    var max := |g.actual| + |g.expected|;
    if max == 0 {
      NothingToDo(g);
      NonePicked(g, 0);
      return [];
    }
    var v := new int[2 * max + 1](_ => 0);
    var trace: seq<seq<int>> := [];
    NoStopYet(g);
    for d := 0 to max + 1
      invariant |trace| == d && Snapshots(trace, max, g) && NoStopBefore(g, d)
      invariant d <= max ==> Before(v[..], max, g, d)
    {
      trace := trace + [v[..]];
      var stop;
      ghost var j;
      stop, j := Round(g, v, max, d);
      if stop {
        r := Backtrack(trace, g, max, j);
        forall s | Script(g, s)
          ensures Edits(r) <= Edits(s)
        {
          ScriptCosts(g, s, d);
        }
        return;
      }
    }
    Overrun(g, max + 1);
    assert false;
  }

  lemma {:induction false} NoStopYet(g: Sides)
    ensures NoStopBefore(g, 0)
  {
  }

  lemma {:induction false} NothingToDo(g: Sides)
    requires |g.actual| + |g.expected| == 0
    ensures Script(g, []) && Edits([]) == 0
  {
  }

  lemma {:induction false} Overrun(g: Sides, d: nat)
    requires d > |g.actual| + |g.expected|
    ensures !NoStopBefore(g, d)
  {
    hide Stops;
    StopExists(g);
  }
}
