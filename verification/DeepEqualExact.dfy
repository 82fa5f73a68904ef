/** Which equal graphs the comparison accepts: bisimilar objects without collections count as equal exactly when no
    pair is met while one of its sides is being compared with another partner. */
module DeepEqualExact {
  import opened ObjectGraph
  import opened DeepEqual
  import ObjectPaths

  // ---------- A walk that compares nothing ----------

  /** Goes along the keys of the first object on both sides, in order. It fails when it meets a new pair with an
      active side, whatever the values are. */
  ghost function Walk(h: Heap, m: Mode, v: Value, w: Value, s: State): (r: (bool, State))
    requires Closed(h) && InHeap(h, v) && InHeap(h, w) && Fits(h, s)
    ensures Extends(h, s, r.1)
    decreases AllPairs(h) - s.pairs, 1, 0
  {
    if v.Obj? && w.Obj? && v != w then WalkPair(h, m, v.r, w.r, s) else (true, s)
  }

  ghost function WalkPair(h: Heap, m: Mode, a: Ref, b: Ref, s: State): (r: (bool, State))
    requires Closed(h) && a < |h.objects| && b < |h.objects| && Fits(h, s)
    ensures Extends(h, s, r.1)
    decreases AllPairs(h) - s.pairs, 0, 0
  {
    if (a, b) in s.pairs then (true, s)
    else if a in s.forward || b in s.backward then (false, s)
    else
      EnteredFits(h, s, a, b);
      var (r, t) := WalkObjects(h, m, a, b, Entered(s, a, b));
      (r, t.(forward := s.forward, backward := s.backward))
  }

  ghost function WalkObjects(h: Heap, m: Mode, a: Ref, b: Ref, s: State): (r: (bool, State))
    requires Closed(h) && a < |h.objects| && b < |h.objects| && Fits(h, s)
    ensures Extends(h, s, r.1)
    decreases AllPairs(h) - s.pairs, 5, 0
  {
    var (r, t) := WalkKeys(h, m, a, b, StringKeys(h.objects[a]), 0, s);
    if r && m.strict then WalkKeys(h, m, a, b, SymbolKeys(h.objects[a]), 0, t) else (r, t)
  }

  ghost function WalkKeys(h: Heap, m: Mode, a: Ref, b: Ref, ks: seq<Key>, i: nat, s: State): (r: (bool, State))
    requires Closed(h) && a < |h.objects| && b < |h.objects| && Fits(h, s) && i <= |ks|
    ensures Extends(h, s, r.1)
    decreases AllPairs(h) - s.pairs, 4, |ks| - i
  {
    if i == |ks| then (true, s)
    else
      var (r, t) := Walk(h, m, Get(h, a, ks[i]), Get(h, b, ks[i]), s);
      if r then WalkKeys(h, m, a, b, ks, i + 1, t) else (false, t)
  }

  // ---------- On bisimilar objects the comparison is that walk ----------

  ghost predicate PlainObject(h: Heap, r: Ref)
  {
    r < |h.objects| && h.objects[r].mapData.Absent? && h.objects[r].setData.Absent?
  }

  /** No pair of R holds a Map or a Set. */
  ghost predicate WithoutCollections(h: Heap, R: Pairs)
  {
    forall p :: p in R ==> PlainObject(h, p.0) && PlainObject(h, p.1)
  }

  ghost predicate PlainBisimulation(h: Heap, m: Mode, R: Pairs)
    requires Closed(h)
  {
    Bisimulation(h, m, R) && WithoutCollections(h, R)
  }

  lemma {:induction false} AnswerIsWalk(h: Heap, m: Mode, B: Pairs, v: Value, w: Value, s: State)
    requires Closed(h) && InHeap(h, v) && InHeap(h, w) && Fits(h, s)
    requires PlainBisimulation(h, m, B) && Related(h, m, B, v, w)
    ensures Answer(h, m, v, w, s) == Walk(h, m, v, w, s) && Walk(h, m, v, w, s).1.pairs <= s.pairs + B
    decreases AllPairs(h) - s.pairs, 1, 0
  {
    hide Closed, Fits, PlainBisimulation, AnswerPair, WalkPair;
    if v.Obj? && w.Obj? && v != w { PairIsWalk(h, m, B, v.r, w.r, s); }
  }

  lemma {:induction false} PairIsWalk(h: Heap, m: Mode, B: Pairs, a: Ref, b: Ref, s: State)
    requires Closed(h) && a < |h.objects| && b < |h.objects| && Fits(h, s)
    requires PlainBisimulation(h, m, B) && (a, b) in B
    ensures AnswerPair(h, m, a, b, s) == WalkPair(h, m, a, b, s) && WalkPair(h, m, a, b, s).1.pairs <= s.pairs + B
    decreases AllPairs(h) - s.pairs, 0, 0
  {
    hide Closed, Inverse, Alike, AnswerObjects, WalkObjects;
    if (a, b) !in s.pairs && a !in s.forward && b !in s.backward {
      EnteredFits(h, s, a, b);
      ObjectsAreWalk(h, m, B, a, b, Entered(s, a, b));
    }
  }

  lemma {:induction false} ObjectsAreWalk(h: Heap, m: Mode, B: Pairs, a: Ref, b: Ref, s: State)
    requires Closed(h) && a < |h.objects| && b < |h.objects| && Fits(h, s)
    requires PlainBisimulation(h, m, B) && Alike(h, m, B, a, b) && PlainObject(h, a) && PlainObject(h, b)
    ensures AnswerObjects(h, m, a, b, s) == WalkObjects(h, m, a, b, s)
    ensures WalkObjects(h, m, a, b, s).1.pairs <= s.pairs + B
    decreases AllPairs(h) - s.pairs, 5, 0
  {
    hide Closed, Inverse, PlainBisimulation, PropsRelated, StringKeys, SymbolKeys, AnswerProps, WalkKeys;
    var oa, ob := h.objects[a], h.objects[b];
    PropsAreWalk(h, m, B, a, b, StringKeys(oa), StringKeys(ob), 0, s);
    var (r, t) := AnswerProps(h, m, a, b, StringKeys(oa), StringKeys(ob), 0, s);
    if r && m.strict { PropsAreWalk(h, m, B, a, b, SymbolKeys(oa), SymbolKeys(ob), 0, t); }
  }

  lemma {:induction false} PropsAreWalk(h: Heap, m: Mode, B: Pairs, a: Ref, b: Ref, ka: seq<Key>, kb: seq<Key>, i: nat,
      s: State)
    requires Closed(h) && a < |h.objects| && b < |h.objects| && Fits(h, s) && i <= |ka|
    requires PlainBisimulation(h, m, B) && PropsRelated(h, m, B, a, b, ka, kb)
    ensures AnswerProps(h, m, a, b, ka, kb, i, s) == WalkKeys(h, m, a, b, ka, i, s)
    ensures WalkKeys(h, m, a, b, ka, i, s).1.pairs <= s.pairs + B
    decreases AllPairs(h) - s.pairs, 4, |ka| - i
  {
    hide Inverse, PlainBisimulation, Related, Answer, Walk;
    if i < |ka| {
      var v, w := Get(h, a, ka[i]), Get(h, b, ka[i]);
      AnswerIsWalk(h, m, B, v, w, s);
      var (r, t) := Answer(h, m, v, w, s);
      if r { PropsAreWalk(h, m, B, a, b, ka, kb, i + 1, t); }
    }
  }

  // ---------- Exactly when the answer is yes ----------

  ghost predicate PlainBisimilar(h: Heap, m: Mode, v: Value, w: Value)
    requires Closed(h) && InHeap(h, v) && InHeap(h, w)
  {
    exists B :: PlainBisimulation(h, m, B) && Related(h, m, B, v, w)
  }

  /** The answer is yes, and no collection was met, exactly when a bisimulation without collections relates the values
      and the walk is not blocked. */
  lemma {:induction false} YesExactlyWhen(h: Heap, m: Mode, v: Value, w: Value)
    requires Closed(h) && InHeap(h, v) && InHeap(h, w)
    ensures var (r, t) := Answer(h, m, v, w, Start());
            r && WithoutCollections(h, t.pairs) <==> PlainBisimilar(h, m, v, w) && Walk(h, m, v, w, Start()).0
  {
    hide Closed, Bisimulation, Related, Answer, Walk;
    var (r, t) := Answer(h, m, v, w, Start());
    YesIsBisimilar(h, m, v, w);
    if r && WithoutCollections(h, t.pairs) {
      assert PlainBisimulation(h, m, t.pairs);
      AnswerIsWalk(h, m, t.pairs, v, w, Start());
    }
    if PlainBisimilar(h, m, v, w) {
      var B :| PlainBisimulation(h, m, B) && Related(h, m, B, v, w);
      AnswerIsWalk(h, m, B, v, w, Start());
    }
  }

  ghost predicate NoCollections(h: Heap)
  {
    forall r :: 0 <= r < |h.objects| ==> PlainObject(h, r)
  }

  /** In a heap without collections the answer is yes exactly for bisimilar values whose walk is not blocked. */
  lemma {:induction false} YesWithoutCollections(h: Heap, m: Mode, v: Value, w: Value)
    requires Closed(h) && InHeap(h, v) && InHeap(h, w) && NoCollections(h)
    ensures Answer(h, m, v, w, Start()).0 <==> Bisimilar(h, m, v, w) && Walk(h, m, v, w, Start()).0
  {
    hide Closed, Alike, Related, Answer, Walk, PlainObject;
    YesExactlyWhen(h, m, v, w);
    var t := Answer(h, m, v, w, Start()).1;
    forall p | p in t.pairs
      ensures p in AllPairs(h)
    {
    }
    if Bisimilar(h, m, v, w) {
      var B :| Bisimulation(h, m, B) && Related(h, m, B, v, w);
      BisimulationIsDeep(h, m, B, 0);
      assert PlainBisimulation(h, m, B);
    }
  }

  /** Likewise, said of paths: yes exactly for values that agree along all paths and whose walk is not blocked. */
  lemma {:induction false} YesByPaths(h: Heap, m: Mode, v: Value, w: Value)
    requires Closed(h) && InHeap(h, v) && InHeap(h, w) && NoCollections(h)
    ensures Answer(h, m, v, w, Start()).0 <==>
              ObjectPaths.AgreeEverywhere(h, m, v, w) && Walk(h, m, v, w, Start()).0
  {
    hide Closed, Bisimilar, Answer, Walk, NoCollections, ObjectPaths.AgreeEverywhere;
    YesWithoutCollections(h, m, v, w);
    ObjectPaths.BisimilarByPaths(h, m, v, w);
  }

  // ---------- Equal graphs that are refused ----------

  function PlainWith(next: Ref): (o: Object)
  {
    Object(Ordinary, 0, ["next"], [], map[Str("next") := Obj(next)], Absent, false, Absent, false)
  }

  /** An object that is its own successor, and two that are each other's. */
  function Cycles(): (h: Heap)
  {
    Heap([PlainWith(0), PlainWith(2), PlainWith(1)], (a, b) => a == b, (a, b) => a == b, Plain(0))
  }

  lemma {:induction false} CyclesClosed()
    ensures Closed(Cycles()) && NoCollections(Cycles())
  {
  }

  /** Both unfold to the same endless chain, yet one is not equal to the other: the second pair that is met has an
      active side. */
  lemma {:induction false} CyclesRefused(m: Mode)
    ensures Closed(Cycles()) && Bisimilar(Cycles(), m, Obj(0), Obj(1))
    ensures !Answer(Cycles(), m, Obj(0), Obj(1), Start()).0
  {
    hide Closed;
    CyclesClosed();
    var h := Cycles();
    var B := {(0, 1), (0, 2)};
    assert h.objects[0] == PlainWith(0) && h.objects[1] == PlainWith(2) && h.objects[2] == PlainWith(1);
    OneKey(h, m, B, 0, 1, 0, 2);
    OneKey(h, m, B, 0, 2, 0, 1);
    assert Bisimulation(h, m, B);
    YesWithoutCollections(h, m, Obj(0), Obj(1));
    CyclesBlocked(m);
  }

  lemma {:induction false} OneKey(h: Heap, m: Mode, B: Pairs, a: Ref, b: Ref, i: Ref, j: Ref)
    requires Closed(h) && a < |h.objects| && b < |h.objects|
    requires h.objects[a] == PlainWith(i) && h.objects[b] == PlainWith(j)
    requires i < |h.objects| && j < |h.objects| && (i == j || (i, j) in B)
    requires !h.objects[i].kind.Function? && !h.objects[j].kind.Function?
    ensures Alike(h, m, B, a, b)
  {
    hide Closed;
  }

  lemma {:induction false} CyclesBlocked(m: Mode)
    requires Closed(Cycles())
    ensures !Walk(Cycles(), m, Obj(0), Obj(1), Start()).0
  {
    hide Closed;
    var h := Cycles();
    var s := Entered(Start(), 0, 1);
    EnteredFits(h, Start(), 0, 1);
    var ks := StringKeys(h.objects[0]);
    assert ks == [Str("next")];
    assert Get(h, 0, ks[0]) == Obj(0) && Get(h, 1, ks[0]) == Obj(2);
    assert Walk(h, m, Obj(0), Obj(2), s) == (false, s);
    assert WalkKeys(h, m, 0, 1, ks, 0, s) == (false, s);
    assert !WalkObjects(h, m, 0, 1, s).0;
  }

  function SetOf(x: nat, y: nat): (o: Object)
  {
    var u := Prim(NaN);
    Object(Ordinary, 0, [], [], map[], Absent, false,
           Entries([(u, Prim(Plain(x))), (u, Prim(Plain(y)))]), false)
  }

  /** The sets {0, ''} and {'', '0'}. Loosely 0 equals both strings, which differ. */
  function Sets(): (h: Heap)
  {
    var zero := Plain(0);
    Heap([SetOf(0, 1), SetOf(1, 2)], (a, b) => a == b, (a, b) => a == b || a == zero || b == zero, zero)
  }

  lemma {:induction false} SetsClosed()
    ensures Closed(Sets())
  {
  }

  /** The entries can be paired off, but the first takes the partner that only the second could have used. */
  lemma {:induction false} SetsRefused(skipPrototype: bool)
    ensures var m := Mode(false, skipPrototype);
            Closed(Sets()) && Bisimilar(Sets(), m, Obj(0), Obj(1)) && !Answer(Sets(), m, Obj(0), Obj(1), Start()).0
  {
    hide Closed;
    SetsClosed();
    SetsAlike(Mode(false, skipPrototype));
    SetsDiffer(Mode(false, skipPrototype));
  }

  lemma {:induction false} SetsAlike(m: Mode)
    requires Closed(Sets()) && !m.strict
    ensures Bisimilar(Sets(), m, Obj(0), Obj(1))
  {
    hide Closed, StorageMatch;
    var h := Sets();
    var B := {(0, 1)};
    Crosswise(m, B);
    assert CollectionMatch(h, m, B, 0, 1);
    assert Bisimulation(h, m, B);
  }

  lemma {:induction false} Crosswise(m: Mode, B: Pairs)
    requires !m.strict
    ensures StorageMatch(Sets(), m, B, Sets().objects[0].setData, Sets().objects[1].setData, false)
  {
    var h := Sets();
    var ea, eb := h.objects[0].setData.entries, h.objects[1].setData.entries;
    assert EntryRelated(h, m, B, ea[0], eb[1], false);
    assert EntryRelated(h, m, B, ea[1], eb[0], false);
    assert Matching(h, m, B, ea, eb, false, [1, 0]);
  }

  lemma {:induction false} SetsDiffer(m: Mode)
    requires Closed(Sets()) && !m.strict
    ensures !Answer(Sets(), m, Obj(0), Obj(1), Start()).0
  {
    hide Closed, Inverse, AnswerProps, AnswerOrdinary, AnswerEntries;
    var h := Sets();
    EnteredFits(h, Start(), 0, 1);
    var s := Entered(Start(), 0, 1);
    NoneLeft(m, s);
    assert !AnswerObjects(h, m, 0, 1, s).0;
  }

  /** The first entry takes the first partner, and the second has none among those left. */
  lemma {:induction false} NoneLeft(m: Mode, s: State)
    requires Closed(Sets()) && !m.strict && Fits(Sets(), s)
    ensures var sa, sb := Sets().objects[0].setData, Sets().objects[1].setData;
            !AnswerEntries(Sets(), m, sa.entries, sb.entries, false, 0, NoneUsed(2), s).0
  {
    hide Closed, Inverse, AnswerPair;
    var h := Sets();
    var ea, eb := h.objects[0].setData.entries, h.objects[1].setData.entries;
    var none, one := NoneUsed(2), NoneUsed(2)[0 := true];
    assert AnswerEntry(h, m, ea[0], eb[0], false, s) == (true, s);
    assert AnswerEntry(h, m, ea[1], eb[1], false, s) == (false, s);
    assert FirstPartner(h, m, ea[0], eb, false, none, 0, s) == (true, 0, s);
    assert !FirstPartner(h, m, ea[1], eb, false, one, 2, s).0;
    assert !FirstPartner(h, m, ea[1], eb, false, one, 1, s).0;
    assert !FirstPartner(h, m, ea[1], eb, false, one, 0, s).0;
    assert !AnswerEntries(h, m, ea, eb, false, 1, one, s).0;
  }
}
