/** Deep equality of possibly cyclic object graphs: a search that assumes the
    pairs it has entered, and the proof that what it assumed is a bisimulation. */
module DeepEqual {
  import opened ObjectGraph
  import ObjectPaths

  // ---------- The memo ----------

  datatype State = State(pairs: Pairs, forward: Active, backward: Active)

  /** The two maps of active pairs are inverse to each other, and active pairs have been entered. */
  ghost predicate Inverse(s: State)
  {
    && (forall a :: a in s.forward ==>
          var b := s.forward[a]; b in s.backward && s.backward[b] == a && (a, b) in s.pairs)
    && (forall b :: b in s.backward ==> s.backward[b] in s.forward && s.forward[s.backward[b]] == b)
  }

  /** The pairs entered so far, and those still being compared, from both sides. */
  class Memo {
    var pairs: Pairs
    var forward: Active
    var backward: Active

    ghost function Now(): (s: State)
      reads this
    {
      State(pairs, forward, backward)
    }

    ghost predicate Valid()
      reads this
    {
      Inverse(Now())
    }

    constructor ()
      ensures Valid() && pairs == {} && forward == map[] && backward == map[]
    {
      pairs, forward, backward := {}, map[], map[];
    }

    constructor Copy(other: Memo)
      ensures pairs == other.pairs && forward == other.forward && backward == other.backward
    {
      pairs, forward, backward := other.pairs, other.forward, other.backward;
    }

    method Assign(other: Memo)
      modifies this
      ensures pairs == other.pairs && forward == other.forward && backward == other.backward
    {
      pairs, forward, backward := other.pairs, other.forward, other.backward;
    }

    /** A pair seen before counts as equal; one side being compared with another partner counts as different;
        otherwise the pair becomes active. */
    method Enter(a: Ref, b: Ref) returns (known: bool, equal: bool)
      requires Valid()
      modifies this
      ensures Valid()
      ensures known ==> pairs == old(pairs) && forward == old(forward) && backward == old(backward)
      ensures known && equal <==> (a, b) in old(pairs)
      ensures known && !equal <==> (a, b) !in old(pairs) && (a in old(forward) || b in old(backward))
      ensures !known ==> pairs == old(pairs) + {(a, b)}
      ensures !known ==> forward == old(forward)[a := b] && backward == old(backward)[b := a]
    {
      if (a, b) in pairs { return true, true; }
      if a in forward && forward[a] != b { return true, false; }
      if b in backward && backward[b] != a { return true, false; }
      forward, backward, pairs := forward[a := b], backward[b := a], pairs + {(a, b)};
      return false, false;
    }

    method Leave(a: Ref, b: Ref)
      modifies this
      ensures pairs == old(pairs)
      ensures forward == if a in old(forward) && old(forward)[a] == b then old(forward) - {a} else old(forward)
      ensures backward == if b in old(backward) && old(backward)[b] == a then old(backward) - {b} else old(backward)
    {
      if a in forward && forward[a] == b { forward := forward - {a}; }
      if b in backward && backward[b] == a { backward := backward - {b}; }
    }
  }

  // ---------- The answer as a function ----------

  /** The pairs entered are of this heap, and the active ones agree from both sides. */
  ghost predicate Fits(h: Heap, s: State)
  {
    Inverse(s) && s.pairs <= AllPairs(h)
  }

  /** After a comparison the same pairs are active, and pairs may have been added. */
  ghost predicate Extends(h: Heap, s: State, t: State)
  {
    Fits(h, t) && t.forward == s.forward && t.backward == s.backward && s.pairs <= t.pairs
  }

  function Entered(s: State, a: Ref, b: Ref): (t: State)
  {
    State(s.pairs + {(a, b)}, s.forward[a := b], s.backward[b := a])
  }

  lemma {:induction false} EnteredFits(h: Heap, s: State, a: Ref, b: Ref)
    requires Fits(h, s) && a < |h.objects| && b < |h.objects|
    requires (a, b) !in s.pairs && a !in s.forward && b !in s.backward
    ensures Fits(h, Entered(s, a, b)) && AllPairs(h) - Entered(s, a, b).pairs < AllPairs(h) - s.pairs
  {
    assert (a, b) in AllPairs(h) - s.pairs;
  }

  ghost predicate EntryInHeap(h: Heap, e: Entry)
  {
    InHeap(h, e.0) && InHeap(h, e.1)
  }

  /** Whether the values count as equal, and the state that the comparison leaves. */
  ghost function Answer(h: Heap, m: Mode, v: Value, w: Value, s: State): (r: (bool, State))
    requires Closed(h) && InHeap(h, v) && InHeap(h, w) && Fits(h, s)
    ensures Extends(h, s, r.1)
    decreases AllPairs(h) - s.pairs, 1, 0
  {
    match (v, w)
    case (Obj(a), Obj(b)) =>
      if a == b then (true, s)
      else if h.objects[a].kind.Function? || h.objects[b].kind.Function? then (false, s)
      else AnswerPair(h, m, a, b, s)
    case (Prim(x), Prim(y)) => (PrimEqual(h, m, x, y), s)
    case _ => (false, s)
  }

  /** A pair seen before counts as equal, one with an active side as different. */
  ghost function AnswerPair(h: Heap, m: Mode, a: Ref, b: Ref, s: State): (r: (bool, State))
    requires Closed(h) && a < |h.objects| && b < |h.objects| && Fits(h, s)
    ensures Extends(h, s, r.1)
    decreases AllPairs(h) - s.pairs, 0, 0
  {
    if (a, b) in s.pairs then (true, s)
    else if a in s.forward || b in s.backward then (false, s)
    else
      EnteredFits(h, s, a, b);
      var (r, t) := AnswerObjects(h, m, a, b, Entered(s, a, b));
      (r, t.(forward := s.forward, backward := s.backward))
  }

  ghost function AnswerObjects(h: Heap, m: Mode, a: Ref, b: Ref, s: State): (r: (bool, State))
    requires Closed(h) && a < |h.objects| && b < |h.objects| && Fits(h, s)
    ensures Extends(h, s, r.1)
    decreases AllPairs(h) - s.pairs, 6, 0
  {
    var oa, ob := h.objects[a], h.objects[b];
    if m.strict && !m.skipPrototype && oa.proto != ob.proto then (false, s)
    else if !oa.mapData.Absent? || !ob.mapData.Absent? then
      if oa.mapData.Absent? || ob.mapData.Absent? || oa.weakMap || ob.weakMap then (false, s)
      else AnswerCollections(h, m, a, b, oa.mapData, ob.mapData, true, s)
    else if !oa.setData.Absent? || !ob.setData.Absent? then
      if oa.setData.Absent? || ob.setData.Absent? || oa.weakSet || ob.weakSet then (false, s)
      else AnswerCollections(h, m, a, b, oa.setData, ob.setData, false, s)
    else AnswerOrdinary(h, m, a, b, s)
  }

  predicate SameShape(oa: Object, ob: Object)
  {
    && (oa.kind.Array? <==> ob.kind.Array?) && (oa.kind.Array? ==> oa.kind.length == ob.kind.length)
    && (oa.kind.Arguments? <==> ob.kind.Arguments?)
  }

  ghost function AnswerOrdinary(h: Heap, m: Mode, a: Ref, b: Ref, s: State): (r: (bool, State))
    requires Closed(h) && a < |h.objects| && b < |h.objects| && Fits(h, s)
    ensures Extends(h, s, r.1)
    decreases AllPairs(h) - s.pairs, 5, 0
  {
    var oa, ob := h.objects[a], h.objects[b];
    if !SameShape(oa, ob) then (false, s)
    else
      var (r, t) := AnswerProps(h, m, a, b, StringKeys(oa), StringKeys(ob), 0, s);
      if r && m.strict then AnswerProps(h, m, a, b, SymbolKeys(oa), SymbolKeys(ob), 0, t) else (r, t)
  }

  /** The keys from i on: as many on both sides, each of them on the other side, with equal values. */
  ghost function AnswerProps(h: Heap, m: Mode, a: Ref, b: Ref, ka: seq<Key>, kb: seq<Key>, i: nat,
      s: State): (r: (bool, State))
    requires Closed(h) && a < |h.objects| && b < |h.objects| && Fits(h, s) && i <= |ka|
    ensures Extends(h, s, r.1)
    decreases AllPairs(h) - s.pairs, 4, |ka| - i
  {
    if |ka| != |kb| then (false, s)
    else if i == |ka| then (true, s)
    else if ka[i] !in kb then (false, s)
    else
      var (r, t) := Answer(h, m, Get(h, a, ka[i]), Get(h, b, ka[i]), s);
      if r then AnswerProps(h, m, a, b, ka, kb, i + 1, t) else (false, t)
  }

  function NoneUsed(n: nat): (used: seq<bool>)
    ensures |used| == n && forall j :: 0 <= j < n ==> !used[j]
  {
    seq(n, _ => false)
  }

  /** Sets and Maps: the entries in some order, then the other properties. */
  ghost function AnswerCollections(h: Heap, m: Mode, a: Ref, b: Ref, sa: Storage, sb: Storage, byKey: bool,
      s: State): (r: (bool, State))
    requires Closed(h) && a < |h.objects| && b < |h.objects| && Fits(h, s)
    requires StorageInHeap(h, sa) && StorageInHeap(h, sb)
    ensures Extends(h, s, r.1)
    decreases AllPairs(h) - s.pairs, 5, 0
  {
    if !sa.Entries? || !sb.Entries? || |sa.entries| != |sb.entries| then (false, s)
    else
      var (r, t) := AnswerEntries(h, m, sa.entries, sb.entries, byKey, 0, NoneUsed(|sb.entries|), s);
      var oa, ob := h.objects[a], h.objects[b];
      if r then AnswerProps(h, m, a, b, PublicKeys(oa, |oa.keys|), PublicKeys(ob, |ob.keys|), 0, t) else (false, t)
  }

  /** Each entry from i on in turn takes the first free partner that equals it. */
  ghost function AnswerEntries(h: Heap, m: Mode, ea: seq<Entry>, eb: seq<Entry>, byKey: bool, i: nat, used: seq<bool>,
      s: State): (r: (bool, State))
    requires Closed(h) && StorageInHeap(h, Entries(ea)) && StorageInHeap(h, Entries(eb)) && Fits(h, s)
    requires i <= |ea| && |used| == |eb|
    ensures Extends(h, s, r.1)
    decreases AllPairs(h) - s.pairs, 4, |ea| - i
  {
    if i == |ea| then (true, s)
    else
      var (found, j, t) := FirstPartner(h, m, ea[i], eb, byKey, used, 0, s);
      if found then AnswerEntries(h, m, ea, eb, byKey, i + 1, used[j := true], t) else (false, s)
  }

  /** The first free entry from k on that equals e; a try that fails leaves no trace. */
  ghost function FirstPartner(h: Heap, m: Mode, e: Entry, eb: seq<Entry>, byKey: bool, used: seq<bool>, k: nat,
      s: State): (r: (bool, nat, State))
    requires Closed(h) && EntryInHeap(h, e) && StorageInHeap(h, Entries(eb)) && Fits(h, s)
    requires k <= |eb| == |used|
    ensures Extends(h, s, r.2) && (r.0 ==> k <= r.1 < |eb| && !used[r.1])
    decreases AllPairs(h) - s.pairs, 3, |eb| - k
  {
    if k == |eb| then (false, 0, s)
    else if used[k] then FirstPartner(h, m, e, eb, byKey, used, k + 1, s)
    else
      var (r, t) := AnswerEntry(h, m, e, eb[k], byKey, s);
      if r then (true, k, t) else FirstPartner(h, m, e, eb, byKey, used, k + 1, s)
  }

  ghost function AnswerEntry(h: Heap, m: Mode, e: Entry, f: Entry, byKey: bool, s: State): (r: (bool, State))
    requires Closed(h) && EntryInHeap(h, e) && EntryInHeap(h, f) && Fits(h, s)
    ensures Extends(h, s, r.1)
    decreases AllPairs(h) - s.pairs, 2, 0
  {
    if byKey then
      var (r, t) := Answer(h, m, e.0, f.0, s);
      if r then Answer(h, m, e.1, f.1, t) else (false, t)
    else Answer(h, m, e.1, f.1, s)
  }

  // ---------- A yes is justified ----------

  /** Every pair entered is still active or holds under the pairs entered. */
  ghost predicate Justified(h: Heap, m: Mode, R: Pairs, active: Active)
    requires Closed(h)
  {
    forall p :: p in R ==> (p.0 in active && active[p.0] == p.1) || Alike(h, m, R, p.0, p.1)
  }

  lemma {:induction false} EnterJustified(h: Heap, m: Mode, R: Pairs, active: Active, a: Ref, b: Ref)
    requires Closed(h) && Justified(h, m, R, active) && a !in active
    ensures Justified(h, m, R + {(a, b)}, active[a := b])
  {
    hide Alike, Closed;
    var S := R + {(a, b)};
    forall p | p in S
      ensures (p.0 in active[a := b] && active[a := b][p.0] == p.1) || Alike(h, m, S, p.0, p.1)
    {
      if p in R && Alike(h, m, R, p.0, p.1) { AlikeMono(h, m, R, S, p.0, p.1); }
    }
  }

  lemma {:induction false} LeaveJustified(h: Heap, m: Mode, R: Pairs, active: Active, a: Ref, b: Ref)
    requires Closed(h) && Justified(h, m, R, active[a := b]) && a !in active && Alike(h, m, R, a, b)
    ensures Justified(h, m, R, active)
  {
    hide Alike, Closed;
  }

  /** After a yes the values are related under pairs that are all justified. */
  lemma {:induction false} SoundAnswer(h: Heap, m: Mode, v: Value, w: Value, s: State)
    requires Closed(h) && InHeap(h, v) && InHeap(h, w) && Fits(h, s) && Justified(h, m, s.pairs, s.forward)
    ensures var (r, t) := Answer(h, m, v, w, s);
            r ==> Justified(h, m, t.pairs, s.forward) && Related(h, m, t.pairs, v, w)
    decreases AllPairs(h) - s.pairs, 1, 0
  {
    hide Closed, Justified, Fits, AnswerPair;
    match (v, w)
    case (Obj(a), Obj(b)) =>
      if a != b && !h.objects[a].kind.Function? && !h.objects[b].kind.Function? { SoundPair(h, m, a, b, s); }
    case _ =>
  }

  lemma {:induction false} SoundPair(h: Heap, m: Mode, a: Ref, b: Ref, s: State)
    requires Closed(h) && a < |h.objects| && b < |h.objects| && Fits(h, s) && Justified(h, m, s.pairs, s.forward)
    ensures var (r, t) := AnswerPair(h, m, a, b, s);
            r ==> Justified(h, m, t.pairs, s.forward) && (a, b) in t.pairs
    decreases AllPairs(h) - s.pairs, 0, 0
  {
    hide Closed, Justified, Fits, Alike, AnswerObjects;
    if (a, b) !in s.pairs && a !in s.forward && b !in s.backward {
      EnteredFits(h, s, a, b);
      EnterJustified(h, m, s.pairs, s.forward, a, b);
      SoundObjects(h, m, a, b, Entered(s, a, b));
      var (r, t) := AnswerObjects(h, m, a, b, Entered(s, a, b));
      if r { LeaveJustified(h, m, t.pairs, s.forward, a, b); }
    }
  }

  lemma {:induction false} SoundObjects(h: Heap, m: Mode, a: Ref, b: Ref, s: State)
    requires Closed(h) && a < |h.objects| && b < |h.objects| && Fits(h, s) && Justified(h, m, s.pairs, s.forward)
    ensures var (r, t) := AnswerObjects(h, m, a, b, s);
            r ==> Justified(h, m, t.pairs, s.forward) && Alike(h, m, t.pairs, a, b)
    decreases AllPairs(h) - s.pairs, 6, 0
  {
    hide Justified, Fits, StorageMatch, CollectionMatch, OrdinaryMatch, AnswerCollections, AnswerOrdinary;
    var oa, ob := h.objects[a], h.objects[b];
    if !oa.mapData.Absent? || !ob.mapData.Absent? {
      SoundCollections(h, m, a, b, oa.mapData, ob.mapData, true, s);
    } else if !oa.setData.Absent? || !ob.setData.Absent? {
      SoundCollections(h, m, a, b, oa.setData, ob.setData, false, s);
    } else {
      SoundOrdinary(h, m, a, b, s);
    }
  }

  lemma {:induction false} SoundOrdinary(h: Heap, m: Mode, a: Ref, b: Ref, s: State)
    requires Closed(h) && a < |h.objects| && b < |h.objects| && Fits(h, s) && Justified(h, m, s.pairs, s.forward)
    ensures var (r, t) := AnswerOrdinary(h, m, a, b, s);
            r ==> Justified(h, m, t.pairs, s.forward) && OrdinaryMatch(h, m, t.pairs, a, b)
    decreases AllPairs(h) - s.pairs, 5, 0
  {
    hide Closed, Justified, Fits, PropsRelated, StringKeys, SymbolKeys, AnswerProps;
    var oa, ob := h.objects[a], h.objects[b];
    var (r, t) := AnswerProps(h, m, a, b, StringKeys(oa), StringKeys(ob), 0, s);
    SoundProps(h, m, a, b, StringKeys(oa), StringKeys(ob), s);
    if r && m.strict {
      SoundProps(h, m, a, b, SymbolKeys(oa), SymbolKeys(ob), t);
      var u := AnswerProps(h, m, a, b, SymbolKeys(oa), SymbolKeys(ob), 0, t).1;
      PropsMono(h, m, t.pairs, u.pairs, a, b, StringKeys(oa), StringKeys(ob));
    }
  }

  /** The keys from i on are on the other side, with related values. */
  ghost predicate PropsFrom(h: Heap, m: Mode, R: Pairs, a: Ref, b: Ref, ka: seq<Key>, kb: seq<Key>, i: nat)
    requires Closed(h) && a < |h.objects| && b < |h.objects|
  {
    |ka| == |kb| && forall j :: i <= j < |ka| ==> ka[j] in kb && Related(h, m, R, Get(h, a, ka[j]), Get(h, b, ka[j]))
  }

  lemma {:induction false} SoundProps(h: Heap, m: Mode, a: Ref, b: Ref, ka: seq<Key>, kb: seq<Key>, s: State)
    requires Closed(h) && a < |h.objects| && b < |h.objects| && Fits(h, s) && Justified(h, m, s.pairs, s.forward)
    ensures var (r, t) := AnswerProps(h, m, a, b, ka, kb, 0, s);
            r ==> Justified(h, m, t.pairs, s.forward) && PropsRelated(h, m, t.pairs, a, b, ka, kb)
    decreases AllPairs(h) - s.pairs, 4, |ka| + 1
  {
    hide Closed, Justified, Fits, AnswerProps, Related;
    SoundPropsFrom(h, m, a, b, ka, kb, 0, s);
  }

  lemma {:induction false} SoundPropsFrom(h: Heap, m: Mode, a: Ref, b: Ref, ka: seq<Key>, kb: seq<Key>, i: nat,
      s: State)
    requires Closed(h) && a < |h.objects| && b < |h.objects| && Fits(h, s) && Justified(h, m, s.pairs, s.forward)
    requires i <= |ka|
    ensures var (r, t) := AnswerProps(h, m, a, b, ka, kb, i, s);
            r ==> Justified(h, m, t.pairs, s.forward) && PropsFrom(h, m, t.pairs, a, b, ka, kb, i)
    decreases AllPairs(h) - s.pairs, 4, |ka| - i
  {
    hide Justified, Fits, Answer, Related;
    if |ka| == |kb| && i < |ka| && ka[i] in kb {
      var v, w := Get(h, a, ka[i]), Get(h, b, ka[i]);
      var (r, t) := Answer(h, m, v, w, s);
      SoundAnswer(h, m, v, w, s);
      if r {
        SoundPropsFrom(h, m, a, b, ka, kb, i + 1, t);
        RelatedMono(h, m, t.pairs, AnswerProps(h, m, a, b, ka, kb, i + 1, t).1.pairs, v, w);
      }
    }
  }

  lemma {:induction false} SoundCollections(h: Heap, m: Mode, a: Ref, b: Ref, sa: Storage, sb: Storage, byKey: bool,
      s: State)
    requires Closed(h) && a < |h.objects| && b < |h.objects| && Fits(h, s) && Justified(h, m, s.pairs, s.forward)
    requires StorageInHeap(h, sa) && StorageInHeap(h, sb)
    ensures var (r, t) := AnswerCollections(h, m, a, b, sa, sb, byKey, s);
            && (r ==> Justified(h, m, t.pairs, s.forward) && StorageMatch(h, m, t.pairs, sa, sb, byKey))
            && (r ==> CollectionMatch(h, m, t.pairs, a, b))
    decreases AllPairs(h) - s.pairs, 5, 0
  {
    hide Closed, Justified, Fits, EntriesMatch, PropsRelated, PublicKeys, AnswerProps, AnswerEntries;
    if sa.Entries? && sb.Entries? && |sa.entries| == |sb.entries| {
      var used := NoneUsed(|sb.entries|);
      var (r, t) := AnswerEntries(h, m, sa.entries, sb.entries, byKey, 0, used, s);
      SoundEntries(h, m, sa.entries, sb.entries, byKey, s);
      if r {
        var oa, ob := h.objects[a], h.objects[b];
        var ka, kb := PublicKeys(oa, |oa.keys|), PublicKeys(ob, |ob.keys|);
        SoundProps(h, m, a, b, ka, kb, t);
        StorageMono(h, m, t.pairs, AnswerProps(h, m, a, b, ka, kb, 0, t).1.pairs, sa, sb, byKey);
      }
    }
  }

  /** perm sends the entries of ea from i on to related, distinct and free entries of eb. */
  ghost predicate MatchingFrom(h: Heap, m: Mode, R: Pairs, ea: seq<Entry>, eb: seq<Entry>, byKey: bool, i: nat,
      used: seq<bool>, perm: seq<nat>)
    requires |used| == |eb|
  {
    && i + |perm| == |ea| && Injective(perm, |eb|) && (forall k :: 0 <= k < |perm| ==> !used[perm[k]])
    && forall k :: 0 <= k < |perm| ==> EntryRelated(h, m, R, ea[i + k], eb[perm[k]], byKey)
  }

  lemma {:induction false} SoundEntries(h: Heap, m: Mode, ea: seq<Entry>, eb: seq<Entry>, byKey: bool, s: State)
    requires Closed(h) && StorageInHeap(h, Entries(ea)) && StorageInHeap(h, Entries(eb)) && |ea| == |eb|
    requires Fits(h, s) && Justified(h, m, s.pairs, s.forward)
    ensures var (r, t) := AnswerEntries(h, m, ea, eb, byKey, 0, NoneUsed(|eb|), s);
            r ==> Justified(h, m, t.pairs, s.forward) && EntriesMatch(h, m, t.pairs, ea, eb, byKey)
    decreases AllPairs(h) - s.pairs, 4, |ea| + 1
  {
    hide Closed, Justified, Fits, EntryRelated, AnswerEntries;
    var (r, t) := AnswerEntries(h, m, ea, eb, byKey, 0, NoneUsed(|eb|), s);
    var perm := SoundEntriesFrom(h, m, ea, eb, byKey, 0, NoneUsed(|eb|), s);
    if r {
      forall k | 0 <= k < |perm|
        ensures EntryRelated(h, m, t.pairs, ea[k], eb[perm[k]], byKey)
      {
        assert ea[0 + k] == ea[k];
      }
      assert Matching(h, m, t.pairs, ea, eb, byKey, perm);
    }
  }

  lemma {:induction false} SoundEntriesFrom(h: Heap, m: Mode, ea: seq<Entry>, eb: seq<Entry>, byKey: bool, i: nat,
      used: seq<bool>, s: State) returns (perm: seq<nat>)
    requires Closed(h) && StorageInHeap(h, Entries(ea)) && StorageInHeap(h, Entries(eb)) && Fits(h, s)
    requires i <= |ea| && |used| == |eb| && Justified(h, m, s.pairs, s.forward)
    ensures var (r, t) := AnswerEntries(h, m, ea, eb, byKey, i, used, s);
            r ==> Justified(h, m, t.pairs, s.forward) && MatchingFrom(h, m, t.pairs, ea, eb, byKey, i, used, perm)
    decreases AllPairs(h) - s.pairs, 4, |ea| - i
  {
    hide Closed, Justified, Fits, EntryRelated, FirstPartner, MatchingFrom;
    perm := [];
    if i == |ea| {
      NothingLeft(h, m, s.pairs, ea, eb, byKey, used);
    } else {
      var (found, j, t) := FirstPartner(h, m, ea[i], eb, byKey, used, 0, s);
      SoundPartner(h, m, ea[i], eb, byKey, used, 0, s);
      if found {
        var rest := SoundEntriesFrom(h, m, ea, eb, byKey, i + 1, used[j := true], t);
        var (r, u) := AnswerEntries(h, m, ea, eb, byKey, i + 1, used[j := true], t);
        if r {
          EntryMono(h, m, t.pairs, u.pairs, ea[i], eb[j], byKey);
          TakeEntry(h, m, u.pairs, ea, eb, byKey, i, used, j, rest);
        }
        perm := [j] + rest;
      }
    }
  }

  lemma {:induction false} NothingLeft(h: Heap, m: Mode, R: Pairs, ea: seq<Entry>, eb: seq<Entry>, byKey: bool,
      used: seq<bool>)
    requires |used| == |eb|
    ensures MatchingFrom(h, m, R, ea, eb, byKey, |ea|, used, [])
  {
  }

  lemma {:induction false} TakeEntry(h: Heap, m: Mode, R: Pairs, ea: seq<Entry>, eb: seq<Entry>, byKey: bool, i: nat,
      used: seq<bool>, j: nat, rest: seq<nat>)
    requires |used| == |eb| && i < |ea| && j < |eb| && !used[j] && EntryRelated(h, m, R, ea[i], eb[j], byKey)
    requires MatchingFrom(h, m, R, ea, eb, byKey, i + 1, used[j := true], rest)
    ensures MatchingFrom(h, m, R, ea, eb, byKey, i, used, [j] + rest)
  {
    hide EntryRelated;
    var q := [j] + rest;
    forall k | 0 <= k < |q|
      ensures EntryRelated(h, m, R, ea[i + k], eb[q[k]], byKey)
    {
      if k > 0 { assert ea[i + k] == ea[i + 1 + (k - 1)] && q[k] == rest[k - 1]; }
    }
  }

  lemma {:induction false} SoundPartner(h: Heap, m: Mode, e: Entry, eb: seq<Entry>, byKey: bool, used: seq<bool>,
      k: nat, s: State)
    requires Closed(h) && EntryInHeap(h, e) && StorageInHeap(h, Entries(eb)) && Fits(h, s)
    requires k <= |eb| == |used| && Justified(h, m, s.pairs, s.forward)
    ensures var (found, j, t) := FirstPartner(h, m, e, eb, byKey, used, k, s);
            found ==> Justified(h, m, t.pairs, s.forward) && EntryRelated(h, m, t.pairs, e, eb[j], byKey)
    decreases AllPairs(h) - s.pairs, 3, |eb| - k
  {
    hide Closed, Justified, Fits, EntryRelated, AnswerEntry;
    if k < |eb| {
      if !used[k] { SoundEntry(h, m, e, eb[k], byKey, s); }
      SoundPartner(h, m, e, eb, byKey, used, k + 1, s);
    }
  }

  lemma {:induction false} SoundEntry(h: Heap, m: Mode, e: Entry, f: Entry, byKey: bool, s: State)
    requires Closed(h) && EntryInHeap(h, e) && EntryInHeap(h, f) && Fits(h, s) && Justified(h, m, s.pairs, s.forward)
    ensures var (r, t) := AnswerEntry(h, m, e, f, byKey, s);
            r ==> Justified(h, m, t.pairs, s.forward) && EntryRelated(h, m, t.pairs, e, f, byKey)
    decreases AllPairs(h) - s.pairs, 2, 0
  {
    hide Closed, Justified, Fits, Related, Answer;
    if byKey {
      var (r, t) := Answer(h, m, e.0, f.0, s);
      SoundAnswer(h, m, e.0, f.0, s);
      if r {
        SoundAnswer(h, m, e.1, f.1, t);
        RelatedMono(h, m, t.pairs, Answer(h, m, e.1, f.1, t).1.pairs, e.0, f.0);
      }
    } else {
      SoundAnswer(h, m, e.1, f.1, s);
    }
  }

  // ---------- When the answer must be yes ----------

  /** q is reached from p by one key on both sides. */
  ghost predicate ChildAt(h: Heap, p: (Ref, Ref), q: (Ref, Ref), k: Key)
  {
    p.0 < |h.objects| && p.1 < |h.objects| && Get(h, p.0, k) == Obj(q.0) && Get(h, p.1, k) == Obj(q.1)
  }

  function EntriesOf(s: Storage): (es: seq<Entry>)
  {
    if s.Entries? then s.entries else []
  }

  /** e and f are entries of the two Maps or of the two Sets of a pair. */
  ghost predicate EntryPair(h: Heap, p: (Ref, Ref), e: Entry, f: Entry)
  {
    && p.0 < |h.objects| && p.1 < |h.objects|
    && var oa, ob := h.objects[p.0], h.objects[p.1];
    (e in EntriesOf(oa.mapData) && f in EntriesOf(ob.mapData)) ||
        (e in EntriesOf(oa.setData) && f in EntriesOf(ob.setData))
  }

  /** q is reached from p by an entry on both sides, as key or as value. */
  ghost predicate EntryChild(h: Heap, p: (Ref, Ref), q: (Ref, Ref))
  {
    exists e, f :: EntryPair(h, p, e, f) &&
        ((e.0 == Obj(q.0) && f.0 == Obj(q.1)) || (e.1 == Obj(q.0) && f.1 == Obj(q.1)))
  }

  ghost predicate Child(h: Heap, p: (Ref, Ref), q: (Ref, Ref))
  {
    (exists k :: ChildAt(h, p, q, k)) || EntryChild(h, p, q)
  }

  ghost predicate Link(h: Heap, c: Path, i: nat)
  {
    i + 1 < |c| ==> Child(h, c[i], c[i + 1])
  }

  /** A path of pairs of R, each reached from the one before. */
  ghost predicate Chain(h: Heap, R: Pairs, c: Path)
  {
    (forall i :: 0 <= i < |c| ==> c[i] in R) && (forall i: nat :: Link(h, c, i))
  }

  /** Pairs that agree on one side agree on the other. */
  ghost predicate OneToOne(c: Path)
  {
    forall i, j :: 0 <= i < j < |c| ==> (c[i].0 == c[j].0 <==> c[i].1 == c[j].1)
  }

  /** Some bisimulation relates the entries. */
  ghost predicate EntryBisimilar(h: Heap, m: Mode, e: Entry, f: Entry, byKey: bool)
    requires Closed(h)
  {
    exists R :: Bisimulation(h, m, R) && EntryRelated(h, m, R, e, f, byKey)
  }

  /** If e and e' share the partner f, and e can also have g, then so can e'. */
  ghost predicate Shares(h: Heap, m: Mode, R: Pairs, e: Entry, e': Entry, f: Entry, g: Entry, byKey: bool)
  {
    EntryRelated(h, m, R, e, f, byKey) && EntryRelated(h, m, R, e', f, byKey) && EntryRelated(h, m, R, e, g, byKey) ==>
      EntryRelated(h, m, R, e', g, byKey)
  }

  /** R relates all entries that could be partners, and entries that share a partner share all of them. */
  ghost predicate Interchangeable(h: Heap, m: Mode, R: Pairs, ea: seq<Entry>, eb: seq<Entry>, byKey: bool)
    requires Closed(h)
  {
    && (forall i, j :: 0 <= i < |ea| && 0 <= j < |eb| && EntryBisimilar(h, m, ea[i], eb[j], byKey) ==>
          EntryRelated(h, m, R, ea[i], eb[j], byKey))
    && (forall i, k, j, l :: 0 <= i < |ea| && 0 <= k < |ea| && 0 <= j < |eb| && 0 <= l < |eb| ==>
          Shares(h, m, R, ea[i], ea[k], eb[j], eb[l], byKey))
  }

  /** perm matches the entries, and where there is a choice it does not matter. */
  ghost predicate ClearMatching(h: Heap, m: Mode, R: Pairs, ea: seq<Entry>, eb: seq<Entry>, byKey: bool,
      perm: seq<nat>)
    requires Closed(h)
  {
    && |perm| == |ea| == |eb| && Matching(h, m, R, ea, eb, byKey, perm)
    && Interchangeable(h, m, R, ea, eb, byKey)
  }

  ghost predicate ClearEntries(h: Heap, m: Mode, R: Pairs, ea: seq<Entry>, eb: seq<Entry>, byKey: bool)
    requires Closed(h)
  {
    exists perm :: ClearMatching(h, m, R, ea, eb, byKey, perm)
  }

  /** In the collections of a pair it does not matter which possible partner an entry takes. */
  ghost predicate ClearPair(h: Heap, m: Mode, R: Pairs, p: (Ref, Ref))
    requires Closed(h)
  {
    && p.0 < |h.objects| && p.1 < |h.objects|
    && var oa, ob := h.objects[p.0], h.objects[p.1];
    && (oa.mapData.Entries? && ob.mapData.Entries? ==>
        ClearEntries(h, m, R, oa.mapData.entries, ob.mapData.entries, true))
    && (oa.setData.Entries? && ob.setData.Entries? ==>
        ClearEntries(h, m, R, oa.setData.entries, ob.setData.entries, false))
  }

  /** R is a bisimulation in which entries of collections that share a possible partner are interchangeable, and along
      no path does an object meet two partners. */
  ghost predicate Straight(h: Heap, m: Mode, R: Pairs)
    requires Closed(h)
  {
    && Bisimulation(h, m, R)
    && (forall p :: p in R ==> ClearPair(h, m, R, p))
    && (forall c :: Chain(h, R, c) ==> OneToOne(c))
  }

  /** Such a relation holds the path to the values being compared, and the active pairs are on that path. */
  ghost predicate Expects(h: Heap, m: Mode, R: Pairs, c: Path, forward: Active, backward: Active)
    requires Closed(h)
  {
    && Straight(h, m, R) && Chain(h, R, c)
    && (forall a :: a in forward ==> (a, forward[a]) in c)
    && (forall b :: b in backward ==> (backward[b], b) in c)
  }

  /** The path ends with the pair being compared. */
  ghost predicate ExpectsPair(h: Heap, m: Mode, R: Pairs, c: Path, forward: Active, backward: Active, a: Ref, b: Ref)
    requires Closed(h)
  {
    Expects(h, m, R, c, forward, backward) && c != [] && c[|c| - 1] == (a, b)
  }

  /** The values are related, and the path goes on to them. */
  ghost predicate GoesOn(h: Heap, m: Mode, R: Pairs, c: Path, v: Value, w: Value)
    requires InHeap(h, v) && InHeap(h, w)
  {
    Related(h, m, R, v, w) && (v.Obj? && w.Obj? && v != w ==> Chain(h, R, c + [(v.r, w.r)]))
  }

  lemma {:induction false} ChainMore(h: Heap, R: Pairs, c: Path, q: (Ref, Ref))
    requires Chain(h, R, c) && q in R && (c != [] ==> Child(h, c[|c| - 1], q))
    ensures Chain(h, R, c + [q])
  {
    hide Child;
    var d := c + [q];
    forall i: nat
      ensures Link(h, d, i)
    {
      assert Link(h, c, i);
    }
  }

  /** Values under a key of a pair at the end of the path. */
  lemma {:induction false} PropGoesOn(h: Heap, m: Mode, R: Pairs, c: Path, a: Ref, b: Ref, k: Key)
    requires Closed(h) && Chain(h, R, c) && c != [] && c[|c| - 1] == (a, b) && a < |h.objects| && b < |h.objects|
    requires Related(h, m, R, Get(h, a, k), Get(h, b, k))
    ensures GoesOn(h, m, R, c, Get(h, a, k), Get(h, b, k))
  {
    hide Chain;
    var v, w := Get(h, a, k), Get(h, b, k);
    if v.Obj? && w.Obj? && v != w {
      assert ChildAt(h, (a, b), (v.r, w.r), k);
      ChainMore(h, R, c, (v.r, w.r));
    }
  }

  /** The keys and the values of entries of a pair at the end of the path. */
  lemma {:induction false} EntryGoesOn(h: Heap, m: Mode, R: Pairs, c: Path, p: (Ref, Ref), e: Entry, f: Entry)
    requires Closed(h) && Chain(h, R, c) && c != [] && c[|c| - 1] == p && EntryPair(h, p, e, f)
    requires InHeap(h, e.0) && InHeap(h, e.1) && InHeap(h, f.0) && InHeap(h, f.1)
    ensures Related(h, m, R, e.0, f.0) ==> GoesOn(h, m, R, c, e.0, f.0)
    ensures Related(h, m, R, e.1, f.1) ==> GoesOn(h, m, R, c, e.1, f.1)
  {
    hide Chain, EntryPair, Closed;
    if Related(h, m, R, e.0, f.0) && e.0.Obj? && e.0 != f.0 {
      assert EntryChild(h, p, (e.0.r, f.0.r));
      ChainMore(h, R, c, (e.0.r, f.0.r));
    }
    if Related(h, m, R, e.1, f.1) && e.1.Obj? && e.1 != f.1 {
      assert EntryChild(h, p, (e.1.r, f.1.r));
      ChainMore(h, R, c, (e.1.r, f.1.r));
    }
  }

  /** The pairs assumed and the relation expected are together a bisimulation, since active pairs are expected. */
  lemma {:induction false} UnionBisimulation(h: Heap, m: Mode, P: Pairs, B: Pairs, c: Path, forward: Active,
      backward: Active)
    requires Closed(h) && Justified(h, m, P, forward) && Expects(h, m, B, c, forward, backward)
    ensures Bisimulation(h, m, P + B)
  {
    hide Alike, Closed, ClearPair;
    forall p | p in P + B
      ensures Alike(h, m, P + B, p.0, p.1)
    {
      if p in P && !(p.0 in forward && forward[p.0] == p.1) {
        AlikeMono(h, m, P, P + B, p.0, p.1);
      } else {
        assert p in B || p in c;
        AlikeMono(h, m, B, P + B, p.0, p.1);
      }
    }
  }

  /** So an entry found equal is a possible partner. */
  lemma {:induction false} FoundIsPartner(h: Heap, m: Mode, P: Pairs, B: Pairs, c: Path, forward: Active,
      backward: Active, e: Entry, f: Entry, byKey: bool)
    requires Closed(h) && Justified(h, m, P, forward)
    requires Expects(h, m, B, c, forward, backward) && EntryRelated(h, m, P, e, f, byKey)
    ensures EntryBisimilar(h, m, e, f, byKey)
  {
    hide Bisimulation, Expects, Justified, EntryRelated, Closed;
    UnionBisimulation(h, m, P, B, c, forward, backward);
    EntryMono(h, m, P, P + B, e, f, byKey);
  }

  /** On the path the active pairs do not stand in the way of the next pair. */
  lemma {:induction false} NotBlocked(h: Heap, m: Mode, R: Pairs, c: Path, forward: Active, backward: Active, a: Ref,
      b: Ref)
    requires Closed(h) && Expects(h, m, R, c, forward, backward) && Chain(h, R, c + [(a, b)])
    ensures a in forward ==> forward[a] == b
    ensures b in backward ==> backward[b] == a
  {
    hide Bisimulation, Chain;
    var d := c + [(a, b)];
    assert OneToOne(d);
    if a in forward {
      var i :| 0 <= i < |c| && c[i] == (a, forward[a]);
      assert d[i] == c[i] && d[|c|] == (a, b);
    }
    if b in backward {
      var i :| 0 <= i < |c| && c[i] == (backward[b], b);
      assert d[i] == c[i] && d[|c|] == (a, b);
    }
  }

  lemma {:induction false} ExpectsMore(h: Heap, m: Mode, R: Pairs, c: Path, forward: Active, backward: Active, a: Ref,
      b: Ref)
    requires Closed(h) && Expects(h, m, R, c, forward, backward) && Chain(h, R, c + [(a, b)])
    ensures Expects(h, m, R, c + [(a, b)], forward[a := b], backward[b := a])
    ensures Alike(h, m, R, a, b) && ClearPair(h, m, R, (a, b))
  {
    hide Alike, ClearPair;
    var d := c + [(a, b)];
    assert d[|c|] == (a, b);
    assert forall x :: x in c ==> x in d;
  }

  /** Along the path of such a relation the answer is yes. */
  lemma {:induction false} StraightAnswer(h: Heap, m: Mode, B: Pairs, c: Path, v: Value, w: Value, s: State)
    requires Closed(h) && InHeap(h, v) && InHeap(h, w) && Fits(h, s) && Justified(h, m, s.pairs, s.forward)
    requires Expects(h, m, B, c, s.forward, s.backward) && GoesOn(h, m, B, c, v, w)
    ensures Answer(h, m, v, w, s).0
    decreases AllPairs(h) - s.pairs, 1, 0
  {
    hide Closed, Justified, Fits, Expects, Chain, AnswerPair;
    if v.Obj? && w.Obj? && v != w { StraightPair(h, m, B, c, v.r, w.r, s); }
  }

  lemma {:induction false} StraightPair(h: Heap, m: Mode, B: Pairs, c: Path, a: Ref, b: Ref, s: State)
    requires Closed(h) && a < |h.objects| && b < |h.objects| && Fits(h, s) && Justified(h, m, s.pairs, s.forward)
    requires Expects(h, m, B, c, s.forward, s.backward) && Chain(h, B, c + [(a, b)])
    ensures AnswerPair(h, m, a, b, s).0
    decreases AllPairs(h) - s.pairs, 0, 0
  {
    hide Closed, Justified, Alike, Expects, Chain, ClearPair, AnswerObjects;
    NotBlocked(h, m, B, c, s.forward, s.backward, a, b);
    ExpectsMore(h, m, B, c, s.forward, s.backward, a, b);
    if (a, b) !in s.pairs {
      EnteredFits(h, s, a, b);
      EnterJustified(h, m, s.pairs, s.forward, a, b);
      StraightObjects(h, m, B, c + [(a, b)], a, b, Entered(s, a, b));
    }
  }

  lemma {:induction false} StraightObjects(h: Heap, m: Mode, B: Pairs, c: Path, a: Ref, b: Ref, s: State)
    requires Closed(h) && a < |h.objects| && b < |h.objects| && Fits(h, s) && Justified(h, m, s.pairs, s.forward)
    requires ExpectsPair(h, m, B, c, s.forward, s.backward, a, b)
    requires Alike(h, m, B, a, b) && ClearPair(h, m, B, (a, b))
    ensures AnswerObjects(h, m, a, b, s).0
    decreases AllPairs(h) - s.pairs, 6, 0
  {
    hide Justified, Fits, EntriesMatch, CollectionMatch, OrdinaryMatch, ExpectsPair, ClearEntries;
    hide AnswerCollections, AnswerOrdinary;
    var oa, ob := h.objects[a], h.objects[b];
    if !oa.mapData.Absent? {
      StraightCollections(h, m, B, c, a, b, oa.mapData, ob.mapData, true, s);
    } else if !oa.setData.Absent? {
      StraightCollections(h, m, B, c, a, b, oa.setData, ob.setData, false, s);
    } else {
      StraightOrdinary(h, m, B, c, a, b, s);
    }
  }

  lemma {:induction false} StraightOrdinary(h: Heap, m: Mode, B: Pairs, c: Path, a: Ref, b: Ref, s: State)
    requires Closed(h) && a < |h.objects| && b < |h.objects| && Fits(h, s) && Justified(h, m, s.pairs, s.forward)
    requires ExpectsPair(h, m, B, c, s.forward, s.backward, a, b) && OrdinaryMatch(h, m, B, a, b)
    ensures AnswerOrdinary(h, m, a, b, s).0
    decreases AllPairs(h) - s.pairs, 5, 0
  {
    hide Closed, Justified, Fits, PropsRelated, StringKeys, SymbolKeys, ExpectsPair, AnswerProps;
    var oa, ob := h.objects[a], h.objects[b];
    StraightProps(h, m, B, c, a, b, StringKeys(oa), StringKeys(ob), 0, s);
    if m.strict {
      SoundProps(h, m, a, b, StringKeys(oa), StringKeys(ob), s);
      var t := AnswerProps(h, m, a, b, StringKeys(oa), StringKeys(ob), 0, s).1;
      StraightProps(h, m, B, c, a, b, SymbolKeys(oa), SymbolKeys(ob), 0, t);
    }
  }

  lemma {:induction false} StraightProps(h: Heap, m: Mode, B: Pairs, c: Path, a: Ref, b: Ref, ka: seq<Key>,
      kb: seq<Key>, i: nat, s: State)
    requires Closed(h) && a < |h.objects| && b < |h.objects| && Fits(h, s) && Justified(h, m, s.pairs, s.forward)
    requires ExpectsPair(h, m, B, c, s.forward, s.backward, a, b) && PropsRelated(h, m, B, a, b, ka, kb) && i <= |ka|
    ensures AnswerProps(h, m, a, b, ka, kb, i, s).0
    decreases AllPairs(h) - s.pairs, 4, |ka| - i
  {
    hide Justified, Fits, Related, Straight, Chain, GoesOn, Answer;
    if i < |ka| {
      var v, w := Get(h, a, ka[i]), Get(h, b, ka[i]);
      PropGoesOn(h, m, B, c, a, b, ka[i]);
      StraightAnswer(h, m, B, c, v, w, s);
      SoundAnswer(h, m, v, w, s);
      StraightProps(h, m, B, c, a, b, ka, kb, i + 1, Answer(h, m, v, w, s).1);
    }
  }

  ghost predicate ClearStorage(h: Heap, m: Mode, R: Pairs, sa: Storage, sb: Storage, byKey: bool)
    requires Closed(h)
  {
    sa.Entries? && sb.Entries? && ClearEntries(h, m, R, sa.entries, sb.entries, byKey)
  }

  /** The entries belong to the pair at the end of an expected path, and plan gives their clear partners. */
  ghost predicate ExpectsEntries(h: Heap, m: Mode, B: Pairs, c: Path, s: State, p: (Ref, Ref), ea: seq<Entry>,
      eb: seq<Entry>, byKey: bool, plan: seq<nat>)
    requires Closed(h)
  {
    && Expects(h, m, B, c, s.forward, s.backward) && c != [] && c[|c| - 1] == p
    && (forall i, j :: 0 <= i < |ea| && 0 <= j < |eb| ==> EntryPair(h, p, ea[i], eb[j]))
    && ClearMatching(h, m, B, ea, eb, byKey, plan)
  }

  lemma {:induction false} StraightCollections(h: Heap, m: Mode, B: Pairs, c: Path, a: Ref, b: Ref, sa: Storage,
      sb: Storage, byKey: bool, s: State)
    requires Closed(h) && a < |h.objects| && b < |h.objects| && Fits(h, s) && Justified(h, m, s.pairs, s.forward)
    requires StorageInHeap(h, sa) && StorageInHeap(h, sb)
    requires (sa, sb) == if byKey then (h.objects[a].mapData, h.objects[b].mapData)
                         else (h.objects[a].setData, h.objects[b].setData)
    requires ExpectsPair(h, m, B, c, s.forward, s.backward, a, b) && ClearStorage(h, m, B, sa, sb, byKey)
    requires CollectionMatch(h, m, B, a, b)
    ensures AnswerCollections(h, m, a, b, sa, sb, byKey, s).0
    decreases AllPairs(h) - s.pairs, 5, 0
  {
    hide Closed, Justified, Fits, PropsRelated, PublicKeys, ClearMatching, Expects, AnswerEntries, AnswerProps;
    var oa, ob := h.objects[a], h.objects[b];
    var ea, eb := sa.entries, sb.entries;
    var plan :| ClearMatching(h, m, B, ea, eb, byKey, plan);
    PlanSize(h, m, B, ea, eb, byKey, plan);
    StraightEntries(h, m, B, c, (a, b), ea, eb, byKey, plan, 0, NoneUsed(|eb|), s);
    SoundEntries(h, m, ea, eb, byKey, s);
    var t := AnswerEntries(h, m, ea, eb, byKey, 0, NoneUsed(|eb|), s).1;
    StraightProps(h, m, B, c, a, b, PublicKeys(oa, |oa.keys|), PublicKeys(ob, |ob.keys|), 0, t);
  }

  lemma {:induction false} PlanSize(h: Heap, m: Mode, B: Pairs, ea: seq<Entry>, eb: seq<Entry>, byKey: bool,
      plan: seq<nat>)
    requires Closed(h) && ClearMatching(h, m, B, ea, eb, byKey, plan)
    ensures |plan| == |ea| == |eb| && Injective(plan, |eb|)
  {
  }

  /** The partners planned for the entries before i are taken, those of the others free. */
  ghost predicate Free(used: seq<bool>, plan: seq<nat>, i: nat)
  {
    forall k :: 0 <= k < |plan| ==> plan[k] < |used| && (used[plan[k]] <==> k < i)
  }

  lemma {:induction false} StraightEntries(h: Heap, m: Mode, B: Pairs, c: Path, p: (Ref, Ref), ea: seq<Entry>,
      eb: seq<Entry>, byKey: bool, plan: seq<nat>, i: nat, used: seq<bool>, s: State)
    requires Closed(h) && StorageInHeap(h, Entries(ea)) && StorageInHeap(h, Entries(eb))
    requires Fits(h, s) && Justified(h, m, s.pairs, s.forward)
    requires ExpectsEntries(h, m, B, c, s, p, ea, eb, byKey, plan)
    requires i <= |ea| && |used| == |eb| && |plan| == |ea| && Free(used, plan, i)
    ensures AnswerEntries(h, m, ea, eb, byKey, i, used, s).0
    decreases AllPairs(h) - s.pairs, 4, |ea| - i
  {
    hide Closed, Justified, Fits, Expects, ClearMatching, FirstPartner, EntryPair, EntryRelated;
    if i < |ea| {
      PlanSize(h, m, B, ea, eb, byKey, plan);
      PartnerExpected(h, m, B, c, s, p, ea, eb, byKey, plan, i);
      StraightPartner(h, m, B, c, ea[i], eb, byKey, used, 0, plan[i], s);
      SoundPartner(h, m, ea[i], eb, byKey, used, 0, s);
      var (_, j, t) := FirstPartner(h, m, ea[i], eb, byKey, used, 0, s);
      var plan' := Replan(h, m, B, ea, eb, byKey, plan, i, used, j);
      StraightEntries(h, m, B, c, p, ea, eb, byKey, plan', i + 1, used[j := true], t);
    }
  }

  /** When entry i takes j, the entry that was to have j can have i's partner. */
  lemma {:induction false} Replan(h: Heap, m: Mode, B: Pairs, ea: seq<Entry>, eb: seq<Entry>, byKey: bool,
      plan: seq<nat>, i: nat, used: seq<bool>, j: nat)
      returns (plan': seq<nat>)
    requires Closed(h) && ClearMatching(h, m, B, ea, eb, byKey, plan) && |used| == |eb| && Free(used, plan, i)
    requires i < |ea| && j < |eb| && !used[j] && EntryBisimilar(h, m, ea[i], eb[j], byKey)
    ensures |plan'| == |ea| && ClearMatching(h, m, B, ea, eb, byKey, plan') && Free(used[j := true], plan', i + 1)
  {
    hide Closed, EntryRelated, EntryBisimilar, Free, Interchangeable, Injective;
    MatchingIsOnto(plan, |eb|, j);
    var k :| 0 <= k < |eb| && plan[k] == j;
    Exchange(plan, |eb|, used, i, k);
    PartnersExchange(h, m, B, ea, eb, byKey, plan, i, k);
    plan' := plan[k := plan[i]][i := j];
    forall x | 0 <= x < |plan'|
      ensures EntryRelated(h, m, B, ea[x], eb[plan'[x]], byKey)
    {
      assert EntryRelated(h, m, B, ea[x], eb[plan[x]], byKey);
    }
  }

  lemma {:induction false} Exchange(plan: seq<nat>, n: nat, used: seq<bool>, i: nat, k: nat)
    requires Injective(plan, n) && i < |plan| && k < |plan| && |used| == n && Free(used, plan, i) && !used[plan[k]]
    ensures var plan' := plan[k := plan[i]][i := plan[k]];
            Injective(plan', n) && Free(used[plan[k] := true], plan', i + 1)
  {
  }

  lemma {:induction false} PartnersExchange(h: Heap, m: Mode, B: Pairs, ea: seq<Entry>, eb: seq<Entry>, byKey: bool,
      plan: seq<nat>, i: nat, k: nat)
    requires Closed(h) && ClearMatching(h, m, B, ea, eb, byKey, plan) && i < |plan| && k < |plan|
    requires plan[k] < |eb| && EntryBisimilar(h, m, ea[i], eb[plan[k]], byKey)
    ensures plan[i] < |eb|
    ensures EntryRelated(h, m, B, ea[i], eb[plan[k]], byKey) && EntryRelated(h, m, B, ea[k], eb[plan[i]], byKey)
  {
    hide Closed, EntryRelated, EntryBisimilar;
    assert Shares(h, m, B, ea[i], ea[k], eb[plan[k]], eb[plan[i]], byKey);
  }

  /** A partner for e that is certain to be accepted. */
  ghost predicate Certain(h: Heap, m: Mode, B: Pairs, c: Path, s: State, e: Entry, eb: seq<Entry>, byKey: bool,
      want: nat)
    requires Closed(h)
  {
    Expects(h, m, B, c, s.forward, s.backward) && want < |eb| && EntryExpected(h, m, B, c, e, eb[want], byKey)
  }

  ghost predicate EntryExpected(h: Heap, m: Mode, B: Pairs, c: Path, e: Entry, f: Entry, byKey: bool)
  {
    && InHeap(h, e.0) && InHeap(h, e.1) && InHeap(h, f.0) && InHeap(h, f.1)
    && (byKey ==> GoesOn(h, m, B, c, e.0, f.0)) && GoesOn(h, m, B, c, e.1, f.1)
  }

  lemma {:induction false} PartnerExpected(h: Heap, m: Mode, B: Pairs, c: Path, s: State, p: (Ref, Ref), ea: seq<Entry>,
      eb: seq<Entry>, byKey: bool, plan: seq<nat>, i: nat)
    requires Closed(h) && ExpectsEntries(h, m, B, c, s, p, ea, eb, byKey, plan) && i < |ea| == |plan|
    ensures Certain(h, m, B, c, s, ea[i], eb, byKey, plan[i])
  {
    hide Straight, Chain, EntryPair, EntryBisimilar, Related, GoesOn, Closed;
    var want := plan[i];
    assert EntryRelated(h, m, B, ea[i], eb[want], byKey);
    assert EntryPair(h, p, ea[i], eb[want]);
    EntryGoesOn(h, m, B, c, p, ea[i], eb[want]);
  }

  lemma {:induction false} StraightPartner(h: Heap, m: Mode, B: Pairs, c: Path, e: Entry, eb: seq<Entry>, byKey: bool,
      used: seq<bool>, k: nat, want: nat, s: State)
    requires Closed(h) && EntryInHeap(h, e) && StorageInHeap(h, Entries(eb))
    requires Fits(h, s) && Justified(h, m, s.pairs, s.forward) && Certain(h, m, B, c, s, e, eb, byKey, want)
    requires k <= want < |eb| == |used| && !used[want]
    ensures var (found, j, _) := FirstPartner(h, m, e, eb, byKey, used, k, s);
            found && j <= want && EntryBisimilar(h, m, e, eb[j], byKey)
    decreases AllPairs(h) - s.pairs, 3, |eb| - k
  {
    hide Closed, Justified, Fits, EntryRelated, Expects, EntryBisimilar, EntryExpected, AnswerEntry;
    if k == want { StraightEntry(h, m, B, c, e, eb[k], byKey, s); }
    if !used[k] {
      var (r, t) := AnswerEntry(h, m, e, eb[k], byKey, s);
      SoundEntry(h, m, e, eb[k], byKey, s);
      if r { FoundIsPartner(h, m, t.pairs, B, c, s.forward, s.backward, e, eb[k], byKey); }
    }
    if k < want { StraightPartner(h, m, B, c, e, eb, byKey, used, k + 1, want, s); }
  }

  lemma {:induction false} StraightEntry(h: Heap, m: Mode, B: Pairs, c: Path, e: Entry, f: Entry, byKey: bool, s: State)
    requires Closed(h) && EntryInHeap(h, e) && EntryInHeap(h, f) && Fits(h, s) && Justified(h, m, s.pairs, s.forward)
    requires Expects(h, m, B, c, s.forward, s.backward) && EntryExpected(h, m, B, c, e, f, byKey)
    ensures AnswerEntry(h, m, e, f, byKey, s).0
    decreases AllPairs(h) - s.pairs, 2, 0
  {
    hide Closed, Justified, Fits, Expects, GoesOn, Answer;
    if byKey {
      StraightAnswer(h, m, B, c, e.0, f.0, s);
      SoundAnswer(h, m, e.0, f.0, s);
      StraightAnswer(h, m, B, c, e.1, f.1, Answer(h, m, e.0, f.0, s).1);
    } else {
      StraightAnswer(h, m, B, c, e.1, f.1, s);
    }
  }

  // ---------- The whole comparison ----------

  ghost function Start(): (s: State)
    ensures forall h :: Fits(h, s)
  {
    State({}, map[], map[])
  }

  /** A yes comes with a bisimulation that relates the values. */
  lemma {:induction false} YesIsBisimilar(h: Heap, m: Mode, v: Value, w: Value)
    requires Closed(h) && InHeap(h, v) && InHeap(h, w)
    ensures var (r, t) := Answer(h, m, v, w, Start());
            r ==> Bisimulation(h, m, t.pairs) && Related(h, m, t.pairs, v, w)
  {
    hide Closed, Alike, Related, Answer;
    SoundAnswer(h, m, v, w, Start());
  }

  /** After a yes the values agree along all paths. */
  lemma {:induction false} YesAgrees(h: Heap, m: Mode, v: Value, w: Value)
    requires Closed(h) && InHeap(h, v) && InHeap(h, w) && Answer(h, m, v, w, Start()).0
    ensures ObjectPaths.AgreeEverywhere(h, m, v, w)
  {
    hide Closed, Bisimulation, Related, Answer, ObjectPaths.AgreeEverywhere;
    YesIsBisimilar(h, m, v, w);
    ObjectPaths.BisimilarByPaths(h, m, v, w);
  }

  /** Two primitives: symbols by their descriptions, NaN with itself, everything else by the equality of the mode. */
  lemma {:induction false} PrimitivesAnswer(h: Heap, m: Mode, p: Prim, q: Prim, s: State)
    requires Closed(h) && Fits(h, s)
    ensures var (r, t) := Answer(h, m, Prim(p), Prim(q), s);
            && t == s
            && (p.Symbol? && q.Symbol? ==> (r <==> p.description == q.description))
            && (p.NaN? && q.NaN? ==> r)
            && (!(p.Symbol? && q.Symbol?) && !(p.NaN? && q.NaN?) && m.strict ==> (r <==> h.strictEq(p, q)))
            && (!(p.Symbol? && q.Symbol?) && !(p.NaN? && q.NaN?) && !m.strict ==> (r <==> h.looseEq(p, q)))
  {
    hide Closed, Inverse;
  }

  /** Some such relation relates the values. */
  ghost predicate MustBeEqual(h: Heap, m: Mode, v: Value, w: Value)
    requires Closed(h) && InHeap(h, v) && InHeap(h, w)
  {
    exists B :: Straight(h, m, B) && Related(h, m, B, v, w)
  }

  lemma {:induction false} StraightIsYes(h: Heap, m: Mode, v: Value, w: Value)
    requires Closed(h) && InHeap(h, v) && InHeap(h, w) && MustBeEqual(h, m, v, w)
    ensures Answer(h, m, v, w, Start()).0
  {
    hide Closed, Alike, Related, Straight, Answer;
    var B :| Straight(h, m, B) && Related(h, m, B, v, w);
    StartsOn(h, m, B, v, w);
    StraightAnswer(h, m, B, [], v, w, Start());
  }

  lemma {:induction false} StartsOn(h: Heap, m: Mode, B: Pairs, v: Value, w: Value)
    requires Closed(h) && InHeap(h, v) && InHeap(h, w) && Straight(h, m, B) && Related(h, m, B, v, w)
    ensures Expects(h, m, B, [], map[], map[]) && GoesOn(h, m, B, [], v, w)
  {
    hide Straight, Child;
    if v.Obj? && w.Obj? && v != w { ChainMore(h, B, [], (v.r, w.r)); }
  }

  // ---------- The comparison ----------

  /** Compares two values. The active pairs are the same afterwards; when the answer is yes, the values are related
      under pairs that are all justified. */
  method Compare(h: Heap, m: Mode, v: Value, w: Value, memo: Memo) returns (r: bool)
    requires Closed(h) && Fits(h, memo.Now()) && InHeap(h, v) && InHeap(h, w)
    modifies memo
    ensures (r, memo.Now()) == Answer(h, m, v, w, old(memo.Now()))
    ensures Extends(h, old(memo.Now()), memo.Now())
    ensures r && Justified(h, m, old(memo.pairs), old(memo.forward)) ==>
              Justified(h, m, memo.pairs, memo.forward) && Related(h, m, memo.pairs, v, w)
    decreases AllPairs(h) - memo.pairs, 1
  {
    hide Closed, Justified, Inverse, AnswerPair;
    ghost var s := memo.Now();
    match (v, w) {
      case (Obj(a), Obj(b)) =>
        if a == b {
          r := true;
        } else if h.objects[a].kind.Function? || h.objects[b].kind.Function? {
          r := false;
        } else {
          r := ComparePair(h, m, a, b, memo);
        }
      case (Prim(x), Prim(y)) =>
        r := PrimEqual(h, m, x, y);
      case _ =>
        r := false;
    }
    if Justified(h, m, s.pairs, s.forward) { SoundAnswer(h, m, v, w, s); }
  }

  method ComparePair(h: Heap, m: Mode, a: Ref, b: Ref, memo: Memo) returns (r: bool)
    requires Closed(h) && Fits(h, memo.Now()) && a < |h.objects| && b < |h.objects|
    modifies memo
    ensures (r, memo.Now()) == AnswerPair(h, m, a, b, old(memo.Now()))
    ensures r && Justified(h, m, old(memo.pairs), old(memo.forward)) ==>
              Justified(h, m, memo.pairs, memo.forward) && (a, b) in memo.pairs
    decreases AllPairs(h) - memo.pairs, 0
  {
    hide Closed, Inverse, Justified, AnswerObjects;
    ghost var s := memo.Now();
    if Justified(h, m, s.pairs, s.forward) { SoundPair(h, m, a, b, s); }
    var known, equal := memo.Enter(a, b);
    if known { return equal; }
    EnteredFits(h, s, a, b);
    Unchanged(s.forward, a, b);
    Unchanged(s.backward, b, a);
    r := CompareObjects(h, m, a, b, memo);
    memo.Leave(a, b);
  }

  lemma {:induction false} Unchanged(f: Active, a: Ref, b: Ref)
    requires a !in f
    ensures f[a := b] - {a} == f
  {
  }

  /** The objects of a pair that has been entered. */
  method CompareObjects(h: Heap, m: Mode, a: Ref, b: Ref, memo: Memo) returns (r: bool)
    requires Closed(h) && Fits(h, memo.Now()) && a < |h.objects| && b < |h.objects|
    modifies memo
    ensures (r, memo.Now()) == AnswerObjects(h, m, a, b, old(memo.Now()))
    ensures r && Justified(h, m, old(memo.pairs), old(memo.forward)) ==>
              Justified(h, m, memo.pairs, memo.forward) && Alike(h, m, memo.pairs, a, b)
    decreases AllPairs(h) - memo.pairs, 6
  {
    hide Inverse, Justified, Alike, AnswerCollections, AnswerOrdinary;
    ghost var s := memo.Now();
    if Justified(h, m, s.pairs, s.forward) { SoundObjects(h, m, a, b, s); }
    var oa, ob := h.objects[a], h.objects[b];
    if m.strict && !m.skipPrototype && oa.proto != ob.proto { return false; }
    if !oa.mapData.Absent? || !ob.mapData.Absent? {
      if oa.mapData.Absent? || ob.mapData.Absent? { return false; }
      if oa.weakMap || ob.weakMap { return false; }
      r := CompareCollections(h, m, a, b, oa.mapData, ob.mapData, true, memo);
    } else if !oa.setData.Absent? || !ob.setData.Absent? {
      if oa.setData.Absent? || ob.setData.Absent? { return false; }
      if oa.weakSet || ob.weakSet { return false; }
      r := CompareCollections(h, m, a, b, oa.setData, ob.setData, false, memo);
    } else {
      r := CompareOrdinary(h, m, a, b, memo);
    }
  }

  method CompareOrdinary(h: Heap, m: Mode, a: Ref, b: Ref, memo: Memo) returns (r: bool)
    requires Closed(h) && Fits(h, memo.Now()) && a < |h.objects| && b < |h.objects|
    modifies memo
    ensures (r, memo.Now()) == AnswerOrdinary(h, m, a, b, old(memo.Now()))
    ensures r && Justified(h, m, old(memo.pairs), old(memo.forward)) ==>
              Justified(h, m, memo.pairs, memo.forward) && OrdinaryMatch(h, m, memo.pairs, a, b)
    decreases AllPairs(h) - memo.pairs, 5
  {
    hide Closed, Inverse, Justified, OrdinaryMatch, AnswerProps, StringKeys, SymbolKeys;
    ghost var s := memo.Now();
    if Justified(h, m, s.pairs, s.forward) { SoundOrdinary(h, m, a, b, s); }
    var oa, ob := h.objects[a], h.objects[b];
    if oa.kind.Array? != ob.kind.Array? { return false; }
    if oa.kind.Array? && oa.kind.length != ob.kind.length { return false; }
    if oa.kind.Arguments? != ob.kind.Arguments? { return false; }
    r := CompareProps(h, m, a, b, StringKeys(oa), StringKeys(ob), memo);
    if r && m.strict { r := CompareProps(h, m, a, b, SymbolKeys(oa), SymbolKeys(ob), memo); }
  }

  /** The same number of keys, each of them on the other side, with equal values. */
  method CompareProps(h: Heap, m: Mode, a: Ref, b: Ref, ka: seq<Key>, kb: seq<Key>, memo: Memo) returns (r: bool)
    requires Closed(h) && Fits(h, memo.Now()) && a < |h.objects| && b < |h.objects|
    modifies memo
    ensures (r, memo.Now()) == AnswerProps(h, m, a, b, ka, kb, 0, old(memo.Now()))
    ensures r && Justified(h, m, old(memo.pairs), old(memo.forward)) ==>
              Justified(h, m, memo.pairs, memo.forward) && PropsRelated(h, m, memo.pairs, a, b, ka, kb)
    decreases AllPairs(h) - memo.pairs, 4
  {
    hide Inverse, Justified, PropsRelated, Answer;
    ghost var s := memo.Now();
    if Justified(h, m, s.pairs, s.forward) { SoundProps(h, m, a, b, ka, kb, s); }
    if |ka| != |kb| { return false; }
    for i := 0 to |ka|
      invariant Extends(h, s, memo.Now())
      invariant AnswerProps(h, m, a, b, ka, kb, 0, s) == AnswerProps(h, m, a, b, ka, kb, i, memo.Now())
    {
      if ka[i] !in kb { return false; }
      var same := Compare(h, m, Get(h, a, ka[i]), Get(h, b, ka[i]), memo);
      if !same { return false; }
    }
    r := true;
  }

  /** Sets and Maps: the entries in some order, then the other properties. */
  method CompareCollections(h: Heap, m: Mode, a: Ref, b: Ref, sa: Storage, sb: Storage, byKey: bool,
      memo: Memo) returns (r: bool)
    requires Closed(h) && Fits(h, memo.Now()) && a < |h.objects| && b < |h.objects|
    requires StorageInHeap(h, sa) && StorageInHeap(h, sb)
    modifies memo
    ensures (r, memo.Now()) == AnswerCollections(h, m, a, b, sa, sb, byKey, old(memo.Now()))
    ensures r && Justified(h, m, old(memo.pairs), old(memo.forward)) ==>
              Justified(h, m, memo.pairs, memo.forward) && StorageMatch(h, m, memo.pairs, sa, sb, byKey)
    ensures r && Justified(h, m, old(memo.pairs), old(memo.forward)) ==> CollectionMatch(h, m, memo.pairs, a, b)
    decreases AllPairs(h) - memo.pairs, 5
  {
    hide Closed, Inverse, Justified, StorageMatch, CollectionMatch, PublicKeys, AnswerProps, AnswerEntries, NoneUsed;
    ghost var s := memo.Now();
    if Justified(h, m, s.pairs, s.forward) { SoundCollections(h, m, a, b, sa, sb, byKey, s); }
    if !sa.Entries? || !sb.Entries? { return false; }
    r := CompareEntries(h, m, sa.entries, sb.entries, byKey, memo);
    if r {
      var oa, ob := h.objects[a], h.objects[b];
      r := CompareProps(h, m, a, b, PublicKeys(oa, |oa.keys|), PublicKeys(ob, |ob.keys|), memo);
    }
  }

  /** Each entry in turn takes the first free partner that equals it. */
  method CompareEntries(h: Heap, m: Mode, ea: seq<Entry>, eb: seq<Entry>, byKey: bool, memo: Memo) returns (r: bool)
    requires Closed(h) && Fits(h, memo.Now())
    requires StorageInHeap(h, Entries(ea)) && StorageInHeap(h, Entries(eb))
    modifies memo
    ensures |ea| != |eb| ==> !r && memo.Now() == old(memo.Now())
    ensures |ea| == |eb| ==>
              (r, memo.Now()) == AnswerEntries(h, m, ea, eb, byKey, 0, NoneUsed(|eb|), old(memo.Now()))
    ensures r && Justified(h, m, old(memo.pairs), old(memo.forward)) ==>
              Justified(h, m, memo.pairs, memo.forward) && EntriesMatch(h, m, memo.pairs, ea, eb, byKey)
    decreases AllPairs(h) - memo.pairs, 4
  {
    hide Closed, Inverse, Justified, EntriesMatch, FirstPartner, NoneUsed;
    ghost var s := memo.Now();
    if |ea| != |eb| { return false; }
    if Justified(h, m, s.pairs, s.forward) { SoundEntries(h, m, ea, eb, byKey, s); }
    var used := NoneUsed(|eb|);
    for i := 0 to |ea|
      invariant Extends(h, s, memo.Now()) && |used| == |eb|
      invariant AnswerEntries(h, m, ea, eb, byKey, 0, NoneUsed(|eb|), s) ==
                AnswerEntries(h, m, ea, eb, byKey, i, used, memo.Now())
    {
      var found, j := FindPartner(h, m, ea[i], eb, used, byKey, memo);
      if !found { return false; }
      used := used[j := true];
    }
    r := true;
  }

  /** Every try works on a copy of the memo, which replaces the memo when it succeeds and is dropped when it fails. */
  method FindPartner(h: Heap, m: Mode, e: Entry, eb: seq<Entry>, used: seq<bool>, byKey: bool,
      memo: Memo) returns (found: bool, j: nat)
    requires Closed(h) && Fits(h, memo.Now())
    requires EntryInHeap(h, e) && StorageInHeap(h, Entries(eb)) && |used| == |eb|
    modifies memo
    ensures (found, j, memo.Now()) == FirstPartner(h, m, e, eb, byKey, used, 0, old(memo.Now()))
    ensures !found ==> memo.Now() == old(memo.Now())
    ensures found && Justified(h, m, old(memo.pairs), old(memo.forward)) ==>
              Justified(h, m, memo.pairs, memo.forward) && EntryRelated(h, m, memo.pairs, e, eb[j], byKey)
    decreases AllPairs(h) - memo.pairs, 3
  {
    hide Closed, Inverse, Justified, EntryRelated, AnswerEntry;
    ghost var s := memo.Now();
    if Justified(h, m, s.pairs, s.forward) { SoundPartner(h, m, e, eb, byKey, used, 0, s); }
    for k := 0 to |eb|
      invariant memo.Now() == s
      invariant FirstPartner(h, m, e, eb, byKey, used, 0, s) == FirstPartner(h, m, e, eb, byKey, used, k, s)
    {
      if !used[k] {
        var candidate := new Memo.Copy(memo);
        var same := CompareEntry(h, m, e, eb[k], byKey, candidate);
        if same {
          memo.Assign(candidate);
          return true, k;
        }
      }
    }
    return false, 0;
  }

  method CompareEntry(h: Heap, m: Mode, e: Entry, f: Entry, byKey: bool, memo: Memo) returns (r: bool)
    requires Closed(h) && Fits(h, memo.Now()) && EntryInHeap(h, e) && EntryInHeap(h, f)
    modifies memo
    ensures (r, memo.Now()) == AnswerEntry(h, m, e, f, byKey, old(memo.Now()))
    ensures r && Justified(h, m, old(memo.pairs), old(memo.forward)) ==>
              Justified(h, m, memo.pairs, memo.forward) && EntryRelated(h, m, memo.pairs, e, f, byKey)
    decreases AllPairs(h) - memo.pairs, 2
  {
    hide Closed, Inverse, Justified, EntryRelated, Answer;
    ghost var s := memo.Now();
    if Justified(h, m, s.pairs, s.forward) { SoundEntry(h, m, e, f, byKey, s); }
    if byKey {
      var same := Compare(h, m, e.0, f.0, memo);
      if !same { return false; }
    }
    r := Compare(h, m, e.1, f.1, memo);
  }

  /** When the answer is yes, the pairs assumed are a bisimulation that relates the values, which agree along all paths.
      It is yes whenever the values are related by a bisimulation in which entries that share a partner are
      interchangeable and along whose paths no object meets two partners. */
  method DeepEqual(h: Heap, m: Mode, v: Value, w: Value) returns (r: bool, memo: Memo)
    requires Closed(h) && InHeap(h, v) && InHeap(h, w)
    ensures fresh(memo) && memo.forward == map[] && memo.backward == map[]
    ensures (r, memo.Now()) == Answer(h, m, v, w, Start())
    ensures r ==> Bisimulation(h, m, memo.pairs) && Related(h, m, memo.pairs, v, w)
    ensures MustBeEqual(h, m, v, w) ==> r
    ensures r ==> ObjectPaths.AgreeEverywhere(h, m, v, w)
  {
    hide Closed, Alike, Related, Straight, Answer;
    memo := new Memo();
    r := Compare(h, m, v, w, memo);
    if MustBeEqual(h, m, v, w) { StraightIsYes(h, m, v, w); }
    if r { YesAgrees(h, m, v, w); }
  }
}
