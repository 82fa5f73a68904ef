/** Equality of object graphs seen from outside: what is found at the ends of all paths of keys and entries. */
module ObjectPaths {
  import opened ObjectGraph

  // ---------- Paths ----------

  /** To the value of a property, or to the key or the value of an entry of a collection. */
  datatype Move = Prop(k: Key) | EntryKey(i: nat) | EntryValue(i: nat)

  /** The keys under which collections keep their storage. */
  const STORAGE_KEYS := {"__map_data", "__map_orig_keys", "__set_data"}

  predicate IsCollection(o: Object)
  {
    !o.mapData.Absent? || !o.setData.Absent?
  }

  function StorageOf(o: Object): (s: Storage)
  {
    if o.mapData.Absent? then o.setData else o.mapData
  }

  /** The properties that count: own enumerable string keys, in strict mode symbols; of a collection the string keys
      that do not hold its storage. */
  predicate Counts(m: Mode, o: Object, k: Key)
  {
    match k
    case Str(n) => n in o.keys && !(IsCollection(o) && n in STORAGE_KEYS)
    case Sym(s) => m.strict && !IsCollection(o) && s in o.symbols
  }

  predicate Has(h: Heap, m: Mode, r: Ref, mv: Move)
    requires r < |h.objects|
  {
    var o := h.objects[r];
    match mv
    case Prop(k) => Counts(m, o, k)
    case EntryKey(i) => o.mapData.Entries? && i < |o.mapData.entries|
    case EntryValue(i) => StorageOf(o).Entries? && i < |StorageOf(o).entries|
  }

  function Target(h: Heap, m: Mode, r: Ref, mv: Move): (v: Value)
    requires r < |h.objects| && Has(h, m, r, mv)
  {
    match mv
    case Prop(k) => Get(h, r, k)
    case EntryKey(i) => h.objects[r].mapData.entries[i].0
    case EntryValue(i) => StorageOf(h.objects[r]).entries[i].1
  }

  /** For every pair of collections, the partners of the entries of the first. */
  type Guide = map<(Ref, Ref), seq<nat>>

  /** The same move on the other side. */
  function Across(g: Guide, a: Ref, b: Ref, mv: Move): (mv': Move)
  {
    if mv.Prop? || (a, b) !in g || mv.i >= |g[(a, b)]| then mv
    else if mv.EntryKey? then EntryKey(g[(a, b)][mv.i])
    else EntryValue(g[(a, b)][mv.i])
  }

  // ---------- Two values at the ends of a path ----------

  /** Primitives: symbols by description, NaN with itself, everything else by the runtime's strict or loose equality. */
  predicate SameLeaf(h: Heap, m: Mode, p: Prim, q: Prim)
  {
    || (p.Symbol? && q.Symbol? && p.description == q.description)
    || (p.NaN? && q.NaN?)
    || (!(p.Symbol? && q.Symbol?) && if m.strict then h.strictEq(p, q) else h.looseEq(p, q))
  }

  /** The number of properties that count. */
  function KeyCount(o: Object): (n: nat)
  {
    if IsCollection(o) then |PublicKeys(o, |o.keys|)| else |o.keys|
  }

  /** The partners are all the entries of the other side, each of them once. */
  ghost predicate Pairing(g: Guide, a: Ref, b: Ref, n: nat)
  {
    (a, b) in g && |g[(a, b)]| == n && Injective(g[(a, b)], n)
  }

  /** Collections of the same kind, neither of them weak, with as many entries, which are paired off. */
  ghost predicate SameStorage(h: Heap, g: Guide, a: Ref, b: Ref)
    requires a < |h.objects| && b < |h.objects|
  {
    var oa, ob := h.objects[a], h.objects[b];
    && (oa.mapData.Absent? <==> ob.mapData.Absent?) && (oa.mapData.Absent? ==> !oa.weakSet && !ob.weakSet)
    && (!oa.mapData.Absent? ==> !oa.weakMap && !ob.weakMap)
    && var sa, sb := StorageOf(oa), StorageOf(ob);
    sa.Entries? && sb.Entries? && |sa.entries| == |sb.entries| && Pairing(g, a, b, |sa.entries|)
  }

  /** Two different objects show no difference by themselves. */
  ghost predicate SameSurface(h: Heap, m: Mode, g: Guide, a: Ref, b: Ref)
    requires a < |h.objects| && b < |h.objects|
  {
    var oa, ob := h.objects[a], h.objects[b];
    && !oa.kind.Function? && !ob.kind.Function?
    && (m.strict && !m.skipPrototype ==> oa.proto == ob.proto)
    && (IsCollection(oa) <==> IsCollection(ob)) && KeyCount(oa) == KeyCount(ob)
    && if IsCollection(oa) then SameStorage(h, g, a, b)
       else
         && (oa.kind.Array? <==> ob.kind.Array?) && (oa.kind.Array? ==> oa.kind.length == ob.kind.length)
         && (oa.kind.Arguments? <==> ob.kind.Arguments?)
         && (m.strict ==> |oa.symbols| == |ob.symbols|)
  }

  ghost predicate Same(h: Heap, m: Mode, g: Guide, v: Value, w: Value)
    requires InHeap(h, v) && InHeap(h, w)
  {
    match (v, w)
    case (Obj(a), Obj(b)) => a == b || SameSurface(h, m, g, a, b)
    case (Prim(p), Prim(q)) => SameLeaf(h, m, p, q)
    case _ => false
  }

  lemma {:induction false} TargetInHeap(h: Heap, m: Mode, r: Ref, mv: Move)
    requires Closed(h) && r < |h.objects| && Has(h, m, r, mv)
    ensures InHeap(h, Target(h, m, r, mv))
  {
    var o := h.objects[r];
    assert StorageInHeap(h, o.mapData) && StorageInHeap(h, o.setData);
  }

  /** Following the path on both sides, until it leaves the first side or both sides are one object: the other side can
      follow, and the values at its end are the same. */
  ghost predicate AgreeAlong(h: Heap, m: Mode, g: Guide, v: Value, w: Value, path: seq<Move>)
    requires Closed(h) && InHeap(h, v) && InHeap(h, w)
    decreases |path|
  {
    if path == [] then Same(h, m, g, v, w)
    else if v.Obj? && w.Obj? && v != w && Has(h, m, v.r, path[0]) then
      var mv := Across(g, v.r, w.r, path[0]);
      Has(h, m, w.r, mv) &&
      (TargetInHeap(h, m, v.r, path[0]); TargetInHeap(h, m, w.r, mv);
       AgreeAlong(h, m, g, Target(h, m, v.r, path[0]), Target(h, m, w.r, mv), path[1..]))
    else true
  }

  ghost predicate AgreeBy(h: Heap, m: Mode, g: Guide, v: Value, w: Value)
    requires Closed(h) && InHeap(h, v) && InHeap(h, w)
  {
    forall path :: AgreeAlong(h, m, g, v, w, path)
  }

  /** Some pairing of the entries of collections makes the values agree along all paths. */
  ghost predicate AgreeEverywhere(h: Heap, m: Mode, v: Value, w: Value)
    requires Closed(h) && InHeap(h, v) && InHeap(h, w)
  {
    exists g: Guide :: AgreeBy(h, m, g, v, w)
  }

  // ---------- Keys ----------

  lemma {:induction false} InPublicKeys(o: Object, n: nat, k: Key)
    requires n <= |o.keys|
    ensures k in PublicKeys(o, n) <==> k.Str? && !IsInternal(k.name) && k.name in o.keys[..n]
  {
    if n > 0 {
      InPublicKeys(o, n - 1, k);
      assert o.keys[..n] == o.keys[..n - 1] + [o.keys[n - 1]];
    }
  }

  /** The keys that the comparison goes through. */
  function KeysOf(o: Object): (ks: seq<Key>)
  {
    if IsCollection(o) then PublicKeys(o, |o.keys|) else StringKeys(o)
  }

  lemma {:induction false} CountsString(m: Mode, o: Object, k: Key)
    requires k.Str?
    ensures Counts(m, o, k) <==> k in KeysOf(o)
  {
    hide PublicKeys, StringKeys;
    InPublicKeys(o, |o.keys|, k);
    assert o.keys[..|o.keys|] == o.keys;
    if !IsCollection(o) && k.name in o.keys {
      var i :| 0 <= i < |o.keys| && o.keys[i] == k.name;
      assert StringKeys(o)[i] == k;
    }
  }

  lemma {:induction false} CountsSymbol(m: Mode, o: Object, k: Key)
    requires k.Sym?
    ensures Counts(m, o, k) <==> m.strict && !IsCollection(o) && k in SymbolKeys(o)
  {
    hide SymbolKeys;
    if k.id in o.symbols {
      var i :| 0 <= i < |o.symbols| && o.symbols[i] == k.id;
      assert SymbolKeys(o)[i] == k;
    }
  }

  lemma {:induction false} OnlyStrings(o: Object, k: Key)
    requires k in KeysOf(o)
    ensures k.Str?
  {
    hide PublicKeys, StringKeys;
    InPublicKeys(o, |o.keys|, k);
  }

  /** A key of one side is on the other side, with a related value. */
  lemma {:induction false} PropAt(h: Heap, m: Mode, R: Pairs, a: Ref, b: Ref, ka: seq<Key>, kb: seq<Key>, k: Key)
    requires Closed(h) && a < |h.objects| && b < |h.objects| && PropsRelated(h, m, R, a, b, ka, kb) && k in ka
    ensures k in kb && Related(h, m, R, Get(h, a, k), Get(h, b, k))
  {
    hide Related;
    var i :| 0 <= i < |ka| && ka[i] == k;
    assert ka[i] in kb;
  }

  // ---------- A bisimulation agrees along all paths ----------

  /** A matching of the entries of a pair of collections. */
  ghost predicate Matches(h: Heap, m: Mode, R: Pairs, a: Ref, b: Ref, perm: seq<nat>)
  {
    && a < |h.objects| && b < |h.objects|
    && var oa, ob := h.objects[a], h.objects[b];
    var sa, sb := StorageOf(oa), StorageOf(ob);
    && sa.Entries? && sb.Entries? && |perm| == |sa.entries| == |sb.entries|
    && Matching(h, m, R, sa.entries, sb.entries, !oa.mapData.Absent?, perm)
  }

  ghost function Partners(h: Heap, m: Mode, R: Pairs, p: (Ref, Ref)): (perm: seq<nat>)
    ensures (exists q :: Matches(h, m, R, p.0, p.1, q)) ==> Matches(h, m, R, p.0, p.1, perm)
  {
    if exists q :: Matches(h, m, R, p.0, p.1, q) then var q :| Matches(h, m, R, p.0, p.1, q); q else []
  }

  ghost function GuideOf(h: Heap, m: Mode, R: Pairs): (g: Guide)
    ensures forall p :: p in R ==> p in g && g[p] == Partners(h, m, R, p)
  {
    map p | p in R :: Partners(h, m, R, p)
  }

  /** The parts of Alike, told apart by whether the first object is a collection. */
  lemma {:induction false} AlikeParts(h: Heap, m: Mode, R: Pairs, a: Ref, b: Ref)
    requires Closed(h) && Alike(h, m, R, a, b)
    ensures var oa, ob := h.objects[a], h.objects[b];
            && (IsCollection(oa) <==> IsCollection(ob))
            && (IsCollection(oa) ==> (oa.mapData.Absent? <==> ob.mapData.Absent?))
            && (IsCollection(oa) ==> CollectionMatch(h, m, R, a, b))
            && (IsCollection(oa) ==> StorageMatch(h, m, R, StorageOf(oa), StorageOf(ob), !oa.mapData.Absent?))
            && (!IsCollection(oa) ==> OrdinaryMatch(h, m, R, a, b))
  {
    hide Closed, EntriesMatch, CollectionMatch, OrdinaryMatch;
  }

  lemma {:induction false} InRange(h: Heap, m: Mode, R: Pairs, a: Ref, b: Ref)
    requires Closed(h) && Alike(h, m, R, a, b)
    ensures a < |h.objects| && b < |h.objects|
  {
  }

  lemma {:induction false} PartnersMatch(h: Heap, m: Mode, R: Pairs, a: Ref, b: Ref)
    requires Closed(h) && Alike(h, m, R, a, b) && IsCollection(h.objects[a])
    ensures Matches(h, m, R, a, b, Partners(h, m, R, (a, b)))
  {
    hide Closed, Alike, Matching, Partners;
    InRange(h, m, R, a, b);
    AlikeParts(h, m, R, a, b);
    var oa, ob := h.objects[a], h.objects[b];
    var ea, eb := StorageOf(oa).entries, StorageOf(ob).entries;
    var q :| |q| == |ea| && Matching(h, m, R, ea, eb, !oa.mapData.Absent?, q);
    assert Matches(h, m, R, a, b, q);
  }

  lemma {:induction false} AlikeSurface(h: Heap, m: Mode, R: Pairs, a: Ref, b: Ref)
    requires Closed(h) && (a, b) in R && Alike(h, m, R, a, b)
    requires !h.objects[a].kind.Function? && !h.objects[b].kind.Function?
    ensures SameSurface(h, m, GuideOf(h, m, R), a, b)
  {
    hide Closed, Related, Get, EntryRelated, Partners, GuideOf, PublicKeys;
    if IsCollection(h.objects[a]) { PartnersMatch(h, m, R, a, b); }
  }

  lemma {:induction false} EntryAt(h: Heap, m: Mode, R: Pairs, a: Ref, b: Ref, perm: seq<nat>, i: nat)
    requires Matches(h, m, R, a, b, perm) && i < |perm|
    ensures var sa, sb := StorageOf(h.objects[a]), StorageOf(h.objects[b]);
            && sa.Entries? && sb.Entries? && i < |sa.entries| && perm[i] < |sb.entries|
            && EntryRelated(h, m, R, sa.entries[i], sb.entries[perm[i]], !h.objects[a].mapData.Absent?)
  {
    hide EntryRelated;
  }

  /** From a pair of the relation every move of the first side is possible on the other, and leads to related values. */
  lemma {:induction false} MoveRelated(h: Heap, m: Mode, R: Pairs, a: Ref, b: Ref, mv: Move)
    requires Closed(h) && Alike(h, m, R, a, b) && a < |h.objects| && b < |h.objects| && (a, b) in R && Has(h, m, a, mv)
    ensures var mv' := Across(GuideOf(h, m, R), a, b, mv);
            && Has(h, m, b, mv') && InHeap(h, Target(h, m, a, mv)) && InHeap(h, Target(h, m, b, mv'))
            && Related(h, m, R, Target(h, m, a, mv), Target(h, m, b, mv'))
  {
    hide Closed, Alike, Related, GuideOf, Partners, Matches, PropsRelated, PublicKeys, StringKeys, SymbolKeys,
        StorageMatch;
    AlikeParts(h, m, R, a, b);
    TargetInHeap(h, m, a, mv);
    var oa, ob := h.objects[a], h.objects[b];
    match mv {
      case Prop(k) =>
        if k.Str? {
          CountsString(m, oa, k);
          CountsString(m, ob, k);
          PropAt(h, m, R, a, b, KeysOf(oa), KeysOf(ob), k);
        } else {
          CountsSymbol(m, oa, k);
          CountsSymbol(m, ob, k);
          PropAt(h, m, R, a, b, SymbolKeys(oa), SymbolKeys(ob), k);
        }
        TargetInHeap(h, m, b, mv);
      case EntryKey(i) =>
        PartnersMatch(h, m, R, a, b);
        MatchesSize(h, m, R, a, b, Partners(h, m, R, (a, b)));
        EntryAt(h, m, R, a, b, Partners(h, m, R, (a, b)), i);
      case EntryValue(i) =>
        PartnersMatch(h, m, R, a, b);
        MatchesSize(h, m, R, a, b, Partners(h, m, R, (a, b)));
        EntryAt(h, m, R, a, b, Partners(h, m, R, (a, b)), i);
    }
  }

  lemma {:induction false} MatchesSize(h: Heap, m: Mode, R: Pairs, a: Ref, b: Ref, perm: seq<nat>)
    requires Matches(h, m, R, a, b, perm)
    ensures a < |h.objects| && StorageOf(h.objects[a]).Entries? && |perm| == |StorageOf(h.objects[a]).entries|
  {
  }

  lemma {:induction false} RelatedSame(h: Heap, m: Mode, R: Pairs, v: Value, w: Value)
    requires Closed(h) && Bisimulation(h, m, R) && InHeap(h, v) && InHeap(h, w) && Related(h, m, R, v, w)
    ensures Same(h, m, GuideOf(h, m, R), v, w)
  {
    hide Closed, Alike, GuideOf, SameSurface;
    if v.Obj? && w.Obj? && v != w { AlikeSurface(h, m, R, v.r, w.r); }
  }

  lemma {:induction false} RelatedAgree(h: Heap, m: Mode, R: Pairs, v: Value, w: Value, path: seq<Move>)
    requires Closed(h) && Bisimulation(h, m, R) && InHeap(h, v) && InHeap(h, w) && Related(h, m, R, v, w)
    ensures AgreeAlong(h, m, GuideOf(h, m, R), v, w, path)
    decreases |path|
  {
    hide Closed, Alike, GuideOf, Same, Has, Target, Across;
    if path == [] {
      RelatedSame(h, m, R, v, w);
    } else if v.Obj? && w.Obj? && v != w && Has(h, m, v.r, path[0]) {
      var mv := Across(GuideOf(h, m, R), v.r, w.r, path[0]);
      MoveRelated(h, m, R, v.r, w.r, path[0]);
      RelatedAgree(h, m, R, Target(h, m, v.r, path[0]), Target(h, m, w.r, mv), path[1..]);
    }
  }

  // ---------- Agreement along all paths is a bisimulation ----------

  /** The values at the end of the path, if both sides can follow it without meeting in one object. */
  ghost function Ends(h: Heap, m: Mode, g: Guide, v: Value, w: Value, path: seq<Move>): (r: (bool, Value, Value))
    requires Closed(h) && InHeap(h, v) && InHeap(h, w)
    ensures r.0 ==> InHeap(h, r.1) && InHeap(h, r.2)
    decreases |path|
  {
    if path == [] then (true, v, w)
    else if v.Obj? && w.Obj? && v != w && Has(h, m, v.r, path[0]) && Has(h, m, w.r, Across(g, v.r, w.r, path[0])) then
      var mv := Across(g, v.r, w.r, path[0]);
      TargetInHeap(h, m, v.r, path[0]);
      TargetInHeap(h, m, w.r, mv);
      Ends(h, m, g, Target(h, m, v.r, path[0]), Target(h, m, w.r, mv), path[1..])
    else (false, v, w)
  }

  lemma {:induction false} EndsSame(h: Heap, m: Mode, g: Guide, v: Value, w: Value, path: seq<Move>)
    requires Closed(h) && InHeap(h, v) && InHeap(h, w) && AgreeAlong(h, m, g, v, w, path)
    requires Ends(h, m, g, v, w, path).0
    ensures var (_, x, y) := Ends(h, m, g, v, w, path); Same(h, m, g, x, y)
    decreases |path|
  {
    hide Closed, Same, Has, Target, Across;
    if path != [] {
      var mv := Across(g, v.r, w.r, path[0]);
      TargetInHeap(h, m, v.r, path[0]);
      TargetInHeap(h, m, w.r, mv);
      EndsSame(h, m, g, Target(h, m, v.r, path[0]), Target(h, m, w.r, mv), path[1..]);
    }
  }

  /** One move more. */
  lemma {:induction false} EndsMore(h: Heap, m: Mode, g: Guide, v: Value, w: Value, path: seq<Move>, a: Ref, b: Ref,
      last: Move)
    requires Closed(h) && InHeap(h, v) && InHeap(h, w) && a != b && Ends(h, m, g, v, w, path) == (true, Obj(a), Obj(b))
    requires AgreeAlong(h, m, g, v, w, path + [last]) && a < |h.objects| && b < |h.objects| && Has(h, m, a, last)
    ensures var mv := Across(g, a, b, last);
            && Has(h, m, b, mv)
            && Ends(h, m, g, v, w, path + [last]) == (true, Target(h, m, a, last), Target(h, m, b, mv))
    decreases |path|
  {
    hide Closed, Same, Has, Target, Across;
    var all := path + [last];
    if path == [] {
      assert all[0] == last && all[1..] == [];
      TargetInHeap(h, m, a, last);
      TargetInHeap(h, m, b, Across(g, a, b, last));
    } else {
      assert all[0] == path[0] && all[1..] == path[1..] + [last];
      var mv := Across(g, v.r, w.r, path[0]);
      TargetInHeap(h, m, v.r, path[0]);
      TargetInHeap(h, m, w.r, mv);
      EndsMore(h, m, g, Target(h, m, v.r, path[0]), Target(h, m, w.r, mv), path[1..], a, b, last);
    }
  }

  /** A path leads to the pair. */
  ghost predicate Met(h: Heap, m: Mode, g: Guide, v: Value, w: Value, p: (Ref, Ref))
    requires Closed(h) && InHeap(h, v) && InHeap(h, w)
  {
    exists path :: Ends(h, m, g, v, w, path) == (true, Obj(p.0), Obj(p.1))
  }

  ghost function AllMet(h: Heap, m: Mode, g: Guide, v: Value, w: Value): (R: Pairs)
    requires Closed(h) && InHeap(h, v) && InHeap(h, w)
  {
    set p | p in AllPairs(h) && p.0 != p.1 && Met(h, m, g, v, w, p)
  }

  lemma {:induction false} EndRelated(h: Heap, m: Mode, g: Guide, v: Value, w: Value, path: seq<Move>)
    requires Closed(h) && InHeap(h, v) && InHeap(h, w) && AgreeBy(h, m, g, v, w) && Ends(h, m, g, v, w, path).0
    ensures var (_, x, y) := Ends(h, m, g, v, w, path); Related(h, m, AllMet(h, m, g, v, w), x, y)
  {
    hide Closed, Ends, SameStorage, KeyCount;
    EndsSame(h, m, g, v, w, path);
    var (_, x, y) := Ends(h, m, g, v, w, path);
    if x.Obj? && y.Obj? && x != y {
      assert Met(h, m, g, v, w, (x.r, y.r));
    }
  }

  /** From a pair that is met every move leads to related values. */
  lemma {:induction false} MetMove(h: Heap, m: Mode, g: Guide, v: Value, w: Value, a: Ref, b: Ref, mv: Move)
    requires Closed(h) && InHeap(h, v) && InHeap(h, w) && AgreeBy(h, m, g, v, w) && (a, b) in AllMet(h, m, g, v, w)
    requires a < |h.objects| && b < |h.objects| && Has(h, m, a, mv)
    ensures var mv' := Across(g, a, b, mv);
            && Has(h, m, b, mv') && InHeap(h, Target(h, m, a, mv)) && InHeap(h, Target(h, m, b, mv'))
            && Related(h, m, AllMet(h, m, g, v, w), Target(h, m, a, mv), Target(h, m, b, mv'))
  {
    hide Closed, Ends, Same, Related, Has, Target, Across, AgreeAlong;
    var path :| Ends(h, m, g, v, w, path) == (true, Obj(a), Obj(b));
    EndsMore(h, m, g, v, w, path, a, b, mv);
    EndRelated(h, m, g, v, w, path + [mv]);
    TargetInHeap(h, m, a, mv);
    TargetInHeap(h, m, b, Across(g, a, b, mv));
  }

  lemma {:induction false} MetSurface(h: Heap, m: Mode, g: Guide, v: Value, w: Value, a: Ref, b: Ref)
    requires Closed(h) && InHeap(h, v) && InHeap(h, w) && AgreeBy(h, m, g, v, w) && (a, b) in AllMet(h, m, g, v, w)
    ensures a < |h.objects| && b < |h.objects| && SameSurface(h, m, g, a, b)
  {
    hide Closed, Ends, SameSurface, AgreeAlong;
    var path :| Ends(h, m, g, v, w, path) == (true, Obj(a), Obj(b));
    EndsSame(h, m, g, v, w, path);
  }

  lemma {:induction false} MetStrings(h: Heap, m: Mode, g: Guide, v: Value, w: Value, a: Ref, b: Ref)
    requires Closed(h) && InHeap(h, v) && InHeap(h, w) && AgreeBy(h, m, g, v, w) && (a, b) in AllMet(h, m, g, v, w)
    requires a < |h.objects| && b < |h.objects| && |KeysOf(h.objects[a])| == |KeysOf(h.objects[b])|
    ensures PropsRelated(h, m, AllMet(h, m, g, v, w), a, b, KeysOf(h.objects[a]), KeysOf(h.objects[b]))
  {
    hide AgreeBy, AllMet, Related, KeysOf, Counts;
    var ka, kb := KeysOf(h.objects[a]), KeysOf(h.objects[b]);
    forall i | 0 <= i < |ka|
      ensures ka[i] in kb && Related(h, m, AllMet(h, m, g, v, w), Get(h, a, ka[i]), Get(h, b, ka[i]))
    {
      OnlyStrings(h.objects[a], ka[i]);
      CountsString(m, h.objects[a], ka[i]);
      CountsString(m, h.objects[b], ka[i]);
      MetMove(h, m, g, v, w, a, b, Prop(ka[i]));
    }
  }

  lemma {:induction false} MetSymbols(h: Heap, m: Mode, g: Guide, v: Value, w: Value, a: Ref, b: Ref)
    requires Closed(h) && InHeap(h, v) && InHeap(h, w) && AgreeBy(h, m, g, v, w) && (a, b) in AllMet(h, m, g, v, w)
    requires a < |h.objects| && b < |h.objects| && |h.objects[a].symbols| == |h.objects[b].symbols|
    requires m.strict && !IsCollection(h.objects[a])
    ensures PropsRelated(h, m, AllMet(h, m, g, v, w), a, b, SymbolKeys(h.objects[a]), SymbolKeys(h.objects[b]))
  {
    hide AgreeBy, AllMet, Related, SymbolKeys, Counts;
    var ka, kb := SymbolKeys(h.objects[a]), SymbolKeys(h.objects[b]);
    forall i | 0 <= i < |ka|
      ensures ka[i] in kb && Related(h, m, AllMet(h, m, g, v, w), Get(h, a, ka[i]), Get(h, b, ka[i]))
    {
      CountsSymbol(m, h.objects[a], ka[i]);
      CountsSymbol(m, h.objects[b], ka[i]);
      MetMove(h, m, g, v, w, a, b, Prop(ka[i]));
    }
  }

  lemma {:induction false} MetEntries(h: Heap, m: Mode, g: Guide, v: Value, w: Value, a: Ref, b: Ref)
    requires Closed(h) && InHeap(h, v) && InHeap(h, w) && AgreeBy(h, m, g, v, w) && (a, b) in AllMet(h, m, g, v, w)
    requires a < |h.objects| && b < |h.objects| && SameStorage(h, g, a, b)
    ensures var oa, ob := h.objects[a], h.objects[b];
            StorageMatch(h, m, AllMet(h, m, g, v, w), StorageOf(oa), StorageOf(ob), !oa.mapData.Absent?)
  {
    hide Closed, AgreeBy, AllMet, Related;
    var oa, ob := h.objects[a], h.objects[b];
    var ea, eb, perm, byKey := StorageOf(oa).entries, StorageOf(ob).entries, g[(a, b)], !oa.mapData.Absent?;
    forall i | 0 <= i < |perm|
      ensures EntryRelated(h, m, AllMet(h, m, g, v, w), ea[i], eb[perm[i]], byKey)
    {
      EntriesInHeap(h, a, i);
      EntriesInHeap(h, b, perm[i]);
      MetMove(h, m, g, v, w, a, b, EntryValue(i));
      if byKey { MetMove(h, m, g, v, w, a, b, EntryKey(i)); }
    }
    assert Matching(h, m, AllMet(h, m, g, v, w), ea, eb, byKey, perm);
  }

  lemma {:induction false} EntriesInHeap(h: Heap, r: Ref, i: nat)
    requires Closed(h) && r < |h.objects|
    requires StorageOf(h.objects[r]).Entries? && i < |StorageOf(h.objects[r]).entries|
    ensures var e := StorageOf(h.objects[r]).entries[i]; InHeap(h, e.0) && InHeap(h, e.1)
  {
    var o := h.objects[r];
    assert StorageInHeap(h, o.mapData) && StorageInHeap(h, o.setData);
  }

  lemma {:induction false} MetAlike(h: Heap, m: Mode, g: Guide, v: Value, w: Value, a: Ref, b: Ref)
    requires Closed(h) && InHeap(h, v) && InHeap(h, w) && AgreeBy(h, m, g, v, w) && (a, b) in AllMet(h, m, g, v, w)
    ensures Alike(h, m, AllMet(h, m, g, v, w), a, b)
  {
    hide Closed, AgreeBy, AllMet, PropsRelated, StorageMatch, PublicKeys, Pairing;
    MetSurface(h, m, g, v, w, a, b);
    MetStrings(h, m, g, v, w, a, b);
    var oa := h.objects[a];
    if IsCollection(oa) {
      MetEntries(h, m, g, v, w, a, b);
    } else if m.strict {
      MetSymbols(h, m, g, v, w, a, b);
    }
  }

  /** Values are bisimilar exactly when they agree along all paths. */
  lemma {:induction false} BisimilarByPaths(h: Heap, m: Mode, v: Value, w: Value)
    requires Closed(h) && InHeap(h, v) && InHeap(h, w)
    ensures Bisimilar(h, m, v, w) <==> AgreeEverywhere(h, m, v, w)
  {
    hide Closed, Alike, Related, AgreeAlong;
    if Bisimilar(h, m, v, w) {
      var R :| Bisimulation(h, m, R) && Related(h, m, R, v, w);
      forall path
        ensures AgreeAlong(h, m, GuideOf(h, m, R), v, w, path)
      {
        RelatedAgree(h, m, R, v, w, path);
      }
      assert AgreeBy(h, m, GuideOf(h, m, R), v, w);
    }
    if AgreeEverywhere(h, m, v, w) {
      var g: Guide :| AgreeBy(h, m, g, v, w);
      var R := AllMet(h, m, g, v, w);
      forall p | p in R
        ensures Alike(h, m, R, p.0, p.1)
      {
        MetAlike(h, m, g, v, w, p.0, p.1);
      }
      EndRelated(h, m, g, v, w, []);
    }
  }
}
