/** Possibly cyclic object graphs, and what it means that two objects of one are equal. */
module ObjectGraph {

  // ---------- The object graph ----------

  type Ref = nat

  /** Primitive values; how others than symbols and NaN compare is up to the runtime. */
  datatype Prim = Symbol(description: string) | NaN | Plain(id: nat)

  datatype Value = Obj(r: Ref) | Prim(p: Prim)

  datatype Key = Str(name: string) | Sym(id: string)

  datatype Kind = Ordinary | Array(length: nat) | Arguments | Function

  /** A key and its value. */
  type Entry = (Value, Value)

  /** What an object has of a collection: nothing, something that is not storage, or entries. The key of a Set
      entry plays no part. */
  datatype Storage = Absent | Other | Entries(entries: seq<Entry>)

  datatype Object = Object(kind: Kind, proto: int, keys: seq<string>, symbols: seq<string>, props: map<Key, Value>,
                           mapData: Storage, weakMap: bool, setData: Storage, weakSet: bool)

  datatype Heap = Heap(objects: seq<Object>, strictEq: (Prim, Prim) -> bool, looseEq: (Prim, Prim) -> bool,
                       undefined: Prim)

  /** The mode of a comparison. */
  datatype Mode = Mode(strict: bool, skipPrototype: bool)

  predicate InHeap(h: Heap, v: Value)
  {
    v.Obj? ==> v.r < |h.objects|
  }

  predicate StorageInHeap(h: Heap, s: Storage)
  {
    s.Entries? ==> forall i :: 0 <= i < |s.entries| ==> InHeap(h, s.entries[i].0) && InHeap(h, s.entries[i].1)
  }

  /** Every reference leads to an object. */
  ghost predicate Closed(h: Heap)
  {
    forall r :: 0 <= r < |h.objects| ==>
      var o := h.objects[r];
      StorageInHeap(h, o.mapData) && StorageInHeap(h, o.setData) && forall k :: k in o.props ==> InHeap(h, o.props[k])
  }

  function Get(h: Heap, r: Ref, k: Key): (v: Value)
    requires r < |h.objects|
  {
    if k in h.objects[r].props then h.objects[r].props[k] else Prim(h.undefined)
  }

  function StringKeys(o: Object): (ks: seq<Key>)
    ensures |ks| == |o.keys| && forall i :: 0 <= i < |ks| ==> ks[i] == Str(o.keys[i])
  {
    seq(|o.keys|, i requires 0 <= i < |o.keys| => Str(o.keys[i]))
  }

  function SymbolKeys(o: Object): (ks: seq<Key>)
    ensures |ks| == |o.symbols| && forall i :: 0 <= i < |ks| ==> ks[i] == Sym(o.symbols[i])
  {
    seq(|o.symbols|, i requires 0 <= i < |o.symbols| => Sym(o.symbols[i]))
  }

  predicate IsInternal(k: string)
  {
    k == "__map_data" || k == "__map_orig_keys" || k == "__set_data"
  }

  /** The first n string keys, without those that hold a collection's storage. */
  function PublicKeys(o: Object, n: nat): (ks: seq<Key>)
    requires n <= |o.keys|
  {
    if n == 0 then [] else PublicKeys(o, n - 1) + (if IsInternal(o.keys[n - 1]) then [] else [Str(o.keys[n - 1])])
  }

  predicate PrimEqual(h: Heap, m: Mode, a: Prim, b: Prim)
  {
    if a.Symbol? && b.Symbol? then a.description == b.description
    else if a.NaN? && b.NaN? then true
    else if m.strict then h.strictEq(a, b)
    else h.looseEq(a, b)
  }

  // ---------- Bisimulation ----------

  type Pairs = set<(Ref, Ref)>

  /** Pairs in the order they were entered. */
  type Path = seq<(Ref, Ref)>

  /** The partner of each object being compared. */
  type Active = map<Ref, Ref>

  /** Equal under the assumption that the objects paired in R are. */
  predicate Related(h: Heap, m: Mode, R: Pairs, v: Value, w: Value)
    requires InHeap(h, v) && InHeap(h, w)
  {
    match (v, w)
    case (Obj(a), Obj(b)) => a == b || (!h.objects[a].kind.Function? && !h.objects[b].kind.Function? && (a, b) in R)
    case (Prim(x), Prim(y)) => PrimEqual(h, m, x, y)
    case _ => false
  }

  /** The same keys with related values. */
  ghost predicate PropsRelated(h: Heap, m: Mode, R: Pairs, a: Ref, b: Ref, ka: seq<Key>, kb: seq<Key>)
    requires Closed(h) && a < |h.objects| && b < |h.objects|
  {
    |ka| == |kb| && forall i :: 0 <= i < |ka| ==> ka[i] in kb && Related(h, m, R, Get(h, a, ka[i]), Get(h, b, ka[i]))
  }

  ghost predicate EntryRelated(h: Heap, m: Mode, R: Pairs, e: Entry, f: Entry, byKey: bool)
  {
    && InHeap(h, e.0) && InHeap(h, e.1) && InHeap(h, f.0) && InHeap(h, f.1)
    && (byKey ==> Related(h, m, R, e.0, f.0)) && Related(h, m, R, e.1, f.1)
  }

  ghost predicate Injective(perm: seq<nat>, n: nat)
  {
    && (forall i :: 0 <= i < |perm| ==> perm[i] < n)
    && (forall i, j :: 0 <= i < j < |perm| ==> perm[i] != perm[j])
  }

  /** perm sends the first |perm| entries of ea to related and distinct entries of eb. */
  ghost predicate Matching(h: Heap, m: Mode, R: Pairs, ea: seq<Entry>, eb: seq<Entry>, byKey: bool, perm: seq<nat>)
  {
    && |perm| <= |ea| && Injective(perm, |eb|)
    && forall i :: 0 <= i < |perm| ==> EntryRelated(h, m, R, ea[i], eb[perm[i]], byKey)
  }

  /** The entries can be paired off in some order. */
  ghost predicate EntriesMatch(h: Heap, m: Mode, R: Pairs, ea: seq<Entry>, eb: seq<Entry>, byKey: bool)
  {
    |ea| == |eb| && exists perm :: |perm| == |ea| && Matching(h, m, R, ea, eb, byKey, perm)
  }

  ghost predicate StorageMatch(h: Heap, m: Mode, R: Pairs, sa: Storage, sb: Storage, byKey: bool)
  {
    sa.Entries? && sb.Entries? && EntriesMatch(h, m, R, sa.entries, sb.entries, byKey)
  }

  ghost predicate CollectionMatch(h: Heap, m: Mode, R: Pairs, a: Ref, b: Ref)
    requires Closed(h) && a < |h.objects| && b < |h.objects|
  {
    var oa, ob := h.objects[a], h.objects[b];
    PropsRelated(h, m, R, a, b, PublicKeys(oa, |oa.keys|), PublicKeys(ob, |ob.keys|))
  }

  ghost predicate OrdinaryMatch(h: Heap, m: Mode, R: Pairs, a: Ref, b: Ref)
    requires Closed(h) && a < |h.objects| && b < |h.objects|
  {
    var oa, ob := h.objects[a], h.objects[b];
    && (oa.kind.Array? <==> ob.kind.Array?) && (oa.kind.Array? ==> oa.kind.length == ob.kind.length)
    && (oa.kind.Arguments? <==> ob.kind.Arguments?)
    && PropsRelated(h, m, R, a, b, StringKeys(oa), StringKeys(ob))
    && (m.strict ==> PropsRelated(h, m, R, a, b, SymbolKeys(oa), SymbolKeys(ob)))
  }

  /** Two different objects look the same when the objects paired in R count as equal. */
  ghost predicate Alike(h: Heap, m: Mode, R: Pairs, a: Ref, b: Ref)
    requires Closed(h)
  {
    && a < |h.objects| && b < |h.objects|
    && var oa, ob := h.objects[a], h.objects[b];
    && (m.strict && !m.skipPrototype ==> oa.proto == ob.proto)
    && if !oa.mapData.Absent? || !ob.mapData.Absent? then
         !oa.weakMap && !ob.weakMap && StorageMatch(h, m, R, oa.mapData, ob.mapData, true) &&
             CollectionMatch(h, m, R, a, b)
       else if !oa.setData.Absent? || !ob.setData.Absent? then
         !oa.weakSet && !ob.weakSet && StorageMatch(h, m, R, oa.setData, ob.setData, false) &&
             CollectionMatch(h, m, R, a, b)
       else OrdinaryMatch(h, m, R, a, b)
  }

  ghost predicate Bisimulation(h: Heap, m: Mode, R: Pairs)
    requires Closed(h)
  {
    forall p :: p in R ==> Alike(h, m, R, p.0, p.1)
  }

  /** Some bisimulation relates the values. */
  ghost predicate Bisimilar(h: Heap, m: Mode, v: Value, w: Value)
    requires Closed(h) && InHeap(h, v) && InHeap(h, w)
  {
    exists B :: Bisimulation(h, m, B) && Related(h, m, B, v, w)
  }

  // ---------- More assumptions relate more ----------

  lemma {:induction false} RelatedMono(h: Heap, m: Mode, R: Pairs, S: Pairs, v: Value, w: Value)
    requires R <= S && InHeap(h, v) && InHeap(h, w) && Related(h, m, R, v, w)
    ensures Related(h, m, S, v, w)
  {
  }

  lemma {:induction false} PropsMono(h: Heap, m: Mode, R: Pairs, S: Pairs, a: Ref, b: Ref, ka: seq<Key>, kb: seq<Key>)
    requires Closed(h) && a < |h.objects| && b < |h.objects| && R <= S && PropsRelated(h, m, R, a, b, ka, kb)
    ensures PropsRelated(h, m, S, a, b, ka, kb)
  {
    hide Related;
    forall i | 0 <= i < |ka|
      ensures Related(h, m, S, Get(h, a, ka[i]), Get(h, b, ka[i]))
    {
      RelatedMono(h, m, R, S, Get(h, a, ka[i]), Get(h, b, ka[i]));
    }
  }

  lemma {:induction false} EntryMono(h: Heap, m: Mode, R: Pairs, S: Pairs, e: Entry, f: Entry, byKey: bool)
    requires R <= S && EntryRelated(h, m, R, e, f, byKey)
    ensures EntryRelated(h, m, S, e, f, byKey)
  {
    hide Related;
    if byKey { RelatedMono(h, m, R, S, e.0, f.0); }
    RelatedMono(h, m, R, S, e.1, f.1);
  }

  lemma {:induction false} MatchingMono(h: Heap, m: Mode, R: Pairs, S: Pairs, ea: seq<Entry>, eb: seq<Entry>,
      byKey: bool, perm: seq<nat>)
    requires R <= S && Matching(h, m, R, ea, eb, byKey, perm)
    ensures Matching(h, m, S, ea, eb, byKey, perm)
  {
    hide EntryRelated;
    forall i | 0 <= i < |perm|
      ensures EntryRelated(h, m, S, ea[i], eb[perm[i]], byKey)
    {
      EntryMono(h, m, R, S, ea[i], eb[perm[i]], byKey);
    }
  }

  lemma {:induction false} StorageMono(h: Heap, m: Mode, R: Pairs, S: Pairs, sa: Storage, sb: Storage, byKey: bool)
    requires R <= S && StorageMatch(h, m, R, sa, sb, byKey)
    ensures StorageMatch(h, m, S, sa, sb, byKey)
  {
    hide Matching;
    var perm :| |perm| == |sa.entries| && Matching(h, m, R, sa.entries, sb.entries, byKey, perm);
    MatchingMono(h, m, R, S, sa.entries, sb.entries, byKey, perm);
  }

  lemma {:induction false} CollectionMono(h: Heap, m: Mode, R: Pairs, S: Pairs, a: Ref, b: Ref)
    requires Closed(h) && a < |h.objects| && b < |h.objects| && R <= S && CollectionMatch(h, m, R, a, b)
    ensures CollectionMatch(h, m, S, a, b)
  {
    hide PropsRelated, Closed, PublicKeys;
    var oa, ob := h.objects[a], h.objects[b];
    PropsMono(h, m, R, S, a, b, PublicKeys(oa, |oa.keys|), PublicKeys(ob, |ob.keys|));
  }

  lemma {:induction false} OrdinaryMono(h: Heap, m: Mode, R: Pairs, S: Pairs, a: Ref, b: Ref)
    requires Closed(h) && a < |h.objects| && b < |h.objects| && R <= S && OrdinaryMatch(h, m, R, a, b)
    ensures OrdinaryMatch(h, m, S, a, b)
  {
    hide PropsRelated, Closed, StringKeys, SymbolKeys;
    var oa, ob := h.objects[a], h.objects[b];
    PropsMono(h, m, R, S, a, b, StringKeys(oa), StringKeys(ob));
    if m.strict { PropsMono(h, m, R, S, a, b, SymbolKeys(oa), SymbolKeys(ob)); }
  }

  lemma {:induction false} AlikeMono(h: Heap, m: Mode, R: Pairs, S: Pairs, a: Ref, b: Ref)
    requires Closed(h) && R <= S && Alike(h, m, R, a, b)
    ensures Alike(h, m, S, a, b)
  {
    hide Closed, StorageMatch, CollectionMatch, OrdinaryMatch;
    var oa, ob := h.objects[a], h.objects[b];
    if !oa.mapData.Absent? || !ob.mapData.Absent? {
      StorageMono(h, m, R, S, oa.mapData, ob.mapData, true);
      CollectionMono(h, m, R, S, a, b);
    } else if !oa.setData.Absent? || !ob.setData.Absent? {
      StorageMono(h, m, R, S, oa.setData, ob.setData, false);
      CollectionMono(h, m, R, S, a, b);
    } else {
      OrdinaryMono(h, m, R, S, a, b);
    }
  }

  // ---------- What a bisimulation means ----------

  ghost function AllPairs(h: Heap): (r: Pairs)
    ensures forall a, b :: (a, b) in r <==> 0 <= a < |h.objects| && 0 <= b < |h.objects|
  {
    set a, b | 0 <= a < |h.objects| && 0 <= b < |h.objects| :: (a, b)
  }

  /** The pairs that looking n levels deep does not tell apart. */
  ghost function Level(h: Heap, m: Mode, n: nat): (r: Pairs)
    requires Closed(h)
  {
    if n == 0 then AllPairs(h) else set p | p in AllPairs(h) && Alike(h, m, Level(h, m, n - 1), p.0, p.1)
  }

  /** No depth tells apart what a bisimulation pairs. */
  lemma {:induction false} BisimulationIsDeep(h: Heap, m: Mode, R: Pairs, n: nat)
    requires Closed(h) && Bisimulation(h, m, R)
    ensures R <= Level(h, m, n)
  {
    hide StorageMatch, CollectionMatch, OrdinaryMatch, Closed;
    if n == 0 {
      assert forall p :: p in R ==> Alike(h, m, R, p.0, p.1);
    } else {
      BisimulationIsDeep(h, m, R, n - 1);
      forall p | p in R
        ensures p in Level(h, m, n)
      {
        AlikeMono(h, m, R, Level(h, m, n - 1), p.0, p.1);
      }
    }
  }

  ghost predicate Distinct<T(!new)>(s: seq<T>)
  {
    forall i, j :: 0 <= i < j < |s| ==> s[i] != s[j]
  }

  ghost function SetTo<T(!new)>(s: seq<T>, n: nat): (r: set<T>)
    requires n <= |s|
  {
    if n == 0 then {} else SetTo(s, n - 1) + {s[n - 1]}
  }

  lemma {:induction false} InSetTo<T(!new)>(s: seq<T>, n: nat, x: T)
    requires n <= |s|
    ensures x in SetTo(s, n) <==> exists i :: 0 <= i < n && s[i] == x
  {
    if n > 0 { InSetTo(s, n - 1, x); }
  }

  lemma {:induction false} SetToSize<T(!new)>(s: seq<T>, n: nat)
    requires n <= |s| && Distinct(s)
    ensures |SetTo(s, n)| == n
  {
    if n > 0 {
      SetToSize(s, n - 1);
      InSetTo(s, n - 1, s[n - 1]);
    }
  }

  lemma {:induction false} SubsetSize<T(!new)>(s: set<T>, t: set<T>)
    requires s <= t && |s| == |t|
    ensures s == t
  {
    assert t == s + (t - s);
  }

  /** As many distinct keys, all of them among kb, are all of kb. */
  lemma {:induction false} SameKeys<T(!new)>(ka: seq<T>, kb: seq<T>)
    requires Distinct(ka) && Distinct(kb) && |ka| == |kb| && forall i :: 0 <= i < |ka| ==> ka[i] in kb
    ensures forall i :: 0 <= i < |kb| ==> kb[i] in ka
  {
    SetToSize(ka, |ka|);
    SetToSize(kb, |kb|);
    var s, t := SetTo(ka, |ka|), SetTo(kb, |kb|);
    forall x | x in s
      ensures x in t
    {
      InSetTo(ka, |ka|, x);
      InSetTo(kb, |kb|, x);
    }
    SubsetSize(s, t);
    forall i | 0 <= i < |kb|
      ensures kb[i] in ka
    {
      InSetTo(kb, |kb|, kb[i]);
      InSetTo(ka, |ka|, kb[i]);
    }
  }

  ghost function Upto(n: nat): (s: seq<nat>)
    ensures |s| == n && forall i :: 0 <= i < n ==> s[i] == i
  {
    seq(n, i => i)
  }

  /** A matching of equally many entries leaves no entry of the other side out. */
  lemma {:induction false} MatchingIsOnto(perm: seq<nat>, n: nat, x: nat)
    requires Injective(perm, n) && |perm| == n && x < n
    ensures exists i :: 0 <= i < n && perm[i] == x
  {
    hide Upto;
    forall i | 0 <= i < n
      ensures perm[i] in Upto(n)
    {
      assert Upto(n)[perm[i]] == perm[i];
    }
    SameKeys(perm, Upto(n));
    assert Upto(n)[x] == x;
    assert Upto(n)[x] in perm;
  }
}
