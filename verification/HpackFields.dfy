/** Header blocks as lists of representations (section 6 of RFC 7541): their bytes, what they say and what they do to
    the dynamic table, and the proof that decoding a block is exactly that. */
module HpackFields {
  import opened Bits
  import opened HpackInteger
  import opened HpackHuffman
  import opened Hpack

  /** A name by its index, or spelled out. */
  datatype Name = Index(i: nat) | Spelled(text: Text)

  /** An indexed field, a literal that enters the table, a literal that does not, or a new limit for the table. */
  datatype Field =
    | Indexed(i: nat)
    | Adding(name: Name, value: Text)
    | Passing(name: Name, value: Text)
    | Limit(max: nat)

  // ---------- Bytes ----------

  /** The integer v stands at pos in the low bits of the byte, or as the full prefix and one to nine groups of seven
      bits. */
  ghost predicate IntegerBytes(s: seq<byte>, pos: nat, bits: nat, v: nat, end: nat)
  {
    && pos < |s|
    && var full := Pow2(bits) - 1;
    if Low(s[pos], bits) < full then v == Low(s[pos], bits) && end == pos + 1
    else
      && pos + 1 < end <= pos + 10 && GroupsAt(s, pos + 1, end - pos - 1)
      && v == full + Groups(s, pos + 1, end - pos - 1)
  }

  /** The text stands at pos with its length, as it is or in the Huffman code. */
  ghost predicate StringBytes(t: Table, s: seq<byte>, pos: nat, text: Text, end: nat)
    requires |t| == 257
  {
    && pos < |s|
    && exists p: nat :: p <= end <= |s| && IntegerBytes(s, pos, 7, end - p, p) && TextBytes(t, s, pos, p, text, end)
  }

  ghost predicate TextBytes(t: Table, s: seq<byte>, pos: nat, p: nat, text: Text, end: nat)
    requires |t| == 257 && pos < |s| && p <= end <= |s|
  {
    if s[pos] < 128 then text == s[p..end] else Encodes(t, MsbStream(s[p..end], end - p), text)
  }

  ghost predicate NameBytes(t: Table, s: seq<byte>, pos: nat, bits: nat, name: Name, end: nat)
    requires |t| == 257
  {
    match name
    case Index(i) => i > 0 && IntegerBytes(s, pos, bits, i, end)
    case Spelled(text) => exists p: nat :: IntegerBytes(s, pos, bits, 0, p) && StringBytes(t, s, p, text, end)
  }

  ghost predicate LiteralBytes(t: Table, s: seq<byte>, pos: nat, bits: nat, name: Name, value: Text, end: nat)
    requires |t| == 257
  {
    exists p: nat :: NameBytes(t, s, pos, bits, name, p) && StringBytes(t, s, p, value, end)
  }

  ghost predicate FieldBytes(t: Table, s: seq<byte>, pos: nat, f: Field, end: nat)
    requires |t| == 257
  {
    && pos < |s|
    && match f
       case Indexed(i) => 128 <= s[pos] && IntegerBytes(s, pos, 7, i, end)
       case Adding(name, value) => 64 <= s[pos] < 128 && LiteralBytes(t, s, pos, 6, name, value, end)
       case Limit(max) => 32 <= s[pos] < 64 && IntegerBytes(s, pos, 5, max, end)
       case Passing(name, value) => s[pos] < 32 && LiteralBytes(t, s, pos, 4, name, value, end)
  }

  /** The bytes from pos on are these representations and nothing else. */
  ghost predicate BlockBytes(t: Table, s: seq<byte>, pos: nat, fs: seq<Field>)
    requires |t| == 257
    decreases |fs|
  {
    if fs == [] then pos == |s|
    else exists end: nat :: FieldBytes(t, s, pos, fs[0], end) && BlockBytes(t, s, end, fs[1..])
  }

  // ---------- Meaning ----------

  /** The entry with that index: the static table, then the dynamic table from its newest entry. */
  ghost predicate HasEntry(d: Dynamic, i: nat)
  {
    1 <= i < 62 + |d.entries|
  }

  function EntryOf(d: Dynamic, i: nat): (h: Header)
    requires HasEntry(d, i)
  {
    if i < 62 then (Ascii(StaticRow(i - 1).0), Ascii(StaticRow(i - 1).1)) else d.entries[i - 62]
  }

  ghost predicate HasName(d: Dynamic, name: Name)
  {
    name.Index? ==> HasEntry(d, name.i)
  }

  function NameOf(d: Dynamic, name: Name): (text: Text)
    requires HasName(d, name)
  {
    match name
    case Index(i) => EntryOf(d, i).0
    case Spelled(text) => text
  }

  /** Names, values and 32 octets for each entry. */
  function Weight(es: seq<Header>): (n: nat)
  {
    if es == [] then 0 else Weight(es[..|es| - 1]) + |es[|es| - 1].0| + |es[|es| - 1].1| + 32
  }

  /** The most of the newest entries that fit. */
  ghost predicate Kept(es: seq<Header>, all: seq<Header>, max: nat)
  {
    es <= all && Weight(es) <= max && (|es| < |all| ==> Weight(all[..|es| + 1]) > max)
  }

  /** The representation adds the header fields hs and turns the table d into d'. */
  ghost predicate Means(f: Field, d: Dynamic, hs: seq<Header>, d': Dynamic)
  {
    match f
    case Indexed(i) => HasEntry(d, i) && hs == [EntryOf(d, i)] && d' == d
    case Adding(name, value) =>
      && HasName(d, name) && hs == [(NameOf(d, name), value)]
      && d'.max == d.max && Kept(d'.entries, hs + d.entries, d.max)
    case Passing(name, value) => HasName(d, name) && hs == [(NameOf(d, name), value)] && d' == d
    case Limit(max) => hs == [] && d'.max == max && Kept(d'.entries, d.entries, max)
  }

  /** The first representation yields the first n header fields and the table e. */
  ghost predicate MeansFirst(fs: seq<Field>, d: Dynamic, hs: seq<Header>, d': Dynamic, n: nat, e: Dynamic)
    requires fs != []
    decreases |fs|, 0
  {
    n <= |hs| && Means(fs[0], d, hs[..n], e) && MeansAll(fs[1..], e, hs[n..], d')
  }

  ghost predicate MeansAll(fs: seq<Field>, d: Dynamic, hs: seq<Header>, d': Dynamic)
    decreases |fs|, 1
  {
    if fs == [] then hs == [] && d' == d else exists n: nat, e :: MeansFirst(fs, d, hs, d', n, e)
  }

  // ---------- Integers, strings and literals ----------

  lemma {:induction false} IntegerIff(s: seq<byte>, pos: nat, bits: nat, v: nat, end: nat)
    requires bits <= 8
    ensures IntegerAt(s, pos, bits) == Done((v, end)) <==> IntegerBytes(s, pos, bits, v, end)
  {
    hide Pow2, Low, Groups, GroupsAt, Continue;
    if pos < |s| { IntegerExact(s, pos, bits, v, end); }
  }

  lemma {:induction false} StringIff(t: Table, s: seq<byte>, pos: nat, text: Text, end: nat)
    requires GoodTable(t)
    ensures StringAt(t, s, pos) == Done((text, end)) <==> StringBytes(t, s, pos, text, end)
  {
    hide IntegerAt, IntegerBytes, Decoded, Encodes, MsbStream, Apart, AllOnes;
    if StringAt(t, s, pos) == Done((text, end)) {
      var (n, p) := IntegerAt(s, pos, 7).value;
      IntegerIff(s, pos, 7, n, p);
      HuffmanExact(t, MsbStream(s[p..end], n), text);
      assert IntegerBytes(s, pos, 7, end - p, p) && TextBytes(t, s, pos, p, text, end);
    }
    if StringBytes(t, s, pos, text, end) {
      var p: nat :| p <= end <= |s| && IntegerBytes(s, pos, 7, end - p, p) && TextBytes(t, s, pos, p, text, end);
      IntegerIff(s, pos, 7, end - p, p);
      HuffmanExact(t, MsbStream(s[p..end], end - p), text);
    }
  }

  /** An index has an entry exactly when it can be looked up. */
  lemma {:induction false} LookupIff(d: Dynamic, i: nat)
    ensures HasEntry(d, i) ==> Lookup(d, i) == Done(EntryOf(d, i))
    ensures !HasEntry(d, i) ==> Lookup(d, i) == Fail(if i == 0 then IndexZero else IndexOutOfRange)
  {
    hide StaticRow, Ascii;
  }

  lemma {:induction false} LiteralRead(t: Table, s: seq<byte>, pos: nat, bits: nat, d: Dynamic, h: Header, end: nat)
      returns (name: Name)
    requires GoodTable(t) && bits <= 8 && LiteralAt(t, s, pos, bits, d) == Done((h, end))
    ensures LiteralBytes(t, s, pos, bits, name, h.1, end) && HasName(d, name) && NameOf(d, name) == h.0
  {
    hide IntegerAt, IntegerBytes, StringAt, StringBytes, Lookup, EntryOf, Apart, AllOnes;
    var (i, p) := IntegerAt(s, pos, bits).value;
    IntegerIff(s, pos, bits, i, p);
    if i == 0 {
      var (text, q) := StringAt(t, s, p).value;
      StringIff(t, s, p, text, q);
      StringIff(t, s, q, h.1, end);
      name := Spelled(text);
      assert NameBytes(t, s, pos, bits, name, q);
    } else {
      LookupIff(d, i);
      StringIff(t, s, p, h.1, end);
      name := Index(i);
      assert NameBytes(t, s, pos, bits, name, p);
    }
  }

  lemma {:induction false} NameBack(t: Table, s: seq<byte>, pos: nat, bits: nat, d: Dynamic, name: Name, end: nat)
      returns (i: nat, p: nat)
    requires GoodTable(t) && bits <= 8 && NameBytes(t, s, pos, bits, name, end) && HasName(d, name)
    ensures IntegerAt(s, pos, bits) == Done((i, p)) && NameAt(t, s, p, i, d) == Done((NameOf(d, name), end))
  {
    hide IntegerAt, IntegerBytes, StringAt, StringBytes, Lookup, EntryOf, Apart, AllOnes;
    match name
    case Index(k) =>
      IntegerIff(s, pos, bits, k, end);
      LookupIff(d, k);
      i, p := k, end;
    case Spelled(text) =>
      p :| IntegerBytes(s, pos, bits, 0, p) && StringBytes(t, s, p, text, end);
      IntegerIff(s, pos, bits, 0, p);
      StringIff(t, s, p, text, end);
      i := 0;
  }

  lemma {:induction false} LiteralBack(t: Table, s: seq<byte>, pos: nat, bits: nat, d: Dynamic, name: Name, value: Text,
      end: nat)
    requires GoodTable(t) && bits <= 8 && LiteralBytes(t, s, pos, bits, name, value, end) && HasName(d, name)
    ensures LiteralAt(t, s, pos, bits, d) == Done(((NameOf(d, name), value), end))
  {
    hide IntegerAt, NameAt, NameBytes, StringAt, StringBytes, NameOf, Apart, AllOnes;
    var q: nat :| NameBytes(t, s, pos, bits, name, q) && StringBytes(t, s, q, value, end);
    var i, p := NameBack(t, s, pos, bits, d, name, q);
    StringIff(t, s, q, value, end);
  }

  // ---------- The table ----------

  lemma {:induction false} WeightIs(es: seq<Header>, n: nat)
    requires n <= |es|
    ensures Weight(es[..n]) == SizeTo(es, n)
  {
    if n > 0 {
      WeightIs(es, n - 1);
      assert es[..n][..n - 1] == es[..n - 1];
    }
  }

  /** What is kept is determined, and is what eviction leaves. */
  lemma {:induction false} KeptIff(es: seq<Header>, all: seq<Header>, max: nat)
    ensures Kept(es, all, max) <==> es == Fit(all, max)
  {
    hide Weight, SizeTo, Fit;
    var fit := Fit(all, max);
    FitIsLongest(all, max, 0);
    WeightIs(all, |fit|);
    assert fit == all[..|fit|];
    FitIsLongest(all, max, |fit|);
    if |fit| < |all| {
      FitIsLongest(all, max, |fit| + 1);
      WeightIs(all, |fit| + 1);
    }
    if Kept(es, all, max) {
      assert es == all[..|es|];
      WeightIs(all, |es|);
      FitIsLongest(all, max, |es|);
      if |es| < |all| {
        WeightIs(all, |es| + 1);
        FitIsLongest(all, max, |es| + 1);
      }
    }
  }

  // ---------- Representations ----------

  lemma {:induction false} FieldRead(t: Table, s: seq<byte>, pos: nat, d: Dynamic, hs: seq<Header>, d': Dynamic,
      end: nat)
      returns (f: Field)
    requires GoodTable(t) && pos < |s| && FieldAt(t, s, pos, d) == Done((hs, d', end))
    ensures FieldBytes(t, s, pos, f, end) && Means(f, d, hs, d')
  {
    hide IntegerAt, IntegerBytes, LiteralAt, LiteralBytes, Lookup, EntryOf, NameOf, Fit, Kept, Apart, AllOnes;
    if s[pos] >= 128 {
      var (i, p) := IntegerAt(s, pos, 7).value;
      IntegerIff(s, pos, 7, i, p);
      LookupIff(d, i);
      f := Indexed(i);
    } else if s[pos] >= 64 {
      var name := LiteralRead(t, s, pos, 6, d, hs[0], end);
      KeptIff(d'.entries, hs + d.entries, d.max);
      f := Adding(name, hs[0].1);
    } else if s[pos] >= 32 {
      var (max, p) := IntegerAt(s, pos, 5).value;
      IntegerIff(s, pos, 5, max, p);
      KeptIff(d'.entries, d.entries, max);
      f := Limit(max);
    } else {
      var name := LiteralRead(t, s, pos, 4, d, hs[0], end);
      f := Passing(name, hs[0].1);
    }
  }

  lemma {:induction false} FieldBack(t: Table, s: seq<byte>, pos: nat, d: Dynamic, hs: seq<Header>, d': Dynamic,
      f: Field, end: nat)
    requires GoodTable(t) && FieldBytes(t, s, pos, f, end) && Means(f, d, hs, d')
    ensures pos < |s| && FieldAt(t, s, pos, d) == Done((hs, d', end))
  {
    hide IntegerAt, IntegerBytes, LiteralAt, LiteralBytes, Lookup, EntryOf, NameOf, Fit, Kept, Apart, AllOnes;
    match f
    case Indexed(i) =>
      IntegerIff(s, pos, 7, i, end);
      LookupIff(d, i);
    case Adding(name, value) =>
      LiteralBack(t, s, pos, 6, d, name, value, end);
      KeptIff(d'.entries, hs + d.entries, d.max);
    case Limit(max) =>
      IntegerIff(s, pos, 5, max, end);
      KeptIff(d'.entries, d.entries, max);
    case Passing(name, value) =>
      LiteralBack(t, s, pos, 4, d, name, value, end);
  }

  // ---------- Blocks ----------

  lemma {:induction false} BlockRead(t: Table, s: seq<byte>, pos: nat, d: Dynamic, acc: seq<Header>)
      returns (fs: seq<Field>, hs: seq<Header>)
    requires GoodTable(t) && pos <= |s| && BlockFrom(t, s, pos, d, acc).0.Done?
    ensures BlockFrom(t, s, pos, d, acc).0 == Done(acc + hs) && BlockBytes(t, s, pos, fs)
    ensures MeansAll(fs, d, hs, BlockFrom(t, s, pos, d, acc).1)
    decreases |s| - pos
  {
    hide FieldAt, FieldBytes, Means, Apart, AllOnes;
    if pos == |s| {
      fs, hs := [], [];
      assert acc + [] == acc;
    } else {
      var (first, e, p) := FieldAt(t, s, pos, d).value;
      var f := FieldRead(t, s, pos, d, first, e, p);
      var fs', hs' := BlockRead(t, s, p, e, acc + first);
      fs, hs := [f] + fs', first + hs';
      assert fs[1..] == fs' && hs[..|first|] == first && hs[|first|..] == hs';
      assert MeansFirst(fs, d, hs, BlockFrom(t, s, pos, d, acc).1, |first|, e);
      assert (acc + first) + hs' == acc + hs;
    }
  }

  lemma {:induction false} BlockBack(t: Table, s: seq<byte>, pos: nat, d: Dynamic, acc: seq<Header>, fs: seq<Field>,
      hs: seq<Header>, d': Dynamic)
    requires GoodTable(t) && BlockBytes(t, s, pos, fs) && MeansAll(fs, d, hs, d')
    ensures BlockFrom(t, s, pos, d, acc) == (Done(acc + hs), d')
    decreases |fs|
  {
    hide FieldAt, FieldBytes, Means, Apart, AllOnes;
    if fs == [] {
      assert acc + [] == acc;
    } else {
      var end: nat :| FieldBytes(t, s, pos, fs[0], end) && BlockBytes(t, s, end, fs[1..]);
      var n: nat, e :| MeansFirst(fs, d, hs, d', n, e);
      FieldBack(t, s, pos, d, hs[..n], e, fs[0], end);
      BlockBack(t, s, end, e, acc + hs[..n], fs[1..], hs[n..], d');
      assert (acc + hs[..n]) + hs[n..] == acc + hs;
    }
  }

  /** Some list of representations stands in the bytes and means this. */
  ghost predicate Says(t: Table, s: seq<byte>, d: Dynamic, hs: seq<Header>, d': Dynamic)
    requires |t| == 257
  {
    exists fs :: BlockBytes(t, s, 0, fs) && MeansAll(fs, d, hs, d')
  }

  /** Decoding succeeds with these header fields and this table exactly when the block says so. */
  lemma {:induction false} DecodeExactly(t: Table, s: seq<byte>, d: Dynamic, hs: seq<Header>, d': Dynamic)
    requires GoodTable(t)
    ensures BlockFrom(t, s, 0, d, []) == (Done(hs), d') <==> Says(t, s, d, hs, d')
  {
    hide BlockFrom, BlockBytes, MeansAll, Apart, AllOnes;
    if BlockFrom(t, s, 0, d, []) == (Done(hs), d') {
      var fs, hs' := BlockRead(t, s, 0, d, []);
      assert [] + hs' == hs';
    }
    if Says(t, s, d, hs, d') {
      var fs :| BlockBytes(t, s, 0, fs) && MeansAll(fs, d, hs, d');
      BlockBack(t, s, 0, d, [], fs, hs, d');
      assert [] + hs == hs;
    }
  }

  // ---------- What an index means ----------

  /** An indexed field. */
  function IndexBytes(i: nat): (s: seq<byte>)
  {
    EncInteger(i, 7, 128)
  }

  /** A literal that enters the table, with its name spelled out. */
  function AddBytes(h: Header): (s: seq<byte>)
  {
    [64] + (EncString(h.0) + EncString(h.1))
  }

  /** A literal that does not, marked as never to be indexed or not. */
  function PassBytes(h: Header, never: bool): (s: seq<byte>)
  {
    [if never then 16 else 0] + (EncString(h.0) + EncString(h.1))
  }

  function LimitBytes(max: nat): (s: seq<byte>)
  {
    EncInteger(max, 5, 32)
  }

  lemma {:induction false} Prefixes()
    ensures Pow2(7) == 128 && Low(128, 7) == 0 && Pow2(5) == 32 && Low(32, 5) == 0
    ensures Pow2(6) == 64 && Low(64, 6) == 0 && Pow2(4) == 16 && Low(0, 4) == 0 && Low(16, 4) == 0
  {
    Pow2Is128();
    assert Pow2(4) == 16;
    assert Low(128, 4) == 0;
    assert Low(8, 3) == 0;
  }

  lemma {:induction false} FirstUnder(prefix: byte, v: nat)
    requires v < 256
    ensures prefix <= FirstByte(prefix, v)
  {
    OrAtLeast(prefix, v);
  }

  lemma {:induction false} OrAtLeast(a: nat, b: nat)
    ensures a <= BitOr(a, b)
    decreases a + b
  {
    hide BitOr;
    if a + b > 0 {
      OrBit(a, b);
      OrAtLeast(a / 2, b / 2);
    }
  }

  lemma {:induction false} FirstOfInteger(v: nat, bits: nat, prefix: byte)
    requires bits <= 8
    ensures prefix <= EncInteger(v, bits, prefix)[0]
  {
    hide FirstByte, EncGroups, Pow2;
    MaxBound(bits);
    FirstUnder(prefix, if v < Pow2(bits) - 1 then v else Pow2(bits) - 1);
  }

  /** A whole block that is one integer. */
  lemma {:induction false} IntegerAlone(v: nat, bits: nat, prefix: byte)
    requires bits <= 8 && Low(prefix, bits) == 0 && v - (Pow2(bits) - 1) < Pow2(63)
    ensures var s := EncInteger(v, bits, prefix); IntegerAt(s, 0, bits) == Done((v, |s|))
  {
    hide EncInteger, IntegerAt, Pow2, Low;
    IntegerBack(EncInteger(v, bits, prefix), 0, v, bits, prefix);
  }

  lemma {:induction false} BlockEnds(t: Table, s: seq<byte>, d: Dynamic, hs: seq<Header>, d': Dynamic)
    requires |t| == 257 && s != [] && FieldAt(t, s, 0, d) == Done((hs, d', |s|))
    ensures BlockFrom(t, s, 0, d, []) == (Done(hs), d')
  {
    hide FieldAt;
    assert [] + hs == hs;
    assert BlockFrom(t, s, |s|, d', hs) == (Done(hs), d');
  }

  /** An index stands for its entry; without one it is an error. */
  lemma {:induction false} IndexBack(t: Table, d: Dynamic, i: nat)
    requires |t| == 257 && i - 127 < Pow2(63)
    ensures HasEntry(d, i) ==> BlockFrom(t, IndexBytes(i), 0, d, []) == (Done([EntryOf(d, i)]), d)
    ensures !HasEntry(d, i) ==>
              BlockFrom(t, IndexBytes(i), 0, d, []) == (Fail(if i == 0 then IndexZero else IndexOutOfRange), d)
  {
    hide IntegerAt, EncInteger, Lookup, EntryOf, Pow2, Low, LiteralAt, Insert, Resize, HasEntry;
    Prefixes();
    var s := IndexBytes(i);
    FirstOfInteger(i, 7, 128);
    IntegerAlone(i, 7, 128);
    LookupIff(d, i);
    if HasEntry(d, i) { BlockEnds(t, s, d, [EntryOf(d, i)], d); }
  }

  /** A literal with its name spelled out, after a first byte that has no index. */
  lemma {:induction false} SpelledBack(t: Table, first: byte, bits: nat, h: Header, d: Dynamic)
    requires |t| == 257 && Sendable(h.0) && Sendable(h.1) && Low(first, bits) == 0 && Pow2(bits) > 1
    ensures var s := [first] + (EncString(h.0) + EncString(h.1)); LiteralAt(t, s, 0, bits, d) == Done((h, |s|))
  {
    hide StringAt, EncString, BytesAt, Lookup, Low, Pow2;
    var n, v := EncString(h.0), EncString(h.1);
    var s := [first] + (n + v);
    WholeAt(s);
    BytesAtTail(s, 0, first, n + v);
    BytesAtSplit(s, 1, n, v);
    assert IntegerAt(s, 0, bits) == Done((0, 1));
    StringBack(t, s, 1, h.0);
    StringBack(t, s, 1 + |n|, h.1);
  }

  lemma {:induction false} WholeAt(s: seq<byte>)
    ensures BytesAt(s, 0, s)
  {
  }

  /** The newest entries that fit after h has been added. */
  lemma {:induction false} AddBack(t: Table, h: Header, d: Dynamic)
    requires |t| == 257 && Sendable(h.0) && Sendable(h.1)
    ensures BlockFrom(t, AddBytes(h), 0, d, []) == (Done([h]), Insert(d, h))
  {
    hide LiteralAt, EncString, Insert, IntegerAt, Lookup, Resize, Pow2, Low;
    Prefixes();
    SpelledBack(t, 64, 6, h, d);
    BlockEnds(t, AddBytes(h), d, [h], Insert(d, h));
  }

  /** A literal that does not enter the table leaves every index as it was. */
  lemma {:induction false} PassBack(t: Table, h: Header, never: bool, d: Dynamic)
    requires |t| == 257 && Sendable(h.0) && Sendable(h.1)
    ensures BlockFrom(t, PassBytes(h, never), 0, d, []) == (Done([h]), d)
  {
    hide LiteralAt, EncString, Insert, IntegerAt, Lookup, Resize, Pow2, Low;
    Prefixes();
    SpelledBack(t, if never then 16 else 0, 4, h, d);
    BlockEnds(t, PassBytes(h, never), d, [h], d);
  }

  lemma {:induction false} LimitBack(t: Table, max: nat, d: Dynamic)
    requires |t| == 257 && max - 31 < Pow2(63)
    ensures BlockFrom(t, LimitBytes(max), 0, d, []) == (Done([]), Resize(d, max))
  {
    hide LiteralAt, EncInteger, Insert, IntegerAt, Lookup, Resize, Pow2, Low;
    Prefixes();
    var s := LimitBytes(max);
    FirstOfInteger(max, 5, 32);
    FirstBelow(max);
    IntegerAlone(max, 5, 32);
    BlockEnds(t, s, d, [], Resize(d, max));
  }

  lemma {:induction false} FirstBelow(max: nat)
    ensures LimitBytes(max)[0] < 64
  {
    hide EncGroups, BitOr;
    Prefixes();
    OrBound(32, if max < 31 then max else 31, 6);
  }

  /** Literals one after the other that do not enter the table. */
  function PassBlock(hs: seq<Header>, n: nat): (s: seq<byte>)
    requires n <= |hs|
  {
    if n == 0 then [] else PassBlock(hs, n - 1) + PassBytes(hs[n - 1], false)
  }

  /** The encoder writes such literals, with names in lower case. */
  lemma {:induction false} EncodesLiterals(hs: seq<Header>, n: nat)
    requires n <= |hs|
    ensures EncBlock(hs, n) == PassBlock(Lowered(hs), n)
  {
    hide EncString, LowerText;
    if n > 0 { EncodesLiterals(hs, n - 1); }
  }

  // ---------- Tables after several literals ----------

  function Reversed(hs: seq<Header>): (r: seq<Header>)
    ensures |r| == |hs| && forall i :: 0 <= i < |r| ==> r[i] == hs[|hs| - 1 - i]
  {
    seq(|hs|, i requires 0 <= i < |hs| => hs[|hs| - 1 - i])
  }

  function AddBlock(hs: seq<Header>): (s: seq<byte>)
  {
    if hs == [] then [] else AddBlock(hs[..|hs| - 1]) + AddBytes(hs[|hs| - 1])
  }

  /** Entries that a smaller limit would keep are not lost to a larger one before. */
  lemma {:induction false} FitFit(es: seq<Header>, max: nat, less: nat)
    requires less <= max
    ensures Fit(Fit(es, max), less) == Fit(es, less)
  {
    hide SizeTo, Fit;
    var a, b := Fit(es, max), Fit(es, less);
    FitIsLongest(es, max, 0);
    FitIsLongest(es, less, 0);
    FitIsLongest(es, less, |b|);
    FitIsLongest(es, max, |b|);
    var c := Fit(a, less);
    FitIsLongest(a, less, 0);
    FitIsLongest(a, less, |c|);
    SizeSame(a, es, |c|);
    FitIsLongest(es, less, |c|);
    SizeSame(a, es, |b|);
    FitIsLongest(a, less, |b|);
  }

  lemma {:induction false} InsertAfter(es: seq<Header>, h: Header, max: nat)
    ensures Fit([h] + Fit(es, max), max) == Fit([h] + es, max)
  {
    hide Fit, EntrySize;
    InsertEvicts(h, es, max);
    InsertEvicts(h, Fit(es, max), max);
    if EntrySize(h) <= max { FitFit(es, max, max - EntrySize(h)); }
  }

  ghost predicate AllSendable(hs: seq<Header>)
  {
    forall i :: 0 <= i < |hs| ==> Sendable(hs[i].0) && Sendable(hs[i].1)
  }

  lemma {:induction false} AddAll(t: Table, hs: seq<Header>, d: Dynamic)
    requires |t| == 257 && AllSendable(hs) && Within(d)
    ensures BlockFrom(t, AddBlock(hs), 0, d, []) == (Done(hs), Dynamic(Fit(Reversed(hs) + d.entries, d.max), d.max))
    decreases |hs|
  {
    hide BlockFrom, AddBytes, Fit, Sendable, Within;
    if hs == [] {
      assert Reversed(hs) + d.entries == d.entries;
      NothingAdded(t, d);
    } else {
      var n := |hs| - 1;
      var h, before := hs[n], hs[..n];
      AddAll(t, before, d);
      var e := Dynamic(Fit(Reversed(before) + d.entries, d.max), d.max);
      AddBack(t, h, e);
      DecodeConcat(t, AddBlock(before), AddBytes(h), d);
      InsertAfter(Reversed(before) + d.entries, h, d.max);
      assert [h] + (Reversed(before) + d.entries) == Reversed(hs) + d.entries;
      assert before + [h] == hs;
    }
  }

  lemma {:induction false} NothingAdded(t: Table, d: Dynamic)
    requires |t| == 257 && Within(d)
    ensures BlockFrom(t, [], 0, d, []) == (Done([]), d) && Fit(d.entries, d.max) == d.entries
  {
  }

  /** After any literals, an index from 62 on stands for the newest of them first and then for the entries of the
      earlier table, as far as they all fit; beyond that it is an error. */
  lemma {:induction false} AddedThenIndexed(t: Table, hs: seq<Header>, d: Dynamic, i: nat)
    requires |t| == 257 && AllSendable(hs) && Within(d) && i < Pow2(63)
    ensures var all := Reversed(hs) + d.entries;
            BlockFrom(t, AddBlock(hs) + IndexBytes(62 + i), 0, d, []).0 ==
            if i < |all| && Weight(all[..i + 1]) <= d.max then Done(hs + [all[i]]) else Fail(IndexOutOfRange)
  {
    hide BlockFrom, AddBlock, IndexBytes, Fit, Weight, AllSendable, Within, Pow2;
    var all := Reversed(hs) + d.entries;
    var e := Dynamic(Fit(all, d.max), d.max);
    AddAll(t, hs, d);
    DecodeConcat(t, AddBlock(hs), IndexBytes(62 + i), d);
    IndexBack(t, e, 62 + i);
    StillThere(all, d.max, i);
  }

  lemma {:induction false} StillThere(all: seq<Header>, max: nat, i: nat)
    ensures i < |Fit(all, max)| <==> i < |all| && Weight(all[..i + 1]) <= max
    ensures i < |Fit(all, max)| ==> Fit(all, max)[i] == all[i]
  {
    hide Weight, Fit;
    FitIsLongest(all, max, 0);
    if i < |all| {
      FitIsLongest(all, max, i + 1);
      WeightIs(all, i + 1);
    }
  }

  /** A literal that enters the table can be repeated by index 62, exactly when it fits the table at all. */
  lemma {:induction false} AddedTwice(t: Table, h: Header, d: Dynamic)
    requires |t| == 257 && Sendable(h.0) && Sendable(h.1) && Within(d)
    ensures BlockFrom(t, AddBytes(h) + [0xBE], 0, d, []).0 ==
            if |h.0| + |h.1| + 32 <= d.max then Done([h, h]) else Fail(IndexOutOfRange)
  {
    hide BlockFrom, AddBytes, AddBlock, IndexBytes, Sendable, Within, Pow2, Weight, Reversed;
    OneAdded(h);
    IndexByte(62);
    WordPower();
    AddedThenIndexed(t, [h], d, 0);
    OneWeight(h, d.entries);
  }

  lemma {:induction false} OneWeight(h: Header, es: seq<Header>)
    ensures var all := Reversed([h]) + es;
            |all| > 0 && [h] + [all[0]] == [h, h] && Weight(all[..1]) == |h.0| + |h.1| + 32
  {
    hide Reversed, Weight;
    var all := Reversed([h]) + es;
    assert all[0] == h;
    assert all[..1] == [h];
    WeightOne(h);
  }

  lemma {:induction false} WeightOne(h: Header)
    ensures Weight([h]) == |h.0| + |h.1| + 32
  {
    assert [h][..0] == [];
    assert Weight([]) == 0;
  }

  lemma {:induction false} OneAdded(h: Header)
    ensures AddBlock([h]) == AddBytes(h)
  {
    hide AddBytes;
    assert [h][..0] == [];
    assert AddBlock([]) == [];
  }

  /** Small indices are one byte. */
  lemma {:induction false} IndexByte(i: nat)
    requires i < 127
    ensures IndexBytes(i) == [128 + i]
  {
    hide BitOr;
    Prefixes();
    OrComm(128, i);
    ShlOne(7);
    OrIsAdd(i, 1, 7);
  }

  /** After a new limit exactly the newest entries that fit it can be indexed. */
  lemma {:induction false} LimitedThenIndexed(t: Table, max: nat, d: Dynamic, i: nat)
    requires |t| == 257 && max - 31 < Pow2(63) && i < Pow2(63)
    ensures BlockFrom(t, LimitBytes(max) + IndexBytes(62 + i), 0, d, []).0 ==
            if i < |d.entries| && Weight(d.entries[..i + 1]) <= max then Done([d.entries[i]])
            else Fail(IndexOutOfRange)
  {
    hide BlockFrom, LimitBytes, IndexBytes, Fit, Weight, Pow2;
    LimitBack(t, max, d);
    var e := Resize(d, max);
    DecodeConcat(t, LimitBytes(max), IndexBytes(62 + i), d);
    IndexBack(t, e, 62 + i);
    StillThere(d.entries, max, i);
    if i < |e.entries| { assert [] + [e.entries[i]] == [e.entries[i]]; }
  }

  // ---------- The static table ----------

  /** Some of the static entries, as the blocks that stand for them. */
  lemma {:induction false} StaticIndices(t: Table, d: Dynamic)
    requires |t| == 257
    ensures BlockFrom(t, [0x82], 0, d, []).0
         == Done([([0x3A, 0x6D, 0x65, 0x74, 0x68, 0x6F, 0x64], [0x47, 0x45, 0x54])])
    ensures BlockFrom(t, [0x81], 0, d, []).0 == Done([(Ascii(":authority"), [])])
    ensures BlockFrom(t, [0x83], 0, d, []).0 == Done([(Ascii(":method"), Ascii("POST"))])
    ensures BlockFrom(t, [0x84], 0, d, []).0 == Done([(Ascii(":path"), Ascii("/"))])
    ensures BlockFrom(t, [0x87], 0, d, []).0 == Done([(Ascii(":scheme"), Ascii("https"))])
    ensures BlockFrom(t, [0x88], 0, d, []).0 == Done([(Ascii(":status"), Ascii("200"))])
    ensures BlockFrom(t, [0x8E], 0, d, []).0 == Done([(Ascii(":status"), Ascii("500"))])
    ensures BlockFrom(t, [0x90], 0, d, []).0 == Done([(Ascii("accept-encoding"), Ascii("gzip, deflate"))])
    ensures BlockFrom(t, [0x9F], 0, d, []).0 == Done([(Ascii("content-type"), [])])
    ensures BlockFrom(t, [0xB7], 0, d, []).0 == Done([(Ascii("set-cookie"), [])])
    ensures BlockFrom(t, [0xBD], 0, d, []).0 == Done([(Ascii("www-authenticate"), [])])
  {
    hide BlockFrom, IndexBytes, Ascii, StaticRow;
    StaticRows();
    LaterStaticRows();
    MethodGet();
    NoAscii();
    StaticBlock(t, d, 2);
    StaticBlock(t, d, 1);
    StaticBlock(t, d, 3);
    StaticBlock(t, d, 4);
    StaticBlock(t, d, 7);
    StaticBlock(t, d, 8);
    StaticBlock(t, d, 14);
    StaticBlock(t, d, 16);
    StaticBlock(t, d, 31);
    StaticBlock(t, d, 55);
    StaticBlock(t, d, 61);
  }

  lemma {:induction false} StaticRows()
    ensures StaticRow(1) == (":method", "GET")
    ensures StaticRow(0) == (":authority", "")
    ensures StaticRow(2) == (":method", "POST")
    ensures StaticRow(3) == (":path", "/")
    ensures StaticRow(6) == (":scheme", "https")
    ensures StaticRow(7) == (":status", "200")
  {
  }

  lemma {:induction false} LaterStaticRows()
    ensures StaticRow(13) == (":status", "500")
    ensures StaticRow(15) == ("accept-encoding", "gzip, deflate")
    ensures StaticRow(30) == ("content-type", "")
    ensures StaticRow(54) == ("set-cookie", "")
    ensures StaticRow(60) == ("www-authenticate", "")
  {
  }

  lemma {:induction false} StaticBlock(t: Table, d: Dynamic, i: nat)
    requires |t| == 257 && 1 <= i <= 61
    ensures BlockFrom(t, [128 + i], 0, d, []).0 == Done([(Ascii(StaticRow(i - 1).0), Ascii(StaticRow(i - 1).1))])
  {
    hide BlockFrom, IndexBytes, Ascii, StaticRow, Pow2;
    IndexByte(i);
    WordPower();
    IndexBack(t, d, i);
  }

  lemma {:induction false} MethodGet()
    ensures Ascii(":method") == [0x3A, 0x6D, 0x65, 0x74, 0x68, 0x6F, 0x64] && Ascii("GET") == [0x47, 0x45, 0x54]
  {
  }

  lemma {:induction false} NoAscii()
    ensures Ascii("") == []
  {
  }
}
