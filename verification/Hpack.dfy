/** The HPACK decoder and encoder (RFC 7541): header fields, the dynamic table,
    and what one can rely on over whole header blocks. */
module Hpack {
  import opened Bits
  import opened HpackInteger
  import opened HpackHuffman

  /** Header names and values are byte strings. */
  type Text = seq<byte>

  type Header = (Text, Text)

  // ---------- The static table ----------

  /** Row i of the table, counted from zero. */
  function StaticRow(i: nat): (r: (string, string))
    requires i < 61
  {
    match i
    case 0 => (":authority", "") case 1 => (":method", "GET") case 2 => (":method", "POST") case 3 => (":path", "/")
    case 4 => (":path", "/index.html") case 5 => (":scheme", "http") case 6 => (":scheme", "https")
    case 7 => (":status", "200") case 8 => (":status", "204") case 9 => (":status", "206")
    case 10 => (":status", "304") case 11 => (":status", "400") case 12 => (":status", "404")
    case 13 => (":status", "500") case 14 => ("accept-charset", "") case 15 => ("accept-encoding", "gzip, deflate")
    case 16 => ("accept-language", "") case 17 => ("accept-ranges", "") case 18 => ("accept", "")
    case 19 => ("access-control-allow-origin", "") case 20 => ("age", "") case 21 => ("allow", "")
    case 22 => ("authorization", "") case 23 => ("cache-control", "") case 24 => ("content-disposition", "")
    case 25 => ("content-encoding", "") case 26 => ("content-language", "") case 27 => ("content-length", "")
    case 28 => ("content-location", "") case 29 => ("content-range", "") case 30 => ("content-type", "")
    case 31 => ("cookie", "") case 32 => ("date", "") case 33 => ("etag", "") case 34 => ("expect", "")
    case 35 => ("expires", "") case 36 => ("from", "") case 37 => ("host", "") case 38 => ("if-match", "")
    case 39 => ("if-modified-since", "") case 40 => ("if-none-match", "") case 41 => ("if-range", "")
    case 42 => ("if-unmodified-since", "") case 43 => ("last-modified", "") case 44 => ("link", "")
    case 45 => ("location", "") case 46 => ("max-forwards", "") case 47 => ("proxy-authenticate", "")
    case 48 => ("proxy-authorization", "") case 49 => ("range", "") case 50 => ("referer", "")
    case 51 => ("refresh", "") case 52 => ("retry-after", "") case 53 => ("server", "") case 54 => ("set-cookie", "")
    case 55 => ("strict-transport-security", "") case 56 => ("transfer-encoding", "") case 57 => ("user-agent", "")
    case 58 => ("vary", "") case 59 => ("via", "") case _ => ("www-authenticate", "")
  }

  function StaticTable(): (r: seq<(string, string)>)
    ensures |r| == 61
  {
    seq(61, i requires 0 <= i < 61 => StaticRow(i))
  }

  function Ascii(s: string): (r: Text)
    ensures |r| == |s|
  {
    seq(|s|, i requires 0 <= i < |s| => (s[i] as int) % 256)
  }

  // ---------- The dynamic table ----------

  /** The newest entry first, and the limit on the size. */
  datatype Dynamic = Dynamic(entries: seq<Header>, max: nat)

  function EntrySize(h: Header): (n: nat)
    ensures n >= 32
  {
    |h.0| + |h.1| + 32
  }

  /** The size of the first n entries. */
  function SizeTo(es: seq<Header>, n: nat): (r: nat)
    requires n <= |es|
  {
    if n == 0 then 0 else SizeTo(es, n - 1) + EntrySize(es[n - 1])
  }

  /** The most entries, out of the first n, that fit. */
  function FitLen(es: seq<Header>, max: nat, n: nat): (k: nat)
    requires n <= |es|
    ensures k <= n && SizeTo(es, k) <= max
  {
    if SizeTo(es, n) <= max then n else FitLen(es, max, n - 1)
  }

  function Fit(es: seq<Header>, max: nat): (r: seq<Header>)
  {
    es[..FitLen(es, max, |es|)]
  }

  lemma {:induction false} SizeMono(es: seq<Header>, j: nat, k: nat)
    requires j <= k <= |es|
    ensures SizeTo(es, j) <= SizeTo(es, k)
  {
    if j < k { SizeMono(es, j, k - 1); }
  }

  lemma {:induction false} SizeSame(a: seq<Header>, b: seq<Header>, n: nat)
    requires n <= |a| && n <= |b| && forall i :: 0 <= i < n ==> a[i] == b[i]
    ensures SizeTo(a, n) == SizeTo(b, n)
  {
    if n > 0 { SizeSame(a, b, n - 1); }
  }

  lemma {:induction false} FitLongestTo(es: seq<Header>, max: nat, n: nat, k: nat)
    requires k <= n <= |es| && SizeTo(es, k) <= max
    ensures k <= FitLen(es, max, n)
  {
    if SizeTo(es, n) > max { FitLongestTo(es, max, n - 1, k); }
  }

  /** Eviction keeps the longest run of newest entries that fits. */
  lemma {:induction false} FitIsLongest(es: seq<Header>, max: nat, k: nat)
    requires k <= |es|
    ensures Fit(es, max) <= es && SizeTo(Fit(es, max), |Fit(es, max)|) <= max
    ensures SizeTo(es, k) <= max <==> k <= |Fit(es, max)|
  {
    var n := FitLen(es, max, |es|);
    SizeSame(Fit(es, max), es, n);
    if SizeTo(es, k) <= max { FitLongestTo(es, max, |es|, k); }
    if k <= n { SizeMono(es, k, n); }
  }

  lemma {:induction false} SizeCons(h: Header, es: seq<Header>, n: nat)
    requires n <= |es|
    ensures SizeTo([h] + es, n + 1) == EntrySize(h) + SizeTo(es, n)
  {
    if n == 0 {
      assert SizeTo([h] + es, 0) == 0;
    } else {
      SizeCons(h, es, n - 1);
    }
  }

  /** Adding an entry and then evicting is evicting to make room and then adding the entry, or emptying the table
      for an entry that does not fit at all (section 4.4 of RFC 7541). */
  lemma {:induction false} InsertEvicts(h: Header, es: seq<Header>, max: nat)
    ensures Fit([h] + es, max) == if EntrySize(h) > max then [] else [h] + Fit(es, max - EntrySize(h))
  {
    hide SizeTo, EntrySize, FitLen;
    var all := [h] + es;
    var n := |Fit(all, max)|;
    FitIsLongest(all, max, 0);
    SizeCons(h, es, 0);
    SizeNone(es);
    FitIsLongest(all, max, 1);
    if EntrySize(h) <= max {
      var room := max - EntrySize(h);
      var k := |Fit(es, room)|;
      FitIsLongest(es, room, k);
      FitIsLongest(all, max, k + 1);
      SizeCons(h, es, k);
      FitIsLongest(es, room, n - 1);
      FitIsLongest(all, max, n);
      SizeCons(h, es, n - 1);
    }
  }

  lemma {:induction false} SizeNone(es: seq<Header>)
    ensures SizeTo(es, 0) == 0
  {
  }

  function Insert(d: Dynamic, h: Header): (r: Dynamic)
  {
    Dynamic(Fit([h] + d.entries, d.max), d.max)
  }

  function Resize(d: Dynamic, max: nat): (r: Dynamic)
  {
    Dynamic(Fit(d.entries, max), max)
  }

  function Lookup(d: Dynamic, index: nat): (r: Outcome<Header>)
  {
    if index == 0 then Fail(IndexZero)
    else if index <= 61 then Done((Ascii(StaticTable()[index - 1].0), Ascii(StaticTable()[index - 1].1)))
    else if index - 62 < |d.entries| then Done(d.entries[index - 62])
    else Fail(IndexOutOfRange)
  }

  // ---------- Header blocks ----------

  ghost function StringAt(t: Table, s: seq<byte>, pos: nat): (r: Outcome<(Text, nat)>)
    requires |t| == 257
    ensures r.Done? ==> pos < r.value.1 <= |s|
  {
    if pos >= |s| then Fail(StringOutOfInput)
    else
      var (len, p) :- IntegerAt(s, pos, 7);
      if p + len > |s| then Fail(StringTooLong)
      else if s[pos] >= 128 then
        var text :- Decoded(t, MsbStream(s[p..p + len], len));
        Done((text, p + len))
      else Done((s[p..p + len], p + len))
  }

  /** A name that is given by an index, or as a string at p when the index is zero, and the position after it. */
  ghost function NameAt(t: Table, s: seq<byte>, p: nat, index: nat, d: Dynamic): (r: Outcome<(Text, nat)>)
    requires |t| == 257
    ensures r.Done? ==> p <= r.value.1
  {
    if index == 0 then StringAt(t, s, p)
    else
      var h :- Lookup(d, index);
      Done((h.0, p))
  }

  /** A literal header field whose name is an index or a string. */
  ghost function LiteralAt(t: Table, s: seq<byte>, pos: nat, bits: nat, d: Dynamic): (r: Outcome<(Header, nat)>)
    requires |t| == 257
    ensures r.Done? ==> pos < r.value.1 <= |s|
  {
    var (index, p) :- IntegerAt(s, pos, bits);
    var (name, q) :- NameAt(t, s, p, index, d);
    var (value, e) :- StringAt(t, s, q);
    Done(((name, value), e))
  }

  /** One representation: the header fields it adds, the table after it, and the position after it. */
  ghost function FieldAt(t: Table, s: seq<byte>, pos: nat, d: Dynamic): (r: Outcome<(seq<Header>, Dynamic, nat)>)
    requires |t| == 257 && pos < |s|
    ensures r.Done? ==> pos < r.value.2 <= |s|
  {
    if s[pos] >= 128 then
      var (index, p) :- IntegerAt(s, pos, 7);
      var h :- Lookup(d, index);
      Done(([h], d, p))
    else if s[pos] >= 64 then
      var (h, p) :- LiteralAt(t, s, pos, 6, d);
      Done(([h], Insert(d, h), p))
    else if s[pos] >= 32 then
      var (max, p) :- IntegerAt(s, pos, 5);
      Done(([], Resize(d, max), p))
    else
      var (h, p) :- LiteralAt(t, s, pos, 4, d);
      Done(([h], d, p))
  }

  /** The header fields from pos on, after acc, and the table at the end or at the failure. */
  ghost function BlockFrom(t: Table, s: seq<byte>, pos: nat, d: Dynamic,
      acc: seq<Header>): (r: (Outcome<seq<Header>>, Dynamic))
    requires |t| == 257
    decreases |s| - pos, s
  {
    if pos >= |s| then (Done(acc), d)
    else
      match FieldAt(t, s, pos, d)
      case Fail(e) => (Fail(e), d)
      case Done((hs, d', p)) => BlockFrom(t, s, p, d', acc + hs)
  }

  // ---------- Blocks one after the other ----------

  lemma {:induction false} ContinueLocal(a: seq<byte>, b: seq<byte>, pos: nat, m: nat, v: nat)
    requires Continue(a, pos, m, v).Done?
    ensures Continue(a + b, pos, m, v) == Continue(a, pos, m, v)
    decreases |a| - pos
  {
    hide Shl;
    if a[pos] >= 128 && m + 7 <= 64 { ContinueLocal(a, b, pos + 1, m + 7, v + Shl(a[pos] % 128, m) % WORD); }
  }

  /** What follows an integer does not change it. */
  lemma {:induction false} IntegerLocal(a: seq<byte>, b: seq<byte>, pos: nat, bits: nat)
    requires IntegerAt(a, pos, bits).Done?
    ensures IntegerAt(a + b, pos, bits) == IntegerAt(a, pos, bits)
  {
    hide Continue, Low, Pow2;
    if Low(a[pos], bits) >= Pow2(bits) - 1 { ContinueLocal(a, b, pos + 1, 0, Low(a[pos], bits)); }
  }

  lemma {:induction false} StringLocal(t: Table, a: seq<byte>, b: seq<byte>, pos: nat)
    requires |t| == 257 && StringAt(t, a, pos).Done?
    ensures StringAt(t, a + b, pos) == StringAt(t, a, pos)
  {
    hide IntegerAt, Decoded, MsbStream;
    IntegerLocal(a, b, pos, 7);
    var (len, p) := IntegerAt(a, pos, 7).value;
    assert (a + b)[p..p + len] == a[p..p + len];
  }

  lemma {:induction false} LiteralLocal(t: Table, a: seq<byte>, b: seq<byte>, pos: nat, bits: nat, d: Dynamic)
    requires |t| == 257 && LiteralAt(t, a, pos, bits, d).Done?
    ensures LiteralAt(t, a + b, pos, bits, d) == LiteralAt(t, a, pos, bits, d)
  {
    hide IntegerAt, StringAt, Lookup;
    IntegerLocal(a, b, pos, bits);
    var (index, p) := IntegerAt(a, pos, bits).value;
    StringLocal(t, a, b, p);
    if index == 0 { StringLocal(t, a, b, StringAt(t, a, p).value.1); }
  }

  lemma {:induction false} FieldLocal(t: Table, a: seq<byte>, b: seq<byte>, pos: nat, d: Dynamic)
    requires |t| == 257 && pos < |a| && FieldAt(t, a, pos, d).Done?
    ensures FieldAt(t, a + b, pos, d) == FieldAt(t, a, pos, d)
  {
    hide IntegerAt, LiteralAt, Lookup, Insert, Resize;
    if a[pos] >= 128 {
      IntegerLocal(a, b, pos, 7);
    } else if a[pos] >= 64 {
      LiteralLocal(t, a, b, pos, 6, d);
    } else if a[pos] >= 32 {
      IntegerLocal(a, b, pos, 5);
    } else {
      LiteralLocal(t, a, b, pos, 4, d);
    }
  }

  /** A position moved by k. */
  function Moved<T>(r: Outcome<(T, nat)>, k: nat): (r': Outcome<(T, nat)>)
  {
    match r
    case Done((v, p)) => Done((v, p + k))
    case Fail(e) => Fail(e)
  }

  lemma {:induction false} ContinueMoved(a: seq<byte>, b: seq<byte>, pos: nat, m: nat, v: nat)
    ensures Continue(a + b, |a| + pos, m, v) == Moved(Continue(b, pos, m, v), |a|)
    decreases |b| - pos
  {
    hide Shl;
    if pos < |b| && m < 64 { ContinueMoved(a, b, pos + 1, m + 7, v + Shl(b[pos] % 128, m) % WORD); }
  }

  lemma {:induction false} IntegerMoved(a: seq<byte>, b: seq<byte>, pos: nat, bits: nat)
    ensures IntegerAt(a + b, |a| + pos, bits) == Moved(IntegerAt(b, pos, bits), |a|)
  {
    hide Continue, Low, Pow2;
    if pos < |b| { ContinueMoved(a, b, pos + 1, 0, Low(b[pos], bits)); }
  }

  lemma {:induction false} StringMoved(t: Table, a: seq<byte>, b: seq<byte>, pos: nat)
    requires |t| == 257
    ensures StringAt(t, a + b, |a| + pos) == Moved(StringAt(t, b, pos), |a|)
  {
    hide IntegerAt, Decoded, MsbStream;
    IntegerMoved(a, b, pos, 7);
    if pos < |b| && IntegerAt(b, pos, 7).Done? {
      var (len, p) := IntegerAt(b, pos, 7).value;
      if p + len <= |b| { assert (a + b)[|a| + p..|a| + p + len] == b[p..p + len]; }
    }
  }

  lemma {:induction false} LiteralMoved(t: Table, a: seq<byte>, b: seq<byte>, pos: nat, bits: nat, d: Dynamic)
    requires |t| == 257
    ensures LiteralAt(t, a + b, |a| + pos, bits, d) == Moved(LiteralAt(t, b, pos, bits, d), |a|)
  {
    hide IntegerAt, StringAt, Lookup;
    IntegerMoved(a, b, pos, bits);
    if IntegerAt(b, pos, bits).Done? {
      var (index, p) := IntegerAt(b, pos, bits).value;
      StringMoved(t, a, b, p);
      if index == 0 && StringAt(t, b, p).Done? { StringMoved(t, a, b, StringAt(t, b, p).value.1); }
    }
  }

  lemma {:induction false} FieldMoved(t: Table, a: seq<byte>, b: seq<byte>, pos: nat, d: Dynamic)
    requires |t| == 257 && pos < |b|
    ensures FieldAt(t, a + b, |a| + pos, d) ==
            match FieldAt(t, b, pos, d)
            case Done((hs, d', p)) => Done((hs, d', |a| + p))
            case Fail(e) => Fail(e)
  {
    hide IntegerAt, LiteralAt, Lookup, Insert, Resize;
    assert (a + b)[|a| + pos] == b[pos];
    IntegerMoved(a, b, pos, 7);
    IntegerMoved(a, b, pos, 5);
    LiteralMoved(t, a, b, pos, 6, d);
    LiteralMoved(t, a, b, pos, 4, d);
  }

  /** The rest of a block decodes as a block of its own; acc only stands in front. */
  lemma {:induction false} BlockMoved(t: Table, a: seq<byte>, b: seq<byte>, pos: nat, d: Dynamic, acc: seq<Header>,
      own: seq<Header>)
    requires |t| == 257
    ensures var r := BlockFrom(t, b, pos, d, own);
            BlockFrom(t, a + b, |a| + pos, d, acc + own) ==
            (match r.0 case Done(hs) => Done(acc + hs) case Fail(e) => Fail(e), r.1)
    decreases |b| - pos
  {
    hide FieldAt;
    if pos < |b| {
      FieldMoved(t, a, b, pos, d);
      match FieldAt(t, b, pos, d)
      case Fail(_) =>
      case Done((hs, d', p)) =>
        BlockMoved(t, a, b, p, d', acc, own + hs);
        assert (acc + own) + hs == acc + (own + hs);
    }
  }

  lemma {:induction false} BlockLocal(t: Table, a: seq<byte>, b: seq<byte>, pos: nat, d: Dynamic, acc: seq<Header>)
    requires |t| == 257 && pos <= |a| && BlockFrom(t, a, pos, d, acc).0.Done?
    ensures BlockFrom(t, a + b, pos, d, acc) ==
              BlockFrom(t, a + b, |a|, BlockFrom(t, a, pos, d, acc).1, BlockFrom(t, a, pos, d, acc).0.value)
    decreases |a| - pos
  {
    hide FieldAt;
    if pos < |a| {
      FieldLocal(t, a, b, pos, d);
      var (hs, d', p) := FieldAt(t, a, pos, d).value;
      BlockLocal(t, a, b, p, d', acc + hs);
    }
  }

  /** When a block decodes, decoding it followed by another one is decoding both in turn. */
  lemma {:induction false} DecodeConcat(t: Table, a: seq<byte>, b: seq<byte>, d: Dynamic)
    requires |t| == 257 && BlockFrom(t, a, 0, d, []).0.Done?
    ensures var (first, d') := BlockFrom(t, a, 0, d, []);
            var (second, d'') := BlockFrom(t, b, 0, d', []);
            BlockFrom(t, a + b, 0, d, []) ==
                (match second case Done(hs) => Done(first.value + hs) case Fail(e) => Fail(e), d'')
  {
    hide BlockFrom;
    var (first, d') := BlockFrom(t, a, 0, d, []);
    BlockLocal(t, a, b, 0, d, []);
    BlockMoved(t, a, b, 0, d', first.value, []);
    assert first.value + [] == first.value;
  }

  // ---------- The table stays within its limit ----------

  ghost predicate Within(d: Dynamic)
  {
    SizeTo(d.entries, |d.entries|) <= d.max
  }

  /** Whatever a block holds, and wherever it fails, the table stays within its limit. */
  lemma {:induction false} BlockWithin(t: Table, s: seq<byte>, pos: nat, d: Dynamic, acc: seq<Header>)
    requires |t| == 257 && Within(d)
    ensures Within(BlockFrom(t, s, pos, d, acc).1)
    decreases |s| - pos
  {
    hide IntegerAt, LiteralAt, Lookup, SizeTo, Fit;
    if pos < |s| && FieldAt(t, s, pos, d).Done? {
      var (hs, d', p) := FieldAt(t, s, pos, d).value;
      if hs != [] { FitIsLongest([hs[0]] + d.entries, d.max, 0); }
      FitIsLongest(d.entries, d'.max, 0);
      BlockWithin(t, s, p, d', acc + hs);
    }
  }

  // ---------- The decoder ----------

  class HpackDecoder {
    var dynamic: seq<Header>
    var size: nat
    var maxSize: nat

    ghost predicate Valid()
      reads this
    {
      size == SizeTo(dynamic, |dynamic|) && size <= maxSize
    }

    ghost function State(): (d: Dynamic)
      reads this
    {
      Dynamic(dynamic, maxSize)
    }

    constructor ()
      ensures Valid() && State() == Dynamic([], 4096)
    {
      dynamic, size, maxSize := [], 0, 4096;
    }

    /** Entries go from the back until the rest fits. */
    method Evict()
      requires size == SizeTo(dynamic, |dynamic|)
      modifies this`dynamic, this`size
      ensures Valid() && dynamic == Fit(old(dynamic), maxSize)
    {
      ghost var all := dynamic;
      while size > maxSize && |dynamic| > 0
        invariant |dynamic| <= |all| && dynamic == all[..|dynamic|] && size == SizeTo(all, |dynamic|)
        invariant FitLen(all, maxSize, |all|) == FitLen(all, maxSize, |dynamic|)
      {
        var last := dynamic[|dynamic| - 1];
        size := size - EntrySize(last);
        dynamic := dynamic[..|dynamic| - 1];
      }
      SizeSame(dynamic, all, |dynamic|);
    }

    method InsertDynamic(h: Header)
      requires Valid()
      modifies this`dynamic, this`size
      ensures Valid() && State() == Insert(old(State()), h)
    {
      hide SizeTo, FitLen;
      var sz := EntrySize(h);
      if sz > maxSize {
        InsertEvicts(h, dynamic, maxSize);
        SizeNone([]);
        dynamic, size := [], 0;
        return;
      }
      SizeCons(h, dynamic, |dynamic|);
      size := size + sz;
      dynamic := [h] + dynamic;
      Evict();
    }

    method SetMaxSize(max: nat)
      requires Valid()
      modifies this
      ensures Valid() && State() == Resize(old(State()), max)
    {
      maxSize := max;
      Evict();
    }

    method LookupEntry(index: nat) returns (r: Outcome<Header>)
      ensures r == Lookup(State(), index)
    {
      hide StaticTable, Ascii;
      if index == 0 { return Fail(IndexZero); }
      var fixed := StaticTable();
      if index <= |fixed| {
        var (n, v) := fixed[index - 1];
        r := Done((Ascii(n), Ascii(v)));
      } else {
        var i := index - |fixed| - 1;
        r := if i < |dynamic| then Done(dynamic[i]) else Fail(IndexOutOfRange);
      }
    }

    method DecodeLiteral(t: Table, s: seq<byte>, pos: nat, bits: nat) returns (r: Outcome<(Header, nat)>)
      requires GoodTable(t)
      ensures r == LiteralAt(t, s, pos, bits, State())
    {
      hide IntegerAt, StringAt, Lookup, Apart, AllOnes;
      var i := DecodeInteger(s, pos, bits);
      if i.Fail? { return Fail(i.error); }
      var (index, p) := i.value;
      var name: Text, q := [], p;
      if index == 0 {
        var n := DecodeString(t, s, p);
        if n.Fail? { return Fail(n.error); }
        name, q := n.value.0, n.value.1;
      } else {
        var h := LookupEntry(index);
        if h.Fail? { return Fail(h.error); }
        name := h.value.0;
      }
      var v := DecodeString(t, s, q);
      if v.Fail? { return Fail(v.error); }
      r := Done(((name, v.value.0), v.value.1));
    }

    /** One representation. */
    method DecodeField(t: Table, s: seq<byte>, pos: nat) returns (r: Outcome<(seq<Header>, nat)>)
      requires Valid() && GoodTable(t) && pos < |s|
      modifies this
      ensures Valid()
      ensures r.Done? ==> FieldAt(t, s, pos, old(State())) == Done((r.value.0, State(), r.value.1))
      ensures r.Fail? ==> FieldAt(t, s, pos, old(State())) == Fail(r.error) && State() == old(State())
    {
      hide IntegerAt, LiteralAt, Lookup, Insert, Resize, SizeTo, Apart, AllOnes;
      var first := s[pos];
      if first >= 128 {
        var i := DecodeInteger(s, pos, 7);
        if i.Fail? { return Fail(i.error); }
        var h := LookupEntry(i.value.0);
        if h.Fail? { return Fail(h.error); }
        r := Done(([h.value], i.value.1));
      } else if first >= 64 {
        var l := DecodeLiteral(t, s, pos, 6);
        if l.Fail? { return Fail(l.error); }
        InsertDynamic(l.value.0);
        r := Done(([l.value.0], l.value.1));
      } else if first >= 32 {
        var i := DecodeInteger(s, pos, 5);
        if i.Fail? { return Fail(i.error); }
        SetMaxSize(i.value.0);
        r := Done(([], i.value.1));
      } else {
        var l := DecodeLiteral(t, s, pos, 4);
        if l.Fail? { return Fail(l.error); }
        r := Done(([l.value.0], l.value.1));
      }
    }

    /** A whole block; after a failure the table is as the representations before it left it. */
    method Decode(t: Table, input: seq<byte>) returns (r: Outcome<seq<Header>>)
      requires Valid() && GoodTable(t)
      modifies this
      ensures Valid() && (r, State()) == BlockFrom(t, input, 0, old(State()), [])
    {
      hide FieldAt, SizeTo, Apart, AllOnes;
      var out: seq<Header> := [];
      var pos := 0;
      while pos < |input|
        invariant Valid() && pos >= 0
        invariant BlockFrom(t, input, 0, old(State()), []) == BlockFrom(t, input, pos, State(), out)
      {
        var f := DecodeField(t, input, pos);
        if f.Fail? { return Fail(f.error); }
        out, pos := out + f.value.0, f.value.1;
      }
      r := Done(out);
    }
  }

  method DecodeString(t: Table, s: seq<byte>, pos: nat) returns (r: Outcome<(Text, nat)>)
    requires GoodTable(t)
    ensures r == StringAt(t, s, pos)
  {
    hide IntegerAt, Decoded, Apart, AllOnes;
    if pos >= |s| { return Fail(StringOutOfInput); }
    var huffman := s[pos] >= 128;
    var i := DecodeInteger(s, pos, 7);
    if i.Fail? { return Fail(i.error); }
    var (len, p) := i.value;
    if p + len > |s| { return Fail(StringTooLong); }
    var raw := s[p..p + len];
    if huffman {
      var text := HuffmanDecode(t, raw);
      if text.Fail? { return Fail(text.error); }
      r := Done((text.value, p + len));
    } else {
      r := Done((raw, p + len));
    }
  }

  // ---------- The encoder ----------

  function Lower(b: byte): (r: byte)
  {
    if 0x41 <= b <= 0x5A then b + 0x20 else b
  }

  function LowerText(s: Text): (r: Text)
    ensures |r| == |s|
  {
    seq(|s|, i requires 0 <= i < |s| => Lower(s[i]))
  }

  function EncString(s: Text): (r: seq<byte>)
  {
    EncInteger(|s|, 7, 0) + s
  }

  lemma {:induction false} SmallPrefix()
    ensures Pow2(7) == 128 && Low(0, 7) == 0
  {
    assert Pow2(4) == 16;
    assert Low(0, 4) == 0;
  }

  /** A literal without indexing, with a new name. */
  function EncHeader(h: Header): (r: seq<byte>)
  {
    [0] + (EncString(LowerText(h.0)) + EncString(h.1))
  }

  function EncBlock(hs: seq<Header>, n: nat): (r: seq<byte>)
    requires n <= |hs|
  {
    if n == 0 then [] else EncBlock(hs, n - 1) + EncHeader(hs[n - 1])
  }

  method EncodeStringRaw(out0: seq<byte>, s: Text) returns (out: seq<byte>)
    ensures out == out0 + EncString(s)
  {
    hide EncInteger;
    out := EncodeInteger(out0, |s|, 7, 0);
    assert (out0 + EncInteger(|s|, 7, 0)) + s == out0 + (EncInteger(|s|, 7, 0) + s);
    out := out + s;
  }

  method Encode(headers: seq<Header>) returns (out: seq<byte>)
    ensures out == EncBlock(headers, |headers|)
  {
    hide EncString;
    out := [];
    for k := 0 to |headers|
      invariant out == EncBlock(headers, k)
    {
      ghost var out0 := out;
      var (name, value) := headers[k];
      out := out + [0];
      out := EncodeStringRaw(out, LowerText(name));
      out := EncodeStringRaw(out, value);
      assert ((out0 + [0]) + EncString(LowerText(name))) + EncString(value) ==
          out0 + ([0] + (EncString(LowerText(name)) + EncString(value)));
    }
  }

  // ---------- Round trip ----------

  /** The length of a text that a decoder can read back: below 2^63 beyond the prefix. */
  ghost predicate Sendable(s: Text)
  {
    |s| - 127 < Pow2(63)
  }

  lemma {:induction false} FirstByteOfLength(s: seq<byte>, pos: nat, n: nat)
    requires Pow2(7) == 128 && BytesAt(s, pos, EncInteger(n, 7, 0))
    ensures pos < |s| && s[pos] < 128
  {
    assert s[pos + 0] == EncInteger(n, 7, 0)[0];
  }

  lemma {:induction false} StringBack(t: Table, s: seq<byte>, pos: nat, text: Text)
    requires |t| == 257 && Sendable(text) && BytesAt(s, pos, EncString(text))
    ensures StringAt(t, s, pos) == Done((text, pos + |EncString(text)|))
  {
    hide IntegerAt, EncInteger, Pow2, Low, Decoded;
    SmallPrefix();
    var e := EncInteger(|text|, 7, 0);
    BytesAtSplit(s, pos, e, text);
    FirstByteOfLength(s, pos, |text|);
    IntegerBack(s, pos, |text|, 7, 0);
    var p := pos + |e|;
    assert s[p..p + |text|] == text;
  }

  lemma {:induction false} HeaderBack(t: Table, s: seq<byte>, pos: nat, h: Header, d: Dynamic)
    requires |t| == 257 && Sendable(h.0) && Sendable(h.1) && pos < |s| && BytesAt(s, pos, EncHeader(h))
    ensures FieldAt(t, s, pos, d) == Done(([(LowerText(h.0), h.1)], d, pos + |EncHeader(h)|))
  {
    hide IntegerAt, StringAt, EncString, BytesAt, Lookup, Insert, Resize;
    var n, v := EncString(LowerText(h.0)), EncString(h.1);
    BytesAtTail(s, pos, 0, n + v);
    BytesAtSplit(s, pos + 1, n, v);
    ZeroIndex(s, pos);
    StringBack(t, s, pos + 1, LowerText(h.0));
    StringBack(t, s, pos + 1 + |n|, h.1);
  }

  lemma {:induction false} ZeroIndex(s: seq<byte>, pos: nat)
    requires pos < |s| && s[pos] == 0
    ensures IntegerAt(s, pos, 4) == Done((0, pos + 1))
  {
    assert Low(0, 4) == 0;
    assert Pow2(4) == 16;
  }

  /** The headers with their names in lower case. */
  function Lowered(hs: seq<Header>): (r: seq<Header>)
    ensures |r| == |hs|
  {
    seq(|hs|, i requires 0 <= i < |hs| => (LowerText(hs[i].0), hs[i].1))
  }

  lemma {:induction false} NthHeader(hs: seq<Header>, k: nat, n: nat, s: seq<byte>)
    requires k < n <= |hs| && BytesAt(s, 0, EncBlock(hs, n))
    ensures |EncBlock(hs, k)| + |EncHeader(hs[k])| <= |EncBlock(hs, n)| &&
              BytesAt(s, |EncBlock(hs, k)|, EncHeader(hs[k]))
    decreases n
  {
    hide EncHeader, BytesAt;
    BytesAtSplit(s, 0, EncBlock(hs, n - 1), EncHeader(hs[n - 1]));
    if k < n - 1 { NthHeader(hs, k, n - 1, s); }
  }

  lemma {:induction false} BlockBack(t: Table, hs: seq<Header>, k: nat, d: Dynamic)
    requires |t| == 257 && k <= |hs| && forall i :: 0 <= i < |hs| ==> Sendable(hs[i].0) && Sendable(hs[i].1)
    ensures BlockFrom(t, EncBlock(hs, |hs|), |EncBlock(hs, k)|, d, Lowered(hs)[..k]) == (Done(Lowered(hs)), d)
    decreases |hs| - k
  {
    hide FieldAt, EncHeader, EncBlock, Sendable;
    var s := EncBlock(hs, |hs|);
    if k < |hs| {
      NthHeader(hs, k, |hs|, s);
      assert |EncHeader(hs[k])| > 0 by { SomeBytes(hs[k]); }
      HeaderBack(t, s, |EncBlock(hs, k)|, hs[k], d);
      assert Lowered(hs)[..k] + [(LowerText(hs[k].0), hs[k].1)] == Lowered(hs)[..k + 1];
      EncNext(hs, k);
      BlockBack(t, hs, k + 1, d);
    } else {
      assert Lowered(hs)[..k] == Lowered(hs);
    }
  }

  lemma {:induction false} SomeBytes(h: Header)
    ensures |EncHeader(h)| > 0
  {
  }

  lemma {:induction false} EncNext(hs: seq<Header>, k: nat)
    requires k < |hs|
    ensures |EncBlock(hs, k + 1)| == |EncBlock(hs, k)| + |EncHeader(hs[k])|
  {
  }

  /** Decoding what the encoder wrote gives the headers with names in lower case and leaves the table alone. */
  lemma {:induction false} RoundTrip(t: Table, hs: seq<Header>, d: Dynamic)
    requires |t| == 257 && forall i :: 0 <= i < |hs| ==> Sendable(hs[i].0) && Sendable(hs[i].1)
    ensures BlockFrom(t, EncBlock(hs, |hs|), 0, d, []) == (Done(Lowered(hs)), d)
  {
    hide BlockFrom, Sendable;
    BlockBack(t, hs, 0, d);
    assert EncBlock(hs, 0) == [];
    assert Lowered(hs)[..0] == [];
  }
}
