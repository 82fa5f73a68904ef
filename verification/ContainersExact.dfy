/** Which bytes are gzip members, gzip files and zlib streams: the formats written out, and the proof that exactly they
    are accepted. */
module ContainersExact {
  import opened Bits
  import opened BitIO
  import opened Inflate
  import opened Locality
  import opened Dynamic
  import opened Crc32
  import opened Containers

  // ---------- The header of a member ----------

  datatype Option<+T> = None | Some(value: T)

  /** The optional fields of a header; rest holds the time, the extra flags and the system. */
  datatype Head = Head(text: bool, rest: seq<byte>, extra: Option<seq<byte>>, name: Option<seq<byte>>,
                       comment: Option<seq<byte>>, check: Option<(byte, byte)>)

  ghost predicate NoZero(s: seq<byte>)
  {
    forall i :: 0 <= i < |s| ==> s[i] != 0
  }

  ghost predicate HeadOk(h: Head)
  {
    && |h.rest| == 6 && (h.extra.Some? ==> |h.extra.value| < 0x1_0000)
    && (h.name.Some? ==> NoZero(h.name.value)) && (h.comment.Some? ==> NoZero(h.comment.value))
  }

  function Flags(h: Head): (f: byte)
    ensures f < 32
  {
    B2N(h.text) + 2 * B2N(h.check.Some?) + 4 * B2N(h.extra.Some?) + 8 * B2N(h.name.Some?) + 16 * B2N(h.comment.Some?)
  }

  /** The length, lowest byte first, and the field. */
  function ExtraBytes(x: Option<seq<byte>>): (s: seq<byte>)
    requires x.Some? ==> |x.value| < 0x1_0000
  {
    match x
    case None => []
    case Some(f) => [|f| % 256, |f| / 256] + f
  }

  /** The text and a zero byte. */
  function TextBytes(x: Option<seq<byte>>): (s: seq<byte>)
  {
    match x
    case None => []
    case Some(f) => f + [0]
  }

  function CheckBytes(x: Option<(byte, byte)>): (s: seq<byte>)
  {
    match x
    case None => []
    case Some((a, b)) => [a, b]
  }

  function FieldsBytes(h: Head): (s: seq<byte>)
    requires HeadOk(h)
  {
    ExtraBytes(h.extra) + (TextBytes(h.name) + (TextBytes(h.comment) + CheckBytes(h.check)))
  }

  /** The header as section 2.3 of RFC 1952 writes it. */
  function HeadBytes(h: Head): (s: seq<byte>)
    requires HeadOk(h)
  {
    ([0x1f, 0x8b, 0x08, Flags(h)] + h.rest) + FieldsBytes(h)
  }

  lemma {:induction false} ShrNone(v: nat)
    ensures Shr(v, 0) == v
  {
  }

  /** The bits of a flag byte. */
  lemma {:induction false} FlagBits(f: nat)
    ensures Shr(f, 1) == f / 2 && Shr(f, 2) == f / 4 && Shr(f, 3) == f / 8 && Shr(f, 4) == f / 16 && Shr(f, 5) == f / 32
  {
    hide Shr;
    ShrNone(f);
    ShrStep(f, 0);
    ShrStep(f, 1);
    ShrStep(f, 2);
    ShrStep(f, 3);
    ShrStep(f, 4);
  }

  lemma {:induction false} FlagsOf(h: Head)
    ensures HasFlag(Flags(h), 1) <==> h.check.Some?
    ensures HasFlag(Flags(h), 2) <==> h.extra.Some?
    ensures HasFlag(Flags(h), 3) <==> h.name.Some?
    ensures HasFlag(Flags(h), 4) <==> h.comment.Some?
  {
    hide Shr;
    FlagBits(Flags(h));
  }

  // ---------- A header is read ----------

  lemma {:induction false} ExtraLength(a: byte, b: byte)
    ensures BitOr(a, Shl(b, 8)) == a + 256 * b
  {
    hide BitOr, Shl, Pow2;
    ByteBound(a);
    OrIsAdd(a, b, 8);
    ShlByte(b);
  }

  lemma {:induction false} ExtraBack(data: seq<byte>, flg: byte, p: nat, x: Option<seq<byte>>)
    requires x.Some? ==> |x.value| < 0x1_0000
    requires (HasFlag(flg, 2) <==> x.Some?) && BytesAt(data, p, ExtraBytes(x))
    ensures SkipExtra(data, flg, p) == Ok(p + |ExtraBytes(x)|)
  {
    hide HasFlag, BitOr;
    if x.Some? {
      var s := ExtraBytes(x);
      assert data[p + 0] == s[0] && data[p + 1] == s[1];
      ExtraLength(data[p], data[p + 1]);
    }
  }

  lemma {:induction false} TextBack(data: seq<byte>, p: nat, x: Option<seq<byte>>)
    requires (x.Some? ==> NoZero(x.value)) && BytesAt(data, p, TextBytes(x))
    ensures SkipString(data, x.Some?, p) == Ok(p + |TextBytes(x)|)
  {
    if x.Some? {
      var s, z := TextBytes(x), p + |x.value|;
      assert data[p + |x.value|] == s[|x.value|] == 0;
      forall i | p <= i < z
        ensures data[i] != 0
      {
        assert data[p + (i - p)] == s[i - p] == x.value[i - p];
      }
      assert FirstZero(data, p) == z;
    }
  }

  lemma {:induction false} CheckBack(data: seq<byte>, flg: byte, p: nat, x: Option<(byte, byte)>)
    requires (HasFlag(flg, 1) <==> x.Some?) && BytesAt(data, p, CheckBytes(x))
    ensures SkipCrc(data, flg, p) == Ok(p + |CheckBytes(x)|)
  {
    hide HasFlag;
  }

  lemma {:induction false} FieldsBack(data: seq<byte>, h: Head)
    requires HeadOk(h) && BytesAt(data, 10, FieldsBytes(h))
    ensures var flg := Flags(h);
            var e, n, c, k := ExtraBytes(h.extra), TextBytes(h.name), TextBytes(h.comment), CheckBytes(h.check);
            && SkipExtra(data, flg, 10) == Ok(10 + |e|)
            && SkipString(data, HasFlag(flg, 3), 10 + |e|) == Ok(10 + |e| + |n|)
            && SkipString(data, HasFlag(flg, 4), 10 + |e| + |n|) == Ok(10 + |e| + |n| + |c|)
            && SkipCrc(data, flg, 10 + |e| + |n| + |c|) == Ok(10 + |FieldsBytes(h)|)
  {
    hide HasFlag, BytesAt, ExtraBytes, TextBytes, CheckBytes, SkipExtra, SkipString, SkipCrc, Flags, NoZero;
    var e, n, c, k := ExtraBytes(h.extra), TextBytes(h.name), TextBytes(h.comment), CheckBytes(h.check);
    FlagsOf(h);
    BytesAtSplit(data, 10, e, n + (c + k));
    BytesAtSplit(data, 10 + |e|, n, c + k);
    BytesAtSplit(data, 10 + |e| + |n|, c, k);
    ExtraBack(data, Flags(h), 10, h.extra);
    TextBack(data, 10 + |e|, h.name);
    TextBack(data, 10 + |e| + |n|, h.comment);
    CheckBack(data, Flags(h), 10 + |e| + |n| + |c|, h.check);
  }

  lemma {:induction false} HeadBack(data: seq<byte>, h: Head)
    requires HeadOk(h) && |data| >= 18 && BytesAt(data, 0, HeadBytes(h))
    ensures HeaderEnd(data) == Ok(|HeadBytes(h)|)
  {
    hide HasFlag, FieldsBytes, SkipExtra, SkipString, SkipCrc, NoZero, Flags;
    var first := [0x1f, 0x8b, 0x08, Flags(h)] + h.rest;
    var all := HeadBytes(h);
    assert data[0] == data[0 + 0] == all[0] && data[0 + 1] == all[1] && data[0 + 2] == all[2] && data[0 + 3] == all[3];
    BytesAtSplit(data, 0, first, FieldsBytes(h));
    FieldsBack(data, h);
  }

  // ---------- What is read is a header ----------

  lemma {:induction false} ExtraRead(data: seq<byte>, flg: byte, p: nat) returns (x: Option<seq<byte>>)
    requires p <= |data| && SkipExtra(data, flg, p).Ok?
    ensures (HasFlag(flg, 2) <==> x.Some?) && (x.Some? ==> |x.value| < 0x1_0000)
    ensures ExtraBytes(x) == data[p..SkipExtra(data, flg, p).value]
  {
    hide HasFlag, BitOr;
    if HasFlag(flg, 2) {
      ExtraLength(data[p], data[p + 1]);
      var q := SkipExtra(data, flg, p).value;
      x := Some(data[p + 2..q]);
    } else {
      x := None;
    }
  }

  lemma {:induction false} TextRead(data: seq<byte>, present: bool, p: nat) returns (x: Option<seq<byte>>)
    requires p <= |data| && SkipString(data, present, p).Ok?
    ensures (present <==> x.Some?) && (x.Some? ==> NoZero(x.value))
    ensures TextBytes(x) == data[p..SkipString(data, present, p).value]
  {
    hide FirstZero;
    if present {
      var z := FirstZero(data, p);
      x := Some(data[p..z]);
      assert data[p..z + 1] == data[p..z] + [0];
    } else {
      x := None;
    }
  }

  lemma {:induction false} CheckRead(data: seq<byte>, flg: byte, p: nat) returns (x: Option<(byte, byte)>)
    requires p <= |data| && SkipCrc(data, flg, p).Ok?
    ensures (HasFlag(flg, 1) <==> x.Some?) && CheckBytes(x) == data[p..SkipCrc(data, flg, p).value]
  {
    hide HasFlag;
    if HasFlag(flg, 1) {
      x := Some((data[p], data[p + 1]));
    } else {
      x := None;
    }
  }

  lemma {:induction false} FlagsSum(flg: byte)
    requires flg < 32
    ensures flg == flg % 2 + 2 * (flg / 2 % 2) + 4 * (flg / 4 % 2) + 8 * (flg / 8 % 2) + 16 * (flg / 16 % 2)
  {
    assert flg / 2 / 2 == flg / 4 && flg / 4 / 2 == flg / 8 && flg / 8 / 2 == flg / 16;
  }

  lemma {:induction false} FlagsKnown(h: Head, flg: byte)
    requires flg < 32 && (h.text <==> flg % 2 == 1)
    requires (HasFlag(flg, 1) <==> h.check.Some?) && (HasFlag(flg, 2) <==> h.extra.Some?)
    requires (HasFlag(flg, 3) <==> h.name.Some?) && (HasFlag(flg, 4) <==> h.comment.Some?)
    ensures Flags(h) == flg
  {
    hide Shr;
    FlagBits(flg);
    FlagsSum(flg);
  }

  lemma {:induction false} HeadRead(data: seq<byte>) returns (h: Head)
    requires |data| >= 18 && HeaderEnd(data).Ok?
    ensures HeadOk(h) && HeadBytes(h) == data[..HeaderEnd(data).value]
  {
    hide HasFlag, SkipExtra, SkipString, SkipCrc, NoZero, ExtraBytes, TextBytes, CheckBytes, Flags;
    var flg := data[3];
    var p1 := SkipExtra(data, flg, 10).value;
    var p2 := SkipString(data, HasFlag(flg, 3), p1).value;
    var p3 := SkipString(data, HasFlag(flg, 4), p2).value;
    var p4 := SkipCrc(data, flg, p3).value;
    var extra := ExtraRead(data, flg, 10);
    var name := TextRead(data, HasFlag(flg, 3), p1);
    var comment := TextRead(data, HasFlag(flg, 4), p2);
    var check := CheckRead(data, flg, p3);
    h := Head(flg % 2 == 1, data[4..10], extra, name, comment, check);
    FlagsKnown(h, flg);
    assert data[p2..p4] == data[p2..p3] + data[p3..p4];
    assert data[p1..p4] == data[p1..p2] + data[p2..p4];
    assert data[10..p4] == data[10..p1] + data[p1..p4];
    assert data[..10] == [0x1f, 0x8b, 0x08, flg] + data[4..10];
    assert data[..p4] == data[..10] + data[10..p4];
  }

  // ---------- Members ----------

  /** A header, compressed data, the CRC and the size of the contents. */
  ghost predicate MemberForm(c: seq<byte>, h: Head, body: seq<byte>, x: seq<byte>)
  {
    && HeadOk(h) && Decompresses(body, x)
    && c == HeadBytes(h) + (body + (Le32(CrcOf(x)) + Le32(|x| % 0x1_0000_0000)))
  }

  ghost predicate HasMemberForm(c: seq<byte>, x: seq<byte>)
  {
    exists h, body :: MemberForm(c, h, body, x)
  }

  /** Whatever is consumed in one decompression decompresses in all. */
  lemma {:induction false} ConsumedDecompresses(data: seq<byte>, max: nat, x: seq<byte>, n: nat)
    requires Inflated(data, max) == Ok((x, n)) && n <= |data|
    ensures Decompresses(data[..n], x)
  {
    hide Inflated;
    forall tail: seq<byte>, max': nat | max' >= |x|
      ensures Inflated(data[..n] + tail, max') == Ok((x, |data[..n]|))
    {
      var e := data[..n] + tail;
      assert AlikeBytes(data, e, n);
      InflatedLocal(data, e, max);
      InflatedLimit(e, max, max');
    }
  }

  lemma {:induction false} SomeBody(body: seq<byte>, x: seq<byte>)
    requires Decompresses(body, x)
    ensures |body| > 0
  {
    hide Inflated;
    assert body + [] == body && Inflated(body + [], |x|) == Ok((x, |body|));
    NotEmpty(body, x, |x|);
  }

  lemma {:induction false} HeadSize(h: Head)
    requires HeadOk(h)
    ensures |HeadBytes(h)| >= 10
  {
  }

  lemma {:induction false} FormIsMember(c: seq<byte>, h: Head, body: seq<byte>, x: seq<byte>)
    requires MemberForm(c, h, body, x)
    ensures IsMember(c, x)
  {
    hide HeadOk, HeadBytes, HeaderEnd, Inflated, CrcOf, Le32, WordAt;
    var a, y, z := HeadBytes(h), Le32(CrcOf(x)), Le32(|x| % 0x1_0000_0000);
    var p := |a|;
    var t := p + |body|;
    HeadSize(h);
    SomeBody(body, x);
    HeadBack(c, h);
    assert c[p..] == body + (y + z);
    assert Inflated(c[p..], |x|) == Ok((x, |body|));
    assert c[t..t + 4] == y && c[t + 4..t + 8] == z;
    CrcBound(x);
    Pow2Of32();
    WordBack(c, t, CrcOf(x));
    WordBack(c, t + 4, |x| % 0x1_0000_0000);
  }

  /** Four bytes are those of their number. */
  lemma {:induction false} WordForm(data: seq<byte>, t: nat)
    requires t + 4 <= |data|
    ensures data[t..t + 4] == Le32(WordAt(data, t))
  {
    hide FromLe;
    FromLeValue(data[t], data[t + 1], data[t + 2], data[t + 3]);
    LeOfSum(data[t], data[t + 1], data[t + 2], data[t + 3]);
  }

  lemma {:induction false} LeOfSum(a: byte, b: byte, c: byte, d: byte)
    ensures Le32(a + 0x100 * b + 0x1_0000 * c + 0x100_0000 * d) == [a, b, c, d]
  {
    var v := a + 0x100 * (b + 0x100 * (c + 0x100 * d));
    assert v / 0x100 == b + 0x100 * (c + 0x100 * d);
    assert v / 0x1_0000 == c + 0x100 * d;
    assert v / 0x100_0000 == d;
  }

  lemma {:induction false} MemberHasForm(c: seq<byte>, x: seq<byte>) returns (h: Head, body: seq<byte>)
    requires IsMember(c, x)
    ensures MemberForm(c, h, body, x)
  {
    hide HeadOk, HeadBytes, HeaderEnd, Inflated, CrcOf, Le32, WordAt, Decompresses;
    var p := HeaderEnd(c).value;
    var n := Inflated(c[p..], |x|).value.1;
    var t := p + n;
    h := HeadRead(c);
    ConsumedDecompresses(c[p..], |x|, x, n);
    body := c[p..t];
    assert c[p..][..n] == body;
    WordForm(c, t);
    WordForm(c, t + 4);
    assert c == c[..p] + (body + (c[t..t + 4] + c[t + 4..t + 8]));
  }

  /** The first n bytes are accepted as a member with contents x exactly when they have its form and x fits the limit,
      whatever follows. */
  lemma {:induction false} MemberExactly(data: seq<byte>, max: nat, x: seq<byte>, n: nat)
    ensures Member(data, max) == Ok((x, n)) <==> |x| <= max && n <= |data| && HasMemberForm(data[..n], x)
  {
    hide MemberForm, Member;
    if Member(data, max) == Ok((x, n)) {
      assert AlikeBytes(data, data[..n], n);
      MemberLocal(data, data[..n], max, |x|);
      var h, body := MemberHasForm(data[..n], x);
    }
    if |x| <= max && n <= |data| && HasMemberForm(data[..n], x) {
      var h, body :| MemberForm(data[..n], h, body, x);
      FormIsMember(data[..n], h, body, x);
      assert AlikeBytes(data[..n], data, n);
      MemberLocal(data[..n], data, |x|, max);
    }
  }

  // ---------- Files ----------

  /** Members one after the other, at least one, and then bytes that start no member. */
  ghost predicate FileForm(data: seq<byte>, cs: seq<seq<byte>>, xs: seq<seq<byte>>, y: seq<byte>)
  {
    && |cs| == |xs| > 0 && (forall k :: 0 <= k < |cs| ==> HasMemberForm(cs[k], xs[k]))
    && Flat(cs, |cs|) <= data && y == Flat(xs, |xs|)
    && !([0x1f, 0x8b] <= data[|Flat(cs, |cs|)|..])
  }

  ghost predicate HasFileForm(data: seq<byte>, y: seq<byte>)
  {
    exists cs, xs :: FileForm(data, cs, xs, y)
  }

  lemma {:induction false} MagicBytes(data: seq<byte>, p: nat)
    requires p <= |data|
    ensures HasMagic(data, p) <==> [0x1f, 0x8b] <= data[p..]
  {
    var s := data[p..];
    if p + 2 <= |data| { assert s[0] == data[p] && s[1] == data[p + 1]; }
  }

  lemma {:induction false} FormIsAccepted(data: seq<byte>, cs: seq<seq<byte>>, xs: seq<seq<byte>>, y: seq<byte>,
      max: nat)
    requires FileForm(data, cs, xs, y) && |y| <= max
    ensures Gunzipped(data, max) == Ok(y)
  {
    hide IsMember, MemberForm, HasMagic, Gunzipped, Flat;
    forall k | 0 <= k < |cs|
      ensures IsMember(cs[k], xs[k])
    {
      assert HasMemberForm(cs[k], xs[k]);
      var h, body :| MemberForm(cs[k], h, body, xs[k]);
      FormIsMember(cs[k], h, body, xs[k]);
    }
    var n := |Flat(cs, |cs|)|;
    assert data == Flat(cs, |cs|) + data[n..];
    MagicBytes(data, n);
    GunzipConcat(cs, xs, data[n..], max);
  }

  lemma {:induction false} FlatSame(ss: seq<seq<byte>>, tt: seq<seq<byte>>, k: nat)
    requires k <= |ss| && k <= |tt| && forall i :: 0 <= i < k ==> ss[i] == tt[i]
    ensures Flat(ss, k) == Flat(tt, k)
  {
    if k > 0 { FlatSame(ss, tt, k - 1); }
  }

  lemma {:induction false} FlatMore(ss: seq<seq<byte>>, s: seq<byte>)
    ensures Flat(ss + [s], |ss| + 1) == Flat(ss, |ss|) + s
  {
    FlatSame(ss + [s], ss, |ss|);
  }

  /** The members before p. */
  ghost predicate ReadTo(data: seq<byte>, cs: seq<seq<byte>>, xs: seq<seq<byte>>, p: nat, acc: seq<byte>)
  {
    && |cs| == |xs| && (forall k :: 0 <= k < |cs| ==> HasMemberForm(cs[k], xs[k]))
    && p <= |data| && Flat(cs, |cs|) == data[..p] && Flat(xs, |xs|) == acc
  }

  lemma {:induction false} MembersRead(data: seq<byte>, p: nat, acc: seq<byte>, max: nat, cs: seq<seq<byte>>,
      xs: seq<seq<byte>>)
      returns (cs': seq<seq<byte>>, xs': seq<seq<byte>>, q: nat)
    requires ReadTo(data, cs, xs, p, acc) && |acc| <= max && MembersFrom(data, p, acc, max).Ok?
    ensures ReadTo(data, cs', xs', q, MembersFrom(data, p, acc, max).value) && !HasMagic(data, q) && |cs'| >= |cs|
    ensures HasMagic(data, p) ==> |cs'| > 0
    decreases |data| - p
  {
    hide Member, HasMagic, HasMemberForm, Flat;
    if !HasMagic(data, p) {
      cs', xs', q := cs, xs, p;
    } else {
      var (out, n) := Member(data[p..], max - |acc|).value;
      var c := data[p..][..n];
      MemberExactly(data[p..], max - |acc|, out, n);
      FlatMore(cs, c);
      FlatMore(xs, out);
      assert data[..p + n] == data[..p] + c;
      cs', xs', q := MembersRead(data, p + n, acc + out, max, cs + [c], xs + [out]);
    }
  }

  lemma {:induction false} NoneRead(data: seq<byte>)
    ensures ReadTo(data, [], [], 0, [])
  {
  }

  /** A file is unpacked to y exactly when it has that form and y fits the limit. */
  lemma {:induction false} GunzipExactly(data: seq<byte>, max: nat, y: seq<byte>)
    ensures Gunzipped(data, max) == Ok(y) <==> |y| <= max && HasFileForm(data, y)
  {
    hide MembersFrom, Member, HasMagic, HasMemberForm, Flat;
    if Gunzipped(data, max) == Ok(y) {
      if !HasMagic(data, 0) { MemberMagic(data, max); }
      NoneRead(data);
      var cs, xs, q := MembersRead(data, 0, [], max, [], []);
      MagicBytes(data, q);
      assert data[..q] <= data && |data[..q]| == q;
      assert FileForm(data, cs, xs, y);
    }
    if |y| <= max && HasFileForm(data, y) {
      var cs, xs :| FileForm(data, cs, xs, y);
      FormIsAccepted(data, cs, xs, y, max);
    }
  }

  // ---------- zlib ----------

  /** Method 8, a multiple of 31, no dictionary; compressed data of x, perhaps with more bytes after them; Adler-32. */
  ghost predicate ZlibForm(data: seq<byte>, n: nat, x: seq<byte>)
  {
    && |data| >= 6
    && (var cmf: nat, flg: nat := data[0], data[1]; cmf % 16 == 8 && (256 * cmf + flg) % 31 == 0 && flg / 32 % 2 == 0)
    && 2 + n <= |data| - 4 && Decompresses(data[2..2 + n], x) && data[|data| - 4..] == Be32(AdlerOf(x))
  }

  ghost predicate HasZlibForm(data: seq<byte>, x: seq<byte>)
  {
    exists n: nat :: ZlibForm(data, n, x)
  }

  lemma {:induction false} DictionaryBit(f: byte)
    ensures HasFlag(f, 5) <==> f / 32 % 2 != 0
  {
    hide Shr;
    FlagBits(f);
  }

  lemma {:induction false} BeForm(data: seq<byte>, t: nat, v: nat)
    requires t + 4 == |data| && v < 0x1_0000_0000
    ensures FromBe(data[t], data[t + 1], data[t + 2], data[t + 3]) == v <==> data[t..] == Be32(v)
  {
    hide FromBe, FromLe;
    var a, b, c, d := data[t], data[t + 1], data[t + 2], data[t + 3];
    assert data[t..] == [a, b, c, d];
    FromBeIsLe(a, b, c, d);
    FromLeValue(d, c, b, a);
    LeOfSum(d, c, b, a);
    Word32(v);
  }

  /** Bytes are inflated to x exactly when they have that form and x fits the limit. */
  lemma {:induction false} ZlibExactly(data: seq<byte>, max: nat, x: seq<byte>)
    ensures ZlibInflated(data, max) == Ok(x) <==> |x| <= max && HasZlibForm(data, x)
  {
    hide Inflated, AdlerOf, FromBe, Be32, HasFlag, Decompresses;
    if |data| >= 6 {
      var t := |data| - 4;
      DictionaryBit(data[1]);
      BeForm(data, t, AdlerOf(x));
      var mid := data[2..t];
      if ZlibInflated(data, max) == Ok(x) {
        var n := Inflated(mid, max).value.1;
        ConsumedDecompresses(mid, max, x, n);
        assert mid[..n] == data[2..2 + n];
        assert ZlibForm(data, n, x);
      }
      if |x| <= max && HasZlibForm(data, x) {
        var n: nat :| ZlibForm(data, n, x);
        assert mid == data[2..2 + n] + data[2 + n..t];
        DecompressesWith(data[2..2 + n], x, data[2 + n..t], max);
      }
    }
  }

  lemma {:induction false} DecompressesWith(c: seq<byte>, x: seq<byte>, tail: seq<byte>, max: nat)
    requires Decompresses(c, x) && |x| <= max
    ensures Inflated(c + tail, max) == Ok((x, |c|))
  {
    hide Inflated;
  }
}
