/** The gzip (RFC 1952) and zlib (RFC 1950) formats around a DEFLATE stream. */
module Containers {
  import opened Bits
  import opened BitIO
  import opened Inflate
  import opened Locality
  import opened Dynamic
  import opened FixedBlock
  import opened Deflate
  import opened Crc32

  // ---------- Four bytes ----------

  function Le32(v: nat): (s: seq<byte>)
    ensures |s| == 4
  {
    [v % 256, v / 0x100 % 256, v / 0x1_0000 % 256, v / 0x100_0000 % 256]
  }

  function Be32(v: nat): (s: seq<byte>)
    ensures |s| == 4
  {
    [v / 0x100_0000 % 256, v / 0x1_0000 % 256, v / 0x100 % 256, v % 256]
  }

  /** Four bytes put together, the first one lowest. */
  function FromLe(a: byte, b: byte, c: byte, d: byte): (v: nat)
  {
    BitOr(BitOr(BitOr(a, Shl(b, 8)), Shl(c, 16)), Shl(d, 24))
  }

  /** The first one highest. */
  function FromBe(a: byte, b: byte, c: byte, d: byte): (v: nat)
  {
    BitOr(BitOr(BitOr(Shl(a, 24), Shl(b, 16)), Shl(c, 8)), d)
  }

  lemma {:induction false} OrAssoc(a: nat, b: nat, c: nat)
    ensures BitOr(BitOr(a, b), c) == BitOr(a, BitOr(b, c))
    decreases a + b + c
  {
    hide BitOr;
    if a + b + c > 0 {
      OrAssoc(a / 2, b / 2, c / 2);
      OrBit(a, b);
      OrBit(b, c);
      OrBit(BitOr(a, b), c);
      OrBit(a, BitOr(b, c));
    } else {
      OrZero(0);
    }
  }

  lemma {:induction false} FromLeValue(a: byte, b: byte, c: byte, d: byte)
    ensures FromLe(a, b, c, d) == a + 0x100 * b + 0x1_0000 * c + 0x100_0000 * d
  {
    hide BitOr, Pow2, Shl;
    ShlByte(b);
    ShlByte(c);
    ShlByte(256 * c);
    ShlShl(c, 8, 8);
    ShlByte(d);
    ShlByte(256 * d);
    ShlByte(65536 * d);
    ShlShl(d, 8, 8);
    ShlShl(d, 16, 8);
    BytePowers();
    OrIsAdd(a, b, 8);
    OrIsAdd(a + 256 * b, c, 16);
    OrIsAdd(a + 256 * b + 65536 * c, d, 24);
  }

  lemma {:induction false} BytePowers()
    ensures Pow2(8) == 0x100 && Pow2(16) == 0x1_0000 && Pow2(24) == 0x100_0000
  {
    assert Pow2(4) == 16;
    assert Pow2(8) == 256;
    assert Pow2(12) == 4096;
    assert Pow2(16) == 65536;
    assert Pow2(20) == 0x10_0000;
  }

  lemma {:induction false} FromBeIsLe(a: byte, b: byte, c: byte, d: byte)
    ensures FromBe(a, b, c, d) == FromLe(d, c, b, a)
  {
    hide BitOr, Shl;
    var x, y, z := Shl(a, 24), Shl(b, 16), Shl(c, 8);
    OrComm(x, y);
    OrComm(BitOr(y, x), z);
    OrComm(BitOr(z, BitOr(y, x)), d);
    OrAssoc(d, z, BitOr(y, x));
    OrAssoc(BitOr(d, z), y, x);
  }

  lemma {:induction false} BytesOf32(v: nat)
    requires v < 0x1_0000_0000
    ensures v % 256 + 0x100 * (v / 0x100 % 256) + 0x1_0000 * (v / 0x1_0000 % 256) +
              0x100_0000 * (v / 0x100_0000 % 256) == v
  {
    var q := v / 0x100;
    var r := q / 0x100;
    assert v / 0x1_0000 == r;
    assert v / 0x100_0000 == r / 0x100;
  }

  /** Writing a 32-bit number and reading it gives the number back. */
  lemma {:induction false} Word32(v: nat)
    requires v < 0x1_0000_0000
    ensures var s := Le32(v); FromLe(s[0], s[1], s[2], s[3]) == v
    ensures var s := Be32(v); FromBe(s[0], s[1], s[2], s[3]) == v
  {
    hide FromLe, FromBe;
    var s, t := Le32(v), Be32(v);
    BytesOf32(v);
    FromLeValue(s[0], s[1], s[2], s[3]);
    FromBeIsLe(t[0], t[1], t[2], t[3]);
  }

  // ---------- Adler-32 ----------

  const ADLER: nat := 65521

  /** One plus the sum of the first n bytes. */
  function AdlerA(d: seq<byte>, n: nat): (a: nat)
    requires n <= |d|
  {
    if n == 0 then 1 else AdlerA(d, n - 1) + d[n - 1]
  }

  /** The sum of the first sums after each of the first n bytes. */
  function AdlerB(d: seq<byte>, n: nat): (b: nat)
    requires n <= |d|
  {
    if n == 0 then 0 else AdlerB(d, n - 1) + AdlerA(d, n)
  }

  /** The two sums modulo 65521 (section 8.2 of RFC 1950). */
  function AdlerOf(d: seq<byte>): (r: nat)
    ensures r < 0x1_0000_0000
  {
    AdlerB(d, |d|) % ADLER * 0x1_0000 + AdlerA(d, |d|) % ADLER
  }

  /** Check values: nothing, and one byte. */
  lemma {:induction false} AdlerOfByte(b: byte)
    ensures AdlerOf([]) == 1 && AdlerOf([b]) == 0x1_0001 * (b as nat + 1)
  {
    assert AdlerA([b], 0) == 1 && AdlerB([b], 0) == 0;
    assert AdlerA([], 0) == 1 && AdlerB([], 0) == 0;
  }

  lemma {:induction false} ModAdd(a: nat, b: nat)
    ensures (a % ADLER + b) % ADLER == (a + b) % ADLER
  {
  }

  method Adler32(data: seq<byte>) returns (r: nat)
    ensures r == AdlerOf(data)
  {
    var a, b := 1, 0;
    for i := 0 to |data|
      invariant a == AdlerA(data, i) % ADLER && b == AdlerB(data, i) % ADLER
    {
      ModAdd(AdlerA(data, i), data[i]);
      a := (a + data[i]) % ADLER;
      ModAdd(AdlerA(data, i + 1), b);
      ModAdd(AdlerB(data, i), AdlerA(data, i + 1));
      b := (b + a) % ADLER;
    }
    AdlerOr(b, a);
    r := BitOr(Shl(b, 16), a);
  }

  lemma {:induction false} AdlerOr(b: nat, a: nat)
    requires a < ADLER
    ensures BitOr(Shl(b, 16), a) == b * 0x1_0000 + a
  {
    hide BitOr, Shl, Pow2;
    BytePowers();
    OrComm(Shl(b, 16), a);
    OrIsAdd(a, b, 16);
    ShlByte(b);
    ShlByte(256 * b);
    ShlShl(b, 8, 8);
  }

  // ---------- zlib ----------

  predicate HasFlag(flg: byte, bit: nat)
  {
    Shr(flg, bit) % 2 == 1
  }

  /** The first two bytes as one number. */
  function CheckBits(cmf: nat, flg: nat): (v: nat)
  {
    256 * cmf + flg
  }

  function ZlibInflated(data: seq<byte>, max: nat): (r: Result<seq<byte>>)
  {
    if |data| < 6 then Err(UnexpectedEnd)
    else if data[0] % 16 != 8 then Err(UnsupportedGzipMethod)
    else if CheckBits(data[0], data[1]) % 31 != 0 then Err(InvalidHuffmanCode)
    else if HasFlag(data[1], 5) then Err(GzipReservedFlags)
    else
      var n := |data| - 4;
      var (out, _) :- Inflated(data[2..n], max);
      if AdlerOf(out) != FromBe(data[n], data[n + 1], data[n + 2], data[n + 3]) then Err(GzipCrcMismatch)
      else Ok(out)
  }

  method ZlibInflateWithLimit(data: seq<byte>, max: nat) returns (r: Result<seq<byte>>)
    ensures r == ZlibInflated(data, max)
  {
    hide Inflated, AdlerOf, FromBe, HasFlag, CheckBits;
    if |data| < 6 { return Err(UnexpectedEnd); }
    var cmf, flg := data[0], data[1];
    if cmf % 16 != 8 { return Err(UnsupportedGzipMethod); }
    if CheckBits(cmf, flg) % 31 != 0 { return Err(InvalidHuffmanCode); }
    if HasFlag(flg, 5) { return Err(GzipReservedFlags); }
    var n := |data| - 4;
    var inflated :- InflateWithLimitConsumed(data[2..n], max);
    var a := Adler32(inflated.0);
    if a != FromBe(data[n], data[n + 1], data[n + 2], data[n + 3]) { return Err(GzipCrcMismatch); }
    r := Ok(inflated.0);
  }

  lemma {:induction false} ZlibParts(body: seq<byte>, t: seq<byte>, c: seq<byte>)
    requires |t| == 4 && c == [0x78, 0x01] + body + t
    ensures var n := |c| - 4;
            && n == |body| + 2 && c[0] == 0x78 && c[1] == 0x01 && c[2..n] == body
            && c[n] == t[0] && c[n + 1] == t[1] && c[n + 2] == t[2] && c[n + 3] == t[3]
  {
  }

  lemma {:induction false} ZlibHeader()
    ensures CheckBits(0x78, 0x01) % 31 == 0 && !HasFlag(0x01, 5)
  {
  }

  lemma {:induction false} ZlibBack(body: seq<byte>, d: seq<byte>, c: seq<byte>, max: nat)
    requires Decompresses(body, d) && |d| <= max && c == [0x78, 0x01] + body + Be32(AdlerOf(d))
    ensures ZlibInflated(c, max) == Ok(d)
  {
    hide Inflated, AdlerOf, FromBe, Be32, HasFlag, CheckBits;
    assert body + [] == body && Inflated(body + [], max) == Ok((d, |body|));
    NotEmpty(body, d, max);
    ZlibParts(body, Be32(AdlerOf(d)), c);
    ZlibHeader();
    Word32(AdlerOf(d));
  }

  lemma {:induction false} NotEmpty(c: seq<byte>, d: seq<byte>, max: nat)
    requires Inflated(c, max) == Ok((d, |c|))
    ensures |c| > 0
  {
    hide Block, Header;
  }

  /** What it writes is inflated to the data under every limit that the data fit. */
  method ZlibDeflateStored(data: seq<byte>) returns (c: seq<byte>)
    ensures forall max: nat :: |data| <= max ==> ZlibInflated(c, max) == Ok(data)
    ensures exists body :: IsBest(body, data) && c == [0x78, 0x01] + body + Be32(AdlerOf(data))
  {
    hide Decompresses, ZlibInflated, AdlerOf, IsBest;
    var body := DeflateBest(data);
    var a := Adler32(data);
    c := [0x78, 0x01] + body + Be32(a);
    forall max: nat | |data| <= max
      ensures ZlibInflated(c, max) == Ok(data)
    {
      ZlibBack(body, data, c, max);
    }
  }

  // ---------- gzip: one member ----------

  /** Past an extra field, when the flags announce one. */
  function SkipExtra(data: seq<byte>, flg: byte, p: nat): (r: Result<nat>)
    ensures r.Ok? && p <= |data| ==> p <= r.value <= |data|
  {
    if !HasFlag(flg, 2) then Ok(p)
    else if p + 2 > |data| then Err(UnexpectedEnd)
    else
      var q := p + 2 + BitOr(data[p], Shl(data[p + 1], 8));
      if q > |data| then Err(UnexpectedEnd) else Ok(q)
  }

  /** The first zero byte at or after p. */
  function FirstZero(data: seq<byte>, p: nat): (z: nat)
    ensures p <= z && (z < |data| ==> data[z] == 0) && forall i :: p <= i < z && i < |data| ==> data[i] != 0
    decreases |data| - p
  {
    if p < |data| && data[p] != 0 then FirstZero(data, p + 1) else p
  }

  /** Past a zero-terminated name or comment, when present. */
  function SkipString(data: seq<byte>, present: bool, p: nat): (r: Result<nat>)
    ensures r.Ok? && p <= |data| ==> p <= r.value <= |data|
  {
    if !present then Ok(p)
    else if FirstZero(data, p) >= |data| then Err(UnexpectedEnd)
    else Ok(FirstZero(data, p) + 1)
  }

  /** Past the header checksum, which is not checked. */
  function SkipCrc(data: seq<byte>, flg: byte, p: nat): (r: Result<nat>)
    ensures r.Ok? && p <= |data| ==> p <= r.value <= |data|
  {
    if !HasFlag(flg, 1) then Ok(p) else if p + 2 > |data| then Err(UnexpectedEnd) else Ok(p + 2)
  }

  /** Where the compressed data of a member start. */
  function HeaderEnd(data: seq<byte>): (r: Result<nat>)
    requires |data| >= 18
    ensures r.Ok? ==> 10 <= r.value <= |data|
  {
    if data[0] != 0x1f || data[1] != 0x8b then Err(InvalidGzipMagic)
    else if data[2] != 8 then Err(UnsupportedGzipMethod)
    else if data[3] / 32 != 0 then Err(GzipReservedFlags)
    else
      var flg := data[3];
      var p1 :- SkipExtra(data, flg, 10);
      var p2 :- SkipString(data, HasFlag(flg, 3), p1);
      var p3 :- SkipString(data, HasFlag(flg, 4), p2);
      SkipCrc(data, flg, p3)
  }

  /** Four bytes at t, lowest first. */
  function WordAt(data: seq<byte>, t: nat): (v: nat)
    requires t + 4 <= |data|
  {
    FromLe(data[t], data[t + 1], data[t + 2], data[t + 3])
  }

  /** One member: its contents and its length. */
  function Member(data: seq<byte>, max: nat): (r: Result<(seq<byte>, nat)>)
    ensures r.Ok? ==> |r.value.0| <= max && 18 <= r.value.1 <= |data|
  {
    if |data| < 18 then Err(UnexpectedEnd)
    else
      var p :- HeaderEnd(data);
      var (out, n) :- Inflated(data[p..], max);
      var t := p + n;
      if |data| < t + 8 then Err(UnexpectedEnd)
      else if CrcOf(out) != WordAt(data, t) then Err(GzipCrcMismatch)
      else if |out| % 0x1_0000_0000 != WordAt(data, t + 4) then Err(GzipSizeMismatch)
      else Ok((out, t + 8))
  }

  // ---------- gzip: many members ----------

  predicate HasMagic(data: seq<byte>, p: nat)
  {
    p + 2 <= |data| && data[p] == 0x1f && data[p + 1] == 0x8b
  }

  /** The contents of the members from p on, after acc. Bytes that do not start a member end it. */
  function MembersFrom(data: seq<byte>, p: nat, acc: seq<byte>, max: nat): (r: Result<seq<byte>>)
    requires p <= |data| && |acc| <= max
    ensures r.Ok? ==> |r.value| <= max
    decreases |data| - p
  {
    if !HasMagic(data, p) then Ok(acc)
    else
      var (out, n) :- Member(data[p..], max - |acc|);
      MembersFrom(data, p + n, acc + out, max)
  }

  function Gunzipped(data: seq<byte>, max: nat): (r: Result<seq<byte>>)
    ensures r.Ok? ==> |r.value| <= max
  {
    if HasMagic(data, 0) then MembersFrom(data, 0, [], max)
    else
      var (out, _) :- Member(data, max);
      Ok(out)
  }

  // ---------- Members do not depend on what follows ----------

  lemma {:induction false} ZeroLocal(c: seq<byte>, e: seq<byte>, n: nat, p: nat)
    requires AlikeBytes(c, e, n) && FirstZero(c, p) < n
    ensures FirstZero(e, p) == FirstZero(c, p)
    decreases |c| - p
  {
    if p < |c| && c[p] != 0 { ZeroLocal(c, e, n, p + 1); }
  }

  lemma {:induction false} ExtraLocal(c: seq<byte>, e: seq<byte>, n: nat, flg: byte)
    requires n >= 18 && AlikeBytes(c, e, n) && SkipExtra(c, flg, 10).Ok? && SkipExtra(c, flg, 10).value <= n
    ensures SkipExtra(e, flg, 10) == SkipExtra(c, flg, 10)
  {
    hide BitOr, HasFlag;
  }

  lemma {:induction false} StringLocal(c: seq<byte>, e: seq<byte>, n: nat, present: bool, p: nat)
    requires AlikeBytes(c, e, n) && SkipString(c, present, p).Ok? && SkipString(c, present, p).value <= n
    ensures SkipString(e, present, p) == SkipString(c, present, p)
  {
    hide FirstZero;
    if present { ZeroLocal(c, e, n, p); }
  }

  lemma {:induction false} HeaderEndLocal(c: seq<byte>, e: seq<byte>, n: nat)
    requires |c| >= 18 && |e| >= 18 && n >= 18 && AlikeBytes(c, e, n) && HeaderEnd(c).Ok? && HeaderEnd(c).value <= n
    ensures HeaderEnd(e) == HeaderEnd(c)
  {
    hide SkipExtra, SkipString, HasFlag;
    var flg := c[3];
    var p1 := SkipExtra(c, flg, 10).value;
    var p2 := SkipString(c, HasFlag(flg, 3), p1).value;
    ExtraLocal(c, e, n, flg);
    StringLocal(c, e, n, HasFlag(flg, 3), p1);
    StringLocal(c, e, n, HasFlag(flg, 4), p2);
  }

  /** Bytes after a member, and a limit beyond its size, do not change it. */
  lemma {:induction false} MemberLocal(c: seq<byte>, e: seq<byte>, max: nat, max': nat)
    requires Member(c, max).Ok? && AlikeBytes(c, e, Member(c, max).value.1) && |Member(c, max).value.0| <= max'
    ensures Member(e, max') == Member(c, max)
  {
    hide Inflated, HeaderEnd, CrcOf, FromLe;
    var n := Member(c, max).value.1;
    var p := HeaderEnd(c).value;
    HeaderEndLocal(c, e, n);
    var k := Inflated(c[p..], max).value.1;
    InflatedLocal(c[p..], e[p..], max);
    InflatedLimit(e[p..], max, max');
  }

  /** c is one member with contents x. */
  ghost predicate IsMember(c: seq<byte>, x: seq<byte>)
  {
    Member(c, |x|) == Ok((x, |c|))
  }

  function Flat(ss: seq<seq<byte>>, k: nat): (r: seq<byte>)
    requires k <= |ss|
  {
    if k == 0 then [] else Flat(ss, k - 1) + ss[k - 1]
  }

  lemma {:induction false} FlatGrows(ss: seq<seq<byte>>, j: nat, k: nat)
    requires j <= k <= |ss|
    ensures Flat(ss, j) <= Flat(ss, k)
  {
    if j < k { FlatGrows(ss, j, k - 1); }
  }

  lemma {:induction false} MemberMagic(c: seq<byte>, max: nat)
    requires Member(c, max).Ok?
    ensures |c| >= 18 && HasMagic(c, 0)
  {
  }

  lemma {:induction false} MembersStep(data: seq<byte>, p: nat, acc: seq<byte>, max: nat, c: seq<byte>, x: seq<byte>)
    requires IsMember(c, x) && p + |c| <= |data| && |acc| + |x| <= max && data[p..p + |c|] == c
    ensures MembersFrom(data, p, acc, max) == MembersFrom(data, p + |c|, acc + x, max)
  {
    hide Member;
    MemberMagic(c, |x|);
    assert data[p] == c[0] && data[p + 1] == c[1];
    var e := data[p..];
    assert AlikeBytes(c, e, |c|) by {
      forall i | 0 <= i < |c| ensures c[i] == e[i] { assert c[i] == data[p..p + |c|][i]; }
    }
    MemberLocal(c, e, |x|, max - |acc|);
  }

  ghost predicate AllMembers(cs: seq<seq<byte>>, xs: seq<seq<byte>>)
  {
    |cs| == |xs| && forall k :: 0 <= k < |cs| ==> IsMember(cs[k], xs[k])
  }

  lemma {:induction false} MembersBack(data: seq<byte>, cs: seq<seq<byte>>, xs: seq<seq<byte>>, k: nat, max: nat)
    requires AllMembers(cs, xs) && k <= |cs| && Flat(cs, |cs|) <= data && !HasMagic(data, |Flat(cs, |cs|)|)
    requires |Flat(xs, |xs|)| <= max
    ensures |Flat(cs, k)| <= |data| && |Flat(xs, k)| <= max
    ensures MembersFrom(data, |Flat(cs, k)|, Flat(xs, k), max) == Ok(Flat(xs, |xs|))
    decreases |cs| - k
  {
    hide IsMember, Member, HasMagic;
    FlatGrows(cs, k, |cs|);
    FlatGrows(xs, k, |xs|);
    if k < |cs| {
      var p, c, x := |Flat(cs, k)|, cs[k], xs[k];
      FlatGrows(cs, k + 1, |cs|);
      FlatGrows(xs, k + 1, |xs|);
      assert Flat(cs, k + 1) == Flat(cs, k) + c;
      assert Flat(cs, k + 1) <= data;
      assert data[p..p + |c|] == c;
      MembersBack(data, cs, xs, k + 1, max);
      MembersStep(data, p, Flat(xs, k), max, c, x);
    } else {
      NoMagic(data, |Flat(cs, k)|, Flat(xs, k), max);
    }
  }

  lemma {:induction false} NoMagic(data: seq<byte>, p: nat, acc: seq<byte>, max: nat)
    requires p <= |data| && |acc| <= max && !HasMagic(data, p)
    ensures MembersFrom(data, p, acc, max) == Ok(acc)
  {
  }

  /** Members one after the other, by whatever encoder, followed by bytes that start no member, are
      unpacked to their contents one after the other, under every limit that these fit. */
  lemma {:induction false} GunzipConcat(cs: seq<seq<byte>>, xs: seq<seq<byte>>, tail: seq<byte>, max: nat)
    requires cs != [] && AllMembers(cs, xs) && |Flat(xs, |xs|)| <= max
    requires !HasMagic(Flat(cs, |cs|) + tail, |Flat(cs, |cs|)|)
    ensures Gunzipped(Flat(cs, |cs|) + tail, max) == Ok(Flat(xs, |xs|))
  {
    hide Member;
    var data := Flat(cs, |cs|) + tail;
    MembersBack(data, cs, xs, 0, max);
    assert IsMember(cs[0], xs[0]);
    MemberMagic(cs[0], |xs[0]|);
    FlatGrows(cs, 1, |cs|);
    assert Flat(cs, 0) == [];
    assert Flat(cs, 1) == [] + cs[0] == cs[0];
    assert cs[0] <= data;
    assert data[0] == cs[0][0] && data[1] == cs[0][1];
  }

  // ---------- Reading gzip ----------

  method SkipZeroTerminated(data: seq<byte>, p0: nat) returns (r: Result<nat>)
    ensures r == SkipString(data, true, p0)
  {
    var p := p0;
    while p < |data| && data[p] != 0
      invariant p0 <= p && FirstZero(data, p0) == FirstZero(data, p)
    {
      p := p + 1;
    }
    if p >= |data| { return Err(UnexpectedEnd); }
    r := Ok(p + 1);
  }

  method GunzipHeader(data: seq<byte>) returns (r: Result<nat>)
    requires |data| >= 18
    ensures r == HeaderEnd(data)
  {
    hide FirstZero, BitOr, HasFlag;
    if data[0] != 0x1f || data[1] != 0x8b { return Err(InvalidGzipMagic); }
    if data[2] != 8 { return Err(UnsupportedGzipMethod); }
    var flg := data[3];
    if flg / 32 != 0 { return Err(GzipReservedFlags); }
    var p: nat := 10;
    if HasFlag(flg, 2) {
      if p + 2 > |data| { return Err(UnexpectedEnd); }
      p := p + 2 + BitOr(data[p], Shl(data[p + 1], 8));
      if p > |data| { return Err(UnexpectedEnd); }
    }
    if HasFlag(flg, 3) {
      p :- SkipZeroTerminated(data, p);
    }
    if HasFlag(flg, 4) {
      p :- SkipZeroTerminated(data, p);
    }
    if HasFlag(flg, 1) {
      if p + 2 > |data| { return Err(UnexpectedEnd); }
      p := p + 2;
    }
    r := Ok(p);
  }

  method GunzipMember(data: seq<byte>, max: nat) returns (r: Result<(seq<byte>, nat)>)
    ensures r == Member(data, max)
  {
    hide Inflated, HeaderEnd, CrcOf, FromLe;
    if |data| < 18 { return Err(UnexpectedEnd); }
    var p :- GunzipHeader(data);
    var inflated :- InflateWithLimitConsumed(data[p..], max);
    var (out, n) := inflated;
    var t := p + n;
    if |data| < t + 8 { return Err(UnexpectedEnd); }
    var crc := Crc32.Crc32(out);
    if crc != WordAt(data, t) { return Err(GzipCrcMismatch); }
    if |out| % 0x1_0000_0000 != WordAt(data, t + 4) { return Err(GzipSizeMismatch); }
    r := Ok((out, t + 8));
  }

  method GunzipWithLimit(data: seq<byte>, max: nat) returns (r: Result<seq<byte>>)
    ensures r == Gunzipped(data, max)
  {
    hide Member;
    var result: seq<byte> := [];
    var offset := 0;
    while offset + 2 <= |data| && data[offset] == 0x1f && data[offset + 1] == 0x8b
      invariant 0 <= offset <= |data| && |result| <= max && (offset > 0 ==> HasMagic(data, 0)) &&
                  (offset == 0 ==> result == [])
      invariant MembersFrom(data, 0, [], max) == MembersFrom(data, offset, result, max)
    {
      var member :- GunzipMember(data[offset..], max - |result|);
      result := result + member.0;
      offset := offset + member.1;
    }
    if offset == 0 {
      var member :- GunzipMember(data, max);
      return Ok(member.0);
    }
    r := Ok(result);
  }

  // ---------- Writing gzip ----------

  /** A member without optional fields: what is written around the compressed data. */
  function Wrapped(body: seq<byte>, crc: nat, size: nat, os: byte): (c: seq<byte>)
  {
    [0x1f, 0x8b, 0x08, 0x00, 0x00, 0x00, 0x00, 0x00, 0x00, os] + body + Le32(crc) + Le32(size % 0x1_0000_0000)
  }

  lemma {:induction false} WordBack(c: seq<byte>, t: nat, v: nat)
    requires t + 4 <= |c| && v < 0x1_0000_0000 && c[t..t + 4] == Le32(v)
    ensures WordAt(c, t) == v
  {
    hide FromLe;
    var s := c[t..t + 4];
    assert s[0] == c[t] && s[1] == c[t + 1] && s[2] == c[t + 2] && s[3] == c[t + 3];
    Word32(v);
  }

  lemma {:induction false} WrappedParts(body: seq<byte>, crc: nat, size: nat, os: byte)
    ensures var c, t := Wrapped(body, crc, size, os), 10 + |body|;
            && |c| == t + 8 && c[..4] == [0x1f, 0x8b, 0x08, 0x00] && c[10..t] == body
            && c[10..] == body + (Le32(crc) + Le32(size % 0x1_0000_0000))
            && c[t..t + 4] == Le32(crc) && c[t + 4..t + 8] == Le32(size % 0x1_0000_0000)
  {
    hide Le32;
  }

  lemma {:induction false} WrappedIsMember(body: seq<byte>, x: seq<byte>, os: byte)
    requires Decompresses(body, x)
    ensures IsMember(Wrapped(body, CrcOf(x), |x|, os), x)
  {
    hide Wrapped, Inflated, CrcOf, Le32, FromLe, WordAt;
    var c, t := Wrapped(body, CrcOf(x), |x|, os), 10 + |body|;
    WrappedParts(body, CrcOf(x), |x|, os);
    assert body + [] == body && Inflated(body + [], |x|) == Ok((x, |body|));
    NotEmpty(body, x, |x|);
    assert c[..4][0] == c[0] && c[..4][1] == c[1] && c[..4][2] == c[2] && c[..4][3] == c[3];
    assert HeaderEnd(c) == Ok(10);
    assert Inflated(c[10..], |x|) == Ok((x, |body|));
    CrcBound(x);
    Pow2Of32();
    WordBack(c, t, CrcOf(x));
    WordBack(c, t + 4, |x| % 0x1_0000_0000);
  }

  /** What it writes is one member whose contents are the data. */
  method GzipDeflateStored(data: seq<byte>) returns (c: seq<byte>)
    ensures IsMember(c, data)
    ensures exists body :: IsBest(body, data) && c == Wrapped(body, CrcOf(data), |data|, 0xff)
  {
    hide Decompresses, IsMember, CrcOf, Wrapped, IsBest;
    var body := DeflateBest(data);
    var crc := Crc32.Crc32(data);
    c := Wrapped(body, crc, |data|, 0xff);
    WrappedIsMember(body, data, 0xff);
  }

  /** Up to sixteen bytes that are not all the same go into the fixed block of the lazy tokens. */
  ghost predicate IsDefault(body: seq<byte>, data: seq<byte>)
  {
    if |data| <= 16 && (data == [] || exists i :: 0 <= i < |data| && data[i] != data[0])
    then FixedBlock.Writes(body, data, LazyFrom(data, 0, false, []))
    else IsBest(body, data)
  }

  method GzipDeflateNodeDefault(data: seq<byte>) returns (c: seq<byte>)
    ensures IsMember(c, data)
    ensures exists body :: IsDefault(body, data) && c == Wrapped(body, CrcOf(data), |data|, 0x03)
  {
    hide Decompresses, IsMember, CrcOf, Wrapped, IsBest, FixedBlock.Writes, LazyFrom;
    var allSame := SameByte(data);
    var body;
    if |data| <= 16 && !allSame {
      body := DeflateFixedSmallLazy(data);
    } else {
      body := DeflateBest(data);
    }
    var crc := Crc32.Crc32(data);
    c := Wrapped(body, crc, |data|, 0x03);
    WrappedIsMember(body, data, 0x03);
  }

  /** Not empty, and all bytes equal the first. */
  method SameByte(data: seq<byte>) returns (same: bool)
    ensures same <==> data != [] && forall i :: 0 <= i < |data| ==> data[i] == data[0]
  {
    if |data| == 0 { return false; }
    for i := 0 to |data|
      invariant forall k :: 0 <= k < i ==> data[k] == data[0]
    {
      if data[i] != data[0] { return false; }
    }
    return true;
  }
}
