/** Integers and object identifiers of the distinguished encoding rules. */
module DerValues {
  import opened Bits
  import opened DerLength
  import opened Der

  const INTEGER: byte := 0x02
  const OID: byte := 0x06

  // ---------- Integers ----------

  /** Contents that no shorter contents could replace. */
  predicate Minimal(s: seq<byte>)
  {
    |s| >= 1 && (|s| > 1 ==> !(s[0] == 0x00 && s[1] < 0x80) && !(s[0] == 0xFF && s[1] >= 0x80))
  }

  function IntegerBytes(v: DerValue): (r: Parsed<seq<byte>>)
  {
    if v.tag != INTEGER then Bad(WrongTag(INTEGER, v.tag))
    else if !Minimal(v.content) then Bad(InvalidInteger)
    else Good(v.content)
  }

  function UnsignedInteger(v: DerValue): (r: Parsed<seq<byte>>)
  {
    var s :- IntegerBytes(v);
    if s[0] >= 0x80 then Bad(InvalidInteger)
    else if |s| > 1 && s[0] == 0x00 then Good(s[1..])
    else Good(s)
  }

  /** The two's-complement number in all bytes. */
  function SignedValue(s: seq<byte>): (v: int)
    requires |s| >= 1
  {
    BeValue(s, 0, |s|) - (if s[0] >= 0x80 then Pow256(|s|) else 0)
  }

  /** A signed 64-bit number: at most eight bytes, taken in one at a time from all ones or all zeros. */
  method AsI64(v: DerValue) returns (r: Parsed<int>)
    ensures r.Good? <==> v.tag == INTEGER && Minimal(v.content) && |v.content| <= 8
    ensures r.Good? ==> r.value == SignedValue(v.content) && -0x8000_0000_0000_0000 <= r.value < 0x8000_0000_0000_0000
    ensures r.Bad? ==> r.error == if v.tag != INTEGER then WrongTag(INTEGER, v.tag) else InvalidInteger
  {
    var bytes := IntegerBytes(v);
    if bytes.Bad? { return Bad(bytes.error); }
    var s := bytes.value;
    if |s| > 8 { return Bad(InvalidInteger); }
    var x: int := if s[0] >= 0x80 then -1 else 0;
    for i := 0 to |s|
      invariant x == BeValue(s, 0, i) - (if s[0] >= 0x80 then Pow256(i) else 0)
      invariant i > 0 ==> Fits(x, i)
    {
      FitsMore(s, i, x);
      x := 256 * x + s[i];
    }
    FitsWord(x, |s|);
    r := Good(x);
  }

  /** Within the range of i bytes. */
  ghost predicate Fits(x: int, i: nat)
    requires i > 0
  {
    -128 * Pow256(i - 1) <= x < 128 * Pow256(i - 1)
  }

  lemma {:induction false} FitsMore(s: seq<byte>, i: nat, x: int)
    requires i < |s| && x == BeValue(s, 0, i) - (if s[0] >= 0x80 then Pow256(i) else 0)
    requires i > 0 ==> Fits(x, i)
    ensures Fits(256 * x + s[i], i + 1)
  {
    if i == 0 { assert BeValue(s, 0, 0) == 0; }
  }

  lemma {:induction false} FitsWord(x: int, n: nat)
    requires 0 < n <= 8 && Fits(x, n)
    ensures -0x8000_0000_0000_0000 <= x < 0x8000_0000_0000_0000
  {
    PowMono(n - 1, 7);
    LimitPower();
    assert Pow256(7) == 0x100_0000_0000_0000;
  }

  /** Minimal contents are determined by the number. */
  lemma {:induction false} MinimalIsUnique(s: seq<byte>, t: seq<byte>)
    requires Minimal(s) && Minimal(t) && SignedValue(s) == SignedValue(t)
    ensures s == t
  {
    hide Minimal, Pow256, BeValue;
    MinimalRange(s);
    MinimalRange(t);
    if |s| < |t| {
      PowMono(|s| - 1, |t| - 2);
    } else if |t| < |s| {
      PowMono(|t| - 1, |s| - 2);
    } else {
      BeBound(s, 0, |s|);
      BeBound(t, 0, |t|);
      BeInjective(s, t, |s|);
    }
  }

  lemma {:induction false} MulLe(a: int, b: int, p: nat)
    requires a <= b
    ensures a * p <= b * p
  {
  }

  /** The number of n bytes that start with a lies between a and a + 1 times the weight of the first byte. */
  lemma {:induction false} BeLeading(s: seq<byte>, n: nat, a: nat)
    requires 1 <= n <= |s| && a == s[0]
    ensures a * Pow256(n - 1) <= BeValue(s, 0, n) < (a + 1) * Pow256(n - 1)
  {
    if n == 1 {
      assert BeValue(s, 0, 0) == 0;
    } else {
      BeLeading(s, n - 1, a);
      Scale(a, Pow256(n - 2));
      Scale(a + 1, Pow256(n - 2));
    }
  }

  lemma {:induction false} Scale(a: nat, p: nat)
    ensures a * (256 * p) == 256 * (a * p)
  {
  }

  /** Likewise for the first two bytes. */
  lemma {:induction false} BeLeading2(s: seq<byte>, n: nat, a: nat)
    requires 2 <= n <= |s| && a == 256 * (s[0] as nat) + s[1]
    ensures a * Pow256(n - 2) <= BeValue(s, 0, n) < (a + 1) * Pow256(n - 2)
  {
    if n == 2 {
      assert BeValue(s, 0, 0) == 0;
      assert BeValue(s, 0, 1) == s[0];
    } else {
      BeLeading2(s, n - 1, a);
      Scale(a, Pow256(n - 3));
      Scale(a + 1, Pow256(n - 3));
    }
  }

  lemma {:induction false} InRange(s: seq<byte>)
    requires |s| >= 1
    ensures Fits(SignedValue(s), |s|)
  {
    hide BeValue, Pow256;
    var n, a, p := |s|, s[0] as nat, Pow256(|s| - 1);
    BeLeading(s, n, a);
    PowStep(n);
    if a < 128 { MulLe(a + 1, 128, p); } else { MulLe(128, a, p); MulLe(a + 1, 256, p); }
  }

  lemma {:induction false} PowStep(n: nat)
    requires n >= 1
    ensures Pow256(n) == 256 * Pow256(n - 1)
  {
  }

  /** The number lies in the range of its bytes but not in that of fewer. */
  lemma {:induction false} MinimalRange(s: seq<byte>)
    requires Minimal(s)
    ensures |s| >= 1 && Fits(SignedValue(s), |s|)
    ensures |s| >= 2 ==> !Fits(SignedValue(s), |s| - 1)
  {
    hide BeValue, Pow256, Fits;
    InRange(s);
    if |s| >= 2 { OutOfRange(s, |s|, 256 * (s[0] as nat) + s[1]); }
  }

  lemma {:induction false} OutOfRange(s: seq<byte>, n: nat, a: nat)
    requires n == |s| >= 2 && Minimal(s) && a == 256 * (s[0] as nat) + s[1]
    ensures !Fits(SignedValue(s), n - 1)
  {
    hide BeValue, Pow256;
    var q := Pow256(n - 2);
    BeLeading2(s, n, a);
    PowStep(n);
    PowStep(n - 1);
    if s[0] < 0x80 { MulLe(128, a, q); } else { MulLe(a + 1, 65408, q); }
  }

  lemma {:induction false} BeInjective(s: seq<byte>, t: seq<byte>, n: nat)
    requires n <= |s| && n <= |t| && BeValue(s, 0, n) == BeValue(t, 0, n)
    ensures s[..n] == t[..n]
  {
    if n > 0 {
      BeInjective(s, t, n - 1);
      assert s[..n] == s[..n - 1] + [s[n - 1]];
      assert t[..n] == t[..n - 1] + [t[n - 1]];
    }
  }

  lemma {:induction false} BeFirst(s: seq<byte>, n: nat)
    requires 1 <= n <= |s|
    ensures BeValue(s, 0, n) == (s[0] as nat) * Pow256(n - 1) + BeValue(s[1..], 0, n - 1)
  {
    if n == 1 {
      assert BeValue(s, 0, 0) == 0 && BeValue(s[1..], 0, 0) == 0;
    } else {
      BeFirst(s, n - 1);
      Scale(s[0], Pow256(n - 2));
    }
  }

  /** A first byte that only repeats the sign can be dropped. */
  lemma {:induction false} DropSign(s: seq<byte>)
    requires |s| >= 2 && !Minimal(s)
    ensures SignedValue(s[1..]) == SignedValue(s)
  {
    hide BeValue, Pow256;
    BeFirst(s, |s|);
    PowStep(|s|);
    PowStep(|s| - 1);
  }

  ghost predicate MinimalFor(s: seq<byte>, v: int)
  {
    Minimal(s) && SignedValue(s) == v
  }

  /** Every number has minimal contents. */
  lemma {:induction false} MinimalExists(s: seq<byte>)
    requires |s| >= 1
    ensures exists t :: MinimalFor(t, SignedValue(s))
    decreases |s|
  {
    hide SignedValue;
    if Minimal(s) {
      assert MinimalFor(s, SignedValue(s));
    } else {
      DropSign(s);
      MinimalExists(s[1..]);
    }
  }

  // ---------- Unsigned integers ----------

  lemma {:induction false} NotNegative(s: seq<byte>)
    requires |s| >= 1
    ensures SignedValue(s) >= 0 <==> s[0] < 0x80
  {
    hide BeValue, Pow256;
    BeBound(s, 0, |s|);
  }

  /** Accepted exactly for minimal contents of a number that is not negative; the result has no leading zero unless it
      is the one byte of zero, and stands for that number. */
  lemma {:induction false} UnsignedExact(v: DerValue)
    ensures UnsignedInteger(v).Good? <==>
              v.tag == INTEGER && exists n: nat :: MinimalFor(v.content, n)
    ensures UnsignedInteger(v).Good? ==>
              var m := UnsignedInteger(v).value;
              |m| >= 1 && (|m| == 1 || m[0] != 0) && BeValue(m, 0, |m|) == SignedValue(v.content)
    ensures UnsignedInteger(v).Bad? ==>
              UnsignedInteger(v).error == if v.tag != INTEGER then WrongTag(INTEGER, v.tag) else InvalidInteger
  {
    hide BeValue, Pow256;
    var s := v.content;
    if |s| >= 1 {
      NotNegative(s);
      BeFirst(s, |s|);
      if SignedValue(s) >= 0 && Minimal(s) {
        var n: nat := SignedValue(s);
        assert MinimalFor(s, n);
      }
    }
  }

  /** The first byte from i on that is not zero, or the last byte. */
  function Skip(m: seq<byte>, i: nat): (k: nat)
    requires i < |m|
    ensures i <= k < |m| && (k + 1 == |m| || m[k] != 0) && forall j :: i <= j < k ==> m[j] == 0
    decreases |m| - i
  {
    if i + 1 < |m| && m[i] == 0 then Skip(m, i + 1) else i
  }

  /** A magnitude without its leading zeros; one zero byte for zero. */
  function Trimmed(m: seq<byte>): (r: seq<byte>)
    ensures |r| >= 1 && (|r| == 1 || r[0] != 0)
  {
    if m == [] then [0] else m[Skip(m, 0)..]
  }

  /** A zero byte in front keeps the number from being negative. */
  function UnsignedBody(m: seq<byte>): (r: seq<byte>)
  {
    (if Trimmed(m)[0] >= 0x80 then [0] else []) + Trimmed(m)
  }

  method EncodeIntegerUnsigned(m: seq<byte>) returns (out: seq<byte>)
    requires |m| < WORD - 1
    ensures out == EncTlv(INTEGER, UnsignedBody(m))
  {
    hide EncTlv;
    var i := 0;
    while i + 1 < |m| && m[i] == 0
      invariant 0 <= i && (|m| > 0 ==> i < |m| && Skip(m, 0) == Skip(m, i))
    {
      i := i + 1;
    }
    var trimmed: seq<byte> := if |m| == 0 then [0] else m[i..];
    assert trimmed == Trimmed(m);
    var body: seq<byte> := [];
    if trimmed[0] >= 0x80 {
      body := body + [0];
    }
    body := body + trimmed;
    assert body == UnsignedBody(m);
    out := EncodeTlv(INTEGER, body);
  }

  lemma {:induction false} BeZeros(m: seq<byte>, i: nat)
    requires i <= |m| && forall j :: 0 <= j < i ==> m[j] == 0
    ensures BeValue(m, 0, i) == 0
  {
    if i > 0 { BeZeros(m, i - 1); }
  }

  lemma {:induction false} BeDrop(m: seq<byte>, i: nat, n: nat)
    requires i + n <= |m| && forall j :: 0 <= j < i ==> m[j] == 0
    ensures BeValue(m, 0, i + n) == BeValue(m[i..], 0, n)
  {
    if n == 0 { BeZeros(m, i); } else { BeDrop(m, i, n - 1); }
  }

  lemma {:induction false} TrimmedValue(m: seq<byte>)
    ensures BeValue(Trimmed(m), 0, |Trimmed(m)|) == BeValue(m, 0, |m|)
  {
    if m == [] {
      assert BeValue([0], 0, 0) == 0;
    } else {
      BeDrop(m, Skip(m, 0), |m| - Skip(m, 0));
    }
  }

  /** What is encoded as an unsigned integer is read back without leading zeros, and is the same number. */
  lemma {:induction false} UnsignedBack(m: seq<byte>)
    ensures UnsignedInteger(DerValue(INTEGER, UnsignedBody(m))) == Good(Trimmed(m))
    ensures BeValue(Trimmed(m), 0, |Trimmed(m)|) == BeValue(m, 0, |m|)
  {
    TrimmedValue(m);
    hide BeValue;
    var t, b := Trimmed(m), UnsignedBody(m);
    if t[0] >= 0x80 {
      assert b == [0] + t;
      assert b[1..] == t;
    } else {
      assert b == t;
    }
  }

  // ---------- Object identifiers ----------

  const ARC_LIMIT: nat := 0x1_0000_0000_0000_0000

  /** The arcs from i on; value holds the groups read of the current one, which must not outgrow the word. */
  function ArcsFrom(s: seq<byte>, i: nat, value: nat, out: seq<nat>): (r: Parsed<seq<nat>>)
    requires i <= |s|
    decreases |s| - i, s
  {
    if i == |s| then (if value != 0 then Bad(InvalidOid) else Good(out))
    else if value > 0x1FF_FFFF_FFFF_FFFF then Bad(InvalidOid)
    else
      var v := 128 * value + s[i] % 128;
      if s[i] < 128 then ArcsFrom(s, i + 1, 0, out + [v]) else ArcsFrom(s, i + 1, v, out)
  }

  function OidArcs(v: DerValue): (r: Parsed<seq<nat>>)
  {
    if v.tag != OID then Bad(WrongTag(OID, v.tag))
    else if v.content == [] then Bad(InvalidOid)
    else ArcsFrom(v.content, 1, 0, [v.content[0] / 40, v.content[0] % 40])
  }

  method AsOid(v: DerValue) returns (r: Parsed<seq<nat>>)
    ensures r == OidArcs(v)
  {
    if v.tag != OID { return Bad(WrongTag(OID, v.tag)); }
    if |v.content| == 0 { return Bad(InvalidOid); }
    var out: seq<nat> := [v.content[0] / 40, v.content[0] % 40];
    var value: nat := 0;
    for i := 1 to |v.content|
      invariant OidArcs(v) == ArcsFrom(v.content, i, value, out)
    {
      var b := v.content[i];
      if value > 0x1FF_FFFF_FFFF_FFFF { return Bad(InvalidOid); }
      value := 128 * value + b % 128;
      if b < 128 {
        out := out + [value];
        value := 0;
      }
    }
    if value != 0 { return Bad(InvalidOid); }
    r := Good(out);
  }

  /** The groups of seven bits of m, highest first, all marked as continued. */
  function High(m: nat): (s: seq<byte>)
  {
    if m == 0 then [] else High(m / 128) + [m % 128 + 128]
  }

  function ArcBytes(arc: nat): (s: seq<byte>)
  {
    High(arc / 128) + [arc % 128]
  }

  /** The bytes of arcs 2 to k. */
  function ArcsBytes(arcs: seq<nat>, k: nat): (s: seq<byte>)
    requires 2 <= k <= |arcs|
  {
    if k == 2 then [] else ArcsBytes(arcs, k - 1) + ArcBytes(arcs[k - 1])
  }

  function OidBody(arcs: seq<nat>): (s: seq<byte>)
  {
    if |arcs| < 2 then [] else [(arcs[0] * 40 + arcs[1]) % 256] + ArcsBytes(arcs, |arcs|)
  }

  method EncodeArc(arc: nat) returns (bytes: seq<byte>)
    ensures bytes == ArcBytes(arc)
  {
    var stack: seq<byte> := [arc % 128];
    var n := arc / 128;
    while n > 0
      invariant n >= 0 && High(n) + stack == ArcBytes(arc)
    {
      assert (High(n / 128) + [n % 128 + 128]) + stack == High(n / 128) + ([n % 128 + 128] + stack);
      stack := [n % 128 + 128] + stack;
      n := n / 128;
    }
    assert [] + stack == stack;
    bytes := stack;
  }

  method EncodeOid(arcs: seq<nat>) returns (out: seq<byte>)
    requires |OidBody(arcs)| < WORD
    ensures out == EncTlv(OID, OidBody(arcs))
  {
    hide EncTlv, ArcsBytes;
    var body: seq<byte> := [];
    if |arcs| >= 2 {
      body := EncodeArcs(arcs);
    }
    out := EncodeTlv(OID, body);
  }

  method EncodeArcs(arcs: seq<nat>) returns (body: seq<byte>)
    requires |arcs| >= 2
    ensures body == OidBody(arcs)
  {
    hide ArcBytes;
    var first: byte := (arcs[0] * 40 + arcs[1]) % 256;
    body := [first];
    for k := 2 to |arcs|
      invariant body == [first] + ArcsBytes(arcs, k)
    {
      var arc := EncodeArc(arcs[k]);
      assert ([first] + ArcsBytes(arcs, k)) + arc == [first] + (ArcsBytes(arcs, k) + arc);
      body := body + arc;
    }
  }

  lemma {:induction false} HighBack(s: seq<byte>, i: nat, m: nat, out: seq<nat>)
    requires BytesAt(s, i, High(m)) && m < 0x200_0000_0000_0000
    ensures i + |High(m)| <= |s| && ArcsFrom(s, i, 0, out) == ArcsFrom(s, i + |High(m)|, m, out)
  {
    hide BytesAt;
    BytesAtFits(s, i, High(m));
    if m > 0 {
      BytesAtSplit(s, i, High(m / 128), [m % 128 + 128]);
      HighBack(s, i, m / 128, out);
      LastByte(s, i + |High(m / 128)|, m % 128 + 128);
    }
  }

  lemma {:induction false} ArcBack(s: seq<byte>, i: nat, arc: nat, out: seq<nat>)
    requires BytesAt(s, i, ArcBytes(arc)) && arc < ARC_LIMIT
    ensures i + |ArcBytes(arc)| <= |s| && ArcsFrom(s, i, 0, out) == ArcsFrom(s, i + |ArcBytes(arc)|, 0, out + [arc])
  {
    hide BytesAt, High;
    BytesAtFits(s, i, ArcBytes(arc));
    BytesAtSplit(s, i, High(arc / 128), [arc % 128]);
    HighBack(s, i, arc / 128, out);
    LastByte(s, i + |High(arc / 128)|, arc % 128);
  }

  lemma {:induction false} NthArc(arcs: seq<nat>, k: nat, n: nat, s: seq<byte>, pos: nat)
    requires 2 <= k < n <= |arcs| && BytesAt(s, pos, ArcsBytes(arcs, n))
    ensures BytesAt(s, pos + |ArcsBytes(arcs, k)|, ArcBytes(arcs[k]))
    decreases n
  {
    hide BytesAt, ArcBytes;
    BytesAtSplit(s, pos, ArcsBytes(arcs, n - 1), ArcBytes(arcs[n - 1]));
    if k < n - 1 { NthArc(arcs, k, n - 1, s, pos); }
  }

  lemma {:induction false} ArcsBack(arcs: seq<nat>, k: nat, s: seq<byte>, out: seq<nat>)
    requires 2 <= k <= |arcs| && (forall i :: 0 <= i < |arcs| ==> arcs[i] < ARC_LIMIT)
    requires |s| == 1 + |ArcsBytes(arcs, |arcs|)| && BytesAt(s, 1, ArcsBytes(arcs, |arcs|))
    ensures 1 + |ArcsBytes(arcs, k)| <= |s|
    ensures ArcsFrom(s, 1 + |ArcsBytes(arcs, k)|, 0, out) == Good(out + arcs[k..])
    decreases |arcs| - k
  {
    hide BytesAt, ArcBytes;
    if k == |arcs| {
      assert out + arcs[k..] == out;
    } else {
      NthArc(arcs, k, |arcs|, s, 1);
      var p := 1 + |ArcsBytes(arcs, k)|;
      BytesAtFits(s, p, ArcBytes(arcs[k]));
      ArcBack(s, p, arcs[k], out);
      assert out + [arcs[k]] + arcs[k + 1..] == out + arcs[k..];
      ArcsBack(arcs, k + 1, s, out + [arcs[k]]);
    }
  }

  /** What is read back of any two or more words: the first two come from the one byte that holds both, the others are
      as they were. */
  lemma {:induction false} OidReadBack(arcs: seq<nat>)
    requires |arcs| >= 2 && forall i :: 0 <= i < |arcs| ==> arcs[i] < ARC_LIMIT
    ensures var first := (arcs[0] * 40 + arcs[1]) % 256;
            OidArcs(DerValue(OID, OidBody(arcs))) == Good([first / 40, first % 40] + arcs[2..])
  {
    hide ArcsBytes, ArcsFrom;
    var s := OidBody(arcs);
    RestAt(s, s[0], ArcsBytes(arcs, |arcs|));
    NoArcs(arcs);
    ArcsBack(arcs, 2, s, [s[0] / 40, s[0] % 40]);
  }

  lemma {:induction false} NoArcs(arcs: seq<nat>)
    requires |arcs| >= 2
    ensures ArcsBytes(arcs, 2) == []
  {
  }

  /** Words are read back exactly when there are two of them that fit into the first byte, the second below 40. */
  lemma {:induction false} OidBack(arcs: seq<nat>)
    requires forall i :: 0 <= i < |arcs| ==> arcs[i] < ARC_LIMIT
    ensures OidArcs(DerValue(OID, OidBody(arcs))) == Good(arcs) <==>
              |arcs| >= 2 && arcs[1] < 40 && arcs[0] * 40 + arcs[1] < 256
  {
    hide OidArcs, OidBody;
    if |arcs| < 2 {
      NoBody(arcs);
    } else {
      OidReadBack(arcs);
      FirstByteSplits(arcs[0], arcs[1]);
      var first := (arcs[0] * 40 + arcs[1]) % 256;
      var read := [first / 40, first % 40] + arcs[2..];
      assert read[0] == first / 40 && read[1] == first % 40;
      assert arcs == [arcs[0], arcs[1]] + arcs[2..];
    }
  }

  lemma {:induction false} NoBody(arcs: seq<nat>)
    requires |arcs| < 2
    ensures OidArcs(DerValue(OID, OidBody(arcs))) == Bad(InvalidOid)
  {
  }

  lemma {:induction false} FirstByteSplits(a: nat, b: nat)
    ensures var first := (a * 40 + b) % 256; first / 40 == a && first % 40 == b <==> b < 40 && a * 40 + b < 256
  {
    var first := (a * 40 + b) % 256;
    if first / 40 == a && first % 40 == b { assert first == a * 40 + b; }
  }

  /** The arcs 2.100 are read back as 4.20. */
  lemma {:induction false} OidChanged()
    ensures OidArcs(DerValue(OID, OidBody([2, 100]))) == Good([4, 20])
  {
    OidReadBack([2, 100]);
  }

  // ---------- Which identifiers are accepted ----------

  /** The number in the groups of seven bits from b to i, highest first. */
  function GroupsValue(s: seq<byte>, b: nat, i: nat): (v: nat)
    requires b <= i <= |s|
  {
    if i == b then 0 else 128 * GroupsValue(s, b, i - 1) + s[i - 1] % 128
  }

  ghost predicate Continued(s: seq<byte>, b: nat, i: nat)
  {
    b <= i <= |s| && forall k :: b <= k < i ==> s[k] >= 128
  }

  /** An arc from b to e, perhaps with leading groups of zeros; it fits a word. */
  ghost predicate ArcAt(s: seq<byte>, b: nat, e: nat, v: nat)
  {
    b < e <= |s| && Continued(s, b, e - 1) && s[e - 1] < 128 && v == GroupsValue(s, b, e) && v < ARC_LIMIT
  }

  /** The arcs from b on; what follows them can only be an unfinished arc of zeros. */
  ghost predicate ArcsAt(s: seq<byte>, b: nat, arcs: seq<nat>)
    requires b <= |s|
    decreases |arcs|
  {
    if arcs == [] then forall k :: b <= k < |s| ==> s[k] == 0x80
    else exists e: nat :: ArcAt(s, b, e, arcs[0]) && ArcsAt(s, e, arcs[1..])
  }

  lemma {:induction false} GroupsZero(s: seq<byte>, b: nat, i: nat)
    requires Continued(s, b, i) && GroupsValue(s, b, i) == 0
    ensures forall k :: b <= k < i ==> s[k] == 0x80
  {
    if i > b { GroupsZero(s, b, i - 1); }
  }

  lemma {:induction false} ArcsRead(s: seq<byte>, b: nat, i: nat, out: seq<nat>) returns (more: seq<nat>)
    requires Continued(s, b, i) && ArcsFrom(s, i, GroupsValue(s, b, i), out).Good?
    ensures ArcsFrom(s, i, GroupsValue(s, b, i), out) == Good(out + more) && ArcsAt(s, b, more)
    decreases |s| - i
  {
    if i == |s| {
      GroupsZero(s, b, i);
      more := [];
      assert out + more == out;
    } else if s[i] < 128 {
      var v := GroupsValue(s, b, i + 1);
      assert ArcAt(s, b, i + 1, v);
      var rest := ArcsRead(s, i + 1, i + 1, out + [v]);
      more := [v] + rest;
      assert more[1..] == rest && (out + [v]) + rest == out + more;
    } else {
      more := ArcsRead(s, b, i + 1, out);
    }
  }

  lemma {:induction false} GroupsGrow(s: seq<byte>, b: nat, i: nat, e: nat)
    requires b <= i < e <= |s|
    ensures 128 * GroupsValue(s, b, i) <= GroupsValue(s, b, e)
  {
    if i < e - 1 { GroupsGrow(s, b, i, e - 1); }
  }

  lemma {:induction false} ArcRest(s: seq<byte>, b: nat, i: nat, e: nat, v: nat, out: seq<nat>)
    requires ArcAt(s, b, e, v) && b <= i < e
    ensures ArcsFrom(s, i, GroupsValue(s, b, i), out) == ArcsFrom(s, e, 0, out + [v])
    decreases e - i
  {
    GroupsGrow(s, b, i, e);
    if i < e - 1 { ArcRest(s, b, i + 1, e, v, out); }
  }

  lemma {:induction false} ZerosLeft(s: seq<byte>, i: nat, out: seq<nat>)
    requires i <= |s| && forall k :: i <= k < |s| ==> s[k] == 0x80
    ensures ArcsFrom(s, i, 0, out) == Good(out)
    decreases |s| - i
  {
    if i < |s| { ZerosLeft(s, i + 1, out); }
  }

  lemma {:induction false} ArcsAccepted(s: seq<byte>, b: nat, out: seq<nat>, more: seq<nat>)
    requires b <= |s| && ArcsAt(s, b, more)
    ensures ArcsFrom(s, b, 0, out) == Good(out + more)
    decreases |more|
  {
    hide ArcsFrom;
    if more == [] {
      ZerosLeft(s, b, out);
      assert out + more == out;
    } else {
      var e: nat :| ArcAt(s, b, e, more[0]) && ArcsAt(s, e, more[1..]);
      ArcStart(s, b, e, more[0], out);
      ArcsAccepted(s, e, out + [more[0]], more[1..]);
      assert (out + [more[0]]) + more[1..] == out + more;
    }
  }

  lemma {:induction false} ArcStart(s: seq<byte>, b: nat, e: nat, v: nat, out: seq<nat>)
    requires ArcAt(s, b, e, v)
    ensures e <= |s| && ArcsFrom(s, b, 0, out) == ArcsFrom(s, e, 0, out + [v])
  {
    ArcRest(s, b, b, e, v, out);
  }

  /** An identifier is accepted exactly when, after its first byte, it is arcs that fit a word and then at most an
      unfinished arc of zeros. */
  lemma {:induction false} OidExact(s: seq<byte>, arcs: seq<nat>)
    ensures OidArcs(DerValue(OID, s)) == Good(arcs) <==>
              s != [] && |arcs| >= 2 && arcs[..2] == [s[0] / 40, s[0] % 40] && ArcsAt(s, 1, arcs[2..])
  {
    hide ArcsFrom, ArcsAt;
    if s != [] {
      var first := [s[0] / 40, s[0] % 40];
      if OidArcs(DerValue(OID, s)) == Good(arcs) {
        var more := ArcsRead(s, 1, 1, first);
        assert arcs[..2] == first && arcs[2..] == more;
      }
      if |arcs| >= 2 && arcs[..2] == first && ArcsAt(s, 1, arcs[2..]) {
        ArcsAccepted(s, 1, first, arcs[2..]);
        assert first + arcs[2..] == arcs;
      }
    }
  }

  /** So an identifier that stops inside an arc is not always refused. */
  lemma {:induction false} OidCutShort()
    ensures OidArcs(DerValue(OID, [0x2A, 0x80])) == Good([1, 2])
  {
    var s := [0x2A, 0x80];
    ZerosLeft(s, 1, [1, 2]);
  }
}
