/** Lengths of the distinguished encoding rules (section 10.1 of ITU-T X.690). */
module DerLength {
  import opened Bits

  datatype DerError =
    | UnexpectedEnd
    | InvalidLength
    | UnknownTag(tag: byte)
    | WrongTag(expected: byte, actual: byte)
    | NotConstructed
    | NotPrimitive
    | InvalidOid
    | InvalidInteger
    | TrailingData
    | MaxDepthExceeded

  datatype Parsed<+T> = Good(value: T) | Bad(error: DerError) {
    predicate IsFailure() { Bad? }
    function PropagateFailure<U>(): Parsed<U>
      requires Bad?
    {
      Bad(error)
    }
    function Extract(): T
      requires Good?
    {
      value
    }
  }

  const LIMIT: nat := 0x1_0000_0000

  // ---------- Big-endian numbers ----------

  /** The number in the n bytes from pos on, the first byte highest. */
  function BeValue(s: seq<byte>, pos: nat, n: nat): (v: nat)
    requires pos + n <= |s|
  {
    if n == 0 then 0 else 256 * BeValue(s, pos, n - 1) + s[pos + n - 1]
  }

  /** The bytes of a number without leading zeros; none for zero. */
  function BeBytes(v: nat): (s: seq<byte>)
    ensures v > 0 ==> |s| > 0 && s[0] != 0
  {
    if v == 0 then [] else BeBytes(v / 256) + [v % 256]
  }

  lemma {:induction false} BytesAtJoin(s: seq<byte>, pos: nat, t: seq<byte>, u: seq<byte>)
    requires BytesAt(s, pos, t) && BytesAt(s, pos + |t|, u)
    ensures BytesAt(s, pos, t + u)
  {
    forall i | 0 <= i < |t + u|
      ensures s[pos + i] == (t + u)[i]
    {
      if i >= |t| { assert s[pos + |t| + (i - |t|)] == u[i - |t|]; }
    }
  }

  lemma {:induction false} BeBack(s: seq<byte>, pos: nat, v: nat)
    requires BytesAt(s, pos, BeBytes(v))
    ensures BeValue(s, pos, |BeBytes(v)|) == v
  {
    hide BytesAt;
    if v > 0 {
      var t := BeBytes(v / 256);
      BytesAtSplit(s, pos, t, [v % 256]);
      BeBack(s, pos, v / 256);
      assert s[pos + |t| + 0] == v % 256 by { LastByte(s, pos + |t|, v % 256); }
    }
  }

  /** Bytes without a leading zero are the bytes of their number. */
  lemma {:induction false} BeCanonical(s: seq<byte>, pos: nat, n: nat)
    requires pos + n <= |s| && n > 0 && s[pos] != 0
    ensures BeValue(s, pos, n) > 0 && |BeBytes(BeValue(s, pos, n))| == n && BytesAt(s, pos, BeBytes(BeValue(s, pos, n)))
  {
    hide BytesAt;
    var v, b := BeValue(s, pos, n), s[pos + n - 1];
    assert v / 256 == BeValue(s, pos, n - 1) && v % 256 == b;
    assert BytesAt(s, pos + n - 1, [b]) by { OneByte(s, pos + n - 1); }
    if n > 1 {
      BeCanonical(s, pos, n - 1);
      BytesAtJoin(s, pos, BeBytes(v / 256), [b]);
    } else {
      assert BeValue(s, pos, 0) == 0;
      assert BeBytes(0) == [];
      assert [] + [b] == [b];
    }
  }

  lemma {:induction false} OneByte(s: seq<byte>, pos: nat)
    requires pos < |s|
    ensures BytesAt(s, pos, [s[pos]])
  {
  }

  lemma {:induction false} BeBound(s: seq<byte>, pos: nat, n: nat)
    requires pos + n <= |s|
    ensures BeValue(s, pos, n) < Pow256(n)
  {
    if n > 0 { BeBound(s, pos, n - 1); }
  }

  function Pow256(n: nat): (r: nat)
    ensures r >= 1
  {
    if n == 0 then 1 else 256 * Pow256(n - 1)
  }

  lemma {:induction false} BeLength(v: nat, n: nat)
    ensures |BeBytes(v)| <= n <==> v < Pow256(n)
  {
    if v > 0 && n > 0 { BeLength(v / 256, n - 1); }
  }

  lemma {:induction false} LimitPower()
    ensures Pow256(4) == LIMIT
  {
    assert Pow256(2) == 65536;
  }

  // ---------- Lengths ----------

  /** The length at pos and the number of bytes it takes. */
  function LengthAt(s: seq<byte>, pos: nat): (r: Parsed<(nat, nat)>)
    ensures r.Good? ==> r.value.1 >= 1 && pos + r.value.1 <= |s|
  {
    if pos >= |s| then Bad(UnexpectedEnd)
    else if s[pos] < 0x80 then Good((s[pos], 1))
    else
      var n := s[pos] - 0x80;
      if n == 0 || n > 4 then Bad(InvalidLength)
      else if |s| - pos < 1 + n then Bad(UnexpectedEnd)
      else
        var v := BeValue(s, pos + 1, n);
        if (n == 1 && v < 128) || (n > 1 && s[pos + 1] == 0) then Bad(InvalidLength) else Good((v, 1 + n))
  }

  method ParseLength(buf: seq<byte>) returns (r: Parsed<(nat, nat)>)
    ensures r == LengthAt(buf, 0)
  {
    if |buf| == 0 { return Bad(UnexpectedEnd); }
    var first := buf[0];
    if first < 0x80 { return Good((first, 1)); }
    var n := first - 0x80;
    if n == 0 || n > 4 { return Bad(InvalidLength); }
    if |buf| < 1 + n { return Bad(UnexpectedEnd); }
    var length: nat := 0;
    for i := 0 to n
      invariant length == BeValue(buf, 1, i)
    {
      ShiftIn(length, buf[1 + i]);
      length := BitOr(Shl(length, 8), buf[1 + i]);
    }
    if (n == 1 && length < 128) || (n > 1 && buf[1] == 0) { return Bad(InvalidLength); }
    r := Good((length, 1 + n));
  }

  lemma {:induction false} ShiftIn(v: nat, b: byte)
    ensures BitOr(Shl(v, 8), b) == 256 * v + b
  {
    hide BitOr, Shl;
    ByteBound(b);
    OrComm(Shl(v, 8), b);
    OrIsAdd(b, v, 8);
    ShlByte(v);
  }

  /** The shortest encoding of a length; the count of its bytes is a byte. */
  function EncLen(n: nat): (s: seq<byte>)
    ensures |s| >= 1
  {
    if n < 0x80 then [n] else [(0x80 + |BeBytes(n)|) % 256] + BeBytes(n)
  }

  /** Lengths fit a machine word of eight bytes. */
  const WORD: nat := 0x1_0000_0000_0000_0000

  lemma {:induction false} WordFits(n: nat)
    requires n < WORD
    ensures |BeBytes(n)| <= 8
  {
    hide BeBytes;
    assert Pow256(4) == 0x1_0000_0000 by { LimitPower(); }
    assert Pow256(8) == WORD;
    BeLength(n, 8);
  }

  method EncodeLength(len: nat) returns (out: seq<byte>)
    requires len < WORD
    ensures out == EncLen(len)
  {
    WordFits(len);
    if len < 0x80 { return [len]; }
    var be: seq<byte> := [];
    var n := len;
    while n > 0
      invariant n >= 0 && BeBytes(n) + be == BeBytes(len)
    {
      assert (BeBytes(n / 256) + [n % 256]) + be == BeBytes(n / 256) + ([n % 256] + be);
      be := [n % 256] + be;
      n := n / 256;
    }
    assert [] + be == be;
    out := [0x80 + |be|] + be;
  }

  /** An encoded length is read back exactly when it is below 2^32. */
  lemma {:induction false} LengthBack(s: seq<byte>, pos: nat, n: nat)
    requires n < WORD && BytesAt(s, pos, EncLen(n))
    ensures LengthAt(s, pos) == Good((n, |EncLen(n)|)) <==> n < LIMIT
  {
    hide BytesAt, BeBytes, BeValue;
    var be := BeBytes(n);
    LimitPower();
    WordFits(n);
    BeLength(n, 4);
    if n < 0x80 {
      LastByte(s, pos, n);
    } else {
      BytesAtTail(s, pos, 0x80 + |be|, be);
      BeBack(s, pos + 1, n);
      BytesAtFits(s, pos + 1, be);
      NoLeadingZero(s, pos + 1, n);
    }
  }

  lemma {:induction false} BytesAtFits(s: seq<byte>, pos: nat, t: seq<byte>)
    requires BytesAt(s, pos, t)
    ensures pos + |t| <= |s|
  {
  }

  lemma {:induction false} NoLeadingZero(s: seq<byte>, pos: nat, v: nat)
    requires v > 0 && BytesAt(s, pos, BeBytes(v))
    ensures |BeBytes(v)| > 0 && pos < |s| && s[pos] != 0
  {
    assert s[pos + 0] == BeBytes(v)[0];
  }

  /** A length that is read is below 2^32, and it stands there in its one encoding. */
  lemma {:induction false} LengthCanonical(s: seq<byte>, pos: nat)
    requires LengthAt(s, pos).Good?
    ensures var (n, k) := LengthAt(s, pos).value;
            n < LIMIT && |EncLen(n)| == k && BytesAt(s, pos, EncLen(n))
  {
    hide BytesAt, BeBytes, BeValue;
    var (n, k) := LengthAt(s, pos).value;
    LimitPower();
    BeLength(n, 4);
    assert BytesAt(s, pos, [s[pos]]) by { OneByte(s, pos); }
    if s[pos] >= 0x80 {
      var m := s[pos] - 0x80;
      BeBound(s, pos + 1, m);
      PowMono(m, 4);
      SingleByte(s, pos + 1);
      BeCanonical(s, pos + 1, m);
      LongForm(s, pos + 1, m);
      BytesAtJoin(s, pos, [s[pos]], BeBytes(n));
    }
  }

  lemma {:induction false} PowMono(m: nat, n: nat)
    requires m <= n
    ensures Pow256(m) <= Pow256(n)
  {
    if m < n { PowMono(m, n - 1); }
  }

  lemma {:induction false} SingleByte(s: seq<byte>, pos: nat)
    requires pos < |s|
    ensures BeValue(s, pos, 1) == s[pos]
  {
    assert BeValue(s, pos, 0) == 0;
  }

  lemma {:induction false} LongForm(s: seq<byte>, pos: nat, m: nat)
    requires m >= 1 && pos + m <= |s| && s[pos] != 0
    ensures m > 1 ==> BeValue(s, pos, m) >= 256
  {
    if m > 1 { BeCanonical(s, pos, m - 1); }
  }
}
