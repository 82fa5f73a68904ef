/** Integers with a prefix (section 5.1 of RFC 7541). */
module HpackInteger {
  import opened Bits

  datatype HpackError =
    | IntegerOutOfInput
    | IntegerTruncated
    | IntegerOverflow
    | IntegerTooLarge
    | StringOutOfInput
    | StringTooLong
    | InvalidHuffmanPath
    | HuffmanEos
    | HuffmanPaddingNotOnes
    | HuffmanPaddingTooLong
    | IndexZero
    | IndexOutOfRange

  datatype Outcome<+T> = Done(value: T) | Fail(error: HpackError) {
    predicate IsFailure() { Fail? }
    function PropagateFailure<U>(): Outcome<U>
      requires Fail?
    {
      Fail(error)
    }
    function Extract(): T
      requires Done?
    {
      value
    }
  }

  const WORD: nat := 0x1_0000_0000_0000_0000

  // ---------- Decoding ----------

  /** The continuation bytes from pos on; m is the weight of the next seven bits and value the sum so far. The shift
      drops bits beyond the word, the sum is checked. */
  function Continue(s: seq<byte>, pos: nat, m: nat, value: nat): (r: Outcome<(nat, nat)>)
    ensures r.Done? ==> pos < r.value.1 <= |s|
    decreases |s| - pos, s
  {
    if pos >= |s| then Fail(IntegerTruncated)
    else if m >= 64 then Fail(IntegerOverflow)
    else
      var v := value + Shl(s[pos] % 128, m) % WORD;
      if v >= WORD then Fail(IntegerOverflow)
      else if m + 7 > 64 then Fail(IntegerTooLarge)
      else if s[pos] < 128 then Done((v, pos + 1))
      else Continue(s, pos + 1, m + 7, v)
  }

  /** The integer at pos and the position after it. */
  function IntegerAt(s: seq<byte>, pos: nat, bits: nat): (r: Outcome<(nat, nat)>)
    ensures r.Done? ==> pos < r.value.1 <= |s|
  {
    if pos >= |s| then Fail(IntegerOutOfInput)
    else
      var max := Pow2(bits) - 1;
      var v := Low(s[pos], bits);
      if v < max then Done((v, pos + 1)) else Continue(s, pos + 1, 0, v)
  }

  method DecodeInteger(s: seq<byte>, pos0: nat, bits: nat) returns (r: Outcome<(nat, nat)>)
    ensures r == IntegerAt(s, pos0, bits)
  {
    hide Shl, Pow2, Low;
    var pos := pos0;
    if pos >= |s| { return Fail(IntegerOutOfInput); }
    var max := Pow2(bits) - 1;
    var value: nat := Low(s[pos], bits);
    pos := pos + 1;
    if value < max { return Done((value, pos)); }
    var m: nat := 0;
    while true
      invariant pos0 < pos <= |s| || pos == pos0 + 1
      invariant IntegerAt(s, pos0, bits) == Continue(s, pos, m, value)
      decreases |s| - pos
    {
      if pos >= |s| { return Fail(IntegerTruncated); }
      var b := s[pos];
      pos := pos + 1;
      if m >= 64 { return Fail(IntegerOverflow); }
      var add := Shl(b % 128, m) % WORD;
      value := value + add;
      if value >= WORD { return Fail(IntegerOverflow); }
      m := m + 7;
      if m > 64 { return Fail(IntegerTooLarge); }
      if b < 128 { return Done((value, pos)); }
    }
  }

  // ---------- What is accepted ----------

  /** The number in the n groups of seven bits from pos on, lowest first. */
  function Groups(s: seq<byte>, pos: nat, n: nat): (v: nat)
    requires pos + n <= |s|
    decreases n, s
  {
    if n == 0 then 0 else s[pos] % 128 + 128 * Groups(s, pos + 1, n - 1)
  }

  /** n groups, all but the last one marked as continued. */
  ghost predicate GroupsAt(s: seq<byte>, pos: nat, n: nat)
  {
    1 <= n && pos + n <= |s| && s[pos + n - 1] < 128 && forall i :: pos <= i < pos + n - 1 ==> s[i] >= 128
  }

  lemma {:induction false} Times128(k: nat)
    ensures Pow2(k + 7) == 128 * Pow2(k)
  {
    assert Pow2(k + 1) == 2 * Pow2(k);
    assert Pow2(k + 2) == 4 * Pow2(k);
    assert Pow2(k + 3) == 8 * Pow2(k);
    assert Pow2(k + 4) == 16 * Pow2(k);
    assert Pow2(k + 5) == 32 * Pow2(k);
    assert Pow2(k + 6) == 64 * Pow2(k);
  }

  lemma {:induction false} ShlGroup(a: nat, g: nat, m: nat)
    ensures Shl(a + 128 * g, m) == Shl(a, m) + Shl(g, m + 7)
  {
    hide Shl;
    ShlAdd(a, 128 * g, m);
    ShlShl(g, 7, m);
    Shl128(g);
  }

  lemma {:induction false} Shl128(g: nat)
    ensures Shl(g, 7) == 128 * g
  {
    assert Shl(g, 1) == 2 * g;
    assert Shl(g, 2) == 4 * g;
    assert Shl(g, 3) == 8 * g;
    assert Shl(g, 4) == 16 * g;
    assert Shl(g, 5) == 32 * g;
    assert Shl(g, 6) == 64 * g;
  }

  lemma {:induction false} WordPower()
    ensures Pow2(63) == 0x8000_0000_0000_0000 && Pow2(64) == WORD
  {
    assert Pow2(7) == 128;
    Times128(7);
    Times128(14);
    Times128(21);
    Times128(28);
    Times128(35);
    Times128(42);
    Times128(49);
    Times128(56);
  }

  /** A group at weight m <= 56 keeps all its bits, and the sum stays within the word. */
  lemma {:induction false} NothingLost(a: nat, m: nat, value: nat, low: nat)
    requires a < 128 && m <= 56 && value < Pow2(m) + low && low <= 256
    ensures Shl(a, m) % WORD == Shl(a, m) && value + Shl(a, m) < Pow2(m + 7) + low && value + Shl(a, m) < WORD
  {
    hide Pow2, Shl;
    Pow2Is128();
    ShlBound(a, 7, m);
    Pow2Mono(m + 7, 63);
    WordPower();
  }

  lemma {:induction false} Pow2Is128()
    ensures Pow2(7) == 128
  {
    assert Pow2(3) == 8;
  }

  /** Continuation bytes are accepted exactly when they end within the nine groups that fit, and then nothing is
      lost. */
  lemma {:induction false} ContinueExact(s: seq<byte>, pos: nat, m: nat, value: nat, low: nat, left: nat)
    requires m + 7 * left == 63 && pos <= |s| && value < Pow2(m) + low && low <= 256
    ensures var r := Continue(s, pos, m, value);
            && (r.Done? ==>
                  var n := r.value.1 - pos;
                  n <= left && GroupsAt(s, pos, n) && r.value.0 == value + Shl(Groups(s, pos, n), m))
            && (forall n: nat :: n <= left && GroupsAt(s, pos, n) ==> r.Done? && r.value.1 == pos + n)
    decreases left
  {
    hide Pow2, Shl;
    var r := Continue(s, pos, m, value);
    if left == 0 || pos == |s| {
    } else {
      var a := s[pos] % 128;
      NothingLost(a, m, value, low);
      var v := value + Shl(a, m);
      if s[pos] < 128 {
        GroupsOne(s, pos);
        assert GroupsAt(s, pos, 1);
      } else {
        ContinueExact(s, pos + 1, m + 7, v, low, left - 1);
        var r' := Continue(s, pos + 1, m + 7, v);
        assert r == r';
        if r.Done? {
          var n := r.value.1 - pos;
          ShlGroup(a, Groups(s, pos + 1, n - 1), m);
        }
        forall n: nat | n <= left && GroupsAt(s, pos, n)
          ensures r.Done? && r.value.1 == pos + n
        {
          assert GroupsAt(s, pos + 1, n - 1);
        }
      }
    }
  }

  lemma {:induction false} GroupsOne(s: seq<byte>, pos: nat)
    requires pos < |s|
    ensures Groups(s, pos, 1) == s[pos] % 128
  {
    assert Groups(s, pos + 1, 0) == 0;
  }

  /** An integer that is accepted is exact: either it is in the prefix, or it is the full prefix plus the number in one
      to nine groups. All such integers are accepted. */
  lemma {:induction false} IntegerExact(s: seq<byte>, pos: nat, bits: nat, v: nat, end: nat)
    requires pos < |s| && bits <= 8
    ensures IntegerAt(s, pos, bits) == Done((v, end)) <==>
            var max := Pow2(bits) - 1;
            if Low(s[pos], bits) < max then v == Low(s[pos], bits) && end == pos + 1
            else
              && pos + 1 < end <= pos + 10 && GroupsAt(s, pos + 1, end - pos - 1)
              && v == max + Groups(s, pos + 1, end - pos - 1)
  {
    hide Pow2, Shl, Groups, Continue, Low;
    LowBound(s[pos], bits);
    Pow2Mono(bits, 8);
    Pow2Is256();
    var max := Pow2(bits) - 1;
    if Low(s[pos], bits) >= max {
      One();
      ContinueExact(s, pos + 1, 0, max, max, 9);
      var r := Continue(s, pos + 1, 0, max);
      if r.Done? { ShlNone(Groups(s, pos + 1, r.value.1 - pos - 1)); }
    }
  }

  lemma {:induction false} LowBound(v: nat, n: nat)
    ensures Low(v, n) < Pow2(n)
  {
    if n > 0 { LowBound(v / 2, n - 1); }
  }

  lemma {:induction false} Pow2Is256()
    ensures Pow2(8) == 256
  {
    assert Pow2(4) == 16;
  }

  lemma {:induction false} One()
    ensures Pow2(0) == 1
  {
  }

  lemma {:induction false} ShlNone(g: nat)
    ensures Shl(g, 0) == g
  {
  }

  // ---------- What is refused ----------

  /** n bytes from pos on that all ask for more. */
  ghost predicate AllContinue(s: seq<byte>, pos: nat, n: nat)
  {
    pos + n <= |s| && forall i :: pos <= i < pos + n ==> s[i] >= 128
  }

  lemma {:induction false} ContinueRefused(s: seq<byte>, pos: nat, m: nat, value: nat, low: nat, left: nat)
    requires m + 7 * left == 63 && pos <= |s| && value < Pow2(m) + low && low <= 256
    ensures forall n: nat :: n <= left && pos + n == |s| && AllContinue(s, pos, n) ==>
              Continue(s, pos, m, value) == Fail(IntegerTruncated)
    ensures AllContinue(s, pos, left) && pos + left < |s| ==>
              Continue(s, pos, m, value) == Fail(IntegerOverflow) || Continue(s, pos, m, value) == Fail(IntegerTooLarge)
    decreases left
  {
    hide Pow2, Shl;
    if left > 0 && pos < |s| && s[pos] >= 128 {
      var a := s[pos] % 128;
      NothingLost(a, m, value, low);
      ContinueRefused(s, pos + 1, m + 7, value + Shl(a, m), low, left - 1);
      forall n: nat | n <= left && pos + n == |s| && AllContinue(s, pos, n)
        ensures Continue(s, pos, m, value) == Fail(IntegerTruncated)
      {
        assert AllContinue(s, pos + 1, n - 1);
      }
    }
  }

  /** Under a full prefix, input that ends while all of up to nine bytes ask for more is cut short; a tenth byte is too
      much. */
  lemma {:induction false} IntegerRefused(s: seq<byte>, pos: nat, bits: nat, n: nat)
    requires pos < |s| && bits <= 8 && n <= 9 && Low(s[pos], bits) == Pow2(bits) - 1 && AllContinue(s, pos + 1, n)
    ensures pos + 1 + n == |s| ==> IntegerAt(s, pos, bits) == Fail(IntegerTruncated)
    ensures n == 9 && pos + 10 < |s| ==>
              IntegerAt(s, pos, bits) == Fail(IntegerOverflow) || IntegerAt(s, pos, bits) == Fail(IntegerTooLarge)
  {
    hide Pow2, Shl, Continue, Low;
    Pow2Mono(bits, 8);
    Pow2Is256();
    One();
    var max := Pow2(bits) - 1;
    ContinueRefused(s, pos + 1, 0, max, max, 9);
  }

  // ---------- Encoding ----------

  /** v in groups of seven bits, lowest first. */
  function EncGroups(v: nat): (g: seq<byte>)
    ensures |g| >= 1
  {
    if v < 128 then [v] else [v % 128 + 128] + EncGroups(v / 128)
  }

  /** The first byte: the prefix with the integer in its low bits. */
  function FirstByte(prefix: byte, v: nat): (b: byte)
    requires v < 256
    ensures v < 128 && prefix < 128 ==> b < 128
  {
    FirstByteBound(prefix, v);
    BitOr(prefix, v)
  }

  lemma {:induction false} FirstByteBound(prefix: byte, v: nat)
    requires v < 256
    ensures BitOr(prefix, v) < 256 && (v < 128 && prefix < 128 ==> BitOr(prefix, v) < 128)
  {
    hide BitOr, Pow2;
    Pow2Is256();
    Pow2Is128();
    OrBound(prefix, v, 8);
    if v < 128 && prefix < 128 { OrBound(prefix, v, 7); }
  }

  function EncInteger(v: nat, bits: nat, prefix: byte): (s: seq<byte>)
    requires bits <= 8
    ensures |s| >= 1
  {
    MaxBound(bits);
    var max := Pow2(bits) - 1;
    if v < max then [FirstByte(prefix, v)] else [FirstByte(prefix, max)] + EncGroups(v - max)
  }

  lemma {:induction false} MaxBound(bits: nat)
    requires bits <= 8
    ensures Pow2(bits) <= 256
  {
    Pow2Mono(bits, 8);
    Pow2Is256();
  }

  method EncodeInteger(out0: seq<byte>, v0: nat, bits: nat, prefix: byte) returns (out: seq<byte>)
    requires bits <= 8
    ensures out == out0 + EncInteger(v0, bits, prefix)
  {
    hide Pow2, FirstByte;
    MaxBound(bits);
    out := out0;
    var max := Pow2(bits) - 1;
    if v0 < max {
      out := out + [FirstByte(prefix, v0)];
    } else {
      var first := FirstByte(prefix, max);
      out := out + [first];
      var v := v0 - max;
      ghost var all := out + EncGroups(v);
      while v >= 128
        invariant v >= 0 && out + EncGroups(v) == all
      {
        assert (out + [v % 128 + 128]) + EncGroups(v / 128) == out + ([v % 128 + 128] + EncGroups(v / 128));
        out := out + [v % 128 + 128];
        v := v / 128;
      }
      out := out + [v];
      assert all == out0 + ([first] + EncGroups(v0 - max));
    }
  }

  lemma {:induction false} EncGroupsBack(s: seq<byte>, pos: nat, v: nat)
    requires BytesAt(s, pos, EncGroups(v))
    ensures GroupsAt(s, pos, |EncGroups(v)|) && Groups(s, pos, |EncGroups(v)|) == v
    decreases v
  {
    hide BytesAt;
    if v < 128 {
      assert [v] + [] == [v];
      BytesAtTail(s, pos, v, []);
      GroupsOne(s, pos);
    } else {
      BytesAtTail(s, pos, v % 128 + 128, EncGroups(v / 128));
      EncGroupsBack(s, pos + 1, v / 128);
      MoreGroups(s, pos, |EncGroups(v / 128)|);
    }
  }

  lemma {:induction false} MoreGroups(s: seq<byte>, pos: nat, n: nat)
    requires pos < |s| && s[pos] >= 128 && GroupsAt(s, pos + 1, n)
    ensures GroupsAt(s, pos, n + 1) && Groups(s, pos, n + 1) == s[pos] - 128 + 128 * Groups(s, pos + 1, n)
  {
  }

  lemma {:induction false} EncGroupsLength(v: nat, n: nat)
    requires n >= 1
    ensures |EncGroups(v)| <= n <==> v < Pow2(7 * n)
  {
    if n == 1 {
      Pow2Is128();
    } else {
      Times128(7 * (n - 1));
      Pow2Mono(7, 7 * n);
      Pow2Is128();
      if v >= 128 { EncGroupsLength(v / 128, n - 1); }
    }
  }

  /** A value under a prefix whose low bits are zero is those low bits. */
  lemma {:induction false} LowUnder(prefix: nat, bits: nat, v: nat)
    requires Low(prefix, bits) == 0 && v < Pow2(bits)
    ensures Low(BitOr(prefix, v), bits) == v
  {
    hide BitOr;
    if bits > 0 {
      OrBit(prefix, v);
      LowUnder(prefix / 2, bits - 1, v / 2);
    }
  }

  /** Decoding inverts encoding under a prefix whose low bits are zero, whatever stands around it, exactly for the
      values whose excess over the prefix is below 2^63. */
  lemma {:induction false} IntegerBack(s: seq<byte>, pos: nat, v: nat, bits: nat, prefix: byte)
    requires bits <= 8 && Low(prefix, bits) == 0 && BytesAt(s, pos, EncInteger(v, bits, prefix))
    ensures IntegerAt(s, pos, bits) == Done((v, pos + |EncInteger(v, bits, prefix)|)) <==>
              v - (Pow2(bits) - 1) < Pow2(63)
  {
    hide Pow2, Groups, GroupsAt, IntegerAt, EncGroups, BytesAt, Low;
    MaxBound(bits);
    var max, e := Pow2(bits) - 1, EncInteger(v, bits, prefix);
    var first, rest := FirstByte(prefix, if v < max then v else max), if v < max then [] else EncGroups(v - max);
    assert e == [first] + rest;
    BytesAtTail(s, pos, first, rest);
    IntegerExact(s, pos, bits, v, pos + |e|);
    if v < max {
      LowUnder(prefix, bits, v);
      assert v - max < Pow2(63);
    } else {
      LowUnder(prefix, bits, max);
      EncGroupsBack(s, pos + 1, v - max);
      EncGroupsLength(v - max, 9);
    }
  }
}
