/** The length, distance and code-length tables of DEFLATE (sections 3.2.5 to 3.2.7 of RFC 1951). */
module DeflateTables {
  import opened Bits
  import opened Huffman

  function LengthBase(c: nat): (b: nat)
    requires c < 29
  {
    match c
    case 0 => 3 case 1 => 4 case 2 => 5 case 3 => 6 case 4 => 7 case 5 => 8 case 6 => 9 case 7 => 10
    case 8 => 11 case 9 => 13 case 10 => 15 case 11 => 17 case 12 => 19 case 13 => 23 case 14 => 27 case 15 => 31
    case 16 => 35 case 17 => 43 case 18 => 51 case 19 => 59 case 20 => 67 case 21 => 83 case 22 => 99 case 23 => 115
    case 24 => 131 case 25 => 163 case 26 => 195 case 27 => 227 case _ => 258
  }

  function LengthExtra(c: nat): (b: nat)
    requires c < 29
    ensures b <= 5
  {
    if c < 8 || c == 28 then 0
    else if c < 12 then 1
    else if c < 16 then 2
    else if c < 20 then 3
    else if c < 24 then 4
    else 5
  }

  function DistBase(c: nat): (b: nat)
    requires c < 30
  {
    match c
    case 0 => 1 case 1 => 2 case 2 => 3 case 3 => 4 case 4 => 5 case 5 => 7 case 6 => 9 case 7 => 13
    case 8 => 17 case 9 => 25 case 10 => 33 case 11 => 49 case 12 => 65 case 13 => 97 case 14 => 129 case 15 => 193
    case 16 => 257 case 17 => 385 case 18 => 513 case 19 => 769 case 20 => 1025 case 21 => 1537
    case 22 => 2049 case 23 => 3073 case 24 => 4097 case 25 => 6145 case 26 => 8193 case 27 => 12289
    case 28 => 16385 case _ => 24577
  }

  function DistExtra(c: nat): (b: nat)
    requires c < 30
    ensures b <= 13
  {
    if c < 4 then 0 else c / 2 - 1
  }

  /** The order in which code length code lengths are sent. */
  function ClOrder(i: nat): (s: nat)
    requires i < 19
    ensures s < 19
  {
    match i
    case 0 => 16 case 1 => 17 case 2 => 18 case 3 => 0 case 4 => 8 case 5 => 7 case 6 => 9 case 7 => 6
    case 8 => 10 case 9 => 5 case 10 => 11 case 11 => 4 case 12 => 12 case 13 => 3 case 14 => 13 case 15 => 2
    case 16 => 14 case 17 => 1 case _ => 15
  }

  /** The place of a code length symbol in that order. */
  function ClRank(s: nat): (i: nat)
    requires s < 19
    ensures i < 19
  {
    match s
    case 0 => 3 case 1 => 17 case 2 => 15 case 3 => 13 case 4 => 11 case 5 => 9 case 6 => 7 case 7 => 5
    case 8 => 4 case 9 => 6 case 10 => 8 case 11 => 10 case 12 => 12 case 13 => 14 case 14 => 16 case 15 => 18
    case 16 => 0 case 17 => 1 case _ => 2
  }

  /** The order is a permutation of the nineteen symbols. */
  lemma {:induction false} ClOrderPermutes(s: nat, i: nat)
    requires s < 19 && i < 19
    ensures ClOrder(ClRank(s)) == s && ClRank(ClOrder(i)) == i
  {
  }

  // ---------- Codes for lengths and distances ----------

  /** The last code up to c whose base does not exceed len. */
  function LengthCodeTo(len: nat, c: nat): (r: nat)
    requires c < 29
    ensures r <= c
  {
    if c == 0 || LengthBase(c) <= len then c else LengthCodeTo(len, c - 1)
  }

  lemma {:induction false} LengthFound(len: nat, c: nat)
    requires c < 29
    ensures var r := LengthCodeTo(len, c); (r > 0 ==> LengthBase(r) <= len) && (r < c ==> len < LengthBase(r + 1))
  {
    hide LengthBase;
    if c > 0 && LengthBase(c) > len { LengthFound(len, c - 1); }
  }

  function LengthCode(len: nat): (r: nat)
    ensures r < 29
  {
    LengthCodeTo(len, 28)
  }

  function DistCodeTo(dist: nat, c: nat): (r: nat)
    requires c < 30
    ensures r <= c
  {
    if c == 0 || DistBase(c) <= dist then c else DistCodeTo(dist, c - 1)
  }

  lemma {:induction false} DistFound(dist: nat, c: nat)
    requires c < 30
    ensures var r := DistCodeTo(dist, c); (r > 0 ==> DistBase(r) <= dist) && (r < c ==> dist < DistBase(r + 1))
  {
    hide DistBase;
    if c > 0 && DistBase(c) > dist { DistFound(dist, c - 1); }
  }

  function DistCode(dist: nat): (r: nat)
    ensures r < 30
  {
    DistCodeTo(dist, 29)
  }

  lemma {:induction false} Pow2Values()
    ensures Pow2(0) == 1 && Pow2(1) == 2 && Pow2(2) == 4 && Pow2(3) == 8 && Pow2(4) == 16 && Pow2(5) == 32
    ensures Pow2(6) == 64 && Pow2(7) == 128 && Pow2(8) == 256 && Pow2(9) == 512 && Pow2(10) == 1024
    ensures Pow2(11) == 2048 && Pow2(12) == 4096 && Pow2(13) == 8192 && Pow2(14) == 16384 && Pow2(15) == 32768
  {
    assert Pow2(4) == 16;
    assert Pow2(8) == 256;
    assert Pow2(12) == 4096;
  }

  /** A length is its code's base plus an offset that fits the code's extra bits. */
  lemma {:induction false} LengthFits(len: nat)
    requires 3 <= len <= 258
    ensures LengthBase(LengthCode(len)) <= len
    ensures len - LengthBase(LengthCode(len)) < Pow2(LengthExtra(LengthCode(len)))
  {
    hide LengthBase, LengthCodeTo;
    LengthFound(len, 28);
    LengthEnds();
    if LengthCode(len) < 28 { LengthWidth(LengthCode(len)); }
  }

  /** Each length code's range reaches the next code's base. */
  lemma {:induction false} LengthWidth(c: nat)
    requires c < 28
    ensures LengthBase(c) < LengthBase(c + 1) <= LengthBase(c) + Pow2(LengthExtra(c))
  {
    Pow2Values();
  }

  lemma {:induction false} LengthEnds()
    ensures LengthBase(0) == 3 && LengthBase(28) == 258 && Pow2(LengthExtra(28)) == 1
  {
  }

  /** A distance likewise. */
  lemma {:induction false} DistFits(dist: nat)
    requires 1 <= dist <= 32768
    ensures DistBase(DistCode(dist)) <= dist
    ensures dist - DistBase(DistCode(dist)) < Pow2(DistExtra(DistCode(dist)))
  {
    hide DistBase, DistCodeTo, DistExtra;
    DistFound(dist, 29);
    DistEnds();
    if DistCode(dist) < 29 { DistWidth(DistCode(dist)); }
  }

  /** Each distance code's range reaches the next code's base. */
  lemma {:induction false} DistWidth(c: nat)
    requires c < 29
    ensures DistBase(c) < DistBase(c + 1) == DistBase(c) + Pow2(DistExtra(c))
  {
    Pow2Values();
  }

  lemma {:induction false} DistEnds()
    ensures DistBase(0) == 1 && DistBase(29) == 24577 && Pow2(DistExtra(29)) == 8192
  {
    Pow2Values();
  }

  method EncLengthCode(len: nat) returns (c: nat)
    ensures c == LengthCode(len)
  {
    hide LengthBase;
    c := 0;
    var i := 0;
    while i < 29
      invariant 0 <= i <= 29 && c < 29
      invariant c == if i == 0 then 0 else LengthCodeTo(len, i - 1)
    {
      LengthOrder(len, i);
      if LengthBase(i) <= len {
        c := i;
      } else {
        return;
      }
      i := i + 1;
    }
  }

  /** Once a base exceeds len, all later ones do. */
  lemma {:induction false} LengthOrder(len: nat, i: nat)
    requires i < 29
    ensures LengthBase(i) > len ==> LengthCode(len) == if i == 0 then 0 else LengthCodeTo(len, i - 1)
  {
    hide LengthBase, LengthCodeTo;
    if LengthBase(i) > len { LengthSkip(len, i, 28); }
  }

  lemma {:induction false} LengthSkip(len: nat, i: nat, c: nat)
    requires i <= c < 29 && LengthBase(i) > len
    ensures LengthBase(c) > len
    ensures LengthCodeTo(len, c) == if i == 0 then 0 else LengthCodeTo(len, i - 1)
  {
    hide LengthBase;
    if i < c {
      LengthSkip(len, i, c - 1);
      LengthWidth(c - 1);
    }
  }

  method EncDistanceCode(dist: nat) returns (c: nat)
    ensures c == DistCode(dist)
  {
    hide DistBase;
    c := 0;
    var i := 0;
    while i < 30
      invariant 0 <= i <= 30 && c < 30
      invariant c == if i == 0 then 0 else DistCodeTo(dist, i - 1)
    {
      DistOrder(dist, i);
      if DistBase(i) <= dist {
        c := i;
      } else {
        return;
      }
      i := i + 1;
    }
  }

  lemma {:induction false} DistOrder(dist: nat, i: nat)
    requires i < 30
    ensures DistBase(i) > dist ==> DistCode(dist) == if i == 0 then 0 else DistCodeTo(dist, i - 1)
  {
    hide DistBase, DistCodeTo;
    if DistBase(i) > dist { DistSkip(dist, i, 29); }
  }

  lemma {:induction false} DistSkip(dist: nat, i: nat, c: nat)
    requires i <= c < 30 && DistBase(i) > dist
    ensures DistBase(c) > dist
    ensures DistCodeTo(dist, c) == if i == 0 then 0 else DistCodeTo(dist, i - 1)
  {
    hide DistBase;
    if i < c {
      DistSkip(dist, i, c - 1);
      DistWidth(c - 1);
    }
  }
}
