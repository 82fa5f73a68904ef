/** Canonical Huffman codes: the encoder's code assignment, the decoder's
    count/symbol table, and the proof that they agree. */
module Huffman {
  import opened Bits
  import opened BitIO

  /** How many of the first n symbols have code length l. */
  function CountTo(lengths: seq<nat>, n: nat, l: nat): (c: nat)
    requires n <= |lengths|
  {
    if n == 0 then 0 else CountTo(lengths, n - 1, l) + (if lengths[n - 1] == l then 1 else 0)
  }

  function CountOf(lengths: seq<nat>, l: nat): (c: nat)
  {
    CountTo(lengths, |lengths|, l)
  }

  /** Those symbols, in increasing order. */
  function SymbolsTo(lengths: seq<nat>, n: nat, l: nat): (r: seq<nat>)
    requires n <= |lengths|
    ensures |r| == CountTo(lengths, n, l)
  {
    if n == 0 then [] else SymbolsTo(lengths, n - 1, l) + (if lengths[n - 1] == l then [n - 1] else [])
  }

  function SymbolsOf(lengths: seq<nat>, l: nat): (r: seq<nat>)
    ensures |r| == CountOf(lengths, l)
  {
    SymbolsTo(lengths, |lengths|, l)
  }

  /** Every length is at most m. */
  ghost predicate Bounded(lengths: seq<nat>, m: nat)
  {
    forall i :: 0 <= i < |lengths| ==> lengths[i] <= m
  }

  /** The smallest code of length l (section 3.2.2 of RFC 1951). */
  function FirstCode(lengths: seq<nat>, l: nat): (c: nat)
  {
    if l <= 1 then 0 else 2 * (FirstCode(lengths, l - 1) + CountOf(lengths, l - 1))
  }

  /** How many symbols have a code shorter than l. */
  function Offset(lengths: seq<nat>, l: nat): (c: nat)
  {
    if l <= 1 then 0 else Offset(lengths, l - 1) + CountOf(lengths, l - 1)
  }

  /** The code of a symbol: consecutive numbers within one length, in symbol order. */
  function CodeOf(lengths: seq<nat>, s: nat): (c: nat)
    requires s < |lengths|
  {
    FirstCode(lengths, lengths[s]) + CountTo(lengths, s, lengths[s])
  }

  function CodeBits(lengths: seq<nat>, s: nat): (w: seq<bool>)
    requires s < |lengths|
    ensures |w| == lengths[s]
  {
    MsbBits(CodeOf(lengths, s), lengths[s])
  }

  // ---------- Kraft's inequality ----------

  /** The Kraft sum of the first n symbols, in units of 2^-m. */
  function KraftTo(lengths: seq<nat>, n: nat, m: nat): (k: nat)
    requires n <= |lengths|
  {
    if n == 0 then 0
    else KraftTo(lengths, n - 1, m) + (if 0 < lengths[n - 1] <= m then Pow2(m - lengths[n - 1]) else 0)
  }

  function KraftSum(lengths: seq<nat>, m: nat): (k: nat)
  {
    KraftTo(lengths, |lengths|, m)
  }

  /** Lengths that describe a prefix code of at most m bits. */
  ghost predicate PrefixCode(lengths: seq<nat>, m: nat)
  {
    Bounded(lengths, m) && KraftSum(lengths, m) <= Pow2(m)
  }

  /** The part of the Kraft sum that comes from lengths up to l. */
  ghost function LevelSum(lengths: seq<nat>, n: nat, m: nat, l: nat): (k: nat)
    requires l <= m && n <= |lengths|
  {
    if l == 0 then 0 else LevelSum(lengths, n, m, l - 1) + Shl(CountTo(lengths, n, l), m - l)
  }

  lemma {:induction false} LevelSumSnoc(lengths: seq<nat>, n: nat, m: nat, l: nat)
    requires l <= m && 0 < n <= |lengths|
    ensures LevelSum(lengths, n, m, l) == LevelSum(lengths, n - 1, m, l)
              + (if 0 < lengths[n - 1] <= l then Pow2(m - lengths[n - 1]) else 0)
  {
    if l > 0 {
      LevelSumSnoc(lengths, n, m, l - 1);
      ShlAdd(CountTo(lengths, n - 1, l), 1, m - l);
      ShlOne(m - l);
    }
  }

  lemma {:induction false} LevelSumEmpty(lengths: seq<nat>, m: nat, l: nat)
    requires l <= m
    ensures LevelSum(lengths, 0, m, l) == 0
  {
    if l > 0 {
      LevelSumEmpty(lengths, m, l - 1);
      ShlZero(m - l);
    }
  }

  lemma {:induction false} KraftByLevel(lengths: seq<nat>, n: nat, m: nat)
    requires n <= |lengths|
    ensures KraftTo(lengths, n, m) == LevelSum(lengths, n, m, m)
  {
    if n == 0 {
      LevelSumEmpty(lengths, m, m);
    } else {
      KraftByLevel(lengths, n - 1, m);
      LevelSumSnoc(lengths, n, m, m);
    }
  }

  /** The codes up to length l fill LevelSum of the code space. */
  lemma {:induction false} CodesFillSpace(lengths: seq<nat>, m: nat, l: nat)
    requires 1 <= l <= m
    ensures LevelSum(lengths, |lengths|, m, l) == Shl(FirstCode(lengths, l) + CountOf(lengths, l), m - l)
  {
    var c := CountOf(lengths, l);
    if l > 1 {
      CodesFillSpace(lengths, m, l - 1);
      var below := FirstCode(lengths, l - 1) + CountOf(lengths, l - 1);
      ShlDouble(below, m - l);
      ShlAdd(2 * below, c, m - l);
    } else {
      assert LevelSum(lengths, |lengths|, m, 0) == 0;
    }
  }

  lemma {:induction false} LevelSumMono(lengths: seq<nat>, m: nat, l: nat, l': nat)
    requires l <= l' <= m
    ensures LevelSum(lengths, |lengths|, m, l) <= LevelSum(lengths, |lengths|, m, l')
  {
    if l < l' { LevelSumMono(lengths, m, l, l' - 1); }
  }

  lemma {:induction false} CountMono(lengths: seq<nat>, s: nat, n: nat, l: nat)
    requires s < n <= |lengths|
    ensures CountTo(lengths, s, l) + (if lengths[s] == l then 1 else 0) <= CountTo(lengths, n, l)
  {
    if s < n - 1 { CountMono(lengths, s, n - 1, l); }
  }

  /** Kraft's inequality makes every code fit its length. */
  lemma {:induction false} CodeFits(lengths: seq<nat>, m: nat, s: nat)
    requires PrefixCode(lengths, m) && s < |lengths| && lengths[s] > 0
    ensures CodeOf(lengths, s) < Pow2(lengths[s])
  {
    var l := lengths[s];
    KraftByLevel(lengths, |lengths|, m);
    LevelSumMono(lengths, m, l, m);
    CodesFillSpace(lengths, m, l);
    ShlCancel(FirstCode(lengths, l) + CountOf(lengths, l), l, m - l);
    CountMono(lengths, s, |lengths|, l);
  }

  // ---------- Decoding ----------

  /** The decoder's walk: code holds the l-1 bits read so far. */
  function DecodeAt(lengths: seq<nat>, bits: seq<bool>, pos: nat, l: nat, code: nat): (r: Result<(nat, nat)>)
    requires 1 <= l <= 16 && FirstCode(lengths, l) <= 2 * code
    ensures r.Ok? ==> pos < r.value.1 <= |bits|
    decreases 16 - l, bits
  {
    if l == 16 then Err(InvalidHuffmanCode)
    else if pos >= |bits| then Err(UnexpectedEnd)
    else
      var code' := 2 * code + B2N(bits[pos]);
      var first := FirstCode(lengths, l);
      if code' < first + CountOf(lengths, l) then Ok((SymbolsOf(lengths, l)[code' - first], pos + 1))
      else DecodeAt(lengths, bits, pos + 1, l + 1, code')
  }

  /** One symbol decoded at a position: the symbol and the position after it. */
  function Decode(lengths: seq<nat>, bits: seq<bool>, pos: nat): (r: Result<(nat, nat)>)
    ensures r.Ok? ==> pos < r.value.1 <= |bits|
  {
    DecodeAt(lengths, bits, pos, 1, 0)
  }

  /** A number at or above the codes of its own length has every prefix above the codes of that length. */
  lemma {:induction false} PrefixAbove(lengths: seq<nat>, bits: seq<bool>, start: nat, n: nat, l: nat)
    requires 1 <= l < n && start + n <= |bits| && FirstCode(lengths, n) <= MsbField(bits, start, n)
    ensures FirstCode(lengths, l) + CountOf(lengths, l) <= MsbField(bits, start, l)
    decreases n
  {
    if l < n - 1 { PrefixAbove(lengths, bits, start, n - 1, l); }
  }

  lemma {:induction false} SymbolAtRank(lengths: seq<nat>, n: nat, s: nat)
    requires s < n <= |lengths|
    ensures CountTo(lengths, s, lengths[s]) < CountTo(lengths, n, lengths[s])
    ensures SymbolsTo(lengths, n, lengths[s])[CountTo(lengths, s, lengths[s])] == s
  {
    if s < n - 1 { SymbolAtRank(lengths, n - 1, s); }
  }

  /** The last bit of a code is recognised. */
  lemma {:induction false} DecodeLastBit(lengths: seq<nat>, s: nat, bits: seq<bool>, pos: nat, code: nat)
    requires s < |lengths| && 1 <= lengths[s] <= 15 && pos < |bits|
    requires 2 * code + B2N(bits[pos]) == CodeOf(lengths, s) && FirstCode(lengths, lengths[s]) <= 2 * code
    ensures DecodeAt(lengths, bits, pos, lengths[s], code) == Ok((s, pos + 1))
  {
    SymbolAtRank(lengths, |lengths|, s);
  }

  /** A bit that does not finish a code is passed over. */
  lemma {:induction false} DecodeOneBit(lengths: seq<nat>, bits: seq<bool>, pos: nat, l: nat, code: nat)
    requires 1 <= l <= 15 && pos < |bits| && FirstCode(lengths, l) <= 2 * code
    requires FirstCode(lengths, l) + CountOf(lengths, l) <= 2 * code + B2N(bits[pos])
    ensures DecodeAt(lengths, bits, pos, l, code) == DecodeAt(lengths, bits, pos + 1, l + 1, 2 * code + B2N(bits[pos]))
  {
  }

  lemma {:induction false} PrefixAtLeast(lengths: seq<nat>, bits: seq<bool>, start: nat, n: nat, l: nat)
    requires 1 <= l <= n && start + n <= |bits| && FirstCode(lengths, n) <= MsbField(bits, start, n)
    ensures FirstCode(lengths, l) <= 2 * MsbField(bits, start, l - 1)
  {
    if l > 1 { PrefixAbove(lengths, bits, start, n, l - 1); }
  }

  /** From a prefix of the code of s the walk goes on to s. */
  lemma {:induction false} DecodeAlong(lengths: seq<nat>, s: nat, bits: seq<bool>, start: nat, n: nat, l: nat,
      code: nat)
    requires s < |lengths| && 1 <= l <= lengths[s] == n <= 15
    requires start + n <= |bits| && MsbField(bits, start, n) == CodeOf(lengths, s)
    requires code == MsbField(bits, start, l - 1)
    ensures FirstCode(lengths, l) <= 2 * code && DecodeAt(lengths, bits, start + l - 1, l, code) == Ok((s, start + n))
    decreases n - l
  {
    PrefixAtLeast(lengths, bits, start, n, l);
    var pos := start + l - 1;
    var code' := 2 * code + B2N(bits[pos]);
    assert code' == MsbField(bits, start, l);
    if l < n {
      assert FirstCode(lengths, l) + CountOf(lengths, l) <= code' by {
        PrefixAbove(lengths, bits, start, n, l);
      }
      DecodeOneBit(lengths, bits, pos, l, code);
      DecodeAlong(lengths, s, bits, start, n, l + 1, code');
    } else {
      DecodeLastBit(lengths, s, bits, pos, code);
    }
  }

  /** What the encoder writes for s is decoded as s, whatever follows. */
  lemma {:induction false} DecodeWritten(lengths: seq<nat>, m: nat, s: nat, bits: seq<bool>, pos: nat)
    requires PrefixCode(lengths, m) && m <= 15 && s < |lengths| && lengths[s] > 0
    requires At(bits, pos, CodeBits(lengths, s))
    ensures Decode(lengths, bits, pos) == Ok((s, pos + lengths[s]))
  {
    CodeFits(lengths, m, s);
    MsbFieldWritten(bits, pos, CodeOf(lengths, s), lengths[s]);
    DecodeAlong(lengths, s, bits, pos, lengths[s], 1, 0);
  }

  /** The k-th symbol of a length has that length, and rank k. */
  lemma {:induction false} RankOfSymbol(lengths: seq<nat>, n: nat, l: nat, k: nat)
    requires n <= |lengths| && k < CountTo(lengths, n, l)
    ensures var s := SymbolsTo(lengths, n, l)[k];
            s < n && lengths[s] == l && CountTo(lengths, s, l) == k
  {
    if k < CountTo(lengths, n - 1, l) { RankOfSymbol(lengths, n - 1, l, k); }
  }

  /** The symbol reported is one whose code has just been read. */
  ghost predicate ReadCode(lengths: seq<nat>, bits: seq<bool>, start: nat, s: nat, end: nat)
  {
    && s < |lengths| && 0 < lengths[s] <= 15
    && end == start + lengths[s] && At(bits, start, CodeBits(lengths, s))
  }

  lemma {:induction false} CodeWasRead(lengths: seq<nat>, bits: seq<bool>, start: nat, l: nat, code: nat)
    requires 1 <= l <= 15 && start + l <= |bits| && code == MsbField(bits, start, l)
    requires FirstCode(lengths, l) <= code < FirstCode(lengths, l) + CountOf(lengths, l)
    ensures ReadCode(lengths, bits, start, SymbolsOf(lengths, l)[code - FirstCode(lengths, l)], start + l)
  {
    RankOfSymbol(lengths, |lengths|, l, code - FirstCode(lengths, l));
    AtMsbField(bits, start, l);
  }

  /** Any success of the walk, for any lengths at all, has read exactly the code of the symbol it reports. */
  lemma {:induction false} DecodeSoundAt(lengths: seq<nat>, bits: seq<bool>, start: nat, l: nat)
    requires 1 <= l <= 16 && start + l - 1 <= |bits|
    requires FirstCode(lengths, l) <= 2 * MsbField(bits, start, l - 1)
    ensures var r := DecodeAt(lengths, bits, start + l - 1, l, MsbField(bits, start, l - 1));
            r.Ok? ==> ReadCode(lengths, bits, start, r.value.0, r.value.1)
    decreases 16 - l
  {
    var pos := start + l - 1;
    if l < 16 && pos < |bits| {
      var code := MsbField(bits, start, l);
      if code < FirstCode(lengths, l) + CountOf(lengths, l) {
        CodeWasRead(lengths, bits, start, l, code);
      } else {
        DecodeSoundAt(lengths, bits, start, l + 1);
      }
    }
  }

  lemma {:induction false} DecodeSound(lengths: seq<nat>, bits: seq<bool>, pos: nat)
    requires Decode(lengths, bits, pos).Ok?
    ensures ReadCode(lengths, bits, pos, Decode(lengths, bits, pos).value.0, Decode(lengths, bits, pos).value.1)
  {
    if pos < |bits| {
      DecodeSoundAt(lengths, bits, pos, 1);
    }
  }

  lemma {:induction false} DecodeAtFails(lengths: seq<nat>, bits: seq<bool>, pos: nat, l: nat, code: nat)
    requires 1 <= l <= 16 && FirstCode(lengths, l) <= 2 * code && DecodeAt(lengths, bits, pos, l, code).Err?
    ensures DecodeAt(lengths, bits, pos, l, code).error
         == if l < 16 && pos + (16 - l) > |bits| then UnexpectedEnd else InvalidHuffmanCode
    decreases 16 - l
  {
    hide FirstCode, CountOf, SymbolsOf;
    if l < 16 && pos < |bits| {
      var c := 2 * code + B2N(bits[pos]);
      CodesAbove(lengths, l, c);
      DecodeAtFails(lengths, bits, pos + 1, l + 1, c);
    }
  }

  lemma {:induction false} CodesAbove(lengths: seq<nat>, l: nat, c: nat)
    requires l >= 1 && c >= FirstCode(lengths, l) + CountOf(lengths, l)
    ensures FirstCode(lengths, l + 1) <= 2 * c
  {
  }

  /** A prefix code refuses exactly the bits that start with no code; with fewer than fifteen bits left that is taken as
      the end of the input. */
  lemma {:induction false} DecodeRefuses(lengths: seq<nat>, bits: seq<bool>, pos: nat)
    requires PrefixCode(lengths, 15)
    ensures Decode(lengths, bits, pos).Err? <==>
              forall s :: 0 <= s < |lengths| && lengths[s] > 0 ==> !At(bits, pos, CodeBits(lengths, s))
    ensures Decode(lengths, bits, pos).Err? ==>
              Decode(lengths, bits, pos).error == if pos + 15 > |bits| then UnexpectedEnd else InvalidHuffmanCode
  {
    hide DecodeAt, At, CodeBits, PrefixCode;
    if Decode(lengths, bits, pos).Ok? {
      DecodeSound(lengths, bits, pos);
    } else {
      DecodeAtFails(lengths, bits, pos, 1, 0);
      forall s | 0 <= s < |lengths| && lengths[s] > 0
        ensures !At(bits, pos, CodeBits(lengths, s))
      {
        if At(bits, pos, CodeBits(lengths, s)) {
          DecodeWritten(lengths, 15, s, bits, pos);
        }
      }
    }
  }

  // ---------- The decoder's table ----------

  datatype HuffmanTable = HuffmanTable(counts: seq<nat>, symbols: seq<nat>)

  /** Every symbol of code length l below n stands in the stretch of the table that starts at
      Offset(l), at its rank. */
  ghost predicate Stretch(symbols: seq<nat>, lengths: seq<nat>, n: nat, l: nat)
    requires n <= |lengths|
  {
    && Offset(lengths, l) + CountTo(lengths, n, l) <= |symbols|
    && forall s :: 0 <= s < n && lengths[s] == l ==> InPlace(symbols, lengths, s)
  }

  ghost predicate InPlace(symbols: seq<nat>, lengths: seq<nat>, s: nat)
    requires s < |lengths|
  {
    var i := Offset(lengths, lengths[s]) + CountTo(lengths, s, lengths[s]);
    i < |symbols| && symbols[i] == s
  }

  ghost predicate IsTableOf(t: HuffmanTable, lengths: seq<nat>)
  {
    && |t.counts| == 16
    && (forall l :: 1 <= l < 16 ==> t.counts[l] == CountOf(lengths, l))
    && (forall l :: 1 <= l < 16 ==> Stretch(t.symbols, lengths, |lengths|, l))
  }

  lemma {:induction false} OffsetMono(lengths: seq<nat>, l: nat, l': nat)
    requires 1 <= l < l'
    ensures Offset(lengths, l) + CountOf(lengths, l) <= Offset(lengths, l')
  {
    if l + 1 < l' { OffsetMono(lengths, l, l' - 1); }
  }

  method CountLengths(lengths: seq<nat>) returns (r: Result<seq<nat>>)
    ensures r.Ok? <==> Bounded(lengths, 15)
    ensures r.Err? ==> r.error == InvalidHuffmanCode
    ensures r.Ok? ==> |r.value| == 16 && r.value[0] == 0
    ensures r.Ok? ==> forall l :: 1 <= l < 16 ==> r.value[l] == CountOf(lengths, l)
  {
    var counts := seq(16, _ => 0);
    for i := 0 to |lengths|
      invariant forall k :: 0 <= k < i ==> lengths[k] <= 15
      invariant |counts| == 16 && forall l :: 0 <= l < 16 ==> counts[l] == CountTo(lengths, i, l)
    {
      if lengths[i] >= 16 {
        return Err(InvalidHuffmanCode);
      }
      counts := counts[lengths[i] := counts[lengths[i]] + 1];
    }
    counts := counts[0 := 0];
    r := Ok(counts);
  }

  method StartOffsets(counts: seq<nat>, ghost lengths: seq<nat>) returns (offsets: seq<nat>)
    requires |counts| == 16 && forall l :: 1 <= l < 16 ==> counts[l] == CountOf(lengths, l)
    ensures |offsets| == 17 && forall l :: 1 <= l <= 16 ==> offsets[l] == Offset(lengths, l)
  {
    offsets := seq(17, _ => 0);
    for i := 1 to 16
      invariant |offsets| == 17 && forall l :: 1 <= l <= i ==> offsets[l] == Offset(lengths, l)
    {
      var next := offsets[i] + counts[i];
      assert next == Offset(lengths, i + 1);
      offsets := offsets[i + 1 := next];
    }
  }

  /** The table and the insertion points after the first n symbols have been placed. */
  ghost predicate Placed(symbols: seq<nat>, next: seq<nat>, lengths: seq<nat>, n: nat)
    requires n <= |lengths|
  {
    && |symbols| == Offset(lengths, 16) && |next| == 17
    && (forall l :: 1 <= l < 16 ==> next[l] == Offset(lengths, l) + CountTo(lengths, n, l))
    && (forall l :: 1 <= l < 16 ==> Stretch(symbols, lengths, n, l))
  }

  /** Two symbols never share a place. */
  lemma {:induction false} PlacesDiffer(lengths: seq<nat>, s: nat, n: nat)
    requires s < n < |lengths| && lengths[s] >= 1 && lengths[n] >= 1
    ensures Offset(lengths, lengths[s]) + CountTo(lengths, s, lengths[s])
         != Offset(lengths, lengths[n]) + CountTo(lengths, n, lengths[n])
  {
    var k, l := lengths[s], lengths[n];
    CountMono(lengths, s, n, k);
    CountMono(lengths, s, |lengths|, k);
    CountMono(lengths, n, |lengths|, l);
    if k < l { OffsetMono(lengths, k, l); } else if l < k { OffsetMono(lengths, l, k); }
  }

  lemma {:induction false} PlaceFits(lengths: seq<nat>, n: nat)
    requires n < |lengths| && 1 <= lengths[n] < 16
    ensures Offset(lengths, lengths[n]) + CountTo(lengths, n, lengths[n]) < Offset(lengths, 16)
  {
    CountMono(lengths, n, |lengths|, lengths[n]);
    OffsetMono(lengths, lengths[n], 16);
  }

  /** Placing symbol n extends the stretch of its length and leaves the others alone. */
  lemma {:induction false} PlaceInStretch(symbols: seq<nat>, lengths: seq<nat>, n: nat, i: nat, k: nat)
    requires n < |lengths| && 1 <= lengths[n] < 16 && 1 <= k < 16
    requires |symbols| == Offset(lengths, 16) && Stretch(symbols, lengths, n, k)
    requires i == Offset(lengths, lengths[n]) + CountTo(lengths, n, lengths[n]) < |symbols|
    ensures Stretch(symbols[i := n], lengths, n + 1, k)
  {
    var symbols' := symbols[i := n];
    CountMono(lengths, n, |lengths|, k);
    OffsetMono(lengths, k, 16);
    forall s | 0 <= s < n + 1 && lengths[s] == k
      ensures InPlace(symbols', lengths, s)
    {
      if s < n {
        assert InPlace(symbols, lengths, s);
        PlacesDiffer(lengths, s, n);
      }
    }
  }

  lemma {:induction false} KeepStretch(symbols: seq<nat>, lengths: seq<nat>, n: nat, k: nat)
    requires n < |lengths| && lengths[n] != k && Stretch(symbols, lengths, n, k)
    ensures Stretch(symbols, lengths, n + 1, k)
  {
  }

  lemma {:induction false} PlaceOne(symbols: seq<nat>, next: seq<nat>, lengths: seq<nat>, n: nat, n': nat)
    requires n' == n + 1 <= |lengths| && Bounded(lengths, 15) && Placed(symbols, next, lengths, n)
    ensures lengths[n] == 0 ==> Placed(symbols, next, lengths, n')
    ensures lengths[n] > 0 ==> next[lengths[n]] < |symbols|
    ensures lengths[n] > 0 ==>
              Placed(symbols[next[lengths[n]] := n], next[lengths[n] := next[lengths[n]] + 1], lengths, n')
  {
    var l := lengths[n];
    if l == 0 {
      forall k | 1 <= k < 16
        ensures Stretch(symbols, lengths, n', k)
      {
        KeepStretch(symbols, lengths, n, k);
      }
    } else {
      PlaceFits(lengths, n);
      var symbols' := symbols[next[l] := n];
      forall k | 1 <= k < 16
        ensures Stretch(symbols', lengths, n', k)
      {
        PlaceInStretch(symbols, lengths, n, next[l], k);
      }
    }
  }

  lemma {:induction false} PlacedInitially(symbols: seq<nat>, next: seq<nat>, lengths: seq<nat>)
    requires |next| == 17 && |symbols| == Offset(lengths, 16)
    requires forall l :: 1 <= l <= 16 ==> next[l] == Offset(lengths, l)
    ensures Placed(symbols, next, lengths, 0)
  {
    forall l | 1 <= l < 16
      ensures Stretch(symbols, lengths, 0, l)
    {
      OffsetMono(lengths, l, 16);
    }
  }

  /** Places every symbol in the stretch of the table that belongs to its length. */
  method PlaceSymbols(lengths: seq<nat>, offsets: seq<nat>) returns (table: seq<nat>)
    requires Bounded(lengths, 15)
    requires |offsets| == 17 && forall l :: 1 <= l <= 16 ==> offsets[l] == Offset(lengths, l)
    ensures forall l :: 1 <= l < 16 ==> Stretch(table, lengths, |lengths|, l)
  {
    table := seq(offsets[16], _ => 0);
    var next := offsets;
    PlacedInitially(table, next, lengths);
    for sym := 0 to |lengths|
      invariant Placed(table, next, lengths, sym)
    {
      var l := lengths[sym];
      PlaceOne(table, next, lengths, sym, sym + 1);
      if l != 0 {
        table := table[next[l] := sym];
        next := next[l := next[l] + 1];
      }
    }
  }

  /** The table is built exactly when no length exceeds 15 bits; the lengths need not satisfy Kraft's inequality. */
  method FromLengths(lengths: seq<nat>) returns (r: Result<HuffmanTable>)
    ensures r.Ok? <==> Bounded(lengths, 15)
    ensures r.Err? ==> r.error == InvalidHuffmanCode
    ensures r.Ok? ==> IsTableOf(r.value, lengths)
  {
    var counts :- CountLengths(lengths);
    var offsets := StartOffsets(counts, lengths);
    var symbols := PlaceSymbols(lengths, offsets);
    r := Ok(HuffmanTable(counts, symbols));
  }

  /** The outcome of a reading method against its specification on the stream. */
  ghost predicate Agrees<T>(r: Result<T>, pos: nat, spec: Result<(T, nat)>)
  {
    match spec
    case Err(e) => r == Err(e)
    case Ok((v, end)) => r == Ok(v) && pos == end
  }

  lemma {:induction false} ReadOneBit(bits: seq<bool>, pos: nat)
    ensures ReadField(bits, pos, 1) == if pos < |bits| then Ok(B2N(bits[pos])) else Err(UnexpectedEnd)
  {
    if pos < |bits| {
      assert Field(bits, pos, 0) == 0;
      assert Shl(B2N(bits[pos]), 0) == B2N(bits[pos]);
    }
  }

  lemma {:induction false} Lookup(t: HuffmanTable, lengths: seq<nat>, l: nat, k: nat)
    requires IsTableOf(t, lengths) && 1 <= l < 16 && k < CountOf(lengths, l)
    ensures Offset(lengths, l) + k < |t.symbols| && t.symbols[Offset(lengths, l) + k] == SymbolsOf(lengths, l)[k]
  {
    assert Stretch(t.symbols, lengths, |lengths|, l);
    RankOfSymbol(lengths, |lengths|, l, k);
    assert InPlace(t.symbols, lengths, SymbolsOf(lengths, l)[k]);
  }

  /** The decoder's variables before it reads the l-th bit of a code that starts at p0. */
  ghost predicate Walking(lengths: seq<nat>, bits: seq<bool>, p0: nat, spec: Result<(nat, nat)>, l: nat, code: nat,
      first: nat, index: nat)
  {
    && 1 <= l <= 16
    && first == FirstCode(lengths, l) <= 2 * code && index == Offset(lengths, l)
    && spec == DecodeAt(lengths, bits, p0 + l - 1, l, code)
  }

  /** What one bit does to the walk. */
  lemma {:induction false} WalkStep(t: HuffmanTable, lengths: seq<nat>, bits: seq<bool>, p0: nat,
      spec: Result<(nat, nat)>, l: nat, code: nat, first: nat, index: nat, bit: Result<nat>)
    requires IsTableOf(t, lengths) && l <= 15 && Walking(lengths, bits, p0, spec, l, code, first, index)
    requires bit == ReadField(bits, p0 + l - 1, 1)
    ensures bit.Err? ==> spec == Err(bit.error)
    ensures bit.Ok? && 2 * code + bit.value < first + t.counts[l] ==>
              first <= 2 * code + bit.value && index + (2 * code + bit.value - first) < |t.symbols|
              && spec == Ok((t.symbols[index + (2 * code + bit.value - first)], p0 + l))
    ensures bit.Ok? && 2 * code + bit.value >= first + t.counts[l] ==>
              Walking(lengths, bits, p0, spec, l + 1, 2 * code + bit.value, 2 * (first + t.counts[l]),
                  index + t.counts[l])
  {
    ReadOneBit(bits, p0 + l - 1);
    if bit.Ok? && 2 * code + bit.value < first + t.counts[l] {
      Lookup(t, lengths, l, 2 * code + bit.value - first);
    }
  }

  method DecodeSymbol(t: HuffmanTable, br: BitReader, ghost lengths: seq<nat>) returns (r: Result<nat>)
    requires IsTableOf(t, lengths) && br.Valid()
    modifies br
    ensures br.Valid()
    ensures Agrees(r, br.Pos(), Decode(lengths, br.bits, old(br.Pos())))
  {
    var code, first, index := 0, 0, 0;
    ghost var p0 := br.Pos();
    ghost var spec := Decode(lengths, br.bits, p0);
    for l := 1 to 16
      invariant br.Valid() && br.Pos() == p0 + l - 1
      invariant Walking(lengths, br.bits, p0, spec, l, code, first, index)
    {
      var rd := br.ReadBits(1);
      WalkStep(t, lengths, br.bits, p0, spec, l, code, first, index, rd);
      var bit :- rd;
      code := 2 * code + bit;
      var count := t.counts[l];
      if code < first + count {
        var symIdx := index + (code - first);
        return Ok(t.symbols[symIdx]);
      }
      index := index + count;
      first := 2 * (first + count);
    }
    r := Err(InvalidHuffmanCode);
  }

  // ---------- The encoder's codes ----------

  method MaxLength(lengths: seq<nat>) returns (m: nat)
    ensures Bounded(lengths, m)
    ensures m == 0 || m in lengths
  {
    m := 0;
    for i := 0 to |lengths|
      invariant forall k :: 0 <= k < i ==> lengths[k] <= m
      invariant m == 0 || m in lengths
    {
      if lengths[i] > m { m := lengths[i]; }
    }
  }

  method CountUpTo(lengths: seq<nat>, maxBits: nat) returns (blCount: seq<nat>)
    requires Bounded(lengths, maxBits)
    ensures |blCount| == maxBits + 1 && blCount[0] == 0
    ensures forall l :: 1 <= l <= maxBits ==> blCount[l] == CountOf(lengths, l)
  {
    blCount := seq(maxBits + 1, _ => 0);
    for i := 0 to |lengths|
      invariant |blCount| == maxBits + 1 && blCount[0] == 0
      invariant forall l :: 1 <= l <= maxBits ==> blCount[l] == CountTo(lengths, i, l)
    {
      if lengths[i] > 0 { blCount := blCount[lengths[i] := blCount[lengths[i]] + 1]; }
    }
  }

  method FirstCodes(blCount: seq<nat>, maxBits: nat, ghost lengths: seq<nat>) returns (nextCode: seq<nat>)
    requires |blCount| == maxBits + 1 && blCount[0] == 0
    requires forall l :: 1 <= l <= maxBits ==> blCount[l] == CountOf(lengths, l)
    ensures |nextCode| == maxBits + 2
    ensures forall l :: 1 <= l <= maxBits ==> nextCode[l] == FirstCode(lengths, l)
  {
    nextCode := seq(maxBits + 2, _ => 0);
    var code := 0;
    for bits := 1 to maxBits + 1
      invariant |nextCode| == maxBits + 2
      invariant code == if bits == 1 then 0 else FirstCode(lengths, bits - 1)
      invariant forall l :: 1 <= l < bits ==> nextCode[l] == FirstCode(lengths, l)
    {
      code := 2 * (code + blCount[bits - 1]);
      assert code == FirstCode(lengths, bits);
      nextCode := nextCode[bits := code];
    }
  }

  /** The next free code of each length once the first n symbols have theirs. */
  ghost predicate NextCodes(nextCode: seq<nat>, lengths: seq<nat>, maxBits: nat, n: nat)
    requires n <= |lengths|
  {
    && |nextCode| == maxBits + 2
    && forall l :: 1 <= l <= maxBits ==> nextCode[l] == FirstCode(lengths, l) + CountTo(lengths, n, l)
  }

  lemma {:induction false} AssignCode(nextCode: seq<nat>, lengths: seq<nat>, maxBits: nat, n: nat)
    requires n < |lengths| && lengths[n] <= maxBits && NextCodes(nextCode, lengths, maxBits, n)
    ensures lengths[n] == 0 ==> NextCodes(nextCode, lengths, maxBits, n + 1)
    ensures lengths[n] > 0 ==> nextCode[lengths[n]] == CodeOf(lengths, n)
    ensures lengths[n] > 0 ==>
              NextCodes(nextCode[lengths[n] := nextCode[lengths[n]] + 1], lengths, maxBits, n + 1)
  {
  }

  /** The encoder's codes are the canonical ones. */
  method CanonicalCodes(lengths: seq<nat>) returns (codes: seq<nat>)
    ensures |codes| == |lengths|
    ensures forall s :: 0 <= s < |lengths| && lengths[s] > 0 ==> codes[s] == CodeOf(lengths, s)
    ensures forall s :: 0 <= s < |lengths| && lengths[s] == 0 ==> codes[s] == 0
  {
    hide FirstCode;
    var maxBits := MaxLength(lengths);
    var blCount := CountUpTo(lengths, maxBits);
    var nextCode := FirstCodes(blCount, maxBits, lengths);
    codes := [];
    for i := 0 to |lengths|
      invariant |codes| == i && NextCodes(nextCode, lengths, maxBits, i)
      invariant forall s :: 0 <= s < i && lengths[s] > 0 ==> codes[s] == CodeOf(lengths, s)
      invariant forall s :: 0 <= s < i && lengths[s] == 0 ==> codes[s] == 0
    {
      var l := lengths[i];
      AssignCode(nextCode, lengths, maxBits, i);
      if l > 0 {
        codes := codes + [nextCode[l]];
        nextCode := nextCode[l := nextCode[l] + 1];
      } else {
        codes := codes + [0];
      }
    }
  }
}
