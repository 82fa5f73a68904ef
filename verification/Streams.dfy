/** Which inputs decompress to what: a stream is a list of stored, fixed and dynamic blocks whose bits follow each other
    without gaps, apart from the padding inside stored blocks. */
module Streams {
  import opened Bits
  import opened BitIO
  import opened Huffman
  import opened Lz77
  import opened DeflateTables
  import opened Inflate
  import opened CodeLengths
  import opened TokenCode
  import opened Dynamic
  import opened FixedBlock
  import opened BlockExact
  import Deflate

  // ---------- Blocks and their bits ----------

  /** The code lengths of a dynamic block and how its header gives them. */
  datatype Codes = Codes(ll: seq<nat>, dl: seq<nat>, hclen: nat, cl: seq<nat>, syms: seq<ClSym>)

  /** A stored block with its padding, a block with the fixed codes, or one with its own. */
  datatype Chunk = Raw(pad: seq<bool>, bytes: seq<byte>) | Fixed(items: seq<Item>) | Own(codes: Codes, items: seq<Item>)

  /** The code lengths that the items of a block are written with. */
  function LengthsOf(b: Chunk): (r: (seq<nat>, seq<nat>))
  {
    match b
    case Raw(_, _) => ([], [])
    case Fixed(_) => (FixedLit(), FixedDist())
    case Own(c, _) => (c.ll, c.dl)
  }

  ghost predicate Legal(b: Chunk)
  {
    match b
    case Raw(pad, bytes) => |pad| < 8 && |bytes| <= 0xFFFF
    case Fixed(items) => AllItems(items, FixedLit(), FixedDist())
    case Own(c, items) =>
      HeaderForm(c.ll, c.dl, c.hclen, c.cl, c.syms) && c.ll[END_OF_BLOCK] > 0 && AllItems(items, c.ll, c.dl)
  }

  ghost function BodyBits(b: Chunk): (w: seq<bool>)
    requires Legal(b)
  {
    match b
    case Raw(pad, bytes) => pad + (LsbBits(|bytes|, 16) + (LsbBits(0xFFFF - |bytes|, 16) + BytesToBits(bytes)))
    case Fixed(items) => ItemsBits(items, FixedLit(), FixedDist())
    case Own(c, items) => HeaderBits(|c.ll|, |c.dl|, c.hclen, c.cl, c.syms) + ItemsBits(items, c.ll, c.dl)
  }

  function TypeOf(b: Chunk): (t: nat)
    ensures t <= 2
  {
    match b
    case Raw(_, _) => 0
    case Fixed(_) => 1
    case Own(_, _) => 2
  }

  /** The final flag, the type and the body of a block. */
  ghost function ChunkBits(b: Chunk, final: bool): (w: seq<bool>)
    requires Legal(b)
  {
    LsbBits(B2N(final), 1) + (LsbBits(TypeOf(b), 2) + BodyBits(b))
  }

  ghost predicate AllLegal(bs: seq<Chunk>)
  {
    forall k :: 0 <= k < |bs| ==> Legal(bs[k])
  }

  /** The blocks one after the other, the last one marked as final. */
  ghost function StreamBits(bs: seq<Chunk>): (w: seq<bool>)
    requires AllLegal(bs) && bs != []
  {
    if |bs| == 1 then ChunkBits(bs[0], true) else ChunkBits(bs[0], false) + StreamBits(bs[1..])
  }

  /** In a stream that starts at pos the padding of stored blocks reaches the next byte boundary. */
  ghost predicate Aligned(bs: seq<Chunk>, pos: nat)
    requires AllLegal(bs)
  {
    bs != [] ==>
      && (bs[0].Raw? ==> (pos + 3 + |bs[0].pad|) % 8 == 0)
      && Aligned(bs[1..], pos + |ChunkBits(bs[0], |bs| == 1)|)
  }

  // ---------- What blocks spell ----------

  ghost function ToksOf(b: Chunk): (toks: seq<Tok>)
    requires Legal(b) && !b.Raw?
  {
    ItemToks(b.items, LengthsOf(b).0, LengthsOf(b).1)
  }

  ghost function Size(b: Chunk): (n: nat)
    requires Legal(b)
  {
    if b.Raw? then |b.bytes| else Start(ToksOf(b), |ToksOf(b)|)
  }

  /** The block adds the bytes of d from i on; its copies may reach back before i. */
  ghost predicate Adds(b: Chunk, d: seq<byte>, i: nat)
    requires Legal(b)
  {
    if b.Raw? then i <= |d| && d[i..] == b.bytes else Spells(ToksOf(b), 0, d, i)
  }

  /** The blocks in turn add the bytes of d from i on. */
  ghost predicate SpellAll(bs: seq<Chunk>, d: seq<byte>, i: nat)
    requires AllLegal(bs)
  {
    if bs == [] then i == |d|
    else
      var j := i + Size(bs[0]);
      j <= |d| && Adds(bs[0], d[..j], i) && SpellAll(bs[1..], d, j)
  }

  /** The bits from pos to end are blocks that spell the bytes of d from i on. */
  ghost predicate IsStream(bs: seq<Chunk>, bits: seq<bool>, pos: nat, end: nat, d: seq<byte>, i: nat)
  {
    && bs != [] && AllLegal(bs) && At(bits, pos, StreamBits(bs)) && end == pos + |StreamBits(bs)|
    && Aligned(bs, pos) && SpellAll(bs, d, i)
  }

  /** All codes of the block satisfy Kraft's inequality. */
  ghost predicate Decodable(b: Chunk)
  {
    b.Own? ==> PrefixCode(b.codes.cl, 7) && PrefixCode(b.codes.ll, 15) && PrefixCode(b.codes.dl, 15)
  }

  ghost predicate AllDecodable(bs: seq<Chunk>)
  {
    forall k :: 0 <= k < |bs| ==> Decodable(bs[k])
  }

  // ---------- Bytes in a stream of bits ----------

  lemma {:induction false} NthByteBits(s: seq<byte>, i: nat, bits: seq<bool>, pos: nat)
    requires i < |s| && At(bits, pos, BytesToBits(s))
    ensures At(bits, pos + 8 * i, LsbBits(s[i], 8))
  {
    hide BytesToBits;
    var w, x := BytesToBits(s), LsbBits(s[i], 8);
    ByteAt(s, w, i);
    forall k | 0 <= k < 8
      ensures bits[pos + 8 * i + k] == x[k]
    {
      assert bits[pos + (8 * i + k)] == w[8 * i + k] == x[k];
    }
  }

  /** Whole bytes stand in the stream exactly where they stand in the input. */
  lemma {:induction false} BytesStandAt(data: seq<byte>, bits: seq<bool>, p: nat, s: seq<byte>)
    requires bits == BytesToBits(data) && At(bits, 8 * p, BytesToBits(s))
    ensures p + |s| <= |data| && data[p..p + |s|] == s
  {
    hide BytesToBits, At;
    AtInside(bits, 8 * p, BytesToBits(s));
    forall i | 0 <= i < |s|
      ensures data[p + i] == s[i]
    {
      NthByteBits(s, i, bits, 8 * p);
      ByteBound(s[i]);
      FieldWritten(bits, 8 * (p + i), s[i], 8);
      ByteValue(data, bits, p + i);
    }
  }

  lemma {:induction false} AtInside(bits: seq<bool>, pos: nat, w: seq<bool>)
    requires At(bits, pos, w)
    ensures pos + |w| <= |bits|
  {
  }

  lemma {:induction false} BitsStandAt(data: seq<byte>, bits: seq<bool>, p: nat, n: nat)
    requires bits == BytesToBits(data) && p + n <= |data|
    ensures At(bits, 8 * p, BytesToBits(data[p..p + n]))
  {
    hide BytesToBits;
    var a, s, b := data[..p], data[p..p + n], data[p + n..];
    assert data == (a + s) + b;
    BytesToBitsConcat(a + s, b);
    BytesToBitsConcat(a, s);
  }

  // ---------- A stream is decompressed ----------

  lemma {:induction false} FlagsBack(bits: seq<bool>, pos: nat, b: Chunk, final: bool)
    requires Legal(b) && At(bits, pos, ChunkBits(b, final))
    ensures ReadField(bits, pos, 1) == Ok(B2N(final)) && ReadField(bits, pos + 1, 2) == Ok(TypeOf(b))
    ensures At(bits, pos + 3, BodyBits(b)) && |ChunkBits(b, final)| == 3 + |BodyBits(b)|
  {
    hide At, LsbBits, ReadField, BodyBits, Legal;
    AtSplit(bits, pos, LsbBits(B2N(final), 1), LsbBits(TypeOf(b), 2) + BodyBits(b));
    AtSplit(bits, pos + 1, LsbBits(TypeOf(b), 2), BodyBits(b));
    Pow2Values();
    FieldBack(bits, pos, B2N(final), 1);
    FieldBack(bits, pos + 1, TypeOf(b), 2);
  }

  lemma {:induction false} NextBoundary(pos: nat, n: nat)
    requires n < 8 && (pos + n) % 8 == 0
    ensures RoundUp8(pos) == pos + n
  {
  }

  lemma {:induction false} RawParts(pad: seq<bool>, bytes: seq<byte>)
    requires |pad| < 8 && |bytes| <= 0xFFFF
    ensures Legal(Raw(pad, bytes))
    ensures BodyBits(Raw(pad, bytes))
         == pad + (LsbBits(|bytes|, 16) + (LsbBits(0xFFFF - |bytes|, 16) + BytesToBits(bytes)))
  {
    hide LsbBits, BytesToBits;
  }

  lemma {:induction false} StoredIs(data: seq<byte>, bits: seq<bool>, pos: nat, q: nat, s: seq<byte>, p: nat,
      out: seq<byte>, max: nat)
    requires |bits| == 8 * |data| && q == RoundUp8(pos) && 8 * p == q + 32 && |out| + |s| <= max && |s| <= 0xFFFF
    requires ReadField(bits, q, 16) == Ok(|s|) && ReadField(bits, q + 16, 16) == Ok(0xFFFF - |s|)
    requires p + |s| <= |data| && data[p..p + |s|] == s
    ensures BlockOfType(0, data, bits, pos, out, max) == Ok((out + s, q + 32 + 8 * |s|))
  {
    hide ReadField, RoundUp8, Block, Header;
    assert q / 8 + 4 == p;
  }

  lemma {:induction false} RawBack(data: seq<byte>, bits: seq<bool>, pos: nat, b: Chunk, out: seq<byte>, max: nat)
    requires bits == BytesToBits(data) && b.Raw? && Legal(b) && At(bits, pos, BodyBits(b)) && (pos + |b.pad|) % 8 == 0
    requires |out| + |b.bytes| <= max
    ensures BlockOfType(0, data, bits, pos, out, max) == Ok((out + b.bytes, pos + |BodyBits(b)|))
  {
    hide At, LsbBits, ReadField, BytesToBits, RoundUp8, BlockOfType, BodyBits, Pow2;
    RawParts(b.pad, b.bytes);
    var n, q := |b.bytes|, pos + |b.pad|;
    var x, y, z := LsbBits(n, 16), LsbBits(0xFFFF - n, 16), BytesToBits(b.bytes);
    AtSplit(bits, pos, b.pad, x + (y + z));
    AtSplit(bits, q, x, y + z);
    AtSplit(bits, q + 16, y, z);
    WordBack(bits, q, n);
    WordBack(bits, q + 16, 0xFFFF - n);
    NextBoundary(pos, |b.pad|);
    var p := EighthOf(q);
    BytesStandAt(data, bits, p, b.bytes);
    StoredIs(data, bits, pos, q, b.bytes, p, out, max);
  }

  lemma {:induction false} EighthOf(q: nat) returns (p: nat)
    requires q % 8 == 0
    ensures 8 * p == q + 32
  {
    p := q / 8 + 4;
  }

  lemma {:induction false} WordBack(bits: seq<bool>, pos: nat, v: nat)
    requires v <= 0xFFFF && At(bits, pos, LsbBits(v, 16))
    ensures ReadField(bits, pos, 16) == Ok(v)
  {
    hide At, LsbBits, ReadField;
    WordPower16();
    FieldBack(bits, pos, v, 16);
  }

  lemma {:induction false} WordPower16()
    ensures Pow2(16) == 0x10000
  {
    Pow2Values();
  }

  /** Items from q on, under the codes of the block. */
  lemma {:induction false} ItemsBodyBack(bits: seq<bool>, q: nat, items: seq<Item>, ll: seq<nat>, dl: seq<nat>,
      d: seq<byte>, i: nat, max: nat)
    requires PrefixCode(ll, 15) && PrefixCode(dl, 15) && END_OF_BLOCK < |ll| && ll[END_OF_BLOCK] > 0
    requires AllItems(items, ll, dl) && At(bits, q, ItemsBits(items, ll, dl))
    requires i <= |d| <= max && Spells(ItemToks(items, ll, dl), 0, d, i)
    ensures Block(bits, q, d[..i], ll, dl, max) == Ok((d, q + |ItemsBits(items, ll, dl)|))
  {
    hide At, Block, Spells, AllItems, ItemsBits, ItemToks, PrefixCode;
    assert Rebuilt(d[..i], d, i);
    ItemsBack(items, ll, dl, bits, q, q + |ItemsBits(items, ll, dl)|, d[..i], d, max);
  }

  lemma {:induction false} FixedType(data: seq<byte>, bits: seq<bool>, pos: nat, out: seq<byte>, max: nat)
    requires |bits| == 8 * |data|
    ensures BlockOfType(1, data, bits, pos, out, max) == Block(bits, pos, out, FixedLit(), FixedDist(), max)
  {
    hide Block, FixedLit, FixedDist;
  }

  lemma {:induction false} FixedParts(b: Chunk)
    requires b.Fixed? && Legal(b)
    ensures AllItems(b.items, FixedLit(), FixedDist()) && BodyBits(b) == ItemsBits(b.items, FixedLit(), FixedDist())
    ensures ToksOf(b) == ItemToks(b.items, FixedLit(), FixedDist())
  {
    hide AllItems, ItemsBits, ItemToks, FixedLit, FixedDist;
  }

  lemma {:induction false} FixedChunkBack(data: seq<byte>, bits: seq<bool>, pos: nat, b: Chunk, d: seq<byte>, i: nat,
      max: nat)
    requires |bits| == 8 * |data| && b.Fixed? && Legal(b) && At(bits, pos, BodyBits(b))
    requires i <= |d| <= max && Spells(ToksOf(b), 0, d, i)
    ensures BlockOfType(1, data, bits, pos, d[..i], max) == Ok((d, pos + |BodyBits(b)|))
  {
    hide *;
    FixedParts(b);
    FixedType(data, bits, pos, d[..i], max);
    FixedPrefixCodes();
    FixedEnd();
    ItemsBodyBack(bits, pos, b.items, FixedLit(), FixedDist(), d, i, max);
  }

  lemma {:induction false} OwnChunkBack(data: seq<byte>, bits: seq<bool>, pos: nat, b: Chunk, d: seq<byte>, i: nat,
      max: nat)
    requires |bits| == 8 * |data| && b.Own? && Legal(b) && Decodable(b) && At(bits, pos, BodyBits(b))
    requires i <= |d| <= max && Spells(ToksOf(b), 0, d, i)
    ensures BlockOfType(2, data, bits, pos, d[..i], max) == Ok((d, pos + |BodyBits(b)|))
  {
    hide At, Block, Spells, AllItems, ItemsBits, ItemToks, Header, HeaderBits, PrefixCode, Sound, Coded, Unroll,
        SentUpTo, Bounded;
    var c := b.codes;
    SentInRange(c.cl, c.hclen);
    var h := HeaderBits(|c.ll|, |c.dl|, c.hclen, c.cl, c.syms);
    AtSplit(bits, pos, h, ItemsBits(b.items, c.ll, c.dl));
    HeaderBack(bits, pos, c.ll, c.dl, c.hclen, c.cl, c.syms);
    ItemsBodyBack(bits, pos + |h|, b.items, c.ll, c.dl, d, i, max);
  }

  lemma {:induction false} FixedEnd()
    ensures END_OF_BLOCK < |FixedLit()| && FixedLit()[END_OF_BLOCK] > 0
  {
  }

  lemma {:induction false} SpellsSize(toks: seq<Tok>, k: nat, d: seq<byte>, i: nat)
    requires k <= |toks| && Spells(toks, k, d, i)
    ensures |d| + Start(toks, k) == i + Start(toks, |toks|)
    decreases |toks| - k
  {
    hide Repeats;
    if k < |toks| { SpellsSize(toks, k + 1, d, i + TokSize(toks[k])); }
  }

  lemma {:induction false} ChunkBack(data: seq<byte>, bits: seq<bool>, pos: nat, b: Chunk, final: bool, d: seq<byte>,
      i: nat, max: nat)
    requires bits == BytesToBits(data) && Legal(b) && Decodable(b) && At(bits, pos, ChunkBits(b, final))
    requires b.Raw? ==> (pos + 3 + |b.pad|) % 8 == 0
    requires i <= |d| <= max && Adds(b, d, i)
    ensures NextBlock(data, bits, pos, d[..i], max) == Ok(((final, d), pos + |ChunkBits(b, final)|))
  {
    hide At, ReadField, BodyBits, ChunkBits, Legal, Decodable, BlockOfType, BytesToBits, ToksOf, Spells;
    FlagsBack(bits, pos, b, final);
    if b.Raw? {
      assert d[..i] + b.bytes == d;
      RawBack(data, bits, pos + 3, b, d[..i], max);
    } else if b.Fixed? {
      FixedChunkBack(data, bits, pos + 3, b, d, i, max);
    } else {
      OwnChunkBack(data, bits, pos + 3, b, d, i, max);
    }
  }

  lemma {:induction false} ChunksBack(data: seq<byte>, bits: seq<bool>, bs: seq<Chunk>, pos: nat, end: nat,
      d: seq<byte>, i: nat, max: nat)
    requires bits == BytesToBits(data) && IsStream(bs, bits, pos, end, d, i) && AllDecodable(bs) && i <= |d| <= max
    ensures Blocks(data, bits, pos, d[..i], max) == Ok((d, end))
    decreases |bs|
  {
    hide At, ChunkBits, Legal, Decodable, Adds, Size, BytesToBits, Blocks, NextBlock;
    var b, final := bs[0], |bs| == 1;
    var j := i + Size(b);
    var p := pos + |ChunkBits(b, final)|;
    if !final { AtSplit(bits, pos, ChunkBits(b, false), StreamBits(bs[1..])); }
    assert d[..j][..i] == d[..i];
    ChunkBack(data, bits, pos, b, final, d[..j], i, max);
    Deflate.BlocksStep(data, bits, pos, d[..i], max, final, d[..j], p);
    if final {
      assert bs[1..] == [] && SpellAll(bs[1..], d, j);
      assert d[..j] == d;
    } else {
      ChunksBack(data, bits, bs[1..], p, end, d, j, max);
    }
  }

  /** Any bytes that start with the bits of blocks decompress to what the blocks spell together, and the bytes that hold
      those bits are consumed. */
  lemma {:induction false} StreamBack(data: seq<byte>, bs: seq<Chunk>, d: seq<byte>, max: nat)
    requires bs != [] && AllLegal(bs) && AllDecodable(bs) && At(BytesToBits(data), 0, StreamBits(bs))
    requires Aligned(bs, 0) && SpellAll(bs, d, 0) && |d| <= max
    ensures Inflated(data, max) == Ok((d, (|StreamBits(bs)| + 7) / 8))
  {
    hide At, AllLegal, AllDecodable, Aligned, SpellAll, StreamBits, Blocks, BytesToBits;
    ChunksBack(data, BytesToBits(data), bs, 0, |StreamBits(bs)|, d, 0, max);
    assert d[..0] == [];
  }

  // ---------- What is decompressed is a stream ----------

  lemma {:induction false} ClBitsSame(a: seq<nat>, b: seq<nat>, n: nat)
    requires |a| == 19 && |b| == 19 && n <= 19 && forall k :: 0 <= k < n ==> a[ClOrder(k)] == b[ClOrder(k)]
    ensures ClBits(a, n) == ClBits(b, n)
  {
    hide ClOrder, LsbBits;
    if n > 0 { ClBitsSame(a, b, n - 1); }
  }

  /** The code length code that is read stands in the input in the order of the format. */
  lemma {:induction false} ClLensForm(bits: seq<bool>, pos: nat, n: nat)
    requires n <= 19 && pos <= |bits| && ClLens(bits, pos, n).Ok?
    ensures var cl := ClLens(bits, pos, n).value;
            SentUpTo(cl, n) && Bounded(cl, 7) && At(bits, pos, ClBits(cl, n))
  {
    hide ClOrder, ClRank, LsbBits, At, ReadField;
    if n == 0 {
      AtNothing(bits, pos);
    } else {
      ClLensForm(bits, pos, n - 1);
      var before, cl := ClLens(bits, pos, n - 1).value, ClLens(bits, pos, n).value;
      var v := ReadField(bits, pos + 3 * (n - 1), 3).value;
      FieldBits(bits, pos + 3 * (n - 1), 3, v);
      Pow2Values();
      OneMoreSent(before, n, v);
      AtJoin(bits, pos, ClBits(cl, n - 1), LsbBits(v, 3));
    }
  }

  lemma {:induction false} AtNothing(bits: seq<bool>, pos: nat)
    requires pos <= |bits|
    ensures At(bits, pos, [])
  {
  }

  lemma {:induction false} OneMoreSent(before: seq<nat>, n: nat, v: nat)
    requires 0 < n <= 19 && SentUpTo(before, n - 1)
    ensures var cl := before[ClOrder(n - 1) := v]; SentUpTo(cl, n) && ClBits(cl, n - 1) == ClBits(before, n - 1)
  {
    hide ClOrder, ClRank, ClBits;
    var cl := before[ClOrder(n - 1) := v];
    forall s | 0 <= s < 19 && ClRank(s) >= n
      ensures cl[s] == 0
    {
      ClOrderPermutes(s, n - 1);
    }
    forall k | 0 <= k < n - 1
      ensures cl[ClOrder(k)] == before[ClOrder(k)]
    {
      ClOrderPermutes(0, k);
      ClOrderPermutes(0, n - 1);
    }
    ClBitsSame(cl, before, n - 1);
  }

  lemma {:induction false} RunBitsSame(s: seq<ClSym>, t: seq<ClSym>, k: nat, cl: seq<nat>)
    requires k <= |s| && k <= |t| && Coded(s, cl) && Coded(t, cl) && forall x :: 0 <= x < k ==> s[x] == t[x]
    ensures RunBits(s, k, cl) == RunBits(t, k, cl)
  {
    hide SymBits;
    if k > 0 { RunBitsSame(s, t, k - 1, cl); }
  }

  /** The symbol that was read with its extra bits. */
  lemma {:induction false} AddedSym(sym: nat, bits: seq<bool>, pos: nat, acc: seq<nat>, total: nat) returns (s: ClSym)
    requires AddLens(sym, bits, pos, acc, total).Ok? && sym < 19 && pos <= |bits|
    ensures s.sym == sym && WellFormed(s) && (sym == 16 ==> acc != []) && At(bits, pos, LsbBits(s.extra, s.nbits))
    ensures AddLens(sym, bits, pos, acc, total) == Ok((Apply(s, acc), pos + s.nbits))
  {
    hide At, ReadField;
    Pow2Values();
    if sym <= 15 {
      s := ClSym(sym, 0, 0);
      AtNothing(bits, pos);
      assert Repeat(sym, 1) == [sym];
    } else {
      var n := if sym == 16 then 2 else if sym == 17 then 3 else 7;
      var v := ReadField(bits, pos, n).value;
      FieldBits(bits, pos, n, v);
      s := ClSym(sym, v, n);
    }
  }

  /** syms are read from start on and stand for acc. */
  ghost predicate ReadSyms(syms: seq<ClSym>, cl: seq<nat>, bits: seq<bool>, start: nat, pos: nat, acc: seq<nat>)
  {
    && Sound(syms) && Coded(syms, cl) && Unroll(syms, |syms|) == acc
    && At(bits, start, RunBits(syms, |syms|, cl)) && pos == start + |RunBits(syms, |syms|, cl)|
  }

  lemma {:induction false} OneMoreSym(syms: seq<ClSym>, cl: seq<nat>, bits: seq<bool>, start: nat, pos: nat,
      acc: seq<nat>, s: ClSym)
    requires ReadSyms(syms, cl, bits, start, pos, acc) && WellFormed(s) && (s.sym == 16 ==> acc != [])
    requires s.sym < |cl| && cl[s.sym] > 0 && At(bits, pos, SymBits(s, cl))
    ensures ReadSyms(syms + [s], cl, bits, start, pos + |SymBits(s, cl)|, Apply(s, acc))
  {
    hide At, SymBits, Apply, WellFormed;
    var more := syms + [s];
    assert s.sym == 16 ==> syms != [];
    UnrollSame(more, syms, |syms|);
    RunBitsSame(more, syms, |syms|, cl);
    AtJoin(bits, start, RunBits(syms, |syms|, cl), SymBits(s, cl));
  }

  lemma {:induction false} LensForm(cl: seq<nat>, bits: seq<bool>, start: nat, pos: nat, acc: seq<nat>, total: nat,
      syms: seq<ClSym>)
      returns (all: seq<ClSym>)
    requires |cl| == 19 && |acc| <= total && Lens(cl, bits, pos, acc, total).Ok?
    requires ReadSyms(syms, cl, bits, start, pos, acc)
    ensures var (lens, end) := Lens(cl, bits, pos, acc, total).value; ReadSyms(all, cl, bits, start, end, lens)
    decreases total - |acc|
  {
    hide At, Decode, AddLens, ReadSyms, CodeBits, LsbBits, Apply, WellFormed;
    if |acc| >= total {
      all := syms;
    } else {
      var (sym, p) := Decode(cl, bits, pos).value;
      DecodeSound(cl, bits, pos);
      AtInside(bits, pos, CodeBits(cl, sym));
      var s := AddedSym(sym, bits, p, acc, total);
      AtJoin(bits, pos, CodeBits(cl, sym), LsbBits(s.extra, s.nbits));
      OneMoreSym(syms, cl, bits, start, pos, acc, s);
      all := LensForm(cl, bits, start, p + s.nbits, Apply(s, acc), total, syms + [s]);
    }
  }

  /** A header that is accepted was written so. */
  lemma {:induction false} HeaderRead(bits: seq<bool>, pos: nat) returns (c: Codes)
    requires Header(bits, pos).Ok?
    ensures HeaderForm(c.ll, c.dl, c.hclen, c.cl, c.syms)
    ensures |c.cl| == 19 && c.hclen <= 19
    ensures At(bits, pos, HeaderBits(|c.ll|, |c.dl|, c.hclen, c.cl, c.syms))
    ensures Header(bits, pos) == Ok(((c.ll, c.dl), pos + |HeaderBits(|c.ll|, |c.dl|, c.hclen, c.cl, c.syms)|))
  {
    hide At, ReadField, ClLens, Lens, ClBits, LsbBits, RunBits, Sound, Coded, Unroll, SentUpTo, Bounded;
    var ((hlit, hdist, hclen), p) := Counts(bits, pos).value;
    var (all, end) := AllLens(bits, p, hclen, hlit + hdist).value;
    CountsRead(bits, pos);
    var cl := ClLens(bits, p, hclen).value;
    AtInside(bits, pos + 10, LsbBits(hclen - 4, 4));
    ClLensForm(bits, p, hclen);
    AtInside(bits, p, ClBits(cl, hclen));
    NoSyms(cl, bits, p + 3 * hclen);
    var syms := LensForm(cl, bits, p + 3 * hclen, p + 3 * hclen, [], hlit + hdist, []);
    c := Codes(all[..hlit], all[hlit..], hclen, cl, syms);
    assert c.ll + c.dl == all;
    var u, v, w, x, y := LsbBits(hlit - 257, 5), LsbBits(hdist - 1, 5), LsbBits(hclen - 4, 4), ClBits(cl, hclen),
        RunBits(syms, |syms|, cl);
    AtJoin(bits, p, x, y);
    AtJoin(bits, pos + 10, w, x + y);
    AtJoin(bits, pos + 5, v, w + (x + y));
    AtJoin(bits, pos, u, v + (w + (x + y)));
  }

  lemma {:induction false} NoSyms(cl: seq<nat>, bits: seq<bool>, pos: nat)
    requires pos <= |bits|
    ensures ReadSyms([], cl, bits, pos, pos, [])
  {
  }

  lemma {:induction false} CountsRead(bits: seq<bool>, pos: nat)
    requires Counts(bits, pos).Ok?
    ensures var ((hlit, hdist, hclen), p) := Counts(bits, pos).value;
            && 257 <= hlit <= 288 && 1 <= hdist <= 32 && 4 <= hclen <= 19 && p == pos + 14
            && At(bits, pos, LsbBits(hlit - 257, 5)) && At(bits, pos + 5, LsbBits(hdist - 1, 5))
            && At(bits, pos + 10, LsbBits(hclen - 4, 4))
  {
    hide At, ReadField, LsbBits;
    var ((hlit, hdist, hclen), p) := Counts(bits, pos).value;
    FieldBits(bits, pos, 5, hlit - 257);
    FieldBits(bits, pos + 5, 5, hdist - 1);
    FieldBits(bits, pos + 10, 4, hclen - 4);
    Pow2Values();
  }

  /** The fields of a stored block at q that is accepted. */
  lemma {:induction false} StoredFields(data: seq<byte>, bits: seq<bool>, q: nat, out: seq<byte>, max: nat)
      returns (p: nat, n: nat)
    requires |bits| == 8 * |data| && q % 8 == 0 && Stored(data, bits, q, out, max).Ok?
    ensures n <= 0xFFFF && 8 * p == q + 32 && p + n <= |data|
    ensures ReadField(bits, q, 16) == Ok(n) && ReadField(bits, q + 16, 16) == Ok(0xFFFF - n)
    ensures Stored(data, bits, q, out, max) == Ok((out + data[p..p + n], q + 32 + 8 * n))
  {
    hide ReadField;
    p, n := q / 8 + 4, ReadField(bits, q, 16).value;
  }

  lemma {:induction false} RawRead(data: seq<byte>, bits: seq<bool>, pos: nat, out: seq<byte>, max: nat)
      returns (b: Chunk)
    requires bits == BytesToBits(data) && Stored(data, bits, RoundUp8(pos), out, max).Ok?
    ensures b.Raw? && Legal(b) && (pos + |b.pad|) % 8 == 0 && At(bits, pos, BodyBits(b))
    ensures Stored(data, bits, RoundUp8(pos), out, max) == Ok((out + b.bytes, pos + |BodyBits(b)|))
  {
    hide At, ReadField, LsbBits, BytesToBits, RoundUp8, Stored, Legal, BodyBits, Pow2, B2N;
    var q := RoundUp8(pos);
    var p, n := StoredFields(data, bits, q, out, max);
    var inv := 0xFFFF - n;
    FieldBits(bits, q, 16, n);
    FieldBits(bits, q + 16, 16, inv);
    BitsStandAt(data, bits, p, n);
    var bytes, pad := data[p..p + n], bits[pos..q];
    AtSlice(bits, pos, q);
    FourJoined(bits, pos, pad, LsbBits(n, 16), LsbBits(inv, 16), BytesToBits(bytes));
    b := Raw(pad, bytes);
    RawParts(pad, bytes);
  }

  lemma {:induction false} FourJoined(bits: seq<bool>, pos: nat, u: seq<bool>, v: seq<bool>, w: seq<bool>, x: seq<bool>)
    requires At(bits, pos, u) && At(bits, pos + |u|, v) && At(bits, pos + |u| + |v|, w)
    requires At(bits, pos + |u| + |v| + |w|, x)
    ensures At(bits, pos, u + (v + (w + x))) && |u + (v + (w + x))| == |u| + |v| + |w| + |x|
  {
    hide At;
    AtJoin(bits, pos + |u| + |v|, w, x);
    AtJoin(bits, pos + |u|, v, w + x);
    AtJoin(bits, pos, u, v + (w + x));
  }

  lemma {:induction false} AtSlice(bits: seq<bool>, pos: nat, q: nat)
    requires pos <= q <= |bits|
    ensures At(bits, pos, bits[pos..q])
  {
  }

  lemma {:induction false} FixedRead(data: seq<byte>, bits: seq<bool>, pos: nat, out: seq<byte>, max: nat)
      returns (b: Chunk)
    requires |bits| == 8 * |data| && BlockOfType(1, data, bits, pos, out, max).Ok?
    ensures b.Fixed? && Legal(b) && At(bits, pos, BodyBits(b))
    ensures var (d, end) := BlockOfType(1, data, bits, pos, out, max).value;
            out <= d && end == pos + |BodyBits(b)| && Spells(ToksOf(b), 0, d, |out|)
  {
    hide At, Block, Spells, AllItems, ItemsBits, ItemToks, FixedLit, FixedDist, BlockOfType;
    FixedType(data, bits, pos, out, max);
    var items := BlockRead(FixedLit(), FixedDist(), bits, pos, out, max);
    b := Fixed(items);
  }

  lemma {:induction false} OwnRead(data: seq<byte>, bits: seq<bool>, pos: nat, out: seq<byte>, max: nat)
      returns (b: Chunk)
    requires |bits| == 8 * |data| && BlockOfType(2, data, bits, pos, out, max).Ok?
    ensures b.Own? && Legal(b) && At(bits, pos, BodyBits(b))
    ensures var (d, end) := BlockOfType(2, data, bits, pos, out, max).value;
            out <= d && end == pos + |BodyBits(b)| && Spells(ToksOf(b), 0, d, |out|)
  {
    hide At, Block, Header, Spells, AllItems, ItemsBits, ItemToks, HeaderBits, Sound, Coded,
        Unroll, SentUpTo, Bounded, Legal, BodyBits, ToksOf;
    var c := HeaderRead(bits, pos);
    var w := HeaderBits(|c.ll|, |c.dl|, c.hclen, c.cl, c.syms);
    var items := BlockRead(c.ll, c.dl, bits, pos + |w|, out, max);
    b := Own(c, items);
    AtJoin(bits, pos, w, ItemsBits(items, c.ll, c.dl));
    OwnParts(c, items);
  }

  lemma {:induction false} OwnParts(c: Codes, items: seq<Item>)
    requires HeaderForm(c.ll, c.dl, c.hclen, c.cl, c.syms) && c.ll[END_OF_BLOCK] > 0 && AllItems(items, c.ll, c.dl)
    requires c.hclen <= 19 && |c.cl| == 19
    ensures Legal(Own(c, items)) && ToksOf(Own(c, items)) == ItemToks(items, c.ll, c.dl)
    ensures BodyBits(Own(c, items))
         == HeaderBits(|c.ll|, |c.dl|, c.hclen, c.cl, c.syms) + ItemsBits(items, c.ll, c.dl)
  {
    hide AllItems, ItemsBits, ItemToks, HeaderBits, Sound, Coded, Unroll, SentUpTo, Bounded;
  }

  lemma {:induction false} SizeOf(b: Chunk, d: seq<byte>, i: nat)
    requires Legal(b) && i <= |d| && Adds(b, d, i)
    ensures i + Size(b) == |d|
  {
    hide Legal, Spells, ToksOf;
    if !b.Raw? { SpellsSize(ToksOf(b), 0, d, i); }
  }

  lemma {:induction false} ChunkRead(data: seq<byte>, bits: seq<bool>, pos: nat, out: seq<byte>, max: nat)
      returns (b: Chunk)
    requires bits == BytesToBits(data) && NextBlock(data, bits, pos, out, max).Ok?
    ensures Legal(b) && (b.Raw? ==> (pos + 3 + |b.pad|) % 8 == 0)
    ensures var ((final, d), end) := NextBlock(data, bits, pos, out, max).value;
            && out <= d && At(bits, pos, ChunkBits(b, final)) && end == pos + |ChunkBits(b, final)|
            && Adds(b, d, |out|)
  {
    hide At, ReadField, LsbBits, BytesToBits, BodyBits, Legal, Spells, ToksOf, Stored, Header, Block, FixedLit,
        FixedDist;
    var bfinal, btype := ReadField(bits, pos, 1).value, ReadField(bits, pos + 1, 2).value;
    FieldBits(bits, pos, 1, bfinal);
    FieldBits(bits, pos + 1, 2, btype);
    Pow2Values();
    if btype == 0 {
      b := RawRead(data, bits, pos + 3, out, max);
    } else if btype == 1 {
      b := FixedRead(data, bits, pos + 3, out, max);
    } else {
      b := OwnRead(data, bits, pos + 3, out, max);
    }
    AtJoin(bits, pos + 1, LsbBits(btype, 2), BodyBits(b));
    AtJoin(bits, pos, LsbBits(bfinal, 1), LsbBits(btype, 2) + BodyBits(b));
  }

  lemma {:induction false} LastChunk(bits: seq<bool>, pos: nat, b: Chunk, d: seq<byte>, i: nat)
    requires Legal(b) && (b.Raw? ==> (pos + 3 + |b.pad|) % 8 == 0) && At(bits, pos, ChunkBits(b, true))
    requires i <= |d| && Adds(b, d, i)
    ensures IsStream([b], bits, pos, pos + |ChunkBits(b, true)|, d, i)
  {
    hide At, ChunkBits, Legal, Adds, Size;
    SizeOf(b, d, i);
    assert [b][1..] == [] && d[..|d|] == d;
    assert Aligned([], pos + |ChunkBits(b, true)|) && SpellAll([], d, |d|);
  }

  lemma {:induction false} FirstChunk(bits: seq<bool>, pos: nat, b: Chunk, bs: seq<Chunk>, end: nat, d: seq<byte>,
      i: nat, j: nat)
    requires Legal(b) && (b.Raw? ==> (pos + 3 + |b.pad|) % 8 == 0) && At(bits, pos, ChunkBits(b, false))
    requires i <= j <= |d| && Adds(b, d[..j], i) && IsStream(bs, bits, pos + |ChunkBits(b, false)|, end, d, j)
    ensures IsStream([b] + bs, bits, pos, end, d, i)
  {
    hide At, ChunkBits, Legal, Adds, Size;
    SizeOf(b, d[..j], i);
    var all := [b] + bs;
    assert all[1..] == bs && all[0] == b;
    AtJoin(bits, pos, ChunkBits(b, false), StreamBits(bs));
  }

  lemma {:induction false} ChunksRead(data: seq<byte>, bits: seq<bool>, pos: nat, out: seq<byte>, max: nat)
      returns (bs: seq<Chunk>)
    requires bits == BytesToBits(data) && Blocks(data, bits, pos, out, max).Ok?
    ensures var (d, end) := Blocks(data, bits, pos, out, max).value;
            out <= d && IsStream(bs, bits, pos, end, d, |out|)
    decreases |bits| - pos
  {
    hide At, NextBlock, BytesToBits, ChunkBits, Legal, Adds, IsStream;
    var ((final, out'), p) := NextBlock(data, bits, pos, out, max).value;
    var b := ChunkRead(data, bits, pos, out, max);
    if final {
      LastChunk(bits, pos, b, out', |out|);
      bs := [b];
    } else {
      var (d, end) := Blocks(data, bits, p, out', max).value;
      var rest := ChunksRead(data, bits, p, out', max);
      assert d[..|out'|] == out';
      FirstChunk(bits, pos, b, rest, end, d, |out|, |out'|);
      bs := [b] + rest;
    }
  }

  /** Conversely, whatever decompresses, for any code lengths at all, starts with the bits of blocks that spell the
      output, and the bytes consumed are those that hold them. */
  lemma {:induction false} StreamRead(data: seq<byte>, d: seq<byte>, n: nat, max: nat) returns (bs: seq<Chunk>)
    requires Inflated(data, max) == Ok((d, n))
    ensures bs != [] && AllLegal(bs) && At(BytesToBits(data), 0, StreamBits(bs)) && Aligned(bs, 0) && SpellAll(bs, d, 0)
    ensures n == (|StreamBits(bs)| + 7) / 8 && |d| <= max
  {
    hide At, AllLegal, Aligned, SpellAll, StreamBits, Blocks, BytesToBits;
    bs := ChunksRead(data, BytesToBits(data), 0, [], max);
  }
}
