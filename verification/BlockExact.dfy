/** Which bits a compressed block consists of: the decoder accepts exactly the codes and extra bits of literals and
    copies that spell its output, followed by the end symbol. */
module BlockExact {
  import opened Bits
  import opened BitIO
  import opened Huffman
  import opened Lz77
  import opened DeflateTables
  import opened Inflate
  import opened TokenCode

  /** A literal, or the codes of a length and a distance with their extra bits. Length 258 can be given in two ways. */
  datatype Item = Literal(b: byte) | Pair(lc: nat, lx: nat, dc: nat, dx: nat)

  /** An item of the format, whose symbols have codes. */
  ghost predicate CodesItem(u: Item, ll: seq<nat>, dl: seq<nat>)
  {
    match u
    case Literal(b) => b < |ll| && ll[b] > 0
    case Pair(lc, lx, dc, dx) =>
      && lc < 29 && lx < Pow2(LengthExtra(lc)) && 257 + lc < |ll| && ll[257 + lc] > 0
      && dc < 30 && dx < Pow2(DistExtra(dc)) && dc < |dl| && dl[dc] > 0
  }

  ghost function ItemBits(u: Item, ll: seq<nat>, dl: seq<nat>): (w: seq<bool>)
    requires CodesItem(u, ll, dl)
  {
    match u
    case Literal(b) => CodeBits(ll, b)
    case Pair(lc, lx, dc, dx) => CodeBits(ll, 257 + lc) + PairBits(lc, lx, dc, dx, dl)
  }

  /** The token that an item stands for. */
  function ItemTok(u: Item): (t: Tok)
    requires u.Pair? ==> u.lc < 29 && u.dc < 30
  {
    match u
    case Literal(b) => Lit(b)
    case Pair(lc, lx, dc, dx) => Match(LengthBase(lc) + lx, DistBase(dc) + dx)
  }

  ghost predicate AllItems(us: seq<Item>, ll: seq<nat>, dl: seq<nat>)
  {
    forall k :: 0 <= k < |us| ==> CodesItem(us[k], ll, dl)
  }

  /** The items and the end of the block. */
  ghost function ItemsBits(us: seq<Item>, ll: seq<nat>, dl: seq<nat>): (w: seq<bool>)
    requires AllItems(us, ll, dl) && END_OF_BLOCK < |ll|
  {
    if us == [] then CodeBits(ll, END_OF_BLOCK) else ItemBits(us[0], ll, dl) + ItemsBits(us[1..], ll, dl)
  }

  ghost function ItemToks(us: seq<Item>, ll: seq<nat>, dl: seq<nat>): (toks: seq<Tok>)
    requires AllItems(us, ll, dl)
    ensures |toks| == |us|
  {
    if us == [] then [] else [ItemTok(us[0])] + ItemToks(us[1..], ll, dl)
  }

  lemma {:induction false} SpellsTail(toks: seq<Tok>, k: nat, d: seq<byte>, i: nat)
    requires 1 <= k <= |toks|
    ensures Spells(toks, k, d, i) <==> Spells(toks[1..], k - 1, d, i)
    decreases |toks| - k
  {
    hide Repeats;
    if k < |toks| { SpellsTail(toks, k + 1, d, i + TokSize(toks[k])); }
  }

  /** Items spell what their tokens spell, one after the other. */
  lemma {:induction false} ItemsSpell(us: seq<Item>, ll: seq<nat>, dl: seq<nat>, d: seq<byte>, i: nat)
    requires AllItems(us, ll, dl) && us != []
    ensures Spells(ItemToks(us, ll, dl), 0, d, i) <==>
              var t := ItemTok(us[0]);
              TokOf(t, d, i) && Spells(ItemToks(us[1..], ll, dl), 0, d, i + TokSize(t))
  {
    hide Repeats, ItemTok;
    var toks := ItemToks(us, ll, dl);
    assert toks[0] == ItemTok(us[0]) && toks[1..] == ItemToks(us[1..], ll, dl);
    SpellsTail(toks, 1, d, i + TokSize(toks[0]));
  }

  /** The bits from pos to end are items that spell the bytes of d from i on, and the end of the block. */
  ghost predicate IsBlock(us: seq<Item>, ll: seq<nat>, dl: seq<nat>, bits: seq<bool>, pos: nat, end: nat, d: seq<byte>,
      i: nat)
  {
    && END_OF_BLOCK < |ll| && ll[END_OF_BLOCK] > 0 && AllItems(us, ll, dl)
    && At(bits, pos, ItemsBits(us, ll, dl)) && end == pos + |ItemsBits(us, ll, dl)|
    && Spells(ItemToks(us, ll, dl), 0, d, i)
  }

  // ---------- What is accepted are items ----------

  lemma {:induction false} FieldBits(bits: seq<bool>, pos: nat, n: nat, v: nat)
    requires ReadField(bits, pos, n) == Ok(v)
    ensures v < Pow2(n) && At(bits, pos, LsbBits(v, n))
  {
    FieldBound(bits, pos, n);
    AtField(bits, pos, n);
  }

  /** The bits read are the bits of the number read. */
  lemma {:induction false} AtField(bits: seq<bool>, pos: nat, n: nat)
    requires pos + n <= |bits|
    ensures At(bits, pos, LsbBits(Field(bits, pos, n), n))
  {
    hide LsbBits, Field;
    if n == 0 {
    } else {
      AtField(bits, pos, n - 1);
      LastBit(bits, pos, n);
      AtSnoc(bits, pos, LsbBits(Field(bits, pos, n - 1), n - 1), bits[pos + n - 1]);
    }
  }

  lemma {:induction false} LastBit(bits: seq<bool>, pos: nat, n: nat)
    requires n > 0 && pos + n <= |bits|
    ensures LsbBits(Field(bits, pos, n), n) == LsbBits(Field(bits, pos, n - 1), n - 1) + [bits[pos + n - 1]]
  {
    FieldBound(bits, pos, n - 1);
    LsbConcat(Field(bits, pos, n - 1), n - 1, B2N(bits[pos + n - 1]), 1);
    OneBit(B2N(bits[pos + n - 1]));
  }

  /** The length and the distance that are read were written with these codes and extra bits. */
  lemma {:induction false} PairRead(lc: nat, bits: seq<bool>, pos: nat, dl: seq<nat>) returns (u: Item)
    requires lc < 29 && MatchAt(lc, bits, pos, dl).Ok?
    ensures u.Pair? && u.lc == lc && u.dc < 30 && u.lx < Pow2(LengthExtra(lc)) && u.dx < Pow2(DistExtra(u.dc))
    ensures u.dc < |dl| && dl[u.dc] > 0 && At(bits, pos, PairBits(lc, u.lx, u.dc, u.dx, dl))
    ensures var t := ItemTok(u);
            MatchAt(lc, bits, pos, dl) == Ok(((t.len, t.dist), pos + |PairBits(lc, u.lx, u.dc, u.dx, dl)|))
  {
    hide At, ReadField, Decode, LengthBase, LengthExtra, DistBase, DistExtra, CodeBits, LsbBits, Pow2;
    var lx := ReadField(bits, pos, LengthExtra(lc)).value;
    var q := pos + LengthExtra(lc);
    var (dc, p) := Decode(dl, bits, q).value;
    var dx := ReadField(bits, p, DistExtra(dc)).value;
    FieldBits(bits, pos, LengthExtra(lc), lx);
    DecodeSound(dl, bits, q);
    FieldBits(bits, p, DistExtra(dc), dx);
    AtJoin(bits, q, CodeBits(dl, dc), LsbBits(dx, DistExtra(dc)));
    AtJoin(bits, pos, LsbBits(lx, LengthExtra(lc)), CodeBits(dl, dc) + LsbBits(dx, DistExtra(dc)));
    u := Pair(lc, lx, dc, dx);
  }

  /** Lengths and distances of the format. */
  lemma {:induction false} PairInRange(lc: nat, lx: nat, dc: nat, dx: nat)
    requires lc < 29 && lx < Pow2(LengthExtra(lc)) && dc < 30 && dx < Pow2(DistExtra(dc))
    ensures 3 <= LengthBase(lc) + lx <= 258 && 1 <= DistBase(dc) + dx <= 32768
  {
    Pow2Values();
  }

  lemma {:induction false} CopySpells(out: seq<byte>, d: seq<byte>, len: nat, dist: nat)
    requires 1 <= dist <= |out| && 3 <= len <= 258 && dist <= 32768 && Copy(out, dist, len) <= d
    ensures out <= d && TokOf(Match(len, dist), d, |out|)
  {
    hide Copy;
    CopyRepeats(out, dist, len);
    var i, r := |out|, Copy(out, dist, len);
    assert out == d[..i] by { assert r[..i] == d[..i]; }
    forall x | 0 <= x < len
      ensures CopiedByte(d, i, dist, x)
    {
      assert r[i + x] == r[i + x - dist];
    }
  }

  lemma {:induction false} LiteralSpells(out: seq<byte>, d: seq<byte>, b: byte)
    requires out + [b] <= d
    ensures out <= d && TokOf(Lit(b), d, |out|)
  {
    assert (out + [b])[|out|] == d[|out|];
    assert out == (out + [b])[..|out|];
  }

  lemma {:induction false} ItemsMore(u: Item, us: seq<Item>, ll: seq<nat>, dl: seq<nat>)
    requires CodesItem(u, ll, dl) && AllItems(us, ll, dl) && END_OF_BLOCK < |ll|
    ensures AllItems([u] + us, ll, dl)
    ensures ItemsBits([u] + us, ll, dl) == ItemBits(u, ll, dl) + ItemsBits(us, ll, dl)
  {
    hide CodesItem, ItemBits;
    assert ([u] + us)[1..] == us;
  }

  lemma {:induction false} FirstItem(u: Item, us: seq<Item>, ll: seq<nat>, dl: seq<nat>, bits: seq<bool>, pos: nat,
      q: nat, end: nat, d: seq<byte>, i: nat)
    requires CodesItem(u, ll, dl) && At(bits, pos, ItemBits(u, ll, dl)) && q == pos + |ItemBits(u, ll, dl)|
    requires TokOf(ItemTok(u), d, i) && IsBlock(us, ll, dl, bits, q, end, d, i + TokSize(ItemTok(u)))
    ensures IsBlock([u] + us, ll, dl, bits, pos, end, d, i)
  {
    hide At, ItemBits, CodesItem, TokOf, ItemTok, TokSize, ItemToks, Spells, AllItems, ItemsBits;
    var all := [u] + us;
    assert all[1..] == us && all[0] == u;
    ItemsMore(u, us, ll, dl);
    ItemsSpell(all, ll, dl, d, i);
    AtJoin(bits, pos, ItemBits(u, ll, dl), ItemsBits(us, ll, dl));
  }

  lemma {:induction false} NoItem(ll: seq<nat>, dl: seq<nat>, bits: seq<bool>, pos: nat, end: nat, d: seq<byte>)
    requires ReadCode(ll, bits, pos, END_OF_BLOCK, end)
    ensures IsBlock([], ll, dl, bits, pos, end, d, |d|)
  {
  }

  /** Whatever the code lengths, the bits of a block that is accepted are items that spell what it adds to the output,
      and the end symbol. */
  lemma {:induction false} BlockRead(ll: seq<nat>, dl: seq<nat>, bits: seq<bool>, pos: nat, out: seq<byte>, max: nat)
      returns (us: seq<Item>)
    requires Block(bits, pos, out, ll, dl, max).Ok?
    ensures var (d, end) := Block(bits, pos, out, ll, dl, max).value;
            out <= d && IsBlock(us, ll, dl, bits, pos, end, d, |out|)
    decreases |bits| - pos
  {
    hide At, Decode, MatchAt, Copy, CodeBits, IsBlock, ItemsBits, TokOf, LengthBase, DistBase, Pow2, PairBits;
    var (sym, p) := Decode(ll, bits, pos).value;
    var (d, end) := Block(bits, pos, out, ll, dl, max).value;
    DecodeSound(ll, bits, pos);
    if sym == END_OF_BLOCK {
      NoItem(ll, dl, bits, pos, end, d);
      us := [];
    } else if sym < 256 {
      var rest := BlockRead(ll, dl, bits, p, out + [sym], max);
      LiteralSpells(out, d, sym);
      FirstItem(Literal(sym), rest, ll, dl, bits, pos, p, end, d, |out|);
      us := [Literal(sym)] + rest;
    } else {
      var lc := sym - 257;
      var ((len, dist), q) := MatchAt(lc, bits, p, dl).value;
      var u := PairRead(lc, bits, p, dl);
      PairInRange(lc, u.lx, u.dc, u.dx);
      var rest := BlockRead(ll, dl, bits, q, Copy(out, dist, len), max);
      CopySpells(out, d, len, dist);
      AtJoin(bits, pos, CodeBits(ll, sym), PairBits(lc, u.lx, u.dc, u.dx, dl));
      FirstItem(u, rest, ll, dl, bits, pos, q, end, d, |out|);
      us := [u] + rest;
    }
  }

  // ---------- Items are accepted ----------

  /** Under prefix codes, items that spell d from where out ends decode to d. */
  lemma {:induction false} ItemsBack(us: seq<Item>, ll: seq<nat>, dl: seq<nat>, bits: seq<bool>, pos: nat, end: nat,
      out: seq<byte>, d: seq<byte>, max: nat)
    requires PrefixCode(ll, 15) && PrefixCode(dl, 15) && |d| <= max
    requires IsBlock(us, ll, dl, bits, pos, end, d, |out|) && Rebuilt(out, d, |out|)
    ensures Block(bits, pos, out, ll, dl, max) == Ok((d, end))
    decreases |us|
  {
    hide At, Block, Decode, PrefixCode, CodeBits, Rebuilt, TokOf, TokSize, ItemTok, ItemBits, CodesItem,
        ItemToks;
    if us == [] {
      DecodeWritten(ll, 15, END_OF_BLOCK, bits, pos);
      WholeRebuilt(out, d);
      EndStep(bits, pos, out, ll, dl, max, end);
    } else {
      ItemsSpell(us, ll, dl, d, |out|);
      AtSplit(bits, pos, ItemBits(us[0], ll, dl), ItemsBits(us[1..], ll, dl));
      var out' := ItemStep(us[0], ll, dl, bits, pos, out, d, max);
      ItemsBack(us[1..], ll, dl, bits, pos + |ItemBits(us[0], ll, dl)|, end, out', d, max);
    }
  }

  lemma {:induction false} WholeRebuilt(out: seq<byte>, d: seq<byte>)
    requires Rebuilt(out, d, |d|)
    ensures out == d
  {
  }

  lemma {:induction false} ItemStep(u: Item, ll: seq<nat>, dl: seq<nat>, bits: seq<bool>, pos: nat, out: seq<byte>,
      d: seq<byte>, max: nat)
      returns (out': seq<byte>)
    requires PrefixCode(ll, 15) && PrefixCode(dl, 15) && CodesItem(u, ll, dl) && At(bits, pos, ItemBits(u, ll, dl))
    requires Rebuilt(out, d, |out|) && TokOf(ItemTok(u), d, |out|) && |d| <= max
    ensures |out'| == |out| + TokSize(ItemTok(u)) && Rebuilt(out', d, |out'|)
    ensures Block(bits, pos, out, ll, dl, max) == Block(bits, pos + |ItemBits(u, ll, dl)|, out', ll, dl, max)
  {
    hide At, Block, Decode, PrefixCode, MatchAt, PairBits, Copy, CodeBits, Repeats, LengthBase, DistBase, Pow2;
    match u
    case Literal(b) =>
      DecodeWritten(ll, 15, b, bits, pos);
      LitStep(bits, pos, out, ll, dl, max, b, pos + ll[b]);
      out' := out + [b];
    case Pair(lc, lx, dc, dx) =>
      var p := pos + ll[257 + lc];
      var len, dist := LengthBase(lc) + lx, DistBase(dc) + dx;
      AtSplit(bits, pos, CodeBits(ll, 257 + lc), PairBits(lc, lx, dc, dx, dl));
      DecodeWritten(ll, 15, 257 + lc, bits, pos);
      PairBack(lc, lx, dc, dx, dl, bits, p);
      RepeatsInside(d, |out|, len, dist);
      CopyStep(bits, pos, out, ll, dl, max, lc, p, len, dist, p + |PairBits(lc, lx, dc, dx, dl)|);
      CopyRebuilds(out, d, |out|, len, dist, len);
      out' := Copy(out, dist, len);
  }

  ghost predicate HasItems(ll: seq<nat>, dl: seq<nat>, bits: seq<bool>, pos: nat, end: nat, d: seq<byte>)
  {
    exists us :: IsBlock(us, ll, dl, bits, pos, end, d, 0)
  }

  /** Under prefix codes a block decodes to d exactly when its bits are items that spell d, which must fit the limit,
      and the end symbol. */
  lemma {:induction false} BlockDecodesExactly(ll: seq<nat>, dl: seq<nat>, bits: seq<bool>, pos: nat, end: nat,
      d: seq<byte>, max: nat)
    requires PrefixCode(ll, 15) && PrefixCode(dl, 15)
    ensures Block(bits, pos, [], ll, dl, max) == Ok((d, end)) <==> |d| <= max && HasItems(ll, dl, bits, pos, end, d)
  {
    hide Block, IsBlock, PrefixCode;
    if Block(bits, pos, [], ll, dl, max) == Ok((d, end)) {
      var us := BlockRead(ll, dl, bits, pos, [], max);
    }
    if |d| <= max && HasItems(ll, dl, bits, pos, end, d) {
      var us :| IsBlock(us, ll, dl, bits, pos, end, d, 0);
      ItemsBack(us, ll, dl, bits, pos, end, [], d, max);
    }
  }

  // ---------- Items and tokens ----------

  /** An item is written as its token is, except for length 258 given as 227 plus 31. */
  lemma {:induction false} ItemIsToken(u: Item, ll: seq<nat>, dl: seq<nat>)
    requires CodesItem(u, ll, dl) && !(u.Pair? && u.lc == 27 && u.lx == 31)
    ensures CodesTok(ItemTok(u), ll, dl) && ItemBits(u, ll, dl) == TokBits(ItemTok(u), ll, dl)
  {
    hide CodeBits, PairBits, Pow2, LengthBase, DistBase, LengthExtra, DistExtra, LengthCode, DistCode;
    match u
    case Literal(b) =>
      assert CodeBits(ll, b) + [] == CodeBits(ll, b);
    case Pair(lc, lx, dc, dx) =>
      PairIsToken(lc, lx, dc, dx, ll, dl);
  }

  lemma {:induction false} PairIsToken(lc: nat, lx: nat, dc: nat, dx: nat, ll: seq<nat>, dl: seq<nat>)
    requires CodesItem(Pair(lc, lx, dc, dx), ll, dl) && !(lc == 27 && lx == 31)
    ensures var t := Match(LengthBase(lc) + lx, DistBase(dc) + dx);
            CodesTok(t, ll, dl) && SymOf(t) == 257 + lc && MatchBits(t, dl) == PairBits(lc, lx, dc, dx, dl)
  {
    hide PairBits, Pow2, LengthBase, DistBase, LengthExtra, DistExtra, LengthCode, DistCode;
    PairInRange(lc, lx, dc, dx);
    LengthCodeOf(lc, lx);
    DistCodeOf(dc, dx);
  }

  lemma {:induction false} LengthCodeOf(lc: nat, lx: nat)
    requires lc < 29 && lx < Pow2(LengthExtra(lc)) && !(lc == 27 && lx == 31)
    ensures LengthCode(LengthBase(lc) + lx) == lc
  {
    hide LengthCodeTo, LengthBase;
    if lc < 28 { LengthGap(lc, lx); }
    LengthCodeAt(LengthBase(lc) + lx, lc, 28);
  }

  lemma {:induction false} LengthGap(lc: nat, lx: nat)
    requires lc < 28 && lx < Pow2(LengthExtra(lc)) && !(lc == 27 && lx == 31)
    ensures LengthBase(lc) + lx < LengthBase(lc + 1)
  {
    Pow2Values();
  }

  /** The code whose range holds the length is the one found. */
  lemma {:induction false} LengthCodeAt(len: nat, lc: nat, c: nat)
    requires lc <= c < 29 && LengthBase(lc) <= len && (lc < 28 ==> len < LengthBase(lc + 1))
    ensures LengthCodeTo(len, c) == lc && (lc < c ==> len < LengthBase(c))
    decreases c
  {
    hide LengthBase;
    if lc < c {
      LengthCodeAt(len, lc, c - 1);
      LengthWidth(c - 1);
    }
  }

  lemma {:induction false} DistCodeOf(dc: nat, dx: nat)
    requires dc < 30 && dx < Pow2(DistExtra(dc))
    ensures DistCode(DistBase(dc) + dx) == dc
  {
    hide DistCodeTo, DistBase, DistExtra, Pow2;
    if dc < 29 { DistWidth(dc); }
    DistCodeAt(DistBase(dc) + dx, dc, 29);
  }

  lemma {:induction false} DistCodeAt(dist: nat, dc: nat, c: nat)
    requires dc <= c < 30 && DistBase(dc) <= dist && (dc < 29 ==> dist < DistBase(dc + 1))
    ensures DistCodeTo(dist, c) == dc && (dc < c ==> dist < DistBase(c))
    decreases c
  {
    hide DistBase;
    if dc < c {
      DistCodeAt(dist, dc, c - 1);
      DistWidth(c - 1);
    }
  }
}
