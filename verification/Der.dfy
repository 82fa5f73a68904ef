/** Tag-length-value structures of the distinguished encoding rules: the reader,
    the writer, and the validator of whole trees. */
module Der {
  import opened Bits
  import opened DerLength

  const SEQUENCE: byte := 0x30

  // ---------- Tags ----------

  predicate IsConstructed(tag: byte)
  {
    tag / 0x20 % 2 == 1
  }

  /** Universal numbers of primitive types. */
  predicate IsPrimitiveNumber(n: nat)
  {
    n in {0x01, 0x02, 0x03, 0x04, 0x05, 0x06, 0x0C, 0x13, 0x14, 0x16, 0x17, 0x18, 0x1C, 0x1E}
  }

  function CheckTag(tag: byte): (r: Parsed<()>)
  {
    var number := tag % 0x20;
    if number == 0x1F then Bad(UnknownTag(tag))
    else if tag >= 0x40 then Good(())
    else if IsPrimitiveNumber(number) then (if IsConstructed(tag) then Bad(NotPrimitive) else Good(()))
    else if number == 0x10 || number == 0x11 then (if IsConstructed(tag) then Good(()) else Bad(NotConstructed))
    else Bad(UnknownTag(tag))
  }

  /** Tags in low-number form, of a known type when universal, and constructed as that type requires. */
  ghost predicate LegalTag(tag: byte)
  {
    CheckTag(tag).Good?
  }

  // ---------- One value ----------

  datatype DerValue = DerValue(tag: byte, content: seq<byte>)

  /** The value at the start of buf and its length in bytes. */
  function ValueAt(buf: seq<byte>): (r: Parsed<(DerValue, nat)>)
    ensures r.Good? ==> 2 <= r.value.1 <= |buf| && |r.value.0.content| + 2 <= r.value.1
  {
    if buf == [] then Bad(UnexpectedEnd)
    else
      var _ :- CheckTag(buf[0]);
      var (n, k) :- LengthAt(buf, 1);
      if 1 + k + n > |buf| then Bad(UnexpectedEnd)
      else Good((DerValue(buf[0], buf[1 + k..1 + k + n]), 1 + k + n))
  }

  class DerReader {
    var buf: seq<byte>

    constructor (b: seq<byte>)
      ensures buf == b
    {
      buf := b;
    }

    /** Reads one value and moves past it; an error leaves the reader where it was. */
    method ReadTlv() returns (r: Parsed<DerValue>)
      modifies this
      ensures r.Good? ==> ValueAt(old(buf)).Good? && ValueAt(old(buf)).value.0 == r.value
                          && buf == old(buf)[ValueAt(old(buf)).value.1..]
      ensures r.Bad? ==> ValueAt(old(buf)) == Bad(r.error) && buf == old(buf)
    {
      hide CheckTag;
      if |buf| == 0 { return Bad(UnexpectedEnd); }
      var tag := buf[0];
      var ok := CheckTag(tag);
      if ok.Bad? { return Bad(ok.error); }
      LengthInTail(buf);
      var len := ParseLength(buf[1..]);
      if len.Bad? { return Bad(len.error); }
      var (length, headerLen) := len.value;
      var total := 1 + headerLen + length;
      if total > |buf| { return Bad(UnexpectedEnd); }
      var content := buf[1 + headerLen..1 + headerLen + length];
      buf := buf[total..];
      r := Good(DerValue(tag, content));
    }
  }

  lemma {:induction false} ValueInTail(s: seq<byte>, n: nat, pos: nat)
    requires 1 <= |s| && pos + n <= |s| - 1
    ensures BeValue(s[1..], pos, n) == BeValue(s, pos + 1, n)
  {
    if n > 0 { ValueInTail(s, n - 1, pos); }
  }

  lemma {:induction false} LengthInTail(s: seq<byte>)
    requires |s| >= 1
    ensures LengthAt(s[1..], 0) == LengthAt(s, 1)
  {
    hide BeValue;
    if |s| >= 2 && s[1] >= 0x80 && |s| - 1 >= 1 + (s[1] - 0x80) { ValueInTail(s, s[1] - 0x80, 1); }
  }

  /** Exactly one value. */
  function SingleValue(buf: seq<byte>): (r: Parsed<DerValue>)
  {
    var (v, n) :- ValueAt(buf);
    if n < |buf| then Bad(TrailingData) else Good(v)
  }

  method ParseSingle(buf: seq<byte>) returns (r: Parsed<DerValue>)
    ensures r == SingleValue(buf)
  {
    hide ValueAt;
    var reader := new DerReader(buf);
    var v := reader.ReadTlv();
    if v.Bad? { return Bad(v.error); }
    if |reader.buf| > 0 { return Bad(TrailingData); }
    r := v;
  }

  // ---------- Writing ----------

  function EncTlv(tag: byte, content: seq<byte>): (r: seq<byte>)
    ensures |r| >= 2
  {
    [tag] + (EncLen(|content|) + content)
  }

  method EncodeTlv(tag: byte, content: seq<byte>) returns (out: seq<byte>)
    requires |content| < WORD
    ensures out == EncTlv(tag, content)
  {
    hide BeBytes, EncLen;
    var len := EncodeLength(|content|);
    out := [tag];
    out := out + len;
    out := out + content;
    assert ([tag] + len) + content == [tag] + (len + content);
  }

  lemma {:induction false} SliceAt(s: seq<byte>, pos: nat, t: seq<byte>)
    requires BytesAt(s, pos, t)
    ensures pos + |t| <= |s| && s[pos..pos + |t|] == t
  {
    forall i | 0 <= i < |t|
      ensures s[pos..pos + |t|][i] == t[i]
    {
      assert s[pos + i] == t[i];
    }
  }

  /** The parts of a value that was written. */
  lemma {:induction false} TlvParts(buf: seq<byte>, tag: byte, content: seq<byte>, tail: seq<byte>)
    requires buf == EncTlv(tag, content) + tail
    ensures |buf| > 0 && buf[0] == tag && BytesAt(buf, 1, EncLen(|content|))
    ensures BytesAt(buf, 1 + |EncLen(|content|)|, content)
  {
    hide EncLen;
    var len := EncLen(|content|);
    assert buf == [tag] + ((len + content) + tail);
    RestAt(buf, tag, (len + content) + tail);
    BytesAtSplit(buf, 1, len + content, tail);
    BytesAtSplit(buf, 1, len, content);
  }

  /** A value written with a legal tag is read back, whatever follows it. */
  lemma {:induction false} ValueBack(buf: seq<byte>, tag: byte, content: seq<byte>, tail: seq<byte>)
    requires |content| < LIMIT && LegalTag(tag) && buf == EncTlv(tag, content) + tail
    ensures ValueAt(buf) == Good((DerValue(tag, content), |EncTlv(tag, content)|))
  {
    hide CheckTag, EncLen, LengthAt, BytesAt;
    TlvParts(buf, tag, content, tail);
    LengthBack(buf, 1, |content|);
    SliceAt(buf, 1 + |EncLen(|content|)|, content);
  }

  lemma {:induction false} RestAt(s: seq<byte>, b: byte, t: seq<byte>)
    requires s == [b] + t
    ensures BytesAt(s, 1, t)
  {
  }

  /** A value that is read stands there as the writer would write it. */
  lemma {:induction false} ValueCanonical(buf: seq<byte>)
    requires ValueAt(buf).Good?
    ensures var (v, n) := ValueAt(buf).value;
            && LegalTag(v.tag) && |v.content| < LIMIT
            && |EncTlv(v.tag, v.content)| == n && buf == EncTlv(v.tag, v.content) + buf[n..]
  {
    hide CheckTag, BeBytes, EncLen, LengthAt, BytesAt;
    var (v, n) := ValueAt(buf).value;
    LengthCanonical(buf, 1);
    var len := EncLen(|v.content|);
    SliceAt(buf, 1, len);
    var k := |len|;
    assert buf == [buf[0]] + (buf[1..1 + k] + buf[1 + k..n]) + buf[n..];
  }

  // ---------- Trees ----------

  datatype Tree = Leaf(tag: byte, content: seq<byte>) | Branch(tag: byte, kids: Forest)

  datatype Forest = None | More(first: Tree, rest: Forest)

  /** The bytes of a tree, or of trees one after the other. */
  function Ser(t: Tree): (s: seq<byte>)
    ensures |s| >= 2
  {
    match t
    case Leaf(tag, content) => EncTlv(tag, content)
    case Branch(tag, kids) => EncTlv(tag, SerAll(kids))
  }

  function SerAll(f: Forest): (s: seq<byte>)
  {
    match f
    case None => []
    case More(first, rest) => Ser(first) + SerAll(rest)
  }

  /** Legal tags, constructed exactly for branches, and contents below 2^32 bytes. */
  ghost predicate Legal(t: Tree)
  {
    match t
    case Leaf(tag, content) => LegalTag(tag) && !IsConstructed(tag) && |content| < LIMIT
    case Branch(tag, kids) => LegalTag(tag) && IsConstructed(tag) && LegalAll(kids) && |SerAll(kids)| < LIMIT
  }

  ghost predicate LegalAll(f: Forest)
  {
    match f
    case None => true
    case More(first, rest) => Legal(first) && LegalAll(rest)
  }

  function Max(a: nat, b: nat): nat
  {
    if a >= b then a else b
  }

  /** Nested constructed levels. */
  function Levels(t: Tree): (n: nat)
  {
    match t
    case Leaf(_, _) => 0
    case Branch(_, kids) => 1 + LevelsAll(kids)
  }

  function LevelsAll(f: Forest): (n: nat)
  {
    match f
    case None => 0
    case More(first, rest) => Max(Levels(first), LevelsAll(rest))
  }

  /** The trees whose bytes are buf, to any depth. */
  function ParseAll(buf: seq<byte>): (r: Parsed<Forest>)
    decreases |buf|
  {
    if buf == [] then Good(None)
    else
      var (v, n) :- ValueAt(buf);
      var kids :- if IsConstructed(v.tag) then ParseAll(v.content) else Good(None);
      var rest :- ParseAll(buf[n..]);
      Good(More(if IsConstructed(v.tag) then Branch(v.tag, kids) else Leaf(v.tag, v.content), rest))
  }

  /** Trees are read back. */
  lemma {:induction false} ForestBack(f: Forest)
    requires LegalAll(f)
    ensures ParseAll(SerAll(f)) == Good(f)
  {
    hide EncTlv, ValueAt, LegalTag, IsConstructed;
    match f
    case None =>
    case More(first, rest) =>
      var s, n := SerAll(f), |Ser(first)|;
      ForestBack(rest);
      assert s[n..] == SerAll(rest);
      match first
      case Leaf(tag, content) =>
        ValueBack(s, tag, content, SerAll(rest));
      case Branch(tag, kids) =>
        ForestBack(kids);
        ValueBack(s, tag, SerAll(kids), SerAll(rest));
  }

  /** What is read as trees is the bytes of legal trees. */
  lemma {:induction false} ForestCanonical(buf: seq<byte>)
    requires ParseAll(buf).Good?
    ensures LegalAll(ParseAll(buf).value) && SerAll(ParseAll(buf).value) == buf
    decreases |buf|
  {
    hide EncTlv, ValueAt, LegalTag, IsConstructed;
    if buf != [] {
      var (v, n) := ValueAt(buf).value;
      ValueCanonical(buf);
      ForestCanonical(buf[n..]);
      if IsConstructed(v.tag) { ForestCanonical(v.content); }
    }
  }

  // ---------- The validator ----------

  /** The values of a buffer at a nesting depth. */
  function Walk(buf: seq<byte>, depth: nat, max: nat): (r: Parsed<()>)
    decreases |buf|, 1
  {
    if depth > max then Bad(MaxDepthExceeded) else WalkOn(buf, depth, max)
  }

  function WalkOn(buf: seq<byte>, depth: nat, max: nat): (r: Parsed<()>)
    decreases |buf|, 0
  {
    if buf == [] then Good(())
    else
      var (v, n) :- ValueAt(buf);
      var _ :- if IsConstructed(v.tag) then Walk(v.content, depth + 1, max) else Good(());
      WalkOn(buf[n..], depth, max)
  }

  function Validated(buf: seq<byte>, max: nat): (r: Parsed<()>)
  {
    var v :- SingleValue(buf);
    if IsConstructed(v.tag) then Walk(v.content, 1, max) else Good(())
  }

  method WalkValues(buf: seq<byte>, depth: nat, max: nat) returns (r: Parsed<()>)
    ensures r == Walk(buf, depth, max)
    decreases |buf|
  {
    hide ValueAt;
    if depth > max { return Bad(MaxDepthExceeded); }
    var reader := new DerReader(buf);
    while |reader.buf| > 0
      invariant |reader.buf| <= |buf| && WalkOn(reader.buf, depth, max) == WalkOn(buf, depth, max)
      decreases |reader.buf|
    {
      var v := reader.ReadTlv();
      if v.Bad? { return Bad(v.error); }
      if IsConstructed(v.value.tag) {
        var inner := WalkValues(v.value.content, depth + 1, max);
        if inner.Bad? { return Bad(inner.error); }
      }
    }
    r := Good(());
  }

  method ValidateDerTree(buf: seq<byte>, max: nat) returns (r: Parsed<()>)
    ensures r == Validated(buf, max)
  {
    hide SingleValue, Walk;
    var v := ParseSingle(buf);
    if v.Bad? { return Bad(v.error); }
    if IsConstructed(v.value.tag) {
      r := WalkValues(v.value.content, 1, max);
    } else {
      r := Good(());
    }
  }

  lemma {:induction false} WalkOnAccepts(buf: seq<byte>, depth: nat, max: nat)
    requires depth <= max
    ensures WalkOn(buf, depth, max).Good? <==> ParseAll(buf).Good? && depth + LevelsAll(ParseAll(buf).value) <= max
    decreases |buf|
  {
    hide ValueAt, IsConstructed;
    if buf != [] && ValueAt(buf).Good? {
      var (v, n) := ValueAt(buf).value;
      WalkOnAccepts(buf[n..], depth, max);
      if IsConstructed(v.tag) && depth + 1 <= max { WalkOnAccepts(v.content, depth + 1, max); }
    }
  }

  /** buf is the bytes of one legal tree with at most max constructed levels. */
  ghost predicate IsTree(buf: seq<byte>, t: Tree, max: nat)
  {
    Legal(t) && Ser(t) == buf && Levels(t) <= max
  }

  lemma {:induction false} AcceptedIsTree(buf: seq<byte>, max: nat) returns (t: Tree)
    requires Validated(buf, max).Good?
    ensures IsTree(buf, t, max)
  {
    hide ValueAt, EncTlv, LegalTag, IsConstructed;
    var (v, n) := ValueAt(buf).value;
    ValueCanonical(buf);
    assert buf[n..] == [];
    if IsConstructed(v.tag) {
      WalkOnAccepts(v.content, 1, max);
      ForestCanonical(v.content);
      t := Branch(v.tag, ParseAll(v.content).value);
    } else {
      t := Leaf(v.tag, v.content);
    }
  }

  lemma {:induction false} TreeIsAccepted(buf: seq<byte>, t: Tree, max: nat)
    requires IsTree(buf, t, max)
    ensures Validated(buf, max).Good?
  {
    hide ValueAt, EncTlv, LegalTag, IsConstructed;
    assert buf + [] == buf;
    match t
    case Leaf(tag, content) =>
      ValueBack(buf, tag, content, []);
    case Branch(tag, kids) =>
      ValueBack(buf, tag, SerAll(kids), []);
      ForestBack(kids);
      WalkOnAccepts(SerAll(kids), 1, max);
  }

  /** The validator accepts exactly the bytes of legal trees nested at most max levels deep. */
  lemma {:induction false} ValidatorExact(buf: seq<byte>, max: nat)
    ensures Validated(buf, max).Good? <==> exists t :: IsTree(buf, t, max)
  {
    hide IsTree, Validated;
    if Validated(buf, max).Good? { var t := AcceptedIsTree(buf, max); }
    if exists t :: IsTree(buf, t, max) {
      var t :| IsTree(buf, t, max);
      TreeIsAccepted(buf, t, max);
    }
  }

  /** Bytes stand for one tree. */
  lemma {:induction false} TreeIsUnique(t: Tree, u: Tree)
    requires Legal(t) && Legal(u) && Ser(t) == Ser(u)
    ensures t == u
  {
    hide Ser;
    ForestBack(More(t, None));
    ForestBack(More(u, None));
  }

  // ---------- Sequences ----------

  function Joined(items: seq<seq<byte>>, n: nat): (r: seq<byte>)
    requires n <= |items|
  {
    if n == 0 then [] else Joined(items, n - 1) + items[n - 1]
  }

  method EncodeSequence(items: seq<seq<byte>>) returns (out: seq<byte>)
    requires |Joined(items, |items|)| < WORD
    ensures out == EncTlv(SEQUENCE, Joined(items, |items|))
  {
    hide EncTlv;
    var content := [];
    for i := 0 to |items|
      invariant content == Joined(items, i)
    {
      content := content + items[i];
    }
    out := EncodeTlv(SEQUENCE, content);
  }

  /** The bytes of n trees one after the other. */
  ghost function ForestOf(ts: seq<Tree>, k: nat): (f: Forest)
    requires k <= |ts|
    decreases |ts| - k
  {
    if k == |ts| then None else More(ts[k], ForestOf(ts, k + 1))
  }

  lemma {:induction false} JoinedSer(ts: seq<Tree>, items: seq<seq<byte>>, k: nat)
    requires |items| == |ts| && k <= |ts| && forall i :: 0 <= i < |ts| ==> items[i] == Ser(ts[i])
    ensures Joined(items, k) + SerAll(ForestOf(ts, k)) == Joined(items, |items|)
    decreases |ts| - k
  {
    hide Ser;
    if k < |ts| {
      JoinedSer(ts, items, k + 1);
      var a, b, c := Joined(items, k), Ser(ts[k]), SerAll(ForestOf(ts, k + 1));
      assert (a + b) + c == a + (b + c);
    }
  }

  lemma {:induction false} ForestLegal(ts: seq<Tree>, k: nat)
    requires k <= |ts| && forall i :: 0 <= i < |ts| ==> Legal(ts[i])
    ensures LegalAll(ForestOf(ts, k))
    decreases |ts| - k
  {
    hide Legal;
    if k < |ts| { ForestLegal(ts, k + 1); }
  }

  /** A sequence of encoded trees is the encoding of a tree: the sequence of them. */
  lemma {:induction false} SequenceOfTrees(ts: seq<Tree>, items: seq<seq<byte>>)
    requires |items| == |ts| && forall i :: 0 <= i < |ts| ==> Legal(ts[i]) && items[i] == Ser(ts[i])
    requires |Joined(items, |items|)| < LIMIT
    ensures var t := Branch(SEQUENCE, ForestOf(ts, 0)); Legal(t) && Ser(t) == EncTlv(SEQUENCE, Joined(items, |items|))
  {
    JoinedSer(ts, items, 0);
    ForestLegal(ts, 0);
    assert [] + SerAll(ForestOf(ts, 0)) == SerAll(ForestOf(ts, 0));
  }
}
