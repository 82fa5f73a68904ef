/** Huffman-coded strings of HPACK (section 5.2 of RFC 7541): the trie, the
    decoder's walk, and exactly what it accepts. */
module HpackHuffman {
  import opened Bits
  import opened HpackInteger

  /** Code and length of each symbol. */
  type Table = seq<(nat, nat)>

  const EOS: nat := 256

  function Code(t: Table, s: nat): (c: seq<bool>)
    requires s < |t|
    ensures |c| == t[s].1
  {
    MsbBits(t[s].0, t[s].1)
  }

  ghost predicate IsPrefix(p: seq<bool>, c: seq<bool>)
  {
    |p| <= |c| && forall i :: 0 <= i < |p| ==> p[i] == c[i]
  }

  predicate AllOnes(p: seq<bool>)
  {
    forall i :: 0 <= i < |p| ==> p[i]
  }

  ghost predicate Apart(t: Table, s: nat, u: nat)
    requires s < |t| && u < |t|
  {
    s != u ==> !IsPrefix(Code(t, s), Code(t, u))
  }

  /** A prefix-free code for the 256 bytes and an end symbol of at least eight ones. */
  ghost predicate GoodTable(t: Table)
  {
    && |t| == 257 && (forall s :: 0 <= s < |t| ==> t[s].1 > 0)
    && (forall s, u :: 0 <= s < |t| && 0 <= u < |t| ==> Apart(t, s, u))
    && t[EOS].1 >= 8 && AllOnes(Code(t, EOS))
  }

  // ---------- The walk ----------

  /** The symbol below n whose code is q, or -1. */
  function FindCode(t: Table, q: seq<bool>, n: nat): (s: int)
    requires n <= |t|
    ensures -1 <= s < n && (s >= 0 ==> Code(t, s) == q)
    ensures s < 0 ==> forall u :: 0 <= u < n ==> Code(t, u) != q
  {
    if n == 0 then -1 else if Code(t, n - 1) == q then n - 1 else FindCode(t, q, n - 1)
  }

  ghost predicate HasPrefix(t: Table, q: seq<bool>)
  {
    exists s :: 0 <= s < |t| && IsPrefix(q, Code(t, s))
  }

  /** One bit: a code is complete, or begun, or there is none. */
  ghost function StepOn(t: Table, out: seq<byte>, q: seq<bool>): (r: Outcome<(seq<byte>, seq<bool>)>)
    requires |t| == 257
  {
    var s := FindCode(t, q, |t|);
    if s == EOS then Fail(HuffmanEos)
    else if s >= 0 then Done((out + [s], []))
    else if HasPrefix(t, q) then Done((out, q))
    else Fail(InvalidHuffmanPath)
  }

  /** The symbols in the first n bits, and the bits since the last one. */
  ghost function Walk(t: Table, bits: seq<bool>, n: nat): (r: Outcome<(seq<byte>, seq<bool>)>)
    requires |t| == 257 && n <= |bits|
  {
    if n == 0 then Done(([], []))
    else
      var (out, path) :- Walk(t, bits, n - 1);
      StepOn(t, out, path + [bits[n - 1]])
  }

  ghost function Decoded(t: Table, bits: seq<bool>): (r: Outcome<seq<byte>>)
    requires |t| == 257
  {
    var (out, path) :- Walk(t, bits, |bits|);
    if path == [] then Done(out)
    else if !AllOnes(path) then Fail(HuffmanPaddingNotOnes)
    else if |path| >= 8 then Fail(HuffmanPaddingTooLong)
    else Done(out)
  }

  // ---------- What is accepted ----------

  /** The codes of the first k symbols. */
  function Spelled(t: Table, out: seq<byte>, k: nat): (w: seq<bool>)
    requires |t| == 257 && k <= |out|
  {
    if k == 0 then [] else Spelled(t, out, k - 1) + Code(t, out[k - 1])
  }

  /** The bits are the codes of out and fewer than eight ones. */
  ghost predicate Encodes(t: Table, bits: seq<bool>, out: seq<byte>)
    requires |t| == 257
  {
    var w := Spelled(t, out, |out|);
    At(bits, 0, w) && |bits| - |w| < 8 && forall i :: |w| <= i < |bits| ==> bits[i]
  }

  lemma {:induction false} SpelledSame(t: Table, a: seq<byte>, b: seq<byte>, k: nat)
    requires |t| == 257 && k <= |a| && k <= |b| && forall i :: 0 <= i < k ==> a[i] == b[i]
    ensures Spelled(t, a, k) == Spelled(t, b, k)
  {
    hide Code;
    if k > 0 { SpelledSame(t, a, b, k - 1); }
  }

  /** What the walk has read. */
  lemma {:induction false} WalkRead(t: Table, bits: seq<bool>, n: nat)
    requires |t| == 257 && n <= |bits| && Walk(t, bits, n).Done?
    ensures var (out, path) := Walk(t, bits, n).value;
            var w := Spelled(t, out, |out|);
            |w| + |path| == n && At(bits, 0, w) && At(bits, |w|, path)
  {
    hide Code, HasPrefix, FindCode, At;
    if n == 0 {
      assert At(bits, 0, []) by { AtNothing(bits); }
    } else {
      var (out, path) := Walk(t, bits, n - 1).value;
      WalkRead(t, bits, n - 1);
      var w, q, s := Spelled(t, out, |out|), path + [bits[n - 1]], FindCode(t, path + [bits[n - 1]], |t|);
      AtSnoc(bits, |w|, path, bits[n - 1]);
      if s >= 0 {
        var out' := out + [s];
        SpelledSame(t, out', out, |out|);
        AtJoin(bits, 0, w, q);
        assert At(bits, |w + q|, []) by { AtEnd(bits, |w + q|); }
      }
    }
  }

  lemma {:induction false} AtNothing(bits: seq<bool>)
    ensures At(bits, 0, [])
  {
  }

  lemma {:induction false} AtEnd(bits: seq<bool>, n: nat)
    requires n <= |bits|
    ensures At(bits, n, [])
  {
  }

  lemma {:induction false} AcceptedIsEncoded(t: Table, bits: seq<bool>, out: seq<byte>)
    requires |t| == 257 && Decoded(t, bits) == Done(out)
    ensures Encodes(t, bits, out)
  {
    hide Spelled, Walk;
    WalkRead(t, bits, |bits|);
    var (o, path) := Walk(t, bits, |bits|).value;
    var w := Spelled(t, o, |o|);
    forall i | |w| <= i < |bits|
      ensures bits[i]
    {
      assert bits[|w| + (i - |w|)] == path[i - |w|];
    }
  }

  lemma {:induction false} CodeFound(t: Table, s: nat, n: nat)
    requires GoodTable(t) && s < n <= |t|
    ensures FindCode(t, Code(t, s), n) == s
  {
    hide Code;
    if s < n - 1 {
      assert Apart(t, s, n - 1);
      CodeFound(t, s, n - 1);
    }
  }

  /** A code that is only begun is no code. */
  lemma {:induction false} BegunIsNoCode(t: Table, s: nat, l: nat)
    requires GoodTable(t) && s < |t| && l < |Code(t, s)|
    ensures FindCode(t, Code(t, s)[..l], |t|) == -1 && HasPrefix(t, Code(t, s)[..l])
  {
    hide Code, FindCode;
    var q := Code(t, s)[..l];
    assert IsPrefix(q, Code(t, s));
    forall u | 0 <= u < |t|
      ensures Code(t, u) != q
    {
      assert Apart(t, u, s);
    }
  }

  /** From a symbol boundary the walk follows a code. */
  lemma {:induction false} WalkAlong(t: Table, bits: seq<bool>, start: nat, out: seq<byte>, s: nat, l: nat)
    requires GoodTable(t) && s < |t| && l < |Code(t, s)|
    requires start + l <= |bits| && Walk(t, bits, start) == Done((out, []))
    requires forall i :: 0 <= i < l ==> bits[start + i] == Code(t, s)[i]
    ensures Walk(t, bits, start + l) == Done((out, Code(t, s)[..l]))
  {
    hide Code, FindCode, HasPrefix;
    if l > 0 {
      WalkAlong(t, bits, start, out, s, l - 1);
      BegunIsNoCode(t, s, l);
      assert Code(t, s)[..l - 1] + [bits[start + (l - 1)]] == Code(t, s)[..l];
    }
  }

  lemma {:induction false} WalkCode(t: Table, bits: seq<bool>, start: nat, out: seq<byte>, s: nat)
    requires GoodTable(t) && s < EOS && start <= |bits|
    requires Walk(t, bits, start) == Done((out, [])) && At(bits, start, Code(t, s))
    ensures Walk(t, bits, start + |Code(t, s)|) == Done((out + [s], []))
  {
    hide Code, FindCode, HasPrefix;
    var l := |Code(t, s)| - 1;
    WalkAlong(t, bits, start, out, s, l);
    CodeFound(t, s, |t|);
    assert Code(t, s)[..l] + [bits[start + l]] == Code(t, s);
  }

  lemma {:induction false} WalkSpelled(t: Table, bits: seq<bool>, out: seq<byte>, k: nat)
    requires GoodTable(t) && k <= |out| && At(bits, 0, Spelled(t, out, |out|))
    ensures |Spelled(t, out, k)| <= |bits| && At(bits, 0, Spelled(t, out, k))
    ensures Walk(t, bits, |Spelled(t, out, k)|) == Done((out[..k], []))
  {
    hide Code, StepOn, At, Apart, AllOnes;
    SpelledGrows(t, bits, out, k, |out|);
    if k > 0 {
      WalkSpelled(t, bits, out, k - 1);
      var w, c := Spelled(t, out, k - 1), Code(t, out[k - 1]);
      AtSplit(bits, 0, w, c);
      WalkCode(t, bits, |w|, out[..k - 1], out[k - 1]);
      assert out[..k - 1] + [out[k - 1]] == out[..k];
    }
  }

  lemma {:induction false} SpelledGrows(t: Table, bits: seq<bool>, out: seq<byte>, k: nat, n: nat)
    requires |t| == 257 && k <= n <= |out| && At(bits, 0, Spelled(t, out, n))
    ensures At(bits, 0, Spelled(t, out, k)) && |Spelled(t, out, k)| <= |bits|
    decreases n
  {
    hide Code;
    if k < n {
      AtSplit(bits, 0, Spelled(t, out, n - 1), Code(t, out[n - 1]));
      SpelledGrows(t, bits, out, k, n - 1);
    }
  }

  lemma {:induction false} EncodedIsAccepted(t: Table, bits: seq<bool>, out: seq<byte>)
    requires GoodTable(t) && Encodes(t, bits, out)
    ensures Decoded(t, bits) == Done(out)
  {
    hide Code, Walk, Spelled, At;
    var w, e := Spelled(t, out, |out|), Code(t, EOS);
    WalkSpelled(t, bits, out, |out|);
    assert out[..|out|] == out;
    var l := |bits| - |w|;
    forall i | 0 <= i < l
      ensures bits[|w| + i] == e[i]
    {
    }
    WalkAlong(t, bits, |w|, out, EOS, l);
    assert AllOnes(e[..l]);
  }

  /** The decoder accepts exactly the codes of a string followed by at most seven ones, and returns that string. */
  lemma {:induction false} HuffmanExact(t: Table, bits: seq<bool>, out: seq<byte>)
    requires GoodTable(t)
    ensures Decoded(t, bits) == Done(out) <==> Encodes(t, bits, out)
  {
    hide GoodTable, Decoded, Encodes;
    assert |t| == 257 by { TableSize(t); }
    if Decoded(t, bits) == Done(out) { AcceptedIsEncoded(t, bits, out); }
    if Encodes(t, bits, out) { EncodedIsAccepted(t, bits, out); }
  }

  lemma {:induction false} TableSize(t: Table)
    requires GoodTable(t)
    ensures |t| == 257
  {
  }

  // ---------- The trie ----------

  const NONE: int := -1

  datatype Node = Node(zero: int, one: int, sym: int)

  function Child(n: Node, bit: bool): (c: int)
  {
    if bit then n.one else n.zero
  }

  function WithChild(n: Node, bit: bool, c: int): (r: Node)
  {
    if bit then n.(one := c) else n.(zero := c)
  }

  /** The child for a bit leads on by that bit; there is none exactly where no path in W goes on. */
  ghost predicate ChildOk(nodes: seq<Node>, paths: seq<seq<bool>>, W: set<seq<bool>>, i: nat, bit: bool)
    requires i < |nodes| == |paths|
  {
    var c := Child(nodes[i], bit);
    if c == NONE then paths[i] + [bit] !in W else 0 < c < |nodes| && paths[c] == paths[i] + [bit]
  }

  ghost predicate HasParent(nodes: seq<Node>, i: nat)
  {
    exists j, bit :: IsParent(nodes, i, j, bit)
  }

  ghost predicate IsParent(nodes: seq<Node>, i: nat, j: nat, bit: bool)
  {
    j < |nodes| && Child(nodes[j], bit) == i
  }

  /** Taking away the last bit of a path leads to a path or to the root. */
  ghost predicate PrefixClosed(W: set<seq<bool>>)
  {
    forall w, bit :: w + [bit] in W && w != [] ==> w in W
  }

  /** The nodes are the root and one node for each path in W. */
  ghost predicate Trie(nodes: seq<Node>, paths: seq<seq<bool>>, W: set<seq<bool>>)
  {
    && 0 < |nodes| == |paths| && paths[0] == [] && [] !in W && PrefixClosed(W)
    && (forall i, bit :: 0 <= i < |nodes| ==> ChildOk(nodes, paths, W, i, bit))
    && (forall i :: 0 < i < |nodes| ==> paths[i] in W && HasParent(nodes, i))
    && (forall i, j :: 0 <= i < j < |nodes| ==> paths[i] != paths[j])
  }

  /** A new node below cur. */
  lemma {:induction false} Grow(nodes: seq<Node>, paths: seq<seq<bool>>, W: set<seq<bool>>, cur: nat, bit: bool)
    requires Trie(nodes, paths, W) && cur < |nodes| && Child(nodes[cur], bit) == NONE
    ensures var q := paths[cur] + [bit];
            var nodes' := (nodes + [Node(NONE, NONE, NONE)])[cur := WithChild(nodes[cur], bit, |nodes|)];
            q !in W && Trie(nodes', paths + [q], W + {q})
  {
    hide HasParent;
    var q, n := paths[cur] + [bit], |nodes|;
    var nodes', paths', W' := (nodes + [Node(NONE, NONE, NONE)])[cur := WithChild(nodes[cur], bit, n)], paths + [q],
        W + {q};
    assert ChildOk(nodes, paths, W, cur, bit);
    assert paths[cur] == [] || paths[cur] in W;
    forall w, b | w + [b] in W' && w != []
      ensures w in W'
    {
      if w + [b] == q { assert w == q[..|q| - 1] == paths[cur]; }
    }
    forall i, b | 0 <= i < |nodes'|
      ensures ChildOk(nodes', paths', W', i, b)
    {
      GrowChild(nodes, paths, W, cur, bit, i, b);
    }
    forall i | 0 < i < |nodes'|
      ensures paths'[i] in W' && HasParent(nodes', i)
    {
      GrowParent(nodes, nodes', cur, bit, i);
    }
  }

  lemma {:induction false} GrowChild(nodes: seq<Node>, paths: seq<seq<bool>>, W: set<seq<bool>>, cur: nat, bit: bool,
      i: nat, b: bool)
    requires Trie(nodes, paths, W) && cur < |nodes| && Child(nodes[cur], bit) == NONE && i <= |nodes|
    ensures var q := paths[cur] + [bit];
            var nodes' := (nodes + [Node(NONE, NONE, NONE)])[cur := WithChild(nodes[cur], bit, |nodes|)];
            ChildOk(nodes', paths + [q], W + {q}, i, b)
  {
    hide HasParent, PrefixClosed;
    var q := paths[cur] + [bit];
    assert ChildOk(nodes, paths, W, cur, bit);
    if i < |nodes| {
      assert ChildOk(nodes, paths, W, i, b);
      SamePath(paths[i], b, paths[cur], bit);
    } else {
      NoPathBelow(W, q, b);
    }
  }

  lemma {:induction false} SamePath(p: seq<bool>, b: bool, q: seq<bool>, d: bool)
    ensures p + [b] == q + [d] <==> p == q && b == d
  {
    var r := q + [d];
    assert r[..|r| - 1] == q && r[|r| - 1] == d;
    assert (p + [b])[..|p|] == p && (p + [b])[|p|] == b;
  }

  lemma {:induction false} NoPathBelow(W: set<seq<bool>>, q: seq<bool>, b: bool)
    requires PrefixClosed(W) && q != [] && q !in W
    ensures q + [b] !in W + {q}
  {
    assert |q + [b]| != |q|;
  }

  lemma {:induction false} GrowParent(nodes: seq<Node>, nodes': seq<Node>, cur: nat, bit: bool, i: nat)
    requires cur < |nodes| && Child(nodes[cur], bit) == NONE && 0 < i <= |nodes|
    requires nodes' == (nodes + [Node(NONE, NONE, NONE)])[cur := WithChild(nodes[cur], bit, |nodes|)]
    requires i < |nodes| ==> HasParent(nodes, i)
    ensures HasParent(nodes', i)
  {
    if i < |nodes| {
      var j, b :| IsParent(nodes, i, j, b);
      assert IsParent(nodes', i, j, b);
    } else {
      assert IsParent(nodes', i, cur, bit);
    }
  }

  /** All paths of the first n codes, and of the first l bits of the next one, are in W, and nothing else is. */
  ghost predicate Covers(W: set<seq<bool>>, t: Table, n: nat, l: nat)
  {
    && n <= |t| && (forall w :: w in W ==> HasPrefix(t, w))
    && (forall s, k :: 0 <= s < n && 0 < k <= |Code(t, s)| ==> PathIn(W, t, s, k))
    && (forall k :: n < |t| && 0 < k <= l ==> PathIn(W, t, n, k))
  }

  ghost predicate PathIn(W: set<seq<bool>>, t: Table, s: nat, k: nat)
  {
    s < |t| && k <= |Code(t, s)| && Code(t, s)[..k] in W
  }

  /** Each node carries the symbol, among the first n, whose code leads to it. */
  ghost predicate Labelled(nodes: seq<Node>, paths: seq<seq<bool>>, t: Table, n: nat)
  {
    n <= |t| && |nodes| == |paths| && forall i :: 0 <= i < |nodes| ==> nodes[i].sym == FindCode(t, paths[i], n)
  }

  lemma {:induction false} NotYetCode(W: set<seq<bool>>, t: Table, n: nat, l: nat, q: seq<bool>)
    requires Covers(W, t, n, l) && q !in W && q != []
    ensures FindCode(t, q, n) == NONE
  {
    hide Code, HasPrefix;
    forall s | 0 <= s < n
      ensures Code(t, s) != q
    {
      assert |Code(t, s)| > 0 ==> PathIn(W, t, s, |Code(t, s)|);
      assert Code(t, s)[..|Code(t, s)|] == Code(t, s);
    }
  }

  lemma {:induction false} CoverBit(W: set<seq<bool>>, t: Table, n: nat, l: nat)
    requires Covers(W, t, n, l) && n < |t| && l < |Code(t, n)|
    ensures Covers(W + {Code(t, n)[..l + 1]}, t, n, l + 1)
  {
    hide Code;
    var q := Code(t, n)[..l + 1];
    var W' := W + {q};
    assert IsPrefix(q, Code(t, n));
    assert HasPrefix(t, q);
    forall s, k | 0 <= s < n && 0 < k <= |Code(t, s)|
      ensures PathIn(W', t, s, k)
    {
      assert PathIn(W, t, s, k);
    }
    forall k | 0 < k <= l + 1
      ensures PathIn(W', t, n, k)
    {
      if k <= l { assert PathIn(W, t, n, k); }
    }
  }

  lemma {:induction false} CoverCode(W: set<seq<bool>>, t: Table, n: nat)
    requires n < |t| && Covers(W, t, n, |Code(t, n)|)
    ensures Covers(W, t, n + 1, 0)
  {
    hide Code;
    forall s, k | 0 <= s < n + 1 && 0 < k <= |Code(t, s)|
      ensures PathIn(W, t, s, k)
    {
      if s < n { assert PathIn(W, t, s, k); } else { assert PathIn(W, t, n, k); }
    }
  }

  /** Bit l of a code. */
  function CodeBit(t: Table, s: nat, l: nat): (b: bool)
    requires s < |t| && l < t[s].1
  {
    Shr(t[s].0, t[s].1 - 1 - l) % 2 == 1
  }

  lemma {:induction false} CodeBitAt(t: Table, s: nat, l: nat)
    requires s < |t| && l < t[s].1
    ensures Code(t, s)[l] == CodeBit(t, s, l) && Code(t, s)[..l] + [CodeBit(t, s, l)] == Code(t, s)[..l + 1]
  {
    MsbBitAt(t[s].0, t[s].1, l);
  }

  /** A trie of the first n codes and of the first l bits of the next one. */
  ghost predicate Grown(nodes: seq<Node>, paths: seq<seq<bool>>, W: set<seq<bool>>, t: Table, n: nat, l: nat)
  {
    Trie(nodes, paths, W) && Covers(W, t, n, l) && Labelled(nodes, paths, t, n)
  }

  /** One bit further along a code: the child is taken, or made. */
  method Descend(nodes: seq<Node>, cur: nat, t: Table, s: nat, l: nat, ghost paths: seq<seq<bool>>,
      ghost W: set<seq<bool>>)
      returns (nodes': seq<Node>, next: nat, ghost paths': seq<seq<bool>>, ghost W': set<seq<bool>>)
    requires Grown(nodes, paths, W, t, s, l) && s < |t| && l < t[s].1 && cur < |nodes| && paths[cur] == Code(t, s)[..l]
    ensures Grown(nodes', paths', W', t, s, l + 1) && next < |nodes'| && paths'[next] == Code(t, s)[..l + 1]
  {
    hide Code, Covers, FindCode, HasParent, PrefixClosed;
    var bit := CodeBit(t, s, l);
    CodeBitAt(t, s, l);
    CoverBit(W, t, s, l);
    ghost var q := paths[cur] + [bit];
    assert ChildOk(nodes, paths, W, cur, bit);
    nodes', paths', W' := nodes, paths, W + {q};
    var c := Child(nodes[cur], bit);
    if c == NONE {
      Grow(nodes, paths, W, cur, bit);
      NotYetCode(W, t, s, l, q);
      next := |nodes|;
      nodes' := (nodes + [Node(NONE, NONE, NONE)])[cur := WithChild(nodes[cur], bit, next)];
      paths' := paths + [q];
    } else {
      next := c;
      assert W' == W;
    }
  }

  lemma {:induction false} Label(nodes: seq<Node>, paths: seq<seq<bool>>, W: set<seq<bool>>, t: Table, s: nat, cur: nat)
    requires Trie(nodes, paths, W) && Labelled(nodes, paths, t, s)
    requires s < |t| && cur < |nodes| && paths[cur] == Code(t, s)
    ensures Trie(nodes[cur := nodes[cur].(sym := s)], paths, W)
    ensures Labelled(nodes[cur := nodes[cur].(sym := s)], paths, t, s + 1)
  {
    hide Code, PrefixClosed;
    var nodes' := nodes[cur := nodes[cur].(sym := s)];
    forall i, bit | 0 <= i < |nodes'|
      ensures ChildOk(nodes', paths, W, i, bit)
    {
      assert ChildOk(nodes, paths, W, i, bit);
    }
    forall i | 0 < i < |nodes'|
      ensures HasParent(nodes', i)
    {
      assert paths[i] in W && HasParent(nodes, i);
      var j, b :| IsParent(nodes, i, j, b);
      assert IsParent(nodes', i, j, b);
    }
  }

  method InsertCode(nodes: seq<Node>, t: Table, s: nat, ghost paths: seq<seq<bool>>, ghost W: set<seq<bool>>)
      returns (nodes': seq<Node>, ghost paths': seq<seq<bool>>, ghost W': set<seq<bool>>)
    requires Grown(nodes, paths, W, t, s, 0) && s < |t|
    ensures Grown(nodes', paths', W', t, s + 1, 0)
  {
    hide Code, Covers, Trie, Labelled;
    var cur: nat := 0;
    nodes', paths', W' := nodes, paths, W;
    TrieRoot(nodes, paths, W);
    for l := 0 to t[s].1
      invariant Grown(nodes', paths', W', t, s, l) && |paths'| == |nodes'|
      invariant cur < |nodes'| && paths'[cur] == Code(t, s)[..l]
    {
      nodes', cur, paths', W' := Descend(nodes', cur, t, s, l, paths', W');
      TrieRoot(nodes', paths', W');
    }
    assert Code(t, s)[..t[s].1] == Code(t, s);
    Label(nodes', paths', W', t, s, cur);
    CoverCode(W', t, s);
    nodes' := nodes'[cur := nodes'[cur].(sym := s)];
  }

  lemma {:induction false} TrieRoot(nodes: seq<Node>, paths: seq<seq<bool>>, W: set<seq<bool>>)
    requires Trie(nodes, paths, W)
    ensures |nodes| == |paths| > 0 && paths[0] == []
  {
  }

  lemma {:induction false} EmptyTrie(t: Table)
    requires forall s :: 0 <= s < |t| ==> t[s].1 > 0
    ensures Grown([Node(NONE, NONE, NONE)], [[]], {}, t, 0, 0)
  {
  }

  /** The trie of a whole table. */
  ghost predicate TrieOf(nodes: seq<Node>, paths: seq<seq<bool>>, t: Table)
  {
    exists W :: Grown(nodes, paths, W, t, |t|, 0)
  }

  method BuildTree(t: Table) returns (nodes: seq<Node>)
    requires GoodTable(t)
    ensures exists paths :: TrieOf(nodes, paths, t)
  {
    hide Grown, Code;
    nodes := [Node(NONE, NONE, NONE)];
    ghost var paths: seq<seq<bool>>, W: set<seq<bool>> := [[]], {};
    EmptyTrie(t);
    for s := 0 to |t|
      invariant Grown(nodes, paths, W, t, s, 0)
    {
      nodes, paths, W := InsertCode(nodes, t, s, paths, W);
    }
    assert TrieOf(nodes, paths, t);
  }

  /** In the trie of a table, a child leads on where some code goes on, and a symbol marks where one ends. */
  lemma {:induction false} TrieStep(nodes: seq<Node>, paths: seq<seq<bool>>, t: Table, i: nat, bit: bool)
    requires TrieOf(nodes, paths, t) && |nodes| == |paths| && i < |nodes|
    ensures var c, q := Child(nodes[i], bit), paths[i] + [bit];
            if c == NONE then !HasPrefix(t, q)
            else 0 < c < |nodes| && paths[c] == q && HasPrefix(t, q) && nodes[c].sym == FindCode(t, q, |t|)
  {
    hide Code, FindCode, PrefixClosed, HasParent;
    var W :| Grown(nodes, paths, W, t, |t|, 0);
    assert ChildOk(nodes, paths, W, i, bit);
    var q := paths[i] + [bit];
    if HasPrefix(t, q) {
      var s :| 0 <= s < |t| && IsPrefix(q, Code(t, s));
      assert PathIn(W, t, s, |q|);
      assert Code(t, s)[..|q|] == q;
    }
  }

  lemma {:induction false} TrieFacts(nodes: seq<Node>, paths: seq<seq<bool>>, t: Table)
    requires TrieOf(nodes, paths, t)
    ensures |nodes| == |paths| > 0 && paths[0] == [] && forall i :: 0 < i < |nodes| ==> paths[i] != []
  {
    hide Covers, Labelled, HasParent, PrefixClosed;
  }

  // ---------- The depth of a node ----------

  ghost predicate Listed(queue: seq<(nat, nat)>, c: int)
  {
    exists k :: 0 <= k < |queue| && queue[k].0 == c
  }

  /** The children of the first `head` entries are listed, and every entry but the root is such a child. */
  ghost predicate Searched(nodes: seq<Node>, paths: seq<seq<bool>>, queue: seq<(nat, nat)>, head: nat)
  {
    && head <= |queue| && |queue| > 0 && queue[0] == (0, 0)
    && (forall k :: 0 <= k < |queue| ==> queue[k].0 < |nodes| == |paths| && queue[k].1 == |paths[queue[k].0]|)
    && (forall k, b :: 0 <= k < head ==> ChildListed(nodes, queue, k, b))
    && (forall k :: 0 < k < |queue| ==> ListedChild(nodes, queue, head, k))
    && (forall j, k :: 0 <= j < k < |queue| ==> queue[j].0 != queue[k].0)
  }

  ghost predicate ChildListed(nodes: seq<Node>, queue: seq<(nat, nat)>, k: nat, b: bool)
  {
    k < |queue| && queue[k].0 < |nodes| &&
        (Child(nodes[queue[k].0], b) == NONE || Listed(queue, Child(nodes[queue[k].0], b)))
  }

  ghost predicate ListedChild(nodes: seq<Node>, queue: seq<(nat, nat)>, head: nat, k: nat)
  {
    exists j, b :: ChildOf(nodes, queue, head, k, j, b)
  }

  ghost predicate ChildOf(nodes: seq<Node>, queue: seq<(nat, nat)>, head: nat, k: nat, j: nat, b: bool)
  {
    j < head <= |queue| && k < |queue| && queue[j].0 < |nodes| && Child(nodes[queue[j].0], b) == queue[k].0
  }

  /** The facts about the trie that the search needs. */
  ghost predicate IsTree(nodes: seq<Node>, paths: seq<seq<bool>>)
  {
    && |nodes| == |paths| > 0 && paths[0] == []
    && (forall i, b :: 0 <= i < |nodes| ==> LeadsOn(nodes, paths, i, b))
    && (forall i :: 0 < i < |nodes| ==> HasParent(nodes, i))
    && (forall i, j :: 0 <= i < j < |nodes| ==> paths[i] != paths[j])
  }

  ghost predicate LeadsOn(nodes: seq<Node>, paths: seq<seq<bool>>, i: nat, b: bool)
    requires i < |nodes| == |paths|
  {
    var c := Child(nodes[i], b);
    c == NONE || (0 < c < |nodes| && paths[c] == paths[i] + [b])
  }

  lemma {:induction false} TrieIsTree(nodes: seq<Node>, paths: seq<seq<bool>>, t: Table)
    requires TrieOf(nodes, paths, t)
    ensures IsTree(nodes, paths)
  {
    hide Covers, Labelled, HasParent, PrefixClosed;
    var W :| Grown(nodes, paths, W, t, |t|, 0);
    forall i, b | 0 <= i < |nodes|
      ensures LeadsOn(nodes, paths, i, b)
    {
      assert ChildOk(nodes, paths, W, i, b);
    }
  }

  /** A node has one parent. */
  lemma {:induction false} OneParent(nodes: seq<Node>, paths: seq<seq<bool>>, i: nat, b: bool, j: nat, d: bool)
    requires IsTree(nodes, paths) && i < |nodes| && j < |nodes| && Child(nodes[i], b) == Child(nodes[j], d) != NONE
    ensures i == j && b == d
  {
    hide HasParent;
    assert LeadsOn(nodes, paths, i, b) && LeadsOn(nodes, paths, j, d);
    SamePath(paths[i], b, paths[j], d);
  }

  /** The entries for the children of a node. */
  function Kids(nodes: seq<Node>, i: nat, d: nat, n: nat): (r: seq<(nat, nat)>)
    requires i < |nodes| && n <= 2 && nodes[i].zero >= NONE && nodes[i].one >= NONE
  {
    (if n >= 1 && nodes[i].zero != NONE then [(nodes[i].zero, d)] else []) +
    (if n >= 2 && nodes[i].one != NONE then [(nodes[i].one, d)] else [])
  }

  /** A child of an entry not yet expanded is not listed. */
  lemma {:induction false} NewKid(nodes: seq<Node>, paths: seq<seq<bool>>, queue: seq<(nat, nat)>, head: nat, b: bool)
    requires IsTree(nodes, paths) && Searched(nodes, paths, queue, head) && head < |queue|
    requires Child(nodes[queue[head].0], b) != NONE
    ensures !Listed(queue, Child(nodes[queue[head].0], b))
  {
    hide HasParent, ChildListed;
    var c := Child(nodes[queue[head].0], b);
    assert LeadsOn(nodes, paths, queue[head].0, b);
    if Listed(queue, c) {
      var k :| 0 <= k < |queue| && queue[k].0 == c;
      assert ListedChild(nodes, queue, head, k);
      var j: nat, d :| ChildOf(nodes, queue, head, k, j, d);
      OneParent(nodes, paths, queue[j].0, d, queue[head].0, b);
    }
  }

  lemma {:induction false} KeepsListed(queue: seq<(nat, nat)>, more: seq<(nat, nat)>, c: int)
    requires Listed(queue, c)
    ensures Listed(queue + more, c)
  {
    var k :| 0 <= k < |queue| && queue[k].0 == c;
    assert (queue + more)[k].0 == c;
  }

  lemma {:induction false} Expand(nodes: seq<Node>, paths: seq<seq<bool>>, queue: seq<(nat, nat)>, head: nat)
    requires IsTree(nodes, paths) && Searched(nodes, paths, queue, head) && head < |queue|
    ensures nodes[queue[head].0].zero >= NONE && nodes[queue[head].0].one >= NONE
    ensures Searched(nodes, paths, queue + Kids(nodes, queue[head].0, queue[head].1 + 1, 2), head + 1)
  {
    hide HasParent, Listed, ListedChild, ChildListed;
    var i, d := queue[head].0, queue[head].1;
    assert LeadsOn(nodes, paths, i, false) && LeadsOn(nodes, paths, i, true);
    var kids := Kids(nodes, i, d + 1, 2);
    var q := queue + kids;
    KidsListed(nodes, queue, head, kids);
    var next := head + 1;
    forall k, b | 0 <= k < next
      ensures ChildListed(nodes, q, k, b)
    {
      if k < head {
        assert ChildListed(nodes, queue, k, b);
        KeepChild(nodes, queue, kids, k, b);
      }
    }
    forall k | 0 < k < |q|
      ensures ListedChild(nodes, q, next, k)
    {
      KeepOrigin(nodes, queue, head, kids, k);
    }
    forall j, k | 0 <= j < k < |q|
      ensures q[j].0 != q[k].0
    {
      KidsApart(nodes, paths, queue, head, j, k);
    }
  }

  lemma {:induction false} KeepChild(nodes: seq<Node>, queue: seq<(nat, nat)>, more: seq<(nat, nat)>, k: nat, b: bool)
    requires ChildListed(nodes, queue, k, b)
    ensures ChildListed(nodes, queue + more, k, b)
  {
    hide Listed;
    var c := Child(nodes[queue[k].0], b);
    if c != NONE { KeepsListed(queue, more, c); }
  }

  lemma {:induction false} KidsListed(nodes: seq<Node>, queue: seq<(nat, nat)>, head: nat, kids: seq<(nat, nat)>)
    requires head < |queue| && queue[head].0 < |nodes|
    requires nodes[queue[head].0].zero >= NONE && nodes[queue[head].0].one >= NONE
    requires kids == Kids(nodes, queue[head].0, queue[head].1 + 1, 2)
    ensures ChildListed(nodes, queue + kids, head, false) && ChildListed(nodes, queue + kids, head, true)
  {
    var i, q := queue[head].0, queue + kids;
    if nodes[i].zero != NONE { assert q[|queue|].0 == nodes[i].zero; }
    if nodes[i].one != NONE { assert q[|q| - 1].0 == nodes[i].one; }
  }

  lemma {:induction false} KeepOrigin(nodes: seq<Node>, queue: seq<(nat, nat)>, head: nat, kids: seq<(nat, nat)>,
      k: nat)
    requires head < |queue| && queue[head].0 < |nodes|
    requires nodes[queue[head].0].zero >= NONE && nodes[queue[head].0].one >= NONE
    requires kids == Kids(nodes, queue[head].0, queue[head].1 + 1, 2) && 0 < k < |queue + kids|
    requires k < |queue| ==> ListedChild(nodes, queue, head, k)
    ensures ListedChild(nodes, queue + kids, head + 1, k)
  {
    var q, i := queue + kids, queue[head].0;
    if k < |queue| {
      var j, b :| ChildOf(nodes, queue, head, k, j, b);
      assert ChildOf(nodes, q, head + 1, k, j, b);
    } else if nodes[i].zero != NONE && k == |queue| {
      assert ChildOf(nodes, q, head + 1, k, head, false);
    } else {
      assert ChildOf(nodes, q, head + 1, k, head, true);
    }
  }

  lemma {:induction false} KidsApart(nodes: seq<Node>, paths: seq<seq<bool>>, queue: seq<(nat, nat)>, head: nat, j: nat,
      k: nat)
    requires IsTree(nodes, paths) && Searched(nodes, paths, queue, head) && head < |queue|
    requires nodes[queue[head].0].zero >= NONE && nodes[queue[head].0].one >= NONE
    requires j < k < |queue + Kids(nodes, queue[head].0, queue[head].1 + 1, 2)|
    ensures var q := queue + Kids(nodes, queue[head].0, queue[head].1 + 1, 2); q[j].0 != q[k].0
  {
    hide HasParent, ChildListed, ListedChild;
    var i := queue[head].0;
    var q := queue + Kids(nodes, i, queue[head].1 + 1, 2);
    if k >= |queue| {
      if nodes[i].zero != NONE { NewKid(nodes, paths, queue, head, false); }
      if nodes[i].one != NONE { NewKid(nodes, paths, queue, head, true); }
      if j < |queue| {
        assert Listed(queue, q[j].0);
      } else if nodes[i].zero == nodes[i].one {
        OneParent(nodes, paths, i, false, i, true);
      }
    }
  }

  ghost function Firsts(q: seq<(nat, nat)>, k: nat): (r: set<nat>)
    requires k <= |q|
  {
    if k == 0 then {} else Firsts(q, k - 1) + {q[k - 1].0}
  }

  lemma {:induction false} FirstsSize(q: seq<(nat, nat)>, k: nat, n: nat)
    requires k <= |q| && (forall i, j :: 0 <= i < j < |q| ==> q[i].0 != q[j].0) &&
               (forall i :: 0 <= i < |q| ==> q[i].0 < n)
    ensures |Firsts(q, k)| == k && Firsts(q, k) <= Below(n)
    ensures forall i :: k <= i < |q| ==> q[i].0 !in Firsts(q, k)
  {
    if k > 0 { FirstsSize(q, k - 1, n); }
  }

  ghost function Below(n: nat): (r: set<nat>)
    ensures |r| == n && forall x :: x in r <==> 0 <= x < n
  {
    if n == 0 then {} else Below(n - 1) + {n - 1}
  }

  lemma {:induction false} SubsetFits(s: set<nat>, t: set<nat>)
    requires s <= t
    ensures |s| <= |t|
  {
    assert t == s + (t - s);
  }

  /** No more entries than nodes. */
  lemma {:induction false} QueueFits(nodes: seq<Node>, paths: seq<seq<bool>>, queue: seq<(nat, nat)>, head: nat)
    requires Searched(nodes, paths, queue, head)
    ensures |queue| <= |nodes|
  {
    hide ChildListed, ListedChild, Firsts, Below;
    FirstsSize(queue, |queue|, |nodes|);
    SubsetFits(Firsts(queue, |queue|), Below(|nodes|));
  }

  /** When all entries have been expanded, every node is listed. */
  lemma {:induction false} AllListed(nodes: seq<Node>, paths: seq<seq<bool>>, queue: seq<(nat, nat)>, i: nat)
    requires IsTree(nodes, paths) && Searched(nodes, paths, queue, |queue|) && i < |nodes|
    ensures Listed(queue, i)
    decreases |paths[i]|
  {
    hide ListedChild;
    if i == 0 {
      assert queue[0].0 == 0;
    } else {
      assert HasParent(nodes, i);
      var j, b :| IsParent(nodes, i, j, b);
      assert LeadsOn(nodes, paths, j, b);
      AllListed(nodes, paths, queue, j);
      var k :| 0 <= k < |queue| && queue[k].0 == j;
      assert ChildListed(nodes, queue, k, b);
    }
  }

  /** The breadth-first search finds the node at the length of its path. */
  method NodeDepth(nodes: seq<Node>, target: nat, ghost paths: seq<seq<bool>>) returns (depth: nat)
    requires IsTree(nodes, paths) && target < |nodes|
    ensures depth == |paths[target]|
  {
    hide HasParent, ChildListed, ListedChild, Kids, IsTree;
    assert |nodes| == |paths| > 0 && paths[0] == [] by { TreeSize(nodes, paths); }
    var queue: seq<(nat, nat)> := [(0, 0)];
    var head := 0;
    while head < |queue|
      invariant 0 <= head && Searched(nodes, paths, queue, head)
      invariant forall k :: 0 <= k < head ==> queue[k].0 != target
      decreases |nodes| - head
    {
      QueueFits(nodes, paths, queue, head);
      Expand(nodes, paths, queue, head);
      var (idx, d) := queue[head];
      if idx == target { return d; }
      queue := queue + Kids(nodes, idx, d + 1, 2);
      head := head + 1;
    }
    AllListed(nodes, paths, queue, target);
    assert false;
  }

  lemma {:induction false} TreeSize(nodes: seq<Node>, paths: seq<seq<bool>>)
    requires IsTree(nodes, paths)
    ensures |nodes| == |paths| > 0 && paths[0] == []
  {
  }

  // ---------- The decoder ----------

  /** The bits of the first n bytes, most significant first. */
  function MsbStream(s: seq<byte>, n: nat): (w: seq<bool>)
    requires n <= |s|
    ensures |w| == 8 * n
  {
    if n == 0 then [] else MsbStream(s, n - 1) + MsbBits(s[n - 1], 8)
  }

  lemma {:induction false} StreamGrows(s: seq<byte>, n: nat, m: nat, i: nat)
    requires n <= m <= |s| && i < 8 * n
    ensures MsbStream(s, m)[i] == MsbStream(s, n)[i]
  {
    if n < m { StreamGrows(s, n, m - 1, i); }
  }

  lemma {:induction false} StreamBit(s: seq<byte>, k: nat, j: nat)
    requires k < |s| && j < 8
    ensures MsbStream(s, |s|)[8 * k + j] == (Shr(s[k], 7 - j) % 2 == 1)
  {
    StreamGrows(s, k + 1, |s|, 8 * k + j);
    MsbBitAt(s[k], 8, j);
  }

  /** The decoder's variables after n bits. */
  ghost predicate At1(t: Table, bits: seq<bool>, n: nat, paths: seq<seq<bool>>, out: seq<byte>, node: nat, ones: bool)
  {
    |t| == 257 && n <= |bits| && node < |paths| && Walk(t, bits, n) == Done((out, paths[node])) &&
        (ones <==> AllOnes(paths[node]))
  }

  method DecodeBit(t: Table, nodes: seq<Node>, bit: bool, out0: seq<byte>, node0: nat, ones0: bool,
      ghost bits: seq<bool>, ghost n: nat, ghost paths: seq<seq<bool>>)
      returns (r: Outcome<(seq<byte>, nat, bool)>)
    requires |t| == 257 && TrieOf(nodes, paths, t) && n < |bits|
    requires bit == bits[n] && At1(t, bits, n, paths, out0, node0, ones0)
    ensures r.Done? ==> At1(t, bits, n + 1, paths, r.value.0, r.value.1, r.value.2)
    ensures r.Fail? ==> Walk(t, bits, n + 1) == Fail(r.error)
  {
    hide TrieOf, FindCode, HasPrefix, Code;
    TrieFacts(nodes, paths, t);
    TrieStep(nodes, paths, t, node0, bit);
    var next := Child(nodes[node0], bit);
    if next == NONE {
      assert FindCode(t, paths[node0] + [bit], |t|) < 0 by { NoPrefixNoCode(t, paths[node0] + [bit]); }
      return Fail(InvalidHuffmanPath);
    }
    var sym := nodes[next].sym;
    if sym != NONE {
      if sym == EOS { return Fail(HuffmanEos); }
      assert AllOnes(paths[0]);
      r := Done((out0 + [sym], 0, true));
    } else {
      OnesStep(paths[node0], bit);
      r := Done((out0, next, ones0 && bit));
    }
  }

  lemma {:induction false} NoPrefixNoCode(t: Table, q: seq<bool>)
    requires !HasPrefix(t, q)
    ensures FindCode(t, q, |t|) < 0
  {
    hide Code;
    assert forall s :: 0 <= s < |t| && Code(t, s) == q ==> IsPrefix(q, Code(t, s));
  }

  lemma {:induction false} OnesStep(p: seq<bool>, bit: bool)
    ensures AllOnes(p + [bit]) <==> AllOnes(p) && bit
  {
    if AllOnes(p + [bit]) {
      forall i | 0 <= i < |p| ensures p[i] { assert (p + [bit])[i]; }
      assert (p + [bit])[|p|];
    }
  }

  lemma {:induction false} WalkFails(t: Table, bits: seq<bool>, n: nat, m: nat)
    requires |t| == 257 && n <= m <= |bits| && Walk(t, bits, n).Fail?
    ensures Walk(t, bits, m) == Walk(t, bits, n)
  {
    hide StepOn;
    if n < m { WalkFails(t, bits, n, m - 1); }
  }

  /** The decoder carries out the walk over the bits of its input. */
  method HuffmanDecode(t: Table, input: seq<byte>) returns (r: Outcome<seq<byte>>)
    requires GoodTable(t)
    ensures r == Decoded(t, MsbStream(input, |input|))
  {
    hide TrieOf, Walk, Code, MsbStream, AllOnes, Apart;
    ghost var bits := MsbStream(input, |input|);
    var tree := BuildTree(t);
    ghost var paths :| TrieOf(tree, paths, t);
    TrieFacts(tree, paths, t);
    var out: seq<byte>, node: nat, ones := [], 0, true;
    WalkStart(t, bits, paths);
    for k := 0 to |input|
      invariant At1(t, bits, 8 * k, paths, out, node, ones)
    {
      var byteDone := DecodeByte(t, tree, input, k, out, node, ones, bits, paths);
      if byteDone.Fail? { return Fail(byteDone.error); }
      out, node, ones := byteDone.value.0, byteDone.value.1, byteDone.value.2;
    }
    if node != 0 {
      if !ones { return Fail(HuffmanPaddingNotOnes); }
      TrieIsTree(tree, paths, t);
      var depth := NodeDepth(tree, node, paths);
      if depth >= 8 { return Fail(HuffmanPaddingTooLong); }
    }
    r := Done(out);
  }

  lemma {:induction false} WalkStart(t: Table, bits: seq<bool>, paths: seq<seq<bool>>)
    requires |t| == 257 && |paths| > 0 && paths[0] == []
    ensures At1(t, bits, 0, paths, [], 0, true)
  {
  }

  method DecodeByte(t: Table, tree: seq<Node>, input: seq<byte>, k: nat, out0: seq<byte>, node0: nat, ones0: bool,
      ghost bits: seq<bool>, ghost paths: seq<seq<bool>>)
      returns (r: Outcome<(seq<byte>, nat, bool)>)
    requires |t| == 257 && TrieOf(tree, paths, t) && k < |input| && bits == MsbStream(input, |input|)
    requires At1(t, bits, 8 * k, paths, out0, node0, ones0)
    ensures r.Done? ==> At1(t, bits, 8 * (k + 1), paths, r.value.0, r.value.1, r.value.2)
    ensures r.Fail? ==> Walk(t, bits, |bits|) == Fail(r.error)
  {
    hide TrieOf, At1, Walk, MsbStream;
    r := Done((out0, node0, ones0));
    for j := 0 to 8
      invariant r.Done? && At1(t, bits, 8 * k + j, paths, r.value.0, r.value.1, r.value.2)
    {
      StreamBit(input, k, j);
      var bit := Shr(input[k], 7 - j) % 2 == 1;
      r := DecodeBit(t, tree, bit, r.value.0, r.value.1, r.value.2, bits, 8 * k + j, paths);
      if r.Fail? {
        WalkFails(t, bits, 8 * k + j + 1, |bits|);
        return;
      }
    }
  }
}
