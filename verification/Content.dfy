/** Plain-text content: bounding, paragraphs, inline tokens and line breaks. */
module Content {
  import opened Text

  const MAX_CONTENT_BYTES: nat := 262144
  const NEWLINE: byte := 10

  /** Half-open; the bound on content keeps every offset within 32 bits. */
  datatype SourceRange = SourceRange(start: nat, end: nat)

  datatype Node =
    | TextNode(original: seq<byte>, source: SourceRange)
    | Reference(original: seq<byte>, source: SourceRange)
    | Link(original: seq<byte>, source: SourceRange)
    | Hashtag(original: seq<byte>, source: SourceRange)
    | HardBreak(original: seq<byte>, source: SourceRange)

  datatype Block = Block(source: SourceRange, inlines: seq<Node>)

  // ---- bounding ----------------------------------------------------------

  datatype Diagnostic =
    | InputTruncated(originalBytes: nat, parsedBytes: nat)
    | MalformedReference(original: seq<byte>, source: SourceRange)

  predicate IsBoundary(content: seq<byte>, i: nat)
    requires i <= |content|
  {
    i == 0 || i == |content| || !(128 <= content[i] < 192)
  }

  /** The longest prefix within the bound that does not cut a character. */
  method BoundedInput(content: seq<byte>) returns (input: seq<byte>, diagnostics: seq<Diagnostic>)
    ensures input <= content && |input| <= MAX_CONTENT_BYTES && IsBoundary(content, |input|)
    ensures forall i | |input| < i <= |content| && i <= MAX_CONTENT_BYTES :: !IsBoundary(content, i)
    ensures |content| <= MAX_CONTENT_BYTES <==> input == content
    ensures diagnostics == if input == content then [] else [InputTruncated(|content|, |input|)]
  {
    if |content| <= MAX_CONTENT_BYTES {
      return content, [];
    }
    var end := MAX_CONTENT_BYTES;
    while !IsBoundary(content, end)
      invariant 0 <= end <= MAX_CONTENT_BYTES
      invariant forall i | end < i <= MAX_CONTENT_BYTES :: !IsBoundary(content, i)
      decreases end
    {
      end := end - 1;
    }
    return content[..end], [InputTruncated(|content|, end)];
  }

  // ---- tiling ------------------------------------------------------------

  /** The nodes cover the range without gap or overlap, and each holds exactly the bytes it covers. */
  ghost predicate Tiles(nodes: seq<Node>, content: seq<byte>, start: nat, end: nat)
    requires start <= end <= |content|
  {
    if nodes == [] then start == end
    else
      var last := nodes[|nodes| - 1];
      && start <= last.source.start < last.source.end == end
      && last.original == content[last.source.start..end]
      && Tiles(nodes[..|nodes| - 1], content, start, last.source.start)
  }

  function Originals(nodes: seq<Node>): seq<byte> {
    if nodes == [] then [] else Originals(nodes[..|nodes| - 1]) + nodes[|nodes| - 1].original
  }

  /** Nodes that tile a range spell it out. */
  lemma {:induction false} TilingIsLossless(nodes: seq<Node>, content: seq<byte>, start: nat, end: nat)
    requires start <= end <= |content| && Tiles(nodes, content, start, end)
    ensures Originals(nodes) == content[start..end]
  {
    if nodes != [] {
      var last := nodes[|nodes| - 1];
      TilingIsLossless(nodes[..|nodes| - 1], content, start, last.source.start);
      assert content[start..end] == content[start..last.source.start] + content[last.source.start..end];
    }
  }

  lemma {:induction false} TilingsJoin(a: seq<Node>, b: seq<Node>, content: seq<byte>, start: nat, mid: nat, end: nat)
    requires start <= mid <= end <= |content| && Tiles(a, content, start, mid) && Tiles(b, content, mid, end)
    ensures Tiles(a + b, content, start, end)
    decreases |b|
  {
    if b == [] {
      assert a + b == a;
    } else {
      var all := a + b;
      TilingsJoin(a, b[..|b| - 1], content, start, mid, b[|b| - 1].source.start);
      assert all[..|all| - 1] == a + b[..|b| - 1];
    }
  }

  lemma OneTile(node: Node, content: seq<byte>)
    requires node.source.start < node.source.end <= |content|
    requires node.original == content[node.source.start..node.source.end]
    ensures Tiles([node], content, node.source.start, node.source.end)
  {
    assert [node][..0] == [];
  }

  /** Tiles follow one another: no two cover the same byte. */
  lemma {:induction false} TilesAreOrdered(nodes: seq<Node>, content: seq<byte>, start: nat, end: nat, i: nat, j: nat)
    requires start <= end <= |content| && Tiles(nodes, content, start, end) && i < |nodes| && j < |nodes|
    ensures start <= nodes[i].source.start < nodes[i].source.end <= end
    ensures i < j ==> nodes[i].source.end <= nodes[j].source.start
  {
    var n := |nodes| - 1;
    if i < n { TilesAreOrdered(nodes[..n], content, start, nodes[n].source.start, i, if j < n then j else i); }
    if j < n { TilesAreOrdered(nodes[..n], content, start, nodes[n].source.start, j, j); }
  }

  // ---- tokens ------------------------------------------------------------

  datatype TokenKind = ReferenceToken | UrlToken | HashtagToken
  {
    function Priority(): nat {
      match this
      case ReferenceToken => 0
      case UrlToken => 1
      case HashtagToken => 2
    }
  }

  datatype Token = Token(start: nat, end: nat, kind: TokenKind)

  predicate InBounds(t: Token, n: nat) {
    t.start < t.end <= n
  }

  /** Earlier start first, then priority, then the longer match. */
  predicate Before(a: Token, b: Token) {
    a.start < b.start
    || (a.start == b.start
        && (a.kind.Priority() < b.kind.Priority() || (a.kind.Priority() == b.kind.Priority() && a.end >= b.end)))
  }

  ghost predicate InOrder(ts: seq<Token>) {
    forall i, j | 0 <= i < j < |ts| :: Before(ts[i], ts[j])
  }

  lemma BeforeIsTotal(a: Token, b: Token)
    ensures Before(a, b) || Before(b, a)
    ensures Before(a, b) && Before(b, a) ==> a == b
  {
  }

  lemma FirstIsLeast(a: seq<Token>, b: seq<Token>)
    requires InOrder(a) && a != [] && multiset(a) == multiset(b)
    ensures b != [] && forall t | t in b :: t == a[0] || Before(a[0], t)
  {
    hide Before;
    assert a[0] in multiset(a);
    forall t | t in b ensures t == a[0] || Before(a[0], t) {
      assert t in multiset(b);
      var i :| 0 <= i < |a| && a[i] == t;
    }
  }

  lemma WithoutFirst(a: seq<Token>)
    requires a != []
    ensures multiset(a[1..]) == multiset(a) - multiset{a[0]}
  {
    assert a == [a[0]] + a[1..];
  }

  /** Sorting by a key that tells all matches apart has only one result. */
  lemma {:induction false} OrderIsUnique(a: seq<Token>, b: seq<Token>)
    requires InOrder(a) && InOrder(b) && multiset(a) == multiset(b)
    ensures a == b
  {
    hide Before;
    if a == [] {
      assert |multiset(b)| == 0;
    } else {
      FirstIsLeast(a, b);
      FirstIsLeast(b, a);
      BeforeIsTotal(a[0], b[0]);
      WithoutFirst(a);
      WithoutFirst(b);
      OrderIsUnique(a[1..], b[1..]);
    }
  }

  method SortTokens(ts: seq<Token>) returns (sorted: seq<Token>)
    ensures InOrder(sorted) && multiset(sorted) == multiset(ts)
  {
    sorted := [];
    for i := 0 to |ts|
      invariant InOrder(sorted) && multiset(sorted) == multiset(ts[..i])
    {
      sorted := Insert(sorted, ts[i]);
      assert ts[..i + 1] == ts[..i] + [ts[i]];
    }
    assert ts[..|ts|] == ts;
  }

  method Insert(sorted: seq<Token>, t: Token) returns (r: seq<Token>)
    requires InOrder(sorted)
    ensures InOrder(r) && multiset(r) == multiset(sorted) + multiset{t}
  {
    hide Before;
    var k := |sorted|;
    while k > 0 && !Before(sorted[k - 1], t)
      invariant 0 <= k <= |sorted|
      invariant forall i | k <= i < |sorted| :: Before(t, sorted[i])
    {
      BeforeIsTotal(sorted[k - 1], t);
      k := k - 1;
    }
    r := sorted[..k] + [t] + sorted[k..];
    InsertKeepsOrder(sorted, t, k);
    assert sorted == sorted[..k] + sorted[k..];
  }

  lemma InsertKeepsOrder(sorted: seq<Token>, t: Token, k: nat)
    requires InOrder(sorted) && k <= |sorted| && (k > 0 ==> Before(sorted[k - 1], t))
    requires forall i | k <= i < |sorted| :: Before(t, sorted[i])
    ensures InOrder(sorted[..k] + [t] + sorted[k..])
  {
    hide Before;
    var r := sorted[..k] + [t] + sorted[k..];
    forall i, j | 0 <= i < j < |r| ensures Before(r[i], r[j]) {
      if i < k && j == k && i < k - 1 {
        BeforeIsTransitive(sorted[i], sorted[k - 1], t);
      }
    }
  }

  lemma BeforeIsTransitive(a: Token, b: Token, c: Token)
    requires Before(a, b) && Before(b, c)
    ensures Before(a, c)
  {
  }

  function LastEnd(ts: seq<Token>): nat {
    if ts == [] then 0 else ts[|ts| - 1].end
  }

  /** The greedy choice: a match is taken unless it starts inside what was taken before. */
  function Accepted(ts: seq<Token>): seq<Token> {
    if ts == [] then []
    else
      var head, last := Accepted(ts[..|ts| - 1]), ts[|ts| - 1];
      if last.start < LastEnd(head) then head else head + [last]
  }

  ghost predicate Disjoint(ts: seq<Token>) {
    forall i, j | 0 <= i < j < |ts| :: ts[i].end <= ts[j].start
  }

  ghost predicate Covered(t: Token, taken: seq<Token>) {
    exists a :: a in taken && Before(a, t) && a.start <= t.start < a.end
  }

  /** Accepted tokens are matches, stay in bounds and never overlap. */
  lemma {:induction false} AcceptedAreDisjoint(ts: seq<Token>, n: nat)
    requires forall t | t in ts :: InBounds(t, n)
    ensures Disjoint(Accepted(ts)) && forall a | a in Accepted(ts) :: a in ts
  {
    if ts != [] {
      var init, last := ts[..|ts| - 1], ts[|ts| - 1];
      AcceptedAreDisjoint(init, n);
      var head := Accepted(init);
      if last.start >= LastEnd(head) {
        LastEndsAll(head, n);
        forall i, j | 0 <= i < j < |head + [last]| ensures (head + [last])[i].end <= (head + [last])[j].start {
          assert head[i] in head;
        }
      }
    }
  }

  /** Every match is accepted, or starts inside an accepted token that comes before it in order. */
  lemma {:induction false} RejectedAreCovered(ts: seq<Token>, t: Token)
    requires InOrder(ts) && t in ts && t !in Accepted(ts)
    ensures Covered(t, Accepted(ts))
  {
    hide Before;
    var init, last := ts[..|ts| - 1], ts[|ts| - 1];
    var head := Accepted(init);
    if t in init {
      RejectedAreCovered(init, t);
      var a :| a in head && Before(a, t) && a.start <= t.start < a.end;
      assert a in Accepted(ts);
    } else {
      var a := head[|head| - 1];
      AcceptedAreMatches(init, a);
      StartsInOrder(a, last);
    }
  }

  lemma {:induction false} AcceptedAreMatches(ts: seq<Token>, a: Token)
    requires a in Accepted(ts)
    ensures a in ts
  {
    if a != ts[|ts| - 1] { AcceptedAreMatches(ts[..|ts| - 1], a); }
  }

  lemma StartsInOrder(a: Token, b: Token)
    requires Before(a, b)
    ensures a.start <= b.start
  {
  }

  lemma LastEndsAll(ts: seq<Token>, n: nat)
    requires Disjoint(ts) && forall t | t in ts :: InBounds(t, n)
    ensures forall t | t in ts :: t.end <= LastEnd(ts)
  {
    forall t | t in ts ensures t.end <= LastEnd(ts) {
      var i :| 0 <= i < |ts| && ts[i] == t;
      assert InBounds(ts[|ts| - 1], n) by { assert ts[|ts| - 1] in ts; }
    }
  }
}
