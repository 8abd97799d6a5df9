/** What the nodes of a parsed document stand for, and where characters end. */
module ContentMeaning {
  import opened Wrappers
  import opened Text
  import opened Content
  import opened ContentParser

  // ---- characters --------------------------------------------------------

  type CodePoint = c: nat | c < 0x110000

  /** The UTF-8 octets of a code point. */
  function Utf8(c: CodePoint): (b: seq<byte>)
    ensures 1 <= |b| <= 4
  {
    if c < 0x80 then [c as byte]
    else if c < 0x800 then [(0xC0 + c / 64) as byte, Trail(c)]
    else if c < 0x10000 then [(0xE0 + c / 4096) as byte, Trail(c / 64), Trail(c)]
    else [(0xF0 + c / 262144) as byte, Trail(c / 4096), Trail(c / 64), Trail(c)]
  }

  function Trail(c: nat): byte {
    (0x80 + c % 64) as byte
  }

  function Encoded(cs: seq<CodePoint>): seq<byte> {
    if cs == [] then [] else Encoded(cs[..|cs| - 1]) + Utf8(cs[|cs| - 1])
  }

  lemma LeadAndTrail(c: CodePoint, i: nat)
    requires i < |Utf8(c)|
    ensures 128 <= Utf8(c)[i] < 192 <==> i > 0
  {
  }

  /** Position i is where some number of whole characters ends. */
  ghost predicate EndsCharacters(cs: seq<CodePoint>, i: nat) {
    exists k :: 0 <= k <= |cs| && i == |Encoded(cs[..k])|
  }

  lemma {:induction false} LengthsGrow(cs: seq<CodePoint>, k: nat)
    requires k <= |cs|
    ensures |Encoded(cs[..k])| + (|cs| - k) <= |Encoded(cs)|
  {
    if k == |cs| {
      assert cs[..k] == cs;
    } else {
      var init := cs[..|cs| - 1];
      LengthsGrow(init, k);
      assert init[..k] == cs[..k];
    }
  }

  /** The cut is made between characters exactly where the boundary test allows it. */
  lemma {:induction false} BoundariesAreCharacters(cs: seq<CodePoint>, i: nat)
    requires i <= |Encoded(cs)|
    ensures IsBoundary(Encoded(cs), i) <==> EndsCharacters(cs, i)
  {
    hide Utf8;
    if i == |Encoded(cs)| {
      assert cs[..|cs|] == cs;
    } else if i == 0 {
      assert cs[..0] == [];
    } else {
      var init, last := cs[..|cs| - 1], cs[|cs| - 1];
      var n := |Encoded(init)|;
      if i < n {
        BoundariesAreCharacters(init, i);
        InnerEnds(cs, i);
      } else {
        LeadAndTrail(last, i - n);
        if i == n {
          assert cs[..|init|] == init;
        } else {
          InsideIsNoEnd(cs, i);
        }
      }
    }
  }

  lemma InsideIsNoEnd(cs: seq<CodePoint>, i: nat)
    requires cs != [] && |Encoded(cs[..|cs| - 1])| < i < |Encoded(cs)|
    ensures !EndsCharacters(cs, i)
  {
    hide Utf8;
    var init := cs[..|cs| - 1];
    forall k | 0 <= k <= |cs| ensures i != |Encoded(cs[..k])| {
      if k < |cs| {
        LengthsGrow(init, k);
        assert init[..k] == cs[..k];
      } else {
        assert cs[..k] == cs;
      }
    }
  }

  lemma InnerEnds(cs: seq<CodePoint>, i: nat)
    requires cs != [] && i < |Encoded(cs[..|cs| - 1])|
    ensures EndsCharacters(cs[..|cs| - 1], i) <==> EndsCharacters(cs, i)
  {
    hide Utf8;
    var init := cs[..|cs| - 1];
    if k :| 0 <= k <= |init| && i == |Encoded(init[..k])| { assert init[..k] == cs[..k]; }
    LengthsGrow(cs, |init|);
    assert cs[..|cs|] == cs;
    if k :| 0 <= k <= |cs| && i == |Encoded(cs[..k])| {
      assert k < |cs| && init[..k] == cs[..k];
    }
  }

  // ---- nodes -------------------------------------------------------------

  /** The node a token of that kind becomes: references that decode, links and hashtags as such, and a reference that
      does not decode as text. */
  ghost predicate StandsFor(n: Node, text: seq<byte>, base: nat, t: Token, decodes: Decoder)
    requires InBounds(t, |text|)
  {
    && n.original == text[t.start..t.end] && n.source == SourceRange(base + t.start, base + t.end)
    && (n.Reference? <==> t.kind.ReferenceToken? && decodes(text[t.start..t.end]))
    && (n.Link? <==> t.kind.UrlToken?) && (n.Hashtag? <==> t.kind.HashtagToken?)
    && (n.TextNode? <==> t.kind.ReferenceToken? && !decodes(text[t.start..t.end]))
  }

  /** Every accepted token has its node. */
  lemma {:induction false} TokensHaveNodes(text: seq<byte>, base: nat, ts: seq<Token>, decodes: Decoder, i: nat)
    requires AllInBounds(ts, |text|) && i < |ts|
    ensures exists n :: n in TokenNodes(text, base, ts, decodes) && StandsFor(n, text, base, ts[i], decodes)
  {
    hide StandsFor, NodeOf, Gap;
    var init, last := ts[..|ts| - 1], ts[|ts| - 1];
    if i < |init| {
      TokensHaveNodes(text, base, init, decodes, i);
      var n :| n in TokenNodes(text, base, init, decodes) && StandsFor(n, text, base, init[i], decodes);
      assert n in TokenNodes(text, base, ts, decodes);
    } else {
      TokenNodeStands(text, base, last, decodes);
      assert NodeOf(text, base, last, decodes) in TokenNodes(text, base, ts, decodes);
    }
  }

  lemma TokenNodeStands(text: seq<byte>, base: nat, t: Token, decodes: Decoder)
    requires InBounds(t, |text|)
    ensures StandsFor(NodeOf(text, base, t, decodes), text, base, t, decodes)
  {
  }

  /** Every node that is not plain text has its token. */
  lemma {:induction false} NodesHaveTokens(text: seq<byte>, base: nat, ts: seq<Token>, decodes: Decoder, n: Node)
    requires AllInBounds(ts, |text|) && n in TokenNodes(text, base, ts, decodes) && !n.TextNode?
    ensures exists i :: 0 <= i < |ts| && StandsFor(n, text, base, ts[i], decodes)
  {
    hide StandsFor, NodeOf;
    var init, last := ts[..|ts| - 1], ts[|ts| - 1];
    if n in TokenNodes(text, base, init, decodes) {
      NodesHaveTokens(text, base, init, decodes, n);
      var i :| 0 <= i < |init| && StandsFor(n, text, base, init[i], decodes);
      assert ts[i] == init[i];
    } else {
      TokenNodeStands(text, base, last, decodes);
      assert n == NodeOf(text, base, last, decodes);
      assert StandsFor(n, text, base, ts[|ts| - 1], decodes);
    }
  }

  /** The diagnostic is about this reference, which does not decode. */
  predicate IsAbout(d: Diagnostic, text: seq<byte>, base: nat, t: Token, decodes: Decoder)
    requires InBounds(t, |text|)
  {
    && t.kind.ReferenceToken? && !decodes(text[t.start..t.end])
    && d == MalformedReference(text[t.start..t.end], SourceRange(base + t.start, base + t.end))
  }

  /** A diagnostic is raised for exactly the accepted references that do not decode. */
  lemma {:induction false} DiagnosticsAreExact(text: seq<byte>, base: nat, ts: seq<Token>, decodes: Decoder,
                                               d: Diagnostic)
    requires AllInBounds(ts, |text|)
    ensures d in Malformed(text, base, ts, decodes) <==>
      exists i :: 0 <= i < |ts| && IsAbout(d, text, base, ts[i], decodes)
  {
    if ts != [] {
      var init, last := ts[..|ts| - 1], ts[|ts| - 1];
      DiagnosticsAreExact(text, base, init, decodes, d);
      assert IsAbout(d, text, base, last, decodes) ==> d in Malformed(text, base, ts, decodes);
      if d in Malformed(text, base, ts, decodes) && d !in Malformed(text, base, init, decodes) {
        assert IsAbout(d, text, base, ts[|ts| - 1], decodes);
      }
      hide IsAbout;
      if i :| 0 <= i < |init| && IsAbout(d, text, base, init[i], decodes) {
        assert IsAbout(d, text, base, ts[i], decodes);
      }
      if i :| 0 <= i < |ts| && IsAbout(d, text, base, ts[i], decodes) {
        if i < |init| { assert IsAbout(d, text, base, init[i], decodes); }
      }
    }
  }

  /** Splitting at line breaks touches plain text only: every other node stays, and no other node appears but breaks. */
  lemma {:induction false} SplitKeepsOthers(nodes: seq<Node>, n: Node)
    requires !n.TextNode? && !n.HardBreak?
    ensures n in Split(nodes) <==> n in nodes
  {
    if nodes != [] {
      var init, last := nodes[..|nodes| - 1], nodes[|nodes| - 1];
      SplitKeepsOthers(init, n);
      assert nodes == init + [last];
      if last.TextNode? && n in SplitText(last.original, last.source.start) {
        SplitTextIsText(last.original, last.source.start, n);
      }
    }
  }

  lemma SplitTextIsText(text: seq<byte>, at: nat, n: Node)
    requires n in SplitText(text, at)
    ensures n.TextNode? || n.HardBreak?
  {
    if n in Lines(text, at, |text|) { LinesAreText(text, at, |text|, n); }
  }

  lemma {:induction false} LinesAreText(text: seq<byte>, at: nat, i: nat, n: Node)
    requires i <= |text| && n in Lines(text, at, i)
    ensures n.TextNode? || n.HardBreak?
  {
    if n in Lines(text, at, i - 1) { LinesAreText(text, at, i - 1, n); }
  }

  // ---- the choice among matches ------------------------------------------

  /** References are preferred to links and hashtags, links to hashtags. */
  predicate Preferred(a: TokenKind, b: TokenKind) {
    (a.ReferenceToken? && !b.ReferenceToken?) || (a.UrlToken? && b.HashtagToken?)
  }

  /** A match loses only to an accepted one that starts before it and reaches into it, or that starts where it does and
      is of a preferred kind, or of its own kind and no shorter. */
  ghost predicate LosesTo(t: Token, a: Token) {
    || a.start < t.start < a.end
    || (a.start == t.start < a.end && (Preferred(a.kind, t.kind) || (a.kind == t.kind && t.end <= a.end)))
  }

  lemma RejectedLose(ts: seq<Token>, t: Token)
    requires InOrder(ts) && t in ts && t !in Accepted(ts)
    ensures exists a :: a in Accepted(ts) && LosesTo(t, a)
  {
    RejectedAreCovered(ts, t);
    var a :| a in Accepted(ts) && Before(a, t) && a.start <= t.start < a.end;
    assert LosesTo(t, a);
  }

  // ---- paragraphs --------------------------------------------------------

  /** A paragraph holds no blank line and begins with something else than a line break, and between two paragraphs
      there is nothing but line breaks, two at least. */
  lemma ParagraphsAreSeparate(blocks: seq<Block>, content: seq<byte>, upto: nat)
    requires upto <= |content| && LaidOut(blocks, content, upto)
    ensures forall b | b in blocks ::
      && b.source.start < b.source.end <= upto && content[b.source.start] != 10
      && forall i | b.source.start <= i < b.source.end && i + 1 < |content| :: content[i] != 10 || content[i + 1] != 10
    ensures |blocks| > 1 ==>
      var a, b := blocks[|blocks| - 2].source.end, blocks[|blocks| - 1].source.start;
      a + 2 <= b && forall i | a <= i < b :: content[i] == 10
    decreases |blocks|
  {
    hide Tiles, Unbroken;
    if blocks != [] {
      var init, last := blocks[..|blocks| - 1], blocks[|blocks| - 1];
      ParagraphsAreSeparate(init, content, last.source.start);
      forall i | last.source.start <= i < last.source.end && i + 1 < |content|
        ensures content[i] != 10 || content[i + 1] != 10
      {
        assert !DoubleBreakAt(content, i);
      }
      assert blocks == init + [last];
    }
  }
}
