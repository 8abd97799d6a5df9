/** The plain-text parser, and that its document is a lossless tiling of the content. */
module ContentParser {
  import opened Text
  import opened Content

  /** Where the patterns match in a paragraph: any matches at all, in any order. */
  type Finder = seq<byte> -> seq<Token>

  /** Whether a matched reference decodes to an entity. */
  type Decoder = seq<byte> -> bool

  ghost predicate FindsInBounds(find: Finder) {
    forall text, t | t in find(text) :: InBounds(t, |text|)
  }

  // ---- inline nodes ------------------------------------------------------

  function Gap(text: seq<byte>, base: nat, a: nat, b: nat): seq<Node>
    requires b <= |text|
  {
    if a < b then [TextNode(text[a..b], SourceRange(base + a, base + b))] else []
  }

  function NodeOf(text: seq<byte>, base: nat, t: Token, decodes: Decoder): Node
    requires InBounds(t, |text|)
  {
    var original, source := text[t.start..t.end], SourceRange(base + t.start, base + t.end);
    match t.kind
    case ReferenceToken => if decodes(original) then Reference(original, source) else TextNode(original, source)
    case UrlToken => Link(original, source)
    case HashtagToken => Hashtag(original, source)
  }

  ghost predicate AllInBounds(ts: seq<Token>, n: nat) {
    forall i | 0 <= i < |ts| :: InBounds(ts[i], n)
  }

  /** The paragraph's text is the content from `base` on. */
  ghost predicate IsPart(text: seq<byte>, content: seq<byte>, base: nat) {
    base + |text| <= |content| && text == content[base..base + |text|]
  }

  lemma PartOfPart(text: seq<byte>, content: seq<byte>, base: nat, a: nat, b: nat)
    requires IsPart(text, content, base) && a <= b <= |text|
    ensures base + b <= |content| && text[a..b] == content[base + a..base + b]
  {
    forall i | 0 <= i < b - a ensures text[a..b][i] == content[base + a..base + b][i] {
      assert text[a + i] == content[base..base + |text|][a + i];
    }
  }

  function TokenNodes(text: seq<byte>, base: nat, ts: seq<Token>, decodes: Decoder): seq<Node>
    requires AllInBounds(ts, |text|)
  {
    if ts == [] then []
    else
      var init, last := ts[..|ts| - 1], ts[|ts| - 1];
      TokenNodes(text, base, init, decodes) + Gap(text, base, LastEnd(init), last.start)
        + [NodeOf(text, base, last, decodes)]
  }

  /** One diagnostic for each accepted reference that does not decode. */
  function Malformed(text: seq<byte>, base: nat, ts: seq<Token>, decodes: Decoder): seq<Diagnostic>
    requires AllInBounds(ts, |text|)
  {
    if ts == [] then []
    else
      var init, last := ts[..|ts| - 1], ts[|ts| - 1];
      Malformed(text, base, init, decodes)
      + if last.kind.ReferenceToken? && !decodes(text[last.start..last.end])
        then [MalformedReference(text[last.start..last.end], SourceRange(base + last.start, base + last.end))] else []
  }

  lemma GapTiles(content: seq<byte>, text: seq<byte>, base: nat, a: nat, b: nat)
    requires a <= b <= |text| && IsPart(text, content, base)
    ensures base + b <= |content| && Tiles(Gap(text, base, a, b), content, base + a, base + b)
  {
    PartOfPart(text, content, base, a, b);
    if a < b {
      OneTile(Gap(text, base, a, b)[0], content);
    }
  }

  lemma AppendToken(content: seq<byte>, text: seq<byte>, base: nat, nodes: seq<Node>, at: nat, t: Token,
                    decodes: Decoder)
    requires IsPart(text, content, base) && InBounds(t, |text|) && at <= t.start
    requires base + |text| <= |content| && Tiles(nodes, content, base, base + at)
    ensures Tiles(nodes + Gap(text, base, at, t.start) + [NodeOf(text, base, t, decodes)], content, base, base + t.end)
  {
    hide Tiles, IsPart, Gap;
    GapTiles(content, text, base, at, t.start);
    PartOfPart(text, content, base, t.start, t.end);
    OneTile(NodeOf(text, base, t, decodes), content);
    TilingsJoin(nodes, Gap(text, base, at, t.start), content, base, base + at, base + t.start);
    TilingsJoin(nodes + Gap(text, base, at, t.start), [NodeOf(text, base, t, decodes)], content, base, base + t.start,
      base + t.end);
  }

  /** Between two accepted tokens lies exactly the text between them. */
  lemma {:induction false} TokenNodesTile(content: seq<byte>, text: seq<byte>, base: nat, ts: seq<Token>,
                                          decodes: Decoder)
    requires IsPart(text, content, base) && AllInBounds(ts, |text|) && Disjoint(ts)
    ensures base + LastEnd(ts) <= base + |text| <= |content|
      && Tiles(TokenNodes(text, base, ts, decodes), content, base, base + LastEnd(ts))
  {
    hide Tiles, IsPart, Gap;
    PartOfPart(text, content, base, 0, |text|);
    if ts == [] {
      EmptyTiles(content, base);
    } else {
      var init, last := ts[..|ts| - 1], ts[|ts| - 1];
      TokenNodesTile(content, text, base, init, decodes);
      assert init != [] ==> LastEnd(init) <= last.start;
      AppendToken(content, text, base, TokenNodes(text, base, init, decodes), LastEnd(init), last, decodes);
    }
  }

  lemma EmptyTiles(content: seq<byte>, at: nat)
    requires at <= |content|
    ensures Tiles([], content, at, at)
  {
  }

  function Inlines(text: seq<byte>, base: nat, taken: seq<Token>, decodes: Decoder): seq<Node>
    requires AllInBounds(taken, |text|)
  {
    TokenNodes(text, base, taken, decodes) + Gap(text, base, LastEnd(taken), |text|)
  }

  lemma InlinesTile(content: seq<byte>, text: seq<byte>, base: nat, taken: seq<Token>, decodes: Decoder)
    requires IsPart(text, content, base) && AllInBounds(taken, |text|) && Disjoint(taken)
    ensures base + |text| <= |content| && Tiles(Inlines(text, base, taken, decodes), content, base, base + |text|)
  {
    hide Tiles, TokenNodes, Gap, IsPart;
    TokenNodesTile(content, text, base, taken, decodes);
    GapTiles(content, text, base, LastEnd(taken), |text|);
    TilingsJoin(TokenNodes(text, base, taken, decodes), Gap(text, base, LastEnd(taken), |text|), content,
                base, base + LastEnd(taken), base + |text|);
  }

  /** The matches the greedy pass keeps, in order. */
  ghost predicate IsChoice(matches: seq<Token>, taken: seq<Token>) {
    exists sorted :: InOrder(sorted) && multiset(sorted) == multiset(matches) && taken == Accepted(sorted)
  }

  method Accept(sorted: seq<Token>) returns (accepted: seq<Token>)
    ensures accepted == Accepted(sorted)
  {
    accepted := [];
    var cursor := 0;
    for i := 0 to |sorted|
      invariant accepted == Accepted(sorted[..i]) && cursor == LastEnd(accepted)
    {
      assert sorted[..i + 1][..i] == sorted[..i];
      if sorted[i].start < cursor {
        continue;
      }
      cursor := sorted[i].end;
      accepted := accepted + [sorted[i]];
    }
    assert sorted[..|sorted|] == sorted;
  }

  /** Appends the text of a range, if there is any. */
  method PushText(nodes: seq<Node>, text: seq<byte>, base: nat, a: nat, b: nat) returns (more: seq<Node>)
    requires b <= |text|
    ensures more == nodes + Gap(text, base, a, b)
  {
    more := nodes;
    if a < b {
      more := nodes + [TextNode(text[a..b], SourceRange(base + a, base + b))];
    }
  }

  method PushToken(nodes: seq<Node>, text: seq<byte>, base: nat, item: Token, decodes: Decoder)
    returns (more: seq<Node>, malformed: seq<Diagnostic>)
    requires InBounds(item, |text|)
    ensures more == nodes + [NodeOf(text, base, item, decodes)]
    ensures malformed
      == if item.kind.ReferenceToken? && !decodes(text[item.start..item.end])
         then [MalformedReference(text[item.start..item.end], SourceRange(base + item.start, base + item.end))] else []
  {
    malformed := [];
    var original, source := text[item.start..item.end], SourceRange(base + item.start, base + item.end);
    match item.kind {
      case ReferenceToken =>
        if decodes(original) {
          more := nodes + [Reference(original, source)];
        } else {
          malformed := [MalformedReference(original, source)];
          more := nodes + [TextNode(original, source)];
        }
      case UrlToken => more := nodes + [Link(original, source)];
      case HashtagToken => more := nodes + [Hashtag(original, source)];
    }
  }

  method BuildNodes(text: seq<byte>, base: nat, accepted: seq<Token>, decodes: Decoder)
    returns (nodes: seq<Node>, malformed: seq<Diagnostic>)
    requires AllInBounds(accepted, |text|)
    ensures nodes == Inlines(text, base, accepted, decodes) && malformed == Malformed(text, base, accepted, decodes)
  {
    hide NodeOf, Gap;
    nodes, malformed := [], [];
    var cursor := 0;
    for i := 0 to |accepted|
      invariant cursor == LastEnd(accepted[..i]) && nodes == TokenNodes(text, base, accepted[..i], decodes)
      invariant malformed == Malformed(text, base, accepted[..i], decodes)
    {
      var item := accepted[i];
      assert accepted[..i + 1][..i] == accepted[..i];
      nodes := PushText(nodes, text, base, cursor, item.start);
      var diagnostics;
      nodes, diagnostics := PushToken(nodes, text, base, item, decodes);
      malformed := malformed + diagnostics;
      cursor := item.end;
    }
    assert accepted[..|accepted|] == accepted;
    nodes := PushText(nodes, text, base, cursor, |text|);
  }

  /** The nodes and diagnostics of the greedy choice `taken` among the matches. */
  ghost predicate IsTokenized(text: seq<byte>, base: nat, find: Finder, decodes: Decoder, taken: seq<Token>,
                              nodes: seq<Node>, malformed: seq<Diagnostic>)
  {
    && AllInBounds(taken, |text|) && Disjoint(taken) && IsChoice(find(text), taken)
    && nodes == Inlines(text, base, taken, decodes) && malformed == Malformed(text, base, taken, decodes)
  }

  method TokenizeInline(text: seq<byte>, base: nat, find: Finder, decodes: Decoder)
    returns (nodes: seq<Node>, malformed: seq<Diagnostic>)
    requires FindsInBounds(find)
    ensures exists taken :: IsTokenized(text, base, find, decodes, taken, nodes, malformed)
  {
    hide Inlines, Before, Malformed;
    var sorted := SortTokens(find(text));
    SortedInBounds(find(text), sorted, |text|);
    AcceptedAreDisjoint(sorted, |text|);
    var accepted := Accept(sorted);
    nodes, malformed := BuildNodes(text, base, accepted, decodes);
    assert IsTokenized(text, base, find, decodes, accepted, nodes, malformed);
  }

  lemma SortedInBounds(matches: seq<Token>, sorted: seq<Token>, n: nat)
    requires multiset(sorted) == multiset(matches) && forall t | t in matches :: InBounds(t, n)
    ensures AllInBounds(sorted, n)
  {
    forall t | t in sorted ensures InBounds(t, n) {
      assert t in multiset(sorted);
    }
  }

  // ---- line breaks -------------------------------------------------------

  /** Where the line that position `i` is on begins. */
  function LineStart(text: seq<byte>, i: nat): (n: nat)
    requires i <= |text|
    ensures n <= i
  {
    if i == 0 then 0 else if text[i - 1] == NEWLINE then i else LineStart(text, i - 1)
  }

  /** The lines and breaks that end before position `i`. */
  function Lines(text: seq<byte>, at: nat, i: nat): seq<Node>
    requires i <= |text|
  {
    if i == 0 then []
    else if text[i - 1] == NEWLINE then
      Lines(text, at, i - 1) + Gap(text, at, LineStart(text, i - 1), i - 1)
      + [HardBreak([NEWLINE], SourceRange(at + i - 1, at + i))]
    else Lines(text, at, i - 1)
  }

  function SplitText(text: seq<byte>, at: nat): seq<Node> {
    Lines(text, at, |text|) + Gap(text, at, LineStart(text, |text|), |text|)
  }

  function Split(nodes: seq<Node>): seq<Node> {
    if nodes == [] then []
    else
      var last := nodes[|nodes| - 1];
      Split(nodes[..|nodes| - 1]) + if last.TextNode? then SplitText(last.original, last.source.start) else [last]
  }

  lemma {:induction false} LinesTile(content: seq<byte>, text: seq<byte>, at: nat, i: nat)
    requires IsPart(text, content, at) && i <= |text|
    ensures at + i <= |content| && Tiles(Lines(text, at, i), content, at, at + LineStart(text, i))
  {
    hide Tiles, Gap, IsPart;
    PartOfPart(text, content, at, 0, |text|);
    if i == 0 {
      EmptyTiles(content, at);
    } else {
      LinesTile(content, text, at, i - 1);
      if text[i - 1] == NEWLINE {
        AppendBreak(content, text, at, Lines(text, at, i - 1), LineStart(text, i - 1), i);
      }
    }
  }

  lemma AppendBreak(content: seq<byte>, text: seq<byte>, at: nat, nodes: seq<Node>, from: nat, i: nat)
    requires IsPart(text, content, at) && 0 < i <= |text| && text[i - 1] == NEWLINE && from <= i - 1
    requires at + |text| <= |content| && Tiles(nodes, content, at, at + from)
    ensures Tiles(nodes + Gap(text, at, from, i - 1) + [HardBreak([NEWLINE], SourceRange(at + i - 1, at + i))],
                  content, at, at + i)
  {
    hide Tiles, IsPart, Gap;
    var end := HardBreak([NEWLINE], SourceRange(at + i - 1, at + i));
    GapTiles(content, text, at, from, i - 1);
    PartOfPart(text, content, at, i - 1, i);
    assert text[i - 1..i] == [NEWLINE];
    OneTile(end, content);
    TilingsJoin(nodes, Gap(text, at, from, i - 1), content, at, at + from, at + i - 1);
    TilingsJoin(nodes + Gap(text, at, from, i - 1), [end], content, at, at + i - 1, at + i);
  }

  lemma SplitTextTiles(content: seq<byte>, text: seq<byte>, at: nat)
    requires IsPart(text, content, at)
    ensures at + |text| <= |content| && Tiles(SplitText(text, at), content, at, at + |text|)
  {
    hide Tiles, Gap, IsPart, Lines;
    LinesTile(content, text, at, |text|);
    GapTiles(content, text, at, LineStart(text, |text|), |text|);
    TilingsJoin(Lines(text, at, |text|), Gap(text, at, LineStart(text, |text|), |text|), content,
                at, at + LineStart(text, |text|), at + |text|);
  }

  lemma TilesNothing(content: seq<byte>, start: nat, end: nat)
    requires start <= end <= |content|
    ensures Tiles([], content, start, end) <==> start == end
  {
  }

  lemma TilesLast(nodes: seq<Node>, content: seq<byte>, start: nat, end: nat)
    requires start <= end <= |content| && Tiles(nodes, content, start, end) && nodes != []
    ensures
      var last := nodes[|nodes| - 1];
      && start <= last.source.start < last.source.end == end
      && last.original == content[last.source.start..end]
      && IsPart(last.original, content, last.source.start)
      && Tiles(nodes[..|nodes| - 1], content, start, last.source.start)
  {
  }

  /** Splitting at line breaks keeps the tiling. */
  lemma {:induction false} SplitTiles(nodes: seq<Node>, content: seq<byte>, start: nat, end: nat)
    requires start <= end <= |content| && Tiles(nodes, content, start, end)
    ensures Tiles(Split(nodes), content, start, end)
  {
    hide SplitText, Tiles;
    if nodes == [] {
      TilesNothing(content, start, end);
    } else {
      var init, last := nodes[..|nodes| - 1], nodes[|nodes| - 1];
      TilesLast(nodes, content, start, end);
      SplitTiles(init, content, start, last.source.start);
      if last.TextNode? {
        SplitTextTiles(content, last.original, last.source.start);
        TilingsJoin(Split(init), SplitText(last.original, last.source.start), content, start, last.source.start, end);
      } else {
        OneTile(last, content);
        TilingsJoin(Split(init), [last], content, start, last.source.start, end);
      }
    }
  }

  ghost predicate Unbroken(nodes: seq<Node>) {
    forall n | n in nodes :: n.TextNode? ==> NEWLINE !in n.original
  }

  lemma {:induction false} LineHasNoBreak(text: seq<byte>, i: nat)
    requires i <= |text|
    ensures NEWLINE !in text[LineStart(text, i)..i]
  {
    if i > 0 && text[i - 1] != NEWLINE {
      LineHasNoBreak(text, i - 1);
      assert text[LineStart(text, i)..i] == text[LineStart(text, i - 1)..i - 1] + [text[i - 1]];
    }
  }

  lemma {:induction false} LinesAreUnbroken(text: seq<byte>, at: nat, i: nat)
    requires i <= |text|
    ensures Unbroken(Lines(text, at, i))
  {
    if i > 0 {
      LinesAreUnbroken(text, at, i - 1);
      LineHasNoBreak(text, i - 1);
    }
  }

  /** No text node keeps a line break. */
  lemma {:induction false} SplitIsUnbroken(nodes: seq<Node>)
    ensures Unbroken(Split(nodes))
  {
    if nodes != [] {
      SplitIsUnbroken(nodes[..|nodes| - 1]);
      var last := nodes[|nodes| - 1];
      LinesAreUnbroken(last.original, last.source.start, |last.original|);
      LineHasNoBreak(last.original, |last.original|);
    }
  }

  method SplitLineBreaks(original: seq<Node>) returns (nodes: seq<Node>)
    ensures nodes == Split(original)
  {
    hide SplitText;
    nodes := [];
    for k := 0 to |original|
      invariant nodes == Split(original[..k])
    {
      assert original[..k + 1][..k] == original[..k];
      if !original[k].TextNode? {
        nodes := nodes + [original[k]];
        continue;
      }
      var pieces := SplitOne(original[k].original, original[k].source.start);
      nodes := nodes + pieces;
    }
    assert original[..|original|] == original;
  }

  method SplitOne(text: seq<byte>, at: nat) returns (nodes: seq<Node>)
    ensures nodes == SplitText(text, at)
  {
    hide Gap;
    nodes := [];
    var cursor := 0;
    for index := 0 to |text|
      invariant cursor == LineStart(text, index) && nodes == Lines(text, at, index)
    {
      if text[index] == NEWLINE {
        nodes := PushText(nodes, text, at, cursor, index);
        nodes := nodes + [HardBreak([NEWLINE], SourceRange(at + index, at + index + 1))];
        cursor := index + 1;
      }
    }
    nodes := PushText(nodes, text, at, cursor, |text|);
  }

  // ---- paragraphs --------------------------------------------------------

  predicate DoubleBreakAt(content: seq<byte>, i: nat) {
    i + 1 < |content| && content[i] == NEWLINE && content[i + 1] == NEWLINE
  }

  /** The next blank line, or the end of the content. */
  method FindParagraphEnd(content: seq<byte>, start: nat) returns (end: nat)
    requires start < |content|
    ensures start <= end <= |content| && (end < |content| ==> DoubleBreakAt(content, end))
    ensures forall i | start <= i < end :: !DoubleBreakAt(content, i)
  {
    var index := start;
    while index + 1 < |content|
      invariant start <= index < |content|
      invariant forall i | start <= i < index :: !DoubleBreakAt(content, i)
    {
      if content[index] == NEWLINE && content[index + 1] == NEWLINE {
        return index;
      }
      index := index + 1;
    }
    return |content|;
  }

  ghost predicate AllBreaks(content: seq<byte>, a: nat, b: nat)
    requires b <= |content|
  {
    forall i | a <= i < b :: content[i] == NEWLINE
  }

  /** One paragraph: it starts with something other than a break, holds no blank line, and its nodes tile it
      with every break in a node of its own. */
  ghost predicate IsParagraph(block: Block, content: seq<byte>)
  {
    var s, e := block.source.start, block.source.end;
    && s < e <= |content| && content[s] != NEWLINE
    && (forall i | s <= i < e :: !DoubleBreakAt(content, i))
    && Tiles(block.inlines, content, s, e) && Unbroken(block.inlines)
  }

  /** The content up to a position: paragraphs in order with only breaks around them, two at least between. */
  ghost predicate LaidOut(blocks: seq<Block>, content: seq<byte>, upto: nat)
    requires upto <= |content|
  {
    if blocks == [] then AllBreaks(content, 0, upto)
    else
      var init, last := blocks[..|blocks| - 1], blocks[|blocks| - 1];
      && IsParagraph(last, content) && last.source.end <= upto && AllBreaks(content, last.source.end, upto)
      && (init != [] ==> init[|init| - 1].source.end + 2 <= last.source.start)
      && LaidOut(init, content, last.source.start)
  }

  /** The paragraph's nodes come from the greedy choice among its matches, one diagnostic for each bad reference. */
  ghost predicate Tokenized(block: Block, malformed: seq<Diagnostic>, content: seq<byte>, find: Finder,
                            decodes: Decoder)
    requires block.source.start <= block.source.end <= |content|
  {
    var text, base := content[block.source.start..block.source.end], block.source.start;
    exists taken, nodes :: IsTokenized(text, base, find, decodes, taken, nodes, malformed)
      && block.inlines == Split(nodes)
  }

  method ParagraphBlock(content: seq<byte>, start: nat, end: nat, find: Finder, decodes: Decoder)
    returns (block: Block, malformed: seq<Diagnostic>)
    requires FindsInBounds(find) && start < end <= |content| && content[start] != NEWLINE
    requires forall i | start <= i < end :: !DoubleBreakAt(content, i)
    ensures IsParagraph(block, content) && block.source == SourceRange(start, end)
    ensures Tokenized(block, malformed, content, find, decodes)
  {
    hide Tiles, Inlines, Split, Malformed, IsChoice;
    var text := content[start..end];
    var nodes;
    nodes, malformed := TokenizeInline(text, start, find, decodes);
    ghost var taken :| IsTokenized(text, start, find, decodes, taken, nodes, malformed);
    InlinesTile(content, text, start, taken, decodes);
    SplitTiles(nodes, content, start, end);
    SplitIsUnbroken(nodes);
    var inlines := SplitLineBreaks(nodes);
    block := Block(SourceRange(start, end), inlines);
  }

  lemma BreaksExtend(blocks: seq<Block>, content: seq<byte>, from: nat, to: nat)
    requires from <= to <= |content| && LaidOut(blocks, content, from) && AllBreaks(content, from, to)
    ensures LaidOut(blocks, content, to)
  {
  }

  lemma BlockExtends(blocks: seq<Block>, block: Block, content: seq<byte>)
    requires IsParagraph(block, content) && LaidOut(blocks, content, block.source.start)
    requires blocks != [] ==> blocks[|blocks| - 1].source.end + 2 <= block.source.start
    ensures LaidOut(blocks + [block], content, block.source.end)
  {
    var more := blocks + [block];
    assert more[..|more| - 1] == blocks;
  }

  method SkipBreaks(content: seq<byte>, from: nat) returns (start: nat)
    requires from <= |content|
    ensures from <= start <= |content| && AllBreaks(content, from, start)
      && (start < |content| ==> content[start] != NEWLINE)
  {
    start := from;
    while start < |content| && content[start] == NEWLINE
      invariant from <= start <= |content| && AllBreaks(content, from, start)
    {
      start := start + 1;
    }
  }

  /** The whole document. */
  method ParsePlain(content: seq<byte>, find: Finder, decodes: Decoder)
    returns (blocks: seq<Block>, malformed: seq<seq<Diagnostic>>)
    requires FindsInBounds(find)
    ensures LaidOut(blocks, content, |content|) && |malformed| == |blocks|
    ensures forall i | 0 <= i < |blocks| ::
      IsParagraph(blocks[i], content) && Tokenized(blocks[i], malformed[i], content, find, decodes)
  {
    hide IsParagraph, LaidOut, Tokenized;
    blocks, malformed := [], [];
    var start := 0;
    assert LaidOut(blocks, content, start) by { NothingLaidOut(content); }
    while start < |content|
      invariant start <= |content| && LaidOut(blocks, content, start) && |malformed| == |blocks|
      invariant blocks != [] ==>
        blocks[|blocks| - 1].source.end == start && (start < |content| ==> DoubleBreakAt(content, start))
      invariant forall i | 0 <= i < |blocks| ::
        blocks[i].source.start <= blocks[i].source.end <= |content| && IsParagraph(blocks[i], content)
        && Tokenized(blocks[i], malformed[i], content, find, decodes)
    {
      var next := SkipBreaks(content, start);
      BreaksExtend(blocks, content, start, next);
      if next >= |content| {
        break;
      }
      var end := FindParagraphEnd(content, next);
      var block, diagnostics := ParagraphBlock(content, next, end, find, decodes);
      BlockExtends(blocks, block, content);
      blocks, malformed, start := blocks + [block], malformed + [diagnostics], end;
    }
  }

  lemma NothingLaidOut(content: seq<byte>)
    ensures LaidOut([], content, 0)
  {
  }

  function Joined(lists: seq<seq<Diagnostic>>): seq<Diagnostic> {
    if lists == [] then [] else Joined(lists[..|lists| - 1]) + lists[|lists| - 1]
  }

  /** Every block is the tokenized text of its paragraph, and the diagnostics are what bounding and then each
      paragraph in turn reported. */
  ghost predicate Reported(content: seq<byte>, input: seq<byte>, blocks: seq<Block>, malformed: seq<seq<Diagnostic>>,
                           diagnostics: seq<Diagnostic>, find: Finder, decodes: Decoder)
  {
    && |malformed| == |blocks|
    && (forall i | 0 <= i < |blocks| ::
          IsParagraph(blocks[i], input) && Tokenized(blocks[i], malformed[i], input, find, decodes))
    && diagnostics == (if input == content then [] else [InputTruncated(|content|, |input|)]) + Joined(malformed)
  }

  /** Bounding and parsing together: the document tiles the part of the content that was kept, and the diagnostics
      are the truncation, if any, followed by the malformed candidates in paragraph order. */
  method ParseContent(content: seq<byte>, find: Finder, decodes: Decoder)
    returns (input: seq<byte>, blocks: seq<Block>, diagnostics: seq<Diagnostic>)
    requires FindsInBounds(find)
    ensures input <= content && |input| <= MAX_CONTENT_BYTES && IsBoundary(content, |input|)
    ensures forall i | |input| < i <= |content| && i <= MAX_CONTENT_BYTES :: !IsBoundary(content, i)
    ensures |content| <= MAX_CONTENT_BYTES <==> input == content
    ensures LaidOut(blocks, input, |input|)
    ensures exists malformed :: Reported(content, input, blocks, malformed, diagnostics, find, decodes)
  {
    hide LaidOut, IsParagraph, Tokenized, IsBoundary;
    var malformed, bounding;
    input, bounding := BoundedInput(content);
    blocks, malformed := ParsePlain(input, find, decodes);
    diagnostics := bounding;
    for i := 0 to |malformed|
      invariant diagnostics == bounding + Joined(malformed[..i])
    {
      assert malformed[..i + 1][..i] == malformed[..i];
      diagnostics := diagnostics + malformed[i];
    }
    assert malformed[..|malformed|] == malformed;
    assert Reported(content, input, blocks, malformed, diagnostics, find, decodes);
  }
}
