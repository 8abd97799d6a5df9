/** Block and reference ids: three fields packed into 64 bits, and why no two ids of a document meet. */
module StableIds {
  import opened Text
  import opened Octets
  import opened Content
  import opened ContentParser

  // ---- bits of naturals --------------------------------------------------

  function Xor(a: nat, b: nat): nat {
    if a == 0 && b == 0 then 0 else (if a % 2 == b % 2 then 0 else 1) + 2 * Xor(a / 2, b / 2)
  }

  /** A 64-bit left shift. */
  function Shift(n: nat, k: nat): nat {
    n * Pow2(k) % Pow2(64)
  }

  function StableId(range: SourceRange, discriminator: nat): nat {
    Xor(Xor(Shift(range.start, 32), Shift(range.end, 8)), discriminator)
  }

  lemma {:induction false} XorWithZero(a: nat)
    ensures Xor(a, 0) == a
  {
    if a > 0 { XorWithZero(a / 2); }
  }

  lemma XorStep(h: nat, b: nat)
    requires Xor(h, b / 2) == h + b / 2
    ensures Xor(2 * h, b) == 2 * h + b
  {
    assert 2 * h / 2 == h && 2 * h % 2 == 0;
    if h > 0 || b > 0 {
      assert Xor(2 * h, b) == b % 2 + 2 * Xor(h, b / 2);
    }
  }

  /** Bits that do not meet add up. */
  lemma {:induction false} XorIsSum(a: nat, k: nat, b: nat)
    requires b < Pow2(k)
    ensures Xor(a * Pow2(k), b) == a * Pow2(k) + b
  {
    hide Xor;
    if k == 0 {
      XorWithZero(a);
    } else {
      XorIsSum(a, k - 1, b / 2);
      XorStep(a * Pow2(k - 1), b);
      assert a * Pow2(k) == 2 * (a * Pow2(k - 1));
    }
  }

  lemma Powers()
    ensures Pow2(8) == 256 && Pow2(24) == 16777216 && Pow2(32) == 4294967296 && Pow2(64) == 18446744073709551616
  {
    EightBits();
    PowerSum(8, 8);
    PowerSum(16, 8);
    PowerSum(24, 8);
    PowerSum(32, 32);
  }

  lemma {:induction false} PowerSum(j: nat, k: nat)
    ensures Pow2(j + k) == Pow2(j) * Pow2(k)
  {
    if k > 0 { PowerSum(j, k - 1); }
  }

  ghost predicate Small(r: SourceRange) {
    r.start <= r.end <= MAX_CONTENT_BYTES
  }

  lemma IdFields(r: SourceRange, d: nat)
    requires Small(r) && d < 256
    ensures StableId(r, d) == r.start * 4294967296 + r.end * 256 + d
  {
    Powers();
    assert Shift(r.start, 32) == r.start * Pow2(32);
    assert Shift(r.end, 8) == r.end * Pow2(8);
    XorIsSum(r.start, 32, r.end * Pow2(8));
    PowerSum(24, 8);
    var upper := r.start * Pow2(24) + r.end;
    assert upper * Pow2(8) == r.start * Pow2(32) + r.end * Pow2(8);
    XorIsSum(upper, 8, d);
  }

  /** Within the content bound an id gives back its range and its discriminator. */
  lemma IdsAreInjective(r: SourceRange, d: nat, s: SourceRange, e: nat)
    requires Small(r) && Small(s) && d < 256 && e < 256 && StableId(r, d) == StableId(s, e)
    ensures r == s && d == e
  {
    IdFields(r, d);
    IdFields(s, e);
  }

  // ---- a document's ids --------------------------------------------------

  const BLOCK_ID := 1
  const REFERENCE_ID := 20

  lemma ParagraphBounds(block: Block, content: seq<byte>)
    requires IsParagraph(block, content)
    ensures block.source.start < block.source.end <= |content|
  {
  }

  /** Paragraphs follow one another with at least a blank line between. */
  lemma {:induction false} BlocksAreOrdered(blocks: seq<Block>, content: seq<byte>, upto: nat, i: nat, j: nat)
    requires upto <= |content| && LaidOut(blocks, content, upto) && i < |blocks| && j < |blocks|
    ensures IsParagraph(blocks[i], content) && blocks[i].source.start < blocks[i].source.end <= upto
    ensures i < j ==> blocks[i].source.end + 2 <= blocks[j].source.start
  {
    hide IsParagraph;
    var n := |blocks| - 1;
    ParagraphBounds(blocks[n], content);
    if i < n {
      BlocksAreOrdered(blocks[..n], content, blocks[n].source.start, i, n - 1);
      BlocksAreOrdered(blocks[..n], content, blocks[n].source.start, n - 1, n - 1);
      if j < n { BlocksAreOrdered(blocks[..n], content, blocks[n].source.start, i, j); }
    }
  }

  /** Every byte outside the paragraphs is a line break. */
  lemma {:induction false} OutsideAreBreaks(blocks: seq<Block>, content: seq<byte>, upto: nat, p: nat)
    requires upto <= |content| && LaidOut(blocks, content, upto) && p < upto
    requires forall b | b in blocks :: !(b.source.start <= p < b.source.end)
    ensures content[p] == NEWLINE
  {
    hide IsParagraph;
    if blocks != [] {
      var last := blocks[|blocks| - 1];
      assert last in blocks;
      ParagraphBounds(last, content);
      if p < last.source.start { OutsideAreBreaks(blocks[..|blocks| - 1], content, last.source.start, p); }
    }
  }

  /** What carries an id: a block, or a reference among its nodes. */
  datatype Site = BlockSite(block: nat) | ReferenceSite(block: nat, node: nat)

  predicate IsSite(blocks: seq<Block>, s: Site) {
    s.block < |blocks|
      && (s.ReferenceSite? ==> s.node < |blocks[s.block].inlines| && blocks[s.block].inlines[s.node].Reference?)
  }

  function RangeOf(blocks: seq<Block>, s: Site): SourceRange
    requires IsSite(blocks, s)
  {
    match s
    case BlockSite(i) => blocks[i].source
    case ReferenceSite(i, k) => blocks[i].inlines[k].source
  }

  function IdOf(blocks: seq<Block>, s: Site): nat
    requires IsSite(blocks, s)
  {
    StableId(RangeOf(blocks, s), if s.BlockSite? then BLOCK_ID else REFERENCE_ID)
  }

  lemma SiteIsInBlock(blocks: seq<Block>, content: seq<byte>, s: Site)
    requires LaidOut(blocks, content, |content|) && IsSite(blocks, s)
    ensures
      var r, b := RangeOf(blocks, s), blocks[s.block].source;
      b.start <= r.start < r.end <= b.end <= |content|
  {
    hide LaidOut, Tiles;
    BlocksAreOrdered(blocks, content, |content|, s.block, s.block);
    if s.ReferenceSite? {
      var b := blocks[s.block];
      TilesAreOrdered(b.inlines, content, b.source.start, b.source.end, s.node, s.node);
    }
  }

  /** Different sites of one kind start at different bytes. */
  lemma SitesStartApart(blocks: seq<Block>, content: seq<byte>, s: Site, t: Site)
    requires LaidOut(blocks, content, |content|) && IsSite(blocks, s) && IsSite(blocks, t)
    requires s != t && s.BlockSite? == t.BlockSite?
    ensures RangeOf(blocks, s).start != RangeOf(blocks, t).start
  {
    hide LaidOut, Tiles;
    SiteIsInBlock(blocks, content, s);
    SiteIsInBlock(blocks, content, t);
    BlocksAreOrdered(blocks, content, |content|, s.block, t.block);
    BlocksAreOrdered(blocks, content, |content|, t.block, s.block);
    if s.block == t.block {
      var b := blocks[s.block];
      TilesAreOrdered(b.inlines, content, b.source.start, b.source.end, s.node, t.node);
      TilesAreOrdered(b.inlines, content, b.source.start, b.source.end, t.node, s.node);
    }
  }

  /** No two blocks or references of a parsed document share an id. */
  lemma DocumentIdsAreDistinct(blocks: seq<Block>, content: seq<byte>, s: Site, t: Site)
    requires |content| <= MAX_CONTENT_BYTES && LaidOut(blocks, content, |content|)
    requires IsSite(blocks, s) && IsSite(blocks, t) && s != t
    ensures IdOf(blocks, s) != IdOf(blocks, t)
  {
    hide LaidOut, StableId;
    SiteIsInBlock(blocks, content, s);
    SiteIsInBlock(blocks, content, t);
    if s.BlockSite? == t.BlockSite? { SitesStartApart(blocks, content, s, t); }
    if IdOf(blocks, s) == IdOf(blocks, t) {
      IdsAreInjective(RangeOf(blocks, s), if s.BlockSite? then BLOCK_ID else REFERENCE_ID,
                      RangeOf(blocks, t), if t.BlockSite? then BLOCK_ID else REFERENCE_ID);
    }
  }
}
