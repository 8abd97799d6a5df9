/** NIP-10 reply chains of any length: what each reply reads back, whom it notifies, and the depth
    a reader computes by walking parents. */
module NoteThreads {
  import opened Wrappers
  import opened Text
  import opened Tagging

  /** `chain[0]` is a text note that names no thread, and each later note is `reply_to` the one
      before it, with whatever relay hint the replier had for it. Ids never come back to the root's. */
  ghost predicate ReplyChain(parse: UrlParser, chain: seq<Event>, hints: seq<Option<RelayUrl>>) {
    && 0 < |chain| == |hints|
    && (forall i | 0 <= i < |chain| :: chain[i].kind == TEXT_NOTE_KIND)
    && ReadPosition(parse, chain[0].tags).root.None?
    && (forall i | 0 < i < |chain| ::
          && chain[i].id != chain[0].id
          && chain[i].tags == EventParentRows(parse, chain[i - 1], hints[i], DEFAULT_OPTIONS))
  }

  /** What a written relay hint is read as. */
  function Reread(parse: UrlParser, hint: Option<RelayUrl>): Option<RelayUrl> {
    if RelayCell(hint) == "" then None else parse(RelayCell(hint))
  }

  ghost predicate Legible(parse: UrlParser, hints: seq<Option<RelayUrl>>) {
    forall i | 0 <= i < |hints| :: Reread(parse, hints[i]) == hints[i]
  }

  // ---- reading back one composed reply -----------------------------------

  lemma {:induction false} PersonRowsAreQuiet(keys: seq<Id32>, options: Options, name: string)
    requires name != "p"
    ensures Find(PersonRowsOf(keys, options), name).None?
    ensures name == "e" ==> ERows(PersonRowsOf(keys, options)) == []
  {
    if keys != [] {
      var rows := PersonRowsOf(keys, options);
      PersonRowsAreQuiet(keys[1..], options, name);
      assert rows[1..] == PersonRowsOf(keys[1..], options);
      TrimmedReads(["p", ToHex(keys[0]), RelayCell(options.relay)], 0);
    }
  }

  lemma MarkedRowReads(parse: UrlParser, p: Pointer, marker: string)
    requires p.eventId.Some? && marker in {"root", "reply"}
    ensures
      var row := MarkedRow(p, marker);
      && Named(row, "e") && Cell(row, 3) == Some(marker) && PointerFromE(parse, row).Some?
      && PointerFromE(parse, row).value.eventId == p.eventId && PointerFromE(parse, row).value.author == p.author
      && PointerFromE(parse, row).value.relay == Reread(parse, p.relay)
  {
    var cells := ["e", Text0(p.eventId), RelayCell(p.relay), marker, Text0(p.author)];
    TrimmedReads(cells, 0);
    TrimmedReads(cells, 1);
    TrimmedReads(cells, 2);
    TrimmedReads(cells, 3);
    TrimmedReads(cells, 4);
    IdRoundTrip(p.eventId.value);
    if p.author.Some? { IdRoundTrip(p.author.value); }
    MarkersAreNotIds();
  }

  /** Rows that say nothing about threads. */
  ghost predicate Quiet(rows: seq<Row>) {
    !HasCommentScope(rows) && ERows(rows) == []
  }

  lemma ReadsOneMark(parse: UrlParser, row: Row, rest: seq<Row>)
    requires Named(row, "e") && Cell(row, 3) == Some("root") && Quiet(rest)
    ensures ReadPosition(parse, [row] + rest) == ThreadPosition(PointerFromE(parse, row), None)
  {
    var rows := [row] + rest;
    assert rows[1..] == rest;
    assert ERows(rows) == [row];
    assert [row][1..] == [];
    assert Marked([row], "root") == Some(row) && Marked([row], "reply") == None;
  }

  lemma ReadsTwoMarks(parse: UrlParser, first: Row, second: Row, rest: seq<Row>)
    requires Named(first, "e") && Cell(first, 3) == Some("root") && PointerFromE(parse, first).Some?
    requires Named(second, "e") && Cell(second, 3) == Some("reply") && PointerFromE(parse, second).Some?
    requires PointerFromE(parse, first).value.eventId != PointerFromE(parse, second).value.eventId && Quiet(rest)
    ensures ReadPosition(parse, [first, second] + rest)
            == ThreadPosition(PointerFromE(parse, first), PointerFromE(parse, second))
  {
    var rows := [first, second] + rest;
    assert rows[1..] == [second] + rest && rows[1..][1..] == rest;
    forall name | name in {"E", "A", "I"} ensures Find(rows, name) == Find(rest, name) {
      assert Find(rows, name) == Find(rows[1..], name);
    }
    assert Find(rows, "E").None? && Find(rows, "A").None? && Find(rows, "I").None?;
    var e := [first, second];
    assert ERows(rows[1..]) == [second];
    assert ERows(rows) == e;
    assert e[1..] == [second];
    assert Marked(e, "root") == Some(first) && Marked(e, "reply") == Some(second);
  }

  lemma PeopleAreQuiet(keys: seq<Id32>, options: Options)
    ensures Quiet(PersonRowsOf(keys, options))
  {
    PersonRowsAreQuiet(keys, options, "E");
    PersonRowsAreQuiet(keys, options, "A");
    PersonRowsAreQuiet(keys, options, "I");
    PersonRowsAreQuiet(keys, options, "e");
  }

  /** What reply n of a chain says about its place in the thread. */
  ghost predicate ReadsBack(parse: UrlParser, chain: seq<Event>, hints: seq<Option<RelayUrl>>, n: nat)
    requires 0 < n < |chain| == |hints|
  {
    var position := ReadPosition(parse, chain[n].tags);
    && position.root.Some?
    && position.root.value.eventId == Some(chain[0].id) && position.root.value.author == Some(chain[0].pubkey)
    && (n == 1 ==> position.parent.None?)
    && (n > 1 ==> position.parent.Some? && position.parent.value.eventId == Some(chain[n - 1].id)
                  && position.parent.value.author == Some(chain[n - 1].pubkey))
    && (Legible(parse, hints) ==>
          position.root.value.relay == hints[1] && (n > 1 ==> position.parent.value.relay == hints[n]))
  }

  /** Every reply reads back to the thread's root, and from the second on to the note it answers, each with
      its author and with the relay hint it was given. */
  lemma {:induction false} RepliesReadBack(parse: UrlParser, chain: seq<Event>, hints: seq<Option<RelayUrl>>, n: nat)
    requires ReplyChain(parse, chain, hints) && 0 < n < |chain|
    ensures ReadsBack(parse, chain, hints, n)
  {
    var prior, keys := chain[n - 1],
      People(Some(chain[n - 1].pubkey), Carried(chain[n - 1].tags, DEFAULT_OPTIONS), DEFAULT_OPTIONS);
    var target, people := Target(prior, OrHint(None, hints[n])), PersonRowsOf(keys, DEFAULT_OPTIONS);
    PeopleAreQuiet(keys, DEFAULT_OPTIONS);
    if n == 1 {
      MarkedRowReads(parse, target, "root");
      ReadsOneMark(parse, MarkedRow(target, "root"), people);
    } else {
      RepliesReadBack(parse, chain, hints, n - 1);
      var root := ReadPosition(parse, prior.tags).root.value;
      MarkedRowReads(parse, root, "root");
      MarkedRowReads(parse, target, "reply");
      ReadsTwoMarks(parse, MarkedRow(root, "root"), MarkedRow(target, "reply"), people);
    }
  }

  // ---- who is notified ---------------------------------------------------

  lemma {:induction false} MentionedAppends(xs: seq<Row>, ys: seq<Row>)
    ensures Mentioned(xs + ys) == Mentioned(xs) + Mentioned(ys)
  {
    if ys == [] {
      assert xs + ys == xs;
    } else {
      MentionedAppends(xs, ys[..|ys| - 1]);
      assert (xs + ys)[..|xs + ys| - 1] == xs + ys[..|ys| - 1];
    }
  }

  lemma {:induction false} PersonRowsMention(keys: seq<Id32>, options: Options)
    ensures Mentioned(PersonRowsOf(keys, options)) == keys
  {
    if keys != [] {
      var rows, n := PersonRowsOf(keys, options), |keys| - 1;
      PersonRowsMention(keys[..n], options);
      PersonRowNames(keys[n], options);
      hide PersonRow, IdAt, Named;
      assert rows[..n] == PersonRowsOf(keys[..n], options);
      assert keys == keys[..n] + [keys[n]];
    }
  }

  lemma PersonRowNames(key: Id32, options: Options)
    ensures Named(PersonRow(key, options), "p") && IdAt(PersonRow(key, options), 1) == Some(key)
  {
    var cells := ["p", ToHex(key), RelayCell(options.relay)];
    TrimmedReads(cells, 0);
    TrimmedReads(cells, 1);
    IdRoundTrip(key);
    hide ToHex, IdFromHex, RelayCell, Trimmed;
  }

  lemma {:induction false} ThreadRowsMentionNobody(rows: seq<Row>)
    requires forall row | row in rows :: Named(row, "e")
    ensures Mentioned(rows) == []
  {
    if rows != [] {
      ThreadRowsMentionNobody(rows[..|rows| - 1]);
      assert rows[|rows| - 1] in rows;
    }
  }

  /** The authors of the first n notes and everybody the root mentions. */
  ghost predicate Involved(chain: seq<Event>, n: nat, key: Id32)
    requires 0 < |chain| && n <= |chain|
  {
    key in Mentioned(chain[0].tags) || exists i :: 0 <= i < n && chain[i].pubkey == key
  }

  /** Reply n names each author above it and each of the root's mentions, and each exactly once. */
  lemma {:induction false} RepliesNotifyEveryoneOnce(parse: UrlParser, chain: seq<Event>, hints: seq<Option<RelayUrl>>,
                                                     n: nat)
    requires ReplyChain(parse, chain, hints) && 0 < n < |chain|
    ensures NoRepeats(Mentioned(chain[n].tags))
    ensures forall key :: key in Mentioned(chain[n].tags) <==> Involved(chain, n, key)
  {
    var prior := chain[n - 1];
    var keys := People(Some(prior.pubkey), Carried(prior.tags, DEFAULT_OPTIONS), DEFAULT_OPTIONS);
    var thread := ThreadRows(parse, prior, OrHint(None, hints[n]));
    ReplyRowsAreE(parse, chain, hints, n);
    ThreadRowsMentionNobody(thread);
    PersonRowsMention(keys, DEFAULT_OPTIONS);
    MentionedAppends(thread, PersonRowsOf(keys, DEFAULT_OPTIONS));
    assert Mentioned(chain[n].tags) == keys;
    DistinctKeepsMembers([prior.pubkey] + Carried(prior.tags, DEFAULT_OPTIONS));
    DistinctKeepsMembers(Mentioned(prior.tags));
    if n > 1 { RepliesNotifyEveryoneOnce(parse, chain, hints, n - 1); }
    forall key ensures key in keys <==> Involved(chain, n, key) {
      assert key in keys <==> key == prior.pubkey || key in Mentioned(prior.tags);
      if n > 1 { assert key in Mentioned(prior.tags) <==> Involved(chain, n - 1, key); }
    }
  }

  lemma ReplyRowsAreE(parse: UrlParser, chain: seq<Event>, hints: seq<Option<RelayUrl>>, n: nat)
    requires ReplyChain(parse, chain, hints) && 0 < n < |chain|
    ensures forall row | row in ThreadRows(parse, chain[n - 1], OrHint(None, hints[n])) :: Named(row, "e")
  {
    hide MarkedRow, PointerFromE, Cell, Trimmed;
    var target := Target(chain[n - 1], OrHint(None, hints[n]));
    MarkedRowReads(parse, target, "root");
    MarkedRowReads(parse, target, "reply");
    if n > 1 {
      RepliesReadBack(parse, chain, hints, n - 1);
      MarkedRowReads(parse, ReadPosition(parse, chain[n - 1].tags).root.value, "root");
    }
  }

  // ---- depth -------------------------------------------------------------

  /** A held row: its event, and whether its signer has answered. */
  datatype HeldRow = HeldRow(event: Event, signed: bool)

  const WALK_LIMIT: nat := 64

  function ParentOf(parse: UrlParser, row: HeldRow): Option<Id32> {
    if !row.signed then None
    else
      var position := ReadPosition(parse, row.event.tags);
      if position.parent.Some? && position.parent.value.eventId.Some? then position.parent.value.eventId
      else if position.root.Some? then position.root.value.eventId
      else None
  }

  /** The walk from `cursor` towards `root` with `left` steps allowed and `depth` already counted. */
  function Walk(parse: UrlParser, table: map<Id32, HeldRow>, root: Id32, cursor: Id32, depth: nat, left: nat)
    : Option<nat>
    decreases left
  {
    if left == 0 || cursor !in table then None
    else
      var parent := ParentOf(parse, table[cursor]);
      if parent.None? then Some(depth)
      else if parent.value == root then Some(depth + 1)
      else Walk(parse, table, root, parent.value, depth + 1, left - 1)
  }

  method DepthOf(parse: UrlParser, table: map<Id32, HeldRow>, root: Id32, row: HeldRow) returns (r: Option<nat>)
    ensures r == if row.event.id == root then Some(0) else Walk(parse, table, root, row.event.id, 0, WALK_LIMIT)
    ensures r.Some? ==> r.value <= WALK_LIMIT
  {
    hide ParentOf;
    if row.event.id == root {
      return Some(0);
    }
    var depth, cursor, guard := 0, row.event.id, 0;
    while true
      invariant depth == guard <= WALK_LIMIT
      invariant Walk(parse, table, root, row.event.id, 0, WALK_LIMIT)
        == Walk(parse, table, root, cursor, depth, WALK_LIMIT - guard)
      decreases WALK_LIMIT - guard
    {
      guard := guard + 1;
      if guard > WALK_LIMIT || cursor !in table {
        return None;
      }
      var parent := ParentOf(parse, table[cursor]);
      if parent.None? {
        return Some(depth);
      }
      depth := depth + 1;
      if parent.value == root {
        return Some(depth);
      }
      cursor := parent.value;
    }
  }

  lemma ReplyParent(parse: UrlParser, chain: seq<Event>, hints: seq<Option<RelayUrl>>, n: nat)
    requires ReplyChain(parse, chain, hints) && 0 < n < |chain|
    ensures ParentOf(parse, HeldRow(chain[n], true)) == Some(chain[n - 1].id)
    ensures n > 1 ==> chain[n - 1].id != chain[0].id
  {
    RepliesReadBack(parse, chain, hints, n);
  }

  lemma {:induction false} WalkCountsReplies(parse: UrlParser, chain: seq<Event>, hints: seq<Option<RelayUrl>>,
                                             table: map<Id32, HeldRow>, n: nat, depth: nat, left: nat)
    requires ReplyChain(parse, chain, hints) && 0 < n < |chain|
    requires forall i | 0 < i <= n :: chain[i].id in table && table[chain[i].id] == HeldRow(chain[i], true)
    ensures Walk(parse, table, chain[0].id, chain[n].id, depth, left) == if n <= left then Some(depth + n) else None
    decreases n
  {
    hide ReplyChain, ParentOf;
    if left > 0 {
      ReplyParent(parse, chain, hints, n);
      assert table[chain[n].id] == HeldRow(chain[n], true);
      if n > 1 { WalkCountsReplies(parse, chain, hints, table, n - 1, depth + 1, left - 1); }
    }
  }

  /** With every row held and signed, the walk from reply n finds depth n exactly when n is within
      the walk's limit of 64, and no depth at all beyond it. */
  lemma DepthIsReplyCount(parse: UrlParser, chain: seq<Event>, hints: seq<Option<RelayUrl>>, table: map<Id32, HeldRow>,
                          n: nat)
    requires ReplyChain(parse, chain, hints) && 0 < n < |chain|
    requires forall i | 0 < i <= n :: chain[i].id in table && table[chain[i].id] == HeldRow(chain[i], true)
    ensures Walk(parse, table, chain[0].id, chain[n].id, 0, WALK_LIMIT) == if n <= 64 then Some(n) else None
  {
    hide Walk, ReplyChain;
    WalkCountsReplies(parse, chain, hints, table, n, 0, WALK_LIMIT);
  }

  ghost predicate HeldSigned(table: map<Id32, HeldRow>, e: Event) {
    e.id in table && table[e.id] == HeldRow(e, true)
  }

  /** The walk from reply n over held and signed rows down to row m, which is missing or not signed. */
  lemma {:induction false} WalkStopsAtGap(parse: UrlParser, chain: seq<Event>, hints: seq<Option<RelayUrl>>,
                                          table: map<Id32, HeldRow>, n: nat, m: nat, depth: nat, left: nat)
    requires ReplyChain(parse, chain, hints) && 0 < m <= n < |chain|
    requires forall i | m < i <= n :: HeldSigned(table, chain[i])
    requires chain[m].id !in table || !table[chain[m].id].signed
    ensures Walk(parse, table, chain[0].id, chain[n].id, depth, left) ==
      if chain[m].id in table && n - m < left then Some(depth + (n - m)) else None
    decreases n
  {
    hide ReplyChain, ParentOf;
    if m == n {
      if chain[n].id in table { UnsignedNamesNoParent(parse, table[chain[n].id]); }
    } else if left > 0 {
      assert HeldSigned(table, chain[n]);
      ReplyParent(parse, chain, hints, n);
      WalkStopsAtGap(parse, chain, hints, table, n - 1, m, depth + 1, left - 1);
    }
  }

  lemma UnsignedNamesNoParent(parse: UrlParser, row: HeldRow)
    ensures !row.signed ==> ParentOf(parse, row).None?
  {
  }

  /** A reply whose chain of parents is broken at row m gets no depth if that row is missing, and the distance
      to it if the row is held but not signed. */
  lemma DepthStopsAtGap(parse: UrlParser, chain: seq<Event>, hints: seq<Option<RelayUrl>>, table: map<Id32, HeldRow>,
                        n: nat, m: nat)
    requires ReplyChain(parse, chain, hints) && 0 < m <= n < |chain|
    requires forall i | m < i <= n :: HeldSigned(table, chain[i])
    requires chain[m].id !in table || !table[chain[m].id].signed
    ensures Walk(parse, table, chain[0].id, chain[n].id, 0, WALK_LIMIT) ==
      if chain[m].id in table && n - m < 64 then Some(n - m) else None
  {
    hide Walk, ReplyChain;
    WalkStopsAtGap(parse, chain, hints, table, n, m, 0, WALK_LIMIT);
  }

  lemma {:induction false} LastGap(chain: seq<Event>, table: map<Id32, HeldRow>, n: nat) returns (m: nat)
    requires n < |chain|
    ensures m <= n && (m > 0 ==> !HeldSigned(table, chain[m])) && forall i | m < i <= n :: HeldSigned(table, chain[i])
  {
    if n == 0 || !HeldSigned(table, chain[n]) {
      m := n;
    } else {
      m := LastGap(chain, table, n - 1);
    }
  }

  /** The walk finds a reply's true depth exactly when every row down to the root is held and signed and the
      depth is within the limit. */
  lemma DepthIsTrueExactly(parse: UrlParser, chain: seq<Event>, hints: seq<Option<RelayUrl>>, table: map<Id32, HeldRow>,
                           n: nat)
    requires ReplyChain(parse, chain, hints) && 0 < n < |chain|
    requires forall i | 0 < i <= n && chain[i].id in table :: table[chain[i].id].event == chain[i]
    ensures Walk(parse, table, chain[0].id, chain[n].id, 0, WALK_LIMIT) == Some(n) <==>
      n <= 64 && forall i | 0 < i <= n :: HeldSigned(table, chain[i])
  {
    hide ReplyChain, Walk;
    var m := LastGap(chain, table, n);
    if m > 0 {
      DepthStopsAtGap(parse, chain, hints, table, n, m);
    } else {
      DepthIsReplyCount(parse, chain, hints, table, n);
    }
  }

  /** A held reply whose parent is not held is promised depth 1, and gets it exactly when the parent is the root:
      deeper down it gets none. */
  lemma MissingParentHasNoDepth(parse: UrlParser, chain: seq<Event>, hints: seq<Option<RelayUrl>>,
                                table: map<Id32, HeldRow>, n: nat)
    requires ReplyChain(parse, chain, hints) && 0 < n < |chain|
    requires HeldSigned(table, chain[n]) && chain[n - 1].id !in table
    ensures Walk(parse, table, chain[0].id, chain[n].id, 0, WALK_LIMIT) == if n == 1 then Some(1) else None
  {
    hide ReplyChain, Walk;
    if n > 1 {
      DepthStopsAtGap(parse, chain, hints, table, n, n - 1);
    } else {
      DepthIsReplyCount(parse, chain, hints, table, n);
    }
  }
}
