/** NIP-22 threads keep one root at every depth; and exactly which comments the decoder accepts. */
module CommentThreads {
  import opened Wrappers
  import opened Text
  import opened Tagging
  import opened Comments

  // ---- rows by letter ----------------------------------------------------

  lemma {:induction false} NamedAppends(xs: seq<Row>, ys: seq<Row>, name: string)
    ensures RowsNamed(xs + ys, name) == RowsNamed(xs, name) + RowsNamed(ys, name)
  {
    if xs == [] {
      assert xs + ys == ys;
    } else {
      NamedAppends(xs[1..], ys, name);
      assert (xs + ys)[1..] == xs[1..] + ys;
    }
  }

  lemma {:induction false} FindIsFirst(rows: seq<Row>, name: string)
    ensures Find(rows, name) == if RowsNamed(rows, name) == [] then None else Some(RowsNamed(rows, name)[0])
  {
    if rows != [] { FindIsFirst(rows[1..], name); }
  }

  lemma NamedOne(row: Row, name: string)
    ensures RowsNamed([row], name) == if Named(row, name) then [row] else []
  {
    assert [row][1..] == [];
  }

  /** A composed row keeps its name and its second cell. */
  lemma ComposedRow(cells: Row, name: string)
    requires |cells| >= 2 && cells[0] != ""
    ensures Named(Trimmed(cells), name) <==> cells[0] == name
    ensures |Trimmed(cells)| > 1 && Trimmed(cells)[1] == cells[1]
    ensures RowsNamed([Trimmed(cells)], name) == if cells[0] == name then [Trimmed(cells)] else []
  {
    TrimmedReads(cells, 0);
    assert Trimmed(cells)[..2][1] == cells[..2][1];
    NamedOne(Trimmed(cells), name);
  }

  lemma {:induction false} PersonRowsNamed(keys: seq<Id32>, options: Options, name: string)
    ensures RowsNamed(PersonRowsOf(keys, options), name) == if name == "p" then PersonRowsOf(keys, options) else []
  {
    if keys != [] {
      var rows := PersonRowsOf(keys, options);
      PersonRowsNamed(keys[1..], options, name);
      assert rows[1..] == PersonRowsOf(keys[1..], options);
      assert rows == [rows[0]] + rows[1..];
      ComposedRow(["p", ToHex(keys[0]), RelayCell(options.relay)], name);
    }
  }

  lemma RowIfNamed(some: bool, cells: Row, name: string)
    requires |cells| >= 2 && cells[0] != ""
    ensures RowsNamed(RowIf(some, cells), name) == RowIf(some && cells[0] == name, cells)
  {
    ComposedRow(cells, name);
  }

  lemma NamedAppends4(a: seq<Row>, b: seq<Row>, c: seq<Row>, d: seq<Row>, name: string)
    ensures RowsNamed(a + b + c + d, name) == RowsNamed(a, name) + RowsNamed(b, name) + RowsNamed(c, name)
      + RowsNamed(d, name)
  {
    NamedAppends(a + b + c, d, name);
    NamedAppends(a + b, c, name);
    NamedAppends(a, b, name);
  }

  /** The one row, if any, that a reference gets under a letter. */
  function LetterRow(p: Pointer, l: Letters, name: string): seq<Row> {
    if name == l.i then RowIf(p.external.Some?, [l.i, OrEmpty(p.external)])
    else if name == l.a then RowIf(p.address.Some?, [l.a, OrEmpty(p.address), RelayCell(p.relay), Text0(p.author)])
    else if name == l.e then RowIf(p.eventId.Some?, [l.e, Text0(p.eventId), RelayCell(p.relay), Text0(p.author)])
    else if name == l.k then RowIf(p.kind.Some?, [l.k, OrEmpty(p.kind)])
    else []
  }

  lemma ScopeRowsNamed(p: Pointer, l: Letters, name: string)
    requires l == UPPER || l == LOWER
    ensures RowsNamed(ScopeRows(p, l), name) == LetterRow(p, l, name)
  {
    hide RowsNamed, Trimmed;
    var i := [l.i, OrEmpty(p.external)];
    var a := [l.a, OrEmpty(p.address), RelayCell(p.relay), Text0(p.author)];
    var e := [l.e, Text0(p.eventId), RelayCell(p.relay), Text0(p.author)];
    var k := [l.k, OrEmpty(p.kind)];
    NamedAppends4(RowIf(p.external.Some?, i), RowIf(p.address.Some?, a), RowIf(p.eventId.Some?, e),
      RowIf(p.kind.Some?, k), name);
    RowIfNamed(p.external.Some?, i, name);
    RowIfNamed(p.address.Some?, a, name);
    RowIfNamed(p.eventId.Some?, e, name);
    RowIfNamed(p.kind.Some?, k, name);
  }

  // ---- what the decoder makes of composed rows ---------------------------

  /** Under these letters the rows say exactly what the reference says. */
  ghost predicate Spells(rows: seq<Row>, l: Letters, p: Pointer) {
    forall name | name in {l.e, l.a, l.i, l.k} :: RowsNamed(rows, name) == LetterRow(p, l, name)
  }

  lemma SecondOfOne(rows: seq<Row>, name: string, some: bool, cells: Row)
    requires |cells| >= 2 && cells[0] != "" && RowsNamed(rows, name) == RowIf(some, cells)
    ensures Find(rows, name).Some? == some && !Repeated(rows, name)
    ensures Second(rows, name) == if some then Some(cells[1]) else None
  {
    FindIsFirst(rows, name);
    ComposedRow(cells, name);
  }

  lemma SpelledCells(rows: seq<Row>, l: Letters, p: Pointer)
    requires (l == UPPER || l == LOWER) && Spells(rows, l, p)
    ensures !Repeated(rows, l.e) && !Repeated(rows, l.a) && !Repeated(rows, l.i) && !Repeated(rows, l.k)
    ensures Find(rows, l.e).Some? == p.eventId.Some? && SecondId(rows, l.e) == p.eventId
    ensures p.eventId.Some? ==> Second(rows, l.e) == Some(ToHex(p.eventId.value))
    ensures Find(rows, l.a).Some? == p.address.Some? && Second(rows, l.a) == p.address
    ensures Find(rows, l.i).Some? == p.external.Some? && Second(rows, l.i) == p.external
    ensures Second(rows, l.k) == p.kind
  {
    hide RowsNamed, Trimmed, Find, Second;
    SecondOfOne(rows, l.i, p.external.Some?, [l.i, OrEmpty(p.external)]);
    SecondOfOne(rows, l.a, p.address.Some?, [l.a, OrEmpty(p.address), RelayCell(p.relay), Text0(p.author)]);
    SecondOfOne(rows, l.e, p.eventId.Some?, [l.e, Text0(p.eventId), RelayCell(p.relay), Text0(p.author)]);
    SecondOfOne(rows, l.k, p.kind.Some?, [l.k, OrEmpty(p.kind)]);
    if p.eventId.Some? { IdRoundTrip(p.eventId.value); }
  }

  lemma {:induction false} DistinctKeepsHead(x: Id32, xs: seq<Id32>)
    ensures Distinct([x] + xs) != [] && Distinct([x] + xs)[0] == x
  {
    var all := [x] + xs;
    if xs == [] {
      assert all[..0] == [];
    } else {
      DistinctKeepsHead(x, xs[..|xs| - 1]);
      assert all[..|all| - 1] == [x] + xs[..|xs| - 1];
    }
  }

  lemma PeopleNameTheAuthor(rows: seq<Row>, author: Id32, carried: seq<Id32>, options: Options)
    requires !options.withoutAuthor
    requires RowsNamed(rows, "p") == PersonRowsOf(People(Some(author), carried, options), options)
    ensures SecondId(rows, "p") == Some(author)
  {
    var keys := People(Some(author), carried, options);
    DistinctKeepsHead(author, carried);
    FindIsFirst(rows, "p");
    ComposedRow(["p", ToHex(keys[0]), RelayCell(options.relay)], "p");
    IdRoundTrip(author);
  }

  /** The rows of a comment on an event that is not a text note. */
  function ScopedRows(root: Pointer, target: Pointer, keys: seq<Id32>): seq<Row> {
    ScopeRows(root, UPPER) + RowIf(root.author.Some?, ["P", Text0(root.author)])
    + ScopeRows(target, LOWER) + PersonRowsOf(keys, DEFAULT_OPTIONS)
  }

  lemma ScopedRowsNamed(root: Pointer, target: Pointer, keys: seq<Id32>, name: string)
    ensures RowsNamed(ScopedRows(root, target, keys), name) ==
      LetterRow(root, UPPER, name) + RowIf(root.author.Some? && name == "P", ["P", Text0(root.author)])
      + LetterRow(target, LOWER, name) + if name == "p" then PersonRowsOf(keys, DEFAULT_OPTIONS) else []
  {
    hide Trimmed, LetterRow, ScopeRows;
    NamedAppends4(ScopeRows(root, UPPER), RowIf(root.author.Some?, ["P", Text0(root.author)]),
                  ScopeRows(target, LOWER), PersonRowsOf(keys, DEFAULT_OPTIONS), name);
    ScopeRowsNamed(root, UPPER, name);
    RowIfNamed(root.author.Some?, ["P", Text0(root.author)], name);
    ScopeRowsNamed(target, LOWER, name);
    PersonRowsNamed(keys, DEFAULT_OPTIONS, name);
  }

  lemma ScopedRowsSpell(root: Pointer, target: Pointer, keys: seq<Id32>)
    ensures Spells(ScopedRows(root, target, keys), UPPER, root) && Spells(ScopedRows(root, target, keys), LOWER, target)
    ensures RowsNamed(ScopedRows(root, target, keys), "P") == RowIf(root.author.Some?, ["P", Text0(root.author)])
    ensures RowsNamed(ScopedRows(root, target, keys), "p") == PersonRowsOf(keys, DEFAULT_OPTIONS)
  {
    hide RowsNamed, Trimmed, ScopedRows;
    forall name { ScopedRowsNamed(root, target, keys, name); }
  }

  /** A comment on any event but a text note spells its thread's root and then the event itself. */
  lemma CommentSpells(parse: UrlParser, e: Event, sources: Option<RelayUrl>)
    requires e.kind != TEXT_NOTE_KIND
    ensures
      var rows, root := CommentOnEvent(parse, e, sources), RootPointer(parse, e, sources);
      && Spells(rows, UPPER, root) && SecondId(rows, "P") == root.author
      && Spells(rows, LOWER, Target(e, sources)) && SecondId(rows, "p") == Some(e.pubkey)
  {
    hide RowsNamed, Trimmed, Find, ScopeRows, RootPointer, Target, Spells, LetterRow;
    var rows, root := CommentOnEvent(parse, e, sources), RootPointer(parse, e, sources);
    var keys := People(Some(e.pubkey), Carried(e.tags, DEFAULT_OPTIONS), DEFAULT_OPTIONS);
    assert rows == ScopedRows(root, Target(e, sources), keys);
    ScopedRowsSpell(root, Target(e, sources), keys);
    SecondOfOne(rows, "P", root.author.Some?, ["P", Text0(root.author)]);
    if root.author.Some? { IdRoundTrip(root.author.value); }
    PeopleNameTheAuthor(rows, e.pubkey, Carried(e.tags, DEFAULT_OPTIONS), DEFAULT_OPTIONS);
  }

  /** What the decoder makes of one side, from the reference its rows spell. */
  function Reading(p: Pointer, author: Option<Id32>, side: Side): Result<Raw, DecodeError> {
    if p.external.Some? then
      if p.eventId.Some? || p.address.Some? then Err(side.duplicate)
      else if p.external.value == "" then Err(EmptyExternalValue)
      else if p.kind.None? then Err(side.missingKind)
      else if p.kind.value == "" then Err(EmptyExternalValue)
      else Ok(RawExternal(p.external.value, p.kind.value))
    else if p.address.Some? then
      if ParseCoordinate(p.address.value).None? then Err(side.malformed)
      else if p.kind.None? then Err(side.missingKind)
      else if p.eventId.Some? then Ok(RawAddressWithEvent(p.address.value, p.eventId.value, p.kind.value))
      else Ok(RawAddress(p.address.value, p.kind.value))
    else if p.eventId.None? then Err(side.missing)
    else if p.kind.None? then Err(side.missingKind)
    else Ok(RawEvent(p.eventId.value, p.kind.value, author))
  }

  lemma DecodeSpelled(rows: seq<Row>, side: Side, p: Pointer)
    requires (side == ROOT_SIDE || side == PARENT_SIDE) && Spells(rows, side.l, p)
    ensures DecodeSide(rows, side) == Reading(p, SecondId(rows, side.l.p), side)
  {
    hide RowsNamed, Find, Second, Repeated, Spells, ParseCoordinate, IdFromHex;
    SpelledCells(rows, side.l, p);
  }

  /** A comment on an event is read from two references: its thread's root and the event. */
  lemma CommentReading(parse: UrlParser, e: Event, sources: Option<RelayUrl>)
    requires e.kind != TEXT_NOTE_KIND
    ensures
      var rows, root := CommentOnEvent(parse, e, sources), RootPointer(parse, e, sources);
      && DecodeSide(rows, ROOT_SIDE) == Reading(root, root.author, ROOT_SIDE)
      && DecodeSide(rows, PARENT_SIDE) == Reading(Target(e, sources), Some(e.pubkey), PARENT_SIDE)
  {
    hide Spells, DecodeSide, Reading, CommentOnEvent, RootPointer, Target, SecondId;
    var rows := CommentOnEvent(parse, e, sources);
    CommentSpells(parse, e, sources);
    DecodeSpelled(rows, ROOT_SIDE, RootPointer(parse, e, sources));
    DecodeSpelled(rows, PARENT_SIDE, Target(e, sources));
  }

  // ---- comments on comments ----------------------------------------------

  /** Where a comment's rows decode to a root, the thread reader sees that same root. */
  lemma DecodedRootIsRead(parse: UrlParser, rows: seq<Row>)
    requires DecodeSide(rows, ROOT_SIDE).Ok? && TypedRoot(DecodeSide(rows, ROOT_SIDE).value).Ok?
    ensures HasCommentScope(rows) && ReadPosition(parse, rows).root.Some?
    ensures
      var p := ReadPosition(parse, rows).root.value;
      p.kind.Some? && Reading(p, p.author, ROOT_SIDE) == DecodeSide(rows, ROOT_SIDE)
  {
    hide RowsNamed, Find, Repeated, FromHex, Digits;
    assert ParseU16("").None?;
    assert ParseCoordinate("").None?;
    assert IdFromHex("").None?;
  }

  lemma ReadingIgnoresRelay(p: Pointer, q: Pointer)
    requires p.(relay := None) == q.(relay := None)
    ensures Reading(p, p.author, ROOT_SIDE) == Reading(q, q.author, ROOT_SIDE)
  {
  }

  /** The one thing that can go wrong: the comment being answered is its own root. */
  predicate RootsItself(root: CommentRoot, id: Id32) {
    root.EventRoot? && root.eventId == id
  }

  lemma CommentTarget(e: Event, sources: Option<RelayUrl>)
    requires e.kind == COMMENT_KIND
    ensures Reading(Target(e, sources), Some(e.pubkey), PARENT_SIDE)
      == Ok(RawEvent(e.id, Digits(COMMENT_KIND), Some(e.pubkey)))
  {
  }

  /** Answering a comment keeps its root, names the comment as parent, and always decodes,
      unless the comment claims to be its own root under another kind. */
  lemma CommentOnComment(parse: UrlParser, e: Event, sources: Option<RelayUrl>)
    requires e.kind == COMMENT_KIND && Decode(e.kind, e.tags).Ok?
    ensures
      var root, answer := Decode(e.kind, e.tags).value.root, Decode(COMMENT_KIND, CommentOnEvent(parse, e, sources));
      answer == if !RootsItself(root, e.id) then Ok(Decoded(root, Comment(e.id, Some(e.pubkey))))
                else if root.kind == COMMENT_KIND then Ok(Decoded(root, TopLevel))
                else Err(ParentDoesNotMatchRootOrComment)
  {
    hide DecodeSide, Reading, CommentOnEvent, ReadPosition, Digits, ParseU16, TypedRoot, HasCommentScope, Target;
    DecodedRootIsRead(parse, e.tags);
    CommentReading(parse, e, sources);
    CommentTarget(e, sources);
    U16RoundTrip(COMMENT_KIND);
    ReadingIgnoresRelay(ReadPosition(parse, e.tags).root.value, RootPointer(parse, e, sources));
  }

  // ---- first comments ----------------------------------------------------

  /** The typed form a root takes once its cells have been written and read back. */
  function Canonical(root: CommentRoot): CommentRoot {
    if !root.External? then root
    else if root.id.KValue() == PODCAST_KIND && PODCAST_PREFIX <= root.id.IValue() then
      External(PodcastEpisode(root.id.IValue()[|PODCAST_PREFIX|..]))
    else External(General(root.id.IValue(), root.id.KValue()))
  }

  /** A general id that claims the podcast kind has to look like a podcast id. */
  predicate Readable(root: CommentRoot) {
    root.External? && root.id.General? && root.id.kind == PODCAST_KIND ==>
      PODCAST_PREFIX <= root.id.value && root.id.value != PODCAST_PREFIX
  }

  function RootAsPointer(root: CommentRoot, relay: Option<RelayUrl>): Pointer {
    match root
    case EventRoot(id, kind, writer) => Pointer(Some(id), None, None, writer, Some(Digits(kind)), relay)
    case AddressRoot(author, kind, identifier, pinned) =>
      Pointer(pinned, Some(PrintCoordinate(Coordinate(kind, author, identifier))), None, Some(author),
        Some(Digits(kind)), relay)
    case External(id) => Pointer(None, None, Some(id.IValue()), None, Some(id.KValue()), relay)
  }

  /** The row a root's `P` or `p` cell sits in. */
  function RootPerson(root: CommentRoot, l: Letters, relay: Option<RelayUrl>): seq<Row> {
    var author := RootAsPointer(root, relay).author;
    RowIf(author.Some?, [l.p, Text0(author), RelayCell(relay)])
  }

  lemma AddressRowsNamed(root: CommentRoot, l: Letters, relay: Option<RelayUrl>, name: string)
    requires (l == UPPER || l == LOWER) && root.AddressRoot?
    ensures RowsNamed(RootRows(root, l, relay), name) ==
      if name == l.p then RootPerson(root, l, relay) else LetterRow(RootAsPointer(root, relay), l, name)
  {
    hide RowsNamed, Trimmed, Digits, ToHex, RelayCell, PrintCoordinate;
    var hint, text, author := RelayCell(relay), RootIdentifier(root), ToHex(root.author);
    var a, k := [l.a, text, hint, author], [l.k, Digits(root.kind)];
    var e, p := [l.e, Text0(root.pinned), hint, author], [l.p, author, hint];
    NamedAppends4(RowIf(true, a), RowIf(true, k), RowIf(root.pinned.Some?, e), RowIf(true, p), name);
    RowIfNamed(true, a, name);
    RowIfNamed(true, k, name);
    RowIfNamed(root.pinned.Some?, e, name);
    RowIfNamed(true, p, name);
  }

  lemma RootRowsNamed(root: CommentRoot, l: Letters, relay: Option<RelayUrl>, name: string)
    requires l == UPPER || l == LOWER
    ensures RowsNamed(RootRows(root, l, relay), name) ==
      if name == l.p then RootPerson(root, l, relay) else LetterRow(RootAsPointer(root, relay), l, name)
  {
    hide RowsNamed, Trimmed, Digits, ToHex, RelayCell, PrintCoordinate;
    var hint := RelayCell(relay);
    match root
    case EventRoot(id, kind, writer) =>
      var e, k, p := [l.e, ToHex(id), hint, Text0(writer)], [l.k, Digits(kind)], [l.p, Text0(writer), hint];
      NamedAppends(RowIf(true, e) + RowIf(true, k), RowIf(writer.Some?, p), name);
      NamedAppends(RowIf(true, e), RowIf(true, k), name);
      RowIfNamed(true, e, name);
      RowIfNamed(true, k, name);
      RowIfNamed(writer.Some?, p, name);
    case AddressRoot(_, _, _, _) => AddressRowsNamed(root, l, relay, name);
    case External(id) =>
      var i, k := [l.i, id.IValue()], [l.k, id.KValue()];
      NamedAppends(RowIf(true, i), RowIf(true, k), name);
      RowIfNamed(true, i, name);
      RowIfNamed(true, k, name);
  }

  /** A letter's rows come from the one side that has the letter. */
  ghost predicate BothSides(root: CommentRoot, relay: Option<RelayUrl>, name: string) {
    var rows, p := RowsNamed(CommentOnRoot(root, relay), name), RootAsPointer(root, relay);
    && (name in {"E", "A", "I", "K"} ==> rows == LetterRow(p, UPPER, name))
    && (name in {"e", "a", "i", "k"} ==> rows == LetterRow(p, LOWER, name))
    && (name == "P" ==> rows == RootPerson(root, UPPER, relay))
    && (name == "p" ==> rows == RootPerson(root, LOWER, relay))
  }

  lemma BothSidesNamed(root: CommentRoot, relay: Option<RelayUrl>, name: string)
    ensures BothSides(root, relay, name)
  {
    hide RowsNamed, RootRows, RootAsPointer, RootPerson;
    NamedAppends(RootRows(root, UPPER, relay), RootRows(root, LOWER, relay), name);
    RootRowsNamed(root, UPPER, relay, name);
    RootRowsNamed(root, LOWER, relay, name);
  }

  lemma RootRowsSpell(root: CommentRoot, relay: Option<RelayUrl>)
    ensures
      var rows, p := CommentOnRoot(root, relay), RootAsPointer(root, relay);
      && Spells(rows, UPPER, p) && Spells(rows, LOWER, p)
      && RowsNamed(rows, "P") == RootPerson(root, UPPER, relay)
      && RowsNamed(rows, "p") == RootPerson(root, LOWER, relay)
  {
    hide RowsNamed, RootAsPointer, RootPerson, CommentOnRoot;
    var rows, p := CommentOnRoot(root, relay), RootAsPointer(root, relay);
    forall name | name in {"E", "A", "I", "K"} ensures RowsNamed(rows, name) == LetterRow(p, UPPER, name) {
      BothSidesNamed(root, relay, name);
    }
    forall name | name in {"e", "a", "i", "k"} ensures RowsNamed(rows, name) == LetterRow(p, LOWER, name) {
      BothSidesNamed(root, relay, name);
    }
    BothSidesNamed(root, relay, "P");
    BothSidesNamed(root, relay, "p");
    hide LetterRow, BothSides;
  }

  lemma RootReading(root: CommentRoot, relay: Option<RelayUrl>)
    ensures
      var rows, p := CommentOnRoot(root, relay), RootAsPointer(root, relay);
      && DecodeSide(rows, ROOT_SIDE) == Reading(p, p.author, ROOT_SIDE)
      && DecodeSide(rows, PARENT_SIDE) == Reading(p, p.author, PARENT_SIDE)
  {
    hide Spells, DecodeSide, Reading, CommentOnRoot, RootAsPointer, RowsNamed, Trimmed, Find;
    var rows, p := CommentOnRoot(root, relay), RootAsPointer(root, relay);
    RootRowsSpell(root, relay);
    DecodeSpelled(rows, ROOT_SIDE, p);
    DecodeSpelled(rows, PARENT_SIDE, p);
    SecondOfOne(rows, "P", p.author.Some?, ["P", Text0(p.author), RelayCell(relay)]);
    SecondOfOne(rows, "p", p.author.Some?, ["p", Text0(p.author), RelayCell(relay)]);
    if p.author.Some? { IdRoundTrip(p.author.value); }
  }

  /** A comment on a typed root reads back as a top-level comment on that root, exactly when
      its external id is one the reader will accept again. */
  lemma CommentOnRootReadsBack(root: CommentRoot, relay: Option<RelayUrl>)
    requires root.Valid()
    ensures Decode(COMMENT_KIND, CommentOnRoot(root, relay)).Ok? <==> Readable(root)
    ensures Readable(root) ==>
      Decode(COMMENT_KIND, CommentOnRoot(root, relay)) == Ok(Decoded(Canonical(root), TopLevel))
    ensures Readable(root) ==> RootIdentifier(Canonical(root)) == RootIdentifier(root)
  {
    hide DecodeSide, CommentOnRoot, Digits, ParseU16, ParseCoordinate, PrintCoordinate;
    RootReading(root, relay);
    match root
    case EventRoot(_, kind, _) => U16RoundTrip(kind);
    case AddressRoot(author, kind, identifier, _) =>
      U16RoundTrip(kind);
      CoordinateRoundTrip(Coordinate(kind, author, identifier));
    case External(id) =>
      if id.PodcastEpisode? {
        assert id.IValue()[|PODCAST_PREFIX|..] == id.guid;
      }
  }

  /** What an event is as the root of its own thread. */
  function OwnRoot(e: Event): CommentRoot {
    if IsAddressable(e.kind) then AddressRoot(e.pubkey, e.kind, Identifier(e.tags), Some(e.id))
    else EventRoot(e.id, e.kind, Some(e.pubkey))
  }

  lemma ERowsReadAsEvents(parse: UrlParser, rows: seq<Row>)
    ensures
      var root := ReadNip10(parse, rows).root;
      root.Some? ==>
        root.value.eventId.Some? && root.value.address.None? && root.value.external.None? && root.value.kind.None?
  {
  }

  predicate IsEventRoot(root: CommentRoot, id: Option<Id32>, kind: nat, writer: Option<Id32>) {
    root.EventRoot? && id == Some(root.eventId) && root.kind == kind && root.writer == writer
  }

  lemma OwnReading(e: Event, sources: Option<RelayUrl>)
    requires e.kind < 65536
    ensures Reading(Target(e, sources), Some(e.pubkey), ROOT_SIDE).Ok?
      && Reading(Target(e, sources), Some(e.pubkey), PARENT_SIDE).Ok?
    ensures
      var root := Reading(Target(e, sources), Some(e.pubkey), ROOT_SIDE).value;
      && TypedRoot(root) == Ok(OwnRoot(e)) && Reading(Target(e, sources), Some(e.pubkey), PARENT_SIDE).value == root
      && TypedParent(OwnRoot(e), root) == Ok(TopLevel)
  {
    hide Digits, ParseU16, ParseCoordinate, PrintCoordinate, Identifier;
    U16RoundTrip(e.kind);
    CoordinateRoundTrip(Coordinate(e.kind, e.pubkey, Identifier(e.tags)));
  }

  lemma RootedElsewhere(root: Pointer, e: Event, sources: Option<RelayUrl>)
    requires e.kind < 65536 && root.eventId.Some? && root.address.None? && root.external.None?
      && root.kind == Some(Digits(e.kind))
    ensures
      var above := EventRoot(root.eventId.value, e.kind, root.author);
      var raw := Reading(Target(e, sources), Some(e.pubkey), PARENT_SIDE);
      && raw.Ok? && Reading(root, root.author, ROOT_SIDE).Ok?
      && TypedRoot(Reading(root, root.author, ROOT_SIDE).value) == Ok(above)
      && (TypedParent(above, raw.value).Ok?
        <==> !IsAddressable(e.kind) && (root.eventId == Some(e.id) || e.kind == COMMENT_KIND))
  {
    hide Digits, ParseU16, ParseCoordinate, PrintCoordinate, Identifier;
    U16RoundTrip(e.kind);
    CoordinateRoundTrip(Coordinate(e.kind, e.pubkey, Identifier(e.tags)));
  }

  /** Commenting on an event outside NIP-22 threads decodes exactly when the event is no NIP-10 reply,
      or names itself as root, or is a comment; an addressable event that is a reply never works. */
  lemma CommentOnPlainEvent(parse: UrlParser, e: Event, sources: Option<RelayUrl>)
    requires e.kind < 65536 && e.kind != TEXT_NOTE_KIND && !HasCommentScope(e.tags)
    ensures
      var root, answer := ReadNip10(parse, e.tags).root, Decode(COMMENT_KIND, CommentOnEvent(parse, e, sources));
      && (answer.Ok? <==>
            root.None? || (!IsAddressable(e.kind) && (root.value.eventId == Some(e.id) || e.kind == COMMENT_KIND)))
      && (root.None? ==> answer == Ok(Decoded(OwnRoot(e), TopLevel)))
      && (answer.Ok? && root.Some? ==> IsEventRoot(answer.value.root, root.value.eventId, e.kind, root.value.author))
  {
    hide DecodeSide, CommentOnEvent, Reading, TypedRoot, TypedParent, ReadNip10, HasCommentScope, Digits, OwnRoot;
    CommentReading(parse, e, sources);
    ERowsReadAsEvents(parse, e.tags);
    if ReadNip10(parse, e.tags).root.None? {
      OwnReading(e, None);
      OwnReading(e, sources);
      ReadingIgnoresRelay(RootPointer(parse, e, sources), Target(e, None));
    } else {
      RootedElsewhere(RootPointer(parse, e, sources), e, sources);
    }
  }

  /** The parent rows of a comment on a text note are NIP-10 rows, which carry no kind. */
  lemma NoteParentRows(root: Pointer, thread: seq<Row>, keys: seq<Id32>, name: string)
    requires name in {"e", "a", "i", "k"}
    ensures
      var rows := ScopeRows(root, UPPER) + RowIf(root.author.Some?, ["P", Text0(root.author)]) + thread
        + PersonRowsOf(keys, DEFAULT_OPTIONS);
      RowsNamed(rows, name) == RowsNamed(thread, name)
  {
    hide RowsNamed, Trimmed, ScopeRows;
    NamedAppends4(ScopeRows(root, UPPER), RowIf(root.author.Some?, ["P", Text0(root.author)]), thread,
      PersonRowsOf(keys, DEFAULT_OPTIONS), name);
    ScopeRowsNamed(root, UPPER, name);
    RowIfNamed(root.author.Some?, ["P", Text0(root.author)], name);
    PersonRowsNamed(keys, DEFAULT_OPTIONS, name);
  }

  lemma MarkedRowNamed(p: Pointer, marker: string, name: string)
    ensures RowsNamed([MarkedRow(p, marker)], name) == if name == "e" then [MarkedRow(p, marker)] else []
    ensures |MarkedRow(p, marker)| > 1 && MarkedRow(p, marker)[1] == Text0(p.eventId)
  {
    ComposedRow(["e", Text0(p.eventId), RelayCell(p.relay), marker, Text0(p.author)], name);
  }

  lemma NoteThreadNamed(parse: UrlParser, e: Event, hint: Option<RelayUrl>, name: string)
    requires e.kind == TEXT_NOTE_KIND
    ensures RowsNamed(ThreadRows(parse, e, hint), name) == if name == "e" then ThreadRows(parse, e, hint) else []
  {
    hide RowsNamed, MarkedRow, ReadPosition;
    var target, read := Target(e, hint), ReadPosition(parse, e.tags).root;
    MarkedRowNamed(target, "root", name);
    MarkedRowNamed(target, "reply", name);
    if read.Some? {
      MarkedRowNamed(read.value, "root", name);
      NamedAppends([MarkedRow(read.value, "root")], [MarkedRow(target, "reply")], name);
      assert ThreadRows(parse, e, hint) == [MarkedRow(read.value, "root")] + [MarkedRow(target, "reply")];
    }
  }

  /** No comment on a text note decodes: its parent is written in the NIP-10 dialect, with no `k` row
      and, under a reply, with two `e` rows. */
  lemma CommentOnNoteNeverDecodes(parse: UrlParser, e: Event, sources: Option<RelayUrl>)
    requires e.kind == TEXT_NOTE_KIND
    ensures
      var rows := CommentOnEvent(parse, e, sources);
      && DecodeSide(rows, PARENT_SIDE)
        == Err(if ReadPosition(parse, e.tags).root.None? then MissingParentKind else DuplicateContradictoryParent)
      && Decode(COMMENT_KIND, rows).Err?
  {
    hide RowsNamed, MarkedRow, ReadPosition, Find, RootPointer, IdFromHex, Trimmed, ScopeRows;
    var rows, thread := CommentOnEvent(parse, e, sources), ThreadRows(parse, e, sources);
    var keys := People(Some(e.pubkey), Carried(e.tags, DEFAULT_OPTIONS), DEFAULT_OPTIONS);
    var root := RootPointer(parse, e, sources);
    assert rows == ScopeRows(root, UPPER) + RowIf(root.author.Some?, ["P", Text0(root.author)]) + thread
      + PersonRowsOf(keys, DEFAULT_OPTIONS);
    forall name | name in {"e", "a", "i", "k"}
      ensures RowsNamed(rows, name) == if name == "e" then thread else []
    {
      NoteParentRows(root, thread, keys, name);
      NoteThreadNamed(parse, e, sources, name);
    }
    forall name | name in {"e", "a", "i", "k"} { FindIsFirst(rows, name); }
    MarkedRowNamed(Target(e, sources), "root", "e");
    IdRoundTrip(e.id);
  }

  // ---- whole threads -----------------------------------------------------

  /** The row the thread demand filters on carries the root's own text. */
  predicate Filed(root: CommentRoot, rows: seq<Row>) {
    Second(rows, RootLetter(root)) == Some(RootIdentifier(root))
  }

  lemma {:induction false} OnlyRowIsFound(rows: seq<Row>, name: string, i: nat)
    requires i < |rows| && Named(rows[i], name) && |RowsNamed(rows, name)| <= 1
    ensures Find(rows, name) == Some(rows[i])
  {
    FindIsFirst(rows, name);
    NamedAppends(rows[..i], rows[i..], name);
    assert rows == rows[..i] + rows[i..];
    assert rows[i..][0] == rows[i];
  }

  lemma {:induction false} FoundIsThere(rows: seq<Row>, name: string)
    requires Find(rows, name).Some?
    ensures exists i :: 0 <= i < |rows| && rows[i] == Find(rows, name).value && Named(rows[i], name)
  {
    if !Named(rows[0], name) {
      FoundIsThere(rows[1..], name);
      var i :| 0 <= i < |rows[1..]| && rows[1..][i] == Find(rows[1..], name).value && Named(rows[1..][i], name);
      assert rows[i + 1] == Find(rows, name).value;
    } else {
      assert rows[0] == Find(rows, name).value;
    }
  }

  /** The thread demand selects a decodable comment exactly when its root row spells the root canonically. */
  lemma DemandSelectsFiled(kind: nat, rows: seq<Row>)
    requires Decode(kind, rows).Ok?
    ensures InThread(Decode(kind, rows).value.root, kind, rows) <==> Filed(Decode(kind, rows).value.root, rows)
  {
    hide RowsNamed, Find, FromHex, ParseU16, ParseCoordinate, PrintCoordinate, ToHex, TypedParent;
    var root := Decode(kind, rows).value.root;
    var name := RootLetter(root);
    assert !Repeated(rows, name);
    if InThread(root, kind, rows) {
      var i :| 0 <= i < |rows| && |rows[i]| > 1 && rows[i][0] == name && rows[i][1] == RootIdentifier(root);
      OnlyRowIsFound(rows, name, i);
    }
    if Filed(root, rows) {
      FoundIsThere(rows, name);
    }
  }

  lemma ExternalCellsKept(iValue: string, kValue: string)
    ensures ExternalFromCells(iValue, kValue).Ok? ==>
      ExternalFromCells(iValue, kValue).value.IValue() == iValue
        && ExternalFromCells(iValue, kValue).value.KValue() == kValue
  {
  }

  /** An answer is filed under its root unless it copies an address cell that was not. */
  lemma AnswersAreFiled(parse: UrlParser, e: Event, sources: Option<RelayUrl>)
    requires e.kind == COMMENT_KIND && Decode(e.kind, e.tags).Ok?
    ensures
      var root := Decode(e.kind, e.tags).value.root;
      Filed(root, CommentOnEvent(parse, e, sources)) <==> !root.AddressRoot? || Filed(root, e.tags)
  {
    hide RowsNamed, Find, FromHex, Digits, ParseU16, ParseCoordinate, PrintCoordinate, ToHex, TypedParent, Spells,
      CommentOnEvent, Repeated;
    CommentSpells(parse, e, sources);
    SpelledCells(CommentOnEvent(parse, e, sources), UPPER, RootPointer(parse, e, sources));
    assert ParseCoordinate("").None? by { EmptyIsNothing(); }
    assert IdFromHex("").None? by { EmptyIsNothing(); }
    if Second(e.tags, "I").Some? { ExternalCellsKept(Second(e.tags, "I").value, OrEmpty(Second(e.tags, "K"))); }
  }

  lemma EmptyIsNothing()
    ensures ParseCoordinate("").None? && IdFromHex("").None? && ParseU16("").None?
  {
  }

  /** Each event after the first is a comment composed on the one before it. */
  ghost predicate CommentChain(parse: UrlParser, chain: seq<Event>, sources: seq<Option<RelayUrl>>) {
    && |sources| == |chain|
    && (forall i | 0 <= i < |chain| :: chain[i].kind == COMMENT_KIND)
    && (forall i | 0 < i < |chain| :: chain[i].tags == CommentOnEvent(parse, chain[i - 1], sources[i]))
  }

  lemma ChainStep(parse: UrlParser, chain: seq<Event>, sources: seq<Option<RelayUrl>>, i: nat)
    requires CommentChain(parse, chain, sources) && 0 < i < |chain|
    ensures |sources| == |chain| && chain[i - 1].kind == chain[i].kind == chain[0].kind == COMMENT_KIND
    ensures chain[i].tags == CommentOnEvent(parse, chain[i - 1], sources[i])
  {
  }

  /** At every depth a comment decodes to the first comment's root and to the previous comment as parent,
      and the demand for that root selects it (given the first comment, where the root is an address). */
  lemma {:induction false} ThreadsKeepTheirRoot(parse: UrlParser, chain: seq<Event>, sources: seq<Option<RelayUrl>>,
                                                i: nat)
    requires CommentChain(parse, chain, sources) && 0 < i < |chain|
    requires Decode(COMMENT_KIND, chain[0].tags).Ok?
    requires forall j | 0 <= j < i :: !RootsItself(Decode(COMMENT_KIND, chain[0].tags).value.root, chain[j].id)
    ensures
      var root := Decode(COMMENT_KIND, chain[0].tags).value.root;
      && Decode(COMMENT_KIND, chain[i].tags) == Ok(Decoded(root, Comment(chain[i - 1].id, Some(chain[i - 1].pubkey))))
      && (InThread(root, chain[i].kind, chain[i].tags)
        <==> !root.AddressRoot? || InThread(root, chain[0].kind, chain[0].tags))
  {
    hide CommentChain, Decode, CommentOnEvent, InThread, Filed;
    ChainStep(parse, chain, sources, i);
    if i > 1 {
      ThreadsKeepTheirRoot(parse, chain, sources, i - 1);
    }
    CommentOnComment(parse, chain[i - 1], sources[i]);
    AnswersAreFiled(parse, chain[i - 1], sources[i]);
    DemandSelectsFiled(COMMENT_KIND, chain[i].tags);
    DemandSelectsFiled(COMMENT_KIND, chain[i - 1].tags);
  }

  /** A comment composed on a typed root is filed under that root. */
  lemma RootCommentsAreFiled(root: CommentRoot, relay: Option<RelayUrl>)
    requires root.Valid() && Readable(root)
    ensures Filed(Canonical(root), CommentOnRoot(root, relay))
    ensures RootLetter(Canonical(root)) == RootLetter(root) && RootIdentifier(Canonical(root)) == RootIdentifier(root)
  {
    CommentOnRootReadsBack(root, relay);
    hide CommentOnRoot, Spells, Find, Second, PrintCoordinate, ToHex, RowsNamed, Repeated, Digits;
    RootRowsSpell(root, relay);
    SpelledCells(CommentOnRoot(root, relay), UPPER, RootAsPointer(root, relay));
  }

  /** A thread started from a typed root: at every depth the comment decodes to that root, names the comment
      before it as parent, and is selected by the demand for the root. */
  lemma ThreadsMatchTheirDemand(parse: UrlParser, root: CommentRoot, relay: Option<RelayUrl>,
                                chain: seq<Event>, sources: seq<Option<RelayUrl>>, i: nat)
    requires root.Valid() && Readable(root) && CommentChain(parse, chain, sources) && i < |chain|
    requires chain[0].tags == CommentOnRoot(root, relay)
    requires forall j | 0 <= j < i :: !RootsItself(root, chain[j].id)
    ensures Decode(COMMENT_KIND, chain[i].tags) ==
      Ok(Decoded(Canonical(root), if i == 0 then TopLevel else Comment(chain[i - 1].id, Some(chain[i - 1].pubkey))))
    ensures InThread(root, chain[i].kind, chain[i].tags)
  {
    CommentOnRootReadsBack(root, relay);
    RootCommentsAreFiled(root, relay);
    hide CommentOnRoot, CommentOnEvent, Decode, Filed;
    DemandSelectsFiled(COMMENT_KIND, chain[0].tags);
    if i > 0 {
      ThreadsKeepTheirRoot(parse, chain, sources, i);
    }
  }
}
