/** Exactly which rows the strict NIP-22 decoder accepts, and what it makes of them. */
module CommentDecoding {
  import opened Wrappers
  import opened Text
  import opened Tagging
  import opened Comments
  import opened ThreadPositions

  // ---- rows by their places ----------------------------------------------

  ghost predicate NoRow(rows: seq<Row>, name: string) {
    forall i: nat :: !RowAt(rows, name, i)
  }

  /** There is one row of that name, and this is its second cell. */
  ghost predicate Says(rows: seq<Row>, name: string, text: string) {
    exists i: nat :: RowAt(rows, name, i) && |rows[i]| > 1 && rows[i][1] == text
                     && forall j: nat | j != i :: !RowAt(rows, name, j)
  }

  ghost predicate Twice(rows: seq<Row>, name: string) {
    exists i: nat, j: nat :: i < j && RowAt(rows, name, i) && RowAt(rows, name, j)
  }

  lemma {:induction false} NamedByPlace(rows: seq<Row>, name: string)
    requires name != ""
    ensures RowsNamed(rows, name) == [] <==> NoRow(rows, name)
    ensures Repeated(rows, name) <==> Twice(rows, name)
  {
    if rows != [] {
      NamedByPlace(rows[1..], name);
      assert RowAt(rows, name, 0) <==> Named(rows[0], name);
      forall i: nat ensures RowAt(rows[1..], name, i) <==> RowAt(rows, name, i + 1) {}
      if Repeated(rows, name) {
        if Named(rows[0], name) {
          var j: nat :| RowAt(rows[1..], name, j);
          assert RowAt(rows, name, j + 1);
        } else {
          var i: nat, j: nat :| i < j && RowAt(rows[1..], name, i) && RowAt(rows[1..], name, j);
          assert RowAt(rows, name, i + 1) && RowAt(rows, name, j + 1);
        }
      }
      if i: nat, j: nat :| i < j && RowAt(rows, name, i) && RowAt(rows, name, j) {
        assert RowAt(rows[1..], name, j - 1);
        if i > 0 { assert RowAt(rows[1..], name, i - 1); }
      }
      if i: nat :| RowAt(rows, name, i) && i > 0 { assert RowAt(rows[1..], name, i - 1); }
    }
  }

  /** The decoder's accessors, said of places. */
  lemma CellsByPlace(rows: seq<Row>, name: string)
    requires name != ""
    ensures Repeated(rows, name) <==> Twice(rows, name)
    ensures Find(rows, name).None? <==> NoRow(rows, name)
    ensures forall t :: Says(rows, name, t) <==> !Repeated(rows, name) && Second(rows, name) == Some(t)
  {
    NamedByPlace(rows, name);
    FindsTheFirst(rows, name);
    hide Find, RowsNamed, Repeated;
    if Find(rows, name).Some? {
      var i := SomeFirst(rows, name);
      assert Find(rows, name) == Some(rows[i]);
      if !Twice(rows, name) {
        forall j: nat | j != i ensures !RowAt(rows, name, j) {}
        forall t | Second(rows, name) == Some(t) ensures Says(rows, name, t) {}
      }
    }
  }

  // ---- the two sides -----------------------------------------------------

  ghost predicate SaysId(rows: seq<Row>, name: string, id: Id32) {
    exists t :: Says(rows, name, t) && IdFromHex(t) == Some(id)
  }

  ghost predicate SaysKind(rows: seq<Row>, name: string, kind: nat) {
    exists t :: Says(rows, name, t) && ParseU16(t) == Some(kind)
  }

  ghost predicate SaysAddress(rows: seq<Row>, name: string, address: Coordinate) {
    exists t :: Says(rows, name, t) && ParseCoordinate(t) == Some(address)
  }

  /** The uppercase rows name this root: one kind row, and one reference of the root's own sort and no other, but that
      an address may be pinned to an event. */
  ghost predicate NamesRoot(rows: seq<Row>, root: CommentRoot) {
    match root
    case EventRoot(id, kind, writer) =>
      && NoRow(rows, "A") && NoRow(rows, "I") && SaysId(rows, "E", id) && SaysKind(rows, "K", kind)
      && writer == SecondId(rows, "P")
    case AddressRoot(author, kind, identifier, pinned) =>
      && NoRow(rows, "I") && SaysAddress(rows, "A", Coordinate(kind, author, identifier)) && SaysKind(rows, "K", kind)
      && (if pinned.Some? then SaysId(rows, "E", pinned.value) else NoRow(rows, "E"))
    case External(id) =>
      && NoRow(rows, "E") && NoRow(rows, "A") && Says(rows, "I", id.IValue()) && Says(rows, "K", id.KValue())
      && id.Valid() && !id.Url? && (id.General? ==> id.kind != "podcast:item:guid")
  }

  /** The lowercase rows name the root once more, or a comment of kind 1111 that is not the root. */
  ghost predicate NamesParent(rows: seq<Row>, root: CommentRoot, parent: CommentParent) {
    match parent
    case Comment(id, author) =>
      && NoRow(rows, "a") && NoRow(rows, "i") && SaysId(rows, "e", id) && SaysKind(rows, "k", 1111)
      && author == SecondId(rows, "p") && (root.EventRoot? ==> root.eventId != id)
    case TopLevel =>
      match root
      case EventRoot(id, kind, _) =>
        NoRow(rows, "a") && NoRow(rows, "i") && SaysId(rows, "e", id) && SaysKind(rows, "k", kind)
      case AddressRoot(author, kind, identifier, pinned) =>
        && NoRow(rows, "i") && SaysKind(rows, "k", kind)
        && Says(rows, "a", PrintCoordinate(Coordinate(kind, author, identifier)))
        && (NoRow(rows, "e") || exists id :: SaysId(rows, "e", id) && (pinned.Some? ==> pinned.value == id))
      case External(id) =>
        NoRow(rows, "e") && NoRow(rows, "a") && Says(rows, "i", id.IValue()) && Says(rows, "k", id.KValue())
  }

  // ---- the decoder -------------------------------------------------------

  /** What the decoder's accessors find under a name is what stands there. */
  ghost predicate Placed(rows: seq<Row>, name: string) {
    && (Find(rows, name).None? <==> NoRow(rows, name))
    && (Repeated(rows, name) <==> Twice(rows, name))
    && (Find(rows, name).None? ==> !Repeated(rows, name) && Second(rows, name).None?)
    && forall t :: Says(rows, name, t) <==> !Repeated(rows, name) && Second(rows, name) == Some(t)
  }

  lemma AlwaysPlaced(rows: seq<Row>, name: string)
    requires name != ""
    ensures Placed(rows, name)
  {
    CellsByPlace(rows, name);
    FindIsNamed(rows, name);
    hide Says, NoRow, Twice;
  }

  lemma {:induction false} FindIsNamed(rows: seq<Row>, name: string)
    ensures Find(rows, name).None? <==> RowsNamed(rows, name) == []
  {
    if rows != [] { FindIsNamed(rows[1..], name); }
  }

  lemma SidePlaced(rows: seq<Row>, l: Letters)
    requires l == UPPER || l == LOWER
    ensures Placed(rows, l.e) && Placed(rows, l.a) && Placed(rows, l.i) && Placed(rows, l.k)
  {
    hide Placed;
    AlwaysPlaced(rows, l.e);
    AlwaysPlaced(rows, l.a);
    AlwaysPlaced(rows, l.i);
    AlwaysPlaced(rows, l.k);
  }

  /** One side's rows, before they are typed. */
  ghost predicate NamesRaw(rows: seq<Row>, l: Letters, raw: Raw) {
    match raw
    case RawEvent(id, kindTag, author) =>
      NoRow(rows, l.a) && NoRow(rows, l.i) && SaysId(rows, l.e, id) && Says(rows, l.k, kindTag)
      && author == SecondId(rows, l.p)
    case RawAddress(coordinate, kindTag) =>
      NoRow(rows, l.i) && NoRow(rows, l.e) && Says(rows, l.a, coordinate) && ParseCoordinate(coordinate).Some?
      && Says(rows, l.k, kindTag)
    case RawAddressWithEvent(coordinate, id, kindTag) =>
      NoRow(rows, l.i) && SaysId(rows, l.e, id) && Says(rows, l.a, coordinate) && ParseCoordinate(coordinate).Some?
      && Says(rows, l.k, kindTag)
    case RawExternal(iValue, kValue) =>
      NoRow(rows, l.e) && NoRow(rows, l.a) && Says(rows, l.i, iValue) && iValue != ""
      && Says(rows, l.k, kValue) && kValue != ""
  }

  ghost predicate AllPlaced(rows: seq<Row>, l: Letters) {
    Placed(rows, l.e) && Placed(rows, l.a) && Placed(rows, l.i) && Placed(rows, l.k)
  }

  lemma SideIsSound(rows: seq<Row>, side: Side, raw: Raw)
    requires AllPlaced(rows, side.l) && DecodeSide(rows, side) == Ok(raw)
    ensures NamesRaw(rows, side.l, raw)
  {
    hide Find, Repeated, Second, Says, NoRow, Twice, IdFromHex, ParseCoordinate;
    match raw
    case RawEvent(_, kindTag, _) =>
      assert Says(rows, side.l.e, Second(rows, side.l.e).value) && Says(rows, side.l.k, kindTag);
    case RawAddress(coordinate, kindTag) =>
      assert Says(rows, side.l.a, coordinate) && Says(rows, side.l.k, kindTag);
    case RawAddressWithEvent(coordinate, _, kindTag) =>
      assert Says(rows, side.l.e, Second(rows, side.l.e).value);
      assert Says(rows, side.l.a, coordinate) && Says(rows, side.l.k, kindTag);
    case RawExternal(iValue, kValue) =>
      assert Says(rows, side.l.i, iValue) && Says(rows, side.l.k, kValue);
  }

  lemma SideIsComplete(rows: seq<Row>, side: Side, raw: Raw)
    requires AllPlaced(rows, side.l) && NamesRaw(rows, side.l, raw)
    ensures DecodeSide(rows, side) == Ok(raw)
  {
    hide Find, Repeated, Second, Says, NoRow, Twice, IdFromHex, ParseCoordinate;
    match raw
    case RawEvent(_, kindTag, _) => assert Second(rows, side.l.k) == Some(kindTag);
    case RawAddress(coordinate, kindTag) =>
      assert Second(rows, side.l.a) == Some(coordinate) && Second(rows, side.l.k) == Some(kindTag);
    case RawAddressWithEvent(coordinate, _, kindTag) =>
      assert Second(rows, side.l.a) == Some(coordinate) && Second(rows, side.l.k) == Some(kindTag);
    case RawExternal(iValue, kValue) =>
      assert Second(rows, side.l.i) == Some(iValue) && Second(rows, side.l.k) == Some(kValue);
  }

  lemma SideIsExact(rows: seq<Row>, side: Side, raw: Raw)
    requires side == ROOT_SIDE || side == PARENT_SIDE
    ensures DecodeSide(rows, side) == Ok(raw) <==> NamesRaw(rows, side.l, raw)
  {
    SidePlaced(rows, side.l);
    hide Placed, DecodeSide, NamesRaw;
    if DecodeSide(rows, side) == Ok(raw) { SideIsSound(rows, side, raw); }
    if NamesRaw(rows, side.l, raw) { SideIsComplete(rows, side, raw); }
  }

  ghost predicate ReadsAsRoot(rows: seq<Row>, root: CommentRoot) {
    var raw := DecodeSide(rows, ROOT_SIDE);
    raw.Ok? && TypedRoot(raw.value) == Ok(root)
  }

  lemma RootIsExact(rows: seq<Row>, root: CommentRoot)
    ensures ReadsAsRoot(rows, root) <==> NamesRoot(rows, root)
  {
    var decoded := DecodeSide(rows, ROOT_SIDE);
    if decoded.Ok? { SideIsExact(rows, ROOT_SIDE, decoded.value); }
    hide DecodeSide, Says, NoRow, IdFromHex, ParseU16, ParseCoordinate, SecondId;
    if NamesRoot(rows, root) {
      var raw := RawOfRoot(rows, root);
      SideIsExact(rows, ROOT_SIDE, raw);
    }
  }

  lemma RawOfRoot(rows: seq<Row>, root: CommentRoot) returns (raw: Raw)
    requires NamesRoot(rows, root)
    ensures NamesRaw(rows, UPPER, raw) && TypedRoot(raw) == Ok(root)
  {
    hide Says, NoRow, IdFromHex, ParseU16, ParseCoordinate, SecondId;
    match root
    case EventRoot(id, kind, writer) =>
      var k :| Says(rows, "K", k) && ParseU16(k) == Some(kind);
      raw := RawEvent(id, k, writer);
    case AddressRoot(author, kind, identifier, pinned) =>
      var k :| Says(rows, "K", k) && ParseU16(k) == Some(kind);
      var a :| Says(rows, "A", a) && ParseCoordinate(a) == Some(Coordinate(kind, author, identifier));
      raw := if pinned.Some? then RawAddressWithEvent(a, pinned.value, k) else RawAddress(a, k);
    case External(id) =>
      if id.PodcastEpisode? { PodcastReads(id.guid); }
      raw := RawExternal(id.IValue(), id.KValue());
  }

  lemma PodcastReads(guid: string)
    requires guid != ""
    ensures ExternalFromCells(PODCAST_PREFIX + guid, PODCAST_KIND) == Ok(PodcastEpisode(guid))
  {
    assert (PODCAST_PREFIX + guid)[|PODCAST_PREFIX|..] == guid;
  }

  ghost predicate ReadsAsParent(rows: seq<Row>, root: CommentRoot, parent: CommentParent) {
    var raw := DecodeSide(rows, PARENT_SIDE);
    raw.Ok? && TypedParent(root, raw.value) == Ok(parent)
  }

  lemma ParentIsExact(rows: seq<Row>, root: CommentRoot, parent: CommentParent)
    requires root.Valid()
    ensures ReadsAsParent(rows, root, parent) <==> NamesParent(rows, root, parent)
  {
    var decoded := DecodeSide(rows, PARENT_SIDE);
    if decoded.Ok? { SideIsExact(rows, PARENT_SIDE, decoded.value); }
    hide DecodeSide, Says, NoRow, IdFromHex, ParseU16, ParseCoordinate, PrintCoordinate, SecondId;
    if NamesParent(rows, root, parent) {
      var raw := RawOfParent(rows, root, parent);
      SideIsExact(rows, PARENT_SIDE, raw);
    }
  }

  lemma RawOfParent(rows: seq<Row>, root: CommentRoot, parent: CommentParent) returns (raw: Raw)
    requires root.Valid() && NamesParent(rows, root, parent)
    ensures NamesRaw(rows, LOWER, raw) && TypedParent(root, raw) == Ok(parent)
  {
    if root.AddressRoot? { CoordinateRoundTrip(Coordinate(root.kind, root.author, root.identifier)); }
    hide Says, NoRow, IdFromHex, ParseU16, ParseCoordinate, PrintCoordinate, SecondId;
    if parent.Comment? {
      var k :| Says(rows, "k", k) && ParseU16(k) == Some(1111);
      raw := RawEvent(parent.eventId, k, parent.author);
    } else if root.External? {
      raw := RawExternal(root.id.IValue(), root.id.KValue());
    } else {
      var k :| Says(rows, "k", k) && ParseU16(k) == Some(root.kind);
      if root.EventRoot? {
        raw := RawEvent(root.eventId, k, SecondId(rows, "p"));
      } else {
        var a := PrintCoordinate(Coordinate(root.kind, root.author, root.identifier));
        if id :| SaysId(rows, "e", id) && (root.pinned.Some? ==> root.pinned.value == id) {
          raw := RawAddressWithEvent(a, id, k);
        } else {
          raw := RawAddress(a, k);
        }
      }
    }
  }

  lemma NamedRootsAreValid(rows: seq<Row>, root: CommentRoot)
    requires NamesRoot(rows, root)
    ensures root.Valid()
  {
    hide Says, NoRow, IdFromHex, ParseCoordinate;
  }

  /** The decoder accepts exactly the comments: kind 1111, uppercase rows that name a root, and lowercase rows that
      name that root again or a comment under it. */
  lemma DecodeIsExact(kind: nat, rows: seq<Row>, root: CommentRoot, parent: CommentParent)
    ensures Decode(kind, rows) == Ok(Decoded(root, parent)) <==>
      kind == 1111 && NamesRoot(rows, root) && NamesParent(rows, root, parent)
  {
    RootIsExact(rows, root);
    if NamesRoot(rows, root) {
      NamedRootsAreValid(rows, root);
      ParentIsExact(rows, root, parent);
    }
    hide DecodeSide, TypedRoot, TypedParent, NamesRoot, NamesParent;
  }

  /** A second row of any letter that decides is refused, whatever it says. */
  lemma SecondRowsAreRefused(kind: nat, rows: seq<Row>, name: string)
    requires name in {"E", "A", "I", "K", "e", "a", "i", "k"} && Twice(rows, name)
    ensures Decode(kind, rows).Err?
  {
    SidePlaced(rows, UPPER);
    SidePlaced(rows, LOWER);
    hide Find, Repeated, Second, Says, NoRow, Twice, TypedRoot, TypedParent;
  }

  // ---- the lenient reader ------------------------------------------------

  lemma SaidIsFound(rows: seq<Row>, name: string, text: string)
    requires name != "" && Says(rows, name, text)
    ensures Find(rows, name).Some? && |Find(rows, name).value| > 1 && Find(rows, name).value[1] == text
    ensures text != "" ==> FindCell(rows, name) == Some(text) && FindId(rows, name) == IdFromHex(text)
  {
    AlwaysPlaced(rows, name);
    hide Find, Says, NoRow, Repeated, IdFromHex;
  }

  lemma SaidIdIsFound(rows: seq<Row>, name: string, id: Id32)
    requires name != "" && SaysId(rows, name, id)
    ensures FindId(rows, name) == Some(id) && Find(rows, name).Some?
    ensures IdAt(Find(rows, name).value, 1) == Some(id)
  {
    MarkersAreNotIds();
    var t :| Says(rows, name, t) && IdFromHex(t) == Some(id);
    SaidIsFound(rows, name, t);
    hide Find, Says, IdFromHex;
  }

  lemma MissingIsNotFound(rows: seq<Row>, name: string)
    requires name != "" && NoRow(rows, name)
    ensures Find(rows, name).None?
  {
    AlwaysPlaced(rows, name);
    hide Find, Says, NoRow, Repeated;
  }

  /** The event the root's rows name, if any: the root event itself, or the one an address is pinned to. */
  function RootEvent(root: CommentRoot): Option<Id32> {
    match root
    case EventRoot(id, _, _) => Some(id)
    case AddressRoot(_, _, _, pinned) => pinned
    case External(_) => None
  }

  lemma LenientRoot(parse: UrlParser, rows: seq<Row>, root: CommentRoot)
    requires NamesRoot(rows, root)
    ensures HasCommentScope(rows) && FindId(rows, "E") == RootEvent(root)
    ensures root.EventRoot? ==> FindCell(rows, "A").None? && FindCell(rows, "I").None?
    ensures root.External? ==> FindCell(rows, "A").None? && FindCell(rows, "I") == Some(root.id.IValue())
    ensures root.AddressRoot? ==>
      && FindCell(rows, "I").None? && FindCell(rows, "A").Some?
      && ParseCoordinate(FindCell(rows, "A").value) == Some(Coordinate(root.kind, root.author, root.identifier))
  {
    hide Find, Says, NoRow, IdFromHex, ParseU16, ParseCoordinate, PrintCoordinate;
    match root
    case EventRoot(id, _, _) =>
      SaidIdIsFound(rows, "E", id);
      MissingIsNotFound(rows, "A");
      MissingIsNotFound(rows, "I");
    case AddressRoot(author, kind, identifier, pinned) =>
      if pinned.Some? { SaidIdIsFound(rows, "E", pinned.value); } else { MissingIsNotFound(rows, "E"); }
      var t :| Says(rows, "A", t) && ParseCoordinate(t) == Some(Coordinate(kind, author, identifier));
      EmptyIsNoCoordinate();
      SaidIsFound(rows, "A", t);
      MissingIsNotFound(rows, "I");
    case External(id) =>
      MissingIsNotFound(rows, "E");
      MissingIsNotFound(rows, "A");
      SaidIsFound(rows, "I", id.IValue());
  }

  lemma EmptyIsNoCoordinate()
    ensures ParseCoordinate("").None?
  {
  }

  /** Which event the lowercase `e` row of a decodable comment names. */
  lemma LenientParent(rows: seq<Row>, root: CommentRoot, parent: CommentParent)
    requires NamesParent(rows, root, parent)
    ensures parent.Comment? ==> Find(rows, "e").Some? && IdAt(Find(rows, "e").value, 1) == Some(parent.eventId)
    ensures parent.TopLevel? && root.EventRoot? ==>
      Find(rows, "e").Some? && IdAt(Find(rows, "e").value, 1) == Some(root.eventId)
    ensures parent.TopLevel? && root.External? ==> Find(rows, "e").None?
  {
    hide Find, Says, NoRow, IdFromHex, ParseU16, PrintCoordinate;
    if parent.Comment? {
      SaidIdIsFound(rows, "e", parent.eventId);
    } else if root.EventRoot? {
      SaidIdIsFound(rows, "e", root.eventId);
    } else if root.External? {
      MissingIsNotFound(rows, "e");
    }
  }

  /** Wherever the strict decoder accepts, the lenient reader names the same root, and the same comment as parent but
      where an address is pinned to that very comment; a comment on an event or on an external id has no parent. */
  lemma ReadersAgree(parse: UrlParser, rows: seq<Row>, root: CommentRoot, parent: CommentParent)
    requires Decode(COMMENT_KIND, rows) == Ok(Decoded(root, parent))
    ensures
      var position := ReadPosition(parse, rows);
      && position.root.Some? && position.root.value.eventId == RootEvent(root)
      && (root.External? ==> position.root.value.external == Some(root.id.IValue()))
      && (root.AddressRoot? ==>
            && position.root.value.address.Some?
            && ParseCoordinate(position.root.value.address.value)
               == Some(Coordinate(root.kind, root.author, root.identifier)))
      && (parent.Comment? ==>
            if RootEvent(root) == Some(parent.eventId) then position.parent.None?
            else position.parent.Some? && position.parent.value.eventId == Some(parent.eventId))
      && (parent.TopLevel? && !root.AddressRoot? ==> position.parent.None?)
  {
    DecodeIsExact(COMMENT_KIND, rows, root, parent);
    LenientRoot(parse, rows, root);
    LenientParent(rows, root, parent);
    hide Decode, Find, NamesRoot, NamesParent, IdAt, ParseCoordinate;
  }
}
