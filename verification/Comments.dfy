/** NIP-22 comments: the typed root and parent, the strict decoder, and the composer. */
module Comments {
  import opened Wrappers
  import opened Text
  import opened Tagging

  // ---- external content ids (NIP-73) -------------------------------------

  const PODCAST_KIND := "podcast:item:guid"
  const PODCAST_PREFIX := "podcast:item:guid:"
  const WEB_KIND := "web"

  datatype Nip73 =
    | PodcastEpisode(guid: string)
    | Url(url: string)
    | General(value: string, kind: string)
  {
    function IValue(): string {
      match this
      case PodcastEpisode(guid) => PODCAST_PREFIX + guid
      case Url(url) => url
      case General(value, _) => value
    }

    function KValue(): string {
      match this
      case PodcastEpisode(_) => PODCAST_KIND
      case Url(_) => WEB_KIND
      case General(_, kind) => kind
    }

    /** What the constructors establish: no cell is empty. */
    predicate Valid() {
      match this
      case PodcastEpisode(guid) => guid != ""
      case Url(url) => url != ""
      case General(value, kind) => value != "" && kind != ""
    }
  }

  datatype CommentRoot =
    | EventRoot(eventId: Id32, kind: nat, writer: Option<Id32>)
    | AddressRoot(author: Id32, kind: nat, identifier: string, pinned: Option<Id32>)
    | External(id: Nip73)
  {
    predicate Valid() {
      match this
      case EventRoot(_, kind, _) => kind < 65536
      case AddressRoot(_, kind, _, _) => kind < 65536
      case External(id) => id.Valid()
    }
  }

  datatype CommentParent =
    | TopLevel
    | Comment(eventId: Id32, author: Option<Id32>)

  datatype DecodeError =
    | WrongKind(got: nat)
    | MissingRoot
    | DuplicateContradictoryRoot
    | MissingRootKind
    | InvalidRootKind(text: string)
    | MalformedRootReference
    | EmptyExternalValue
    | MalformedExternalValue(text: string)
    | MissingParent
    | DuplicateContradictoryParent
    | MissingParentKind
    | InvalidParentKind(text: string)
    | MalformedParentReference
    | ParentDoesNotMatchRootOrComment

  datatype Decoded = Decoded(root: CommentRoot, parent: CommentParent)

  // ---- decoding ----------------------------------------------------------

  /** One side of a comment, root or parent, before it is typed. */
  datatype Raw =
    | RawEvent(eventId: Id32, kindTag: string, author: Option<Id32>)
    | RawAddress(coordinate: string, kindTag: string)
    | RawAddressWithEvent(coordinate: string, eventId: Id32, kindTag: string)
    | RawExternal(iValue: string, kValue: string)

  /** The letters and refusals that tell the two sides apart. */
  datatype Side = Side(l: Letters, missing: DecodeError, duplicate: DecodeError, missingKind: DecodeError,
                       malformed: DecodeError)

  const ROOT_SIDE := Side(UPPER, MissingRoot, DuplicateContradictoryRoot, MissingRootKind, MalformedRootReference)
  const PARENT_SIDE := Side(LOWER, MissingParent, DuplicateContradictoryParent, MissingParentKind,
    MalformedParentReference)

  function RowsNamed(rows: seq<Row>, name: string): seq<Row> {
    if rows == [] then []
    else if Named(rows[0], name) then [rows[0]] + RowsNamed(rows[1..], name)
    else RowsNamed(rows[1..], name)
  }

  /** The second cell of the first row of that name, empty or not. */
  function Second(rows: seq<Row>, name: string): Option<string> {
    var row := Find(rows, name);
    if row.Some? && |row.value| > 1 then Some(row.value[1]) else None
  }

  function SecondId(rows: seq<Row>, name: string): Option<Id32> {
    var text := Second(rows, name);
    if text.Some? then IdFromHex(text.value) else None
  }

  predicate Repeated(rows: seq<Row>, name: string) {
    |RowsNamed(rows, name)| > 1
  }

  /** `decode_root` and `decode_parent`, which differ only in letters and refusals. */
  function DecodeSide(rows: seq<Row>, side: Side): Result<Raw, DecodeError> {
    if Repeated(rows, side.l.e) || Repeated(rows, side.l.a) || Repeated(rows, side.l.i) || Repeated(rows, side.l.k) then
      Err(side.duplicate)
    else
      var hasE, hasA, hasI := Find(rows, side.l.e).Some?, Find(rows, side.l.a).Some?, Find(rows, side.l.i).Some?;
      if !hasE && !hasA && !hasI then Err(side.missing)
      else if hasI && (hasE || hasA) then Err(side.duplicate)
      else if hasI then DecodeExternal(rows, side)
      else if hasA then DecodeAddress(rows, side, hasE)
      else
        var id, kind := SecondId(rows, side.l.e), Second(rows, side.l.k);
        if id.None? then Err(side.malformed)
        else if kind.None? then Err(side.missingKind)
        else Ok(RawEvent(id.value, kind.value, SecondId(rows, side.l.p)))
  }

  function DecodeAddress(rows: seq<Row>, side: Side, pinned: bool): Result<Raw, DecodeError> {
    var coordinate, id, kind := Second(rows, side.l.a), SecondId(rows, side.l.e), Second(rows, side.l.k);
    if coordinate.None? || ParseCoordinate(coordinate.value).None? then Err(side.malformed)
    else if pinned && id.None? then Err(side.malformed)
    else if kind.None? then Err(side.missingKind)
    else if pinned then Ok(RawAddressWithEvent(coordinate.value, id.value, kind.value))
    else Ok(RawAddress(coordinate.value, kind.value))
  }

  function DecodeExternal(rows: seq<Row>, side: Side): Result<Raw, DecodeError> {
    var iValue, kValue := Second(rows, side.l.i), Second(rows, side.l.k);
    if iValue.None? || iValue.value == "" then Err(EmptyExternalValue)
    else if kValue.None? then Err(side.missingKind)
    else if kValue.value == "" then Err(EmptyExternalValue)
    else Ok(RawExternal(iValue.value, kValue.value))
  }

  function ExternalFromCells(iValue: string, kValue: string): Result<Nip73, DecodeError> {
    if kValue == PODCAST_KIND then
      if !(PODCAST_PREFIX <= iValue) then Err(MalformedExternalValue(iValue))
      else if |iValue| == |PODCAST_PREFIX| then Err(EmptyExternalValue)
      else Ok(PodcastEpisode(iValue[|PODCAST_PREFIX|..]))
    else if iValue == "" || kValue == "" then Err(EmptyExternalValue)
    else Ok(General(iValue, kValue))
  }

  function TypedAddress(coordinate: string, kindTag: string, pinned: Option<Id32>): Result<CommentRoot, DecodeError> {
    var kind, parts := ParseU16(kindTag), ParseCoordinate(coordinate);
    if kind.None? then Err(InvalidRootKind(kindTag))
    else if parts.None? || kind.value != parts.value.kind then Err(MalformedRootReference)
    else Ok(AddressRoot(parts.value.author, kind.value, parts.value.identifier, pinned))
  }

  function TypedRoot(raw: Raw): Result<CommentRoot, DecodeError> {
    match raw
    case RawEvent(id, kindTag, author) =>
      var kind := ParseU16(kindTag);
      if kind.None? then Err(InvalidRootKind(kindTag)) else Ok(EventRoot(id, kind.value, author))
    case RawAddress(coordinate, kindTag) => TypedAddress(coordinate, kindTag, None)
    case RawAddressWithEvent(coordinate, id, kindTag) => TypedAddress(coordinate, kindTag, Some(id))
    case RawExternal(iValue, kValue) =>
      var target := ExternalFromCells(iValue, kValue);
      if target.Ok? then Ok(External(target.value)) else Err(target.error)
  }

  predicate MirrorsAddress(root: CommentRoot, coordinate: string, kind: nat) {
    root.AddressRoot? && coordinate == PrintCoordinate(Coordinate(root.kind, root.author, root.identifier))
      && kind == root.kind
  }

  /** A parent is legal when it mirrors the root or is an `e` row of kind 1111. */
  function TypedParent(root: CommentRoot, raw: Raw): Result<CommentParent, DecodeError> {
    if raw.RawExternal? then
      if root.External? && raw.iValue == root.id.IValue() && raw.kValue == root.id.KValue() then Ok(TopLevel)
      else Err(ParentDoesNotMatchRootOrComment)
    else if !raw.RawEvent? && !root.AddressRoot? then Err(ParentDoesNotMatchRootOrComment)
    else
      var kind := ParseU16(raw.kindTag);
      if kind.None? then Err(InvalidParentKind(raw.kindTag))
      else
        match raw
        case RawEvent(id, _, author) =>
          if root.EventRoot? && id == root.eventId then
            if kind.value == root.kind then Ok(TopLevel) else Err(ParentDoesNotMatchRootOrComment)
          else if kind.value == COMMENT_KIND then Ok(Comment(id, author))
          else Err(ParentDoesNotMatchRootOrComment)
        case RawAddress(coordinate, _) =>
          if MirrorsAddress(root, coordinate, kind.value) then Ok(TopLevel) else Err(ParentDoesNotMatchRootOrComment)
        case RawAddressWithEvent(coordinate, id, _) =>
          if MirrorsAddress(root, coordinate, kind.value) && (root.pinned.Some? ==> root.pinned.value == id)
          then Ok(TopLevel) else Err(ParentDoesNotMatchRootOrComment)
  }

  function Decode(kind: nat, rows: seq<Row>): Result<Decoded, DecodeError> {
    if kind != COMMENT_KIND then Err(WrongKind(kind))
    else
      var rawRoot := DecodeSide(rows, ROOT_SIDE);
      if rawRoot.Err? then Err(rawRoot.error)
      else
        var rawParent := DecodeSide(rows, PARENT_SIDE);
        if rawParent.Err? then Err(rawParent.error)
        else
          var root := TypedRoot(rawRoot.value);
          if root.Err? then Err(root.error)
          else
            var parent := TypedParent(root.value, rawParent.value);
            if parent.Err? then Err(parent.error) else Ok(Decoded(root.value, parent.value))
  }

  // ---- composing ---------------------------------------------------------

  /** A comment on an event: its thread's root scope, then the event itself. */
  function CommentOnEvent(parse: UrlParser, e: Event, sources: Option<RelayUrl>): seq<Row> {
    EventRootRows(parse, e, sources, DEFAULT_OPTIONS) + EventParentRows(parse, e, sources, DEFAULT_OPTIONS)
  }

  function RootRows(root: CommentRoot, l: Letters, relay: Option<RelayUrl>): seq<Row> {
    var hint := RelayCell(relay);
    match root
    case EventRoot(id, kind, writer) =>
      RowIf(true, [l.e, ToHex(id), hint, Text0(writer)])
      + RowIf(true, [l.k, Digits(kind)])
      + RowIf(writer.Some?, [l.p, Text0(writer), hint])
    case AddressRoot(author, kind, identifier, pinned) =>
      RowIf(true, [l.a, PrintCoordinate(Coordinate(kind, author, identifier)), hint, ToHex(author)])
      + RowIf(true, [l.k, Digits(kind)])
      + RowIf(pinned.Some?, [l.e, Text0(pinned), hint, ToHex(author)])
      + RowIf(true, [l.p, ToHex(author), hint])
    case External(id) => RowIf(true, [l.i, id.IValue()]) + RowIf(true, [l.k, id.KValue()])
  }

  /** A comment on a typed root, which is always the root of its own thread. */
  function CommentOnRoot(root: CommentRoot, relay: Option<RelayUrl>): seq<Row> {
    RootRows(root, UPPER, relay) + RootRows(root, LOWER, relay)
  }

  // ---- the thread demand -------------------------------------------------

  function RootLetter(root: CommentRoot): string {
    match root
    case EventRoot(_, _, _) => "E"
    case AddressRoot(_, _, _, _) => "A"
    case External(_) => "I"
  }

  function RootIdentifier(root: CommentRoot): string {
    match root
    case EventRoot(id, _, _) => ToHex(id)
    case AddressRoot(author, kind, identifier, _) => PrintCoordinate(Coordinate(kind, author, identifier))
    case External(id) => id.IValue()
  }

  /** What a relay filter for the whole thread selects: kind 1111 under the root's own uppercase tag. */
  ghost predicate InThread(root: CommentRoot, kind: nat, rows: seq<Row>) {
    kind == COMMENT_KIND
    && exists i ::
         0 <= i < |rows| && |rows[i]| > 1 && rows[i][0] == RootLetter(root) && rows[i][1] == RootIdentifier(root)
  }
}
