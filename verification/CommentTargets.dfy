/** Exactly which events a NIP-22 comment can be composed on so that it decodes. */
module CommentTargets {
  import opened Wrappers
  import opened Text
  import opened Tagging
  import opened Comments
  import opened CommentThreads

  /** The root an event's rows name, under the event's own kind where they state none. */
  function NamedRoot(parse: UrlParser, e: Event): Pointer {
    RootPointer(parse, e, None)
  }

  /** The root's cells are ones the decoder takes. */
  predicate RootReads(p: Pointer) {
    && p.kind.Some?
    && if p.external.Some? then
         && p.eventId.None? && p.address.None? && p.external.value != "" && p.kind.value != ""
         && (p.kind.value == PODCAST_KIND ==> PODCAST_PREFIX <= p.external.value && p.external.value != PODCAST_PREFIX)
       else if p.address.Some? then
         var c := ParseCoordinate(p.address.value);
         c.Some? && ParseU16(p.kind.value) == Some(c.value.kind)
       else p.eventId.Some? && ParseU16(p.kind.value).Some?
  }

  /** The event can be the parent under that root: it is the root itself, or it is a comment. */
  predicate FitsUnder(p: Pointer, e: Event) {
    if e.kind / 10000 == 3 then
      && p.external.None? && p.address.Some?
      && ParseCoordinate(p.address.value) == Some(Coordinate(e.kind, e.pubkey, Identifier(e.tags)))
      && (p.eventId.Some? ==> p.eventId.value == e.id)
    else if p.external.None? && p.address.None? && p.eventId == Some(e.id) then
      p.kind.Some? && ParseU16(p.kind.value) == Some(e.kind)
    else e.kind == COMMENT_KIND
  }

  lemma PrintIsInjective(c: Coordinate, d: Coordinate)
    requires c.kind < 65536 && d.kind < 65536 && PrintCoordinate(c) == PrintCoordinate(d)
    ensures c == d
  {
    CoordinateRoundTrip(c);
    CoordinateRoundTrip(d);
  }

  lemma RootIsTyped(p: Pointer)
    ensures Reading(p, p.author, ROOT_SIDE).Ok? && TypedRoot(Reading(p, p.author, ROOT_SIDE).value).Ok?
      <==> RootReads(p)
  {
    hide ParseU16, ParseCoordinate;
  }

  lemma TypedParts(p: Pointer)
    requires RootReads(p)
    ensures
      var raw := Reading(p, p.author, ROOT_SIDE);
      && p.kind.Some? && raw.Ok? && TypedRoot(raw.value).Ok?
      && var root := TypedRoot(raw.value).value;
         && (root.External? <==> p.external.Some?)
         && (root.AddressRoot? <==> p.external.None? && p.address.Some?)
         && (root.AddressRoot? ==>
               && ParseCoordinate(p.address.value) == Some(Coordinate(root.kind, root.author, root.identifier))
               && root.pinned == p.eventId)
         && (root.EventRoot? ==> p.eventId == Some(root.eventId) && ParseU16(p.kind.value) == Some(root.kind))
  {
    hide ParseU16, ParseCoordinate;
  }

  lemma OwnParent(e: Event, sources: Option<RelayUrl>)
    requires e.kind < 65536
    ensures Reading(Target(e, sources), Some(e.pubkey), PARENT_SIDE) ==
      Ok(if IsAddressable(e.kind)
         then RawAddressWithEvent(PrintCoordinate(Coordinate(e.kind, e.pubkey, Identifier(e.tags))), e.id,
           Digits(e.kind))
         else RawEvent(e.id, Digits(e.kind), Some(e.pubkey)))
  {
    hide Digits, ParseU16, ParseCoordinate, PrintCoordinate, Identifier;
    CoordinateRoundTrip(Coordinate(e.kind, e.pubkey, Identifier(e.tags)));
  }

  lemma ParsedKind(s: string)
    ensures ParseCoordinate(s).Some? ==> ParseCoordinate(s).value.kind < 65536
  {
  }

  lemma MirrorIsSameCoordinate(p: Pointer, root: CommentRoot, c: Coordinate)
    requires p.address.Some? && root.AddressRoot? && c.kind < 65536
    requires ParseCoordinate(p.address.value) == Some(Coordinate(root.kind, root.author, root.identifier))
    ensures MirrorsAddress(root, PrintCoordinate(c), c.kind) <==> ParseCoordinate(p.address.value) == Some(c)
  {
    hide ParseCoordinate, PrintCoordinate;
    ParsedKind(p.address.value);
    var mine := Coordinate(root.kind, root.author, root.identifier);
    if PrintCoordinate(c) == PrintCoordinate(mine) { PrintIsInjective(c, mine); }
  }

  lemma ParentFits(p: Pointer, e: Event, sources: Option<RelayUrl>)
    requires RootReads(p) && e.kind < 65536
    ensures Reading(p, p.author, ROOT_SIDE).Ok? && TypedRoot(Reading(p, p.author, ROOT_SIDE).value).Ok?
    ensures Reading(Target(e, sources), Some(e.pubkey), PARENT_SIDE).Ok?
    ensures
      var root, raw := TypedRoot(Reading(p, p.author, ROOT_SIDE).value).value,
        Reading(Target(e, sources), Some(e.pubkey), PARENT_SIDE).value;
      TypedParent(root, raw).Ok? <==> FitsUnder(p, e)
  {
    hide Reading, TypedRoot, RootReads, Digits, ParseU16, ParseCoordinate, PrintCoordinate, Identifier, MirrorsAddress,
      Target;
    TypedParts(p);
    OwnParent(e, sources);
    U16RoundTrip(e.kind);
    var root := TypedRoot(Reading(p, p.author, ROOT_SIDE).value).value;
    var c := Coordinate(e.kind, e.pubkey, Identifier(e.tags));
    if root.AddressRoot? {
      MirrorIsSameCoordinate(p, root, c);
    } else {
      assert !MirrorsAddress(root, PrintCoordinate(c), c.kind) by { OnlyAddressesMirror(root, c); }
    }
  }

  lemma OnlyAddressesMirror(root: CommentRoot, c: Coordinate)
    requires !root.AddressRoot?
    ensures !MirrorsAddress(root, PrintCoordinate(c), c.kind)
  {
  }

  lemma RelayDoesNotMatter(parse: UrlParser, e: Event, sources: Option<RelayUrl>)
    ensures NamedRoot(parse, e).(relay := None) == RootPointer(parse, e, sources).(relay := None)
  {
    hide ReadPosition, Target;
  }

  /** A comment on any event but a text note decodes exactly when the root the event names reads, and the event
      is that root or a comment. */
  lemma CommentDecodesExactly(parse: UrlParser, e: Event, sources: Option<RelayUrl>)
    requires e.kind < 65536 && e.kind != TEXT_NOTE_KIND
    ensures Decode(COMMENT_KIND, CommentOnEvent(parse, e, sources)).Ok? <==>
      RootReads(NamedRoot(parse, e)) && FitsUnder(NamedRoot(parse, e), e)
  {
    hide DecodeSide, CommentOnEvent, Reading, TypedRoot, TypedParent, RootReads, FitsUnder, RootPointer, Target;
    var p, q := NamedRoot(parse, e), RootPointer(parse, e, sources);
    CommentReading(parse, e, sources);
    RelayDoesNotMatter(parse, e, sources);
    ReadingIgnoresRelay(p, q);
    RootIsTyped(p);
    OwnParent(e, sources);
    if RootReads(p) { ParentFits(p, e, sources); }
  }

  /** An event that is in a comment scope without being a comment, an addressable event or the scope's own root
      cannot be commented on. */
  lemma ScopedEventsFail(parse: UrlParser, e: Event, sources: Option<RelayUrl>)
    requires e.kind < 65536 && e.kind != TEXT_NOTE_KIND && e.kind != COMMENT_KIND && !IsAddressable(e.kind)
    requires HasCommentScope(e.tags) && ReadPosition(parse, e.tags).root.value.eventId != Some(e.id)
    ensures Decode(COMMENT_KIND, CommentOnEvent(parse, e, sources)).Err?
  {
    CommentDecodesExactly(parse, e, sources);
    hide Decode, CommentOnEvent, RootReads, HasCommentScope, ReadCommentScope, ReadNip10;
  }

  /** Such an event: a voice reply, which is kind 1244 and carries the rows of a comment. */
  lemma VoiceRepliesFail(parse: UrlParser, id: Id32, author: Id32, root: Id32, sources: Option<RelayUrl>)
    requires id != root
    ensures
      var e := Event(id, author, 0, 1244, [["E", ToHex(root)], ["K", "1222"], ["P", ToHex(author)]], "");
      Decode(COMMENT_KIND, CommentOnEvent(parse, e, sources)).Err?
  {
    var e := Event(id, author, 0, 1244, [["E", ToHex(root)], ["K", "1222"], ["P", ToHex(author)]], "");
    IdRoundTrip(root);
    hide Decode, CommentOnEvent, ToHex, IdFromHex;
    assert Find(e.tags, "E") == Some(["E", ToHex(root)]);
    ScopedEventsFail(parse, e, sources);
  }
}
