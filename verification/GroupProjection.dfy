/** What the group snapshots say, in terms of the rows alone: kinds, `d` values, times and ids. */
module GroupProjection {
  import opened Wrappers
  import opened RowDeltas
  import opened GroupRecords
  import opened GroupSnapshots

  // ---- rows --------------------------------------------------------------

  predicate ValueAt(tags: seq<seq<string>>, name: string, i: nat) {
    i < |tags| && |tags[i]| > 1 && tags[i][0] == name
  }

  /** The first row of that name that has a value has this one. */
  ghost predicate FirstIs(tags: seq<seq<string>>, name: string, value: string) {
    exists i: nat :: ValueAt(tags, name, i) && tags[i][1] == value && forall j: nat | j < i :: !ValueAt(tags, name, j)
  }

  lemma {:induction false} FirstValueIsFirst(tags: seq<seq<string>>, name: string, value: string)
    ensures FirstValue(tags, name) == Some(value) <==> FirstIs(tags, name, value)
  {
    if tags != [] {
      FirstValueIsFirst(tags[1..], name, value);
      if FirstIs(tags[1..], name, value) && !ValueAt(tags, name, 0) {
        var i: nat :| ValueAt(tags[1..], name, i) && tags[1..][i][1] == value
                      && forall j: nat | j < i :: !ValueAt(tags[1..], name, j);
        assert ValueAt(tags, name, i + 1);
        forall j: nat | j < i + 1 ensures !ValueAt(tags, name, j) {
          if j > 0 { assert !ValueAt(tags[1..], name, j - 1); }
        }
      }
      if FirstIs(tags, name, value) {
        var i: nat :| ValueAt(tags, name, i) && tags[i][1] == value && forall j: nat | j < i :: !ValueAt(tags, name, j);
        if i > 0 {
          assert !ValueAt(tags, name, 0) && ValueAt(tags[1..], name, i - 1);
          forall j: nat | j < i - 1 ensures !ValueAt(tags[1..], name, j) {
            assert !ValueAt(tags, name, j + 1);
          }
        } else {
          assert ValueAt(tags, name, 0);
        }
      } else if ValueAt(tags, name, 0) {
        assert FirstIs(tags, name, tags[0][1]);
      }
    }
  }

  /** The host served this row, of this kind, for the group. */
  ghost predicate RecordRow(rows: Rows, id: Id, g: string, h: Host, kind: nat) {
    id in rows && h in rows[id].sources && rows[id].event.kind == kind && FirstIs(rows[id].event.tags, "d", g)
  }

  /** The row is older than the event, or of the same moment and with no greater id. */
  predicate NoNewer(rows: Rows, id: Id, e: Event) {
    id in rows
    && (rows[id].event.createdAt < e.createdAt || (rows[id].event.createdAt == e.createdAt && id <= e.id))
  }

  /** The newest such row, and of several of one moment the one with the greatest id. */
  ghost predicate NewestRow(rows: Rows, g: string, h: Host, kind: nat, e: Event) {
    && RecordRow(rows, e.id, g, h, kind) && rows[e.id].event == e
    && forall id: Id | RecordRow(rows, id, g, h, kind) :: NoNewer(rows, id, e)
  }

  /** Some `p` row names the key, with the role in its third cell if there is one. */
  ghost predicate ListsSubject(tags: seq<seq<string>>, parse: KeyParser, s: Subject) {
    exists i :: 0 <= i < |tags| && |tags[i]| >= 2 && tags[i][0] == "p" && parse(tags[i][1]) == Some(s.key)
                && s.role == if |tags[i]| > 2 && tags[i][2] != "" then Some(tags[i][2]) else None
  }

  lemma ListingIsNaming(tags: seq<seq<string>>, parse: KeyParser, s: Subject)
    ensures ListsSubject(tags, parse, s) <==> Names(tags, parse, s)
  {
    if i :| 0 <= i < |tags| && SubjectOf(tags[i], parse) == Some(s) {
      assert ListsSubject(tags, parse, s);
    }
    if i :| 0 <= i < |tags| && |tags[i]| >= 2 && tags[i][0] == "p" && parse(tags[i][1]) == Some(s.key)
            && s.role == if |tags[i]| > 2 && tags[i][2] != "" then Some(tags[i][2]) else None
    {
      assert SubjectOf(tags[i], parse) == Some(s);
    }
  }

  lemma OffersByKind(rows: Rows, id: Id, g: string, h: Host)
    ensures Offers(rows, id, g, h, Metadata) <==> RecordRow(rows, id, g, h, 39000)
    ensures Offers(rows, id, g, h, Admins) <==> RecordRow(rows, id, g, h, 39001)
    ensures Offers(rows, id, g, h, Members) <==> RecordRow(rows, id, g, h, 39002)
  {
    if id in rows { FirstValueIsFirst(rows[id].event.tags, "d", g); }
    hide FirstIs, FirstValue;
  }

  lemma NewestMeans(rows: Rows, g: string, h: Host, r: GroupRecord, kind: nat, e: Event)
    requires Keyed(rows) && forall id: Id :: Offers(rows, id, g, h, r) <==> RecordRow(rows, id, g, h, kind)
    ensures IsNewest(rows, g, h, r, e) <==> NewestRow(rows, g, h, kind, e)
  {
    hide RecordRow, Offers;
    forall id: Id ensures OffersIn(rows, Everything(rows), id, g, h, r) <==> RecordRow(rows, id, g, h, kind) {
      OfferedIsServed(rows, id, g, h, r);
    }
    hide OffersIn, Everything;
    forall id: Id | RecordRow(rows, id, g, h, kind) ensures id in rows && rows[id].event.id == id {
      OfferedIsServed(rows, id, g, h, r);
    }
  }

  lemma OfferedIsServed(rows: Rows, id: Id, g: string, h: Host, r: GroupRecord)
    ensures OffersIn(rows, Everything(rows), id, g, h, r) <==> Offers(rows, id, g, h, r)
    ensures Offers(rows, id, g, h, r) ==> id in rows
  {
  }

  lemma NewestByKind(rows: Rows, g: string, h: Host, e: Event)
    requires Keyed(rows)
    ensures IsNewest(rows, g, h, Metadata, e) <==> NewestRow(rows, g, h, 39000, e)
    ensures IsNewest(rows, g, h, Admins, e) <==> NewestRow(rows, g, h, 39001, e)
    ensures IsNewest(rows, g, h, Members, e) <==> NewestRow(rows, g, h, 39002, e)
  {
    hide RecordRow, Offers, IsNewest, NewestRow;
    forall id: Id { OffersByKind(rows, id, g, h); }
    NewestMeans(rows, g, h, Metadata, 39000, e);
    NewestMeans(rows, g, h, Admins, 39001, e);
    NewestMeans(rows, g, h, Members, 39002, e);
  }

  // ---- snapshots ---------------------------------------------------------

  /** A group has a snapshot exactly if it was asked for or some host served one of its three records. */
  lemma GroupsAreThoseServed(snapshots: map<string, GroupSnapshot>, folded: Folded, rows: Rows, seeds: set<string>,
                             parse: KeyParser, g: string)
    requires Keyed(rows) && IsProjection(snapshots, folded, rows, seeds, parse)
    ensures g in snapshots <==>
      g in seeds || exists id, h, kind :: kind in {39000, 39001, 39002} && RecordRow(rows, id, g, h, kind)
  {
    hide IsSnapshot, RecordRow, Offers, Everything;
    assert g in snapshots <==> g in seeds || Mentioned(rows, Everything(rows), g);
    if Mentioned(rows, Everything(rows), g) {
      var h :| Served(rows, Everything(rows), g, h);
      var id, r :| OffersIn(rows, Everything(rows), id, g, h, r);
      OffersByKind(rows, id, g, h);
      var kind := match r case Metadata => 39000 case Admins => 39001 case Members => 39002;
      assert RecordRow(rows, id, g, h, kind);
    }
    if id, h, kind :| kind in {39000, 39001, 39002} && RecordRow(rows, id, g, h, kind) {
      OffersByKind(rows, id, g, h);
      var r := if kind == 39000 then Metadata else if kind == 39001 then Admins else Members;
      OfferedIsServed(rows, id, g, h, r);
      assert OffersIn(rows, Everything(rows), id, g, h, r);
      assert Served(rows, Everything(rows), g, h);
    }
  }

  /** A list names a subject for a host exactly if the newest row of the list's kind that the host served does. */
  ghost predicate ListsTheNewest(merged: Merged, rows: Rows, g: string, kind: nat, parse: KeyParser) {
    forall s, h :: s in merged && h in merged[s] <==> AnswersFor(rows, g, h, kind, parse, s)
  }

  ghost predicate AnswersFor(rows: Rows, g: string, h: Host, kind: nat, parse: KeyParser, s: Subject) {
    exists e :: NewestRow(rows, g, h, kind, e) && ListsSubject(e.tags, parse, s)
  }

  lemma MergedIsNewest(rows: Rows, seeds: set<string>, folded: Folded, g: string, r: GroupRecord, kind: nat,
                       parse: KeyParser, merged: Merged)
    requires Keyed(rows) && IsFoldOf(folded, rows, seeds) && g in folded
    requires forall h, e :: IsNewest(rows, g, h, r, e) <==> NewestRow(rows, g, h, kind, e)
    requires IsUnion(merged, Current(folded[g], r), parse, Current(folded[g], r).Keys)
    ensures ListsTheNewest(merged, rows, g, kind, parse)
  {
    hide IsFoldOf, IsNewest, NewestRow, Names, ListsSubject, Current, IsUnion;
    forall s, h ensures s in merged && h in merged[s] <==> AnswersFor(rows, g, h, kind, parse, s) {
      AttributionIsExact(rows, seeds, folded, g, r, parse, merged, s, h);
      forall e: Event { ListingIsNaming(e.tags, parse, s); }
    }
  }

  /** The administrators are those of the newest kind:39001 rows, the members those of the newest kind:39002 rows,
      each with exactly the hosts that served such a row. */
  lemma ListsAreNewest(snapshots: map<string, GroupSnapshot>, folded: Folded, rows: Rows, seeds: set<string>,
                       parse: KeyParser, g: string)
    requires Keyed(rows) && IsProjection(snapshots, folded, rows, seeds, parse) && g in snapshots
    ensures ListsTheNewest(snapshots[g].admins, rows, g, 39001, parse)
    ensures ListsTheNewest(snapshots[g].members, rows, g, 39002, parse)
  {
    hide IsFoldOf, IsNewest, NewestRow, ListsTheNewest, Current, IsUnion, Wins, Disagree, SaidApart;
    forall h, e { NewestByKind(rows, g, h, e); }
    MergedIsNewest(rows, seeds, folded, g, Admins, 39001, parse, snapshots[g].admins);
    MergedIsNewest(rows, seeds, folded, g, Members, 39002, parse, snapshots[g].members);
  }

  lemma LastHostShows(rows: Rows, seeds: set<string>, folded: Folded, g: string, w: Winner, h: Host)
    requires Keyed(rows) && IsFoldOf(folded, rows, seeds) && g in folded
    requires Wins(Some(w), Current(folded[g], Metadata), Current(folded[g], Metadata).Keys)
    requires Offers(rows, w.event.id, g, h, Metadata)
    ensures h <= w.host
  {
    hide IsFoldOf, Current, Offers, Everything;
    CurrentIsNewest(rows, seeds, folded, g, w.host, Metadata, w.event);
    OfferedHosts(rows, seeds, folded, g, w.event.id, h);
    OfferedIsServed(rows, w.event.id, g, w.host, Metadata);
  }

  /** The metadata shown is one whole kind:39000 row, as new as any that any host served for the group, and is ascribed
      to the last of the hosts that served it; there is none exactly if no host served one. */
  lemma MetadataIsNewest(snapshots: map<string, GroupSnapshot>, folded: Folded, rows: Rows, seeds: set<string>,
                         parse: KeyParser, g: string)
    requires Keyed(rows) && IsProjection(snapshots, folded, rows, seeds, parse) && g in snapshots
    ensures snapshots[g].metadata.None? <==> forall id: Id, h: Host :: !RecordRow(rows, id, g, h, 39000)
    ensures snapshots[g].metadata.Some? ==>
      var w := snapshots[g].metadata.value;
      && NewestRow(rows, g, w.host, 39000, w.event)
      && (forall id: Id, h: Host | RecordRow(rows, id, g, h, 39000) :: NoNewer(rows, id, w.event))
      && (forall h: Host | RecordRow(rows, w.event.id, g, h, 39000) :: h <= w.host)
  {
    hide IsFoldOf, IsNewest, NewestRow, RecordRow, Offers, Current, IsUnion, Disagree, SaidApart;
    var held, m := Current(folded[g], Metadata), snapshots[g].metadata;
    assert Wins(m, held, held.Keys);
    forall id: Id, h: Host { OffersByKind(rows, id, g, h); }
    AggregateExists(rows, seeds, folded, g);
    if m.Some? {
      CurrentIsNewest(rows, seeds, folded, g, m.value.host, Metadata, m.value.event);
      NewestByKind(rows, g, m.value.host, m.value.event);
      forall id: Id, h: Host | RecordRow(rows, id, g, h, 39000) ensures NoNewer(rows, id, m.value.event) {
        AggregateIsNewest(rows, seeds, folded, g, m.value, id, h);
        OfferedIsServed(rows, id, g, h, Metadata);
      }
      forall h: Host | RecordRow(rows, m.value.event.id, g, h, 39000) ensures h <= m.value.host {
        LastHostShows(rows, seeds, folded, g, m.value, h);
      }
    } else {
      assert Wins(None, held, held.Keys);
    }
  }

  // ---- disagreements -----------------------------------------------------

  ghost predicate ListsDiffer(rows: Rows, g: string, kind: nat, parse: KeyParser) {
    exists h, k, d, e, s ::
      NewestRow(rows, g, h, kind, d) && NewestRow(rows, g, k, kind, e)
      && ListsSubject(d.tags, parse, s) && !ListsSubject(e.tags, parse, s)
  }

  lemma DifferByKind(rows: Rows, seeds: set<string>, folded: Folded, g: string, r: GroupRecord, kind: nat,
                     parse: KeyParser)
    requires Keyed(rows) && IsFoldOf(folded, rows, seeds) && g in folded
    requires forall h, e :: IsNewest(rows, g, h, r, e) <==> NewestRow(rows, g, h, kind, e)
    ensures Disagree(Current(folded[g], r), parse) <==> ListsDiffer(rows, g, kind, parse)
  {
    hide IsFoldOf, IsNewest, NewestRow, Names, ListsSubject, Current, Disagree;
    DisagreementIsExact(rows, seeds, folded, g, r, parse);
    forall e: Event, s { ListingIsNaming(e.tags, parse, s); }
  }

  /** Metadata records are told apart by their rows: what is said of name, about and picture is part of those. */
  ghost predicate MetadataDiffers(rows: Rows, g: string) {
    exists h, k, d, e :: NewestRow(rows, g, h, 39000, d) && NewestRow(rows, g, k, 39000, e) && d.tags != e.tags
  }

  lemma SaidByRows(held: Published)
    ensures SaidApart(held) <==> exists h, k :: h in held && k in held && held[h].tags != held[k].tags
  {
  }

  lemma MetadataApart(rows: Rows, seeds: set<string>, folded: Folded, g: string)
    requires Keyed(rows) && IsFoldOf(folded, rows, seeds) && g in folded
    ensures SaidApart(Current(folded[g], Metadata)) <==> MetadataDiffers(rows, g)
  {
    hide IsFoldOf, IsNewest, NewestRow, Current, SaidApart;
    var held := Current(folded[g], Metadata);
    SaidByRows(held);
    forall h, e ensures h in held && held[h] == e <==> NewestRow(rows, g, h, 39000, e) {
      CurrentIsNewest(rows, seeds, folded, g, h, Metadata, e);
      NewestByKind(rows, g, h, e);
    }
    if h, k :| h in held && k in held && held[h].tags != held[k].tags {
      assert NewestRow(rows, g, h, 39000, held[h]) && NewestRow(rows, g, k, 39000, held[k]);
    }
    if h, k, d, e :| NewestRow(rows, g, h, 39000, d) && NewestRow(rows, g, k, 39000, e) && d.tags != e.tags {
      assert h in held && held[h] == d && k in held && held[k] == e;
    }
  }

  /** Each of the three marks is set exactly if two hosts' newest rows of that kind differ: lists in a subject, metadata
      in any row. */
  lemma MarksAreExact(snapshots: map<string, GroupSnapshot>, folded: Folded, rows: Rows, seeds: set<string>,
                      parse: KeyParser, g: string)
    requires Keyed(rows) && IsProjection(snapshots, folded, rows, seeds, parse) && g in snapshots
    ensures Metadata in snapshots[g].disagreements <==> MetadataDiffers(rows, g)
    ensures Admins in snapshots[g].disagreements <==> ListsDiffer(rows, g, 39001, parse)
    ensures Members in snapshots[g].disagreements <==> ListsDiffer(rows, g, 39002, parse)
  {
    hide IsFoldOf, IsNewest, NewestRow, Current, IsUnion, Wins, Disagree, SaidApart, ListsDiffer, MetadataDiffers;
    forall h, e { NewestByKind(rows, g, h, e); }
    MetadataApart(rows, seeds, folded, g);
    DifferByKind(rows, seeds, folded, g, Admins, 39001, parse);
    DifferByKind(rows, seeds, folded, g, Members, 39002, parse);
  }
}
