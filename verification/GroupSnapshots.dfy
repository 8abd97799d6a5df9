/** NIP-29 group snapshots: what the hosts say together, and where they disagree. */
module GroupSnapshots {
  import opened Wrappers
  import opened RowDeltas
  import opened GroupRecords

  /** How a cell is read as a key. */
  type KeyParser = string -> Option<Key>

  datatype Subject = Subject(key: Key, role: Option<string>)

  // ---- one list record ---------------------------------------------------

  function SubjectOf(row: seq<string>, parse: KeyParser): Option<Subject> {
    if |row| < 2 || row[0] != "p" || parse(row[1]).None? then None
    else Some(Subject(parse(row[1]).value, if |row| > 2 && row[2] != "" then Some(row[2]) else None))
  }

  ghost predicate Names(tags: seq<seq<string>>, parse: KeyParser, s: Subject) {
    exists i :: 0 <= i < |tags| && SubjectOf(tags[i], parse) == Some(s)
  }

  datatype ListedSubject = ListedSubject(subject: Subject, hosts: set<Host>)

  predicate NamesAt(tags: seq<seq<string>>, parse: KeyParser, s: Subject, p: nat) {
    p < |tags| && SubjectOf(tags[p], parse) == Some(s)
  }

  /** Some row naming the first comes before every row naming the second. */
  ghost predicate NamedEarlier(tags: seq<seq<string>>, parse: KeyParser, s: Subject, t: Subject) {
    exists p: nat :: NamesAt(tags, parse, s, p) && forall q: nat | NamesAt(tags, parse, t, q) :: p < q
  }

  /** The subjects stand in the order in which the rows first name them. */
  ghost predicate InRowOrder(tags: seq<seq<string>>, parse: KeyParser, subjects: seq<ListedSubject>) {
    forall i, j | 0 <= i < j < |subjects| :: NamedEarlier(tags, parse, subjects[i].subject, subjects[j].subject)
  }

  /** Exactly the subjects of the record's rows, once each and in the rows' order, attributed to the host that
      signed it. */
  method ListedRecordAt(host: Host, e: Event, parse: KeyParser) returns (subjects: seq<ListedSubject>)
    ensures NoRepeats(subjects) && InRowOrder(e.tags, parse, subjects)
    ensures forall s :: ListedSubject(s, {host}) in subjects <==> Names(e.tags, parse, s)
    ensures forall l | l in subjects :: l.hosts == {host}
  {
    subjects := [];
    for i := 0 to |e.tags|
      invariant NoRepeats(subjects) && InRowOrder(e.tags[..i], parse, subjects)
      invariant forall s :: ListedSubject(s, {host}) in subjects <==> Names(e.tags[..i], parse, s)
      invariant forall l | l in subjects :: l.hosts == {host}
    {
      hide Names, NamedEarlier;
      var row := e.tags[i];
      NamesStep(e.tags, parse, i);
      forall a, b | 0 <= a < b < |subjects|
        ensures NamedEarlier(e.tags[..i + 1], parse, subjects[a].subject, subjects[b].subject)
      {
        EarlierStays(e.tags, parse, i, subjects[a].subject, subjects[b].subject);
      }
      if |row| == 0 || row[0] != "p" {
        continue;
      }
      if |row| < 2 || parse(row[1]).None? {
        continue;
      }
      var role := if |row| > 2 && row[2] != "" then Some(row[2]) else None;
      var listed := ListedSubject(Subject(parse(row[1]).value, role), {host});
      if listed !in subjects {
        forall a | 0 <= a < |subjects|
          ensures NamedEarlier(e.tags[..i + 1], parse, subjects[a].subject, listed.subject)
        {
          assert subjects[a] == ListedSubject(subjects[a].subject, {host}) && subjects[a] in subjects;
          LatestIsLast(e.tags, parse, i, subjects[a].subject, listed.subject);
        }
        subjects := subjects + [listed];
      }
    }
    assert e.tags[..|e.tags|] == e.tags;
  }

  lemma EarlierStays(tags: seq<seq<string>>, parse: KeyParser, i: nat, s: Subject, t: Subject)
    requires i < |tags| && NamedEarlier(tags[..i], parse, s, t)
    ensures NamedEarlier(tags[..i + 1], parse, s, t)
  {
    var p: nat :| NamesAt(tags[..i], parse, s, p) && forall q: nat | NamesAt(tags[..i], parse, t, q) :: p < q;
    var upTo := tags[..i + 1];
    assert NamesAt(upTo, parse, s, p);
    forall q: nat | NamesAt(upTo, parse, t, q) ensures p < q {
      if q < i { assert NamesAt(tags[..i], parse, t, q); }
    }
  }

  lemma LatestIsLast(tags: seq<seq<string>>, parse: KeyParser, i: nat, s: Subject, t: Subject)
    requires i < |tags| && Names(tags[..i], parse, s) && !Names(tags[..i], parse, t)
    ensures NamedEarlier(tags[..i + 1], parse, s, t)
  {
    var p :| 0 <= p < i && SubjectOf(tags[..i][p], parse) == Some(s);
    var before, upTo := tags[..i], tags[..i + 1];
    assert NamesAt(upTo, parse, s, p);
    forall q: nat | NamesAt(upTo, parse, t, q) ensures p < q {
      assert forall k | 0 <= k < i :: upTo[k] == before[k];
    }
  }

  lemma NamesStep(tags: seq<seq<string>>, parse: KeyParser, i: nat)
    requires i < |tags|
    ensures forall s ::
      Names(tags[..i + 1], parse, s) <==> Names(tags[..i], parse, s) || SubjectOf(tags[i], parse) == Some(s)
  {
    forall s
      ensures Names(tags[..i + 1], parse, s) <==> Names(tags[..i], parse, s) || SubjectOf(tags[i], parse) == Some(s)
    {
      if Names(tags[..i], parse, s) {
        var k :| 0 <= k < i && SubjectOf(tags[..i][k], parse) == Some(s);
        assert SubjectOf(tags[..i + 1][k], parse) == Some(s);
      }
      if SubjectOf(tags[i], parse) == Some(s) {
        assert SubjectOf(tags[..i + 1][i], parse) == Some(s);
      }
      if Names(tags[..i + 1], parse, s) {
        var k :| 0 <= k < i + 1 && SubjectOf(tags[..i + 1][k], parse) == Some(s);
        assert k < i ==> SubjectOf(tags[..i][k], parse) == Some(s);
      }
    }
  }

  // ---- the union ---------------------------------------------------------

  /** The current record of each host that published the list. */
  type Published = map<Host, Event>

  ghost predicate NamedAt(lists: Published, parse: KeyParser, h: Host, s: Subject) {
    h in lists && Names(lists[h].tags, parse, s)
  }

  type Merged = map<Subject, set<Host>>

  /** Every subject some host names, with exactly the hosts that name it. */
  ghost predicate IsUnion(merged: Merged, lists: Published, parse: KeyParser, hosts: set<Host>) {
    && (forall s :: s in merged <==> exists h :: h in hosts && NamedAt(lists, parse, h, s))
    && (forall s, h | s in merged :: h in merged[s] <==> h in hosts && NamedAt(lists, parse, h, s))
  }

  /** Two publishing hosts list different subjects. */
  ghost predicate Disagree(lists: Published, parse: KeyParser) {
    exists h, k, s :: h in lists && k in lists && NamedAt(lists, parse, h, s) && !NamedAt(lists, parse, k, s)
  }

  /** Counting hosts finds every disagreement: some subject's count falls short exactly when two lists differ. */
  lemma CountsTellDisagreement(merged: Merged, lists: Published, parse: KeyParser)
    requires IsUnion(merged, lists, parse, lists.Keys)
    ensures (exists s :: s in merged && |merged[s]| != |lists|) <==> Disagree(lists, parse)
  {
    hide Names;
    assert |lists| == |lists.Keys|;
    forall s | s in merged ensures merged[s] <= lists.Keys {}
    if Disagree(lists, parse) {
      var h, k, s :| h in lists && k in lists && NamedAt(lists, parse, h, s) && !NamedAt(lists, parse, k, s);
      assert s in merged && k !in merged[s];
      if |merged[s]| == |lists| { SameSizeSubset(merged[s], lists.Keys); }
    }
    if exists s :: s in merged && |merged[s]| != |lists| {
      var s :| s in merged && |merged[s]| != |lists|;
      var h :| h in lists.Keys && NamedAt(lists, parse, h, s);
      assert merged[s] != lists.Keys;
      var k :| k in lists.Keys && k !in merged[s];
      assert !NamedAt(lists, parse, k, s);
    }
  }

  /** One host's subjects joined to what the others named. */
  ghost predicate Joined(before: Merged, named: set<Subject>, host: Host, after: Merged) {
    && (forall s :: s in after <==> s in before || s in named)
    && (forall s, h | s in after :: h in after[s] <==> (s in before && h in before[s]) || (s in named && h == host))
  }

  method Join(before: Merged, subjects: seq<ListedSubject>, host: Host) returns (merged: Merged)
    requires forall l | l in subjects :: l.hosts == {host}
    ensures Joined(before, set l | l in subjects :: l.subject, host, merged)
  {
    merged := before;
    for i := 0 to |subjects|
      invariant Joined(before, set l | l in subjects[..i] :: l.subject, host, merged)
    {
      var l := subjects[i];
      assert subjects[..i + 1] == subjects[..i] + [l];
      merged := merged[l.subject := (if l.subject in merged then merged[l.subject] else {}) + l.hosts];
    }
    assert subjects[..|subjects|] == subjects;
  }

  lemma UnionStep(before: Merged, after: Merged, lists: Published, parse: KeyParser, hosts: set<Host>, host: Host,
                  subjects: seq<ListedSubject>)
    requires host in lists && IsUnion(before, lists, parse, hosts)
    requires forall s :: ListedSubject(s, {host}) in subjects <==> NamedAt(lists, parse, host, s)
    requires forall l | l in subjects :: l.hosts == {host}
    requires Joined(before, set l | l in subjects :: l.subject, host, after)
    ensures IsUnion(after, lists, parse, hosts + {host})
  {
    hide Names, NamedAt;
    var named := set l | l in subjects :: l.subject;
    forall s ensures s in named <==> NamedAt(lists, parse, host, s) {
      if s in named {
        var l :| l in subjects && l.subject == s;
        assert l == ListedSubject(s, {host});
      }
      if NamedAt(lists, parse, host, s) { assert ListedSubject(s, {host}).subject == s; }
    }
    forall s ensures s in after <==> exists h :: h in hosts + {host} && NamedAt(lists, parse, h, s) {
      if s in named { assert host in hosts + {host}; }
      if s in before {
        var h :| h in hosts && NamedAt(lists, parse, h, s);
        assert h in hosts + {host};
      }
    }
  }

  /** The union of the published lists, and whether any two of them differ. */
  method Union(lists: Published, parse: KeyParser) returns (merged: Merged, differs: bool)
    ensures IsUnion(merged, lists, parse, lists.Keys)
    ensures differs <==> Disagree(lists, parse)
  {
    hide Names;
    merged := map[];
    var todo := lists.Keys;
    while todo != {}
      invariant todo <= lists.Keys
      invariant IsUnion(merged, lists, parse, lists.Keys - todo)
    {
      var host := LeastOf(todo);
      var subjects := ListedRecordAt(host, lists[host], parse);
      var next := Join(merged, subjects, host);
      UnionStep(merged, next, lists, parse, lists.Keys - todo, host, subjects);
      assert lists.Keys - (todo - {host}) == lists.Keys - todo + {host};
      merged, todo := next, todo - {host};
    }
    assert lists.Keys - todo == lists.Keys;
    CountsTellDisagreement(merged, lists, parse);
    differs := exists s | s in merged :: |merged[s]| != |lists|;
  }

  // ---- the metadata ------------------------------------------------------

  function Said(e: Event): (Option<string>, Option<string>, Option<string>, seq<seq<string>>) {
    (FirstValue(e.tags, "name"), FirstValue(e.tags, "about"), FirstValue(e.tags, "picture"), e.tags)
  }

  datatype Winner = Winner(host: Host, event: Event)

  /** Newest of all, and among the hosts that hold that same record the last. */
  ghost predicate Wins(w: Option<Winner>, held: Published, hosts: set<Host>) {
    match w
    case None => forall h :: !(h in hosts && h in held)
    case Some(Winner(host, e)) =>
      && host in hosts && host in held && held[host] == e
      && forall h | h in hosts && h in held :: Newer(e, held[h]) || (!Newer(held[h], e) && h <= host)
  }

  method WinningMetadata(held: Published) returns (w: Option<Winner>)
    ensures Wins(w, held, held.Keys)
  {
    w := None;
    var todo := held.Keys;
    ghost var done: set<Host> := {};
    while todo != {}
      invariant done == held.Keys - todo && todo <= held.Keys
      invariant forall d, h | d in done && h in todo :: d < h
      invariant Wins(w, held, done)
    {
      var host := LeastOf(todo);
      if w.None? || !Newer(w.value.event, held[host]) {
        w := Some(Winner(host, held[host]));
      }
      done, todo := done + {host}, todo - {host};
    }
    assert done == held.Keys;
  }

  ghost predicate SaidApart(held: Published) {
    exists h, k :: h in held && k in held && Said(held[h]) != Said(held[k])
  }

  // ---- the snapshot ------------------------------------------------------

  /** `perHost` is what each host signed, folded with nothing. */
  datatype GroupSnapshot = GroupSnapshot(
    perHost: map<Host, HostFold>,
    metadata: Option<Winner>,
    admins: Merged,
    members: Merged,
    disagreements: set<GroupRecord>)

  /** What each host currently has for one sort of record. */
  function Current(folds: map<Host, HostFold>, r: GroupRecord): Published {
    map h | h in folds && folds[h].Slot(r).Some? :: folds[h].Slot(r).value
  }

  ghost predicate IsSnapshot(snapshot: GroupSnapshot, folds: map<Host, HostFold>, parse: KeyParser) {
    var metadata, admins, members := Current(folds, Metadata), Current(folds, Admins), Current(folds, Members);
    && snapshot.perHost == folds
    && Wins(snapshot.metadata, metadata, metadata.Keys)
    && IsUnion(snapshot.admins, admins, parse, admins.Keys)
    && IsUnion(snapshot.members, members, parse, members.Keys)
    && (Metadata in snapshot.disagreements <==> SaidApart(metadata))
    && (Admins in snapshot.disagreements <==> Disagree(admins, parse))
    && (Members in snapshot.disagreements <==> Disagree(members, parse))
  }

  method Snapshot(folds: map<Host, HostFold>, parse: KeyParser) returns (snapshot: GroupSnapshot)
    ensures IsSnapshot(snapshot, folds, parse)
  {
    hide Disagree, IsUnion, Said, Newer;
    var disagreements: set<GroupRecord> := {};
    var held := Current(folds, Metadata);
    var metadata := WinningMetadata(held);
    if metadata.Some? && exists h | h in held :: Said(held[h]) != Said(metadata.value.event) {
      disagreements := disagreements + {Metadata};
    }
    var admins, apart := Union(Current(folds, Admins), parse);
    if apart {
      disagreements := disagreements + {Admins};
    }
    var members, differ := Union(Current(folds, Members), parse);
    if differ {
      disagreements := disagreements + {Members};
    }
    snapshot := GroupSnapshot(folds, metadata, admins, members, disagreements);
  }

  /** The snapshots of a fold of the rows, one for each of its groups. */
  ghost predicate IsProjection(snapshots: map<string, GroupSnapshot>, folded: Folded, rows: Rows, seeds: set<string>,
                               parse: KeyParser)
  {
    && IsFoldOf(folded, rows, seeds) && snapshots.Keys == folded.Keys
    && forall g | g in folded :: IsSnapshot(snapshots[g], folded[g], parse)
  }

  /** One snapshot for each group that is seeded or that some host has a record for. */
  method Project(rows: Rows, seeds: set<string>, parse: KeyParser) returns (snapshots: map<string, GroupSnapshot>)
    requires Keyed(rows)
    ensures exists folded :: IsProjection(snapshots, folded, rows, seeds, parse)
  {
    hide IsSnapshot, IsFoldOf;
    var folds := FoldRows(rows, seeds);
    snapshots := map[];
    var todo := folds.Keys;
    while todo != {}
      invariant todo <= folds.Keys && snapshots.Keys == folds.Keys - todo
      invariant forall g | g in snapshots :: IsSnapshot(snapshots[g], folds[g], parse)
    {
      var g :| g in todo;
      var snapshot := Snapshot(folds[g], parse);
      snapshots, todo := snapshots[g := snapshot], todo - {g};
    }
    assert IsProjection(snapshots, folds, rows, seeds, parse);
  }

  // ---- what it means for the rows ----------------------------------------

  /** A host's current record is the newest of the rows it served for the group. */
  ghost predicate IsNewest(rows: Rows, group: string, host: Host, record: GroupRecord, e: Event) {
    Holds(Some(e), rows, Everything(rows), group, host, record)
  }

  lemma CurrentIsNewest(rows: Rows, seeds: set<string>, folded: Folded, g: string, h: Host, r: GroupRecord, e: Event)
    requires Keyed(rows) && IsFoldOf(folded, rows, seeds) && g in folded
    ensures h in Current(folded[g], r) && Current(folded[g], r)[h] == e <==> IsNewest(rows, g, h, r, e)
  {
    hide Holds, Placed, Everything;
    var slot := FoldAt(folded, g, h).Slot(r);
    assert Holds(slot, rows, Everything(rows), g, h, r);
    if IsNewest(rows, g, h, r, e) {
      NewestIsUnique(slot, Some(e), rows, Everything(rows), g, h, r);
    }
  }

  lemma OfferIsIn(rows: Rows, id: Id, g: string, h: Host, r: GroupRecord)
    requires Offers(rows, id, g, h, r)
    ensures OffersIn(rows, Everything(rows), id, g, h, r)
  {
  }

  lemma OfferedHosts(rows: Rows, seeds: set<string>, folded: Folded, g: string, id: Id, h: Host)
    requires Keyed(rows) && IsFoldOf(folded, rows, seeds) && g in folded && Offers(rows, id, g, h, Metadata)
    ensures
      var held := Current(folded[g], Metadata);
      h in held && (held[h] == rows[id].event || Newer(held[h], rows[id].event))
  {
    hide Placed, Everything, Offers;
    OfferIsIn(rows, id, g, h, Metadata);
    var slot := FoldAt(folded, g, h).Slot(Metadata);
    assert Holds(slot, rows, Everything(rows), g, h, Metadata);
  }

  /** The aggregate metadata is one whole signed record, as new as any record any host served for the group. */
  lemma AggregateIsNewest(rows: Rows, seeds: set<string>, folded: Folded, g: string, w: Winner, id: Id, h: Host)
    requires Keyed(rows) && IsFoldOf(folded, rows, seeds) && g in folded
    requires Wins(Some(w), Current(folded[g], Metadata), Current(folded[g], Metadata).Keys)
    requires Offers(rows, id, g, h, Metadata)
    ensures Offers(rows, w.event.id, g, w.host, Metadata) && rows[w.event.id].event == w.event
    ensures id == w.event.id || Newer(w.event, rows[id].event)
  {
    hide IsFoldOf, Current, Offers, Everything;
    CurrentIsNewest(rows, seeds, folded, g, w.host, Metadata, w.event);
    OfferedHosts(rows, seeds, folded, g, id, h);
    OffersIs(rows, id, g, h, Metadata);
  }

  /** There is an aggregate exactly when some host served metadata for the group. */
  lemma AggregateExists(rows: Rows, seeds: set<string>, folded: Folded, g: string)
    requires Keyed(rows) && IsFoldOf(folded, rows, seeds) && g in folded
    ensures Wins(None, Current(folded[g], Metadata), Current(folded[g], Metadata).Keys) <==>
      forall id, h :: !Offers(rows, id, g, h, Metadata)
  {
    hide IsFoldOf, Offers, Everything;
    var held := Current(folded[g], Metadata);
    forall id, h | Offers(rows, id, g, h, Metadata) ensures h in held {
      OfferedHosts(rows, seeds, folded, g, id, h);
    }
    forall h | h in held ensures exists id :: Offers(rows, id, g, h, Metadata) {
      CurrentIsNewest(rows, seeds, folded, g, h, Metadata, held[h]);
    }
  }

  /** A subject is attributed to exactly the hosts whose newest list names it. */
  lemma AttributionIsExact(rows: Rows, seeds: set<string>, folded: Folded, g: string, r: GroupRecord, parse: KeyParser,
                           merged: Merged, s: Subject, h: Host)
    requires Keyed(rows) && IsFoldOf(folded, rows, seeds) && g in folded
    requires IsUnion(merged, Current(folded[g], r), parse, Current(folded[g], r).Keys)
    ensures s in merged && h in merged[s] <==> exists e :: IsNewest(rows, g, h, r, e) && Names(e.tags, parse, s)
  {
    hide IsFoldOf, IsNewest, Names, Current;
    var lists := Current(folded[g], r);
    forall e ensures h in lists && lists[h] == e <==> IsNewest(rows, g, h, r, e) {
      CurrentIsNewest(rows, seeds, folded, g, h, r, e);
    }
    if h in lists {
      assert IsNewest(rows, g, h, r, lists[h]);
    }
  }

  /** The lists disagree exactly when two hosts' newest lists name different subjects. */
  lemma DisagreementIsExact(rows: Rows, seeds: set<string>, folded: Folded, g: string, r: GroupRecord, parse: KeyParser)
    requires Keyed(rows) && IsFoldOf(folded, rows, seeds) && g in folded
    ensures Disagree(Current(folded[g], r), parse) <==>
      exists h, k, d, e, s ::
        IsNewest(rows, g, h, r, d) && IsNewest(rows, g, k, r, e) && Names(d.tags, parse, s) && !Names(e.tags, parse, s)
  {
    hide IsFoldOf, IsNewest, Names, Current;
    var lists := Current(folded[g], r);
    forall h, e ensures h in lists && lists[h] == e <==> IsNewest(rows, g, h, r, e) {
      CurrentIsNewest(rows, seeds, folded, g, h, r, e);
    }
    if Disagree(lists, parse) {
      var h, k, s :| h in lists && k in lists && NamedAt(lists, parse, h, s) && !NamedAt(lists, parse, k, s);
      assert IsNewest(rows, g, h, r, lists[h]) && IsNewest(rows, g, k, r, lists[k]);
    }
    if h, k, d, e, s :|
        IsNewest(rows, g, h, r, d) && IsNewest(rows, g, k, r, e) && Names(d.tags, parse, s) && !Names(e.tags, parse, s)
    {
      assert h in lists && lists[h] == d && k in lists && lists[k] == e;
      assert NamedAt(lists, parse, h, s) && !NamedAt(lists, parse, k, s);
    }
  }
}
