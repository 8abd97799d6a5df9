/** NIP-29 group records: the folded rows, and the newest record each host has signed. */
module GroupRecords {
  import opened Wrappers
  import opened RowDeltas

  /** Keys stand for their places in their own order. */
  type Key = nat

  datatype GroupRecord = Metadata | Admins | Members

  function RecordOf(kind: nat): Option<GroupRecord> {
    if kind == 39000 then Some(Metadata)
    else if kind == 39001 then Some(Admins)
    else if kind == 39002 then Some(Members)
    else None
  }

  /** The value of the first row of that name that has one. */
  function FirstValue(tags: seq<seq<string>>, name: string): Option<string> {
    if tags == [] then None
    else if |tags[0]| > 1 && tags[0][0] == name then Some(tags[0][1])
    else FirstValue(tags[1..], name)
  }

  function GroupOf(e: Event): Option<string> {
    FirstValue(e.tags, "d")
  }

  // ---- rows --------------------------------------------------------------

  class Accumulator {
    var rows: Rows

    constructor ()
      ensures rows == map[]
    {
      rows := map[];
    }

    method Apply(deltas: seq<RowDelta>)
      requires Keyed(rows)
      modifies this
      ensures rows == AfterAll(old(rows), deltas) && Keyed(rows)
    {
      for i := 0 to |deltas|
        invariant rows == AfterAll(old(rows), deltas[..i])
      {
        assert deltas[..i + 1][..i] == deltas[..i];
        match deltas[i] {
          case Added(row) => rows := rows[row.event.id := row];
          case Updated(row) => rows := rows[row.event.id := row];
          case Removed(id) => rows := rows - {id};
          case SourcesGrew(id, sources) =>
            if id in rows {
              rows := rows[id := rows[id].(sources := sources)];
            }
        }
      }
      assert deltas[..|deltas|] == deltas;
      RowsStayKeyed(old(rows), deltas);
    }
  }

  // ---- newest ------------------------------------------------------------

  predicate Newer(a: Event, b: Event) {
    a.createdAt > b.createdAt || (a.createdAt == b.createdAt && a.id > b.id)
  }

  /** Row `id` is a record of that sort for the group, and the host served it. */
  predicate Offers(rows: Rows, id: Id, group: string, host: Host, record: GroupRecord) {
    && id in rows && host in rows[id].sources
    && RecordOf(rows[id].event.kind) == Some(record) && GroupOf(rows[id].event) == Some(group)
  }

  /** Which rows have been folded for which host. */
  type Seen = set<(Id, Host)>

  ghost predicate OffersIn(rows: Rows, seen: Seen, id: Id, group: string, host: Host, record: GroupRecord) {
    (id, host) in seen && Offers(rows, id, group, host, record)
  }

  /** The slot holds the maximum of what the host offers among what was seen, and nothing only if it offers nothing. */
  ghost predicate Holds(slot: Option<Event>, rows: Rows, seen: Seen, group: string, host: Host, record: GroupRecord) {
    match slot
    case None => forall id :: !OffersIn(rows, seen, id, group, host, record)
    case Some(e) =>
      && OffersIn(rows, seen, e.id, group, host, record) && rows[e.id].event == e
      && forall id | OffersIn(rows, seen, id, group, host, record) :: id == e.id || Newer(e, rows[id].event)
  }

  function Everything(rows: Rows): Seen {
    set id, h | id in rows && h in rows[id].sources :: (id, h)
  }

  /** The newest record does not depend on the order in which rows are folded. */
  lemma NewestIsUnique(a: Option<Event>, b: Option<Event>, rows: Rows, seen: Seen, group: string, host: Host,
                       record: GroupRecord)
    requires Keyed(rows) && Holds(a, rows, seen, group, host, record) && Holds(b, rows, seen, group, host, record)
    ensures a == b
  {
  }

  datatype HostFold = HostFold(metadata: Option<Event>, admins: Option<Event>, members: Option<Event>)
  {
    function Slot(r: GroupRecord): Option<Event> {
      match r
      case Metadata => metadata
      case Admins => admins
      case Members => members
    }
  }

  const EMPTY_FOLD := HostFold(None, None, None)

  function Offered(slot: Option<Event>, e: Event): Option<Event> {
    if slot.None? || Newer(e, slot.value) then Some(e) else slot
  }

  function Offer(fold: HostFold, record: GroupRecord, e: Event): HostFold {
    match record
    case Metadata => fold.(metadata := Offered(fold.metadata, e))
    case Admins => fold.(admins := Offered(fold.admins, e))
    case Members => fold.(members := Offered(fold.members, e))
  }

  type Folded = map<string, map<Host, HostFold>>

  function FoldAt(folded: Folded, group: string, host: Host): HostFold {
    if group in folded && host in folded[group] then folded[group][host] else EMPTY_FOLD
  }

  ghost predicate Served(rows: Rows, seen: Seen, group: string, host: Host) {
    exists id, r :: OffersIn(rows, seen, id, group, host, r)
  }

  ghost predicate Mentioned(rows: Rows, seen: Seen, group: string) {
    exists h :: Served(rows, seen, group, h)
  }

  /** Which groups and hosts appear. */
  ghost predicate Placed(folded: Folded, rows: Rows, seen: Seen, seeds: set<string>) {
    && (forall g :: g in folded <==> g in seeds || Mentioned(rows, seen, g))
    && (forall g, h | g in folded :: h in folded[g] <==> Served(rows, seen, g, h))
  }

  /** Each host's newest records. */
  ghost predicate Newest(folded: Folded, rows: Rows, seen: Seen) {
    forall g, h, r :: Holds(FoldAt(folded, g, h).Slot(r), rows, seen, g, h, r)
  }

  function Put(folded: Folded, group: string, host: Host, fold: HostFold): Folded {
    var hosts := if group in folded then folded[group] else map[];
    folded[group := hosts[host := fold]]
  }

  /** One row offered to one host. */
  function Step(folded: Folded, e: Event, host: Host): Folded {
    var record, group := RecordOf(e.kind), GroupOf(e);
    if record.None? || group.None? then folded
    else Put(folded, group.value, host, Offer(FoldAt(folded, group.value, host), record.value, e))
  }

  lemma SeenGrows(rows: Rows, seen: Seen, pair: (Id, Host), group: string, host: Host, record: GroupRecord)
    ensures forall id: Id :: OffersIn(rows, seen + {pair}, id, group, host, record) <==>
      OffersIn(rows, seen, id, group, host, record) || (pair == (id, host) && Offers(rows, id, group, host, record))
  {
  }

  lemma HoldsStep(slot: Option<Event>, rows: Rows, seen: Seen, group: string, host: Host, record: GroupRecord, id: Id)
    requires Keyed(rows) && Holds(slot, rows, seen, group, host, record) && Offers(rows, id, group, host, record)
    ensures Holds(Offered(slot, rows[id].event), rows, seen + {(id, host)}, group, host, record)
  {
    hide OffersIn;
    SeenGrows(rows, seen, (id, host), group, host, record);
    assert slot.Some? ==> OffersIn(rows, seen, slot.value.id, group, host, record);
  }

  lemma HoldsAside(slot: Option<Event>, rows: Rows, seen: Seen, group: string, host: Host, record: GroupRecord,
                   pair: (Id, Host))
    requires Holds(slot, rows, seen, group, host, record)
    requires pair.1 != host || !Offers(rows, pair.0, group, host, record)
    ensures Holds(slot, rows, seen + {pair}, group, host, record)
  {
    hide OffersIn;
    SeenGrows(rows, seen, pair, group, host, record);
    assert slot.Some? ==> OffersIn(rows, seen, slot.value.id, group, host, record);
  }

  lemma StepKeepsNewest(folded: Folded, rows: Rows, seen: Seen, id: Id, host: Host)
    requires Keyed(rows) && id in rows && host in rows[id].sources && Newest(folded, rows, seen)
    ensures Newest(Step(folded, rows[id].event, host), rows, seen + {(id, host)})
  {
    hide Holds, Offers, Offered;
    var e := rows[id].event;
    var next := Step(folded, e, host);
    forall g, h, r ensures Holds(FoldAt(next, g, h).Slot(r), rows, seen + {(id, host)}, g, h, r) {
      assert Holds(FoldAt(folded, g, h).Slot(r), rows, seen, g, h, r);
      if g == OrNone(GroupOf(e)) && GroupOf(e).Some? && h == host && RecordOf(e.kind) == Some(r) {
        assert Offers(rows, id, g, h, r) by { OffersIs(rows, id, g, h, r); }
        HoldsStep(FoldAt(folded, g, h).Slot(r), rows, seen, g, h, r, id);
      } else {
        OffersIs(rows, id, g, h, r);
        HoldsAside(FoldAt(folded, g, h).Slot(r), rows, seen, g, h, r, (id, host));
      }
    }
  }

  function OrNone(s: Option<string>): string {
    if s.Some? then s.value else ""
  }

  lemma OffersIs(rows: Rows, id: Id, group: string, host: Host, record: GroupRecord)
    ensures Offers(rows, id, group, host, record) <==>
      id in rows && host in rows[id].sources && RecordOf(rows[id].event.kind) == Some(record)
        && GroupOf(rows[id].event) == Some(group)
  {
  }

  /** A new pair serves its own group at its own host, and nothing else. */
  lemma ServedGrows(rows: Rows, seen: Seen, id: Id, host: Host, g: string, h: Host)
    requires id in rows && host in rows[id].sources
    ensures Served(rows, seen + {(id, host)}, g, h) <==>
      Served(rows, seen, g, h) || (h == host && GroupOf(rows[id].event) == Some(g)
        && RecordOf(rows[id].event.kind).Some?)
  {
    hide OffersIn, Offers;
    var grown := seen + {(id, host)};
    forall i: Id, r { OffersIs(rows, i, g, h, r); }
    if Served(rows, seen, g, h) {
      var i, r :| OffersIn(rows, seen, i, g, h, r);
      SeenGrows(rows, seen, (id, host), g, h, r);
      assert OffersIn(rows, grown, i, g, h, r);
    }
    if h == host && GroupOf(rows[id].event) == Some(g) && RecordOf(rows[id].event.kind).Some? {
      SeenGrows(rows, seen, (id, host), g, h, RecordOf(rows[id].event.kind).value);
      assert OffersIn(rows, grown, id, g, h, RecordOf(rows[id].event.kind).value);
    }
    if Served(rows, grown, g, h) {
      var i, r :| OffersIn(rows, grown, i, g, h, r);
      SeenGrows(rows, seen, (id, host), g, h, r);
    }
  }

  lemma StepKeepsPlaced(folded: Folded, rows: Rows, seen: Seen, seeds: set<string>, id: Id, host: Host)
    requires id in rows && host in rows[id].sources && Placed(folded, rows, seen, seeds)
    ensures Placed(Step(folded, rows[id].event, host), rows, seen + {(id, host)}, seeds)
  {
    hide Served, FoldAt, Offer;
    var e := rows[id].event;
    var next, grown := Step(folded, e, host), seen + {(id, host)};
    forall g, h { ServedGrows(rows, seen, id, host, g, h); }
    forall g ensures g in next <==> g in seeds || Mentioned(rows, grown, g) {
      MentionedGrows(rows, seen, id, host, g);
    }
    forall g, h | g in next ensures h in next[g] <==> Served(rows, grown, g, h) {
      if g !in folded { assert !Served(rows, seen, g, h); }
    }
  }

  lemma MentionedGrows(rows: Rows, seen: Seen, id: Id, host: Host, g: string)
    requires id in rows && host in rows[id].sources
    ensures Mentioned(rows, seen + {(id, host)}, g) <==>
      Mentioned(rows, seen, g) || (GroupOf(rows[id].event) == Some(g) && RecordOf(rows[id].event.kind).Some?)
  {
    hide Served;
    forall h { ServedGrows(rows, seen, id, host, g, h); }
    assert Served(rows, seen + {(id, host)}, g, host) <==>
      Served(rows, seen, g, host) || (GroupOf(rows[id].event) == Some(g) && RecordOf(rows[id].event.kind).Some?);
  }

  /** The fold's answer: it depends on the rows alone. */
  ghost predicate IsFoldOf(folded: Folded, rows: Rows, seeds: set<string>) {
    Placed(folded, rows, Everything(rows), seeds) && Newest(folded, rows, Everything(rows))
  }

  lemma NothingSeen(folded: Folded, rows: Rows, seeds: set<string>)
    requires folded == map g | g in seeds :: map[]
    ensures Placed(folded, rows, {}, seeds) && Newest(folded, rows, {})
  {
  }

  /** Folds the rows in whatever order they come. */
  method FoldRows(rows: Rows, seeds: set<string>) returns (folded: Folded)
    requires Keyed(rows)
    ensures IsFoldOf(folded, rows, seeds)
  {
    hide Placed, Newest, Step;
    folded := map g | g in seeds :: map[];
    NothingSeen(folded, rows, seeds);
    var todo := rows.Keys;
    ghost var seen: Seen := {};
    while todo != {}
      invariant todo <= rows.Keys
      invariant forall id: Id, h: Host :: (id, h) in seen <==> id in rows && id !in todo && h in rows[id].sources
      invariant Placed(folded, rows, seen, seeds) && Newest(folded, rows, seen)
    {
      var id :| id in todo;
      var hosts := rows[id].sources;
      while hosts != {}
        invariant hosts <= rows[id].sources
        invariant forall i: Id, h: Host :: (i, h) in seen <==>
          i in rows && h in rows[i].sources && (i !in todo || (i == id && h !in hosts))
        invariant Placed(folded, rows, seen, seeds) && Newest(folded, rows, seen)
      {
        var host :| host in hosts;
        StepKeepsPlaced(folded, rows, seen, seeds, id, host);
        StepKeepsNewest(folded, rows, seen, id, host);
        folded := Step(folded, rows[id].event, host);
        seen := seen + {(id, host)};
        hosts := hosts - {host};
      }
      todo := todo - {id};
    }
    forall pair: (Id, Host) ensures pair in seen <==> pair in Everything(rows) {
      assert pair == (pair.0, pair.1);
    }
    assert seen == Everything(rows);
  }
}
