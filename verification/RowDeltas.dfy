/** The rows an observation delivers and what a stream of deltas makes of them. */
module RowDeltas {
  import opened Wrappers

  /** Relay URLs and event ids stand for their places in their own order. */
  type Host = nat
  type Id = nat

  datatype Event = Event(id: Id, createdAt: nat, kind: nat, tags: seq<seq<string>>)

  datatype Row = Row(event: Event, sources: set<Host>)

  type Rows = map<Id, Row>

  datatype RowDelta =
    | Added(row: Row)
    | Updated(row: Row)
    | Removed(id: Id)
    | SourcesGrew(id: Id, sources: set<Host>)

  function After(rows: Rows, delta: RowDelta): Rows {
    match delta
    case Added(row) => rows[row.event.id := row]
    case Updated(row) => rows[row.event.id := row]
    case Removed(id) => rows - {id}
    case SourcesGrew(id, sources) => if id in rows then rows[id := rows[id].(sources := sources)] else rows
  }

  function AfterAll(rows: Rows, deltas: seq<RowDelta>): Rows {
    if deltas == [] then rows else After(AfterAll(rows, deltas[..|deltas| - 1]), deltas[|deltas| - 1])
  }

  /** Every row is kept under its own id. */
  ghost predicate Keyed(rows: Rows) {
    forall id | id in rows :: rows[id].event.id == id
  }

  lemma {:induction false} RowsStayKeyed(rows: Rows, deltas: seq<RowDelta>)
    requires Keyed(rows)
    ensures Keyed(AfterAll(rows, deltas))
  {
    if deltas != [] { RowsStayKeyed(rows, deltas[..|deltas| - 1]); }
  }

  /** What the last delta that brings, replaces or removes a row leaves of it. */
  function LastAbout(deltas: seq<RowDelta>, id: Id): Option<Option<Event>> {
    if deltas == [] then None
    else
      var before, last := LastAbout(deltas[..|deltas| - 1], id), deltas[|deltas| - 1];
      match last
      case Added(row) => if row.event.id == id then Some(Some(row.event)) else before
      case Updated(row) => if row.event.id == id then Some(Some(row.event)) else before
      case Removed(gone) => if gone == id then Some(None) else before
      case SourcesGrew(_, _) => before
  }

  /** A row is held exactly when the last delta about it did not remove it, and then with that delta's event;
      growth of sources never changes an event. */
  lemma {:induction false} LastDeltaDecides(rows: Rows, deltas: seq<RowDelta>, id: Id)
    ensures
      var after, last := AfterAll(rows, deltas), LastAbout(deltas, id);
      && (last.None? ==> (id in after <==> id in rows) && (id in after ==> after[id].event == rows[id].event))
      && (last.Some? ==> (id in after <==> last.value.Some?) && (id in after ==> last.value == Some(after[id].event)))
  {
    if deltas != [] { LastDeltaDecides(rows, deltas[..|deltas| - 1], id); }
  }

  /** The sources the last delta about a row states for it. */
  function LastSources(deltas: seq<RowDelta>, id: Id): Option<set<Host>> {
    if deltas == [] then None
    else
      match deltas[|deltas| - 1]
      case Added(row) => if row.event.id == id then Some(row.sources) else LastSources(deltas[..|deltas| - 1], id)
      case Updated(row) => if row.event.id == id then Some(row.sources) else LastSources(deltas[..|deltas| - 1], id)
      case Removed(_) => LastSources(deltas[..|deltas| - 1], id)
      case SourcesGrew(grown, sources) =>
        if grown == id then Some(sources) else LastSources(deltas[..|deltas| - 1], id)
  }

  /** A held row has the sources last stated for it, and those it came with if none were. */
  lemma {:induction false} LastSourcesDecide(rows: Rows, deltas: seq<RowDelta>, id: Id)
    requires id in AfterAll(rows, deltas)
    ensures LastSources(deltas, id).Some? ==> AfterAll(rows, deltas)[id].sources == LastSources(deltas, id).value
    ensures LastSources(deltas, id).None? ==> id in rows && AfterAll(rows, deltas)[id].sources == rows[id].sources
  {
    if deltas != [] {
      var init, last := deltas[..|deltas| - 1], deltas[|deltas| - 1];
      if id in AfterAll(rows, init) { LastSourcesDecide(rows, init, id); }
    }
  }
}
