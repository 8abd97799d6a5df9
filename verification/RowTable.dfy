/** The table an unbounded observation is accumulated in, with its rows kept newest first. */
module RowTable {
  import opened RowDeltas

  /** Newest first, ties broken by event id. */
  predicate Precedes(a: Event, b: Event) {
    a.createdAt > b.createdAt || (a.createdAt == b.createdAt && a.id < b.id)
  }

  ghost predicate NewestFirst(rows: Rows, ids: seq<Id>) {
    && (forall i | 0 <= i < |ids| :: ids[i] in rows)
    && (forall i, j | 0 <= i < j < |ids| :: Precedes(rows[ids[i]].event, rows[ids[j]].event))
  }

  /** Every row once, newest first. */
  ghost predicate Lists(rows: Rows, ids: seq<Id>) {
    NewestFirst(rows, ids) && forall id :: id in rows <==> id in ids
  }

  /** Of two listed rows the first is the newer, or they are of one moment and the first has the smaller id. */
  lemma FirstIsNewer(rows: Rows, ids: seq<Id>, i: nat, j: nat)
    requires Keyed(rows) && Lists(rows, ids) && i < j < |ids|
    ensures rows[ids[i]].event.createdAt >= rows[ids[j]].event.createdAt
    ensures rows[ids[i]].event.createdAt == rows[ids[j]].event.createdAt ==> ids[i] < ids[j]
  {
    assert Precedes(rows[ids[i]].event, rows[ids[j]].event);
  }

  /** A table has one reading order. */
  lemma {:induction false} OrderIsUnique(rows: Rows, xs: seq<Id>, ys: seq<Id>)
    requires Lists(rows, xs) && Lists(rows, ys)
    ensures xs == ys
  {
    if xs == [] {
      if ys != [] { FirstIsFirst(rows, ys, xs); }
    } else {
      FirstIsFirst(rows, xs, ys);
      var rest := rows - {xs[0]};
      TailLists(rows, xs);
      TailLists(rows, ys);
      OrderIsUnique(rest, xs[1..], ys[1..]);
    }
  }

  lemma FirstIsFirst(rows: Rows, xs: seq<Id>, ys: seq<Id>)
    requires Lists(rows, xs) && Lists(rows, ys) && xs != []
    ensures ys != [] && xs[0] == ys[0]
  {
    assert xs[0] in xs && xs[0] in ys;
    var j :| 0 <= j < |ys| && ys[j] == xs[0];
    assert ys[0] in ys && ys[0] in xs;
    var i :| 0 <= i < |xs| && xs[i] == ys[0];
  }

  lemma TailLists(rows: Rows, ids: seq<Id>)
    requires Lists(rows, ids) && ids != []
    ensures Lists(rows - {ids[0]}, ids[1..])
  {
    var rest := rows - {ids[0]};
    forall i | 0 <= i < |ids[1..]| ensures ids[1..][i] in rest {
      assert Precedes(rows[ids[0]].event, rows[ids[i + 1]].event);
    }
    forall id | id in rest ensures id in ids[1..] {
      var i :| 0 <= i < |ids| && ids[i] == id;
      assert ids[1..][i - 1] == id;
    }
  }

  /** Only growth of the sources of a row that is not held counts for nothing. */
  predicate Touches(rows: Rows, deltas: seq<RowDelta>) {
    if deltas == [] then false
    else
      var init, last := deltas[..|deltas| - 1], deltas[|deltas| - 1];
      Touches(rows, init) || !(last.SourcesGrew? && last.id !in AfterAll(rows, init))
  }

  class Table {
    var byId: Rows
    var ordered: seq<Id>
    var dirty: bool

    ghost predicate Valid()
      reads this
    {
      Keyed(byId) && Lists(byId, ordered)
    }

    constructor ()
      ensures Valid() && byId == map[] && !dirty
    {
      byId, ordered, dirty := map[], [], false;
    }

    /** Folds one delivered frame in; a frame that touches nothing leaves the order alone. */
    method Apply(deltas: seq<RowDelta>)
      requires Valid()
      modifies this
      ensures Valid() && byId == AfterAll(old(byId), deltas)
      ensures dirty == (old(dirty) || Touches(old(byId), deltas))
      ensures byId != old(byId) ==> dirty
    {
      var touched := false;
      for i := 0 to |deltas|
        invariant byId == AfterAll(old(byId), deltas[..i]) && ordered == old(ordered) && dirty == old(dirty)
        invariant touched == Touches(old(byId), deltas[..i]) && (!touched ==> byId == old(byId))
      {
        assert deltas[..i + 1][..i] == deltas[..i];
        match deltas[i] {
          case Added(row) =>
            byId, touched := byId[row.event.id := row], true;
          case Updated(row) =>
            byId, touched := byId[row.event.id := row], true;
          case Removed(id) =>
            byId, touched := byId - {id}, true;
          case SourcesGrew(id, sources) =>
            if id in byId {
              byId, touched := byId[id := byId[id].(sources := sources)], true;
            }
        }
      }
      assert deltas[..|deltas|] == deltas;
      RowsStayKeyed(old(byId), deltas);
      if touched {
        Resort();
        dirty := true;
      }
    }

    method Resort()
      requires Keyed(byId)
      modifies this`ordered
      ensures Lists(byId, ordered)
    {
      ordered := [];
      var todo := byId.Keys;
      while todo != {}
        invariant todo <= byId.Keys && NewestFirst(byId, ordered)
        invariant forall id :: id in ordered <==> id in byId && id !in todo
        invariant forall a, b | a in ordered && b in todo :: Precedes(byId[a].event, byId[b].event)
      {
        var next := First(todo);
        assert forall i | 0 <= i < |ordered| :: ordered[i] in ordered;
        ordered, todo := ordered + [next], todo - {next};
      }
    }

    method First(todo: set<Id>) returns (first: Id)
      requires Keyed(byId) && todo <= byId.Keys && todo != {}
      ensures first in todo && forall id | id in todo && id != first :: Precedes(byId[first].event, byId[id].event)
    {
      first :| first in todo;
      var left := todo - {first};
      while left != {}
        invariant left <= todo && first in todo && first !in left
        invariant forall id | id in todo && id !in left && id != first :: Precedes(byId[first].event, byId[id].event)
      {
        var id :| id in left;
        if Precedes(byId[id].event, byId[first].event) {
          first := id;
        }
        left := left - {id};
      }
    }
  }
}
