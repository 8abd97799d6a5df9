/** Which groups an observation covers: host-open predicates, and their lowering to ordinary bindings
    pinned to one host. */
module GroupPredicates {
  import opened Wrappers
  import GroupRecords
  import RowDeltas

  type Host = RowDeltas.Host

  // ---- the binding grammar -----------------------------------------------

  datatype SetAlgebra = Union | Intersect | Diff

  datatype Routing = Auto | Explicit(relays: seq<Host>)

  datatype CacheMode = Agnostic | Strict

  /** Where a derived value comes from in a matching row. */
  datatype Selector = Authors | Ids | Tag(name: string) | AddressCoord

  datatype Binding =
    | Literal(values: set<string>)
    | Reactive(field: string)
    | Derived(inner: Demand, project: Selector)
    | SetOp(op: SetAlgebra, operands: seq<Binding>)

  datatype Filter = Filter(
    kinds: Option<set<nat>>,
    authors: Option<Binding>,
    ids: Option<Binding>,
    tags: map<string, Binding>,
    since: Option<nat>,
    until: Option<nat>,
    limit: Option<nat>)

  datatype Demand = Demand(selection: Filter, routing: Routing, cache: CacheMode)

  // ---- what a binding denotes --------------------------------------------

  datatype Row = Row(id: string, author: string, kind: nat, createdAt: nat, tags: seq<seq<string>>, sources: set<Host>)

  /** The rows held, the identities in force, how a row spells its coordinates, and how a result is cut to a count. */
  datatype World = World(
    rows: set<Row>,
    identity: string -> set<string>,
    coordinates: Row -> set<string>,
    newest: (set<Row>, nat) -> set<Row>)

  function TagValues(tags: seq<seq<string>>, name: string): set<string> {
    set i | 0 <= i < |tags| && |tags[i]| > 1 && tags[i][0] == name :: tags[i][1]
  }

  function Projected(w: World, r: Row, project: Selector): set<string> {
    match project
    case AddressCoord => w.coordinates(r)
    case Authors => {r.author}
    case Ids => {r.id}
    case Tag(name) => TagValues(r.tags, name)
  }

  function Values(w: World, rows: set<Row>, project: Selector): set<string> {
    set r, v | r in rows && v in Projected(w, r, project) :: v
  }

  function Cut(w: World, rows: set<Row>, limit: Option<nat>): set<Row> {
    if limit.Some? then w.newest(rows, limit.value) else rows
  }

  /** Which held rows may answer: under strict caching only those that one of the pinned relays served. */
  predicate Visible(r: Row, routing: Routing, cache: CacheMode) {
    routing.Explicit? && cache.Strict? ==> exists h :: h in routing.relays && h in r.sources
  }

  function UnionOf(sets: seq<set<string>>): set<string> {
    if sets == [] then {} else sets[0] + UnionOf(sets[1..])
  }

  function IntersectionOf(sets: seq<set<string>>): set<string> {
    if sets == [] then {} else if |sets| == 1 then sets[0] else sets[0] * IntersectionOf(sets[1..])
  }

  function Algebra(op: SetAlgebra, sets: seq<set<string>>): set<string> {
    match op
    case Union => UnionOf(sets)
    case Intersect => IntersectionOf(sets)
    case Diff => if sets == [] then {} else sets[0] - UnionOf(sets[1..])
  }

  lemma {:induction false} UnionMeans(sets: seq<set<string>>, x: string)
    ensures x in UnionOf(sets) <==> exists i :: 0 <= i < |sets| && x in sets[i]
  {
    if sets != [] {
      UnionMeans(sets[1..], x);
      if i :| 0 <= i < |sets[1..]| && x in sets[1..][i] { assert x in sets[i + 1]; }
      if i :| 0 < i < |sets| && x in sets[i] { assert x in sets[1..][i - 1]; }
    }
  }

  lemma {:induction false} IntersectionMeans(sets: seq<set<string>>, x: string)
    ensures x in IntersectionOf(sets) <==> sets != [] && forall i | 0 <= i < |sets| :: x in sets[i]
  {
    if |sets| > 1 {
      IntersectionMeans(sets[1..], x);
      if x in sets[0] && forall i | 0 <= i < |sets[1..]| :: x in sets[1..][i] {
        forall i | 0 <= i < |sets| ensures x in sets[i] {
          if i > 0 { assert x in sets[1..][i - 1]; }
        }
      }
    }
  }

  /** A value is in a union exactly if some operand has it, in an intersection exactly if there are operands and all
      have it, and in a difference exactly if the first operand has it and no other does. */
  lemma AlgebraMeans(sets: seq<set<string>>, x: string)
    ensures x in Algebra(Union, sets) <==> exists i :: 0 <= i < |sets| && x in sets[i]
    ensures x in Algebra(Intersect, sets) <==> sets != [] && forall i | 0 <= i < |sets| :: x in sets[i]
    ensures x in Algebra(Diff, sets) <==>
      sets != [] && x in sets[0] && forall i | 0 < i < |sets| :: x !in sets[i]
  {
    UnionMeans(sets, x);
    IntersectionMeans(sets, x);
    if sets != [] {
      UnionMeans(sets[1..], x);
      forall i | 0 < i < |sets| ensures sets[i] == sets[1..][i - 1] {}
      if i :| 0 <= i < |sets[1..]| && x in sets[1..][i] { assert x in sets[i + 1]; }
    }
  }

  function Eval(b: Binding, w: World): set<string>
    decreases b
  {
    match b
    case Literal(values) => values
    case Reactive(field) => w.identity(field)
    case Derived(inner, project) =>
      var seen := set r | r in w.rows && Visible(r, inner.routing, inner.cache) && Matches(inner.selection, r, w);
      Values(w, Cut(w, seen, inner.selection.limit), project)
    case SetOp(op, operands) => Algebra(op, seq(|operands|, i requires 0 <= i < |operands| => Eval(operands[i], w)))
  }

  predicate Matches(f: Filter, r: Row, w: World)
    decreases f
  {
    && (f.kinds.Some? ==> r.kind in f.kinds.value)
    && (f.authors.Some? ==> r.author in Eval(f.authors.value, w))
    && (f.ids.Some? ==> r.id in Eval(f.ids.value, w))
    && (forall t | t in f.tags :: TagValues(r.tags, t) * Eval(f.tags[t], w) != {})
    && (f.since.Some? ==> f.since.value <= r.createdAt)
    && (f.until.Some? ==> r.createdAt <= f.until.value)
  }

  /** A row matches exactly if its kind, author and id are among those asked for, every tag asked for has one of the
      values asked for, and it is neither too old nor too new; what is not asked for does not matter. */
  lemma MatchingIsExact(f: Filter, r: Row, w: World)
    ensures Matches(f, r, w) <==>
      && (f.kinds.None? || r.kind in f.kinds.value)
      && (f.authors.None? || r.author in Eval(f.authors.value, w))
      && (f.ids.None? || r.id in Eval(f.ids.value, w))
      && (forall t | t in f.tags ::
            exists i :: 0 <= i < |r.tags| && |r.tags[i]| > 1 && r.tags[i][0] == t && r.tags[i][1] in Eval(f.tags[t], w))
      && (f.since.None? || f.since.value <= r.createdAt) && (f.until.None? || r.createdAt <= f.until.value)
  {
    hide Eval;
    forall t | t in f.tags
      ensures TagValues(r.tags, t) * Eval(f.tags[t], w) != {} <==>
        exists i :: 0 <= i < |r.tags| && |r.tags[i]| > 1 && r.tags[i][0] == t && r.tags[i][1] in Eval(f.tags[t], w)
    {
      SharedValue(r.tags, t, Eval(f.tags[t], w));
    }
  }

  lemma SharedValue(tags: seq<seq<string>>, name: string, values: set<string>)
    ensures TagValues(tags, name) * values != {} <==>
      exists i :: 0 <= i < |tags| && |tags[i]| > 1 && tags[i][0] == name && tags[i][1] in values
  {
    if i :| 0 <= i < |tags| && |tags[i]| > 1 && tags[i][0] == name && tags[i][1] in values {
      assert tags[i][1] in TagValues(tags, name) * values;
    }
    if x :| x in TagValues(tags, name) * values {
      var i :| 0 <= i < |tags| && |tags[i]| > 1 && tags[i][0] == name && tags[i][1] == x;
    }
  }

  // ---- host-open group ids -----------------------------------------------

  datatype GroupIds =
    | AtHost(selection: Filter)
    | Given(ids: Binding)
    | Combined(op: SetAlgebra, operands: seq<GroupIds>)

  datatype PredicateError = NoKindSelected | NotAGroupRecordKind(kind: nat)

  function LowerAt(ids: GroupIds, host: Host): Binding
    decreases ids
  {
    match ids
    case AtHost(selection) => Derived(Demand(selection, Explicit([host]), Strict), Tag("d"))
    case Given(binding) => binding
    case Combined(op, operands) =>
      SetOp(op, seq(|operands|, i requires 0 <= i < |operands| => LowerAt(operands[i], host)))
  }

  /** A whole predicate: no `#d` row at all, or the one the ids lower to. */
  datatype GroupPredicate = All | These(ids: GroupIds)

  function LowerPredicate(p: GroupPredicate, host: Host): Option<Binding> {
    match p
    case All => None
    case These(ids) => Some(LowerAt(ids, host))
  }

  /** One host's branch of an observation: the selected records, keyed by what the predicate lowers to. */
  function RecordsAt(host: Host, kinds: set<nat>, p: GroupPredicate, limit: Option<nat>): Demand {
    var ids := LowerPredicate(p, host);
    Demand(Filter(Some(kinds), None, None, if ids.Some? then map["d" := ids.value] else map[], None, None, limit),
      Explicit([host]), Strict)
  }

  // ---- meaning -----------------------------------------------------------

  /** The rows the host served that match. */
  function MatchingAt(w: World, host: Host, f: Filter): set<Row> {
    set r | r in w.rows && host in r.sources && Matches(f, r, w)
  }

  /** The groups a predicate names at a host: the `d` values of the records that host served, what the caller's
      own bindings resolve to, and set algebra over those. */
  function Meaning(ids: GroupIds, host: Host, w: World): set<string>
    decreases ids
  {
    match ids
    case AtHost(selection) =>
      Values(w, Cut(w, MatchingAt(w, host, selection), selection.limit), Tag("d"))
    case Given(binding) => Eval(binding, w)
    case Combined(op, operands) =>
      Algebra(op, seq(|operands|, i requires 0 <= i < |operands| => Meaning(operands[i], host, w)))
  }

  /** Lowering keeps the meaning, at every depth of the predicate. */
  lemma {:induction false} LoweringKeepsMeaning(ids: GroupIds, host: Host, w: World)
    ensures Eval(LowerAt(ids, host), w) == Meaning(ids, host, w)
    decreases ids
  {
    match ids
    case AtHost(selection) =>
      forall r ensures Visible(r, Explicit([host]), Strict) <==> host in r.sources {
        assert host in [host];
      }
      assert (set r | r in w.rows && Visible(r, Explicit([host]), Strict) && Matches(selection, r, w))
          == MatchingAt(w, host, selection);
    case Given(binding) =>
    case Combined(op, operands) =>
      var lowered := LowerAt(ids, host);
      forall i | 0 <= i < |operands| ensures Eval(lowered.operands[i], w) == Meaning(operands[i], host, w) {
        LoweringKeepsMeaning(operands[i], host, w);
      }
      assert seq(|lowered.operands|, i requires 0 <= i < |lowered.operands| => Eval(lowered.operands[i], w))
          == seq(|operands|, i requires 0 <= i < |operands| => Meaning(operands[i], host, w));
  }

  // ---- what the caller wrote ---------------------------------------------

  /** The part of a predicate, and of a binding, that a path of operand numbers leads to. */
  function PartAt(ids: GroupIds, path: seq<nat>): Option<GroupIds> {
    if path == [] then Some(ids)
    else if ids.Combined? && path[0] < |ids.operands| then PartAt(ids.operands[path[0]], path[1..])
    else None
  }

  function BindingAt(b: Binding, path: seq<nat>): Option<Binding> {
    if path == [] then Some(b)
    else if b.SetOp? && path[0] < |b.operands| then BindingAt(b.operands[path[0]], path[1..])
    else None
  }

  /** Wherever a predicate holds a binding or a selection of the caller's, the lowered binding holds the same one
      at the same place, the selection pinned to the host. */
  lemma {:induction false} CallersAreVerbatim(ids: GroupIds, host: Host, path: seq<nat>)
    ensures PartAt(ids, path).Some? ==>
      var part, lowered := PartAt(ids, path).value, BindingAt(LowerAt(ids, host), path);
      && (part.Given? ==> lowered == Some(part.ids))
      && (part.AtHost? ==> lowered == Some(Derived(Demand(part.selection, Explicit([host]), Strict), Tag("d"))))
      && (part.Combined? ==> lowered.Some? && lowered.value.SetOp? && lowered.value.op == part.op
                             && |lowered.value.operands| == |part.operands|)
    decreases |path|
  {
    if path != [] && ids.Combined? && path[0] < |ids.operands| {
      CallersAreVerbatim(ids.operands[path[0]], host, path[1..]);
    }
  }

  predicate Selects(d: Demand, r: Row, w: World) {
    r in w.rows && Visible(r, d.routing, d.cache) && Matches(d.selection, r, w)
  }

  /** A branch selects exactly the records of the selected kinds that its host served for the groups the predicate
      names; without a predicate it selects all of them. */
  lemma BranchIsExact(host: Host, kinds: set<nat>, p: GroupPredicate, limit: Option<nat>, r: Row, w: World)
    ensures Selects(RecordsAt(host, kinds, p, limit), r, w) <==>
      && r in w.rows && host in r.sources && r.kind in kinds
      && (p.These? ==> TagValues(r.tags, "d") * Meaning(p.ids, host, w) != {})
  {
    hide Eval, TagValues, LowerAt, Meaning;
    assert host in [host];
    if p.These? { LoweringKeepsMeaning(p.ids, host, w); }
    var f := RecordsAt(host, kinds, p, limit).selection;
    assert p.These? ==> "d" in f.tags;
  }

  // ---- isolation ---------------------------------------------------------

  function ServedBy(w: World, host: Host): set<Row> {
    set r | r in w.rows && host in r.sources
  }

  ghost predicate SameBinding(b: Option<Binding>, w: World, v: World) {
    b.Some? ==> Eval(b.value, w) == Eval(b.value, v)
  }

  /** Every binding the caller supplied resolves alike in both worlds. */
  ghost predicate CallersAgree(ids: GroupIds, w: World, v: World)
    decreases ids
  {
    match ids
    case AtHost(f) =>
      SameBinding(f.authors, w, v) && SameBinding(f.ids, w, v)
        && forall t | t in f.tags :: Eval(f.tags[t], w) == Eval(f.tags[t], v)
    case Given(binding) => Eval(binding, w) == Eval(binding, v)
    case Combined(_, operands) => forall i | 0 <= i < |operands| :: CallersAgree(operands[i], w, v)
  }

  ghost predicate SameButRows(w: World, v: World) {
    w.identity == v.identity && w.coordinates == v.coordinates && w.newest == v.newest
  }

  lemma MatchesAlike(f: Filter, r: Row, w: World, v: World)
    requires CallersAgree(AtHost(f), w, v)
    ensures Matches(f, r, w) <==> Matches(f, r, v)
  {
    hide Eval, TagValues;
  }

  lemma {:induction false} MeaningIsLocal(ids: GroupIds, host: Host, w: World, v: World)
    requires SameButRows(w, v) && ServedBy(w, host) == ServedBy(v, host) && CallersAgree(ids, w, v)
    ensures Meaning(ids, host, w) == Meaning(ids, host, v)
    decreases ids
  {
    match ids
    case AtHost(f) =>
      hide Matches;
      forall r { MatchesAlike(f, r, w, v); }
      forall r ensures r in w.rows && host in r.sources <==> r in v.rows && host in r.sources {
        assert r in ServedBy(w, host) <==> r in ServedBy(v, host);
      }
      assert MatchingAt(w, host, f) == MatchingAt(v, host, f);
      SameValues(w, v, Cut(w, MatchingAt(w, host, f), f.limit));
    case Given(_) =>
    case Combined(op, operands) =>
      forall i | 0 <= i < |operands| ensures Meaning(operands[i], host, w) == Meaning(operands[i], host, v) {
        MeaningIsLocal(operands[i], host, w, v);
      }
      assert seq(|operands|, i requires 0 <= i < |operands| => Meaning(operands[i], host, w))
          == seq(|operands|, i requires 0 <= i < |operands| => Meaning(operands[i], host, v));
  }

  lemma SameValues(w: World, v: World, rows: set<Row>)
    requires SameButRows(w, v)
    ensures Values(w, rows, Tag("d")) == Values(v, rows, Tag("d"))
  {
    forall r ensures Projected(w, r, Tag("d")) == Projected(v, r, Tag("d")) {}
    forall x ensures x in Values(w, rows, Tag("d")) <==> x in Values(v, rows, Tag("d")) {}
  }

  /** What other hosts served cannot change what a predicate resolves to at this one. */
  lemma HostsAreIsolated(ids: GroupIds, host: Host, w: World, v: World)
    requires SameButRows(w, v) && ServedBy(w, host) == ServedBy(v, host) && CallersAgree(ids, w, v)
    ensures Eval(LowerAt(ids, host), w) == Eval(LowerAt(ids, host), v)
  {
    LoweringKeepsMeaning(ids, host, w);
    LoweringKeepsMeaning(ids, host, v);
    MeaningIsLocal(ids, host, w, v);
  }

  // ---- evidence ----------------------------------------------------------

  predicate IsRecordKind(kind: nat) {
    GroupRecords.RecordOf(kind).Some?
  }

  /** The selection is one the group's host is authoritative for. */
  ghost predicate Authoritative(f: Filter) {
    f.kinds.Some? && f.kinds.value != {} && forall k | k in f.kinds.value :: IsRecordKind(k)
  }

  method GroupsWhoseRecordMatches(selection: Filter) returns (r: Result<GroupIds, PredicateError>)
    ensures r.Ok? <==> Authoritative(selection)
    ensures r.Ok? ==> r.value == AtHost(selection)
    ensures r == Err(NoKindSelected) <==> selection.kinds.None? || selection.kinds.value == {}
    ensures r.Err? && r.error.NotAGroupRecordKind? ==>
      var k := r.error.kind;
      selection.kinds.Some? && k in selection.kinds.value && !IsRecordKind(k)
        && forall j | j in selection.kinds.value && j < k :: IsRecordKind(j)
  {
    if selection.kinds.None? || selection.kinds.value == {} {
      return Err(NoKindSelected);
    }
    var todo := selection.kinds.value;
    while todo != {}
      invariant todo <= selection.kinds.value
      invariant forall k | k in selection.kinds.value && k !in todo :: IsRecordKind(k)
    {
      var kind := LeastOf(todo);
      if !IsRecordKind(kind) {
        return Err(NotAGroupRecordKind(kind));
      }
      todo := todo - {kind};
    }
    return Ok(AtHost(selection));
  }

  ghost predicate Built(ids: GroupIds)
    decreases ids
  {
    match ids
    case AtHost(f) => Authoritative(f)
    case Given(_) => true
    case Combined(_, operands) => forall i | 0 <= i < |operands| :: Built(operands[i])
  }

  /** Some binding of the caller's own names the group. */
  ghost predicate NamedByCaller(ids: GroupIds, w: World, id: string)
    decreases ids
  {
    match ids
    case AtHost(_) => false
    case Given(binding) => id in Eval(binding, w)
    case Combined(_, operands) => exists i :: 0 <= i < |operands| && NamedByCaller(operands[i], w, id)
  }

  /** A group record the host served names the group. */
  ghost predicate Evidenced(w: World, host: Host, id: string) {
    exists r :: r in w.rows && host in r.sources && IsRecordKind(r.kind) && id in TagValues(r.tags, "d")
  }

  lemma {:induction false} UnionComesFromOne(sets: seq<set<string>>, id: string)
    requires id in UnionOf(sets)
    ensures exists i :: 0 <= i < |sets| && id in sets[i]
  {
    if id in sets[0] {
    } else {
      UnionComesFromOne(sets[1..], id);
      var i :| 0 <= i < |sets[1..]| && id in sets[1..][i];
      assert id in sets[i + 1];
    }
  }

  lemma AlgebraComesFromOne(op: SetAlgebra, sets: seq<set<string>>, id: string)
    requires id in Algebra(op, sets)
    ensures exists i :: 0 <= i < |sets| && id in sets[i]
  {
    match op
    case Union => UnionComesFromOne(sets, id);
    case Intersect => assert id in sets[0];
    case Diff => assert id in sets[0];
  }

  /** Every group a predicate resolves to is named by a record its host served, or by a binding of the caller's own. */
  lemma {:induction false} IdsHaveEvidence(ids: GroupIds, host: Host, w: World, id: string)
    requires Built(ids) && (forall rows, n :: w.newest(rows, n) <= rows)
    requires id in Meaning(ids, host, w)
    ensures Evidenced(w, host, id) || NamedByCaller(ids, w, id)
    decreases ids
  {
    match ids
    case AtHost(f) =>
      var seen := MatchingAt(w, host, f);
      assert Cut(w, seen, f.limit) <= seen;
      var r :| r in Cut(w, seen, f.limit) && id in Projected(w, r, Tag("d"));
      assert r in seen;
    case Given(_) =>
    case Combined(op, operands) =>
      var sets := seq(|operands|, i requires 0 <= i < |operands| => Meaning(operands[i], host, w));
      AlgebraComesFromOne(op, sets, id);
      var i :| 0 <= i < |sets| && id in sets[i];
      IdsHaveEvidence(operands[i], host, w, id);
  }
}
