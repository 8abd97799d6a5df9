/** The NIP-65 coordinator: winner selection, marker reading and absence, one operation at a time. */
module RelayListCoordinator {
  import opened Wrappers

  const RELAY_LIST_KIND: nat := 10002
  const MAX_U64: nat := 0xFFFF_FFFF_FFFF_FFFF

  datatype Relay = Relay(url: string)

  /** Public keys and event ids stand for their 32 bytes read big-endian, which orders them as bytes do. */
  type PublicKey = nat
  type EventId = nat

  datatype Event = Event(id: EventId, pubkey: PublicKey, createdAt: nat, kind: nat, tags: seq<seq<string>>)

  /** How relay URLs are read; what it accepts is not this component's business. */
  type UrlParser = string -> Option<Relay>

  // ---- one relay list ----------------------------------------------------

  datatype Routes = Routes(outbound: set<Relay>, inbound: set<Relay>)

  predicate Outward(row: seq<string>) {
    |row| == 2 || (|row| > 2 && row[2] == "write")
  }

  predicate Inward(row: seq<string>) {
    |row| == 2 || (|row| > 2 && row[2] == "read")
  }

  predicate Names(parse: UrlParser, row: seq<string>) {
    |row| >= 2 && row[0] == "r" && parse(row[1]).Some?
  }

  function RoutesOf(parse: UrlParser, tags: seq<seq<string>>): Routes {
    Routes(set i | 0 <= i < |tags| && Names(parse, tags[i]) && Outward(tags[i]) :: parse(tags[i][1]).value,
           set i | 0 <= i < |tags| && Names(parse, tags[i]) && Inward(tags[i]) :: parse(tags[i][1]).value)
  }

  method ParseRelayList(parse: UrlParser, tags: seq<seq<string>>) returns (routes: Routes)
    ensures routes == RoutesOf(parse, tags)
  {
    routes := Routes({}, {});
    for i := 0 to |tags|
      invariant routes == RoutesOf(parse, tags[..i])
    {
      assert tags[..i + 1] == tags[..i] + [tags[i]];
      RoutesGrow(parse, tags[..i], tags[i]);
      var values := tags[i];
      if |values| == 0 || values[0] != "r" || |values| == 1 {
        continue;
      }
      var relay := parse(values[1]);
      if relay.None? {
        continue;
      }
      if |values| == 2 {
        routes := Routes(routes.outbound + {relay.value}, routes.inbound + {relay.value});
      } else if values[2] == "read" {
        routes := Routes(routes.outbound, routes.inbound + {relay.value});
      } else if values[2] == "write" {
        routes := Routes(routes.outbound + {relay.value}, routes.inbound);
      }
    }
    assert tags[..|tags|] == tags;
  }

  lemma RoutesGrow(parse: UrlParser, tags: seq<seq<string>>, row: seq<string>)
    ensures
      var before, after := RoutesOf(parse, tags), RoutesOf(parse, tags + [row]);
      && after.outbound == before.outbound + (if Names(parse, row) && Outward(row) then {parse(row[1]).value} else {})
      && after.inbound == before.inbound + (if Names(parse, row) && Inward(row) then {parse(row[1]).value} else {})
  {
    var more := tags + [row];
    assert more[|tags|] == row;
    assert forall i | 0 <= i < |tags| :: more[i] == tags[i];
  }

  // ---- winners -----------------------------------------------------------

  predicate CandidateWins(candidate: Event, current: Event) {
    candidate.createdAt > current.createdAt
    || (candidate.createdAt == current.createdAt && candidate.id < current.id)
  }

  predicate Relevant(authors: set<PublicKey>, e: Event) {
    e.kind == RELAY_LIST_KIND && e.pubkey in authors
  }

  predicate Takes(winners: map<PublicKey, Event>, authors: set<PublicKey>, e: Event) {
    Relevant(authors, e) && (e.pubkey in winners ==> CandidateWins(e, winners[e.pubkey]))
  }

  function Offered(winners: map<PublicKey, Event>, authors: set<PublicKey>, events: seq<Event>): map<PublicKey, Event> {
    if events == [] then winners
    else
      var e := events[|events| - 1];
      var before := Offered(winners, authors, events[..|events| - 1]);
      if Takes(before, authors, e) then before[e.pubkey := e] else before
  }

  /** The authors some event of the batch became winner of on the way. */
  function Taken(winners: map<PublicKey, Event>, authors: set<PublicKey>, events: seq<Event>): set<PublicKey> {
    if events == [] then {}
    else
      var e := events[|events| - 1];
      var head := events[..|events| - 1];
      Taken(winners, authors, head) + (if Takes(Offered(winners, authors, head), authors, e) then {e.pubkey} else {})
  }

  // ---- the coordinator ---------------------------------------------------

  datatype Update =
    | Present(author: PublicKey, routes: Routes)
    | Absent(author: PublicKey)

  datatype State = State(
    sources: set<Relay>,
    authors: set<PublicKey>,
    revision: nat,
    winners: map<PublicKey, Event>,
    settled: set<Relay>,
    absent: set<PublicKey>)

  function Fresh(sources: set<Relay>): State {
    State(sources, {}, 0, map[], {}, {})
  }

  datatype Op =
    | Reroot(authors: set<PublicKey>)
    | Delta(removed: set<EventId>, events: seq<Event>)
    | Settle(revision: nat, relay: Relay)

  function Rerooted(s: State, authors: set<PublicKey>): State {
    if authors == s.authors then s
    else s.(authors := authors,
            revision := if s.revision < MAX_U64 then s.revision + 1 else s.revision,
            winners := map a | a in s.winners && a in authors :: s.winners[a],
            settled := {},
            absent := {})
  }

  function Kept(winners: map<PublicKey, Event>, removed: set<EventId>): map<PublicKey, Event> {
    map a | a in winners && winners[a].id !in removed :: winners[a]
  }

  /** The authors whose winner a delta removes, replaces or introduces. */
  function Changed(s: State, removed: set<EventId>, events: seq<Event>): set<PublicKey> {
    (set a | a in s.winners && s.winners[a].id in removed) + Taken(Kept(s.winners, removed), s.authors, events)
  }

  predicate AllSettled(s: State) {
    |s.settled| == |s.sources|
  }

  /** Who is reported absent once these authors have been reported on. */
  function AbsentAfter(s: State, winners: map<PublicKey, Event>, authors: set<PublicKey>): set<PublicKey> {
    var found := set a | a in authors && a in winners;
    s.absent - found + if AllSettled(s) then authors - found else {}
  }

  lemma NobodyAbsent(s: State, winners: map<PublicKey, Event>)
    ensures AbsentAfter(s, winners, {}) == s.absent
  {
  }

  lemma AbsentStep(s: State, winners: map<PublicKey, Event>, done: set<PublicKey>, a: PublicKey)
    requires a !in done
    ensures a in AbsentAfter(s, winners, done) <==> a in s.absent
    ensures AbsentAfter(s, winners, done + {a})
         == if a in winners then AbsentAfter(s, winners, done) - {a}
            else if AllSettled(s) then AbsentAfter(s, winners, done) + {a}
            else AbsentAfter(s, winners, done)
  {
  }

  function AfterDelta(s: State, removed: set<EventId>, events: seq<Event>): State {
    var winners := Offered(Kept(s.winners, removed), s.authors, events);
    s.(winners := winners, absent := AbsentAfter(s, winners, Changed(s, removed, events)))
  }

  /** What a delta has to say about one changed author. */
  function Said(parse: UrlParser, s: State, winners: map<PublicKey, Event>, a: PublicKey): Option<Update> {
    if a in winners then Some(Present(a, RoutesOf(parse, winners[a].tags)))
    else if AllSettled(s) && a !in s.absent then Some(Absent(a))
    else None
  }

  lemma SaidOf(parse: UrlParser, s: State, winners: map<PublicKey, Event>, a: PublicKey)
    ensures Said(parse, s, winners, a).Some? ==> Said(parse, s, winners, a).value.author == a
  {
  }

  function DeltaUpdates(parse: UrlParser, s: State, removed: set<EventId>, events: seq<Event>): set<Update> {
    var winners := Offered(Kept(s.winners, removed), s.authors, events);
    set a | a in Changed(s, removed, events) && Said(parse, s, winners, a).Some? :: Said(parse, s, winners, a).value
  }

  predicate Counts(s: State, revision: nat, relay: Relay) {
    revision == s.revision && relay in s.sources
  }

  /** The authors the last settlement finally speaks for. */
  function NewlyAbsent(s: State, revision: nat, relay: Relay): set<PublicKey> {
    if Counts(s, revision, relay) && |s.settled + {relay}| == |s.sources|
    then set a | a in s.authors && a !in s.winners && a !in s.absent
    else {}
  }

  function AfterSettle(s: State, revision: nat, relay: Relay): State {
    if Counts(s, revision, relay)
    then s.(settled := s.settled + {relay}, absent := s.absent + NewlyAbsent(s, revision, relay))
    else s
  }

  function Next(s: State, op: Op): State {
    match op
    case Reroot(authors) => Rerooted(s, authors)
    case Delta(removed, events) => AfterDelta(s, removed, events)
    case Settle(revision, relay) => AfterSettle(s, revision, relay)
  }

  function Emitted(parse: UrlParser, s: State, op: Op): set<Update> {
    match op
    case Reroot(_) => {}
    case Delta(removed, events) => DeltaUpdates(parse, s, removed, events)
    case Settle(revision, relay) => set a | a in NewlyAbsent(s, revision, relay) :: Absent(a)
  }

  /** A batch of updates as the caller gets it: one per author, in ascending order of author. */
  ghost predicate Lists(updates: seq<Update>, emitted: set<Update>) {
    && (forall u :: u in updates <==> u in emitted)
    && Ascending(updates)
  }

  ghost predicate Ascending(updates: seq<Update>) {
    forall i, j | 0 <= i < j < |updates| :: updates[i].author < updates[j].author
  }

  ghost predicate SaysOf(parse: UrlParser, s: State, winners: map<PublicKey, Event>, done: set<PublicKey>,
                         updates: seq<Update>)
  {
    forall u :: u in updates <==> u.author in done && Said(parse, s, winners, u.author) == Some(u)
  }

  function WithUpdate(updates: seq<Update>, update: Option<Update>): seq<Update> {
    if update.Some? then updates + [update.value] else updates
  }

  lemma NothingSaid(parse: UrlParser, s: State, winners: map<PublicKey, Event>)
    ensures SaysOf(parse, s, winners, {}, []) && Ascending([])
  {
  }

  lemma OneMoreAuthor(parse: UrlParser, s: State, winners: map<PublicKey, Event>, done: set<PublicKey>,
                      updates: seq<Update>, author: PublicKey)
    requires SaysOf(parse, s, winners, done, updates) && Ascending(updates)
    requires forall a | a in done :: a < author
    ensures
      var more := WithUpdate(updates, Said(parse, s, winners, author));
      SaysOf(parse, s, winners, done + {author}, more) && Ascending(more)
  {
    SaidOf(parse, s, winners, author);
    hide Said;
    var update := Said(parse, s, winners, author);
    forall u ensures u in WithUpdate(updates, update) <==> u in updates || update == Some(u) {}
  }

  class Nip65Coordinator {
    const parse: UrlParser
    const sources: set<Relay>
    var authors: set<PublicKey>
    var revision: nat
    var winners: map<PublicKey, Event>
    var settledSources: set<Relay>
    var absentEmitted: set<PublicKey>

    ghost function View(): State
      reads this
    {
      State(sources, authors, revision, winners, settledSources, absentEmitted)
    }

    constructor (parse: UrlParser, sources: set<Relay>)
      ensures View() == Fresh(sources) && this.parse == parse
    {
      this.parse, this.sources := parse, sources;
      authors, revision, winners, settledSources, absentEmitted := {}, 0, map[], {}, {};
    }

    /** Returns the revision of the query to open, if one is to be opened. */
    method RerootTo(authors: set<PublicKey>) returns (query: Option<nat>)
      modifies this
      ensures View() == Next(old(View()), Reroot(authors))
      ensures query == if authors != old(this.authors) && authors != {} && sources != {} then Some(revision) else None
    {
      if authors == this.authors {
        return None;
      }
      this.authors := authors;
      if revision < MAX_U64 {
        revision := revision + 1;
      }
      winners := map a | a in winners && a in authors :: winners[a];
      settledSources, absentEmitted := {}, {};
      query := if authors == {} || sources == {} then None else Some(revision);
    }

    /** Takes in the batch; returns the authors whose winner it replaced or introduced. */
    method OfferAll(events: seq<Event>) returns (taken: set<PublicKey>)
      modifies this`winners
      ensures winners == Offered(old(winners), authors, events) && taken == Taken(old(winners), authors, events)
    {
      taken := {};
      for i := 0 to |events|
        invariant winners == Offered(old(winners), authors, events[..i])
        invariant taken == Taken(old(winners), authors, events[..i])
      {
        var event := events[i];
        assert events[..i + 1][..i] == events[..i] && events[..i + 1][i] == event;
        if event.kind != RELAY_LIST_KIND || event.pubkey !in authors {
          continue;
        }
        if event.pubkey in winners && !CandidateWins(event, winners[event.pubkey]) {
          continue;
        }
        taken := taken + {event.pubkey};
        winners := winners[event.pubkey := event];
      }
      assert events[..|events|] == events;
    }

    method ObserveCurrentDelta(removed: set<EventId>, events: seq<Event>) returns (updates: seq<Update>)
      modifies this
      ensures View() == Next(old(View()), Delta(removed, events))
      ensures Lists(updates, Emitted(parse, old(View()), Delta(removed, events)))
    {
      hide Offered, Taken, RoutesOf, AbsentAfter;
      ghost var before := View();
      var lost := set a | a in winners && winners[a].id in removed;
      winners := map a | a in winners && winners[a].id !in removed :: winners[a];
      var taken := OfferAll(events);
      updates := Report(lost + taken, before);
      forall u ensures u in updates <==> u in Emitted(parse, before, Delta(removed, events)) {
        SaidOf(parse, before, winners, u.author);
      }
    }

    /** One update per changed author, in ascending order of author. */
    method Report(changed: set<PublicKey>, ghost before: State) returns (updates: seq<Update>)
      requires View() == before.(winners := winners)
      modifies this`absentEmitted
      ensures absentEmitted == AbsentAfter(before, winners, changed)
      ensures SaysOf(parse, before, winners, changed, updates) && Ascending(updates)
    {
      hide Said, AbsentAfter, SaysOf, Ascending;
      updates := [];
      var todo := changed;
      ghost var done: set<PublicKey> := {};
      assert absentEmitted == AbsentAfter(before, winners, done) by { NobodyAbsent(before, winners); }
      NothingSaid(parse, before, winners);
      while todo != {}
        invariant done !! todo && done + todo == changed
        invariant forall a, b | a in done && b in todo :: a < b
        invariant Ascending(updates) && SaysOf(parse, before, winners, done, updates)
        invariant absentEmitted == AbsentAfter(before, winners, done)
        decreases todo
      {
        var author := LeastOf(todo);
        AbsentStep(before, winners, done, author);
        var update := ReportOne(author, before);
        OneMoreAuthor(parse, before, winners, done, updates, author);
        updates := WithUpdate(updates, update);
        done, todo := done + {author}, todo - {author};
      }
      assert done == changed;
    }

    method ReportOne(author: PublicKey, ghost before: State) returns (update: Option<Update>)
      requires View() == before.(winners := winners, absent := absentEmitted)
      requires author in absentEmitted <==> author in before.absent
      modifies this`absentEmitted
      ensures update == Said(parse, before, winners, author)
      ensures absentEmitted == if author in winners then old(absentEmitted) - {author}
                               else if AllSettled(before) then old(absentEmitted) + {author}
                               else old(absentEmitted)
    {
      hide RoutesOf;
      update := None;
      if author in winners {
        var routes := ParseRelayList(parse, winners[author].tags);
        absentEmitted := absentEmitted - {author};
        update := Some(Present(author, routes));
      } else if |settledSources| == |sources| && author !in absentEmitted {
        absentEmitted := absentEmitted + {author};
        update := Some(Absent(author));
      }
    }

    method SettleSource(revision: nat, relay: Relay) returns (updates: seq<Update>)
      modifies this
      ensures View() == Next(old(View()), Settle(revision, relay))
      ensures Lists(updates, Emitted(parse, old(View()), Settle(revision, relay)))
    {
      updates := [];
      if revision != this.revision || relay !in sources {
        return;
      }
      settledSources := settledSources + {relay};
      if |settledSources| != |sources| {
        return;
      }
      var absent := set a | a in authors && a !in winners && a !in absentEmitted;
      updates := ReportAbsent(absent);
    }

    method ReportAbsent(absent: set<PublicKey>) returns (updates: seq<Update>)
      modifies this`absentEmitted
      ensures absentEmitted == old(absentEmitted) + absent
      ensures forall u :: u in updates <==> u.Absent? && u.author in absent
      ensures Ascending(updates)
    {
      updates := [];
      var todo := absent;
      while todo != {}
        invariant todo <= absent && absentEmitted == old(absentEmitted) + (absent - todo)
        invariant forall u :: u in updates <==> u.Absent? && u.author in absent - todo
        invariant Ascending(updates)
        invariant forall u, b | u in updates && b in todo :: u.author < b
        decreases todo
      {
        var author := LeastOf(todo);
        todo := todo - {author};
        absentEmitted := absentEmitted + {author};
        updates := updates + [Absent(author)];
      }
    }
  }
}
