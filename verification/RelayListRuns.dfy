/** What the NIP-65 coordinator promises over whole runs: winners are maxima, the last word on an
    author is the truth, and absence is claimed only when every source has answered. */
module RelayListRuns {
  import opened Wrappers
  import opened RelayListCoordinator

  // ---- winners are maxima ------------------------------------------------

  /** The events of a batch that count for `author`, with the winner held before it. */
  ghost function Contenders(winners: map<PublicKey, Event>, authors: set<PublicKey>, events: seq<Event>,
                            author: PublicKey)
    : set<Event>
  {
    (set e | e in events && Relevant(authors, e) && e.pubkey == author)
    + (if author in winners then {winners[author]} else {})
  }

  ghost predicate Unbeaten(e: Event, events: set<Event>) {
    e in events && forall x | x in events :: !CandidateWins(x, e)
  }

  /** Folding a batch in leaves each author the contender no other contender beats. */
  lemma {:induction false} WinnersAreUnbeaten(winners: map<PublicKey, Event>, authors: set<PublicKey>,
                                              events: seq<Event>, author: PublicKey)
    ensures
      var after, contenders := Offered(winners, authors, events), Contenders(winners, authors, events, author);
      && (author in after <==> contenders != {})
      && (author in after ==> Unbeaten(after[author], contenders))
      && (author in Taken(winners, authors, events) ==> author in after)
      && (author !in Taken(winners, authors, events) ==>
            (author in after <==> author in winners) && (author in after ==> after[author] == winners[author]))
  {
    if events != [] {
      var head, e := events[..|events| - 1], events[|events| - 1];
      WinnersAreUnbeaten(winners, authors, head, author);
      var before := Contenders(winners, authors, head, author);
      var contenders := Contenders(winners, authors, events, author);
      assert events == head + [e];
      assert contenders == before + if Relevant(authors, e) && e.pubkey == author then {e} else {};
    } else {
      assert Contenders(winners, authors, events, author) == if author in winners then {winners[author]} else {};
    }
  }

  /** The newest relay list wins, and of several of one moment the one with the least id: the winner after a batch is
      the winner before it or an event of the batch, and no list of the author among these is newer. */
  lemma NewestListWins(winners: map<PublicKey, Event>, authors: set<PublicKey>, events: seq<Event>, author: PublicKey,
                       x: Event)
    requires (x in events && x.kind == 10002 && x.pubkey == author && author in authors)
             || (author in winners && x == winners[author])
    ensures
      var after := Offered(winners, authors, events);
      && author in after
      && (after[author] in events || (author in winners && after[author] == winners[author]))
      && (x.createdAt < after[author].createdAt
          || (x.createdAt == after[author].createdAt && after[author].id <= x.id))
  {
    WinnersAreUnbeaten(winners, authors, events, author);
    assert x in Contenders(winners, authors, events, author);
  }

  /** A relay is written to exactly if some `r` row names it without a marker or with "write", and read from exactly if
      some `r` row names it without a marker or with "read". */
  lemma RoutesAreExact(parse: UrlParser, tags: seq<seq<string>>, relay: Relay)
    ensures relay in RoutesOf(parse, tags).outbound <==>
      exists i :: 0 <= i < |tags| && |tags[i]| >= 2 && tags[i][0] == "r" && parse(tags[i][1]) == Some(relay)
                  && (|tags[i]| == 2 || tags[i][2] == "write")
    ensures relay in RoutesOf(parse, tags).inbound <==>
      exists i :: 0 <= i < |tags| && |tags[i]| >= 2 && tags[i][0] == "r" && parse(tags[i][1]) == Some(relay)
                  && (|tags[i]| == 2 || tags[i][2] == "read")
  {
    var routes := RoutesOf(parse, tags);
    if i :| 0 <= i < |tags| && |tags[i]| >= 2 && tags[i][0] == "r" && parse(tags[i][1]) == Some(relay)
            && (|tags[i]| == 2 || tags[i][2] == "write")
    {
      assert Names(parse, tags[i]) && Outward(tags[i]);
    }
    if i :| 0 <= i < |tags| && |tags[i]| >= 2 && tags[i][0] == "r" && parse(tags[i][1]) == Some(relay)
            && (|tags[i]| == 2 || tags[i][2] == "read")
    {
      assert Names(parse, tags[i]) && Inward(tags[i]);
    }
  }

  /** A change of authors keeps the winners of those still wanted and no others, forgets every settlement and every
      absence, and moves the revision on while it can; the same authors change nothing. */
  lemma RerootIsExact(s: State, authors: set<PublicKey>)
    ensures
      var s' := Next(s, Reroot(authors));
      if authors == s.authors then s' == s
      else
        && s'.sources == s.sources && s'.authors == authors && s'.settled == {} && s'.absent == {}
        && (s'.revision == s.revision + 1 || (s'.revision == s.revision && s.revision >= 0xFFFF_FFFF_FFFF_FFFF))
        && (forall a :: a in s'.winners <==> a in s.winners && a in authors)
        && (forall a | a in s'.winners :: s'.winners[a] == s.winners[a])
  {
  }

  /** Event ids name events: the id is a digest of the whole event. */
  ghost predicate IdsIdentify(events: set<Event>) {
    forall d, e | d in events && e in events && d.id == e.id :: d == e
  }

  /** The winners do not depend on the order, the repetition or the batching of what was observed. */
  lemma WinnersIgnoreOrder(winners: map<PublicKey, Event>, authors: set<PublicKey>, xs: seq<Event>, ys: seq<Event>)
    requires forall e :: e in xs <==> e in ys
    requires IdsIdentify((set e | e in xs) + winners.Values)
    ensures Offered(winners, authors, xs) == Offered(winners, authors, ys)
  {
    var left, right := Offered(winners, authors, xs), Offered(winners, authors, ys);
    forall a ensures a in left <==> a in right
             ensures a in left ==> left[a] == right[a]
    {
      WinnersAreUnbeaten(winners, authors, xs, a);
      WinnersAreUnbeaten(winners, authors, ys, a);
      assert Contenders(winners, authors, xs, a) == Contenders(winners, authors, ys, a);
    }
  }

  lemma {:induction false} WinnersIgnoreBatching(winners: map<PublicKey, Event>, authors: set<PublicKey>,
                                                 xs: seq<Event>, ys: seq<Event>)
    ensures Offered(Offered(winners, authors, xs), authors, ys) == Offered(winners, authors, xs + ys)
  {
    if ys == [] {
      assert xs + ys == xs;
    } else {
      var head, last := ys[..|ys| - 1], ys[|ys| - 1];
      WinnersIgnoreBatching(winners, authors, xs, head);
      assert (xs + ys)[..|xs + ys| - 1] == xs + head;
    }
  }

  // ---- exact diffs of a projection ---------------------------------------

  /** A projection of current rows: at most one relay list per wanted author. */
  ghost predicate Projection(rows: map<PublicKey, Event>, authors: set<PublicKey>) {
    forall a | a in rows :: Relevant(authors, rows[a]) && rows[a].pubkey == a
  }

  predicate Gone(rows: map<PublicKey, Event>, rows': map<PublicKey, Event>, a: PublicKey) {
    a in rows && (a !in rows' || rows'[a] != rows[a])
  }

  /** The delta that leads from one projection to the next, in any order. */
  ghost predicate ExactDiff(rows: map<PublicKey, Event>, rows': map<PublicKey, Event>, removed: set<EventId>,
                            events: seq<Event>)
  {
    && (forall id :: id in removed <==> exists a :: Gone(rows, rows', a) && rows[a].id == id)
    && (forall e :: e in events <==> exists a :: Gone(rows', rows, a) && rows'[a] == e)
  }

  /** Every row that appeared or was replaced is among the updates, with its routes. */
  ghost predicate Announces(parse: UrlParser, rows: map<PublicKey, Event>, rows': map<PublicKey, Event>,
                            updates: set<Update>)
  {
    forall a | Gone(rows', rows, a) :: Present(a, RoutesOf(parse, rows'[a].tags)) in updates
  }

  /** Fed exact diffs, the coordinator's winners are the projection, and every author whose row
      appeared or was replaced is reported with the routes of the row it now has. */
  lemma ExactDiffsTrackTheProjection(parse: UrlParser, s: State, rows': map<PublicKey, Event>, removed: set<EventId>,
                                     events: seq<Event>)
    requires Projection(s.winners, s.authors) && Projection(rows', s.authors)
    requires IdsIdentify(s.winners.Values + rows'.Values)
    requires ExactDiff(s.winners, rows', removed, events)
    ensures Next(s, Delta(removed, events)).winners == rows'
    ensures Announces(parse, s.winners, rows', Emitted(parse, s, Delta(removed, events)))
  {
    var kept := Kept(s.winners, removed);
    var after := Offered(kept, s.authors, events);
    forall a ensures a in after <==> a in rows'
             ensures a in after ==> after[a] == rows'[a]
             ensures Gone(rows', s.winners, a) ==> a in Taken(kept, s.authors, events)
    {
      OneAuthorTracks(s, rows', removed, events, a);
    }
    assert after == rows';
    forall a | Gone(rows', s.winners, a)
      ensures Present(a, RoutesOf(parse, rows'[a].tags)) in Emitted(parse, s, Delta(removed, events))
    {
      assert Said(parse, s, after, a) == Some(Present(a, RoutesOf(parse, rows'[a].tags)));
    }
  }

  lemma OneAuthorTracks(s: State, rows': map<PublicKey, Event>, removed: set<EventId>, events: seq<Event>, a: PublicKey)
    requires Projection(s.winners, s.authors) && Projection(rows', s.authors)
    requires IdsIdentify(s.winners.Values + rows'.Values)
    requires ExactDiff(s.winners, rows', removed, events)
    ensures
      var kept := Kept(s.winners, removed);
      var after := Offered(kept, s.authors, events);
      && (a in after <==> a in rows')
      && (a in after ==> after[a] == rows'[a])
      && (Gone(rows', s.winners, a) ==> a in Taken(kept, s.authors, events))
  {
    var kept := Kept(s.winners, removed);
    WinnersAreUnbeaten(kept, s.authors, events, a);
    var contenders := Contenders(kept, s.authors, events, a);
    if a in s.winners {
      assert s.winners[a].id in removed <==> Gone(s.winners, rows', a) by {
        if s.winners[a].id in removed {
          var b :| Gone(s.winners, rows', b) && s.winners[b].id == s.winners[a].id;
          assert s.winners[b] in s.winners.Values && s.winners[a] in s.winners.Values;
        }
      }
    }
    forall e | e in events && e.pubkey == a ensures a in rows' && e == rows'[a] && Gone(rows', s.winners, a) {
      var b :| Gone(rows', s.winners, b) && rows'[b] == e;
    }
    if a in rows' {
      if Gone(rows', s.winners, a) { assert rows'[a] in events; }
      assert contenders == {rows'[a]};
    } else {
      assert contenders == {};
    }
  }

  /** Each delta is the exact diff of one projection of the wanted authors to the next. */
  ghost predicate History(authors: set<PublicKey>, rows: seq<map<PublicKey, Event>>, deltas: seq<Op>) {
    && |rows| == |deltas| + 1
    && (forall i | 0 <= i < |rows| :: Projection(rows[i], authors))
    && (forall i | 0 <= i < |deltas| ::
          deltas[i].Delta? && ExactDiff(rows[i], rows[i + 1], deltas[i].removed, deltas[i].events))
    && (forall i | 0 <= i < |deltas| :: IdsIdentify(rows[i].Values + rows[i + 1].Values))
  }

  lemma HistoryStep(authors: set<PublicKey>, rows: seq<map<PublicKey, Event>>, deltas: seq<Op>, i: nat)
    requires History(authors, rows, deltas) && i < |deltas|
    ensures Projection(rows[i], authors) && Projection(rows[i + 1], authors) && deltas[i].Delta?
    ensures ExactDiff(rows[i], rows[i + 1], deltas[i].removed, deltas[i].events)
    ensures IdsIdentify(rows[i].Values + rows[i + 1].Values)
  {
  }

  /** Over any history of exact diffs the winners are at every moment the projection, and every row that then
      appears or is replaced is reported with its routes. */
  lemma {:induction false} ProjectionHistories(parse: UrlParser, s: State, rows: seq<map<PublicKey, Event>>,
                                               deltas: seq<Op>, i: nat)
    requires History(s.authors, rows, deltas) && s.winners == rows[0] && i <= |deltas|
    ensures After(s, deltas[..i]).winners == rows[i] && After(s, deltas[..i]).authors == s.authors
    ensures i < |deltas| ==> Announces(parse, rows[i], rows[i + 1], Emitted(parse, After(s, deltas[..i]), deltas[i]))
  {
    hide RoutesOf, Emitted, Next, ExactDiff, Projection, IdsIdentify;
    if i > 0 {
      ProjectionHistories(parse, s, rows, deltas, i - 1);
      var mid := After(s, deltas[..i - 1]);
      assert deltas[..i][..i - 1] == deltas[..i - 1];
      HistoryStep(s.authors, rows, deltas, i - 1);
      ExactDiffsTrackTheProjection(parse, mid, rows[i], deltas[i - 1].removed, deltas[i - 1].events);
      DeltaKeepsAuthors(mid, deltas[i - 1]);
    }
    if i < |deltas| {
      HistoryStep(s.authors, rows, deltas, i);
      ExactDiffsTrackTheProjection(parse, After(s, deltas[..i]), rows[i + 1], deltas[i].removed, deltas[i].events);
    }
  }

  lemma DeltaKeepsAuthors(s: State, op: Op)
    requires op.Delta?
    ensures Next(s, op).authors == s.authors
  {
  }

  ghost function After(s: State, ops: seq<Op>): State {
    if ops == [] then s else Next(After(s, ops[..|ops| - 1]), ops[|ops| - 1])
  }

  // ---- runs --------------------------------------------------------------

  ghost predicate Run(trace: seq<State>, ops: seq<Op>) {
    && |trace| == |ops| + 1
    && trace[0] == Fresh(trace[0].sources)
    && forall i | 0 <= i < |ops| :: trace[i + 1] == Next(trace[i], ops[i])
  }

  /** Winners and reported absences are disjoint sets of wanted authors, absences are claimed only
      once every source has settled, and from then on every wanted author is one or the other. */
  ghost predicate Inv(s: State) {
    && s.settled <= s.sources
    && (forall a | a in s.winners :: a in s.authors && s.winners[a].pubkey == a)
    && s.absent <= s.authors && s.absent !! s.winners.Keys
    && (s.absent != {} ==> s.settled == s.sources)
    && (s.sources != {} && s.settled == s.sources ==> forall a | a in s.authors :: a in s.winners || a in s.absent)
  }

  lemma AllSettledIs(s: State)
    requires s.settled <= s.sources
    ensures AllSettled(s) <==> s.settled == s.sources
  {
    if AllSettled(s) { SameSizeSubset(s.settled, s.sources); }
  }

  /** What a delta makes of one author. */
  lemma DeltaForAuthor(s: State, removed: set<EventId>, events: seq<Event>, a: PublicKey)
    requires Inv(s)
    ensures
      var s' := Next(s, Delta(removed, events));
      && (a in s'.winners ==> a in s.authors && s'.winners[a].pubkey == a && a !in s'.absent)
      && (a in Changed(s, removed, events) ==> a in s.authors)
      && (a !in Changed(s, removed, events) ==>
            (a in s'.winners <==> a in s.winners) && (a in s'.winners ==> s'.winners[a] == s.winners[a])
            && (a in s'.absent <==> a in s.absent))
      && (a in Changed(s, removed, events) && a !in s'.winners ==> (a in s'.absent <==> AllSettled(s) || a in s.absent))
  {
    var kept := Kept(s.winners, removed);
    WinnersAreUnbeaten(kept, s.authors, events, a);
  }

  lemma StepPreserves(s: State, op: Op)
    requires Inv(s)
    ensures Inv(Next(s, op))
  {
    var s' := Next(s, op);
    match op
    case Reroot(_) =>
    case Delta(removed, events) =>
      AllSettledIs(s);
      forall a ensures a in s'.winners ==> a in s.authors && s'.winners[a].pubkey == a && a !in s'.absent
               ensures a in s'.absent ==> a in s.authors && s.settled == s.sources
               ensures s.sources != {} && s.settled == s.sources && a in s.authors ==> a in s'.winners || a in s'.absent
      {
        DeltaForAuthor(s, removed, events, a);
      }
    case Settle(revision, relay) =>
      AllSettledIs(s');
      if s.settled == s.sources { assert s.settled + {relay} == s.settled || relay !in s.sources; }
  }

  lemma {:induction false} RunsAreSound(trace: seq<State>, ops: seq<Op>, i: nat)
    requires Run(trace, ops) && i < |trace|
    ensures Inv(trace[i])
  {
    if i > 0 {
      RunsAreSound(trace, ops, i - 1);
      StepPreserves(trace[i - 1], ops[i - 1]);
    }
  }

  ghost predicate Reroots(s: State, op: Op) {
    op.Reroot? && op.authors != s.authors
  }

  ghost predicate Mentions(updates: set<Update>, a: PublicKey) {
    exists u :: u in updates && u.author == a
  }

  lemma SettledStays(s: State, op: Op)
    requires Inv(s) && s.settled == s.sources && !Reroots(s, op)
    ensures var s' := Next(s, op); s'.settled == s'.sources == s.sources && s'.authors == s.authors
  {
    if op.Settle? && op.relay in s.sources { assert s.settled + {op.relay} == s.settled; }
  }

  /** Once a nonempty source set has settled, it stays settled and every wanted author is exactly one of
      winner-held and reported absent, at this and every later moment until the authors change. */
  lemma {:induction false} SettledAuthorsArePartitioned(trace: seq<State>, ops: seq<Op>, i: nat, j: nat, a: PublicKey)
    requires Run(trace, ops) && i <= j < |trace| && a in trace[i].authors
    requires trace[i].sources != {} && trace[i].settled == trace[i].sources
    requires forall k | i <= k < j :: !Reroots(trace[k], ops[k])
    ensures trace[j].settled == trace[j].sources == trace[i].sources && trace[j].authors == trace[i].authors
    ensures (a in trace[j].winners) != (a in trace[j].absent)
    decreases j
  {
    hide Next, Reroots;
    if i < j {
      SettledAuthorsArePartitioned(trace, ops, i, j - 1, a);
      RunsAreSound(trace, ops, j - 1);
      SettledStays(trace[j - 1], ops[j - 1]);
    }
    RunsAreSound(trace, ops, j);
  }

  // ---- absence is earned -------------------------------------------------

  /** The relay has settled the revision in force at `i`, and the authors have not changed since. */
  ghost predicate Answered(trace: seq<State>, ops: seq<Op>, i: nat, relay: Relay)
    requires |trace| == |ops| + 1 && i < |trace|
  {
    exists k :: 0 <= k < i && ops[k] == Settle(trace[i].revision, relay) && trace[k].revision == trace[i].revision
                && forall m | k <= m < i :: !Reroots(trace[m], ops[m])
  }

  /** A source counts as settled only by a settlement that cited the revision in force. */
  lemma {:induction false} SettledSourcesAnswered(trace: seq<State>, ops: seq<Op>, i: nat, relay: Relay)
    requires Run(trace, ops) && i < |trace| && relay in trace[i].settled
    ensures Answered(trace, ops, i, relay)
  {
    var before, op := trace[i - 1], ops[i - 1];
    assert trace[i] == Next(before, op);
    if relay in before.settled {
      assert !Reroots(before, op) && trace[i].revision == before.revision;
      SettledSourcesAnswered(trace, ops, i - 1, relay);
      var k :| 0 <= k < i - 1 && ops[k] == Settle(before.revision, relay) && trace[k].revision == before.revision
               && forall m | k <= m < i - 1 :: !Reroots(trace[m], ops[m]);
      assert ops[k] == Settle(trace[i].revision, relay);
    } else {
      assert ops[i - 1] == Settle(trace[i].revision, relay);
    }
  }

  /** `Absent(a)` is reported only for a wanted author without a winner, and only when every
      configured source has settled the current revision since the authors last changed. */
  lemma AbsenceIsEarned(parse: UrlParser, trace: seq<State>, ops: seq<Op>, i: nat, a: PublicKey)
    requires Run(trace, ops) && i < |ops| && Absent(a) in Emitted(parse, trace[i], ops[i])
    ensures a in trace[i + 1].authors && a !in trace[i + 1].winners && a !in trace[i].absent && a in trace[i + 1].absent
    ensures forall relay | relay in trace[i].sources :: Answered(trace, ops, i + 1, relay)
  {
    RunsAreSound(trace, ops, i);
    RunsAreSound(trace, ops, i + 1);
    AbsenceMarks(parse, trace[i], ops[i], a);
    assert trace[i + 1].settled == trace[i + 1].sources;
    forall relay | relay in trace[i].sources ensures Answered(trace, ops, i + 1, relay) {
      SettledSourcesAnswered(trace, ops, i + 1, relay);
    }
  }

  lemma AbsenceMarks(parse: UrlParser, s: State, op: Op, a: PublicKey)
    requires Inv(s) && Absent(a) in Emitted(parse, s, op)
    ensures a !in s.absent && a in Next(s, op).absent && a in s.authors && !op.Reroot?
      && Next(s, op).sources == s.sources
  {
    if op.Delta? {
      var winners := Next(s, op).winners;
      var b :| b in Changed(s, op.removed, op.events) && Said(parse, s, winners, b) == Some(Absent(a));
      DeltaForAuthor(s, op.removed, op.events, a);
    }
  }

  ghost predicate Revived(parse: UrlParser, s: State, op: Op, a: PublicKey) {
    Reroots(s, op) || exists routes :: Present(a, routes) in Emitted(parse, s, op)
  }

  lemma FoundAreAnnounced(parse: UrlParser, s: State, op: Op, a: PublicKey)
    requires op.Delta?
    ensures
      var winners := Next(s, op).winners;
      a in Changed(s, op.removed, op.events) && a in winners ==>
        Present(a, RoutesOf(parse, winners[a].tags)) in Emitted(parse, s, op)
  {
    var winners := Next(s, op).winners;
    if a in Changed(s, op.removed, op.events) && a in winners {
      assert Said(parse, s, winners, a) == Some(Present(a, RoutesOf(parse, winners[a].tags)));
    }
  }

  lemma DeltaSays(parse: UrlParser, s: State, op: Op, u: Update)
    requires op.Delta? && u in Emitted(parse, s, op)
    ensures u.author in Changed(s, op.removed, op.events) && Said(parse, s, Next(s, op).winners, u.author) == Some(u)
  {
    hide Offered, Taken, RoutesOf;
    var winners := Next(s, op).winners;
    var b :| b in Changed(s, op.removed, op.events) && Said(parse, s, winners, b) == Some(u);
    SaidOf(parse, s, winners, b);
  }

  lemma AbsenceSticks(parse: UrlParser, s: State, op: Op, a: PublicKey)
    requires Inv(s) && a in s.absent && !Revived(parse, s, op, a)
    ensures a in Next(s, op).absent && !Mentions(Emitted(parse, s, op), a)
  {
    if op.Delta? {
      DeltaForAuthor(s, op.removed, op.events, a);
      FoundAreAnnounced(parse, s, op, a);
      forall u | u in Emitted(parse, s, op) ensures u.author != a {
        DeltaSays(parse, s, op, u);
      }
    }
  }

  /** Absence is never reported twice for an author without a `Present` or a reroot in between. */
  lemma {:induction false} AbsenceIsNotRepeated(parse: UrlParser, trace: seq<State>, ops: seq<Op>, i: nat, j: nat,
                                                a: PublicKey)
    requires Run(trace, ops) && i < j < |ops|
    requires Absent(a) in Emitted(parse, trace[i], ops[i]) && Absent(a) in Emitted(parse, trace[j], ops[j])
    ensures exists k :: i < k < j && Revived(parse, trace[k], ops[k], a)
  {
    RunsAreSound(trace, ops, i);
    AbsenceMarks(parse, trace[i], ops[i], a);
    if forall k | i < k < j :: !Revived(parse, trace[k], ops[k], a) {
      AbsenceLasts(parse, trace, ops, i + 1, j, a);
      RunsAreSound(trace, ops, j);
      AbsenceMarks(parse, trace[j], ops[j], a);
    }
  }

  lemma {:induction false} AbsenceLasts(parse: UrlParser, trace: seq<State>, ops: seq<Op>, i: nat, j: nat, a: PublicKey)
    requires Run(trace, ops) && i <= j < |trace| && a in trace[i].absent
    requires forall k | i <= k < j :: !Revived(parse, trace[k], ops[k], a)
    ensures a in trace[j].absent
    decreases j
  {
    hide Next, Inv, Revived;
    if i < j {
      AbsenceLasts(parse, trace, ops, i, j - 1, a);
      RunsAreSound(trace, ops, j - 1);
      AbsenceSticks(parse, trace[j - 1], ops[j - 1], a);
    }
  }

  // ---- the last word -----------------------------------------------------

  lemma WinnersAreAnnounced(parse: UrlParser, s: State, op: Op, a: PublicKey)
    requires Inv(s) && a in Next(s, op).winners
    ensures
      var s' := Next(s, op);
      || Present(a, RoutesOf(parse, s'.winners[a].tags)) in Emitted(parse, s, op)
      || (a in s.winners && s.winners[a] == s'.winners[a] && !Mentions(Emitted(parse, s, op), a))
  {
    if op.Delta? {
      DeltaForAuthor(s, op.removed, op.events, a);
      FoundAreAnnounced(parse, s, op, a);
      if a !in Changed(s, op.removed, op.events) {
        forall u | u in Emitted(parse, s, op) ensures u.author != a {
          DeltaSays(parse, s, op, u);
        }
      }
    }
  }

  /** Step `k` announced the routes, and nothing was said of the author from there to `i`. */
  ghost predicate LastSaid(parse: UrlParser, trace: seq<State>, ops: seq<Op>, a: PublicKey, routes: Routes, k: nat,
                           i: nat)
    requires i <= |ops| < |trace|
  {
    k < i && Present(a, routes) in Emitted(parse, trace[k], ops[k])
    && forall m | k < m < i :: !Mentions(Emitted(parse, trace[m], ops[m]), a)
  }

  /** The last update about an author who has a winner carries exactly that winner's routes. */
  lemma {:induction false} LastWordIsTheWinner(parse: UrlParser, trace: seq<State>, ops: seq<Op>, i: nat, a: PublicKey)
    requires Run(trace, ops) && i < |trace| && a in trace[i].winners
    ensures exists k :: LastSaid(parse, trace, ops, a, RoutesOf(parse, trace[i].winners[a].tags), k, i)
  {
    assert i > 0;
    hide Inv, Next, Emitted, RoutesOf, Mentions;
    RunsAreSound(trace, ops, i - 1);
    var s, op := trace[i - 1], ops[i - 1];
    assert trace[i] == Next(s, op);
    WinnersAreAnnounced(parse, s, op, a);
    var routes := RoutesOf(parse, trace[i].winners[a].tags);
    if Present(a, routes) in Emitted(parse, s, op) {
      assert LastSaid(parse, trace, ops, a, routes, i - 1, i);
    } else {
      LastWordIsTheWinner(parse, trace, ops, i - 1, a);
      var k :| LastSaid(parse, trace, ops, a, routes, k, i - 1);
      assert LastSaid(parse, trace, ops, a, routes, k, i);
    }
  }

  /** With no configured source no question is ever asked, and yet removing a winner reports absence. */
  lemma AbsenceWithoutASource(parse: UrlParser, e: Event)
    requires e.kind == RELAY_LIST_KIND
    ensures
      var asked := Next(Fresh({}), Reroot({e.pubkey}));
      var s := Next(asked, Delta({}, [e]));
      && Absent(e.pubkey) in Emitted(parse, s, Delta({e.id}, []))
      && forall revision, relay :: !Counts(s, revision, relay)
  {
    var asked := Next(Fresh({}), Reroot({e.pubkey}));
    var s := Next(asked, Delta({}, [e]));
    assert [e][..0] == [];
    assert Offered(Kept(asked.winners, {}), asked.authors, [e]) == map[e.pubkey := e];
    var winners := Offered(Kept(s.winners, {e.id}), s.authors, []);
    assert Said(parse, s, winners, e.pubkey) == Some(Absent(e.pubkey));
  }

  // ---- earned exactly with a source --------------------------------------

  /** A run over these sources whose step i reports an absence. */
  ghost predicate ReportsAbsence(parse: UrlParser, sources: set<Relay>, trace: seq<State>, ops: seq<Op>, i: nat) {
    && Run(trace, ops) && trace[0].sources == sources && i < |ops|
    && exists a :: Absent(a) in Emitted(parse, trace[i], ops[i])
  }

  ghost predicate CountedAt(trace: seq<State>, ops: seq<Op>, k: nat) {
    k < |ops| < |trace| && ops[k].Settle? && Counts(trace[k], ops[k].revision, ops[k].relay)
  }

  /** Every absence of every run over these sources comes with or after a settlement that counted. */
  ghost predicate AbsencesAreEarned(parse: UrlParser, sources: set<Relay>) {
    forall trace, ops, i | ReportsAbsence(parse, sources, trace, ops, i) ::
      exists k: nat :: k <= i && CountedAt(trace, ops, k)
  }

  lemma {:induction false} SourcesStay(trace: seq<State>, ops: seq<Op>, i: nat)
    requires Run(trace, ops) && i < |trace|
    ensures trace[i].sources == trace[0].sources
  {
    if i > 0 {
      SourcesStay(trace, ops, i - 1);
      StepKeepsSources(trace[i - 1], ops[i - 1]);
    }
  }

  lemma StepKeepsSources(s: State, op: Op)
    ensures Next(s, op).sources == s.sources
  {
  }

  lemma EarnedWithASource(parse: UrlParser, sources: set<Relay>, trace: seq<State>, ops: seq<Op>, i: nat, relay: Relay)
    requires ReportsAbsence(parse, sources, trace, ops, i) && relay in sources
    ensures exists k: nat :: k <= i && CountedAt(trace, ops, k)
  {
    var a :| Absent(a) in Emitted(parse, trace[i], ops[i]);
    SourcesStay(trace, ops, i);
    AbsenceIsEarned(parse, trace, ops, i, a);
    assert Answered(trace, ops, i + 1, relay);
    var k: nat :| k < i + 1 && ops[k] == Settle(trace[i + 1].revision, relay)
                  && trace[k].revision == trace[i + 1].revision;
    SourcesStay(trace, ops, k);
    assert CountedAt(trace, ops, k);
  }

  lemma UnearnedWithoutASource(parse: UrlParser)
    ensures !AbsencesAreEarned(parse, {})
  {
    var e := Event(0, 0, 0, RELAY_LIST_KIND, []);
    AbsenceWithoutASource(parse, e);
    hide Emitted, Next, Counts, Fresh;
    var ops := [Reroot({e.pubkey}), Delta({}, [e]), Delta({e.id}, [])];
    var asked := Next(Fresh({}), ops[0]);
    var s := Next(asked, ops[1]);
    var trace := [Fresh({}), asked, s, Next(s, ops[2])];
    assert Run(trace, ops) by { hide Kept, Offered; }
    hide Run;
    assert Absent(e.pubkey) in Emitted(parse, trace[2], ops[2]);
    assert ReportsAbsence(parse, {}, trace, ops, 2);
    forall k: nat ensures !CountedAt(trace, ops, k) {}
  }

  /** Absence is earned by a settlement in every run exactly when there is a source to ask. */
  lemma AbsenceIsEarnedExactly(parse: UrlParser, sources: set<Relay>)
    ensures AbsencesAreEarned(parse, sources) <==> sources != {}
  {
    hide ReportsAbsence, CountedAt;
    if relay :| relay in sources {
      forall trace, ops, i | ReportsAbsence(parse, sources, trace, ops, i)
        ensures exists k: nat :: k <= i && CountedAt(trace, ops, k)
      {
        EarnedWithASource(parse, sources, trace, ops, i, relay);
      }
    } else {
      UnearnedWithoutASource(parse);
    }
  }
}
