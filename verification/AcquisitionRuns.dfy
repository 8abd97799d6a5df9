/** What the NIP-11 service promises over whole runs, whatever the interleaving. */
module AcquisitionRuns {
  import opened Wrappers
  import opened RelayInformation
  import opened AcquisitionTable
  import opened Acquisition
  import opened AcquisitionSafety

  /** A run of the service from its empty start: `trace[i + 1]` is what `steps[i]` makes of `trace[i]`. */
  ghost predicate Run(trace: seq<System>, steps: seq<Step>) {
    && |trace| == |steps| + 1
    && trace[0].table.capacity > 0 && trace[0] == Initial(trace[0].table.capacity)
    && forall i | 0 <= i < |steps| :: Enabled(trace[i], steps[i]) && trace[i + 1] == Apply(trace[i], steps[i])
  }

  lemma {:induction false} RunsAreSafe(trace: seq<System>, steps: seq<Step>, i: nat)
    requires Run(trace, steps) && i < |trace|
    ensures Inv(trace[i])
  {
    if i == 0 {
      InitialInv(trace[0].table.capacity);
    } else {
      RunsAreSafe(trace, steps, i - 1);
      StepPreserves(trace[i - 1], steps[i - 1]);
    }
  }

  // ---- completion --------------------------------------------------------

  lemma ChannelsSpeakOnce(s: System, step: Step, g: nat)
    requires Inv(s) && Enabled(s, step) && Spoken(s, g)
    ensures var s' := Apply(s, step); Spoken(s', g) && s'.tasks[g].channel == s.tasks[g].channel
  {
    if step.RegisterStep? {
      var Registering(relay, policy, permit) := s.callers[step.caller];
      InstallsNext(s.table, relay, policy, permit, step.now);
    }
    hide Register, Cancel, Complete, ReadCached, Closed, Sound, Served, Dropped, Faithful, Permits, InFlight;
  }

  lemma InstallsNext(t: Table, relay: Relay, policy: CachePolicy, permit: bool, now: nat)
    ensures Register(t, relay, policy, permit, now).1.Installed? ==>
      Register(t, relay, policy, permit, now).1.generation == t.nextFlight
  {
  }

  /** Each generation delivers at most one terminal result: once its channel has a value, no
      later step of any run replaces it. */
  lemma {:induction false} OneTerminalResult(trace: seq<System>, steps: seq<Step>, i: nat, j: nat, g: nat)
    requires Run(trace, steps) && i <= j < |trace| && Spoken(trace[i], g)
    ensures Spoken(trace[j], g) && trace[j].tasks[g].channel == trace[i].tasks[g].channel
    decreases j
  {
    hide Inv, Enabled, Apply;
    if i < j {
      OneTerminalResult(trace, steps, i, j - 1, g);
      RunsAreSafe(trace, steps, j - 1);
      ChannelsSpeakOnce(trace[j - 1], steps[j - 1], g);
    }
  }

  /** The watch sender of g is gone: no flight, no landing worker and no closer holds it. */
  ghost predicate SenderDropped(s: System, g: nat) {
    && (forall r :: !InFlight(s.table, r, g))
    && g !in s.closing && (g in s.tasks ==> !LandingAt(s.tasks[g].worker))
  }

  /** A subscribed caller never loses its completion: if its sender is gone the terminal value is
      already there, and if its fetch was told to stop the service closed, so that either the refusal
      is there or `close` still holds the flight and is about to send it. */
  lemma SubscribersAreServed(trace: seq<System>, steps: seq<Step>, i: nat, c: nat)
    requires Run(trace, steps) && i < |trace|
    requires c in trace[i].callers && trace[i].callers[c].Waiting?
    ensures var s := trace[i];
            var g := s.callers[c].generation;
            && (SenderDropped(s, g) ==> Spoken(s, g))
            && (g in s.cancelled ==> g in s.closing || (Spoken(s, g) && s.tasks[g].channel == Some(Err(ServiceClosed))))
  {
    RunsAreSafe(trace, steps, i);
  }

  lemma {:induction false} SomeVictim(entries: map<Relay, Entry>, relay: Relay, among: set<Relay>)
    returns (victim: Option<Relay>)
    ensures victim.None? ==> forall r | r in among :: !Evictable(entries, relay, r)
    ensures victim.Some? ==> Evictable(entries, relay, victim.value)
    ensures victim.Some? ==> forall r | r in among && Evictable(entries, relay, r) ::
                               entries[victim.value].lastAccess <= entries[r].lastAccess
  {
    victim := None;
    if among != {} {
      var one :| one in among;
      victim := SomeVictim(entries, relay, among - {one});
      if Evictable(entries, relay, one)
         && (victim.None? || entries[one].lastAccess < entries[victim.value].lastAccess) {
        victim := Some(one);
      }
    }
  }

  lemma LandIsPossible(s: System, g: nat) returns (step: Step)
    requires g in s.tasks && s.tasks[g].worker.Finished?
    ensures step.Land? && step.generation == g && Enabled(s, step)
  {
    var w := s.tasks[g].worker;
    var victim: Option<Relay> := None;
    if InFlight(s.table, w.relay, g) {
      var entries := Landed(s.table, w.relay);
      if w.result.Ok? && NeedsRoom(entries, w.relay, s.table.capacity) {
        victim := SomeVictim(entries, w.relay, entries.Keys);
      }
    }
    step := Land(g, 0, victim);
  }

  lemma LateLandingEnds(s: System, g: nat, now: nat, victim: Option<Relay>)
    requires Enabled(s, Land(g, now, victim)) && !InFlight(s.table, s.tasks[g].worker.relay, g)
    ensures Apply(s, Land(g, now, victim)) == WithWorker(s, g, Ended)
  {
  }

  // ---- cached copies -----------------------------------------------------

  /** A landing that takes effect for `relay`. */
  ghost predicate LandsAt(s: System, step: Step, relay: Relay) {
    && step.Land? && step.generation in s.tasks && s.tasks[step.generation].worker.Finished?
    && s.tasks[step.generation].worker.relay == relay && InFlight(s.table, relay, step.generation)
  }

  /** A table that changed without completing a flight: copies as before, flights new or as before. */
  ghost predicate KeepsCopies(t: Table, t': Table) {
    && t.nextFlight <= t'.nextFlight
    && (forall r :: Copy(t', r) == Copy(t, r))
    && (forall r, g: nat | InFlight(t', r, g) && g < t.nextFlight :: InFlight(t, r, g))
  }

  lemma RegisterKeepsCopies(t: Table, relay: Relay, policy: CachePolicy, permit: bool, now: nat)
    ensures KeepsCopies(t, Register(t, relay, policy, permit, now).0)
  {
  }

  lemma CancelKeepsCopies(t: Table, relay: Relay, g: nat, receivers: nat)
    ensures KeepsCopies(t, Cancel(t, relay, g, receivers).0)
  {
  }

  lemma ReadKeepsCopies(t: Table, relay: Relay, now: nat)
    ensures KeepsCopies(t, ReadCached(t, relay, now).0)
  {
  }

  lemma CopiesOutsideLanding(s: System, step: Step)
    requires Enabled(s, step) && !step.CloseTable? && !step.Land?
    ensures KeepsCopies(s.table, Apply(s, step).table)
  {
    hide Register, Cancel, ReadCached, KeepsCopies, Subscribers;
    assert KeepsCopies(s.table, s.table) by { SameTableKeepsCopies(s.table); }
    match step
    case RegisterStep(c, now) =>
      RegisterKeepsCopies(s.table, s.callers[c].relay, s.callers[c].policy, s.callers[c].permit, now);
    case CancelStep(c) =>
      CancelKeepsCopies(s.table, s.callers[c].relay, s.callers[c].generation,
        |Subscribers(s.callers, s.callers[c].generation)|);
    case ReadStep(relay, now) => ReadKeepsCopies(s.table, relay, now);
    case _ =>
  }

  lemma SameTableKeepsCopies(t: Table)
    ensures KeepsCopies(t, t)
  {
  }

  /** Only an effective landing or the closing of the table can change a cached copy. */
  lemma CopiesChangeOnlyByLanding(s: System, step: Step, relay: Relay)
    requires Inv(s) && Enabled(s, step) && !step.CloseTable?
    requires forall r :: !LandsAt(s, step, r)
    ensures Copy(Apply(s, step).table, relay) == Copy(s.table, relay)
  {
    hide Inv, Apply;
    if step.Land? {
      assert !LandsAt(s, step, s.tasks[step.generation].worker.relay);
      LateLandingEnds(s, step.generation, step.now, step.victim);
    } else {
      CopiesOutsideLanding(s, step);
    }
  }

  /** What a landing does to the copy of the relay it lands for. */
  lemma LandedCopy(s: System, step: Step, relay: Relay)
    requires Inv(s) && Enabled(s, step) && LandsAt(s, step, relay)
    ensures
      var w := s.tasks[step.generation].worker;
      var copy, copy' := Copy(s.table, relay), Copy(Apply(s, step).table, relay);
      && copy == w.cached
      && (w.result.Ok? ==>
            copy' == Some(Cached(w.result.value, w.result.value.freshUntil)) || (copy.None? && copy'.None?))
      && (w.result.Err? && copy.None? ==> copy'.None?)
      && (w.result.Err? && copy.Some? && !AllowsStale(w.result.error) ==> copy' == copy)
      && (w.result.Err? && copy.Some? && AllowsStale(w.result.error) ==>
            copy' == Some(Cached(StaleCopy(copy.value.snapshot, w.result.error, step.now), 0)))
  {
    var w := s.tasks[step.generation].worker;
    assert TrueTo(s.table, step.generation, w);
  }

  /** A payload is replaced only by the body of a 200 answer; a 304 lands on exactly the copy
      its worker set out with, and keeps that copy's payload. */
  lemma PayloadsChangeOnlyByBody(s: System, step: Step, relay: Relay)
    requires Inv(s) && Enabled(s, step)
    requires Copy(s.table, relay).Some? && Copy(Apply(s, step).table, relay).Some?
    ensures
      var before := Copy(s.table, relay).value.snapshot.payload;
      var after := Copy(Apply(s, step).table, relay).value.snapshot.payload;
      if LandsAt(s, step, relay) && s.tasks[step.generation].worker.result.Ok? then
        var w := s.tasks[step.generation].worker;
        && w.cached == Copy(s.table, relay) && w.answer.Ok?
        && after == if w.answer.value.body.Some? then Payload(relay, w.answer.value.body.value.rawJson) else before
      else after == before
  {
    if LandsAt(s, step, relay) {
      LandedCopy(s, step, relay);
      assert TrueTo(s.table, step.generation, s.tasks[step.generation].worker);
    } else if other :| LandsAt(s, step, other) {
      var w := s.tasks[step.generation].worker;
      CompleteTouchesOnlyTheVictim(s.table, other, step.generation, w.result, step.now, step.victim, relay);
    } else if !step.CloseTable? {
      CopiesChangeOnlyByLanding(s, step, relay);
    }
  }

  lemma LandingKeepsOtherFlights(s: System, step: Step, relay: Relay, g: nat)
    requires Inv(s) && Enabled(s, step) && step.Land?
    requires InFlight(Apply(s, step).table, relay, g)
    ensures InFlight(s.table, relay, g) && Copy(Apply(s, step).table, relay) == Copy(s.table, relay)
  {
    var w := s.tasks[step.generation].worker;
    if LandsAt(s, step, w.relay) {
      LandLoses(s.table, w.relay, step.generation, w.result, step.now, step.victim);
    } else {
      LateLandingEnds(s, step.generation, step.now, step.victim);
    }
  }

  /** A flight that was already issued and is still installed was installed before the step,
      over the same copy. */
  lemma FlightsKeepTheirCopy(s: System, step: Step, relay: Relay, g: nat)
    requires Inv(s) && Enabled(s, step) && g < s.table.nextFlight
    requires InFlight(Apply(s, step).table, relay, g)
    ensures InFlight(s.table, relay, g) && Copy(Apply(s, step).table, relay) == Copy(s.table, relay)
  {
    hide Inv;
    if step.Land? {
      LandingKeepsOtherFlights(s, step, relay, g);
    } else if !step.CloseTable? {
      hide Enabled, Apply;
      CopiesOutsideLanding(s, step);
    }
  }

  /** From the installation of a generation to its completion or cancellation the cached copy of
      its relay does not change, whatever else the service does in between: at any earlier moment i
      by which g was issued, its flight was up over the very copy it is up over at j. */
  lemma {:induction false} CopyIsStableUnderFlight(trace: seq<System>, steps: seq<Step>, i: nat, j: nat, relay: Relay,
                                                   g: nat)
    requires Run(trace, steps) && i <= j < |trace|
    requires g < trace[i].table.nextFlight && InFlight(trace[j].table, relay, g)
    ensures InFlight(trace[i].table, relay, g) && Copy(trace[i].table, relay) == Copy(trace[j].table, relay)
    decreases j
  {
    hide Inv, Enabled, Apply;
    if i < j {
      RunsAreSafe(trace, steps, j - 1);
      IssuedStayIssued(trace, steps, i, j - 1);
      FlightsKeepTheirCopy(trace[j - 1], steps[j - 1], relay, g);
      CopyIsStableUnderFlight(trace, steps, i, j - 1, relay, g);
    }
  }

  /** The conditional headers a generation set out with are those of the very copy its answer lands on,
      so a 304 revalidates exactly the document whose validators were sent. */
  lemma RevalidationIsOfTheCopySent(trace: seq<System>, steps: seq<Step>, i: nat, j: nat, relay: Relay, g: nat)
    requires Run(trace, steps) && i < j < |steps| && steps[i] == Start(g)
    requires steps[j].Land? && steps[j].generation == g && LandsAt(trace[j], steps[j], relay)
    ensures
      var sent, landed := Copy(trace[i].table, relay), Copy(trace[j].table, relay);
      && trace[i + 1].tasks[g].worker == Fetching(relay, sent) && trace[j].tasks[g].worker.cached == landed
      && Validators(sent) == Validators(landed) && sent == landed
  {
    RunsAreSafe(trace, steps, i);
    RunsAreSafe(trace, steps, j);
    CopyIsStableUnderFlight(trace, steps, i, j, relay, g);
    LandedCopy(trace[j], steps[j], relay);
    StartReadsTheCopy(trace[i], g, relay);
  }

  lemma StartReadsTheCopy(s: System, g: nat, relay: Relay)
    requires Inv(s) && Enabled(s, Start(g)) && InFlight(s.table, relay, g)
    ensures g in Apply(s, Start(g)).tasks && Apply(s, Start(g)).tasks[g].worker == Fetching(relay, Copy(s.table, relay))
  {
  }

  lemma IssuesOnly(s: System, step: Step)
    requires Enabled(s, step)
    ensures s.table.nextFlight <= Apply(s, step).table.nextFlight
  {
    if !step.Land? && !step.CloseTable? {
      hide Apply;
      CopiesOutsideLanding(s, step);
    }
  }

  lemma {:induction false} IssuedStayIssued(trace: seq<System>, steps: seq<Step>, i: nat, j: nat)
    requires Run(trace, steps) && i <= j < |trace|
    ensures trace[i].table.nextFlight <= trace[j].table.nextFlight
    decreases j
  {
    hide Enabled, Apply;
    if i < j {
      IssuedStayIssued(trace, steps, i, j - 1);
      IssuesOnly(trace[j - 1], steps[j - 1]);
    }
  }

  // ---- late workers ------------------------------------------------------

  /** The flight of g is out of the table, and its worker is still at it or has ended. */
  ghost predicate Superseded(s: System, g: nat) {
    && g in s.tasks && (Running(s.tasks[g].worker) || s.tasks[g].worker.Ended?)
    && forall r :: !InFlight(s.table, r, g)
  }

  predicate WorksFor(step: Step, g: nat) {
    (step.Start? || step.Answer? || step.Land?) && step.generation == g
  }

  lemma LateStep(s: System, step: Step, g: nat)
    requires Enabled(s, step) && Superseded(s, g) && WorksFor(step, g)
    ensures
      var s' := Apply(s, step);
      g in s'.tasks && s' == WithWorker(s, g, s'.tasks[g].worker)
      && (Running(s'.tasks[g].worker) || s'.tasks[g].worker.Ended?)
  {
    if step.Land? { LateLandingEnds(s, g, step.now, step.victim); }
  }

  lemma OtherSteps(s: System, step: Step, g: nat)
    requires Inv(s) && Enabled(s, step) && Superseded(s, g) && !WorksFor(step, g)
    ensures g in Apply(s, step).tasks && Apply(s, step).tasks[g].worker == s.tasks[g].worker
  {
    if step.RegisterStep? {
      var Registering(relay, policy, permit) := s.callers[step.caller];
      InstallsNext(s.table, relay, policy, permit, step.now);
    }
    hide Register, Cancel, Complete, ReadCached, Closed, Sound, Owned, Piped, Served, Dropped, Faithful, Permits,
      InFlight;
  }

  lemma SupersededStays(s: System, step: Step, g: nat)
    requires Inv(s) && Enabled(s, step) && Superseded(s, g)
    ensures Superseded(Apply(s, step), g)
  {
    assert g < s.table.nextFlight;
    hide Inv, Apply, Enabled, InFlight;
    forall r ensures !InFlight(Apply(s, step).table, r, g) {
      if InFlight(Apply(s, step).table, r, g) { FlightsKeepTheirCopy(s, step, r, g); }
    }
    if WorksFor(step, g) { LateStep(s, step, g); } else { OtherSteps(s, step, g); }
  }

  /** Once a generation's flight is superseded, cancelled or closed away, its worker never delivers again, and
      whatever it still does changes nothing but itself. */
  lemma {:induction false} LateWorkersChangeNothing(trace: seq<System>, steps: seq<Step>, i: nat, j: nat, g: nat)
    requires Run(trace, steps) && i <= j < |steps| && Superseded(trace[i], g)
    ensures Superseded(trace[j], g) && steps[j] != Publish(g) && steps[j] != Release(g)
    ensures WorksFor(steps[j], g) ==>
      g in trace[j + 1].tasks && trace[j + 1] == WithWorker(trace[j], g, trace[j + 1].tasks[g].worker)
    decreases j
  {
    hide Inv, Apply, Superseded;
    if i < j {
      LateWorkersChangeNothing(trace, steps, i, j - 1, g);
      RunsAreSafe(trace, steps, j - 1);
      SupersededStays(trace[j - 1], steps[j - 1], g);
    }
    LateIsSilent(trace[j], steps[j], g);
    if WorksFor(steps[j], g) { LateStep(trace[j], steps[j], g); }
  }

  lemma LateIsSilent(s: System, step: Step, g: nat)
    requires Enabled(s, step) && Superseded(s, g)
    ensures step != Publish(g) && step != Release(g)
  {
  }

  // ---- bounds, eviction, staleness ---------------------------------------

  /** Eight permits exist at every moment, however they are held, so at most eight flights are
      up; and the cache is within its bound. */
  lemma PermitsAndCacheAreBounded(trace: seq<System>, steps: seq<Step>, i: nat)
    requires Run(trace, steps) && i < |trace|
    ensures
      var s := trace[i];
      && s.free + |PermitHolders(s.callers)| + |FlightRelays(s.table.entries)| + |Landing(s.tasks)| + |s.closing| == 8
      && 0 <= s.free && |FlightRelays(s.table.entries)| + |Landing(s.tasks)| + |s.closing| <= 8
      && |CachedRelays(s.table.entries)| <= s.table.capacity
      && (forall r, q, g | InFlight(s.table, r, g) && InFlight(s.table, q, g) :: r == q)
  {
    RunsAreSafe(trace, steps, i);
  }

  /** A copy leaves an open table only to make room for another relay's completion: the table
      is full, the copy is idle, and no idle copy was accessed less recently. */
  lemma OnlyTheLeastRecentIdleCopyIsEvicted(s: System, step: Step, relay: Relay)
    requires Inv(s) && Enabled(s, step) && !step.CloseTable?
    requires Copy(s.table, relay).Some? && Copy(Apply(s, step).table, relay).None?
    ensures s.table.entries[relay].flight.None? && |CachedRelays(s.table.entries)| == s.table.capacity
    ensures exists other :: LandsAt(s, step, other) && other != relay && Copy(s.table, other).None?
    ensures forall r | r in s.table.entries && r != relay && s.table.entries[r].cached.Some?
      && s.table.entries[r].flight.None?
              :: s.table.entries[relay].lastAccess < s.table.entries[r].lastAccess
  {
    if other :| LandsAt(s, step, other) {
      if other == relay {
        LandedCopy(s, step, relay);
      } else {
        var w := s.tasks[step.generation].worker;
        CompleteTouchesOnlyTheVictim(s.table, other, step.generation, w.result, step.now, step.victim, relay);
      }
    } else {
      CopiesChangeOnlyByLanding(s, step, relay);
    }
  }

  /** No copy that a `UseCache` read could be answered from, at any time. */
  predicate Unservable(t: Table, relay: Relay) {
    Copy(t, relay).None? || Copy(t, relay).value.freshUntil == 0
  }

  lemma FailedRefreshKeepsStaleCopy(s: System, step: Step, relay: Relay)
    requires Inv(s) && Enabled(s, step) && LandsAt(s, step, relay) && Copy(s.table, relay).Some?
    requires s.tasks[step.generation].worker.result.Err? && AllowsStale(s.tasks[step.generation].worker.result.error)
    ensures
      var s' := Apply(s, step);
      var copy' := Copy(s'.table, relay);
      && copy'.Some? && Unservable(s'.table, relay)
      && copy'.value.snapshot.payload == Copy(s.table, relay).value.snapshot.payload
      && copy'.value.snapshot.lastError == Some(s.tasks[step.generation].worker.result.error)
      && s'.tasks[step.generation].worker == Delivering(relay, Ok(copy'.value.snapshot))
  {
    LandedCopy(s, step, relay);
  }

  ghost predicate Succeeds(s: System, step: Step, relay: Relay) {
    LandsAt(s, step, relay) && s.tasks[step.generation].worker.result.Ok?
  }

  lemma UnservableSticks(s: System, step: Step, relay: Relay)
    requires Inv(s) && Enabled(s, step) && Unservable(s.table, relay) && !Succeeds(s, step, relay)
    ensures Unservable(Apply(s, step).table, relay)
  {
    if LandsAt(s, step, relay) {
      LandedCopy(s, step, relay);
    } else if other :| LandsAt(s, step, other) {
      var w := s.tasks[step.generation].worker;
      CompleteTouchesOnlyTheVictim(s.table, other, step.generation, w.result, step.now, step.victim, relay);
    } else if !step.CloseTable? {
      CopiesChangeOnlyByLanding(s, step, relay);
    }
  }

  /** After a failed refresh that kept a stale copy, no `UseCache` read is answered from the cache
      until a later fetch of that relay succeeds. */
  lemma {:induction false} StaleUntilSuccess(trace: seq<System>, steps: seq<Step>, i: nat, j: nat, relay: Relay,
                                             now: nat)
    requires Run(trace, steps) && i <= j < |trace| && Unservable(trace[i].table, relay)
    requires forall k | i <= k < j :: !Succeeds(trace[k], steps[k], relay)
    ensures Unservable(trace[j].table, relay)
    ensures !Register(trace[j].table, relay, UseCache, false, now).1.Ready?
    ensures !Register(trace[j].table, relay, UseCache, true, now).1.Ready?
    decreases j
  {
    hide Inv, Enabled, Apply, Succeeds;
    if i < j {
      StaleUntilSuccess(trace, steps, i, j - 1, relay, now);
      RunsAreSafe(trace, steps, j - 1);
      UnservableSticks(trace[j - 1], steps[j - 1], relay);
    }
  }
}
