/** Every step keeps the invariant, so every run has it; and what that means for callers,
    for cached copies and for permits. */
module AcquisitionSafety {
  import opened Wrappers
  import opened RelayInformation
  import opened AcquisitionTable
  import opened Acquisition

  // ---- one lemma per kind of step ----------------------------------------

  predicate Holds(v: Caller) {
    v.Registering? && v.permit
  }

  function PermitOf(callers: map<nat, Caller>, c: nat): int {
    if c in callers && Holds(callers[c]) then 1 else 0
  }

  lemma HoldersCount(callers: map<nat, Caller>, c: nat, v: Caller)
    ensures |PermitHolders(callers[c := v])| == |PermitHolders(callers)| - PermitOf(callers, c)
      + (if Holds(v) then 1 else 0)
  {
    HoldersAfterPut(callers, c, v);
    var before := PermitHolders(callers);
    if c in before {
      assert before - {c} + {c} == before;
    } else {
      assert before - {c} == before;
    }
  }

  lemma CallersServed(s: System, c: nat, v: Caller, free: int)
    requires Owned(s) && Served(s) && Dropped(s)
    requires v.Waiting? ==> InFlight(s.table, v.relay, v.generation)
    requires v.Cancelling? ==> Orphaned(s, v.generation)
    ensures Served(s.(callers := s.callers[c := v], free := free))
      && Dropped(s.(callers := s.callers[c := v], free := free))
  {
    var s' := s.(callers := s.callers[c := v], free := free);
    assert forall r, g :: Attended(s, r, g) ==> Attended(s', r, g);
    assert forall g :: Orphaned(s, g) ==> Orphaned(s', g);
  }

  /** A caller moves on without subscribing: nothing but the permit count can change. */
  lemma CallerMoves(s: System, c: nat, v: Caller, free: int)
    requires Inv(s) && !v.Waiting? && free >= 0 && (v.Cancelling? ==> Orphaned(s, v.generation))
    requires free + (if Holds(v) then 1 else 0) == s.free + PermitOf(s.callers, c)
    ensures Inv(s.(callers := s.callers[c := v], free := free))
  {
    HoldersCount(s.callers, c, v);
    var s' := s.(callers := s.callers[c := v], free := free);
    CallersServed(s, c, v, free);
    hide Served, Dropped, Faithful, Sound;
    assert Faithful(s') by { FaithfulIsOfTasks(s, s'); }
  }

  lemma CallerJoins(s: System, c: nat, relay: Relay, g: nat, free: int)
    requires Inv(s) && InFlight(s.table, relay, g) && free == s.free + PermitOf(s.callers, c)
    ensures Inv(s.(callers := s.callers[c := Waiting(relay, g)], free := free))
  {
    HoldersCount(s.callers, c, Waiting(relay, g));
    var s' := s.(callers := s.callers[c := Waiting(relay, g)], free := free);
    CallersServed(s, c, Waiting(relay, g), free);
    hide Served, Dropped, Faithful, Sound;
    assert Faithful(s') by { FaithfulIsOfTasks(s, s'); }
  }

  /** The callers stay as they are, and what they rest on stays with them. */
  ghost predicate Onward(s: System, s': System) {
    && s'.callers == s.callers
    && (forall r, h | Attended(s, r, h) :: Attended(s', r, h))
    && (forall h | Orphaned(s, h) :: Orphaned(s', h))
    && (forall h | Spoken(s, h) || h in s.closing :: Spoken(s', h) || h in s'.closing)
    && (forall h | h in s'.cancelled && h !in s.cancelled :: h in s'.closing || Orphaned(s, h))
    && (forall h | h in s'.cancelled && Spoken(s', h) :: s'.tasks[h].channel == Some(Err(ServiceClosed)))
  }

  lemma OnwardKeepsServed(s: System, s': System)
    requires Served(s) && Dropped(s) && Onward(s, s')
    ensures Served(s') && Dropped(s')
  {
    hide Attended;
  }

  /** The table changes under the same flights, none of whose cached copies changes. */
  ghost predicate SameFlights(t: Table, t': Table) {
    && t'.open == t.open && t'.nextFlight == t.nextFlight
    && FlightRelays(t'.entries) == FlightRelays(t.entries)
    && (forall r, g :: InFlight(t', r, g) <==> InFlight(t, r, g))
    && (forall r, g | InFlight(t, r, g) && r in t'.entries :: t'.entries[r].cached == t.entries[r].cached)
  }

  lemma QuietOnward(s: System, t': Table)
    requires Owned(s) && Served(s) && SameFlights(s.table, t')
    ensures Onward(s, s.(table := t')) && Owned(s.(table := t'))
  {
  }

  lemma QuietTable(s: System, t': Table)
    requires Inv(s) && Sound(t') && SameFlights(s.table, t')
    ensures Inv(s.(table := t'))
  {
    hide Sound, Owned, Piped, Served, Dropped, Onward;
    QuietOnward(s, t');
    OnwardKeepsServed(s, s.(table := t'));
    assert Piped(s.(table := t')) by { PipedIsOfTasks(s, s.(table := t')); }
  }

  lemma PipedIsOfTasks(s: System, s': System)
    requires Piped(s) && s'.tasks == s.tasks && s'.cancelled == s.cancelled
    ensures Piped(s')
  {
  }

  lemma RegisterIsQuiet(t: Table, relay: Relay, policy: CachePolicy, permit: bool, now: nat)
    requires Sound(t) && !Register(t, relay, policy, permit, now).1.Installed?
    ensures SameFlights(t, Register(t, relay, policy, permit, now).0)
  {
    FlightsAfterRegister(t, relay, policy, permit, now);
  }

  lemma ReadIsQuiet(t: Table, relay: Relay, now: nat)
    requires Sound(t)
    ensures SameFlights(t, ReadCached(t, relay, now).0)
  {
  }

  /** The flight at `relay` leaves the table; every other flight keeps its cached copy. */
  ghost predicate Loses(t: Table, t': Table, relay: Relay, g: nat) {
    && t'.open == t.open && t'.nextFlight == t.nextFlight && InFlight(t, relay, g)
    && relay in FlightRelays(t.entries) && FlightRelays(t'.entries) == FlightRelays(t.entries) - {relay}
    && (forall r, h :: InFlight(t', r, h) <==> InFlight(t, r, h) && r != relay)
    && (forall r, h | InFlight(t, r, h) && r in t'.entries && r != relay :: t'.entries[r].cached == t.entries[r].cached)
  }

  lemma CancelLoses(t: Table, relay: Relay, g: nat)
    requires Sound(t) && InFlight(t, relay, g)
    ensures Loses(t, Cancel(t, relay, g, 0).0, relay, g)
  {
    FlightsAfterCancel(t, relay, g, 0);
  }

  lemma LandLoses(t: Table, relay: Relay, g: nat, result: Outcome, now: nat, victim: Option<Relay>)
    requires Sound(t) && InFlight(t, relay, g) && VictimFor(t, relay, result.Ok?, victim)
    ensures Loses(t, Complete(t, relay, g, result, now, victim).0, relay, g)
  {
    var t' := Complete(t, relay, g, result, now, victim).0;
    FlightsAfterComplete(t, relay, g, result, now, victim);
    forall r, h ensures InFlight(t', r, h) <==> InFlight(t, r, h) && r != relay {
      if r != relay { CompleteTouchesOnlyTheVictim(t, relay, g, result, now, victim, r); }
      else { assert relay !in FlightRelays(t'.entries); }
    }
    forall r, h | InFlight(t, r, h) && r in t'.entries && r != relay
      ensures t'.entries[r].cached == t.entries[r].cached
    {
      CompleteTouchesOnlyTheVictim(t, relay, g, result, now, victim, r);
    }
  }

  lemma CancelOnward(s: System, t': Table, relay: Relay, g: nat, free: int)
    requires Owned(s) && Served(s) && Loses(s.table, t', relay, g) && Subscribers(s.callers, g) == {}
    ensures Owned(s.(table := t', free := free)) && Orphaned(s.(table := t', free := free), g)
    ensures Served(s.(table := t', free := free))
    ensures Dropped(s) ==> Dropped(s.(table := t', free := free))
  {
    var s' := s.(table := t', free := free);
    forall c | c in s.callers && s.callers[c].Waiting?
      ensures s.callers[c].generation != g && Attended(s', s.callers[c].relay, s.callers[c].generation)
    {
      assert c !in Subscribers(s.callers, g);
      assert Attended(s, s.callers[c].relay, s.callers[c].generation);
    }
  }

  /** Nobody subscribes to g, and its flight leaves. */
  lemma CancelPreserves(s: System, t': Table, relay: Relay, g: nat)
    requires Inv(s) && Sound(t') && Loses(s.table, t', relay, g) && Subscribers(s.callers, g) == {}
    ensures Inv(s.(table := t', free := s.free + 1)) && Orphaned(s.(table := t', free := s.free + 1), g)
  {
    hide Sound, Owned, Piped, Served, Dropped, Orphaned, Faithful;
    var s' := s.(table := t', free := s.free + 1);
    CancelOnward(s, t', relay, g, s.free + 1);
    FaithfulAfterLoss(s, s', relay, g);
    PipedIsOfTasks(s, s');
  }

  lemma LandingCount(tasks: map<nat, Task>, g: nat, task: Task)
    requires g in tasks
    ensures |Landing(tasks[g := task])| == |Landing(tasks)|
            - (if LandingAt(tasks[g].worker) then 1 else 0) + (if LandingAt(task.worker) then 1 else 0)
  {
    LandingAfterPut(tasks, g, task);
  }

  lemma WorkerOnward(s: System, g: nat, w: Worker)
    requires Owned(s) && Piped(s) && Served(s) && g in s.tasks && Running(s.tasks[g].worker) && (Running(w) || w.Ended?)
    ensures Onward(s, WithWorker(s, g, w)) && Piped(WithWorker(s, g, w))
  {
  }

  lemma WorkerOwned(s: System, g: nat, w: Worker)
    requires Owned(s) && g in s.tasks && Running(s.tasks[g].worker)
    requires (Running(w) && w.relay == s.tasks[g].worker.relay)
             || (w.Ended? && !InFlight(s.table, s.tasks[g].worker.relay, g))
    ensures Owned(WithWorker(s, g, w))
  {
  }

  /** A worker moves on outside the landing stretch, under an unchanged table. */
  lemma WorkerMoves(s: System, g: nat, w: Worker)
    requires Inv(s) && g in s.tasks && Running(s.tasks[g].worker) && TrueTo(s.table, g, w)
    requires (Running(w) && w.relay == s.tasks[g].worker.relay)
             || (w.Ended? && !InFlight(s.table, s.tasks[g].worker.relay, g))
    ensures Inv(WithWorker(s, g, w))
  {
    hide Sound, Owned, Piped, Served, Dropped, Onward, TrueTo;
    var s' := WithWorker(s, g, w);
    LandingCount(s.tasks, g, s'.tasks[g]);
    WorkerOnward(s, g, w);
    WorkerOwned(s, g, w);
    OnwardKeepsServed(s, s');
  }

  lemma FaithfulAfterLoss(s: System, s': System, relay: Relay, g: nat)
    requires Faithful(s) && Loses(s.table, s'.table, relay, g)
    requires forall h | h in s'.tasks ::
      h in s.tasks && (s'.tasks[h].worker == s.tasks[h].worker || s'.tasks[h].worker.Delivering?)
    ensures Faithful(s')
  {
    forall h | h in s'.tasks ensures TrueTo(s'.table, h, s'.tasks[h].worker) {
      assert TrueTo(s.table, h, s.tasks[h].worker);
    }
  }

  lemma LandOwned(s: System, t': Table, g: nat, w: Worker)
    requires Owned(s) && g in s.tasks && Running(s.tasks[g].worker) && Loses(s.table, t', s.tasks[g].worker.relay, g)
    requires Piped(s) && w.Delivering?
    ensures Owned(WithWorker(s.(table := t'), g, w)) && Piped(WithWorker(s.(table := t'), g, w))
  {
  }

  /** A worker lands: it takes its flight out of the table and is about to publish. */
  lemma LandPreserves(s: System, t': Table, g: nat, delivered: Outcome)
    requires Inv(s) && g in s.tasks && Running(s.tasks[g].worker)
    requires Sound(t') && Loses(s.table, t', s.tasks[g].worker.relay, g)
    ensures Inv(WithWorker(s.(table := t'), g, Delivering(s.tasks[g].worker.relay, delivered)))
  {
    hide Sound, Owned, Piped, Served, Dropped, Faithful, Onward;
    var w := Delivering(s.tasks[g].worker.relay, delivered);
    var s' := WithWorker(s.(table := t'), g, w);
    LandingCount(s.tasks, g, s'.tasks[g]);
    FaithfulAfterLoss(s, s', w.relay, g);
    LandOwned(s, t', g, w);
    LandServed(s, t', g, w);
    OnwardKeepsServed(s, s');
  }

  lemma LandServed(s: System, t': Table, g: nat, w: Worker)
    requires Served(s) && Owned(s) && w.Delivering?
    requires g in s.tasks && Running(s.tasks[g].worker) && Loses(s.table, t', s.tasks[g].worker.relay, g)
    ensures Onward(s, WithWorker(s.(table := t'), g, w))
  {
  }

  lemma PublishOnward(s: System, g: nat)
    requires Owned(s) && Piped(s) && Served(s) && g in s.tasks && s.tasks[g].worker.Delivering?
    ensures Onward(s, Apply(s, Publish(g))) && Owned(Apply(s, Publish(g))) && Piped(Apply(s, Publish(g)))
  {
  }

  lemma PublishPreserves(s: System, g: nat)
    requires Inv(s) && g in s.tasks && s.tasks[g].worker.Delivering?
    ensures Inv(Apply(s, Publish(g)))
  {
    hide Sound, Owned, Piped, Served, Dropped, Onward;
    var s' := Apply(s, Publish(g));
    LandingCount(s.tasks, g, s'.tasks[g]);
    PublishOnward(s, g);
    OnwardKeepsServed(s, s');
  }

  lemma ReleaseOnward(s: System, g: nat)
    requires Owned(s) && Piped(s) && Served(s) && g in s.tasks && s.tasks[g].worker.Sent?
    ensures Onward(s, Apply(s, Release(g))) && Owned(Apply(s, Release(g))) && Piped(Apply(s, Release(g)))
  {
  }

  lemma ReleasePreserves(s: System, g: nat)
    requires Inv(s) && g in s.tasks && s.tasks[g].worker.Sent?
    ensures Inv(Apply(s, Release(g)))
  {
    hide Sound, Owned, Piped, Served, Dropped, Onward;
    var s' := Apply(s, Release(g));
    LandingCount(s.tasks, g, s'.tasks[g]);
    ReleaseOnward(s, g);
    OnwardKeepsServed(s, s');
  }

  /** A fresh flight appears at `relay`; every other flight keeps its cached copy. */
  ghost predicate Gains(t: Table, t': Table, relay: Relay) {
    && t.open && t'.open && t'.nextFlight == t.nextFlight + 1
    && relay !in FlightRelays(t.entries) && FlightRelays(t'.entries) == FlightRelays(t.entries) + {relay}
    && (forall r, g :: InFlight(t', r, g) <==> InFlight(t, r, g) || (r == relay && g == t.nextFlight))
    && (forall r, g | InFlight(t, r, g) && r in t'.entries :: t'.entries[r].cached == t.entries[r].cached)
  }

  lemma RegisterGains(t: Table, relay: Relay, policy: CachePolicy, now: nat)
    requires Sound(t) && Register(t, relay, policy, true, now).1.Installed?
    ensures Gains(t, Register(t, relay, policy, true, now).0, relay)
  {
    FlightsAfterRegister(t, relay, policy, true, now);
  }

  function AfterInstall(s: System, t': Table, c: nat, relay: Relay): System {
    var g := s.table.nextFlight;
    s.(table := t', callers := s.callers[c := Waiting(relay, g)], tasks := s.tasks[g := Task(Spawned(relay), None)])
  }

  lemma InstallFaithful(s: System, t': Table, c: nat, relay: Relay)
    requires Issued(s) && Faithful(s) && Gains(s.table, t', relay)
    ensures Faithful(AfterInstall(s, t', c, relay))
  {
    var s' := AfterInstall(s, t', c, relay);
    forall h | h in s'.tasks ensures TrueTo(t', h, s'.tasks[h].worker) {
      if h != s.table.nextFlight { assert TrueTo(s.table, h, s.tasks[h].worker); }
    }
  }

  lemma InstallOwned(s: System, t': Table, c: nat, relay: Relay)
    requires Issued(s) && Owned(s) && Piped(s) && Gains(s.table, t', relay)
    ensures Issued(AfterInstall(s, t', c, relay)) && Owned(AfterInstall(s, t', c, relay))
    ensures Piped(AfterInstall(s, t', c, relay))
  {
  }

  lemma InstallServed(s: System, t': Table, c: nat, relay: Relay)
    requires Issued(s) && Served(s) && Gains(s.table, t', relay)
    ensures Served(AfterInstall(s, t', c, relay))
  {
    var s' := AfterInstall(s, t', c, relay);
    forall d | d in s'.callers && s'.callers[d].Waiting?
      ensures Attended(s', s'.callers[d].relay, s'.callers[d].generation)
    {
      if d != c { assert Attended(s, s.callers[d].relay, s.callers[d].generation); }
    }
  }

  lemma InstallDropped(s: System, t': Table, c: nat, relay: Relay)
    requires Issued(s) && Dropped(s) && Gains(s.table, t', relay)
    ensures Dropped(AfterInstall(s, t', c, relay))
  {
    var s' := AfterInstall(s, t', c, relay);
    forall d | d in s'.callers && s'.callers[d].Cancelling? ensures Orphaned(s', s'.callers[d].generation) {
      assert Orphaned(s, s.callers[d].generation);
    }
  }

  lemma InstallPermits(s: System, t': Table, c: nat, relay: Relay)
    requires s.table.nextFlight !in s.tasks && c in s.callers && Holds(s.callers[c])
    requires relay !in FlightRelays(s.table.entries)
      && FlightRelays(t'.entries) == FlightRelays(s.table.entries) + {relay}
    ensures Permits(AfterInstall(s, t', c, relay)) == Permits(s)
  {
    var g := s.table.nextFlight;
    HoldersCount(s.callers, c, Waiting(relay, g));
    LandingAfterPut(s.tasks, g, Task(Spawned(relay), None));
    assert Landing(s.tasks) - {g} == Landing(s.tasks);
  }

  lemma InstallPreserves(s: System, t': Table, c: nat, relay: Relay)
    requires Inv(s) && Sound(t') && Gains(s.table, t', relay) && c in s.callers && Holds(s.callers[c])
    ensures Inv(AfterInstall(s, t', c, relay))
  {
    hide Sound, Owned, Piped, Served, Dropped, Faithful;
    InstallPermits(s, t', c, relay);
    InstallFaithful(s, t', c, relay);
    InstallOwned(s, t', c, relay);
    InstallServed(s, t', c, relay);
    InstallDropped(s, t', c, relay);
  }

  lemma GenerationsAreOwned(s: System)
    requires Owned(s) && Sound(s.table) && s.table.open
    ensures forall g | g in Generations(s.table.entries) ::
              Silent(s, g) && Running(s.tasks[g].worker) && g !in s.cancelled
    ensures |Generations(s.table.entries)| == |FlightRelays(s.table.entries)|
  {
    var entries := s.table.entries;
    forall g | g in Generations(entries) ensures Silent(s, g) && Running(s.tasks[g].worker) && g !in s.cancelled {
      var r :| r in entries && entries[r].flight == Some(g);
      assert InFlight(s.table, r, g);
    }
    forall r, q | r in FlightRelays(entries) && q in FlightRelays(entries) && entries[r].flight == entries[q].flight
      ensures r == q
    {
      var g := entries[r].flight.value;
      assert InFlight(s.table, r, g) && InFlight(s.table, q, g);
    }
    DistinctGenerations(entries, FlightRelays(entries));
    assert Generations(entries) == set r | r in FlightRelays(entries) :: entries[r].flight.value;
  }

  lemma GenerationsAreFlights(t: Table, g: nat)
    requires t.open
    ensures g in Generations(t.entries) <==> exists r :: InFlight(t, r, g)
  {
    if g in Generations(t.entries) {
      var r :| r in t.entries && t.entries[r].flight == Some(g);
      assert InFlight(t, r, g);
    }
  }

  lemma CloseTableOnward(s: System, closed: System)
    requires Sound(s.table) && Owned(s) && Served(s)
    requires closed == s.(table := Closed(s.table), closing := s.closing + Generations(s.table.entries))
    ensures Onward(s, closed)
  {
    ClosedTableIsSound(s.table);
    hide Generations;
    forall r, g | InFlight(s.table, r, g) ensures g in closed.closing {
      GenerationsAreFlights(s.table, g);
    }
    forall h | Orphaned(s, h) ensures Orphaned(closed, h) {
      if s.table.open { GenerationsAreFlights(s.table, h); }
    }
  }

  lemma CloseTableOwned(s: System, closed: System)
    requires Owned(s) && Sound(s.table)
    requires closed == s.(table := Closed(s.table), closing := s.closing + Generations(s.table.entries))
    ensures Owned(closed)
  {
    if s.table.open { GenerationsAreOwned(s); }
  }

  lemma ClosedTableIsSound(t: Table)
    requires Sound(t)
    ensures Sound(Closed(t)) && FlightRelays(Closed(t).entries) == {} && (!t.open ==> FlightRelays(t.entries) == {})
    ensures !t.open ==> Generations(t.entries) == {}
    ensures forall r, g :: !InFlight(Closed(t), r, g)
  {
    assert CachedRelays(Closed(t).entries) == {};
  }

  lemma CloseTablePreserves(s: System)
    requires Inv(s)
    ensures Inv(s.(table := Closed(s.table), closing := s.closing + Generations(s.table.entries)))
  {
    hide Sound, Owned, Piped, Served, Dropped, Onward;
    var closed := s.(table := Closed(s.table), closing := s.closing + Generations(s.table.entries));
    CloseTableOnward(s, closed);
    CloseTableOwned(s, closed);
    OnwardKeepsServed(s, closed);
    PipedIsOfTasks(s, closed);
    ClosedTableIsSound(s.table);
    if s.table.open {
      GenerationsAreOwned(s);
      assert s.closing == {} by { OpenTableHasNothingClosing(s); }
      assert closed.closing == Generations(s.table.entries);
    } else {
      assert closed.closing == s.closing;
    }
  }

  lemma OpenTableHasNothingClosing(s: System)
    requires Owned(s) && s.table.open
    ensures s.closing == {}
  {
  }

  lemma CloseSignalPreserves(s: System, g: nat)
    requires Inv(s) && Enabled(s, CloseSignal(g))
    ensures Inv(Apply(s, CloseSignal(g)))
  {
    hide Sound, Faithful, Served, Dropped;
    var s' := Apply(s, CloseSignal(g));
    assert Onward(s, s') by { CloseSignalOnward(s, g); }
    hide Onward;
    OnwardKeepsServed(s, s');
    assert Faithful(s') by { FaithfulIsOfTasks(s, s'); }
  }

  lemma CloseSignalOnward(s: System, g: nat)
    requires Owned(s) && Served(s) && Enabled(s, CloseSignal(g))
    ensures Onward(s, Apply(s, CloseSignal(g)))
  {
  }

  lemma FaithfulIsOfTasks(s: System, s': System)
    requires Faithful(s) && s'.tasks == s.tasks && s'.table == s.table
    ensures Faithful(s')
  {
  }

  lemma CloseSendOnward(s: System, g: nat)
    requires Owned(s) && Piped(s) && Served(s) && Enabled(s, CloseSend(g))
    ensures Onward(s, Apply(s, CloseSend(g))) && Owned(Apply(s, CloseSend(g))) && Piped(Apply(s, CloseSend(g)))
  {
  }

  lemma CloseSendPreserves(s: System, g: nat)
    requires Inv(s) && Enabled(s, CloseSend(g))
    ensures Inv(Apply(s, CloseSend(g)))
  {
    hide Sound, Owned, Piped, Served, Dropped, Onward;
    var s' := Apply(s, CloseSend(g));
    LandingCount(s.tasks, g, s'.tasks[g]);
    CloseSendOnward(s, g);
    OnwardKeepsServed(s, s');
  }

  lemma SignalOnward(s: System, g: nat)
    requires Owned(s) && Piped(s) && Served(s) && Orphaned(s, g)
    ensures Onward(s, s.(cancelled := s.cancelled + {g})) && Owned(s.(cancelled := s.cancelled + {g}))
    ensures Piped(s.(cancelled := s.cancelled + {g}))
  {
  }

  /** The fetch nobody awaits is told to stop. */
  lemma SignalPreserves(s: System, c: nat)
    requires Inv(s) && Enabled(s, SignalStep(c))
    ensures Inv(s.(cancelled := s.cancelled + {s.callers[c].generation}))
  {
    assert Orphaned(s, s.callers[c].generation);
    hide Sound, Owned, Piped, Served, Dropped, Faithful, Onward, Orphaned;
    var s' := s.(cancelled := s.cancelled + {s.callers[c].generation});
    SignalOnward(s, s.callers[c].generation);
    OnwardKeepsServed(s, s');
    FaithfulIsOfTasks(s, s');
  }

  lemma RegistrationFacts(t: Table, relay: Relay, policy: CachePolicy, permit: bool, now: nat)
    requires Sound(t)
    ensures var (t', r) := Register(t, relay, policy, permit, now);
            && Sound(t')
            && (r.Installed? ==> permit && r.generation == t.nextFlight && Gains(t, t', relay))
            && (!r.Installed? ==> SameFlights(t, t'))
            && (r.Joined? ==> InFlight(t', relay, r.generation))
  {
    RegisterKeepsSound(t, relay, policy, permit, now);
    if Register(t, relay, policy, permit, now).1.Installed? {
      RegisterGains(t, relay, policy, now);
    } else {
      RegisterIsQuiet(t, relay, policy, permit, now);
    }
  }

  lemma RegisterPreserves(s: System, c: nat, now: nat)
    requires Inv(s) && c in s.callers && s.callers[c].Registering?
    ensures Inv(AfterRegister(s, c, now))
  {
    hide Register, Sound, Issued, Owned, Piped, Served, Dropped, Faithful, Permits, Gains, SameFlights;
    var Registering(relay, policy, permit) := s.callers[c];
    var (table, registration) := Register(s.table, relay, policy, permit, now);
    RegistrationFacts(s.table, relay, policy, permit, now);
    SeatPreserves(s, c, table, registration);
  }

  lemma SeatPreserves(s: System, c: nat, table: Table, registration: Registration)
    requires Inv(s) && c in s.callers && s.callers[c].Registering? && Sound(table)
    requires registration.Installed? ==>
               s.callers[c].permit && registration.generation == s.table.nextFlight
                 && Gains(s.table, table, s.callers[c].relay)
    requires !registration.Installed? ==> SameFlights(s.table, table)
    requires registration.Joined? ==> InFlight(table, s.callers[c].relay, registration.generation)
    ensures
      var Registering(relay, policy, permit) := s.callers[c];
      var seated := s.(table := table, callers := s.callers[c := Seated(registration, relay, policy)]);
      Inv(if registration.Installed?
          then seated.(tasks := s.tasks[registration.generation := Task(Spawned(relay), None)])
          else seated.(free := s.free + if permit then 1 else 0))
  {
    hide Sound, Issued, Owned, Piped, Served, Dropped, Faithful, Gains, SameFlights;
    var Registering(relay, policy, permit) := s.callers[c];
    if registration.Installed? {
      InstallPreserves(s, table, c, relay);
    } else {
      QuietTable(s, table);
      var mid := s.(table := table);
      var free := s.free + if permit then 1 else 0;
      if registration.Joined? {
        CallerJoins(mid, c, relay, registration.generation, free);
      } else {
        CallerMoves(mid, c, Seated(registration, relay, policy), free);
      }
    }
  }

  lemma CancelStepPreserves(s: System, c: nat)
    requires Inv(s) && c in s.callers && s.callers[c].Dropping?
    ensures Inv(AfterCancel(s, c))
  {
    hide Sound, Issued, Owned, Piped, Served, Dropped, Faithful, Permits, Loses, Orphaned;
    var Dropping(relay, g) := s.callers[c];
    var receivers := |Subscribers(s.callers, g)|;
    var (table, went) := Cancel(s.table, relay, g, receivers);
    var mid := s;
    if went {
      CancelKeepsSound(s.table, relay, g, receivers);
      CancelLoses(s.table, relay, g);
      CancelPreserves(s, table, relay, g);
      mid := s.(table := table, free := s.free + 1);
    }
    CallerMoves(mid, c, if went then Cancelling(g) else Abandoned, mid.free);
  }

  lemma LandStepPreserves(s: System, g: nat, now: nat, victim: Option<Relay>)
    requires Inv(s) && Enabled(s, Land(g, now, victim))
    ensures Inv(AfterLand(s, g, now, victim))
  {
    var w := s.tasks[g].worker;
    if InFlight(s.table, w.relay, g) {
      CompleteKeepsSound(s.table, w.relay, g, w.result, now, victim);
      LandLoses(s.table, w.relay, g, w.result, now, victim);
      var (table, delivered) := Complete(s.table, w.relay, g, w.result, now, victim);
      LandPreserves(s, table, g, delivered.value);
    } else {
      WorkerMoves(s, g, Ended);
    }
  }

  lemma StepPreserves(s: System, step: Step)
    requires Inv(s) && Enabled(s, step)
    ensures Inv(Apply(s, step))
  {
    hide Sound, Issued, Owned, Piped, Served, Dropped, Faithful, Permits;
    match step
    case Call(c, relay, policy) => CallerMoves(s, c, Registering(relay, policy, false), s.free);
    case RegisterStep(c, now) => RegisterPreserves(s, c, now);
    case Admit(c) =>
      if s.slotsClosed {
        CallerMoves(s, c, Returned(Err(ServiceClosed)), s.free);
      } else {
        CallerMoves(s, c, Registering(s.callers[c].relay, s.callers[c].policy, true), s.free - 1);
      }
    case AbandonAdmission(c) => CallerMoves(s, c, Abandoned, s.free);
    case Receive(c) => CallerMoves(s, c, Apply(s, step).callers[c], s.free);
    case DropWait(c) => CallerMoves(s, c, Dropping(s.callers[c].relay, s.callers[c].generation), s.free);
    case CancelStep(c) => CancelStepPreserves(s, c);
    case SignalStep(c) =>
      SignalPreserves(s, c);
      CallerMoves(s.(cancelled := s.cancelled + {s.callers[c].generation}), c, Abandoned, s.free);
    case ReadStep(relay, now) =>
      ReadCachedKeepsSound(s.table, relay, now);
      ReadIsQuiet(s.table, relay, now);
      QuietTable(s, ReadCached(s.table, relay, now).0);
    case Start(g) => StartPreserves(s, g);
    case Answer(g, answer, inherited, now) => AnswerPreserves(s, g, answer, inherited, now);
    case Land(g, now, victim) => LandStepPreserves(s, g, now, victim);
    case Publish(g) => PublishPreserves(s, g);
    case Release(g) => ReleasePreserves(s, g);
    case CloseSlots => CloseSlotsPreserves(s);
    case CloseTable => CloseTablePreserves(s);
    case CloseSignal(g) => CloseSignalPreserves(s, g);
    case CloseSend(g) => CloseSendPreserves(s, g);
  }

  lemma StartPreserves(s: System, g: nat)
    requires Inv(s) && g in s.tasks && s.tasks[g].worker.Spawned?
    ensures Inv(AfterStart(s, g))
  {
    var relay := s.tasks[g].worker.relay;
    if InFlight(s.table, relay, g) {
      WorkerMoves(s, g, Fetching(relay, s.table.entries[relay].cached));
    } else {
      WorkerMoves(s, g, Ended);
    }
  }

  lemma AnswerPreserves(s: System, g: nat, answer: Result<Fetched, Error>, inherited: Option<nat>, now: nat)
    requires Inv(s) && g in s.tasks && s.tasks[g].worker.Fetching?
    ensures Inv(AfterAnswer(s, g, answer, inherited, now))
  {
    WorkerMoves(s, g, AfterAnswer(s, g, answer, inherited, now).tasks[g].worker);
  }

  lemma CloseSlotsPreserves(s: System)
    requires Inv(s)
    ensures Inv(s.(slotsClosed := true))
  {
    var s' := s.(slotsClosed := true);
    assert forall r, h :: Attended(s, r, h) ==> Attended(s', r, h);
    assert Owned(s') && Served(s');
  }
}
