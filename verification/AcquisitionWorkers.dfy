/** How many fetches of the NIP-11 service are live at once: the permits bound the flights, not the workers. */
module AcquisitionWorkers {
  import opened Wrappers
  import opened RelayInformation
  import opened AcquisitionTable
  import opened Acquisition
  import opened AcquisitionSafety
  import opened AcquisitionRuns

  // ---- every live worker is accounted for --------------------------------

  ghost predicate BeingCancelled(s: System, g: nat) {
    exists c :: c in s.callers && s.callers[c] == Cancelling(g)
  }

  /** Its fetch was told to stop, or is about to be. */
  ghost predicate Stray(s: System, g: nat) {
    g in s.cancelled || BeingCancelled(s, g)
  }

  /** A live worker has its flight in the table, or with `close`, or is a stray. */
  ghost predicate Accounted(s: System, g: nat, w: Worker) {
    Running(w) ==> InFlight(s.table, w.relay, g) || g in s.closing || Stray(s, g)
  }

  ghost predicate Tracked(s: System) {
    forall g | g in s.tasks :: Accounted(s, g, s.tasks[g].worker)
  }

  /** What was accounted for stays so. */
  ghost predicate KeepsAccount(s: System, s': System) {
    && s.cancelled <= s'.cancelled
    && (forall g | g in s.closing :: g in s'.closing || g in s'.cancelled)
    && (forall g | BeingCancelled(s, g) :: Stray(s', g))
    && (forall r, g | InFlight(s.table, r, g) ::
          InFlight(s'.table, r, g) || g in s'.closing || Stray(s', g)
            || (g in s'.tasks && !Running(s'.tasks[g].worker)))
    && (forall g | g in s'.tasks && Running(s'.tasks[g].worker) ::
          || InFlight(s'.table, s'.tasks[g].worker.relay, g)
          || (g in s.tasks && Running(s.tasks[g].worker) && s'.tasks[g].worker.relay == s.tasks[g].worker.relay))
  }

  lemma AccountKept(s: System, s': System)
    requires Tracked(s) && KeepsAccount(s, s')
    ensures Tracked(s')
  {
    hide BeingCancelled;
    forall g | g in s'.tasks ensures Accounted(s', g, s'.tasks[g].worker) {
      if g in s.tasks { assert Accounted(s, g, s.tasks[g].worker); }
    }
  }

  lemma CallerKeepsAccount(s: System, c: nat, v: Caller, s': System)
    requires s' == s.(callers := s.callers[c := v], free := s'.free)
    requires c in s.callers && s.callers[c].Cancelling? ==> s.callers[c].generation in s.cancelled
    ensures KeepsAccount(s, s')
  {
    forall g | BeingCancelled(s, g) ensures Stray(s', g) {
      var d :| d in s.callers && s.callers[d] == Cancelling(g);
      if d != c { assert d in s'.callers && s'.callers[d] == Cancelling(g); }
    }
  }

  lemma SeatKeepsAccount(s: System, c: nat, v: Caller, s': System, relay: Relay)
    requires c in s.callers && !s.callers[c].Cancelling? && s'.callers == s.callers[c := v]
    requires s'.closing == s.closing && s'.cancelled == s.cancelled
    requires
      || (SameFlights(s.table, s'.table) && s'.tasks == s.tasks)
      || (Gains(s.table, s'.table, relay) && s'.tasks == s.tasks[s.table.nextFlight := Task(Spawned(relay), None)])
    ensures KeepsAccount(s, s')
  {
    forall g | BeingCancelled(s, g) ensures Stray(s', g) {
      var d :| d in s.callers && s.callers[d] == Cancelling(g);
      assert d in s'.callers && s'.callers[d] == Cancelling(g);
    }
  }

  lemma RegisterKeepsAccount(s: System, c: nat, now: nat)
    requires Sound(s.table) && c in s.callers && s.callers[c].Registering?
    ensures KeepsAccount(s, AfterRegister(s, c, now))
  {
    hide Register, Gains, SameFlights, KeepsAccount, Sound;
    var Registering(relay, policy, permit) := s.callers[c];
    RegistrationFacts(s.table, relay, policy, permit, now);
    var s' := AfterRegister(s, c, now);
    SeatKeepsAccount(s, c, s'.callers[c], s', relay);
  }

  lemma LossKeepsAccount(s: System, c: nat, relay: Relay, g: nat, s': System)
    requires Loses(s.table, s'.table, relay, g) && s'.tasks == s.tasks && s'.closing == s.closing
      && s'.cancelled == s.cancelled
    requires c in s.callers && !s.callers[c].Cancelling? && s'.callers == s.callers[c := Cancelling(g)]
    requires forall r, q, h | InFlight(s.table, r, h) && InFlight(s.table, q, h) :: r == q
    ensures KeepsAccount(s, s')
  {
    assert c in s'.callers && s'.callers[c] == Cancelling(g);
    forall h | BeingCancelled(s, h) ensures Stray(s', h) {
      var d :| d in s.callers && s.callers[d] == Cancelling(h);
      assert d in s'.callers && s'.callers[d] == Cancelling(h);
    }
  }

  lemma CancelKeepsAccount(s: System, c: nat)
    requires Inv(s) && c in s.callers && s.callers[c].Dropping?
    ensures KeepsAccount(s, AfterCancel(s, c))
  {
    var Dropping(relay, g) := s.callers[c];
    var receivers := |Subscribers(s.callers, g)|;
    var (table, went) := Cancel(s.table, relay, g, receivers);
    OneRelayEach(s);
    hide Inv, KeepsAccount;
    if went {
      assert Loses(s.table, table, relay, g) by { CancelLoses(s.table, relay, g); }
      LossKeepsAccount(s, c, relay, g, AfterCancel(s, c));
    } else {
      CallerKeepsAccount(s, c, Abandoned, AfterCancel(s, c));
    }
  }

  lemma OneRelayEach(s: System)
    requires Inv(s)
    ensures Sound(s.table)
    ensures forall r, q, h | InFlight(s.table, r, h) && InFlight(s.table, q, h) :: r == q
  {
  }

  lemma WorkerKeepsAccount(s: System, g: nat, t: Task, s': System)
    requires g in s.tasks && s' == s.(tasks := s.tasks[g := t], free := s'.free)
    requires Running(t.worker) ==> Running(s.tasks[g].worker) && t.worker.relay == s.tasks[g].worker.relay
    ensures KeepsAccount(s, s')
  {
    forall h | BeingCancelled(s, h) ensures Stray(s', h) {
      assert BeingCancelled(s', h);
    }
  }

  lemma LandKeepsAccount(s: System, g: nat, now: nat, victim: Option<Relay>)
    requires Inv(s) && Enabled(s, Land(g, now, victim))
    ensures KeepsAccount(s, AfterLand(s, g, now, victim))
  {
    OneRelayEach(s);
    hide Inv, KeepsAccount, Sound;
    var w := s.tasks[g].worker;
    var s' := AfterLand(s, g, now, victim);
    if InFlight(s.table, w.relay, g) {
      LandLoses(s.table, w.relay, g, w.result, now, victim);
      LandedKeepsAccount(s, w.relay, g, s');
    } else {
      WorkerKeepsAccount(s, g, s'.tasks[g], s');
    }
  }

  lemma LandedKeepsAccount(s: System, relay: Relay, g: nat, s': System)
    requires Loses(s.table, s'.table, relay, g) && s'.callers == s.callers && s'.closing == s.closing
      && s'.cancelled == s.cancelled
    requires g in s'.tasks && g in s.tasks && s'.tasks == s.tasks[g := s'.tasks[g]] && !Running(s'.tasks[g].worker)
    requires forall r, q, h | InFlight(s.table, r, h) && InFlight(s.table, q, h) :: r == q
    ensures KeepsAccount(s, s')
  {
    forall h | BeingCancelled(s, h) ensures Stray(s', h) {
      assert BeingCancelled(s', h);
    }
  }

  lemma CloseKeepsAccount(s: System, step: Step)
    requires Sound(s.table) && Enabled(s, step)
      && (step.CloseSlots? || step.CloseTable? || step.CloseSignal? || step.CloseSend?)
    ensures KeepsAccount(s, Apply(s, step))
  {
    ClosedTableIsSound(s.table);
    var s' := Apply(s, step);
    forall h | BeingCancelled(s, h) ensures Stray(s', h) {
      assert BeingCancelled(s', h);
    }
    if step.CloseTable? && s.table.open {
      forall g { GenerationsAreFlights(s.table, g); }
    }
  }

  lemma ReadKeepsAccount(s: System, t': Table)
    requires SameFlights(s.table, t')
    ensures KeepsAccount(s, s.(table := t'))
  {
    forall h | BeingCancelled(s, h) ensures Stray(s.(table := t'), h) {
      assert BeingCancelled(s.(table := t'), h);
    }
  }

  lemma SignalKeepsAccount(s: System, c: nat)
    requires Enabled(s, SignalStep(c))
    ensures KeepsAccount(s, Apply(s, SignalStep(c)))
  {
    var s' := Apply(s, SignalStep(c));
    forall g | BeingCancelled(s, g) ensures Stray(s', g) {
      var d :| d in s.callers && s.callers[d] == Cancelling(g);
      if d != c { assert d in s'.callers && s'.callers[d] == Cancelling(g); }
    }
  }

  lemma CallerStepKeepsAccount(s: System, step: Step)
    requires Sound(s.table) && Enabled(s, step)
    requires step.Call? || step.Admit? || step.AbandonAdmission? || step.Receive? || step.DropWait?
    ensures KeepsAccount(s, Apply(s, step))
  {
    hide KeepsAccount, Sound;
    var s' := Apply(s, step);
    CallerKeepsAccount(s, step.caller, s'.callers[step.caller], s');
  }

  lemma WorkerStepKeepsAccount(s: System, step: Step)
    requires Enabled(s, step) && (step.Start? || step.Answer? || step.Publish? || step.Release?)
    ensures KeepsAccount(s, Apply(s, step))
  {
    hide KeepsAccount, FinishFetch;
    var s' := Apply(s, step);
    WorkerKeepsAccount(s, step.generation, s'.tasks[step.generation], s');
  }

  predicate AtTable(step: Step) {
    step.RegisterStep? || step.CancelStep? || step.SignalStep? || step.ReadStep? || step.Land?
  }

  lemma TableStepKeepsAccount(s: System, step: Step)
    requires Inv(s) && Enabled(s, step) && AtTable(step)
    ensures KeepsAccount(s, Apply(s, step))
  {
    assert Sound(s.table);
    hide Inv, KeepsAccount, Sound, Register, Cancel, Complete, ReadCached, AfterRegister, AfterCancel, AfterLand,
      InFlight, VictimFor, SameFlights;
    match step
    case RegisterStep(c, now) => RegisterKeepsAccount(s, c, now);
    case CancelStep(c) => CancelKeepsAccount(s, c);
    case SignalStep(c) => SignalKeepsAccount(s, c);
    case ReadStep(relay, now) =>
      ReadIsQuiet(s.table, relay, now);
      ReadKeepsAccount(s, ReadCached(s.table, relay, now).0);
    case Land(g, now, victim) => LandKeepsAccount(s, g, now, victim);
  }

  lemma StepKeepsAccount(s: System, step: Step)
    requires Inv(s) && Enabled(s, step)
    ensures KeepsAccount(s, Apply(s, step))
  {
    assert Sound(s.table);
    hide Inv, KeepsAccount, Sound, Apply, Enabled;
    if AtTable(step) {
      TableStepKeepsAccount(s, step);
    } else if step.Start? || step.Answer? || step.Publish? || step.Release? {
      WorkerStepKeepsAccount(s, step);
    } else if step.CloseSlots? || step.CloseTable? || step.CloseSignal? || step.CloseSend? {
      CloseKeepsAccount(s, step);
    } else {
      CallerStepKeepsAccount(s, step);
    }
  }

  lemma {:induction false} RunsAreTracked(trace: seq<System>, steps: seq<Step>, i: nat)
    requires Run(trace, steps) && i < |trace|
    ensures Tracked(trace[i])
  {
    hide Inv, Enabled, Apply, KeepsAccount;
    if i > 0 {
      RunsAreSafe(trace, steps, i - 1);
      RunsAreTracked(trace, steps, i - 1);
      StepKeepsAccount(trace[i - 1], steps[i - 1]);
      AccountKept(trace[i - 1], trace[i]);
    }
  }

  // ---- the bound ---------------------------------------------------------

  function Live(s: System): set<nat> {
    set g | g in s.tasks && Running(s.tasks[g].worker)
  }

  ghost function Strays(s: System): set<nat> {
    set g | g in Live(s) && Stray(s, g)
  }

  lemma LiveAreHeldOrStray(s: System)
    requires Sound(s.table) && Tracked(s)
    ensures Live(s) <= Generations(s.table.entries) + s.closing + Strays(s)
  {
    forall g | g in Live(s) ensures g in Generations(s.table.entries) + s.closing + Strays(s) {
      assert Accounted(s, g, s.tasks[g].worker);
    }
  }

  /** At every moment of every run the live workers are at most eight and those whose flight was cancelled or
      closed away and who have not yet noticed. */
  lemma LiveWorkersAreBounded(trace: seq<System>, steps: seq<Step>, i: nat)
    requires Run(trace, steps) && i < |trace|
    ensures |Live(trace[i])| <= 8 + |Strays(trace[i])|
  {
    var s := trace[i];
    RunsAreSafe(trace, steps, i);
    RunsAreTracked(trace, steps, i);
    PermitsAndCacheAreBounded(trace, steps, i);
    LiveAreHeldOrStray(s);
    ClosedTableIsSound(s.table);
    if s.table.open { GenerationsAreOwned(s); }
    hide Inv, Tracked, Generations, FlightRelays, Live, Strays;
    var held := Generations(s.table.entries);
    SmallerSubset(Live(s), held + s.closing + Strays(s));
    UnionIsSmall(held, s.closing);
    UnionIsSmall(held + s.closing, Strays(s));
  }

  lemma InstalledAreLive(s: System)
    requires Inv(s)
    ensures Generations(s.table.entries) <= Live(s)
  {
    ClosedTableIsSound(s.table);
    forall g | g in Generations(s.table.entries) ensures g in Live(s) {
      GenerationsAreFlights(s.table, g);
    }
  }

  /** At most eight workers are live exactly while those without an installed flight are no more than the permits
      that no installed flight holds. */
  lemma LiveIsWithinEightExactly(trace: seq<System>, steps: seq<Step>, i: nat)
    requires Run(trace, steps) && i < |trace|
    ensures
      var s := trace[i];
      |Live(s)| <= 8 <==>
        |Live(s) - Generations(s.table.entries)|
          <= s.free + |PermitHolders(s.callers)| + |Landing(s.tasks)| + |s.closing|
  {
    var s := trace[i];
    RunsAreSafe(trace, steps, i);
    PermitsAndCacheAreBounded(trace, steps, i);
    InstalledAreLive(s);
    ClosedTableIsSound(s.table);
    if s.table.open { GenerationsAreOwned(s); }
    hide Inv, Generations, FlightRelays, Live, PermitHolders, Landing;
    var held := Generations(s.table.entries);
    assert Live(s) == held + (Live(s) - held);
  }

  lemma UnionIsSmall(a: set<nat>, b: set<nat>)
    ensures |a + b| <= |a| + |b|
  {
    assert a + b == a + (b - a);
    SmallerSubset(b - a, b);
  }
}
