/** That every caller of the NIP-11 service gets what it asked for: its own relay's document, or its own wait. */
module AcquisitionAddressing {
  import opened Wrappers
  import opened RelayInformation
  import opened AcquisitionTable
  import opened Acquisition
  import opened AcquisitionSafety
  import opened AcquisitionRuns

  // ---- where a registration leads ----------------------------------------

  /** A registration returns the refusal or the cached copy, or leaves the caller waiting for the relay's flight, for a
      new one of its own, or for admission; a permit that opens no flight goes back. */
  lemma RegistrationLeads(s: System, c: nat, now: nat)
    requires Enabled(s, RegisterStep(c, now))
    ensures
      var s', Registering(relay, policy, permit) := Apply(s, RegisterStep(c, now)), s.callers[c];
      var answers := CacheAnswers(s.table, relay, policy, now);
      var flight := FlightOf(s.table, relay);
      && s'.callers == s.callers[c := s'.callers[c]]
      && (!s.table.open ==> s'.callers[c] == Returned(Err(ServiceClosed)))
      && (s.table.open && answers ==>
            var held := Copy(s.table, relay).value.snapshot;
            s'.callers[c] == Returned(Ok(held.(freshness := Fresh, lastError := None))))
      && (s.table.open && !answers && flight.Some? ==> s'.callers[c] == Waiting(relay, flight.value))
      && (s.table.open && !answers && flight.None? ==>
            if permit then
              && s'.callers[c] == Waiting(relay, s.table.nextFlight) && s'.free == s.free
              && s'.tasks == s.tasks[s.table.nextFlight := Task(Spawned(relay), None)]
            else s'.callers[c] == AwaitingAdmission(relay, policy))
      && (!(s.table.open && !answers && flight.None? && permit) ==>
            s'.tasks == s.tasks && s'.free == s.free + if permit then 1 else 0)
  {
    var Registering(relay, policy, permit) := s.callers[c];
    RegistrationIsExact(s.table, relay, policy, permit, now);
    hide Register;
  }

  // ---- who asked for what ------------------------------------------------

  /** The relay each caller called for. */
  ghost function Asked(steps: seq<Step>): map<nat, Relay> {
    if steps == [] then map[]
    else
      var before, last := Asked(steps[..|steps| - 1]), steps[|steps| - 1];
      if last.Call? then before[last.caller := last.relay] else before
  }

  /** The relay each generation was installed for. */
  ghost function Flown(trace: seq<System>, i: nat): map<nat, Relay>
    requires i < |trace|
  {
    if i == 0 then map[]
    else Flown(trace, i - 1) + NewFlight(trace[i - 1], trace[i])
  }

  ghost function NewFlight(s: System, s': System): map<nat, Relay> {
    map g | g in s'.tasks && g !in s.tasks && s'.tasks[g].worker.Spawned? :: s'.tasks[g].worker.relay
  }

  predicate About(o: Outcome, relay: Relay) {
    o.Ok? ==> o.value.payload.relay == relay
  }

  /** The caller is about the relay it asked for, wherever it stands. */
  predicate CallerIsTrue(c: nat, v: Caller, asked: map<nat, Relay>, flown: map<nat, Relay>) {
    match v
    case Registering(relay, _, _) => c in asked && asked[c] == relay
    case AwaitingAdmission(relay, _) => c in asked && asked[c] == relay
    case Waiting(relay, g) => c in asked && asked[c] == relay && g in flown && flown[g] == relay
    case Returned(outcome) => c in asked && About(outcome, asked[c])
    case _ => true
  }

  /** The task is about the relay its generation was installed for. */
  predicate TaskIsTrue(g: nat, task: Task, flown: map<nat, Relay>) {
    && g in flown && (!task.worker.Ended? ==> task.worker.relay == flown[g])
    && (task.worker.Delivering? ==> About(task.worker.delivered, flown[g]))
    && (task.channel.Some? ==> About(task.channel.value, flown[g]))
  }

  ghost predicate TrueCallers(callers: map<nat, Caller>, asked: map<nat, Relay>, flown: map<nat, Relay>) {
    forall c | c in callers :: CallerIsTrue(c, callers[c], asked, flown)
  }

  ghost predicate TrueTasks(tasks: map<nat, Task>, flown: map<nat, Relay>) {
    forall g | g in tasks :: TaskIsTrue(g, tasks[g], flown)
  }

  /** Later flights change nothing for those there are. */
  lemma MoreFlights(s: System, asked: map<nat, Relay>, flown: map<nat, Relay>, more: map<nat, Relay>)
    requires TrueCallers(s.callers, asked, flown) && TrueTasks(s.tasks, flown)
    requires forall g | g in flown :: g in more && more[g] == flown[g]
    ensures TrueCallers(s.callers, asked, more) && TrueTasks(s.tasks, more)
  {
    forall c | c in s.callers ensures CallerIsTrue(c, s.callers[c], asked, more) {
      assert CallerIsTrue(c, s.callers[c], asked, flown);
    }
    forall g | g in s.tasks ensures TaskIsTrue(g, s.tasks[g], more) {
      assert TaskIsTrue(g, s.tasks[g], flown);
    }
  }

  lemma PutTask(tasks: map<nat, Task>, g: nat, task: Task, flown: map<nat, Relay>)
    requires TrueTasks(tasks, flown) && TaskIsTrue(g, task, flown)
    ensures TrueTasks(tasks[g := task], flown)
  {
    hide TaskIsTrue;
  }

  lemma PutCaller(callers: map<nat, Caller>, c: nat, v: Caller, asked: map<nat, Relay>, flown: map<nat, Relay>)
    requires TrueCallers(callers, asked, flown) && CallerIsTrue(c, v, asked, flown)
    ensures TrueCallers(callers[c := v], asked, flown)
  {
    hide CallerIsTrue;
  }

  // ---- steps -------------------------------------------------------------

  lemma WorkerIsTrue(s: System, step: Step, flown: map<nat, Relay>)
    requires step.Start? || step.Answer? || step.Publish? || step.Release? || step.CloseSend?
    requires Enabled(s, step) && TaskIsTrue(step.generation, s.tasks[step.generation], flown)
    ensures
      var g, s' := step.generation, Apply(s, step);
      g in s'.tasks && TaskIsTrue(g, s'.tasks[g], flown) && s'.tasks == s.tasks[g := s'.tasks[g]]
      && s'.callers == s.callers
  {
    hide FinishFetch;
  }

  /** A step of a worker, or of `close`, changes at most its own task. */
  lemma WorkersStayTrue(s: System, step: Step, flown: map<nat, Relay>)
    requires Inv(s) && Enabled(s, step) && TrueTasks(s.tasks, flown)
    requires step.Start? || step.Answer? || step.Land? || step.Publish? || step.Release? || step.CloseSend?
    ensures Apply(s, step).callers == s.callers && TrueTasks(Apply(s, step).tasks, flown)
    ensures NewFlight(s, Apply(s, step)) == map[]
  {
    hide Inv, Apply, TaskIsTrue, NewFlight, VictimFor, InFlight;
    var g, s' := step.generation, Apply(s, step);
    assert g in s.tasks && TaskIsTrue(g, s.tasks[g], flown);
    hide Enabled, TrueTasks;
    if step.Land? { LandingIsTrue(s, step, flown); } else { WorkerIsTrue(s, step, flown); }
    PutTask(s.tasks, g, s'.tasks[g], flown);
    NoNewFlight(s, s', g);
  }

  lemma NoNewFlight(s: System, s': System, g: nat)
    requires g in s.tasks && g in s'.tasks && s'.tasks == s.tasks[g := s'.tasks[g]]
    ensures NewFlight(s, s') == map[]
  {
  }

  lemma LandingIsTrue(s: System, step: Step, flown: map<nat, Relay>)
    requires Inv(s) && Enabled(s, step) && step.Land? && TaskIsTrue(step.generation, s.tasks[step.generation], flown)
    ensures
      var g, s' := step.generation, Apply(s, step);
      g in s'.tasks && TaskIsTrue(g, s'.tasks[g], flown) && s'.tasks == s.tasks[g := s'.tasks[g]]
      && s'.callers == s.callers
  {
    var w := s.tasks[step.generation].worker;
    assert TrueTo(s.table, step.generation, w);
    if InFlight(s.table, w.relay, step.generation) {
      CompletionIsExact(s.table, w.relay, step.generation, w.result, step.now, step.victim);
    }
  }

  lemma OwnRelay(s: System, relay: Relay, g: nat, flown: map<nat, Relay>)
    requires Inv(s) && TrueTasks(s.tasks, flown) && InFlight(s.table, relay, g)
    ensures g in flown && flown[g] == relay
  {
    assert g in s.tasks && TaskIsTrue(g, s.tasks[g], flown);
  }

  /** Where a registration leaves its caller is about the relay asked for. */
  lemma SeatIsTrue(s: System, c: nat, now: nat, asked: map<nat, Relay>, flown: map<nat, Relay>)
    requires Inv(s) && Enabled(s, RegisterStep(c, now)) && TrueTasks(s.tasks, flown)
    requires CallerIsTrue(c, s.callers[c], asked, flown)
    ensures
      var s', relay, n := Apply(s, RegisterStep(c, now)), s.callers[c].relay, s.table.nextFlight;
      && n !in s.tasks && s'.callers == s.callers[c := s'.callers[c]]
      && if s'.tasks == s.tasks then CallerIsTrue(c, s'.callers[c], asked, flown)
         else s'.callers[c] == Waiting(relay, n) && s'.tasks == s.tasks[n := Task(Spawned(relay), None)]
  {
    var relay := s.callers[c].relay;
    RegistrationLeads(s, c, now);
    assert Sound(s.table);
    var flight := FlightOf(s.table, relay);
    if s.table.open && flight.Some? { OwnRelay(s, relay, flight.value, flown); }
    hide Apply, Owned, Piped, Served, Dropped, Faithful, Permits, TrueTasks, Stamped;
  }

  lemma NewSeat(s: System, s': System, c: nat, relay: Relay, asked: map<nat, Relay>, flown: map<nat, Relay>)
    requires TrueCallers(s.callers, asked, flown) && TrueTasks(s.tasks, flown)
    requires c in asked && asked[c] == relay && s.table.nextFlight !in flown && s.table.nextFlight !in s.tasks
    requires s'.callers == s.callers[c := Waiting(relay, s.table.nextFlight)]
    requires s'.tasks == s.tasks[s.table.nextFlight := Task(Spawned(relay), None)]
    ensures TrueCallers(s'.callers, asked, flown + NewFlight(s, s')) && TrueTasks(s'.tasks, flown + NewFlight(s, s'))
  {
    hide TrueCallers, TrueTasks;
    var n, more := s.table.nextFlight, flown + NewFlight(s, s');
    assert NewFlight(s, s') == map[n := relay];
    MoreFlights(s, asked, flown, more);
    PutCaller(s.callers, c, Waiting(relay, n), asked, more);
    PutTask(s.tasks, n, Task(Spawned(relay), None), more);
  }

  lemma RegistrationStaysTrue(s: System, c: nat, now: nat, asked: map<nat, Relay>, flown: map<nat, Relay>)
    requires Inv(s) && Enabled(s, RegisterStep(c, now))
    requires TrueCallers(s.callers, asked, flown) && TrueTasks(s.tasks, flown) && s.table.nextFlight !in flown
    ensures
      var s' := Apply(s, RegisterStep(c, now));
      var more := flown + NewFlight(s, s');
      TrueCallers(s'.callers, asked, more) && TrueTasks(s'.tasks, more)
  {
    var s' := Apply(s, RegisterStep(c, now));
    assert CallerIsTrue(c, s.callers[c], asked, flown);
    SeatIsTrue(s, c, now, asked, flown);
    hide Inv, Apply, TrueCallers, TrueTasks, NewFlight;
    if s'.tasks == s.tasks {
      NothingNew(s, s', flown);
      PutCaller(s.callers, c, s'.callers[c], asked, flown);
    } else {
      NewSeat(s, s', c, s.callers[c].relay, asked, flown);
    }
  }

  lemma CallersStayTrue(s: System, step: Step, asked: map<nat, Relay>, flown: map<nat, Relay>)
    requires Enabled(s, step) && TrueCallers(s.callers, asked, flown) && TrueTasks(s.tasks, flown)
    requires step.Admit? || step.AbandonAdmission? || step.Receive? || step.DropWait? || step.CancelStep?
             || step.SignalStep?
    ensures Apply(s, step).tasks == s.tasks && TrueCallers(Apply(s, step).callers, asked, flown)
  {
    var c, s' := step.caller, Apply(s, step);
    assert CallerIsTrue(c, s.callers[c], asked, flown);
    if step.Receive? { assert TaskIsTrue(s.callers[c].generation, s.tasks[s.callers[c].generation], flown); }
    hide TrueTasks, TrueCallers, Cancel;
    assert s'.callers == s.callers[c := s'.callers[c]];
    PutCaller(s.callers, c, s'.callers[c], asked, flown);
  }

  lemma CallIsTrue(s: System, c: nat, relay: Relay, policy: CachePolicy, asked: map<nat, Relay>, flown: map<nat, Relay>)
    requires c !in s.callers && TrueCallers(s.callers, asked, flown)
    ensures TrueCallers(s.callers[c := Registering(relay, policy, false)], asked[c := relay], flown)
  {
    forall d | d in s.callers ensures CallerIsTrue(d, s.callers[d], asked[c := relay], flown) {
      assert CallerIsTrue(d, s.callers[d], asked, flown);
    }
  }

  /** Everything in the system is about the relay it was asked or installed for. */
  ghost predicate Addressed(s: System, asked: map<nat, Relay>, flown: map<nat, Relay>) {
    && TrueCallers(s.callers, asked, flown) && TrueTasks(s.tasks, flown)
    && forall g | g in flown :: g < s.table.nextFlight
  }

  lemma NothingNew(s: System, s': System, flown: map<nat, Relay>)
    requires s'.tasks == s.tasks
    ensures flown + NewFlight(s, s') == flown
  {
    assert NewFlight(s, s') == map[];
  }

  lemma NewIsIssued(s: System, step: Step)
    requires Inv(s) && Enabled(s, step)
    ensures forall g | g in NewFlight(s, Apply(s, step)) :: g < Apply(s, step).table.nextFlight
  {
    StepPreserves(s, step);
    hide Apply, Enabled;
  }

  lemma StepStaysAddressed(s: System, step: Step, asked: map<nat, Relay>, flown: map<nat, Relay>)
    requires Inv(s) && Enabled(s, step) && Addressed(s, asked, flown)
    ensures
      var s' := Apply(s, step);
      Addressed(s', if step.Call? then asked[step.caller := step.relay] else asked, flown + NewFlight(s, s'))
  {
    var s' := Apply(s, step);
    IssuesOnly(s, step);
    NewIsIssued(s, step);
    hide Inv, TrueCallers, TrueTasks, NewFlight;
    if step.RegisterStep? {
      RegistrationStaysTrue(s, step.caller, step.now, asked, flown);
    } else if step.Start? || step.Answer? || step.Land? || step.Publish? || step.Release? || step.CloseSend? {
      WorkersStayTrue(s, step, flown);
      assert flown + NewFlight(s, s') == flown;
    } else {
      hide Cancel, ReadCached, Closed;
      assert s'.tasks == s.tasks;
      NothingNew(s, s', flown);
      if step.Call? {
        CallIsTrue(s, step.caller, step.relay, step.policy, asked, flown);
      } else if step.ReadStep? || step.CloseSlots? || step.CloseTable? || step.CloseSignal? {
        assert s'.callers == s.callers;
      } else {
        CallersStayTrue(s, step, asked, flown);
      }
    }
  }

  lemma {:induction false} RunsAreAddressed(trace: seq<System>, steps: seq<Step>, i: nat)
    requires Run(trace, steps) && i < |trace|
    ensures Addressed(trace[i], Asked(steps[..i]), Flown(trace, i))
  {
    if i > 0 {
      hide Inv, Enabled, Apply, Addressed, NewFlight;
      RunsAreSafe(trace, steps, i - 1);
      RunsAreAddressed(trace, steps, i - 1);
      StepStaysAddressed(trace[i - 1], steps[i - 1], Asked(steps[..i - 1]), Flown(trace, i - 1));
      assert steps[..i][..i - 1] == steps[..i - 1];
    }
  }

  lemma {:induction false} AskedStays(trace: seq<System>, steps: seq<Step>, k: nat, i: nat, c: nat)
    requires Run(trace, steps) && k < i <= |steps| && steps[k].Call? && steps[k].caller == c
    ensures c in trace[i].callers && c in Asked(steps[..i]) && Asked(steps[..i])[c] == steps[k].relay
  {
    assert steps[..i][..i - 1] == steps[..i - 1];
    assert Enabled(trace[i - 1], steps[i - 1]) && trace[i] == Apply(trace[i - 1], steps[i - 1]);
    if k == i - 1 {
      hide Register, Cancel, Complete, ReadCached, Closed;
    } else {
      AskedStays(trace, steps, k, i - 1, c);
      CallersRemain(trace[i - 1], steps[i - 1]);
      hide Apply;
    }
  }

  lemma CallersRemain(s: System, step: Step)
    requires Enabled(s, step)
    ensures s.callers.Keys <= Apply(s, step).callers.Keys
  {
    hide Register, Cancel, Complete, ReadCached, Closed;
  }

  /** A caller that returns with a document returns with one of the relay it called for, however its call was answered:
      from the cache, by a flight it joined or by one of its own. */
  lemma CallersGetTheirRelay(trace: seq<System>, steps: seq<Step>, k: nat, i: nat, c: nat)
    requires Run(trace, steps) && k < i <= |steps| && steps[k].Call? && steps[k].caller == c
    requires c in trace[i].callers && trace[i].callers[c].Returned? && trace[i].callers[c].outcome.Ok?
    ensures trace[i].callers[c].outcome.value.payload.relay == steps[k].relay
  {
    hide Enabled, Apply;
    RunsAreAddressed(trace, steps, i);
    AskedStays(trace, steps, k, i, c);
    assert CallerIsTrue(c, trace[i].callers[c], Asked(steps[..i]), Flown(trace, i));
  }
}
