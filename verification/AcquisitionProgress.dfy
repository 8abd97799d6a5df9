/** How far a waiting caller of the NIP-11 service is from its value. */
module AcquisitionProgress {
  import opened Wrappers
  import opened RelayInformation
  import opened AcquisitionTable
  import opened Acquisition
  import opened AcquisitionSafety
  import opened AcquisitionRuns

  // ---- waiters -----------------------------------------------------------

  /** The steps a generation has before it until its channel has a value; a worker that is done and
      has said nothing would never get there. */
  function Distance(s: System, g: nat): nat
    requires g in s.tasks
  {
    if s.tasks[g].channel.Some? then 0
    else if g in s.closing then (if g in s.cancelled then 1 else 2)
    else
      match s.tasks[g].worker
      case Spawned(_) => 4
      case Fetching(_, _) => 3
      case Finished(_, _, _, _) => 2
      case Delivering(_, _) => 1
      case Sent(_) => 5
      case Ended => 5
  }

  /** A step of whoever owes generation g its value: its worker, or `close` once it has taken the flight. */
  predicate Serves(s: System, step: Step, g: nat) {
    && Silent(s, g)
    && match step
       case Start(h) => h == g && g !in s.closing
       case Answer(h, _, _, _) => h == g && g !in s.closing
       case Land(h, _, _) => h == g && g !in s.closing
       case Publish(h) => h == g && g !in s.closing
       case CloseSignal(h) => h == g
       case CloseSend(h) => h == g
       case _ => false
  }

  ghost predicate Awaits(s: System, c: nat, relay: Relay, g: nat) {
    c in s.callers && s.callers[c] == Waiting(relay, g)
  }

  lemma AwaitedIsAttended(s: System, c: nat, relay: Relay, g: nat)
    requires Inv(s) && Awaits(s, c, relay, g)
    ensures g in s.tasks && g < s.table.nextFlight && Attended(s, relay, g)
    ensures InFlight(s.table, relay, g) ==> s.tasks[g].worker.relay == relay && Running(s.tasks[g].worker)
  {
    assert Attended(s, relay, g);
  }

  lemma AwaitedIsNear(s: System, c: nat, relay: Relay, g: nat)
    requires Inv(s) && Awaits(s, c, relay, g)
    ensures g in s.tasks && Distance(s, g) <= 4
  {
    AwaitedIsAttended(s, c, relay, g);
    assert s.tasks[g].worker.Sent? ==> s.tasks[g].channel.Some?;
    assert s.tasks[g].worker.Ended? ==> !InFlight(s.table, relay, g);
  }

  lemma LandingDelivers(s: System, step: Step, relay: Relay, g: nat)
    requires Enabled(s, step) && step.Land? && step.generation == g && InFlight(s.table, relay, g)
    requires s.tasks[g].worker.relay == relay
    ensures
      var s' := Apply(s, step);
      && s'.tasks == s.tasks[g := s'.tasks[g]] && s'.closing == s.closing
      && s'.tasks[g].worker.Delivering? && s'.tasks[g].channel == s.tasks[g].channel
  {
  }

  /** Every step that serves a waiting caller's generation brings its value nearer. */
  lemma ServingLowersDistance(s: System, step: Step, c: nat, relay: Relay, g: nat)
    requires Inv(s) && Enabled(s, step) && Awaits(s, c, relay, g) && Serves(s, step, g)
    ensures g in s.tasks && g in Apply(s, step).tasks && Distance(Apply(s, step), g) < Distance(s, g)
  {
    AwaitedIsAttended(s, c, relay, g);
    if step.Land? {
      LandingDelivers(s, step, relay, g);
      hide Apply, Enabled, Inv;
    } else {
      hide Inv, Register, Cancel, Complete, ReadCached, Closed;
    }
  }

  lemma QuietStep(s: System, step: Step, g: nat)
    requires Issued(s) && Owned(s) && Piped(s) && Enabled(s, step) && Silent(s, g)
    requires !step.CloseTable? && !Serves(s, step, g)
    ensures
      var s' := Apply(s, step);
      && Silent(s', g) && (g in s'.closing <==> g in s.closing) && (g in s.cancelled ==> g in s'.cancelled)
      && (g in s.closing || s'.tasks[g] == s.tasks[g])
  {
    if step.RegisterStep? {
      var Registering(relay, policy, permit) := s.callers[step.caller];
      InstallsNext(s.table, relay, policy, permit, step.now);
    }
    hide Register, Cancel, Complete, ReadCached;
  }

  lemma ClosingStep(s: System, g: nat)
    requires Sound(s.table) && Owned(s) && Silent(s, g) && Enabled(s, CloseTable)
    ensures
      var s' := Apply(s, CloseTable);
      && s'.tasks == s.tasks && s'.cancelled == s.cancelled && s.closing <= s'.closing
      && (g in s'.closing && g !in s.closing ==> Running(s.tasks[g].worker) && g !in s.cancelled)
  {
    ClosedTableIsSound(s.table);
    if s.table.open { GenerationsAreFlights(s.table, g); }
  }

  /** No other step takes its value further away. */
  lemma OthersKeepDistance(s: System, step: Step, c: nat, relay: Relay, g: nat)
    requires Inv(s) && Enabled(s, step) && Awaits(s, c, relay, g) && !Serves(s, step, g)
    ensures g in s.tasks && g in Apply(s, step).tasks && Distance(Apply(s, step), g) <= Distance(s, g)
  {
    AwaitedIsNear(s, c, relay, g);
    hide Sound, Issued, Owned, Piped, Served, Dropped, Faithful, Permits, Apply, Enabled, Serves;
    if Spoken(s, g) {
      ChannelsSpeakOnce(s, step, g);
    } else if step.CloseTable? {
      ClosingStep(s, g);
    } else {
      QuietStep(s, step, g);
    }
  }

  // ---- over runs ---------------------------------------------------------

  ghost function ServingSteps(trace: seq<System>, steps: seq<Step>, i: nat, j: nat, g: nat): nat
    requires i <= j <= |steps| < |trace|
  {
    if i == j then 0
    else ServingSteps(trace, steps, i, j - 1, g) + if Serves(trace[j - 1], steps[j - 1], g) then 1 else 0
  }

  /** While a caller waits, the steps that serve it and the distance left never exceed the distance it
      started with: whatever else happens, it is at most four such steps from its value. */
  lemma {:induction false} WaitersAreFourStepsAway(trace: seq<System>, steps: seq<Step>, i: nat, j: nat, c: nat,
                                                   relay: Relay, g: nat)
    requires Run(trace, steps) && i <= j < |trace|
    requires forall k | i <= k <= j :: Awaits(trace[k], c, relay, g)
    ensures g in trace[i].tasks && g in trace[j].tasks && Distance(trace[i], g) <= 4
    ensures ServingSteps(trace, steps, i, j, g) + Distance(trace[j], g) <= Distance(trace[i], g)
    decreases j
  {
    hide Inv, Enabled, Apply, Distance, Serves;
    RunsAreSafe(trace, steps, i);
    assert Awaits(trace[i], c, relay, g) && Awaits(trace[j], c, relay, g);
    AwaitedIsNear(trace[i], c, relay, g);
    if i < j {
      WaitersAreFourStepsAway(trace, steps, i, j - 1, c, relay, g);
      RunsAreSafe(trace, steps, j - 1);
      assert Awaits(trace[j - 1], c, relay, g);
      if Serves(trace[j - 1], steps[j - 1], g) {
        ServingLowersDistance(trace[j - 1], steps[j - 1], c, relay, g);
      } else {
        OthersKeepDistance(trace[j - 1], steps[j - 1], c, relay, g);
      }
    }
  }

  /** No waiter is stranded: while its channel is silent, a step that serves it can be taken. */
  lemma WaitersCanProgress(trace: seq<System>, steps: seq<Step>, i: nat, c: nat, relay: Relay, g: nat)
    requires Run(trace, steps) && i < |trace| && Awaits(trace[i], c, relay, g) && Silent(trace[i], g)
    ensures exists step :: Serves(trace[i], step, g) && Enabled(trace[i], step)
  {
    var s := trace[i];
    RunsAreSafe(trace, steps, i);
    AwaitedIsAttended(s, c, relay, g);
    AwaitedIsNear(s, c, relay, g);
    var w := s.tasks[g].worker;
    hide Inv;
    var step: Step;
    if g in s.closing {
      step := if g in s.cancelled then CloseSend(g) else CloseSignal(g);
    } else if w.Delivering? {
      step := Publish(g);
    } else if w.Spawned? {
      step := Start(g);
    } else if w.Fetching? {
      step := Answer(g, Err(ServiceClosed), None, 0);
    } else {
      step := LandIsPossible(s, g);
    }
    assert Serves(s, step, g) && Enabled(s, step);
  }
}
