/** Where the documents of the NIP-11 service come from: everything cached, delivered or returned was once the
    accepted body of an answer, and an answer out of the cache was stored by a landing that has not expired. */
module AcquisitionProvenance {
  import opened Wrappers
  import opened RelayInformation
  import opened AcquisitionTable
  import opened Acquisition
  import opened AcquisitionSafety
  import opened AcquisitionRuns

  // ---- answers out of the cache ------------------------------------------

  /** The landing at step k stored this very snapshot for the relay. */
  ghost predicate StoredAt(trace: seq<System>, steps: seq<Step>, k: nat, relay: Relay, snapshot: Snapshot) {
    && k < |steps| < |trace| && LandsAt(trace[k], steps[k], relay)
    && trace[k].tasks[steps[k].generation].worker.result == Ok(snapshot)
  }

  lemma CopyChanges(s: System, step: Step, relay: Relay)
    requires Inv(s) && Enabled(s, step) && Copy(Apply(s, step).table, relay).Some?
    ensures
      var copy' := Copy(Apply(s, step).table, relay);
      || copy' == Copy(s.table, relay)
      || (LandsAt(s, step, relay) && copy'.value.freshUntil == 0)
      || (LandsAt(s, step, relay) && s.tasks[step.generation].worker.result == Ok(copy'.value.snapshot)
          && copy'.value.freshUntil == copy'.value.snapshot.freshUntil)
  {
    if LandsAt(s, step, relay) {
      LandedCopy(s, step, relay);
    } else if other :| LandsAt(s, step, other) {
      var w := s.tasks[step.generation].worker;
      CompleteTouchesOnlyTheVictim(s.table, other, step.generation, w.result, step.now, step.victim, relay);
    } else if !step.CloseTable? {
      CopiesChangeOnlyByLanding(s, step, relay);
    }
  }

  /** A copy that can still be served was stored, with its expiry, by an earlier successful landing of its relay. */
  lemma {:induction false} ServableCopiesWereStored(trace: seq<System>, steps: seq<Step>, i: nat, relay: Relay)
    requires Run(trace, steps) && i < |trace|
    requires Copy(trace[i].table, relay).Some? && Copy(trace[i].table, relay).value.freshUntil > 0
    ensures
      var copy := Copy(trace[i].table, relay).value;
      copy.freshUntil == copy.snapshot.freshUntil
      && exists k: nat :: k < i && StoredAt(trace, steps, k, relay, copy.snapshot)
  {
    hide Inv, Enabled, Apply, LandsAt;
    assert i > 0 by { InitialIsEmpty(trace[0].table.capacity); }
    RunsAreSafe(trace, steps, i - 1);
    CopyChanges(trace[i - 1], steps[i - 1], relay);
    var copy := Copy(trace[i].table, relay).value;
    if Copy(trace[i - 1].table, relay) == Some(copy) {
      ServableCopiesWereStored(trace, steps, i - 1, relay);
      var k: nat :| k < i - 1 && StoredAt(trace, steps, k, relay, copy.snapshot);
    } else {
      assert StoredAt(trace, steps, i - 1, relay, copy.snapshot);
    }
  }

  lemma InitialIsEmpty(capacity: nat)
    ensures Initial(capacity).table.entries == map[]
  {
  }

  /** A caller answered at registration asked for the cache, and is handed a snapshot that an earlier landing of its
      relay stored and that has not expired, marked fresh and without an error. */
  lemma CacheAnswersWereStored(trace: seq<System>, steps: seq<Step>, i: nat, c: nat, now: nat, snapshot: Snapshot)
    requires Run(trace, steps) && i < |steps| && steps[i] == RegisterStep(c, now)
    requires c in trace[i + 1].callers && trace[i + 1].callers[c] == Returned(Ok(snapshot))
    ensures c in trace[i].callers && trace[i].callers[c].Registering? && trace[i].callers[c].policy == UseCache
    ensures snapshot.freshness == Fresh && snapshot.lastError == None && now < snapshot.freshUntil
    ensures exists k: nat, stored ::
      k < i && StoredAt(trace, steps, k, trace[i].callers[c].relay, stored)
      && snapshot == stored.(freshness := Fresh, lastError := None)
  {
    var s := trace[i];
    assert Enabled(s, steps[i]) && trace[i + 1] == Apply(s, steps[i]);
    var Registering(relay, policy, permit) := s.callers[c];
    RegistrationIsExact(s.table, relay, policy, permit, now);
    hide Register, Inv;
    var stored := Copy(s.table, relay).value.snapshot;
    ServableCopiesWereStored(trace, steps, i, relay);
    var k: nat :| k < i && StoredAt(trace, steps, k, relay, stored);
    assert snapshot == stored.(freshness := Fresh, lastError := None);
  }

  // ---- accepted bodies ---------------------------------------------------

  /** The step lands a 200 whose body the document parser accepted. */
  ghost predicate Accepts(s: System, step: Step, payload: Payload) {
    && LandsAt(s, step, payload.relay)
    && var w := s.tasks[step.generation].worker;
       && w.result.Ok? && w.answer.Ok? && w.answer.value.body.Some? && w.answer.value.body.value.refusal.None?
       && payload.rawJson == w.answer.value.body.value.rawJson
  }

  ghost function Landings(s: System, step: Step): set<Payload> {
    if step.Land? && step.generation in s.tasks && s.tasks[step.generation].worker.Finished? then
      var w := s.tasks[step.generation].worker;
      if w.answer.Ok? && w.answer.value.body.Some? then
        set p | p in {Payload(w.relay, w.answer.value.body.value.rawJson)} && Accepts(s, step, p)
      else {}
    else {}
  }

  ghost function AcceptedSoFar(trace: seq<System>, steps: seq<Step>, i: nat): set<Payload>
    requires i <= |steps| < |trace|
  {
    if i == 0 then {} else AcceptedSoFar(trace, steps, i - 1) + Landings(trace[i - 1], steps[i - 1])
  }

  predicate KnownOutcome(o: Outcome, known: set<Payload>) {
    o.Ok? ==> o.value.payload in known
  }

  ghost predicate KnownCopies(t: Table, known: set<Payload>) {
    forall r | Copy(t, r).Some? :: Copy(t, r).value.snapshot.payload in known
  }

  predicate KnownTask(task: Task, known: set<Payload>) {
    && (task.channel.Some? ==> KnownOutcome(task.channel.value, known))
    && (task.worker.Delivering? ==> KnownOutcome(task.worker.delivered, known))
  }

  ghost predicate KnownTasks(tasks: map<nat, Task>, known: set<Payload>) {
    forall g | g in tasks :: KnownTask(tasks[g], known)
  }

  ghost predicate KnownCallers(callers: map<nat, Caller>, known: set<Payload>) {
    forall c | c in callers && callers[c].Returned? :: KnownOutcome(callers[c].outcome, known)
  }

  /** Every document in the system is one of these. */
  ghost predicate AllKnown(s: System, known: set<Payload>) {
    KnownCopies(s.table, known) && KnownTasks(s.tasks, known) && KnownCallers(s.callers, known)
  }

  lemma LandedIsKnown(s: System, step: Step, relay: Relay, known: set<Payload>)
    requires Inv(s) && Enabled(s, step) && LandsAt(s, step, relay) && KnownCopies(s.table, known)
    ensures KnownOutcome(s.tasks[step.generation].worker.result, known + Landings(s, step))
  {
    var w := s.tasks[step.generation].worker;
    assert TrueTo(s.table, step.generation, w);
    if w.result.Ok? {
      assert Derived(w);
      if w.answer.value.body.Some? {
        assert Accepts(s, step, Payload(relay, w.answer.value.body.value.rawJson));
      } else {
        assert Copy(s.table, relay) == w.cached;
      }
    }
  }

  lemma CopiesStayKnown(s: System, step: Step, known: set<Payload>)
    requires Inv(s) && Enabled(s, step) && KnownCopies(s.table, known)
    ensures KnownCopies(Apply(s, step).table, known + Landings(s, step))
  {
    hide Landings;
    var t' := Apply(s, step).table;
    forall r | Copy(t', r).Some? ensures Copy(t', r).value.snapshot.payload in known + Landings(s, step) {
      CopyStaysKnown(s, step, r, known);
    }
  }

  lemma CopyStaysKnown(s: System, step: Step, relay: Relay, known: set<Payload>)
    requires Inv(s) && Enabled(s, step) && KnownCopies(s.table, known) && Copy(Apply(s, step).table, relay).Some?
    ensures Copy(Apply(s, step).table, relay).value.snapshot.payload in known + Landings(s, step)
  {
    hide Landings;
    CopyChanges(s, step, relay);
    if LandsAt(s, step, relay) {
      LandedCopy(s, step, relay);
      LandedIsKnown(s, step, relay, known);
    }
  }

  lemma LandingDeliversKnown(s: System, step: Step, known: set<Payload>)
    requires Inv(s) && Enabled(s, step) && step.Land? && KnownCopies(s.table, known)
    ensures
      var w := Apply(s, step).tasks[step.generation].worker;
      w.Delivering? ==> KnownOutcome(w.delivered, known + Landings(s, step))
  {
    hide Landings;
    var w := s.tasks[step.generation].worker;
    if InFlight(s.table, w.relay, step.generation) {
      LandedIsKnown(s, step, w.relay, known);
      CompletionIsExact(s.table, w.relay, step.generation, w.result, step.now, step.victim);
    }
  }

  lemma TasksWithOneMore(tasks: map<nat, Task>, g: nat, task: Task, known: set<Payload>, more: set<Payload>)
    requires KnownTasks(tasks, known) && known <= more && KnownTask(task, more)
    ensures KnownTasks(tasks[g := task], more)
  {
  }

  /** At most one task changes, and none but a landing has a new document. */
  lemma OneTaskChanges(s: System, step: Step, known: set<Payload>)
    requires Enabled(s, step) && !step.Land? && KnownTasks(s.tasks, known)
    ensures
      var tasks' := Apply(s, step).tasks;
      tasks' == s.tasks || exists g :: g in tasks' && tasks' == s.tasks[g := tasks'[g]] && KnownTask(tasks'[g], known)
  {
    hide Register, Cancel, Complete, ReadCached, Closed, KnownTasks, FinishFetch;
    if step.RegisterStep? {
      var Registering(relay, policy, permit) := s.callers[step.caller];
      InstallsNext(s.table, relay, policy, permit, step.now);
      var r := Register(s.table, relay, policy, permit, step.now).1;
      if r.Installed? { assert KnownTask(Task(Spawned(relay), None), known); }
    } else if step.Start? || step.Answer? || step.Publish? || step.Release? || step.CloseSend? {
      KnownAt(s.tasks, step.generation, known);
      assert step.generation in Apply(s, step).tasks;
    }
  }

  lemma KnownAt(tasks: map<nat, Task>, g: nat, known: set<Payload>)
    requires KnownTasks(tasks, known) && g in tasks
    ensures KnownTask(tasks[g], known)
  {
  }

  lemma TasksStayKnown(s: System, step: Step, known: set<Payload>)
    requires Inv(s) && Enabled(s, step) && KnownCopies(s.table, known) && KnownTasks(s.tasks, known)
    ensures KnownTasks(Apply(s, step).tasks, known + Landings(s, step))
  {
    var tasks', more := Apply(s, step).tasks, known + Landings(s, step);
    if step.Land? {
      LandingDeliversKnown(s, step, known);
      KnownAt(s.tasks, step.generation, known);
      TasksWithOneMore(s.tasks, step.generation, tasks'[step.generation], known, more);
    } else {
      OneTaskChanges(s, step, known);
      hide Apply, KnownTask, Landings;
      if tasks' != s.tasks {
        var g :| g in tasks' && tasks' == s.tasks[g := tasks'[g]] && KnownTask(tasks'[g], known);
        MoreTasksKnown(tasks'[g], known, more);
        TasksWithOneMore(s.tasks, g, tasks'[g], known, more);
      }
    }
  }

  lemma MoreTasksKnown(task: Task, known: set<Payload>, more: set<Payload>)
    requires KnownTask(task, known) && known <= more
    ensures KnownTask(task, more)
  {
  }

  lemma CallersStayKnown(s: System, step: Step, known: set<Payload>)
    requires Enabled(s, step) && AllKnown(s, known)
    ensures KnownCallers(Apply(s, step).callers, known)
  {
    if step.RegisterStep? {
      var Registering(relay, policy, permit) := s.callers[step.caller];
      RegistrationIsExact(s.table, relay, policy, permit, step.now);
    }
    hide Register, Cancel, Complete, ReadCached, Closed;
  }

  lemma {:induction false} DocumentsAreKnown(trace: seq<System>, steps: seq<Step>, i: nat)
    requires Run(trace, steps) && i < |trace|
    ensures AllKnown(trace[i], AcceptedSoFar(trace, steps, i))
  {
    if i == 0 {
      InitialIsEmpty(trace[0].table.capacity);
    } else {
      hide Inv, Enabled, Apply, Landings, KnownCopies, KnownTasks, KnownCallers;
      var s, step, known := trace[i - 1], steps[i - 1], AcceptedSoFar(trace, steps, i - 1);
      RunsAreSafe(trace, steps, i - 1);
      DocumentsAreKnown(trace, steps, i - 1);
      CopiesStayKnown(s, step, known);
      TasksStayKnown(s, step, known);
      CallersStayKnown(s, step, known);
      MoreIsKnown(Apply(s, step).callers, known, known + Landings(s, step));
    }
  }

  lemma MoreIsKnown(callers: map<nat, Caller>, known: set<Payload>, more: set<Payload>)
    requires KnownCallers(callers, known) && known <= more
    ensures KnownCallers(callers, more)
  {
  }

  lemma {:induction false} AcceptedByAStep(trace: seq<System>, steps: seq<Step>, i: nat, payload: Payload)
    requires i <= |steps| < |trace| && payload in AcceptedSoFar(trace, steps, i)
    ensures exists k: nat :: k < i && Accepts(trace[k], steps[k], payload)
  {
    if payload in AcceptedSoFar(trace, steps, i - 1) {
      AcceptedByAStep(trace, steps, i - 1, payload);
    } else {
      assert Accepts(trace[i - 1], steps[i - 1], payload);
    }
  }

  /** No document ever comes from a refused body: at every moment of every run, the payload of every cached copy was
      the body of an earlier 200 of that relay that the document parser accepted. */
  lemma CachedDocumentsWereAccepted(trace: seq<System>, steps: seq<Step>, i: nat, relay: Relay)
    requires Run(trace, steps) && i < |trace| && Copy(trace[i].table, relay).Some?
    ensures exists k: nat ::
      k < i && Accepts(trace[k], steps[k], Copy(trace[i].table, relay).value.snapshot.payload)
  {
    hide Landings, Accepts;
    DocumentsAreKnown(trace, steps, i);
    AcceptedByAStep(trace, steps, i, Copy(trace[i].table, relay).value.snapshot.payload);
  }

  /** Nor does any caller get one: whatever a caller returned with was such a body too. */
  lemma ReturnedDocumentsWereAccepted(trace: seq<System>, steps: seq<Step>, i: nat, c: nat)
    requires Run(trace, steps) && i < |trace| && c in trace[i].callers
    requires trace[i].callers[c].Returned? && trace[i].callers[c].outcome.Ok?
    ensures exists k: nat ::
      k < i && Accepts(trace[k], steps[k], trace[i].callers[c].outcome.value.payload)
  {
    hide Landings, Accepts;
    DocumentsAreKnown(trace, steps, i);
    AcceptedByAStep(trace, steps, i, trace[i].callers[c].outcome.value.payload);
  }

  // ---- one value for all -------------------------------------------------

  /** A caller that waited returns with its generation's value, and all that waited for one generation return with the
      same value. */
  lemma CallersShareTheValue(trace: seq<System>, steps: seq<Step>, i: nat, j: nat, c: nat, d: nat)
    requires Run(trace, steps) && i <= j < |steps| && steps[i] == Receive(c) && steps[j] == Receive(d)
    requires c in trace[i].callers && trace[i].callers[c].Waiting? && d in trace[j].callers
    requires trace[j].callers[d].Waiting? && trace[j].callers[d].generation == trace[i].callers[c].generation
    ensures
      var g := trace[i].callers[c].generation;
      && Spoken(trace[i], g) && c in trace[i + 1].callers && d in trace[j + 1].callers
      && trace[i + 1].callers[c] == trace[j + 1].callers[d] == Returned(trace[i].tasks[g].channel.value)
  {
    assert Enabled(trace[i], steps[i]) && trace[i + 1] == Apply(trace[i], steps[i]);
    assert Enabled(trace[j], steps[j]) && trace[j + 1] == Apply(trace[j], steps[j]);
    OneTerminalResult(trace, steps, i, j, trace[i].callers[c].generation);
  }

  // ---- where the value comes from ----------------------------------------

  /** The landing of g at step k delivers this value. */
  ghost predicate DeliveredAt(trace: seq<System>, steps: seq<Step>, k: nat, g: nat, value: Outcome) {
    && k < |steps| < |trace| && steps[k].Land? && steps[k].generation == g
    && g in trace[k].tasks && trace[k].tasks[g].worker.Finished? && g in trace[k + 1].tasks
    && InFlight(trace[k].table, trace[k].tasks[g].worker.relay, g)
    && trace[k + 1].tasks[g].worker == Delivering(trace[k].tasks[g].worker.relay, value)
  }

  lemma NewDelivery(s: System, step: Step, g: nat)
    requires Inv(s) && Enabled(s, step) && g in Apply(s, step).tasks && Apply(s, step).tasks[g].worker.Delivering?
    ensures g in s.tasks
    ensures s.tasks[g].worker == Apply(s, step).tasks[g].worker
      || (step.Land? && step.generation == g && s.tasks[g].worker.Finished?
          && InFlight(s.table, s.tasks[g].worker.relay, g)
          && Apply(s, step).tasks[g].worker.relay == s.tasks[g].worker.relay)
  {
    if step.RegisterStep? {
      var Registering(relay, policy, permit) := s.callers[step.caller];
      InstallsNext(s.table, relay, policy, permit, step.now);
    }
    hide Register, Cancel, ReadCached, Closed, Sound, Owned, Piped, Served, Dropped, Faithful, Permits, Stored, Failed,
      Retained, Landed;
  }

  /** What a worker is delivering, its landing delivered. */
  lemma {:induction false} DeliveriesAreLandings(trace: seq<System>, steps: seq<Step>, i: nat, g: nat)
    requires Run(trace, steps) && i < |trace| && g in trace[i].tasks && trace[i].tasks[g].worker.Delivering?
    ensures exists k: nat :: k < i && DeliveredAt(trace, steps, k, g, trace[i].tasks[g].worker.delivered)
  {
    assert i > 0;
    var s, step := trace[i - 1], steps[i - 1];
    assert Enabled(s, step) && trace[i] == Apply(s, step);
    hide Inv, Apply, Enabled, InFlight, Run;
    RunsAreSafe(trace, steps, i - 1);
    NewDelivery(s, step, g);
    if s.tasks[g].worker == trace[i].tasks[g].worker {
      DeliveriesAreLandings(trace, steps, i - 1, g);
      hide DeliveredAt;
      var k: nat :| k < i - 1 && DeliveredAt(trace, steps, k, g, s.tasks[g].worker.delivered);
    } else {
      assert DeliveredAt(trace, steps, i - 1, g, trace[i].tasks[g].worker.delivered);
    }
  }

  lemma NewValue(s: System, step: Step, g: nat)
    requires Inv(s) && Enabled(s, step) && Spoken(Apply(s, step), g) && !Spoken(s, g)
    ensures
      var value := Apply(s, step).tasks[g].channel.value;
      || (step == Publish(g) && g in s.tasks && s.tasks[g].worker.Delivering? && value == s.tasks[g].worker.delivered)
      || (step == CloseSend(g) && value == Err(ServiceClosed))
  {
    hide Register, Cancel, Complete, ReadCached, Closed, Inv, InFlight;
  }

  /** Before step i the landing of g delivered this value, or it is the refusal and `close` sent it. */
  ghost predicate SaidBefore(trace: seq<System>, steps: seq<Step>, i: nat, g: nat, value: Outcome)
    requires i <= |steps|
  {
    || (exists k: nat :: k < i && DeliveredAt(trace, steps, k, g, value))
    || (value == Err(ServiceClosed) && exists k: nat :: k < i && steps[k] == CloseSend(g))
  }

  lemma SaidEarlier(trace: seq<System>, steps: seq<Step>, i: nat, g: nat, value: Outcome)
    requires 0 < i <= |steps| && SaidBefore(trace, steps, i - 1, g, value)
    ensures SaidBefore(trace, steps, i, g, value)
  {
    hide DeliveredAt;
  }

  lemma SaidNow(trace: seq<System>, steps: seq<Step>, i: nat, g: nat, value: Outcome)
    requires 0 < i <= |steps| && steps[i - 1] == CloseSend(g) && value == Err(ServiceClosed)
    ensures SaidBefore(trace, steps, i, g, value)
  {
    hide DeliveredAt;
  }

  lemma SaidByLanding(trace: seq<System>, steps: seq<Step>, i: nat, g: nat, value: Outcome, k: nat)
    requires k < i <= |steps| && DeliveredAt(trace, steps, k, g, value)
    ensures SaidBefore(trace, steps, i, g, value)
  {
    hide DeliveredAt;
  }

  /** A generation's value is what its landing delivered, or the refusal `close` sent in its place. */
  lemma {:induction false} ValuesAreLandings(trace: seq<System>, steps: seq<Step>, i: nat, g: nat)
    requires Run(trace, steps) && i < |trace| && Spoken(trace[i], g)
    ensures SaidBefore(trace, steps, i, g, trace[i].tasks[g].channel.value)
  {
    assert i > 0;
    var s, step := trace[i - 1], steps[i - 1];
    assert Enabled(s, step) && trace[i] == Apply(s, step);
    hide Inv, Apply, Enabled, DeliveredAt, Run, SaidBefore;
    RunsAreSafe(trace, steps, i - 1);
    var value := trace[i].tasks[g].channel.value;
    if Spoken(s, g) {
      ChannelsSpeakOnce(s, step, g);
      ValuesAreLandings(trace, steps, i - 1, g);
      SaidEarlier(trace, steps, i, g, value);
    } else {
      NewValue(s, step, g);
      if step == Publish(g) {
        DeliveriesAreLandings(trace, steps, i - 1, g);
        var k: nat :| k < i - 1 && DeliveredAt(trace, steps, k, g, value);
        SaidByLanding(trace, steps, i, g, value, k);
      } else {
        SaidNow(trace, steps, i, g, value);
      }
    }
  }

  /** A failure that a fetch ends with is the answer's own, the refusal of its body, or a 304 over nothing. */
  lemma FailuresAreTheAnswers(trace: seq<System>, steps: seq<Step>, i: nat, g: nat)
    requires Run(trace, steps) && i < |trace| && g in trace[i].tasks && trace[i].tasks[g].worker.Finished?
    ensures
      var w := trace[i].tasks[g].worker;
      && (w.answer.Err? ==> w.result == Err(w.answer.error))
      && (w.answer.Ok? && w.answer.value.body.Some? && w.result.Err? ==>
            w.answer.value.body.value.refusal == Some(w.result.error))
      && (w.answer.Ok? && w.answer.value.body.None? && w.result.Err? ==> w.cached.None? && w.result.error.Http?)
  {
    RunsAreSafe(trace, steps, i);
    assert TrueTo(trace[i].table, g, trace[i].tasks[g].worker);
  }
}
