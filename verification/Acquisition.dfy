/** The NIP-11 service as a transition system: any number of callers and workers interleaving
    over the table, one step per lock-held section and one per channel or semaphore event. */
module Acquisition {
  import opened Wrappers
  import opened RelayInformation
  import opened AcquisitionTable

  const MAX_ACTIVE_FETCHES: nat := 8

  /** One `get_async` future. `Waiting` owns a receiver; `Dropping` has released it and has
      yet to look for an unobserved flight; `Cancelling` has taken one out of the table and has
      yet to signal its fetch. */
  datatype Caller =
    | Registering(relay: Relay, policy: CachePolicy, permit: bool)
    | AwaitingAdmission(relay: Relay, policy: CachePolicy)
    | Waiting(relay: Relay, generation: nat)
    | Dropping(relay: Relay, generation: nat)
    | Cancelling(generation: nat)
    | Returned(outcome: Outcome)
    | Abandoned

  /** One spawned fetch task. `Delivering` has landed and still holds the flight;
      `Sent` has published and is about to drop it. */
  datatype Worker =
    | Spawned(relay: Relay)
    | Fetching(relay: Relay, cached: Option<Cached>)
    | Finished(relay: Relay, cached: Option<Cached>, answer: Result<Fetched, Error>, result: Outcome)
    | Delivering(relay: Relay, delivered: Outcome)
    | Sent(relay: Relay)
    | Ended

  /** Everything that belongs to one generation: its worker and the value of its watch channel. */
  datatype Task = Task(worker: Worker, channel: Option<Outcome>)

  /** `closing` holds the flights `close` has removed and not yet answered, `cancelled` the
      generations whose fetch was told to stop. */
  datatype System = System(
    table: Table,
    callers: map<nat, Caller>,
    tasks: map<nat, Task>,
    closing: set<nat>,
    cancelled: set<nat>,
    free: int,
    slotsClosed: bool)

  function Initial(capacity: nat): System {
    System(Table(true, map[], 0, 1, capacity), map[], map[], {}, {}, MAX_ACTIVE_FETCHES, false)
  }

  datatype Step =
    | Call(caller: nat, relay: Relay, policy: CachePolicy)
    | RegisterStep(caller: nat, now: nat)
    | Admit(caller: nat)
    | AbandonAdmission(caller: nat)
    | Receive(caller: nat)
    | DropWait(caller: nat)
    | CancelStep(caller: nat)
    | SignalStep(caller: nat)
    | ReadStep(relay: Relay, now: nat)
    | Start(generation: nat)
    | Answer(generation: nat, answer: Result<Fetched, Error>, inherited: Option<nat>, now: nat)
    | Land(generation: nat, now: nat, victim: Option<Relay>)
    | Publish(generation: nat)
    | Release(generation: nat)
    | CloseSlots
    | CloseTable
    | CloseSignal(generation: nat)
    | CloseSend(generation: nat)

  function Subscribers(callers: map<nat, Caller>, generation: nat): set<nat> {
    set c | c in callers && callers[c].Waiting? && callers[c].generation == generation
  }

  ghost predicate Enabled(s: System, step: Step) {
    match step
    case Call(c, _, _) => c !in s.callers
    case RegisterStep(c, _) => c in s.callers && s.callers[c].Registering?
    case Admit(c) => c in s.callers && s.callers[c].AwaitingAdmission? && (s.slotsClosed || s.free > 0)
    case AbandonAdmission(c) => c in s.callers && s.callers[c].AwaitingAdmission?
    case Receive(c) =>
      && c in s.callers && s.callers[c].Waiting? && Spoken(s, s.callers[c].generation)
    case DropWait(c) => c in s.callers && s.callers[c].Waiting?
    case CancelStep(c) => c in s.callers && s.callers[c].Dropping?
    case SignalStep(c) => c in s.callers && s.callers[c].Cancelling?
    case ReadStep(_, _) => true
    case Start(g) => g in s.tasks && s.tasks[g].worker.Spawned?
    case Answer(g, _, _, _) => g in s.tasks && s.tasks[g].worker.Fetching?
    case Land(g, _, victim) =>
      && g in s.tasks && s.tasks[g].worker.Finished?
      && var w := s.tasks[g].worker;
         if InFlight(s.table, w.relay, g) then VictimFor(s.table, w.relay, w.result.Ok?, victim) else victim.None?
    case Publish(g) => g in s.tasks && s.tasks[g].worker.Delivering?
    case Release(g) => g in s.tasks && s.tasks[g].worker.Sent?
    case CloseSlots => true
    case CloseTable => s.slotsClosed
    case CloseSignal(g) => g in s.closing && g in s.tasks && g !in s.cancelled
    case CloseSend(g) => g in s.closing && g in s.tasks && g in s.cancelled
  }

  // ---- one function per step ---------------------------------------------

  function WithWorker(s: System, g: nat, w: Worker): System
    requires g in s.tasks
  {
    s.(tasks := s.tasks[g := s.tasks[g].(worker := w)])
  }

  /** Where a registration that installed nothing leaves its caller. */
  function Seated(registration: Registration, relay: Relay, policy: CachePolicy): Caller {
    match registration
    case Refused => Returned(Err(ServiceClosed))
    case Ready(snapshot) => Returned(Ok(snapshot))
    case Joined(g) => Waiting(relay, g)
    case Installed(g) => Waiting(relay, g)
    case NeedsAdmission => AwaitingAdmission(relay, policy)
  }

  /** A caller that comes away without a flight of its own gives back the permit it holds. */
  function AfterRegister(s: System, c: nat, now: nat): System
    requires c in s.callers && s.callers[c].Registering?
  {
    var Registering(relay, policy, permit) := s.callers[c];
    var (table, registration) := Register(s.table, relay, policy, permit, now);
    var seated := s.(table := table, callers := s.callers[c := Seated(registration, relay, policy)]);
    if registration.Installed? then seated.(tasks := s.tasks[registration.generation := Task(Spawned(relay), None)])
    else seated.(free := s.free + if permit then 1 else 0)
  }

  function AfterCancel(s: System, c: nat): System
    requires c in s.callers && s.callers[c].Dropping?
  {
    var Dropping(relay, g) := s.callers[c];
    var (table, went) := Cancel(s.table, relay, g, |Subscribers(s.callers, g)|);
    s.(table := table,
       callers := s.callers[c := if went then Cancelling(g) else Abandoned],
       free := if went then s.free + 1 else s.free)
  }

  function AfterStart(s: System, g: nat): System
    requires g in s.tasks && s.tasks[g].worker.Spawned?
  {
    var relay := s.tasks[g].worker.relay;
    if InFlight(s.table, relay, g)
    then WithWorker(s, g, Fetching(relay, s.table.entries[relay].cached))
    else WithWorker(s, g, Ended)
  }

  function AfterAnswer(s: System, g: nat, answer: Result<Fetched, Error>, inherited: Option<nat>, now: nat): System
    requires g in s.tasks && s.tasks[g].worker.Fetching?
  {
    var Fetching(relay, cached) := s.tasks[g].worker;
    var result := if answer.Ok? then FinishFetch(relay, cached, answer.value, inherited, now) else Err(answer.error);
    WithWorker(s, g, Finished(relay, cached, answer, result))
  }

  function AfterLand(s: System, g: nat, now: nat, victim: Option<Relay>): System
    requires g in s.tasks && s.tasks[g].worker.Finished?
    requires victim.Some? ==> victim.value != s.tasks[g].worker.relay
  {
    var relay := s.tasks[g].worker.relay;
    var (table, delivered) := Complete(s.table, relay, g, s.tasks[g].worker.result, now, victim);
    WithWorker(s.(table := table), g, if delivered.Some? then Delivering(relay, delivered.value) else Ended)
  }

  function Apply(s: System, step: Step): System
    requires Enabled(s, step)
  {
    match step
    case Call(c, relay, policy) => s.(callers := s.callers[c := Registering(relay, policy, false)])
    case RegisterStep(c, now) => AfterRegister(s, c, now)
    case Admit(c) =>
      if s.slotsClosed then s.(callers := s.callers[c := Returned(Err(ServiceClosed))])
      else s.(callers := s.callers[c := Registering(s.callers[c].relay, s.callers[c].policy, true)], free := s.free - 1)
    case AbandonAdmission(c) => s.(callers := s.callers[c := Abandoned])
    case Receive(c) => s.(callers := s.callers[c := Returned(s.tasks[s.callers[c].generation].channel.value)])
    case DropWait(c) => s.(callers := s.callers[c := Dropping(s.callers[c].relay, s.callers[c].generation)])
    case CancelStep(c) => AfterCancel(s, c)
    case SignalStep(c) => s.(callers := s.callers[c := Abandoned], cancelled := s.cancelled + {s.callers[c].generation})
    case ReadStep(relay, now) => s.(table := ReadCached(s.table, relay, now).0)
    case Start(g) => AfterStart(s, g)
    case Answer(g, answer, inherited, now) => AfterAnswer(s, g, answer, inherited, now)
    case Land(g, now, victim) => AfterLand(s, g, now, victim)
    case Publish(g) =>
      s.(tasks := s.tasks[g := Task(Sent(s.tasks[g].worker.relay), Some(s.tasks[g].worker.delivered))])
    case Release(g) => WithWorker(s.(free := s.free + 1), g, Ended)
    case CloseSlots => s.(slotsClosed := true)
    case CloseTable => s.(table := Closed(s.table), closing := s.closing + Generations(s.table.entries))
    case CloseSignal(g) => s.(cancelled := s.cancelled + {g})
    case CloseSend(g) =>
      s.(closing := s.closing - {g},
         tasks := s.tasks[g := s.tasks[g].(channel := Some(Err(ServiceClosed)))],
         free := s.free + 1)
  }

  // ---- the invariant -----------------------------------------------------

  predicate Running(w: Worker) {
    w.Spawned? || w.Fetching? || w.Finished?
  }

  predicate Silent(s: System, g: nat) {
    g in s.tasks && s.tasks[g].channel.None?
  }

  predicate Spoken(s: System, g: nat) {
    g in s.tasks && s.tasks[g].channel.Some?
  }

  predicate LandingAt(w: Worker) {
    w.Delivering? || w.Sent?
  }

  /** Every generation ever named has been issued. */
  ghost predicate Issued(s: System) {
    && (forall g | g in s.tasks :: g < s.table.nextFlight)
    && (forall g | g in s.cancelled :: g in s.tasks)
  }

  /** An installed flight has a live worker, an open channel and an untouched cancel signal;
      a flight `close` still has to answer has an open channel. */
  ghost predicate Owned(s: System) {
    && (forall r, g | InFlight(s.table, r, g) ::
          && Silent(s, g) && Running(s.tasks[g].worker) && s.tasks[g].worker.relay == r && g !in s.cancelled)
    && (s.closing != {} ==> !s.table.open)
    && (forall g | g in s.closing :: Silent(s, g) && !LandingAt(s.tasks[g].worker))
  }

  /** A landed worker publishes exactly once, and drops the flight only after publishing. */
  ghost predicate Piped(s: System) {
    forall g | g in s.tasks ::
      && (s.tasks[g].worker.Delivering? ==> s.tasks[g].channel.None? && g !in s.cancelled)
      && (s.tasks[g].worker.Sent? ==> s.tasks[g].channel.Some?)
  }

  /** What a subscription rests on: a value, or someone who is going to send one. */
  ghost predicate Attended(s: System, relay: Relay, g: nat) {
    && g in s.tasks
    && (s.tasks[g].channel.Some? || InFlight(s.table, relay, g) || s.tasks[g].worker.Delivering? || g in s.closing)
  }

  ghost predicate Served(s: System) {
    && (forall c | c in s.callers && s.callers[c].Waiting? :: Attended(s, s.callers[c].relay, s.callers[c].generation))
    && (forall c | c in s.callers && s.callers[c].Waiting? && s.callers[c].generation in s.cancelled ::
          Spoken(s, s.callers[c].generation) || s.callers[c].generation in s.closing)
    && (forall g | g in s.cancelled && Spoken(s, g) :: s.tasks[g].channel == Some(Err(ServiceClosed)))
  }

  /** Nobody holds or awaits generation g any more; only its worker may still be at it. */
  ghost predicate Orphaned(s: System, g: nat) {
    && Silent(s, g) && !LandingAt(s.tasks[g].worker) && g !in s.closing
    && (forall r :: !InFlight(s.table, r, g))
    && (forall c | c in s.callers && s.callers[c].Waiting? :: s.callers[c].generation != g)
  }

  ghost predicate Dropped(s: System) {
    forall c | c in s.callers && s.callers[c].Cancelling? :: Orphaned(s, s.callers[c].generation)
  }

  /** The copy a worker set out with describes its relay, and while its flight is installed it
      is still the copy in the table. */
  ghost predicate TrueTo(t: Table, g: nat, w: Worker) {
    w.Fetching? || w.Finished? ==>
      && (w.cached.Some? ==> w.cached.value.snapshot.payload.relay == w.relay)
      && (InFlight(t, w.relay, g) ==> t.entries[w.relay].cached == w.cached)
      && (w.Finished? ==> Derived(w))
  }

  ghost predicate Faithful(s: System) {
    forall g | g in s.tasks :: TrueTo(s.table, g, s.tasks[g].worker)
  }

  /** A finished result comes from its answer: a 200 body makes a new payload, a 304 keeps
      the payload the worker set out with, and a failure is the answer's own, the refusal of its
      body, or a 304 over nothing. */
  ghost predicate Derived(w: Worker)
    requires w.Finished?
  {
    && (w.result.Err? ==>
          || w.answer == Err(w.result.error)
          || (w.answer.Ok? && w.answer.value.body.Some? && w.answer.value.body.value.refusal == Some(w.result.error))
          || (w.answer.Ok? && w.answer.value.body.None? && w.cached.None? && w.result.error.Http?))
    && (w.answer.Err? ==> w.result.Err?)
    && (w.result.Ok? ==>
      && w.answer.Ok?
      && w.result.value.payload ==
         (if w.answer.value.body.Some? then Payload(w.relay, w.answer.value.body.value.rawJson)
          else if w.cached.Some? then w.cached.value.snapshot.payload else w.result.value.payload)
      && (w.answer.value.body.None? ==> w.cached.Some?)
      && (w.answer.value.body.Some? ==> w.answer.value.body.value.refusal.None?))
  }

  function PermitHolders(callers: map<nat, Caller>): set<nat> {
    set c | c in callers && callers[c].Registering? && callers[c].permit
  }

  function Landing(tasks: map<nat, Task>): set<nat> {
    set g | g in tasks && LandingAt(tasks[g].worker)
  }

  /** Free permits and every holder of one. */
  function Permits(s: System): int {
    s.free + |PermitHolders(s.callers)| + |FlightRelays(s.table.entries)| + |Landing(s.tasks)| + |s.closing|
  }

  ghost predicate Inv(s: System) {
    && Sound(s.table) && Issued(s) && Owned(s) && Piped(s) && Served(s) && Dropped(s) && Faithful(s)
    && s.free >= 0 && Permits(s) == MAX_ACTIVE_FETCHES
  }

  lemma InitialInv(capacity: nat)
    requires capacity > 0
    ensures Inv(Initial(capacity))
  {
    var s := Initial(capacity);
    assert CachedRelays(s.table.entries) == {} && FlightRelays(s.table.entries) == {};
    assert PermitHolders(s.callers) == {} && Landing(s.tasks) == {};
  }

  // ---- counting ----------------------------------------------------------

  lemma HoldersAfterPut(callers: map<nat, Caller>, c: nat, v: Caller)
    ensures PermitHolders(callers[c := v])
            == if v.Registering? && v.permit then PermitHolders(callers) + {c} else PermitHolders(callers) - {c}
  {
  }

  lemma LandingAfterPut(tasks: map<nat, Task>, g: nat, task: Task)
    ensures Landing(tasks[g := task])
            == if LandingAt(task.worker) then Landing(tasks) + {g} else Landing(tasks) - {g}
  {
  }

  lemma FlightsAfterRegister(t: Table, relay: Relay, policy: CachePolicy, permit: bool, now: nat)
    ensures var (t', r) := Register(t, relay, policy, permit, now);
            FlightRelays(t'.entries)
              == if r.Installed? then FlightRelays(t.entries) + {relay} else FlightRelays(t.entries)
    ensures Register(t, relay, policy, permit, now).1.Installed? ==> relay !in FlightRelays(t.entries)
  {
  }

  lemma FlightsAfterCancel(t: Table, relay: Relay, g: nat, receivers: nat)
    ensures var (t', went) := Cancel(t, relay, g, receivers);
            FlightRelays(t'.entries) == if went then FlightRelays(t.entries) - {relay} else FlightRelays(t.entries)
    ensures Cancel(t, relay, g, receivers).1 ==> relay in FlightRelays(t.entries)
  {
  }

  lemma FlightsAfterComplete(t: Table, relay: Relay, g: nat, result: Outcome, now: nat, victim: Option<Relay>)
    requires InFlight(t, relay, g) && VictimFor(t, relay, result.Ok?, victim)
    ensures FlightRelays(Complete(t, relay, g, result, now, victim).0.entries) == FlightRelays(t.entries) - {relay}
  {
    var entries := Landed(t, relay);
    assert FlightRelays(entries) == FlightRelays(t.entries) - {relay};
    var settled := if result.Ok? then Stored(entries, relay, result.value, t.clock, t.capacity, victim)
                   else Failed(entries, relay, result.error, now).0;
    assert FlightRelays(settled) == FlightRelays(entries);
    assert FlightRelays(Retained(settled)) == FlightRelays(settled);
  }

  lemma {:induction false} DistinctGenerations(entries: map<Relay, Entry>, relays: set<Relay>)
    requires relays <= FlightRelays(entries)
    requires forall r, q | r in relays && q in relays && entries[r].flight == entries[q].flight :: r == q
    ensures |set r | r in relays :: entries[r].flight.value| == |relays|
  {
    var image := set r | r in relays :: entries[r].flight.value;
    if relays == {} {
      assert image == {};
    } else {
      var one :| one in relays;
      var rest := relays - {one};
      DistinctGenerations(entries, rest);
      assert image == (set r | r in rest :: entries[r].flight.value) + {entries[one].flight.value};
    }
  }
}
