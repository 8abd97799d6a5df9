/** Runs of the NIP-11 service with any number of fetches at once. */
module AcquisitionOverlap {
  import opened Wrappers
  import opened RelayInformation
  import opened AcquisitionTable
  import opened Acquisition
  import opened AcquisitionRuns

  ghost predicate Reachable(s: System) {
    exists trace, steps :: Run(trace, steps) && trace[|steps|] == s
  }

  lemma ReachableStart(capacity: nat)
    requires capacity > 0
    ensures Reachable(Initial(capacity))
  {
    var steps: seq<Step> := [];
    assert Run([Initial(capacity)], steps);
  }

  lemma ReachableStep(s: System, step: Step)
    requires Reachable(s) && Enabled(s, step)
    ensures Reachable(Apply(s, step))
  {
    hide Enabled, Apply;
    var trace, steps :| Run(trace, steps) && trace[|steps|] == s;
    var longer, more := trace + [Apply(s, step)], steps + [step];
    forall i | 0 <= i < |more| ensures Enabled(longer[i], more[i]) && longer[i + 1] == Apply(longer[i], more[i]) {
      if i < |steps| { assert Enabled(trace[i], steps[i]); }
    }
    assert Run(longer, more) && longer[|more|] == Apply(s, step);
  }

  /** Nothing stands in the way of one more fetch. */
  predicate Roomy(s: System, c: nat, relay: Relay) {
    s.table.open && !s.slotsClosed && s.free > 0 && c !in s.callers && relay !in s.table.entries
  }

  /** A caller got a fetch of its own, which is at `worker`. */
  predicate Grew(s: System, s': System, c: nat, relay: Relay, worker: Worker) {
    var g := s.table.nextFlight;
    && s'.callers == s.callers[c := Waiting(relay, g)] && s'.tasks == s.tasks[g := Task(worker, None)]
    && s'.free == s.free - 1 && s'.slotsClosed == s.slotsClosed && s'.table.open && s'.table.nextFlight == g + 1
    && relay in s'.table.entries && s'.table.entries == s.table.entries[relay := s'.table.entries[relay]]
    && s'.table.entries[relay].cached.None? && s'.table.entries[relay].flight == Some(g)
  }

  /** A caller has asked and found neither a copy nor a flight. */
  predicate Queued(s: System, s': System, c: nat, relay: Relay) {
    && s' == s.(table := s'.table, callers := s.callers[c := AwaitingAdmission(relay, UseCache)])
    && s'.table == s.table.(entries := s.table.entries[relay := Entry(None, None, s.table.clock)],
      clock := s.table.clock + 1)
  }

  lemma QueueUp(s: System, c: nat, relay: Relay) returns (s': System)
    requires Reachable(s) && Roomy(s, c, relay)
    ensures Reachable(s') && Queued(s, s', c, relay)
  {
    hide Reachable;
    var asked := Apply(s, Call(c, relay, UseCache));
    ReachableStep(s, Call(c, relay, UseCache));
    s' := Apply(asked, RegisterStep(c, 0));
    ReachableStep(asked, RegisterStep(c, 0));
  }

  lemma TakeOff(s: System, queued: System, c: nat, relay: Relay) returns (s': System)
    requires Reachable(queued) && Roomy(s, c, relay) && Queued(s, queued, c, relay)
    ensures Reachable(s') && Grew(s, s', c, relay, Spawned(relay))
  {
    hide Reachable;
    var admitted := Apply(queued, Admit(c));
    ReachableStep(queued, Admit(c));
    s' := Apply(admitted, RegisterStep(c, 0));
    ReachableStep(admitted, RegisterStep(c, 0));
  }

  lemma StartUp(s: System, flying: System, c: nat, relay: Relay) returns (s': System)
    requires Reachable(flying) && Grew(s, flying, c, relay, Spawned(relay))
    ensures Reachable(s') && Grew(s, s', c, relay, Fetching(relay, None))
  {
    hide Reachable;
    s' := Apply(flying, Start(s.table.nextFlight));
    ReachableStep(flying, Start(s.table.nextFlight));
  }

  lemma OneMoreFetch(s: System, c: nat, relay: Relay) returns (s': System)
    requires Reachable(s) && Roomy(s, c, relay)
    ensures Reachable(s') && Grew(s, s', c, relay, Fetching(relay, None))
  {
    hide Reachable, Roomy, Queued, Grew;
    var queued := QueueUp(s, c, relay);
    var flying := TakeOff(s, queued, c, relay);
    s' := StartUp(s, flying, c, relay);
  }

  /** The caller gives up, its flight leaves the table with its permit, and the worker goes on. */
  predicate LetGo(s: System, s': System, c: nat) {
    && c in s.callers && s'.callers == s.callers[c := Abandoned] && s'.tasks == s.tasks
    && s'.free == s.free + 1 && s'.slotsClosed == s.slotsClosed && s'.table.open == s.table.open
    && s'.table.nextFlight == s.table.nextFlight && s.callers[c].Waiting?
    && s'.table.entries == s.table.entries - {s.callers[c].relay}
  }

  ghost predicate OnlyWaiter(s: System, c: nat) {
    && c in s.callers && s.callers[c].Waiting? && Subscribers(s.callers, s.callers[c].generation) == {c}
    && InFlight(s.table, s.callers[c].relay, s.callers[c].generation)
    && s.table.entries[s.callers[c].relay].cached.None?
  }

  lemma NobodyLeft(callers: map<nat, Caller>, c: nat, v: Caller, g: nat)
    requires Subscribers(callers, g) == {c} && !v.Waiting?
    ensures Subscribers(callers[c := v], g) == {}
  {
    var left := Subscribers(callers[c := v], g);
    assert forall d | d in left :: d in Subscribers(callers, g) && d != c;
  }

  lemma GiveUp(s: System, c: nat) returns (s': System)
    requires Reachable(s) && OnlyWaiter(s, c)
    ensures Reachable(s') && LetGo(s, s', c)
  {
    hide Reachable;
    var g := s.callers[c].generation;
    var dropped := Apply(s, DropWait(c));
    ReachableStep(s, DropWait(c));
    NobodyLeft(s.callers, c, dropped.callers[c], g);
    var cancelling := Apply(dropped, CancelStep(c));
    ReachableStep(dropped, CancelStep(c));
    s' := Apply(cancelling, SignalStep(c));
    ReachableStep(cancelling, SignalStep(c));
  }

  // ---- any number --------------------------------------------------------

  function RelayNo(i: nat): Relay {
    Relay(seq(i, _ => 'r'))
  }

  lemma RelaysDiffer(i: nat, j: nat)
    requires RelayNo(i) == RelayNo(j)
    ensures i == j
  {
    assert |RelayNo(i).url| == i && |RelayNo(j).url| == j;
  }

  /** The first n callers have come and gone, and the fetch of each is still under way. */
  ghost predicate Crowded(s: System, n: nat) {
    && s.table.open && !s.slotsClosed && s.free == MAX_ACTIVE_FETCHES && s.table.nextFlight == n + 1
    && s.table.entries == map[]
    && (forall c | c in s.callers :: c < n && s.callers[c] == Abandoned)
    && (forall g: nat :: g in s.tasks <==> 0 < g <= n)
    && (forall g: nat | 0 < g <= n :: s.tasks[g].worker == Fetching(RelayNo(g), None))
  }

  lemma CrowdGrows(s: System, grown: System, n: nat)
    requires Crowded(s, n) && Grew(s, grown, n, RelayNo(n + 1), Fetching(RelayNo(n + 1), None))
    ensures OnlyWaiter(grown, n)
  {
    hide RelayNo;
  }

  lemma CrowdAgain(s: System, grown: System, s': System, n: nat)
    requires Crowded(s, n) && Grew(s, grown, n, RelayNo(n + 1), Fetching(RelayNo(n + 1), None)) && LetGo(grown, s', n)
    ensures Crowded(s', n + 1)
  {
    hide RelayNo;
  }

  lemma {:induction false} Crowd(n: nat) returns (s: System)
    ensures Reachable(s) && Crowded(s, n)
  {
    hide Reachable, RelayNo;
    if n == 0 {
      s := Initial(1);
      ReachableStart(1);
    } else {
      var before := Crowd(n - 1);
      var grown := OneMoreFetch(before, n - 1, RelayNo(n));
      CrowdGrows(before, grown, n - 1);
      s := GiveUp(grown, n - 1);
      CrowdAgain(before, grown, s, n - 1);
    }
  }

  function Fetches(s: System): set<nat> {
    set g | g in s.tasks && s.tasks[g].worker.Fetching?
  }

  /** No two fetches are for one relay. */
  ghost predicate Apart(s: System) {
    forall g, h | g in Fetches(s) && h in Fetches(s) && s.tasks[g].worker.relay == s.tasks[h].worker.relay :: g == h
  }

  lemma {:induction false} CountUp(xs: set<nat>, n: nat)
    requires forall g: nat :: g in xs <==> 0 < g <= n
    ensures |xs| == n
  {
    if n == 0 {
      assert xs == {};
    } else {
      CountUp(xs - {n}, n - 1);
    }
  }

  lemma CrowdedFetches(s: System, n: nat)
    requires Crowded(s, n)
    ensures |Fetches(s)| == n && Apart(s) && s.free == 8
  {
    hide RelayNo;
    CountUp(Fetches(s), n);
    forall g, h | g in Fetches(s) && h in Fetches(s) && s.tasks[g].worker.relay == s.tasks[h].worker.relay
      ensures g == h
    {
      RelaysDiffer(g, h);
    }
  }

  /** For every number some run ends with that many fetches at once, each at a relay of its own, while all eight
      permits are free: callers come, and give up before their fetch has stopped. */
  lemma FetchesAreUnbounded(n: nat)
    ensures exists trace: seq<System>, steps: seq<Step> ::
      Run(trace, steps) && |Fetches(trace[|steps|])| == n && Apart(trace[|steps|]) && trace[|steps|].free == 8
  {
    hide RelayNo, Fetches, Apart, Enabled, Apply, Crowded;
    var s := Crowd(n);
    CrowdedFetches(s, n);
    var trace, steps :| Run(trace, steps) && trace[|steps|] == s;
  }
}
