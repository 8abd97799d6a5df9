/** The table the NIP-11 service guards with its mutex: one pure step per lock-held section,
    and the class whose methods carry those steps out on its fields. */
module AcquisitionTable {
  import opened Wrappers
  import opened RelayInformation

  type Outcome = Result<Snapshot, Error>

  /** `flight` is the generation of the installed flight. */
  datatype Entry = Entry(cached: Option<Cached>, flight: Option<nat>, lastAccess: nat)

  datatype Table = Table(
    open: bool,
    entries: map<Relay, Entry>,
    clock: nat,
    nextFlight: nat,
    capacity: nat)

  datatype Registration =
    | Refused
    | Ready(snapshot: Snapshot)
    | Joined(generation: nat)
    | Installed(generation: nat)
    | NeedsAdmission

  function CachedRelays(entries: map<Relay, Entry>): set<Relay> {
    set r | r in entries && entries[r].cached.Some?
  }

  function FlightRelays(entries: map<Relay, Entry>): set<Relay> {
    set r | r in entries && entries[r].flight.Some?
  }

  predicate InFlight(t: Table, relay: Relay, generation: nat) {
    t.open && relay in t.entries && t.entries[relay].flight == Some(generation)
  }

  // ---- register ----------------------------------------------------------

  function Touched(t: Table, relay: Relay): Table {
    var entry := if relay in t.entries then t.entries[relay] else Entry(None, None, 0);
    t.(entries := t.entries[relay := entry.(lastAccess := t.clock)], clock := t.clock + 1)
  }

  predicate ServesFromCache(t: Table, relay: Relay, policy: CachePolicy, now: nat) {
    policy == UseCache && relay in t.entries && t.entries[relay].cached.Some?
    && now < t.entries[relay].cached.value.freshUntil
  }

  function Register(t: Table, relay: Relay, policy: CachePolicy, permit: bool, now: nat): (Table, Registration) {
    if !t.open then (t, Refused)
    else
      var touched := Touched(t, relay);
      var entry := touched.entries[relay];
      if ServesFromCache(t, relay, policy, now) then
        (touched, Ready(entry.cached.value.snapshot.WithReadState(Fresh, None)))
      else if entry.flight.Some? then (touched, Joined(entry.flight.value))
      else if !permit then (touched, NeedsAdmission)
      else
        (touched.(entries := touched.entries[relay := entry.(flight := Some(t.nextFlight))],
                  nextFlight := t.nextFlight + 1),
         Installed(t.nextFlight))
  }

  function Copy(t: Table, relay: Relay): Option<Cached> {
    if relay in t.entries then t.entries[relay].cached else None
  }

  function FlightOf(t: Table, relay: Relay): Option<nat> {
    if relay in t.entries then t.entries[relay].flight else None
  }

  /** A caller may be answered from the cache: it asked for that, and the copy has not expired. */
  predicate CacheAnswers(t: Table, relay: Relay, policy: CachePolicy, now: nat) {
    policy == UseCache && Copy(t, relay).Some? && now < Copy(t, relay).value.freshUntil
  }

  /** Each of the five answers is given exactly in its case, and the copy answered with is the cached one. */
  lemma RegistrationIsExact(t: Table, relay: Relay, policy: CachePolicy, permit: bool, now: nat)
    ensures
      var r := Register(t, relay, policy, permit, now).1;
      var waits := t.open && !CacheAnswers(t, relay, policy, now);
      && (r.Refused? <==> !t.open)
      && (r.Ready? <==> t.open && CacheAnswers(t, relay, policy, now))
      && (r.Ready? ==>
            var held := Copy(t, relay).value.snapshot;
            r.snapshot == Snapshot(held.payload, held.fetchedAt, held.freshUntil, Fresh, held.etag, held.lastModified,
                                   held.cacheControl, held.expires, None))
      && (r.Joined? <==> waits && FlightOf(t, relay).Some?)
      && (r.Joined? ==> Some(r.generation) == FlightOf(t, relay))
      && (r.NeedsAdmission? <==> waits && FlightOf(t, relay).None? && !permit)
      && (r.Installed? <==> waits && FlightOf(t, relay).None? && permit)
      && (r.Installed? ==> r.generation == t.nextFlight)
  {
  }

  /** Registering keeps every copy and every other entry, installs only what it answers, and makes the relay's entry
      the most recently accessed. */
  lemma RegistrationEffects(t: Table, relay: Relay, policy: CachePolicy, permit: bool, now: nat)
    requires Sound(t) && t.open
    ensures
      var (t', r) := Register(t, relay, policy, permit, now);
      && t'.entries.Keys == t.entries.Keys + {relay} && Copy(t', relay) == Copy(t, relay)
      && FlightOf(t', relay) == (if r.Installed? then Some(t.nextFlight) else FlightOf(t, relay))
      && (forall q | q in t.entries && q != relay ::
            t'.entries[q] == t.entries[q] && t'.entries[q].lastAccess < t'.entries[relay].lastAccess)
  {
  }

  // ---- complete ----------------------------------------------------------

  predicate Evictable(entries: map<Relay, Entry>, relay: Relay, candidate: Relay) {
    candidate in entries && candidate != relay
    && entries[candidate].cached.Some? && entries[candidate].flight.None?
  }

  ghost predicate LeastRecentlyAccessed(entries: map<Relay, Entry>, relay: Relay, victim: Relay) {
    && Evictable(entries, relay, victim)
    && forall other | Evictable(entries, relay, other) :: entries[victim].lastAccess <= entries[other].lastAccess
  }

  predicate NeedsRoom(entries: map<Relay, Entry>, relay: Relay, capacity: nat)
    requires relay in entries
  {
    entries[relay].cached.None? && |CachedRelays(entries)| >= capacity
  }

  /** The entries once the exact flight has been taken out of its slot. */
  function Landed(t: Table, relay: Relay): map<Relay, Entry>
    requires relay in t.entries
  {
    t.entries[relay := t.entries[relay].(flight := None)]
  }

  /** What `complete` may evict: the least recently accessed idle copy when room is needed
      and there is one, nothing otherwise. */
  ghost predicate VictimFor(t: Table, relay: Relay, stored: bool, victim: Option<Relay>)
    requires relay in t.entries
  {
    var entries := Landed(t, relay);
    if stored && NeedsRoom(entries, relay, t.capacity) then
      if victim.Some? then LeastRecentlyAccessed(entries, relay, victim.value)
      else forall other :: !Evictable(entries, relay, other)
    else victim.None?
  }

  function Retained(entries: map<Relay, Entry>): map<Relay, Entry> {
    map r | r in entries && (entries[r].cached.Some? || entries[r].flight.Some?) :: entries[r]
  }

  predicate AllowsStale(error: Error) {
    !error.ServiceClosed? && !error.CredentialedRelayUrl?
  }

  function StaleCopy(held: Snapshot, error: Error, now: nat): Snapshot {
    held.(freshUntil := now, freshness := Stale, lastError := Some(error))
  }

  /** The entries after a success: an eviction if one was chosen, then the stored snapshot
      unless the table is full of copies that are all being refreshed. */
  function Stored(entries: map<Relay, Entry>, relay: Relay, snapshot: Snapshot, clock: nat, capacity: nat,
                  victim: Option<Relay>): map<Relay, Entry>
    requires relay in entries && (victim.Some? ==> victim.value != relay)
  {
    if NeedsRoom(entries, relay, capacity) && victim.None? then entries
    else
      var kept := if victim.Some? then entries - {victim.value} else entries;
      kept[relay := Entry(Some(Cached(snapshot, snapshot.freshUntil)), kept[relay].flight, clock)]
  }

  /** The entries and the delivered value after a failure. */
  function Failed(entries: map<Relay, Entry>, relay: Relay, error: Error, now: nat): (map<Relay, Entry>, Outcome)
    requires relay in entries
  {
    var entry := entries[relay];
    if entry.cached.Some? && AllowsStale(error) then
      var stale := StaleCopy(entry.cached.value.snapshot, error, now);
      (entries[relay := entry.(cached := Some(Cached(stale, 0)))], Ok(stale))
    else (entries, Err(error))
  }

  function Complete(t: Table, relay: Relay, generation: nat, result: Outcome, now: nat, victim: Option<Relay>)
    : (Table, Option<Outcome>)
    requires victim.Some? ==> victim.value != relay
  {
    if !InFlight(t, relay, generation) then (t, None)
    else
      var entries := Landed(t, relay);
      var (settled, delivered) :=
        if result.Ok? then (Stored(entries, relay, result.value, t.clock, t.capacity, victim), result)
        else Failed(entries, relay, result.error, now);
      (t.(entries := Retained(settled), clock := t.clock + 1), Some(delivered))
  }

  // ---- cancel, read, close -----------------------------------------------

  /** Cancellation of a flight nobody subscribes to; the flag says whether a flight went. */
  function Cancel(t: Table, relay: Relay, generation: nat, receivers: nat): (Table, bool) {
    if !InFlight(t, relay, generation) || receivers != 0 then (t, false)
    else
      var entry := t.entries[relay].(flight := None);
      (t.(entries := if entry.cached.None? then t.entries - {relay} else t.entries[relay := entry]), true)
  }

  function ReadCached(t: Table, relay: Relay, now: nat): (Table, Option<Snapshot>) {
    if !t.open then (t, None)
    else if relay !in t.entries then (t.(clock := t.clock + 1), None)
    else
      var touched := Touched(t, relay);
      var entry := touched.entries[relay];
      (touched,
       if entry.cached.None? then None
       else Some(entry.cached.value.snapshot.WithReadState(FreshnessAt(entry.cached.value.freshUntil, now),
                                                           entry.cached.value.snapshot.lastError)))
  }

  /** A read answers with the cached copy and its last error, fresh exactly until it expires, and changes nothing but
      the relay's access stamp, which becomes the most recent. */
  lemma ReadIsExact(t: Table, relay: Relay, now: nat)
    requires Sound(t)
    ensures
      var (t', r) := ReadCached(t, relay, now);
      && (r.Some? <==> t.open && Copy(t, relay).Some?)
      && (r.Some? ==>
            var held := Copy(t, relay).value;
            r.value == held.snapshot.(freshness := r.value.freshness)
            && (r.value.freshness == Fresh <==> now < held.freshUntil))
      && t'.entries.Keys == t.entries.Keys && Copy(t', relay) == Copy(t, relay)
      && FlightOf(t', relay) == FlightOf(t, relay)
      && (forall q | q in t.entries && q != relay ::
            t'.entries[q] == t.entries[q]
            && (relay in t.entries ==> t'.entries[q].lastAccess < t'.entries[relay].lastAccess))
  {
  }

  /** A flight goes exactly when it is the one installed and nobody listens; its copy stays, and an entry that is
      left with nothing goes with it. */
  lemma CancelIsExact(t: Table, relay: Relay, generation: nat, receivers: nat)
    ensures
      var (t', went) := Cancel(t, relay, generation, receivers);
      && (went <==> t.open && FlightOf(t, relay) == Some(generation) && receivers == 0)
      && (!went ==> t' == t)
      && (went ==> FlightOf(t', relay).None? && Copy(t', relay) == Copy(t, relay)
                   && (relay in t'.entries <==> Copy(t, relay).Some?)
                   && forall q | q != relay :: (q in t'.entries <==> q in t.entries)
                                               && (q in t.entries ==> t'.entries[q] == t.entries[q]))
  {
  }

  /** Some copy is idle: cached, and not being refreshed. */
  ghost predicate SomeIdle(t: Table, relay: Relay) {
    exists q :: q in t.entries && q != relay && t.entries[q].cached.Some? && t.entries[q].flight.None?
  }

  /** What a landing delivers and leaves cached. A success is delivered as it is, and kept unless the table is full of
      copies that are all being refreshed. A failure over a copy is answered with that copy, marked stale and no longer
      servable, unless the service closed or the URL held credentials; any other failure is delivered as it is. */
  lemma CompletionIsExact(t: Table, relay: Relay, generation: nat, result: Outcome, now: nat, victim: Option<Relay>)
    requires Sound(t) && InFlight(t, relay, generation) && VictimFor(t, relay, result.Ok?, victim)
    ensures
      var (t', delivered) := Complete(t, relay, generation, result, now, victim);
      var held, kept := Copy(t, relay), Copy(t', relay);
      && FlightOf(t', relay).None?
      && (result.Ok? ==>
            && delivered == Some(result)
            && kept == if held.Some? || |CachedRelays(t.entries)| < t.capacity || SomeIdle(t, relay)
                       then Some(Cached(result.value, result.value.freshUntil)) else None)
      && (result.Err? ==>
            var tolerated := result.error.Http? || result.error.ResponseTooLarge? || result.error.InvalidDocument?;
            if held.Some? && tolerated then
              var stale := held.value.snapshot.(freshUntil := now, freshness := Stale, lastError := Some(result.error));
              kept == Some(Cached(stale, 0)) && delivered == Some(Ok(stale))
            else kept == held && delivered == Some(result))
  {
    var entries := Landed(t, relay);
    assert CachedRelays(entries) == CachedRelays(t.entries);
    if victim.Some? { assert Evictable(entries, relay, victim.value); }
    if q :| q in t.entries && q != relay && t.entries[q].cached.Some? && t.entries[q].flight.None? {
      assert Evictable(entries, relay, q);
    }
  }

  function Closed(t: Table): Table {
    t.(open := false, entries := map[])
  }

  /** The generations `close` takes out of the table. */
  function Generations(entries: map<Relay, Entry>): set<nat> {
    set r | r in entries && entries[r].flight.Some? :: entries[r].flight.value
  }

  // ---- what every lock-held section keeps --------------------------------

  /** Access stamps are unique and already issued. */
  ghost predicate Stamped(entries: map<Relay, Entry>, clock: nat) {
    && (forall r | r in entries :: entries[r].lastAccess < clock)
    && (forall r, q | r in entries && q in entries && r != q :: entries[r].lastAccess != entries[q].lastAccess)
  }

  /** A cached copy describes the relay it is filed under. */
  ghost predicate Filed(entries: map<Relay, Entry>) {
    forall r | r in entries && entries[r].cached.Some? :: entries[r].cached.value.snapshot.payload.relay == r
  }

  ghost predicate Sound(t: Table) {
    && t.capacity > 0
    && (!t.open ==> t.entries == map[])
    && Stamped(t.entries, t.clock)
    && Filed(t.entries)
    && |CachedRelays(t.entries)| <= t.capacity
  }

  lemma StampedAfterTouch(entries: map<Relay, Entry>, relay: Relay, entry: Entry, clock: nat)
    requires Stamped(entries, clock) && entry.lastAccess == clock
    ensures Stamped(entries[relay := entry], clock + 1)
  {
  }

  lemma StampedAfterKeep(entries: map<Relay, Entry>, kept: map<Relay, Entry>, clock: nat, later: nat)
    requires Stamped(entries, clock) && clock <= later
    requires forall r | r in kept :: r in entries && kept[r].lastAccess == entries[r].lastAccess
    ensures Stamped(kept, later)
  {
  }

  lemma CachedAfterPut(entries: map<Relay, Entry>, relay: Relay, entry: Entry)
    ensures CachedRelays(entries[relay := entry])
            == if entry.cached.Some? then CachedRelays(entries) + {relay} else CachedRelays(entries) - {relay}
  {
  }

  lemma PutKeepsSound(t: Table, relay: Relay, entry: Entry, t': Table)
    requires Sound(t) && t.open && t'.open && t'.capacity == t.capacity && t'.clock == t.clock + 1
    requires t'.entries == t.entries[relay := entry] && entry.lastAccess == t.clock
    requires entry.cached == if relay in t.entries then t.entries[relay].cached else None
    ensures Sound(t')
  {
    StampedAfterTouch(t.entries, relay, entry, t.clock);
    hide Stamped;
    assert CachedRelays(t'.entries) == CachedRelays(t.entries) by {
      hide Filed;
      CachedAfterPut(t.entries, relay, entry);
    }
  }

  lemma RegisterKeepsSound(t: Table, relay: Relay, policy: CachePolicy, permit: bool, now: nat)
    requires Sound(t)
    ensures Sound(Register(t, relay, policy, permit, now).0)
  {
    if t.open {
      var t' := Register(t, relay, policy, permit, now).0;
      PutKeepsSound(t, relay, t'.entries[relay], t');
    }
  }

  lemma ReadCachedKeepsSound(t: Table, relay: Relay, now: nat)
    requires Sound(t)
    ensures Sound(ReadCached(t, relay, now).0)
  {
    if t.open && relay in t.entries {
      var t' := ReadCached(t, relay, now).0;
      PutKeepsSound(t, relay, t'.entries[relay], t');
    }
  }

  lemma CancelOnlyDrops(t: Table, relay: Relay, generation: nat, receivers: nat)
    ensures
      var t' := Cancel(t, relay, generation, receivers).0;
      && t'.capacity == t.capacity && t'.open == t.open && t'.clock == t.clock
      && (forall r | r in t'.entries ::
            && r in t.entries && t'.entries[r].cached == t.entries[r].cached
            && t'.entries[r].lastAccess == t.entries[r].lastAccess)
      && (forall r | r in t.entries && t.entries[r].cached.Some? :: r in t'.entries)
  {
  }

  lemma CancelKeepsSound(t: Table, relay: Relay, generation: nat, receivers: nat)
    requires Sound(t)
    ensures Sound(Cancel(t, relay, generation, receivers).0)
  {
    var t' := Cancel(t, relay, generation, receivers).0;
    CancelOnlyDrops(t, relay, generation, receivers);
    hide Cancel, Stamped;
    assert CachedRelays(t'.entries) == CachedRelays(t.entries);
    StampedAfterKeep(t.entries, t'.entries, t.clock, t.clock);
  }

  lemma StoredStaysBounded(entries: map<Relay, Entry>, relay: Relay, snapshot: Snapshot, clock: nat, capacity: nat,
                           victim: Option<Relay>)
    requires relay in entries && capacity > 0 && |CachedRelays(entries)| <= capacity
    requires victim.Some? ==> Evictable(entries, relay, victim.value)
    ensures |CachedRelays(Stored(entries, relay, snapshot, clock, capacity, victim))| <= capacity
  {
    if !(NeedsRoom(entries, relay, capacity) && victim.None?) {
      var kept := if victim.Some? then entries - {victim.value} else entries;
      var entry := Entry(Some(Cached(snapshot, snapshot.freshUntil)), kept[relay].flight, clock);
      CachedAfterPut(kept, relay, entry);
      if victim.Some? {
        assert CachedRelays(kept) == CachedRelays(entries) - {victim.value};
      } else if entries[relay].cached.Some? {
        assert CachedRelays(kept) + {relay} == CachedRelays(entries);
      }
    }
  }

  lemma StoredKeeps(entries: map<Relay, Entry>, relay: Relay, snapshot: Snapshot, clock: nat, capacity: nat,
                    victim: Option<Relay>)
    requires relay in entries && Stamped(entries, clock) && Filed(entries) && snapshot.payload.relay == relay
    requires victim.Some? ==> victim.value != relay
    ensures Stamped(Stored(entries, relay, snapshot, clock, capacity, victim), clock + 1)
    ensures Filed(Stored(entries, relay, snapshot, clock, capacity, victim))
  {
    if !(NeedsRoom(entries, relay, capacity) && victim.None?) {
      var kept := if victim.Some? then entries - {victim.value} else entries;
      var entry := Entry(Some(Cached(snapshot, snapshot.freshUntil)), kept[relay].flight, clock);
      StampedAfterKeep(entries, kept, clock, clock);
      StampedAfterTouch(kept, relay, entry, clock);
    }
  }

  lemma RetainedKeeps(entries: map<Relay, Entry>, clock: nat)
    requires Stamped(entries, clock) && Filed(entries)
    ensures Stamped(Retained(entries), clock) && Filed(Retained(entries))
    ensures CachedRelays(Retained(entries)) == CachedRelays(entries)
  {
    StampedAfterKeep(entries, Retained(entries), clock, clock);
  }

  lemma FailedKeeps(entries: map<Relay, Entry>, relay: Relay, error: Error, now: nat, clock: nat)
    requires relay in entries && Stamped(entries, clock) && Filed(entries)
    ensures var settled := Failed(entries, relay, error, now).0;
            CachedRelays(settled) == CachedRelays(entries) && Stamped(settled, clock + 1) && Filed(settled)
  {
    StampedAfterKeep(entries, Failed(entries, relay, error, now).0, clock, clock + 1);
  }

  lemma LandedKeeps(t: Table, relay: Relay)
    requires Sound(t) && relay in t.entries
    ensures CachedRelays(Landed(t, relay)) == CachedRelays(t.entries)
    ensures Stamped(Landed(t, relay), t.clock) && Filed(Landed(t, relay))
  {
    StampedAfterKeep(t.entries, Landed(t, relay), t.clock, t.clock);
  }

  lemma CompleteKeepsSound(t: Table, relay: Relay, generation: nat, result: Outcome, now: nat, victim: Option<Relay>)
    requires Sound(t) && InFlight(t, relay, generation)
    requires VictimFor(t, relay, result.Ok?, victim)
    requires result.Ok? ==> result.value.payload.relay == relay
    ensures Sound(Complete(t, relay, generation, result, now, victim).0)
  {
    LandedKeeps(t, relay);
    var entries := Landed(t, relay);
    if result.Ok? {
      StoredKeeps(entries, relay, result.value, t.clock, t.capacity, victim);
      StoredStaysBounded(entries, relay, result.value, t.clock, t.capacity, victim);
      RetainedKeeps(Stored(entries, relay, result.value, t.clock, t.capacity, victim), t.clock + 1);
    } else {
      FailedKeeps(entries, relay, result.error, now, t.clock);
      RetainedKeeps(Failed(entries, relay, result.error, now).0, t.clock + 1);
    }
  }

  /** Stamps are unique, so the evicted copy is the only one the rule can choose. */
  lemma VictimIsUnique(t: Table, relay: Relay, stored: bool, v: Option<Relay>, w: Option<Relay>)
    requires Sound(t) && relay in t.entries
    requires VictimFor(t, relay, stored, v) && VictimFor(t, relay, stored, w)
    ensures v == w
  {
    var entries := Landed(t, relay);
    if v.Some? && w.Some? {
      assert t.entries[v.value].lastAccess == entries[v.value].lastAccess;
      assert t.entries[w.value].lastAccess == entries[w.value].lastAccess;
    }
  }

  /** What one effective completion does to every other relay: nothing, except that the one
      least recently accessed idle copy may go, and entries holding neither copy nor flight go. */
  lemma CompleteTouchesOnlyTheVictim(t: Table, relay: Relay, generation: nat, result: Outcome, now: nat,
                                     victim: Option<Relay>, other: Relay)
    requires Sound(t) && InFlight(t, relay, generation) && other != relay
    requires VictimFor(t, relay, result.Ok?, victim)
    ensures
      var entries' := Complete(t, relay, generation, result, now, victim).0.entries;
      if other in t.entries && Some(other) != victim && (t.entries[other].cached.Some? || t.entries[other].flight.Some?)
      then other in entries' && entries'[other] == t.entries[other]
      else other !in entries'
    ensures Some(other) == victim ==>
      && t.entries[other].cached.Some? && t.entries[other].flight.None?
      && |CachedRelays(t.entries)| == t.capacity
      && forall r | r in t.entries && r != relay && t.entries[r].cached.Some? && t.entries[r].flight.None? && r != other
           :: t.entries[other].lastAccess < t.entries[r].lastAccess
  {
    var entries := Landed(t, relay);
    assert CachedRelays(entries) == CachedRelays(t.entries);
    if Some(other) == victim {
      forall r | r in t.entries && r != relay && t.entries[r].cached.Some? && t.entries[r].flight.None? && r != other
        ensures t.entries[other].lastAccess < t.entries[r].lastAccess
      {
        assert Evictable(entries, relay, r);
      }
    }
  }

  lemma CompleteLeavesNoEmptyEntry(t: Table, relay: Relay, generation: nat, result: Outcome, now: nat,
                                   victim: Option<Relay>, r: Relay)
    requires InFlight(t, relay, generation) && (victim.Some? ==> victim.value != relay)
    requires r in Complete(t, relay, generation, result, now, victim).0.entries
    ensures var entry := Complete(t, relay, generation, result, now, victim).0.entries[r];
            entry.cached.Some? || entry.flight.Some?
  {
  }

  // ---- the class ---------------------------------------------------------

  class RelayInformationTable {
    const capacity: nat
    var open: bool
    var entries: map<Relay, Entry>
    var accessClock: nat
    var nextFlight: nat

    ghost function View(): Table
      reads this
    {
      Table(open, entries, accessClock, nextFlight, capacity)
    }

    constructor (capacity: nat)
      requires capacity > 0
      ensures View() == Table(true, map[], 0, 1, capacity) && Sound(View())
    {
      this.capacity := capacity;
      open, entries, accessClock, nextFlight := true, map[], 0, 1;
      new;
      assert CachedRelays(entries) == {};
    }

    method RegisterCaller(relay: Relay, policy: CachePolicy, permit: bool, now: nat) returns (r: Registration)
      requires Sound(View())
      modifies this
      ensures (View(), r) == Register(old(View()), relay, policy, permit, now)
      ensures Sound(View())
    {
      RegisterKeepsSound(View(), relay, policy, permit, now);
      hide Sound;
      if !open {
        return Refused;
      }
      var access := accessClock;
      accessClock := accessClock + 1;
      var entry := if relay in entries then entries[relay] else Entry(None, None, 0);
      entry := entry.(lastAccess := access);
      entries := entries[relay := entry];
      if policy == UseCache && entry.cached.Some? && now < entry.cached.value.freshUntil {
        return Ready(entry.cached.value.snapshot.WithReadState(Fresh, None));
      }
      if entry.flight.Some? {
        return Joined(entry.flight.value);
      }
      if !permit {
        return NeedsAdmission;
      }
      var generation := nextFlight;
      nextFlight := nextFlight + 1;
      entries := entries[relay := entry.(flight := Some(generation))];
      r := Installed(generation);
    }

    method CountCached() returns (n: nat)
      ensures n == |CachedRelays(entries)|
    {
      n := 0;
      var todo := entries.Keys;
      ghost var done: set<Relay> := {};
      while todo != {}
        invariant todo + done == entries.Keys && todo !! done
        invariant n == |CachedRelays(entries) * done|
        decreases todo
      {
        var r :| r in todo;
        if entries[r].cached.Some? {
          n := n + 1;
          assert CachedRelays(entries) * (done + {r}) == CachedRelays(entries) * done + {r};
        } else {
          assert CachedRelays(entries) * (done + {r}) == CachedRelays(entries) * done;
        }
        todo, done := todo - {r}, done + {r};
      }
      assert CachedRelays(entries) * done == CachedRelays(entries);
    }

    method FindVictim(relay: Relay) returns (victim: Option<Relay>)
      ensures victim.Some? ==> LeastRecentlyAccessed(entries, relay, victim.value)
      ensures victim.None? ==> forall other :: !Evictable(entries, relay, other)
    {
      victim := None;
      var todo := entries.Keys;
      while todo != {}
        invariant todo <= entries.Keys
        invariant victim.Some? ==> Evictable(entries, relay, victim.value)
        invariant victim.Some? ==> forall other | Evictable(entries, relay, other) && other !in todo
                    :: entries[victim.value].lastAccess <= entries[other].lastAccess
        invariant victim.None? ==> forall other | other !in todo :: !Evictable(entries, relay, other)
        decreases todo
      {
        var r :| r in todo;
        todo := todo - {r};
        if Evictable(entries, relay, r)
           && (victim.None? || entries[r].lastAccess < entries[victim.value].lastAccess) {
          victim := Some(r);
        }
      }
    }

    /** The success arm of a landing: make room if need be, then keep the snapshot. */
    method Store(relay: Relay, snapshot: Snapshot, access: nat) returns (ghost victim: Option<Relay>)
      requires relay in entries
      modifies this`entries
      ensures if NeedsRoom(old(entries), relay, capacity) then
                (if victim.Some? then LeastRecentlyAccessed(old(entries), relay, victim.value)
                 else forall other :: !Evictable(old(entries), relay, other))
              else victim.None?
      ensures entries == Stored(old(entries), relay, snapshot, access, capacity, victim)
    {
      victim := None;
      var count := CountCached();
      if entries[relay].cached.None? && count >= capacity {
        var eviction := FindVictim(relay);
        victim := eviction;
        if eviction.None? {
          return;
        }
        entries := entries - {eviction.value};
      }
      entries := entries[relay := Entry(Some(Cached(snapshot, snapshot.freshUntil)), entries[relay].flight, access)];
    }

    /** One landing of a worker. Returns the value to publish, when this worker's flight was installed. */
    method CompleteFlight(relay: Relay, generation: nat, result: Outcome, now: nat)
      returns (delivered: Option<Outcome>, ghost victim: Option<Relay>)
      requires Sound(View())
      requires result.Ok? ==> result.value.payload.relay == relay
      modifies this
      ensures victim.Some? ==> victim.value != relay
      ensures InFlight(old(View()), relay, generation) ==> VictimFor(old(View()), relay, result.Ok?, victim)
      ensures (View(), delivered) == Complete(old(View()), relay, generation, result, now, victim)
      ensures Sound(View())
    {
      victim := None;
      if !open || relay !in entries || entries[relay].flight != Some(generation) {
        return None, None;
      }
      entries := entries[relay := entries[relay].(flight := None)];
      var access := accessClock;
      accessClock := accessClock + 1;
      delivered := Some(result);
      if result.Ok? {
        victim := Store(relay, result.value, access);
      } else {
        var entry := entries[relay];
        if entry.cached.Some? && AllowsStale(result.error) {
          var stale := StaleCopy(entry.cached.value.snapshot, result.error, now);
          entries := entries[relay := entry.(cached := Some(Cached(stale, 0)))];
          delivered := Some(Ok(stale));
        }
      }
      entries := map r | r in entries && (entries[r].cached.Some? || entries[r].flight.Some?) :: entries[r];
      CompleteKeepsSound(old(View()), relay, generation, result, now, victim);
    }

    method CancelUnobserved(relay: Relay, generation: nat, receivers: nat) returns (cancelled: bool)
      requires Sound(View())
      modifies this
      ensures (View(), cancelled) == Cancel(old(View()), relay, generation, receivers)
      ensures Sound(View())
    {
      CancelKeepsSound(View(), relay, generation, receivers);
      if !open || relay !in entries || entries[relay].flight != Some(generation) || receivers != 0 {
        return false;
      }
      entries := entries[relay := entries[relay].(flight := None)];
      if entries[relay].cached.None? {
        entries := entries - {relay};
      }
      assert entries == Cancel(old(View()), relay, generation, receivers).0.entries;
      cancelled := true;
    }

    method Read(relay: Relay, now: nat) returns (snapshot: Option<Snapshot>)
      requires Sound(View())
      modifies this
      ensures (View(), snapshot) == ReadCached(old(View()), relay, now)
      ensures Sound(View())
    {
      ReadCachedKeepsSound(View(), relay, now);
      if !open {
        return None;
      }
      var access := accessClock;
      accessClock := accessClock + 1;
      if relay !in entries {
        return None;
      }
      entries := entries[relay := entries[relay].(lastAccess := access)];
      var cached := entries[relay].cached;
      if cached.None? {
        return None;
      }
      var freshness := if now < cached.value.freshUntil then Fresh else Stale;
      snapshot := Some(cached.value.snapshot.WithReadState(freshness, cached.value.snapshot.lastError));
    }

    method Close() returns (flights: set<nat>)
      requires Sound(View())
      modifies this
      ensures View() == Closed(old(View())) && flights == Generations(old(entries))
      ensures Sound(View())
    {
      flights := set r | r in entries && entries[r].flight.Some? :: entries[r].flight.value;
      open, entries := false, map[];
      assert CachedRelays(entries) == {};
    }
  }
}
