/** The quota side of admission over whole runs: quotas hold although reservations and
    objects are counted apart, from readings that are spread over time. */
module WebhookSafety {
  import opened Common
  import opened Addresses
  import opened Webhook
  import opened WebhookReservations

  /** A create: the API server stamps it before it asks for its admission. */
  datatype Request = Request(name: Name, key: Key, ip: Option<Address>, created: Time, at: Time) {
    function Claims(): Claim
      requires ip.Some?
    {
      Claim(key.pool, ip.value)
    }

    predicate Pins(c: Claim) {
      key.pool == c.pool && ip == Some(c.ip)
    }
  }

  /** Where a create stands: its address is checked, the objects that its quota check
      counts are listed, or it is admitted. */
  datatype Phase = Checked | Counting(fips: Fips, at: Time) | Admitted

  /** since is when its earliest reservation was taken; it is persisted before that
      expires, or never. */
  datatype Flight = Flight(request: Request, phase: Phase, since: Time)

  /** A create between its look at the reservations and its list; it has the pool's lock. */
  datatype Probe = Probe(id: nat, request: Request)

  /** log lists the admissions of this process; pinned the addresses that the creates
      of the persisted objects asked for; probes has the holder of each pool's lock. */
  datatype State = State(
    now: Time, fips: Fips, pinned: map<Name, Address>, probes: map<string, Probe>, flights: map<nat, Flight>,
    log: seq<Admission>, quotas: map<Key, int>, quotaReservations: map<Key, seq<Time>>,
    ipReservations: map<Claim, Time>)

  /** A decision comes with the two readings of the clock that it rests on. */
  datatype Step =
    | Arrive(id: nat, request: Request)
    | CheckAddress(pool: string)
    | ListQuota(id: nat)
    | DecideQuota(id: nat, clock: Time, read: Time)
    | Persist(id: nat)
    | Assign(n: Name, ip: Address)
    | Fail(n: Name)
    | Terminate(n: Name)
    | Delete(n: Name)
    | Tick(now: Time)

  predicate InTime(f: Flight, now: Time) {
    now < f.since + RESERVATION_TTL
  }

  /** The lock of a project and pool is held from the list to the decision. */
  predicate Locked(s: State, k: Key) {
    exists id :: id in s.flights && s.flights[id].phase.Counting? && s.flights[id].request.key == k
  }

  predicate Enabled(s: State, step: Step) {
    match step
    case Arrive(id, r) =>
      && id !in s.flights && (forall p :: p in s.probes ==> s.probes[p].id != id)
      && r.created <= r.at == s.now && (r.ip.Some? ==> r.key.pool !in s.probes)
    case CheckAddress(p) => p in s.probes && s.probes[p].request.ip.Some?
    case ListQuota(id) => id in s.flights && s.flights[id].phase.Checked? && !Locked(s, s.flights[id].request.key)
    case DecideQuota(id, clock, read) =>
      id in s.flights && s.flights[id].phase.Counting? && s.flights[id].phase.at <= clock <= read <= s.now
    case Persist(id) =>
      && id in s.flights && s.flights[id].phase.Admitted? && InTime(s.flights[id], s.now)
      && s.flights[id].request.name !in s.fips
    case Assign(n, ip) => n in s.fips && s.fips[n].Occupies() && (s.fips[n].ip.Some? ==> s.fips[n].ip == Some(ip))
    case Fail(n) => n in s.fips && !s.fips[n].holds
    case Terminate(n) => n in s.fips
    case Delete(n) => n in s.fips && s.fips[n].terminating
    case Tick(now) => s.now <= now
  }

  /** A create without a pinned address has nothing to check; with one, it is denied
      while the address is reserved, and takes the pool's lock otherwise. */
  function Arrived(s: State, id: nat, r: Request): State {
    if r.ip.None? then s.(flights := s.flights[id := Flight(r, Checked, s.now)])
    else if Reserved(s.ipReservations, r.Claims(), s.now) then s
    else s.(ipReservations := Probed(s.ipReservations, r.Claims()), probes := s.probes[r.key.pool := Probe(id, r)])
  }

  function AddressChecked(s: State, p: string, id: nat, r: Request): State
    requires r.ip.Some?
  {
    s.(ipReservations := Listed(s.fips, s.ipReservations, r.Claims(), s.now),
       flights := if ClaimedByAny(s.fips, r.Claims()) then s.flights else s.flights[id := Flight(r, Checked, s.now)],
       probes := s.probes - {p})
  }

  /** Without a quota there is nothing to list. */
  function QuotaListed(s: State, id: nat, f: Flight): State {
    s.(flights :=
      if f.request.key in s.quotas then s.flights[id := f.(phase := Counting(s.fips, s.now))] else s.flights - {id})
  }

  function DecisionOn(s: State, f: Flight, clock: Time, read: Time): Verdict
    requires f.phase.Counting?
  {
    QuotaVerdict(f.phase.fips, s.quotas, s.quotaReservations, f.request.name, f.request.key, clock, read)
  }

  /** An admitted create without a pinned address has only this reservation. */
  function Admit(f: Flight, now: Time): Flight {
    f.(phase := Admitted, since := if f.request.ip.Some? then f.since else now)
  }

  function QuotaDecided(s: State, id: nat, f: Flight, clock: Time, read: Time): State
    requires f.phase.Counting?
  {
    var v, r := DecisionOn(s, f, clock, read), f.request;
    s.(quotaReservations := QuotaReservationsAfter(v, s.quotaReservations, r.key, read, s.now),
       flights := if v == Allowed then s.flights[id := Admit(f, s.now)] else s.flights - {id},
       log := if v == Allowed then s.log + [Admission(r.name, r.key, s.now)] else s.log)
  }

  function Persisted(s: State, id: nat, r: Request): State {
    s.(fips := s.fips[r.name := Fip(r.key, r.ip, false, false, false, r.created)],
       pinned := if r.ip.Some? then s.pinned[r.name := r.ip.value] else s.pinned - {r.name},
       flights := s.flights - {id})
  }

  function Changed(s: State, n: Name, fip: Fip): State {
    s.(fips := s.fips[n := fip])
  }

  function Next(s: State, step: Step): State
    requires Enabled(s, step)
  {
    match step
    case Arrive(id, r) => Arrived(s, id, r)
    case CheckAddress(p) => AddressChecked(s, p, s.probes[p].id, s.probes[p].request)
    case ListQuota(id) => QuotaListed(s, id, s.flights[id])
    case DecideQuota(id, clock, read) => QuotaDecided(s, id, s.flights[id], clock, read)
    case Persist(id) => Persisted(s, id, s.flights[id].request)
    case Assign(n, ip) => Changed(s, n, s.fips[n].(ip := Some(ip), holds := true, errored := false))
    case Fail(n) => Changed(s, n, s.fips[n].(errored := true))
    case Terminate(n) => Changed(s, n, s.fips[n].(terminating := true))
    case Delete(n) => s.(fips := s.fips - {n}, pinned := s.pinned - {n})
    case Tick(now) => s.(now := now)
  }

  // ------------------------------------------------------------------- slots of a quota

  predicate Awaited(f: Flight, now: Time, k: Key) {
    f.phase.Admitted? && f.request.key == k && InTime(f, now)
  }

  function AwaitedNames(flights: map<nat, Flight>, now: Time, k: Key): set<Name> {
    set id | id in flights && Awaited(flights[id], now, k) :: flights[id].request.name
  }

  /** The names that take a slot of the quota: persisted ones that occupy it, and
      admitted ones that may still be persisted. */
  function SlotsTaken(s: State, k: Key): set<Name> {
    Occupying(s.fips, k, None) + AwaitedNames(s.flights, s.now, k)
  }

  lemma FewerAwaited(flights: map<nat, Flight>, now: Time, after: map<nat, Flight>, later: Time, k: Key)
    requires now <= later
    requires forall id :: id in after && Awaited(after[id], later, k) ==> id in flights && flights[id] == after[id]
    ensures AwaitedNames(after, later, k) <= AwaitedNames(flights, now, k)
  {
    forall n | n in AwaitedNames(after, later, k)
      ensures n in AwaitedNames(flights, now, k)
    {
      var id :| id in after && Awaited(after[id], later, k) && after[id].request.name == n;
      assert Awaited(flights[id], now, k);
    }
  }

  lemma PersistTakesNoSlot(s: State, id: nat, k: Key)
    requires Enabled(s, Persist(id))
    ensures SlotsTaken(Next(s, Persist(id)), k) <= SlotsTaken(s, k)
  {
    hide AwaitedNames;
    var t, r := Next(s, Persist(id)), s.flights[id].request;
    FewerAwaited(s.flights, s.now, t.flights, t.now, k);
    assert Occupying(t.fips, k, None) <= Occupying(s.fips, k, None) + if r.key == k then {r.name} else {};
    if r.key == k {
      IsAwaited(s.flights, s.now, k, id);
    }
  }

  lemma IsAwaited(flights: map<nat, Flight>, now: Time, k: Key, id: nat)
    requires id in flights && Awaited(flights[id], now, k)
    ensures flights[id].request.name in AwaitedNames(flights, now, k)
  {
  }

  lemma ChangesTakeNoSlot(s: State, step: Step, k: Key)
    requires Enabled(s, step) && (step.Assign? || step.Fail? || step.Terminate? || step.Delete?)
    ensures SlotsTaken(Next(s, step), k) <= SlotsTaken(s, k)
  {
    hide AwaitedNames;
    assert Occupying(Next(s, step).fips, k, None) <= Occupying(s.fips, k, None);
  }

  lemma FlightsTakeNoSlot(s: State, step: Step, k: Key)
    requires Enabled(s, step) && (step.Arrive? || step.CheckAddress? || step.ListQuota? || step.Tick?)
    ensures SlotsTaken(Next(s, step), k) <= SlotsTaken(s, k)
  {
    hide AwaitedNames, Reserved, Probed, Listed, ClaimedByAny, Occupying, InTime;
    FewerAwaited(s.flights, s.now, Next(s, step).flights, Next(s, step).now, k) by {
      FlightsStay(s, step);
    }
    assert Next(s, step).fips == s.fips;
  }

  /** Every flight of the later state was there before, or its address was just checked. */
  predicate OnlyArrivals(s: State, t: State) {
    && t.fips == s.fips && t.log == s.log && t.quotaReservations == s.quotaReservations && t.now == s.now
    && t.quotas == s.quotas
    && forall id :: id in t.flights && !t.flights[id].phase.Checked?
         ==> id in s.flights && s.flights[id] == t.flights[id]
  }

  lemma AddsOneArrival(s: State, t: State, id: nat, f: Flight)
    requires OnlyArrivals(s, t) && f.phase.Checked?
    ensures OnlyArrivals(s, t.(flights := t.flights[id := f]))
  {
  }

  lemma NothingArrives(s: State, t: State)
    requires t == s.(probes := t.probes, ipReservations := t.ipReservations)
    ensures OnlyArrivals(s, t)
  {
  }

  lemma ArriveOnlyArrives(s: State, id: nat, r: Request)
    ensures OnlyArrivals(s, Arrived(s, id, r))
  {
    hide OnlyArrivals, Reserved, Probed;
    NothingArrives(s, s);
    AddsOneArrival(s, s, id, Flight(r, Checked, s.now));
    if r.ip.Some? {
      NothingArrives(s, s.(probes := s.probes[r.key.pool := Probe(id, r)],
                           ipReservations := Probed(s.ipReservations, r.Claims())));
    }
  }

  lemma CheckOnlyArrives(s: State, p: string, id: nat, r: Request)
    requires r.ip.Some?
    ensures OnlyArrivals(s, AddressChecked(s, p, id, r))
  {
    hide Listed, ClaimedByAny;
  }

  lemma FlightsStay(s: State, step: Step)
    requires Enabled(s, step) && (step.Arrive? || step.CheckAddress? || step.ListQuota? || step.Tick?)
    ensures var t := Next(s, step);
      && s.now <= t.now && t.fips == s.fips
      && forall id :: id in t.flights && t.flights[id].phase.Admitted?
           ==> id in s.flights && s.flights[id] == t.flights[id]
  {
    hide Arrived, AddressChecked, Locked;
    match step
    case Arrive(id, r) => ArriveOnlyArrives(s, id, r);
    case CheckAddress(p) => CheckOnlyArrives(s, p, s.probes[p].id, s.probes[p].request);
    case _ =>
  }

  lemma DecisionTakesOneSlot(s: State, step: Step, k: Key)
    requires Enabled(s, step) && step.DecideQuota?
    ensures var t, r := Next(s, step), s.flights[step.id].request;
      SlotsTaken(t, k) <= SlotsTaken(s, k) + if t.log != s.log && r.key == k then {r.name} else {}
  {
    hide QuotaVerdict, QuotaReservationsAfter, Occupying;
    var t, id := Next(s, step), step.id;
    forall n | n in AwaitedNames(t.flights, t.now, k)
      ensures n in AwaitedNames(s.flights, s.now, k)
        || (t.log != s.log && s.flights[id].request.key == k && n == s.flights[id].request.name)
    {
      var i :| i in t.flights && Awaited(t.flights[i], t.now, k) && t.flights[i].request.name == n;
      if i != id {
        IsAwaited(s.flights, s.now, k, i);
      }
    }
  }

  predicate Decides(s: State, step: Step, k: Key) {
    step.DecideQuota? && step.id in s.flights && s.flights[step.id].request.key == k
  }

  /** Only a decision about a key can take a slot of it. */
  lemma OthersTakeNoSlot(s: State, step: Step, k: Key)
    requires Enabled(s, step) && !Decides(s, step, k)
    ensures SlotsTaken(Next(s, step), k) <= SlotsTaken(s, k)
  {
    hide SlotsTaken, Next;
    if step.DecideQuota? {
      DecisionTakesOneSlot(s, step, k);
    } else if step.Persist? {
      PersistTakesNoSlot(s, step.id, k);
    } else if step.Assign? || step.Fail? || step.Terminate? || step.Delete? {
      ChangesTakeNoSlot(s, step, k);
    } else {
      FlightsTakeNoSlot(s, step, k);
    }
  }

  // -------------------------------------------------------------------------- accounts

  /** An object was admitted by this process after it was stamped, or is so old that
      no reservation of it can count. */
  ghost predicate ObjectsAreAccounted(fips: Fips, log: seq<Admission>, now: Time) {
    forall n :: n in fips ==>
      WasAdmitted(log, n, fips[n].key, fips[n].created) || fips[n].created + RESERVATION_TTL <= now
  }

  ghost predicate FlightIsAccounted(f: Flight, log: seq<Admission>, now: Time) {
    && f.request.created <= f.since <= now
    && (f.phase.Admitted? ==> WasAdmitted(log, f.request.name, f.request.key, f.since))
    && (f.phase.Counting? ==> f.phase.at <= now)
  }

  ghost predicate FlightsAreAccounted(flights: map<nat, Flight>, log: seq<Admission>, now: Time) {
    forall id :: id in flights ==> FlightIsAccounted(flights[id], log, now)
  }

  ghost predicate ProbesAreAccounted(probes: map<string, Probe>, now: Time) {
    forall p :: p in probes ==> probes[p].request.created <= probes[p].request.at <= now
  }

  ghost predicate Accounted(s: State) {
    && ObjectsAreAccounted(s.fips, s.log, s.now)
    && FlightsAreAccounted(s.flights, s.log, s.now)
    && ProbesAreAccounted(s.probes, s.now)
    && Follows(s.quotaReservations, s.log, s.now)
  }

  lemma UnpinnedKeepsAccounts(s: State, id: nat, r: Request)
    requires Accounted(s) && r.created <= s.now
    ensures Accounted(s.(flights := s.flights[id := Flight(r, Checked, s.now)]))
  {
    hide Follows, ObjectsAreAccounted, WasAdmitted;
  }

  lemma ProbingKeepsAccounts(s: State, p: string, probe: Probe, ips: map<Claim, Time>)
    requires Accounted(s) && probe.request.created <= probe.request.at <= s.now
    ensures Accounted(s.(ipReservations := ips, probes := s.probes[p := probe]))
  {
    hide Follows, ObjectsAreAccounted, FlightsAreAccounted;
  }

  lemma ArriveKeepsAccounts(s: State, id: nat, r: Request)
    requires Accounted(s) && Enabled(s, Arrive(id, r))
    ensures Accounted(Next(s, Arrive(id, r)))
  {
    hide Accounted, Reserved, Probed;
    if r.ip.None? {
      UnpinnedKeepsAccounts(s, id, r);
    } else if !Reserved(s.ipReservations, r.Claims(), s.now) {
      ProbingKeepsAccounts(s, r.key.pool, Probe(id, r), Probed(s.ipReservations, r.Claims()));
    }
  }

  lemma AddressCheckKeepsAccounts(s: State, p: string)
    requires Accounted(s) && Enabled(s, CheckAddress(p))
    ensures Accounted(Next(s, CheckAddress(p)))
  {
    hide Listed, ClaimedByAny, Follows, ObjectsAreAccounted, WasAdmitted;
  }

  lemma ListKeepsAccounts(s: State, id: nat)
    requires Accounted(s) && Enabled(s, ListQuota(id))
    ensures Accounted(Next(s, ListQuota(id)))
  {
    hide Locked, Follows, ObjectsAreAccounted, WasAdmitted;
    assert FlightIsAccounted(s.flights[id], s.log, s.now);
  }

  lemma PersistKeepsAccounts(s: State, id: nat)
    requires Accounted(s) && Enabled(s, Persist(id))
    ensures Accounted(Next(s, Persist(id)))
  {
    hide Follows;
    var f, t := s.flights[id], Next(s, Persist(id));
    assert FlightIsAccounted(f, s.log, s.now);
    assert WasAdmitted(s.log, f.request.name, f.request.key, f.request.created) by {
      var i :| 0 <= i < |s.log|
        && s.log[i].name == f.request.name && s.log[i].key == f.request.key && f.since <= s.log[i].at;
    }
  }

  lemma ChangeKeepsAccounts(s: State, step: Step)
    requires Accounted(s) && Enabled(s, step) && (step.Assign? || step.Fail? || step.Terminate? || step.Delete?)
    ensures Accounted(Next(s, step))
  {
    hide Follows, FlightsAreAccounted, WasAdmitted;
  }

  lemma TickKeepsAccounts(s: State, now: Time)
    requires Accounted(s) && s.now <= now
    ensures Accounted(s.(now := now))
  {
    hide Follows, WasAdmitted;
    TickFollows(s.quotaReservations, s.log, s.now, now);
    forall id | id in s.flights
      ensures FlightIsAccounted(s.flights[id], s.log, now)
    {
      assert FlightIsAccounted(s.flights[id], s.log, s.now);
    }
  }

  lemma LongerLogKeepsAccounts(fips: Fips, flights: map<nat, Flight>, log: seq<Admission>, e: Admission, now: Time)
    requires ObjectsAreAccounted(fips, log, now) && FlightsAreAccounted(flights, log, now)
    ensures ObjectsAreAccounted(fips, log + [e], now) && FlightsAreAccounted(flights, log + [e], now)
  {
    forall n | n in fips && WasAdmitted(log, n, fips[n].key, fips[n].created)
      ensures WasAdmitted(log + [e], n, fips[n].key, fips[n].created)
    {
      AdmissionsStay(log, e, n, fips[n].key, fips[n].created);
    }
    forall id | id in flights
      ensures FlightIsAccounted(flights[id], log + [e], now)
    {
      var f := flights[id];
      assert FlightIsAccounted(f, log, now);
      if f.phase.Admitted? {
        AdmissionsStay(log, e, f.request.name, f.request.key, f.since);
      }
    }
  }

  lemma DecisionKeepsAccounts(s: State, step: Step)
    requires Accounted(s) && Enabled(s, step) && step.DecideQuota?
    ensures Accounted(Next(s, step))
  {
    hide Follows, QuotaVerdict, QuotaReservationsAfter, WasAdmitted;
    var f := s.flights[step.id];
    var v, r := DecisionOn(s, f, step.clock, step.read), f.request;
    assert FlightIsAccounted(f, s.log, s.now);
    DecisionFollows(s.quotaReservations, s.log, v, r, step.read, s.now);
    if v == Allowed {
      var e := Admission(r.name, r.key, s.now);
      LongerLogKeepsAccounts(s.fips, s.flights, s.log, e, s.now);
      WasJustAdmitted(s.log, e, Admit(f, s.now).since);
    }
  }

  lemma WasJustAdmitted(log: seq<Admission>, e: Admission, since: Time)
    requires since <= e.at
    ensures WasAdmitted(log + [e], e.name, e.key, since)
  {
    assert (log + [e])[|log|] == e;
  }

  lemma DecisionFollows(
      quota: map<Key, seq<Time>>, log: seq<Admission>, v: Verdict, r: Request, read: Time, now: Time)
    requires Follows(quota, log, now) && read <= now
    ensures Follows(QuotaReservationsAfter(v, quota, r.key, read, now),
                    if v == Allowed then log + [Admission(r.name, r.key, now)] else log, now)
  {
    hide Follows;
    PruningFollows(quota, log, r.key, read, now);
    AdmittingFollows(quota, log, r.name, r.key, read, now);
  }

  lemma StepKeepsAccounts(s: State, step: Step)
    requires Accounted(s) && Enabled(s, step)
    ensures Accounted(Next(s, step))
  {
    hide Accounted, Arrived, AddressChecked, QuotaListed, QuotaDecided, Persisted, Changed;
    match step
    case DecideQuota(_, _, _) => DecisionKeepsAccounts(s, step);
    case ListQuota(id) => ListKeepsAccounts(s, id);
    case Persist(id) => PersistKeepsAccounts(s, id);
    case Arrive(id, r) => ArriveKeepsAccounts(s, id, r);
    case CheckAddress(p) => AddressCheckKeepsAccounts(s, p);
    case Tick(now) => TickKeepsAccounts(s, now);
    case _ => ChangeKeepsAccounts(s, step);
  }

  // -------------------------------------------------------------------- the counting

  /** Every name in flight and every recent object has an unexpired reservation. */
  lemma HasActiveAdmission(s: State, k: Key, n: Name)
    requires Accounted(s)
    requires n in AwaitedNames(s.flights, s.now, k) || n in Recent(s.fips, k, None, s.now - RESERVATION_TTL)
    ensures exists i :: i in ActiveAdmissions(s.log, k, s.now) && s.log[i].name == n
  {
    var since;
    if n in AwaitedNames(s.flights, s.now, k) {
      var id :| id in s.flights && Awaited(s.flights[id], s.now, k) && s.flights[id].request.name == n;
      assert FlightIsAccounted(s.flights[id], s.log, s.now);
      since := s.flights[id].since;
    } else {
      since := s.fips[n].created;
    }
    var i :| 0 <= i < |s.log| && s.log[i].name == n && s.log[i].key == k && since <= s.log[i].at;
    assert i in ActiveAdmissions(s.log, k, s.now);
  }

  /** Recent objects and names in flight are distinct, and each has a reservation. */
  lemma RecentAndAwaitedAreActive(s: State, k: Key, self: Name, cutoff: Time)
    requires Accounted(s) && s.now - RESERVATION_TTL <= cutoff
    ensures
      |Recent(s.fips, k, Some(self), cutoff)|
      + |AwaitedNames(s.flights, s.now, k) - {self} - Occupying(s.fips, k, None)|
      <= |Prune(ReservationsOf(s.quotaReservations, k), s.now)|
  {
    var recent := Recent(s.fips, k, Some(self), cutoff);
    var awaited := AwaitedNames(s.flights, s.now, k) - {self} - Occupying(s.fips, k, None);
    var active := ActiveAdmissions(s.log, k, s.now);
    forall n | n in recent + awaited
      ensures exists i :: i in active && s.log[i].name == n
    {
      HasActiveAdmission(s, k, n);
    }
    ImageSize(active, recent + awaited, map i | i in active :: s.log[i].name);
    ActiveExpiries(s.log, k, s.now);
    assert recent !! awaited;
  }

  lemma OthersOccupying(fips: Fips, k: Key, self: Name)
    ensures Occupying(fips, k, Some(self)) == Occupying(fips, k, None) - {self}
  {
  }

  lemma OthersSlots(a: set<Name>, b: set<Name>, self: Name)
    ensures |a + b - {self}| == |a - {self}| + |b - {self} - a|
  {
    assert a + b - {self} == (a - {self}) + (b - {self} - a);
  }

  /** At the instant of the list, pairing reservations off against recent objects never
      hides a create in flight, wherever the cutoff is read from then on. */
  lemma UsageCovers(s: State, k: Key, self: Name, cutoff: Time)
    requires Accounted(s) && s.now - RESERVATION_TTL <= cutoff
    ensures |SlotsTaken(s, k) - {self}|
         <= Usage(s.fips, |Prune(ReservationsOf(s.quotaReservations, k), s.now)|, k, Some(self), cutoff)
  {
    RecentAndAwaitedAreActive(s, k, self, cutoff);
    OthersOccupying(s.fips, k, self);
    OthersSlots(Occupying(s.fips, k, None), AwaitedNames(s.flights, s.now, k), self);
  }

  // --------------------------------------------------------- what a list is still good for

  /** The listed objects, with the reservations that were unexpired then, still count
      every slot, however many of them have expired since. */
  ghost predicate ListCovers(s: State, f: Flight)
    requires f.phase.Counting?
  {
    var k, self := f.request.key, f.request.name;
    forall cutoff :: f.phase.at - RESERVATION_TTL <= cutoff ==>
      |SlotsTaken(s, k) - {self}|
      <= Usage(f.phase.fips, |Prune(ReservationsOf(s.quotaReservations, k), f.phase.at)|, k, Some(self), cutoff)
  }

  ghost predicate ListsCover(s: State) {
    forall id :: id in s.flights && s.flights[id].phase.Counting? ==> ListCovers(s, s.flights[id])
  }

  predicate Rivals(f: Flight, g: Flight) {
    f.phase.Counting? && g.phase.Counting? && f.request.key == g.request.key
  }

  /** One lock for a project and pool. */
  predicate OneAtATime(flights: map<nat, Flight>) {
    forall i, j :: i in flights && j in flights && Rivals(flights[i], flights[j]) ==> i == j
  }

  ghost predicate Inv(s: State) {
    Accounted(s) && OneAtATime(s.flights) && ListsCover(s)
  }

  lemma CoverStays(s: State, t: State, f: Flight)
    requires f.phase.Counting? && ListCovers(s, f)
    requires SlotsTaken(t, f.request.key) <= SlotsTaken(s, f.request.key)
    requires ReservationsOf(t.quotaReservations, f.request.key) == ReservationsOf(s.quotaReservations, f.request.key)
    ensures ListCovers(t, f)
  {
    hide SlotsTaken, Usage, Prune;
    var k, self := f.request.key, f.request.name;
    SubsetSize(SlotsTaken(t, k) - {self}, SlotsTaken(s, k) - {self});
  }

  lemma ListingCovers(s: State, id: nat)
    requires Accounted(s) && Enabled(s, ListQuota(id)) && s.flights[id].request.key in s.quotas
    ensures ListCovers(Next(s, ListQuota(id)), Next(s, ListQuota(id)).flights[id])
  {
    hide SlotsTaken, Usage, Prune, Accounted, Locked;
    var t, r := Next(s, ListQuota(id)), s.flights[id].request;
    FlightsTakeNoSlot(s, ListQuota(id), r.key);
    SubsetSize(SlotsTaken(t, r.key) - {r.name}, SlotsTaken(s, r.key) - {r.name});
    forall cutoff | s.now - RESERVATION_TTL <= cutoff
      ensures |SlotsTaken(s, r.key) - {r.name}|
           <= Usage(s.fips, |Prune(ReservationsOf(s.quotaReservations, r.key), s.now)|, r.key, Some(r.name), cutoff)
    {
      UsageCovers(s, r.key, r.name, cutoff);
    }
  }

  /** A step adds a list only by listing, under the lock, and leaves the reservations of
      every other locked key alone. */
  lemma ListsStay(s: State, step: Step, id: nat)
    requires Enabled(s, step) && OneAtATime(s.flights)
    requires id in Next(s, step).flights && Next(s, step).flights[id].phase.Counting?
    requires !(step.ListQuota? && step.id == id)
    ensures var t := Next(s, step);
      && id in s.flights && t.flights[id] == s.flights[id] && !Decides(s, step, s.flights[id].request.key)
      && ReservationsOf(t.quotaReservations, s.flights[id].request.key)
         == ReservationsOf(s.quotaReservations, s.flights[id].request.key)
  {
    hide Arrived, AddressChecked, QuotaDecided, InTime, Prune;
    match step
    case Arrive(i, r) => ArriveOnlyArrives(s, i, r);
    case CheckAddress(p) => CheckOnlyArrives(s, p, s.probes[p].id, s.probes[p].request);
    case DecideQuota(_, _, _) => DecisionLeavesOthers(s, step, id);
    case _ =>
  }

  lemma DecisionLeavesOthers(s: State, step: Step, id: nat)
    requires Enabled(s, step) && step.DecideQuota? && OneAtATime(s.flights)
    requires id in Next(s, step).flights && Next(s, step).flights[id].phase.Counting?
    ensures var t := Next(s, step);
      && id in s.flights && t.flights[id] == s.flights[id]
      && s.flights[id].request.key != s.flights[step.id].request.key
      && ReservationsOf(t.quotaReservations, s.flights[id].request.key)
         == ReservationsOf(s.quotaReservations, s.flights[id].request.key)
  {
    hide QuotaVerdict, Prune;
  }

  lemma StepKeepsLists(s: State, step: Step)
    requires Inv(s) && Enabled(s, step)
    ensures ListsCover(Next(s, step))
  {
    hide Next, Enabled, ListCovers, SlotsTaken, Accounted;
    var t := Next(s, step);
    forall id | id in t.flights && t.flights[id].phase.Counting?
      ensures ListCovers(t, t.flights[id])
    {
      if step.ListQuota? && step.id == id {
        WasListed(s, id);
        ListingCovers(s, id);
      } else {
        ListsStay(s, step, id);
        OthersTakeNoSlot(s, step, s.flights[id].request.key);
        CoverStays(s, t, s.flights[id]);
      }
    }
  }

  lemma WasListed(s: State, id: nat)
    requires Enabled(s, ListQuota(id)) && id in Next(s, ListQuota(id)).flights
    ensures s.flights[id].request.key in s.quotas
  {
  }

  lemma StepKeepsLocks(s: State, step: Step)
    requires Enabled(s, step) && OneAtATime(s.flights)
    ensures OneAtATime(Next(s, step).flights)
  {
    hide Next, Enabled;
    var t := Next(s, step);
    forall i, j | i in t.flights && j in t.flights && Rivals(t.flights[i], t.flights[j])
      ensures i == j
    {
      if step.ListQuota? && (step.id == i || step.id == j) {
        LockIsTaken(s, step.id, if step.id == i then j else i);
      } else {
        ListsStay(s, step, i);
        ListsStay(s, step, j);
      }
    }
  }

  lemma LockIsTaken(s: State, id: nat, other: nat)
    requires Enabled(s, ListQuota(id)) && other in Next(s, ListQuota(id)).flights
    requires id in Next(s, ListQuota(id)).flights
    requires var flights := Next(s, ListQuota(id)).flights;
      flights[other].phase.Counting? && flights[other].request.key == flights[id].request.key
    ensures other == id
  {
  }

  lemma StepKeepsInv(s: State, step: Step)
    requires Inv(s) && Enabled(s, step)
    ensures Inv(Next(s, step)) && Next(s, step).quotas == s.quotas
  {
    hide Next, Enabled, Accounted, OneAtATime, ListsCover;
    StepKeepsAccounts(s, step);
    StepKeepsLocks(s, step);
    StepKeepsLists(s, step);
    QuotasAreFixed(s, step);
  }

  lemma QuotasAreFixed(s: State, step: Step)
    requires Enabled(s, step)
    ensures Next(s, step).quotas == s.quotas && s.now <= Next(s, step).now
  {
    hide Reserved, Probed, Listed, ClaimedByAny, QuotaVerdict, QuotaReservationsAfter, InTime;
  }

  // ---------------------------------------------------------------------- the guarantee

  function Allowance(quotas: map<Key, int>, k: Key): nat {
    if k in quotas && quotas[k] > 0 then quotas[k] else 0
  }

  /** The guard that a decision needs: no reservation of its project and pool expires
      between its list and its reading of the reservations. */
  predicate NoneExpires(s: State, step: Step) {
    step.DecideQuota? && step.id in s.flights && s.flights[step.id].phase.Counting? ==>
      var reservations := ReservationsOf(s.quotaReservations, s.flights[step.id].request.key);
      |Prune(reservations, s.flights[step.id].phase.at)| == |Prune(reservations, step.read)|
  }

  lemma GuardedDecisionKeepsQuota(s: State, step: Step)
    requires Inv(s) && Enabled(s, step) && step.DecideQuota? && NoneExpires(s, step)
    requires DecisionOn(s, s.flights[step.id], step.clock, step.read) == Allowed
    ensures var r := s.flights[step.id].request;
      |SlotsTaken(s, r.key) + {r.name}| <= Allowance(s.quotas, r.key)
  {
    hide SlotsTaken, Usage, Prune, Accounted, OneAtATime;
    var f := s.flights[step.id];
    var r := f.request;
    assert ListCovers(s, f);
    assert step.clock - RESERVATION_TTL >= f.phase.at - RESERVATION_TTL;
    assert SlotsTaken(s, r.key) + {r.name} == SlotsTaken(s, r.key) - {r.name} + {r.name};
  }

  /** No guarded step lets the slots of a key grow beyond its quota, however much time
      passes between the readings that it rests on. */
  lemma StepKeepsQuota(s: State, step: Step, k: Key)
    requires Inv(s) && Enabled(s, step) && NoneExpires(s, step)
    ensures
      || |SlotsTaken(Next(s, step), k)| <= |SlotsTaken(s, k)|
      || |SlotsTaken(Next(s, step), k)| <= Allowance(s.quotas, k)
  {
    hide SlotsTaken, Inv, NoneExpires, Allowance, QuotaVerdict, QuotaReservationsAfter;
    var t := Next(s, step);
    if Decides(s, step, k) && t.log != s.log {
      DecisionTakesOneSlot(s, step, k);
      GuardedDecisionKeepsQuota(s, step);
      SubsetSize(SlotsTaken(t, k), SlotsTaken(s, k) + {s.flights[step.id].request.name});
    } else {
      if Decides(s, step, k) {
        DecisionTakesOneSlot(s, step, k);
      } else {
        OthersTakeNoSlot(s, step, k);
      }
      SubsetSize(SlotsTaken(t, k), SlotsTaken(s, k));
    }
  }

  // ---------------------------------------------------------------------- whole runs

  ghost predicate IsRun(trace: seq<State>, steps: seq<Step>) {
    && |trace| == |steps| + 1
    && forall i :: 0 <= i < |steps| ==> Enabled(trace[i], steps[i]) && trace[i + 1] == Next(trace[i], steps[i])
  }

  /** A process that has just started, around objects older than any reservation. */
  ghost predicate Started(s: State) {
    && s.flights == map[] && s.probes == map[] && s.log == [] && s.pinned == map[]
    && s.quotaReservations == map[] && s.ipReservations == map[]
    && forall n :: n in s.fips ==> s.fips[n].created + RESERVATION_TTL <= s.now
  }

  lemma {:induction false} RunsKeepInv(trace: seq<State>, steps: seq<Step>, n: nat)
    requires IsRun(trace, steps) && n < |trace| && Started(trace[0])
    ensures Inv(trace[n]) && trace[n].quotas == trace[0].quotas
  {
    hide Next, Enabled;
    if n > 0 {
      RunsKeepInv(trace, steps, n - 1);
      hide Inv;
      StepKeepsInv(trace[n - 1], steps[n - 1]);
    }
  }

  /** Over every run whose decisions are guarded, whatever comes between their readings,
      the objects that occupy a key's quota and the admitted creates that may still be
      persisted never outgrow it. */
  lemma {:induction false} QuotaIsNeverExceeded(trace: seq<State>, steps: seq<Step>, n: nat, k: Key)
    requires IsRun(trace, steps) && n < |trace| && Started(trace[0])
    requires forall i :: 0 <= i < n ==> NoneExpires(trace[i], steps[i])
    requires |SlotsTaken(trace[0], k)| <= Allowance(trace[0].quotas, k)
    ensures |SlotsTaken(trace[n], k)| <= Allowance(trace[0].quotas, k)
  {
    hide Next, Enabled, SlotsTaken, Allowance, Inv, Started, NoneExpires;
    if n > 0 {
      QuotaIsNeverExceeded(trace, steps, n - 1, k);
      RunsKeepInv(trace, steps, n - 1);
      StepKeepsQuota(trace[n - 1], steps[n - 1], k);
    }
  }
}
