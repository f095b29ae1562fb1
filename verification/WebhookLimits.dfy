/** Why a quota check must not let a reservation expire between its list and its reading
    of the reservations: runs that do end over the quota. */
module WebhookLimits {
  import opened Common
  import opened Webhook
  import opened WebhookReservations
  import opened WebhookSafety
  import opened Runs

  /** How long a decision's reservations are read after its list. */
  predicate Within(s: State, step: Step, lag: nat) {
    step.DecideQuota? && step.id in s.flights && s.flights[step.id].phase.Counting? ==>
      step.read - s.flights[step.id].phase.at <= lag
  }

  /** The steps whose decisions take no longer than this. */
  function Taken(lag: nat): (State, Step) -> Option<State> {
    (s, step) => if Enabled(s, step) && Within(s, step, lag) then Some(Next(s, step)) else None
  }

  // ------------------------------------------------------------------ admitting creates

  function Create(n: Name, k: Key, now: Time): Request {
    Request(n, k, None, now, now)
  }

  function WithListed(s: State, id: nat, n: Name, k: Key): State {
    s.(flights := s.flights[id := Flight(Create(n, k, s.now), Counting(s.fips, s.now), s.now)])
  }

  function WithAdmitted(s: State, id: nat, n: Name, k: Key): State {
    s.(flights := s.flights[id := Flight(Create(n, k, s.now), Admitted, s.now)],
       log := s.log + [Admission(n, k, s.now)],
       quotaReservations := s.quotaReservations[k :=
         Prune(ReservationsOf(s.quotaReservations, k), s.now) + [s.now + RESERVATION_TTL]])
  }

  predicate IsFree(s: State, id: nat, k: Key) {
    id !in s.flights && s.probes == map[] && !Locked(s, k) && k in s.quotas
  }

  lemma Waits(s: State, now: Time)
    requires s.now <= now
    ensures Reaches(Taken(0), s, [Tick(now)], s.(now := now))
  {
    OneStep(Taken(0), s, Tick(now));
  }

  lemma Arrives(s: State, id: nat, n: Name, k: Key)
    requires IsFree(s, id, k)
    ensures Reaches(Taken(0), s, [Arrive(id, Create(n, k, s.now))],
                    s.(flights := s.flights[id := Flight(Create(n, k, s.now), Checked, s.now)]))
  {
    OneStep(Taken(0), s, Arrive(id, Create(n, k, s.now)));
  }

  lemma IsListed(s: State, id: nat, n: Name, k: Key)
    requires IsFree(s, id, k)
    ensures Reaches(Taken(0), s.(flights := s.flights[id := Flight(Create(n, k, s.now), Checked, s.now)]),
                    [ListQuota(id)], WithListed(s, id, n, k))
  {
    var t := s.(flights := s.flights[id := Flight(Create(n, k, s.now), Checked, s.now)]);
    assert !Locked(t, k);
    OneStep(Taken(0), t, ListQuota(id));
    assert Next(t, ListQuota(id)) == WithListed(s, id, n, k);
  }

  lemma ListsACreate(s: State, id: nat, n: Name, k: Key) returns (steps: seq<Step>)
    requires IsFree(s, id, k)
    ensures Reaches(Taken(0), s, steps, WithListed(s, id, n, k))
  {
    hide Reaches, IsFree, WithListed;
    var t := s.(flights := s.flights[id := Flight(Create(n, k, s.now), Checked, s.now)]);
    Arrives(s, id, n, k);
    IsListed(s, id, n, k);
    steps := [Arrive(id, Create(n, k, s.now))] + [ListQuota(id)];
    Then(Taken(0), s, [Arrive(id, Create(n, k, s.now))], t, [ListQuota(id)], WithListed(s, id, n, k));
  }

  lemma IsAdmitted(s: State, id: nat, n: Name, k: Key)
    requires QuotaVerdict(s.fips, s.quotas, s.quotaReservations, n, k, s.now, s.now) == Allowed
    requires k in s.quotas
    ensures Reaches(Taken(0), WithListed(s, id, n, k), [DecideQuota(id, s.now, s.now)], WithAdmitted(s, id, n, k))
  {
    hide QuotaVerdict, Prune;
    var t, decide := WithListed(s, id, n, k), DecideQuota(id, s.now, s.now);
    OneStep(Taken(0), t, decide);
    assert Next(t, decide) == WithAdmitted(s, id, n, k);
  }

  lemma AdmitsACreate(s: State, id: nat, n: Name, k: Key) returns (steps: seq<Step>)
    requires IsFree(s, id, k)
    requires QuotaVerdict(s.fips, s.quotas, s.quotaReservations, n, k, s.now, s.now) == Allowed
    ensures Reaches(Taken(0), s, steps, WithAdmitted(s, id, n, k))
  {
    hide QuotaVerdict, Reaches, WithListed, WithAdmitted;
    var first := ListsACreate(s, id, n, k);
    IsAdmitted(s, id, n, k);
    var decide := [DecideQuota(id, s.now, s.now)];
    Then(Taken(0), s, first, WithListed(s, id, n, k), decide, WithAdmitted(s, id, n, k));
    steps := first + decide;
  }

  // --------------------------------------------------------------- a create not in the list

  function Empty(now: Time, k: Key, quota: nat): State {
    State(now, map[], map[], map[], map[], [], map[k := quota], map[], map[])
  }

  function Object(k: Key, created: Time): Fip {
    Fip(k, None, false, false, false, created)
  }

  lemma EmptyAdmits(now: Time, k: Key, quota: nat, n: Name)
    requires quota > 0
    ensures QuotaVerdict(map[], map[k := quota], map[], n, k, now, now) == Allowed
  {
    assert Occupying(map[], k, Some(n)) == {};
    assert Recent(map[], k, Some(n), now - RESERVATION_TTL) == {};
  }

  /** A first create, admitted by an empty cluster. */
  function InFlight(at: Time, now: Time, k: Key, quota: nat): State {
    State(now, map[], map[], map[], map[0 := Flight(Create("one", k, at), Admitted, at)], [Admission("one", k, at)],
          map[k := quota], map[k := [at + RESERVATION_TTL]], map[])
  }

  lemma FirstIsAdmitted(at: Time, now: Time, k: Key, quota: nat) returns (steps: seq<Step>)
    requires quota > 0 && at <= now
    ensures Reaches(Taken(0), Empty(at, k, quota), steps, InFlight(at, now, k, quota))
  {
    hide Reaches;
    EmptyAdmits(at, k, quota, "one");
    var s, t := Empty(at, k, quota), InFlight(at, at, k, quota);
    steps := AdmitsACreate(s, 0, "one", k);
    assert WithAdmitted(s, 0, "one", k).quotaReservations[k] == [at + RESERVATION_TTL];
    assert WithAdmitted(s, 0, "one", k) == t;
    Waits(t, now);
    Then(Taken(0), s, steps, t, [Tick(now)], InFlight(at, now, k, quota));
    steps := steps + [Tick(now)];
  }

  function WithObject(s: State, at: Time, k: Key): State {
    s.(fips := map["one" := Object(k, at)], pinned := s.pinned - {"one"}, flights := s.flights - {0})
  }

  lemma IsPersisted(s: State, at: Time, k: Key)
    requires s.fips == map[] && s.now < at + RESERVATION_TTL
    requires 0 in s.flights && s.flights[0] == Flight(Create("one", k, at), Admitted, at)
    ensures Reaches(Taken(0), s, [Persist(0)], WithObject(s, at, k))
  {
    OneStep(Taken(0), s, Persist(0));
    assert Next(s, Persist(0)).fips == map["one" := Object(k, at)];
  }

  /** The second create is listed before the first is persisted, and it is decided when
      the reservation of the first has expired. */
  function Unlisted(at: Time, listed: Time, k: Key, read: Time): State {
    State(read, map["one" := Object(k, at)], map[], map[],
          map[1 := Flight(Create("two", k, listed), Counting(map[], listed), listed)],
          [Admission("one", k, at)], map[k := 1], map[k := [at + RESERVATION_TTL]], map[])
  }

  lemma UnlistedRun(at: Time, listed: Time, k: Key, read: Time) returns (steps: seq<Step>)
    requires at <= listed < at + RESERVATION_TTL <= read
    ensures Reaches(Taken(0), Empty(at, k, 1), steps, Unlisted(at, listed, k, read))
  {
    hide Reaches;
    var s, s1, u := Empty(at, k, 1), InFlight(at, listed, k, 1), Unlisted(at, listed, k, read);
    var first := FirstIsAdmitted(at, listed, k, 1);
    assert !Locked(s1, k);
    var second := ListsACreate(s1, 1, "two", k);
    var s2 := WithListed(s1, 1, "two", k);
    Then(Taken(0), s, first, s1, second, s2);
    IsPersisted(s2, at, k);
    var s3 := WithObject(s2, at, k);
    Then(Taken(0), s, first + second, s2, [Persist(0)], s3);
    assert s3 == u.(now := listed);
    Waits(s3, read);
    Then(Taken(0), s, first + second + [Persist(0)], s3, [Tick(read)], u);
    steps := first + second + [Persist(0)] + [Tick(read)];
  }

  /** However short the time between list and reading, a reservation can expire in it:
      the create that it stood for is then neither listed nor reserved. */
  lemma UnlistedGoesOverQuota(listed: Time, clock: Time, read: Time)
    returns (s: State, steps: seq<Step>, u: State, k: Key)
    requires listed <= clock <= read && listed < read
    ensures Started(s) && SlotsTaken(s, k) == {} && s.quotas == map[k := 1]
    ensures Reaches(Taken(0), s, steps, u) && Enabled(u, DecideQuota(1, clock, read)) && u.flights[1].phase.at == listed
    ensures !NoneExpires(u, DecideQuota(1, clock, read))
    ensures |SlotsTaken(Next(u, DecideQuota(1, clock, read)), k)| == 2
  {
    hide Reaches, DecisionOn, NoneExpires;
    k := Key("project", "pool");
    var at := if read - RESERVATION_TTL <= listed then read - RESERVATION_TTL else listed;
    s, u := Empty(at, k, 1), Unlisted(at, listed, k, read);
    steps := UnlistedRun(at, listed, k, read);
    UnlistedIsAllowed(at, listed, clock, read, k);
    EndsWithTwo(u, k, clock, read);
  }

  lemma UnlistedIsAllowed(at: Time, listed: Time, clock: Time, read: Time, k: Key)
    requires listed < at + RESERVATION_TTL <= read
    ensures var u := Unlisted(at, listed, k, read);
      DecisionOn(u, u.flights[1], clock, read) == Allowed && !NoneExpires(u, DecideQuota(1, clock, read))
  {
    PruneOne(at + RESERVATION_TTL, read);
    PruneOne(at + RESERVATION_TTL, listed);
    assert Occupying(map[], k, Some("two")) == {} == Recent(map[], k, Some("two"), clock - RESERVATION_TTL);
  }

  lemma EndsWithTwo(u: State, k: Key, clock: Time, read: Time)
    requires u.fips.Keys == {"one"} && u.fips["one"].key == k && u.fips["one"].Occupies()
    requires u.flights.Keys == {1} && Enabled(u, DecideQuota(1, clock, read))
    requires u.flights[1].request == Create("two", k, u.flights[1].since)
    requires DecisionOn(u, u.flights[1], clock, read) == Allowed
    ensures |SlotsTaken(Next(u, DecideQuota(1, clock, read)), k)| == 2
  {
    hide QuotaVerdict;
    var t := Next(u, DecideQuota(1, clock, read));
    assert Awaited(t.flights[1], t.now, k);
    assert SlotsTaken(t, k) == {"one", "two"};
  }

  // ----------------------------------------------------------- a reservation paired off

  /** An object and a create in flight, admitted one after the other. */
  function ObjectAndFlight(at: Time, later: Time, k: Key): State {
    State(later, map["one" := Object(k, at)], map[], map[],
          map[1 := Flight(Create("two", k, later), Admitted, later)],
          [Admission("one", k, at), Admission("two", k, later)], map[k := 2],
          map[k := Prune([at + RESERVATION_TTL], later) + [later + RESERVATION_TTL]], map[])
  }

  lemma ObjectAdmits(at: Time, later: Time, k: Key)
    requires at <= later <= at + RESERVATION_TTL
    ensures var fips, quota := map["one" := Object(k, at)], map[k := [at + RESERVATION_TTL]];
      QuotaVerdict(fips, map[k := 2], quota, "two", k, later, later) == Allowed
  {
    PruneOne(at + RESERVATION_TTL, later);
    assert Occupying(map["one" := Object(k, at)], k, Some("two")) == {"one"};
    assert Recent(map["one" := Object(k, at)], k, Some("two"), later - RESERVATION_TTL)
      == if at > later - RESERVATION_TTL then {"one"} else {};
  }

  lemma ObjectIsReachable(at: Time, later: Time, k: Key) returns (steps: seq<Step>)
    requires at <= later
    ensures Reaches(Taken(0), Empty(at, k, 2), steps, WithObject(InFlight(at, at, k, 2), at, k).(now := later))
  {
    hide Reaches;
    var s, s1 := Empty(at, k, 2), InFlight(at, at, k, 2);
    var first := FirstIsAdmitted(at, at, k, 2);
    IsPersisted(s1, at, k);
    var s2 := WithObject(s1, at, k);
    Then(Taken(0), s, first, s1, [Persist(0)], s2);
    Waits(s2, later);
    Then(Taken(0), s, first + [Persist(0)], s2, [Tick(later)], s2.(now := later));
    steps := first + [Persist(0)] + [Tick(later)];
  }

  lemma ObjectAndFlightAreReachable(at: Time, later: Time, k: Key) returns (steps: seq<Step>)
    requires at <= later <= at + RESERVATION_TTL
    ensures Reaches(Taken(0), Empty(at, k, 2), steps, ObjectAndFlight(at, later, k))
  {
    hide Reaches, Prune, QuotaVerdict;
    var s, s1 := Empty(at, k, 2), WithObject(InFlight(at, at, k, 2), at, k).(now := later);
    var first := ObjectIsReachable(at, later, k);
    ObjectAdmits(at, later, k);
    assert IsFree(s1, 1, k);
    var second := AdmitsACreate(s1, 1, "two", k);
    assert WithAdmitted(s1, 1, "two", k) == ObjectAndFlight(at, later, k);
    Then(Taken(0), s, first, s1, second, ObjectAndFlight(at, later, k));
    steps := first + second;
  }

  /** A third create is listed with the object, and the reservations are read later. */
  function PairedOff(at: Time, listed: Time, read: Time, k: Key): State {
    WithListed(ObjectAndFlight(at, listed, k), 2, "three", k).(now := read)
  }

  lemma PairedOffRun(at: Time, listed: Time, read: Time, k: Key) returns (steps: seq<Step>)
    requires at <= listed <= at + RESERVATION_TTL && listed <= read
    ensures Reaches(Taken(0), Empty(at, k, 2), steps, PairedOff(at, listed, read, k))
  {
    hide Prune, Reaches;
    var s, s1 := Empty(at, k, 2), ObjectAndFlight(at, listed, k);
    var first := ObjectAndFlightAreReachable(at, listed, k);
    var second := ListsACreate(s1, 2, "three", k);
    var s2 := WithListed(s1, 2, "three", k);
    Then(Taken(0), s, first, s1, second, s2);
    Waits(s2, read);
    Then(Taken(0), s, first + second, s2, [Tick(read)], PairedOff(at, listed, read, k));
    steps := first + second + [Tick(read)];
  }

  lemma PairedOffIsAllowed(at: Time, listed: Time, clock: Time, read: Time, k: Key)
    requires at <= listed <= clock < at + RESERVATION_TTL == read < listed + RESERVATION_TTL
    ensures var u := PairedOff(at, listed, read, k);
      DecisionOn(u, u.flights[2], clock, read) == Allowed && !NoneExpires(u, DecideQuota(2, clock, read))
  {
    var u := PairedOff(at, listed, read, k);
    PruneOne(read, listed);
    assert u.quotaReservations[k] == [read, listed + RESERVATION_TTL];
    PruneTwo(read, listed + RESERVATION_TTL, listed);
    PruneTwo(read, listed + RESERVATION_TTL, read);
    ThirdIsAllowed(u.fips, k, at, clock);
  }

  /** Even a list that shows every object does not help: an object that is recent for the
      cutoff, but whose reservation has expired since, hides another create in flight. */
  lemma PairedOffGoesOverQuota(listed: Time, clock: Time, read: Time)
    returns (s: State, steps: seq<Step>, u: State, k: Key)
    requires listed <= clock < read < listed + RESERVATION_TTL
    ensures Started(s) && SlotsTaken(s, k) == {} && s.quotas == map[k := 2]
    ensures Reaches(Taken(0), s, steps, u) && Enabled(u, DecideQuota(2, clock, read))
    ensures u.flights[2].phase == Counting(u.fips, listed)
    ensures !NoneExpires(u, DecideQuota(2, clock, read))
    ensures |SlotsTaken(Next(u, DecideQuota(2, clock, read)), k)| == 3
  {
    hide Prune, NoneExpires, DecisionOn;
    k := Key("project", "pool");
    var at := read - RESERVATION_TTL;
    s, u := Empty(at, k, 2), PairedOff(at, listed, read, k);
    steps := PairedOffRun(at, listed, read, k);
    PairedOffIsAllowed(at, listed, clock, read, k);
    EndsWithThree(u, k, clock, read);
  }

  lemma PruneTwo(one: Time, two: Time, now: Time)
    ensures Prune([one, two], now) == (if now < one then [one] else []) + (if now < two then [two] else [])
  {
    PruneOne(one, now);
    PruneOne(two, now);
    PruneConcatenates([one], [two], now);
    assert [one] + [two] == [one, two];
  }

  lemma ThirdIsAllowed(fips: Fips, k: Key, at: Time, clock: Time)
    requires fips == map["one" := Object(k, at)] && clock < at + RESERVATION_TTL
    ensures Usage(fips, 1, k, Some("three"), clock - RESERVATION_TTL) == 1
  {
    assert Occupying(fips, k, Some("three")) == {"one"} == Recent(fips, k, Some("three"), clock - RESERVATION_TTL);
  }

  lemma EndsWithThree(u: State, k: Key, clock: Time, read: Time)
    requires u.fips.Keys == {"one"} && u.fips["one"].key == k && u.fips["one"].Occupies()
    requires u.flights.Keys == {1, 2} && Awaited(u.flights[1], u.now, k) && u.flights[1].request.name == "two"
    requires Enabled(u, DecideQuota(2, clock, read)) && u.flights[2].request == Create("three", k, u.flights[2].since)
    requires DecisionOn(u, u.flights[2], clock, read) == Allowed
    ensures |SlotsTaken(Next(u, DecideQuota(2, clock, read)), k)| == 3
  {
    hide QuotaVerdict;
    var t := Next(u, DecideQuota(2, clock, read));
    assert Awaited(t.flights[1], t.now, k) && Awaited(t.flights[2], t.now, k);
    assert SlotsTaken(t, k) == {"one", "two", "three"};
  }

  // ------------------------------------------------------------------------ how exact

  /** Over every run from a fresh process whose decisions take no longer than this, no
      quota is exceeded. */
  ghost predicate IsSafeWithin(lag: nat) {
    forall s, steps, t, k ::
      Started(s) && Reaches(Taken(lag), s, steps, t) && |SlotsTaken(s, k)| <= Allowance(s.quotas, k)
      ==> |SlotsTaken(t, k)| <= Allowance(s.quotas, k)
  }

  lemma {:induction false} AtOneInstant(s: State, steps: seq<Step>, t: State, k: Key)
    requires Inv(s) && Reaches(Taken(0), s, steps, t) && |SlotsTaken(s, k)| <= Allowance(s.quotas, k)
    ensures Inv(t) && |SlotsTaken(t, k)| <= Allowance(s.quotas, k)
    decreases |steps|
  {
    hide Inv, SlotsTaken, Allowance, Next;
    if steps != [] {
      StepKeepsQuota(s, steps[0], k);
      StepKeepsInv(s, steps[0]);
      AtOneInstant(Next(s, steps[0]), steps[1..], t, k);
    }
  }

  lemma StartedInv(s: State)
    requires Started(s)
    ensures Inv(s)
  {
  }

  /** Without the guard, only readings at one instant are safe: any time between list and
      reading, however short, lets some run exceed a quota. */
  lemma ReadingsCoverIff(lag: nat)
    ensures IsSafeWithin(lag) <==> lag == 0
  {
    hide SlotsTaken, Inv, Next;
    if lag == 0 {
      forall s, steps, t, k |
        Started(s) && Reaches(Taken(0), s, steps, t) && |SlotsTaken(s, k)| <= Allowance(s.quotas, k)
        ensures |SlotsTaken(t, k)| <= Allowance(s.quotas, k)
      {
        StartedInv(s);
        AtOneInstant(s, steps, t, k);
      }
    } else {
      var s, steps, u, k := UnlistedGoesOverQuota(0, lag, lag);
      var decide := DecideQuota(1, lag, lag);
      OneStep(Taken(lag), u, decide);
      Widened(Taken(0), Taken(lag), s, steps, u);
      Then(Taken(lag), s, steps, u, [decide], Next(u, decide));
    }
  }

  ghost predicate Reachable(s: State) {
    exists start, steps, lag :: Started(start) && Reaches(Taken(lag), start, steps, s)
  }

  /** Whatever state is reached, usage from a list of the moment counts every slot. */
  ghost predicate CutoffCovers(now: Time, clock: Time) {
    forall s, k, self :: Reachable(s) && s.now == now ==>
      |SlotsTaken(s, k) - {self}|
      <= Usage(s.fips, |Prune(ReservationsOf(s.quotaReservations, k), now)|, k, Some(self), clock - RESERVATION_TTL)
  }

  lemma {:induction false} ReachesAccounted(s: State, steps: seq<Step>, t: State, lag: nat)
    requires Accounted(s) && Reaches(Taken(lag), s, steps, t)
    ensures Accounted(t)
    decreases |steps|
  {
    hide Accounted, Next;
    if steps != [] {
      StepKeepsAccounts(s, steps[0]);
      ReachesAccounted(Next(s, steps[0]), steps[1..], t, lag);
    }
  }

  lemma ObjectAndFlightTakeTwo(now: Time, k: Key)
    ensures SlotsTaken(ObjectAndFlight(now - RESERVATION_TTL, now, k), k) - {"three"} == {"one", "two"}
  {
    hide Prune;
    var s := ObjectAndFlight(now - RESERVATION_TTL, now, k);
    assert Awaited(s.flights[1], now, k);
  }

  lemma ObjectHidesFlight(now: Time, clock: Time, k: Key)
    requires clock < now
    ensures var s := ObjectAndFlight(now - RESERVATION_TTL, now, k);
      var active := |Prune(ReservationsOf(s.quotaReservations, k), now)|;
      Usage(s.fips, active, k, Some("three"), clock - RESERVATION_TTL) == 1
  {
    var s := ObjectAndFlight(now - RESERVATION_TTL, now, k);
    PruneOne(now, now);
    PruneOne(now + RESERVATION_TTL, now);
    assert s.quotaReservations[k] == [now + RESERVATION_TTL];
    ThirdIsAllowed(s.fips, k, now - RESERVATION_TTL, clock);
  }

  lemma LaggingCutoffHides(now: Time, clock: Time, k: Key)
    requires clock < now
    ensures Reachable(ObjectAndFlight(now - RESERVATION_TTL, now, k))
    ensures var s := ObjectAndFlight(now - RESERVATION_TTL, now, k);
      Usage(s.fips, |Prune(ReservationsOf(s.quotaReservations, k), now)|, k, Some("three"), clock - RESERVATION_TTL)
      < |SlotsTaken(s, k) - {"three"}|
  {
    hide ObjectAndFlight, Prune, Usage, SlotsTaken;
    var at := now - RESERVATION_TTL;
    var steps := ObjectAndFlightAreReachable(at, now, k);
    assert Started(Empty(at, k, 2));
    ObjectAndFlightTakeTwo(now, k);
    ObjectHidesFlight(now, clock, k);
  }

  /** The cutoff is read from the clock before the reservations are: usage is sure to
      count every slot exactly when it does not lag behind them. */
  lemma CutoffCoversIff(now: Time, clock: Time)
    ensures CutoffCovers(now, clock) <==> now <= clock
  {
    hide SlotsTaken, Usage, Prune, Accounted, ObjectAndFlight;
    if now <= clock {
      forall s, k, self | Reachable(s) && s.now == now
        ensures var active := |Prune(ReservationsOf(s.quotaReservations, k), now)|;
          |SlotsTaken(s, k) - {self}| <= Usage(s.fips, active, k, Some(self), clock - RESERVATION_TTL)
      {
        var start, steps, lag :| Started(start) && Reaches(Taken(lag), start, steps, s);
        StartedIsAccounted(start);
        ReachesAccounted(start, steps, s, lag);
        UsageCovers(s, k, self, clock - RESERVATION_TTL);
      }
    } else {
      var k := Key("project", "pool");
      LaggingCutoffHides(now, clock, k);
      IsNow(now - RESERVATION_TTL, now, k);
    }
  }

  lemma StartedIsAccounted(s: State)
    requires Started(s)
    ensures Accounted(s)
  {
  }

  lemma IsNow(at: Time, later: Time, k: Key)
    ensures ObjectAndFlight(at, later, k).now == later
  {
  }
}
