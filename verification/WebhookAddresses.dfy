/** The address side of admission over whole runs: a pinned address is admitted once at
    a time, whatever time passes between the look at the reservations and the list. */
module WebhookAddresses {
  import opened Common
  import opened Webhook
  import opened WebhookSafety

  /** A create that asks for an address is in flight from its first check on. */
  predicate Awaits(s: State, id: nat, c: Claim) {
    id in s.flights && s.flights[id].request.Pins(c) && InTime(s.flights[id], s.now)
  }

  /** An object whose create asked for the address, and that is not errored. */
  predicate Lives(s: State, n: Name, c: Claim) {
    n in s.fips && n in s.pinned && s.pinned[n] == c.ip && s.fips[n].key.pool == c.pool && s.fips[n].Occupies()
  }

  ghost predicate PinsAreKept(s: State) {
    forall n :: n in s.pinned ==> n in s.fips && s.fips[n].ip == Some(s.pinned[n])
  }

  ghost predicate FlightsAreReserved(s: State) {
    forall id, c :: Awaits(s, id, c) ==>
      c in s.ipReservations && s.flights[id].since + RESERVATION_TTL <= s.ipReservations[c]
  }

  ghost predicate Exclusive(s: State) {
    && (forall i, j, c :: Awaits(s, i, c) && Awaits(s, j, c) ==> i == j)
    && (forall i, n, c :: Awaits(s, i, c) ==> !Lives(s, n, c))
    && (forall m, n, c :: Lives(s, m, c) && Lives(s, n, c) ==> m == n)
  }

  /** Nobody else is after an address while its pool's lock is held for it. */
  ghost predicate ProbesAreAlone(s: State) {
    forall p :: p in s.probes ==>
      && s.probes[p].request.ip.Some? && s.probes[p].request.key.pool == p
      && forall i :: !Awaits(s, i, s.probes[p].request.Claims())
  }

  ghost predicate AddressInv(s: State) {
    PinsAreKept(s) && FlightsAreReserved(s) && Exclusive(s) && ProbesAreAlone(s)
  }

  lemma UnpinnedKeepsInv(s: State, id: nat, r: Request)
    requires AddressInv(s) && id !in s.flights && r.ip.None?
    ensures AddressInv(s.(flights := s.flights[id := Flight(r, Checked, s.now)]))
  {
    FewerKeepInv(s, s.(flights := s.flights[id := Flight(r, Checked, s.now)]));
  }

  /** An address that is not reserved is not awaited; it is looked up under the lock. */
  lemma ProbingKeepsInv(s: State, id: nat, r: Request)
    requires AddressInv(s) && r.ip.Some? && !Reserved(s.ipReservations, r.Claims(), s.now)
    ensures AddressInv(Probing(s, id, r))
  {
    var t := Probing(s, id, r);
    assert forall i, c :: Awaits(t, i, c) <==> Awaits(s, i, c);
    assert forall n, c :: Lives(t, n, c) <==> Lives(s, n, c);
    forall i, c | Awaits(s, i, c)
      ensures c != r.Claims()
    {
      assert Reserved(s.ipReservations, c, s.now);
    }
  }

  function Probing(s: State, id: nat, r: Request): State
    requires r.ip.Some?
  {
    s.(ipReservations := Probed(s.ipReservations, r.Claims()), probes := s.probes[r.key.pool := Probe(id, r)])
  }

  lemma ArriveKeepsInv(s: State, id: nat, r: Request)
    requires AddressInv(s) && Enabled(s, Arrive(id, r))
    ensures AddressInv(Next(s, Arrive(id, r)))
  {
    hide AddressInv, Reserved;
    if r.ip.None? {
      UnpinnedKeepsInv(s, id, r);
    } else if !Reserved(s.ipReservations, r.Claims(), s.now) {
      ProbingKeepsInv(s, id, r);
    }
  }

  /** The list is read under the lock, after the reservations: what it shows free stays
      free until it is reserved. */
  lemma AddressCheckKeepsInv(s: State, p: string)
    requires AddressInv(s) && Enabled(s, CheckAddress(p))
    ensures AddressInv(Next(s, CheckAddress(p)))
  {
    var t, id, r := Next(s, CheckAddress(p)), s.probes[p].id, s.probes[p].request;
    forall i, c | Awaits(t, i, c)
      ensures if i == id && t.flights != s.flights then c == r.Claims() && !ClaimedByAny(s.fips, c)
              else Awaits(s, i, c) && c != r.Claims()
      ensures c in t.ipReservations && t.flights[i].since + RESERVATION_TTL <= t.ipReservations[c]
    {
    }
    forall n, c | Lives(t, n, c)
      ensures Lives(s, n, c) && ClaimedByAny(s.fips, c)
    {
      assert s.fips[n].Claims(c);
    }
  }

  lemma PersistKeepsInv(s: State, id: nat)
    requires AddressInv(s) && Enabled(s, Persist(id))
    ensures AddressInv(Next(s, Persist(id)))
  {
    var t, r := Next(s, Persist(id)), s.flights[id].request;
    forall i, c | Awaits(t, i, c)
      ensures Awaits(s, i, c) && i != id
    {
    }
    forall n, c | Lives(t, n, c)
      ensures if n == r.name then Awaits(s, id, c) else Lives(s, n, c)
    {
    }
  }

  /** A state with no new flight and no new object. */
  lemma FewerKeepInv(s: State, t: State)
    requires AddressInv(s) && PinsAreKept(t)
    requires t.ipReservations == s.ipReservations && t.probes == s.probes
    requires forall i, c :: Awaits(t, i, c) ==> Awaits(s, i, c) && t.flights[i].since == s.flights[i].since
    requires forall n, c :: Lives(t, n, c) ==> Lives(s, n, c)
    ensures AddressInv(t)
  {
  }

  /** A quota check keeps the address reservation of a create as its earliest one. */
  lemma QuotaStepsKeepInv(s: State, step: Step)
    requires AddressInv(s) && Enabled(s, step) && (step.ListQuota? || step.DecideQuota?)
    ensures AddressInv(Next(s, step))
  {
    hide QuotaVerdict, QuotaReservationsAfter, Locked;
    var t := Next(s, step);
    forall i, c | Awaits(t, i, c)
      ensures Awaits(s, i, c) && t.flights[i].since == s.flights[i].since
    {
    }
    assert forall n, c :: Lives(t, n, c) <==> Lives(s, n, c);
    FewerKeepInv(s, t);
  }

  lemma OtherStepsKeepInv(s: State, step: Step)
    requires AddressInv(s) && Enabled(s, step)
    requires step.Assign? || step.Fail? || step.Terminate? || step.Delete? || step.Tick?
    ensures AddressInv(Next(s, step))
  {
    var t := Next(s, step);
    forall i, c | Awaits(t, i, c)
      ensures Awaits(s, i, c)
    {
    }
    forall n, c | Lives(t, n, c)
      ensures Lives(s, n, c)
    {
    }
    FewerKeepInv(s, t);
  }

  lemma StepKeepsAddressInv(s: State, step: Step)
    requires AddressInv(s) && Enabled(s, step)
    ensures AddressInv(Next(s, step))
  {
    hide AddressInv, Arrived, AddressChecked, QuotaListed, QuotaDecided, Persisted, Changed;
    match step
    case Arrive(id, r) => ArriveKeepsInv(s, id, r);
    case CheckAddress(p) => AddressCheckKeepsInv(s, p);
    case Persist(id) => PersistKeepsInv(s, id);
    case ListQuota(_) => QuotaStepsKeepInv(s, step);
    case DecideQuota(_, _, _) => QuotaStepsKeepInv(s, step);
    case _ => OtherStepsKeepInv(s, step);
  }

  lemma {:induction false} RunsKeepAddressInv(trace: seq<State>, steps: seq<Step>, n: nat)
    requires IsRun(trace, steps) && n < |trace| && Started(trace[0])
    ensures AddressInv(trace[n])
  {
    hide Next, Enabled;
    if n > 0 {
      RunsKeepAddressInv(trace, steps, n - 1);
      StepKeepsAddressInv(trace[n - 1], steps[n - 1]);
    }
  }

  /** Over every run, whatever is checked, persisted or expires in between, two
      creates that ask for the same address of a pool are never both outstanding. */
  lemma OneAdmissionPerAddress(trace: seq<State>, steps: seq<Step>, n: nat, c: Claim)
    requires IsRun(trace, steps) && n < |trace| && Started(trace[0])
    ensures forall i, j :: Awaits(trace[n], i, c) && Awaits(trace[n], j, c) ==> i == j
    ensures forall i, x :: Awaits(trace[n], i, c) ==> !Lives(trace[n], x, c)
    ensures forall x, y :: Lives(trace[n], x, c) && Lives(trace[n], y, c) ==> x == y
  {
    RunsKeepAddressInv(trace, steps, n);
  }
}
