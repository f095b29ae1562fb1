/** What admission must not deny: an address that nobody has, and a create that leaves a
    quota's slots within it, although persisted creates keep their reservations a while. */
module WebhookAnswers {
  import opened Common
  import opened Addresses
  import opened Webhook
  import opened WebhookReservations
  import opened WebhookSafety

  // ------------------------------------------------------------------------- addresses

  /** An object that has the address, or may still get it: one that is not a failed
      allocation without an address, or is being deleted. */
  predicate HasOrMayGet(fip: Fip, pool: string, ip: Address) {
    fip.key.pool == pool && fip.ip == Some(ip) && (fip.terminating || fip.holds || !fip.errored)
  }

  /** A pinned address is denied for exactly two reasons: a reservation that has not
      expired, and then an object that has it or may get it. */
  lemma AddressIsDeniedIff(fips: Fips, ips: map<Claim, Time>, k: Key, ip: Address, now: Time)
    ensures var v, c := AddressVerdict(fips, ips, k, Some(ip), now), Claim(k.pool, ip);
      && (v == PendingAllocation <==> c in ips && now < ips[c])
      && (v == AlreadyClaimed <==>
            !(c in ips && now < ips[c]) && exists n :: n in fips && HasOrMayGet(fips[n], k.pool, ip))
      && (v == Allowed || v == PendingAllocation || v == AlreadyClaimed)
      && AddressVerdict(fips, ips, k, None, now) == Allowed
  {
    var c := Claim(k.pool, ip);
    assert forall n :: n in fips ==> (fips[n].Claims(c) <==> HasOrMayGet(fips[n], k.pool, ip));
  }

  /** An allowed create reserves its address for five seconds; a denied one leaves no
      reservation of its own, and nobody else's is touched. */
  lemma OnlyAllowedAddressesAreReserved(
    fips: Fips, ips: map<Claim, Time>, k: Key, ip: Address, now: Time, later: Time)
    ensures var v, c := AddressVerdict(fips, ips, k, Some(ip), now), Claim(k.pool, ip);
      var after := IPReservationsAfter(fips, ips, k, Some(ip), now, later);
      && (forall d :: d != c ==> (d in after <==> d in ips) && (d in ips ==> after[d] == ips[d]))
      && (v == Allowed ==> c in after && after[c] == later + 5_000_000_000)
      && (v == AlreadyClaimed ==> c !in after) && (v == PendingAllocation ==> after == ips)
  {
  }

  // ----------------------------------------------------------------------------- slots

  /** The other objects that take a slot: with an address, or not failed. */
  function Slots(fips: Fips, k: Key, self: Name): set<Name> {
    set n | n in fips && n != self && fips[n].key == k && (fips[n].holds || !fips[n].errored)
  }

  /** The object that a create became: it takes a slot, and is as young as a reservation. */
  predicate IsListed(fips: Fips, k: Key, self: Name, cutoff: Time, n: Name) {
    n in Slots(fips, k, self) && fips[n].created > cutoff
  }

  /** Unexpired admissions with an object each. */
  ghost predicate HaveObjects(
    fips: Fips, k: Key, self: Name, cutoff: Time, log: seq<Admission>, own: set<nat>)
  {
    && (forall i :: i in own ==> i < |log| && IsListed(fips, k, self, cutoff, log[i].name))
    && forall i, j :: i in own && j in own && log[i].name == log[j].name ==> i == j
  }

  lemma {:induction false} NamesOf(log: seq<Admission>, own: set<nat>, names: set<Name>)
    requires forall i :: i in own ==> i < |log| && log[i].name in names
    requires forall i, j :: i in own && j in own && log[i].name == log[j].name ==> i == j
    ensures |own| <= |names|
    decreases |own|
  {
    if own != {} {
      var i :| i in own;
      NamesOf(log, own - {i}, names - {log[i].name});
    }
  }

  /** Usage is at most the slots taken and the unexpired admissions without an object. So a
      create counts once: not again for its reservation when its object is there, with an
      address or without. */
  lemma UsageIsAtMost(fips: Fips, k: Key, self: Name, cutoff: Time, log: seq<Admission>, read: Time, own: set<nat>)
    requires own <= ActiveAdmissions(log, k, read) && HaveObjects(fips, k, self, cutoff, log, own)
    ensures var active := ActiveAdmissions(log, k, read);
      Usage(fips, |active|, k, Some(self), cutoff) <= |Slots(fips, k, self)| + |active - own|
    ensures own == ActiveAdmissions(log, k, read)
      ==> Usage(fips, |own|, k, Some(self), cutoff) == |Slots(fips, k, self)|
  {
    var active := ActiveAdmissions(log, k, read);
    SlotsAreOccupied(fips, k, self);
    OwnAreRecent(fips, k, self, cutoff, log, own);
    hide Slots, Occupying, Recent, HaveObjects, ActiveAdmissions;
    assert active == own + (active - own);
  }

  lemma SlotsAreOccupied(fips: Fips, k: Key, self: Name)
    ensures Slots(fips, k, self) == Occupying(fips, k, Some(self))
  {
  }

  lemma OwnAreRecent(fips: Fips, k: Key, self: Name, cutoff: Time, log: seq<Admission>, own: set<nat>)
    requires HaveObjects(fips, k, self, cutoff, log, own)
    ensures |own| <= |Recent(fips, k, Some(self), cutoff)|
  {
    forall i | i in own
      ensures log[i].name in Recent(fips, k, Some(self), cutoff)
    {
      assert IsListed(fips, k, self, cutoff, log[i].name);
    }
    NamesOf(log, own, Recent(fips, k, Some(self), cutoff));
  }

  // ------------------------------------------------------------- reservations over runs

  lemma {:induction false} PrunedIsNoMore(a: seq<Time>, read: Time, t: Time)
    ensures |Prune(Prune(a, read), t)| <= |Prune(a, t)|
  {
    if a != [] {
      PrunedIsNoMore(a[1..], read, t);
      if read < a[0] {
        assert ([a[0]] + Prune(a[1..], read))[1..] == Prune(a[1..], read);
      }
    }
  }

  /** At no time are more reservations unexpired than admissions. */
  ghost predicate NeverMore(quota: map<Key, seq<Time>>, log: seq<Admission>) {
    forall k, t :: |Prune(ReservationsOf(quota, k), t)| <= |ActiveAdmissions(log, k, t)|
  }

  lemma PruningIsNoMore(quota: map<Key, seq<Time>>, log: seq<Admission>, k: Key, read: Time)
    requires NeverMore(quota, log)
    ensures NeverMore(PrunedAt(quota, k, read), log)
  {
    hide Prune, ActiveAdmissions;
    var after := PrunedAt(quota, k, read);
    forall other, t
      ensures |Prune(ReservationsOf(after, other), t)| <= |ActiveAdmissions(log, other, t)|
    {
      if other == k && k in quota {
        PrunedIsNoMore(quota[k], read, t);
        assert ReservationsOf(after, k) == Prune(ReservationsOf(quota, k), read);
      } else {
        assert ReservationsOf(after, other) == ReservationsOf(quota, other);
      }
      assert |Prune(ReservationsOf(quota, other), t)| <= |ActiveAdmissions(log, other, t)|;
    }
  }

  lemma AdmittingIsNoMore(quota: map<Key, seq<Time>>, log: seq<Admission>, n: Name, k: Key, read: Time, now: Time)
    requires NeverMore(quota, log)
    ensures NeverMore(QuotaReservationsAfter(Allowed, quota, k, read, now), log + [Admission(n, k, now)])
  {
    hide Prune, ActiveAdmissions;
    var after, e := QuotaReservationsAfter(Allowed, quota, k, read, now), Admission(n, k, now);
    var kept, taken := Prune(ReservationsOf(quota, k), read), [now + RESERVATION_TTL];
    forall other, t
      ensures |Prune(ReservationsOf(after, other), t)| <= |ActiveAdmissions(log + [e], other, t)|
    {
      LastActive(log + [e], other, t);
      assert (log + [e])[..|log|] == log;
      if other == k {
        PruneConcatenates(kept, taken, t);
        PruneOne(now + RESERVATION_TTL, t);
        PrunedIsNoMore(ReservationsOf(quota, k), read, t);
      } else {
        assert ReservationsOf(after, other) == ReservationsOf(quota, other);
      }
      assert |Prune(ReservationsOf(quota, other), t)| <= |ActiveAdmissions(log, other, t)|;
    }
  }

  lemma OthersTakeNoReservation(s: State, step: Step)
    requires Enabled(s, step) && !step.DecideQuota?
    ensures Next(s, step).quotaReservations == s.quotaReservations && Next(s, step).log == s.log
  {
    hide Arrived, AddressChecked, Locked, InTime;
    match step
    case Arrive(id, r) => ArriveOnlyArrives(s, id, r);
    case CheckAddress(p) => CheckOnlyArrives(s, p, s.probes[p].id, s.probes[p].request);
    case _ =>
  }

  lemma StepIsNoMore(s: State, step: Step)
    requires Enabled(s, step) && NeverMore(s.quotaReservations, s.log)
    ensures NeverMore(Next(s, step).quotaReservations, Next(s, step).log)
  {
    hide NeverMore, QuotaVerdict, Locked;
    if step.DecideQuota? {
      var f := s.flights[step.id];
      PruningIsNoMore(s.quotaReservations, s.log, f.request.key, step.read);
      AdmittingIsNoMore(s.quotaReservations, s.log, f.request.name, f.request.key, step.read, s.now);
    } else {
      OthersTakeNoReservation(s, step);
    }
  }

  lemma StartsWithNone(s: State)
    requires Started(s)
    ensures NeverMore(s.quotaReservations, s.log)
  {
  }

  lemma {:induction false} RunsAreNoMore(trace: seq<State>, steps: seq<Step>, n: nat)
    requires IsRun(trace, steps) && n < |trace| && Started(trace[0])
    ensures NeverMore(trace[n].quotaReservations, trace[n].log)
  {
    hide Next, Enabled, NeverMore, Started;
    if n == 0 {
      StartsWithNone(trace[0]);
    } else {
      RunsAreNoMore(trace, steps, n - 1);
      StepIsNoMore(trace[n - 1], steps[n - 1]);
    }
  }

  // ---------------------------------------------------------------------- the guarantee

  lemma MoreReservationsMoreUsage(fips: Fips, few: nat, many: nat, k: Key, self: Option<Name>, cutoff: Time)
    requires few <= many
    ensures Usage(fips, few, k, self, cutoff) <= Usage(fips, many, k, self, cutoff)
  {
  }

  /** Over every run, guarded or not: a create is allowed if the quota has a slot left
      besides those of the listed objects and of the admissions that have not expired when
      the reservations are read, where those that have an object count with it. */
  lemma WithinQuotaIsAllowed(
    trace: seq<State>, steps: seq<Step>, n: nat, id: nat, clock: Time, read: Time, own: set<nat>)
    requires IsRun(trace, steps) && n < |trace| && Started(trace[0]) && Enabled(trace[n], DecideQuota(id, clock, read))
    requires var s, f := trace[n], trace[n].flights[id];
      var k, self, active := f.request.key, f.request.name, ActiveAdmissions(s.log, f.request.key, read);
      && own <= active && HaveObjects(f.phase.fips, k, self, clock - 5_000_000_000, s.log, own)
      && k in s.quotas && |Slots(f.phase.fips, k, self)| + |active - own| < s.quotas[k]
    ensures DecisionOn(trace[n], trace[n].flights[id], clock, read) == Allowed
  {
    var s, f := trace[n], trace[n].flights[id];
    var k, self, cutoff := f.request.key, f.request.name, clock - RESERVATION_TTL;
    var active := ActiveAdmissions(s.log, k, read);
    RunsAreNoMore(trace, steps, n);
    hide IsRun, Started, Enabled, Usage, Slots, Prune, ActiveAdmissions, HaveObjects;
    UsageIsAtMost(f.phase.fips, k, self, cutoff, s.log, read, own);
    MoreReservationsMoreUsage(
      f.phase.fips, |Prune(ReservationsOf(s.quotaReservations, k), read)|, |active|, k, Some(self), cutoff);
  }

  /** And only a missing quota is reported as such. */
  lemma NoQuotaIffMissing(
    fips: Fips, quotas: map<Key, int>, quota: map<Key, seq<Time>>, n: Name, k: Key, clock: Time, read: Time)
    ensures QuotaVerdict(fips, quotas, quota, n, k, clock, read) == NoQuota <==> k !in quotas
  {
  }
}
