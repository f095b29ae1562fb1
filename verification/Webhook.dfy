/** Admission of FloatingIPs: the quota and address decisions, the reservations
    that stand for admitted objects not yet persisted, and the cluster around them. */
module Webhook {
  import opened Common
  import opened Addresses

  /** A FloatingIP's namespace/name. */
  type Name = string

  type Time = int

  /** How long a reservation counts: five seconds, in nanoseconds. */
  const RESERVATION_TTL: int := 5_000_000_000

  datatype Key = Key(project: string, pool: string)

  datatype Claim = Claim(pool: string, ip: Address)

  /** A persisted FloatingIP as admission sees it: holds tells a status address. */
  datatype Fip = Fip(key: Key, ip: Option<Address>, holds: bool, errored: bool, terminating: bool, created: Time) {
    /** A failed allocation without an address takes no slot and claims nothing. */
    predicate Occupies() {
      holds || !errored
    }

    predicate Claims(c: Claim) {
      key.pool == c.pool && ip == Some(c.ip) && (terminating || Occupies())
    }
  }

  type Fips = map<Name, Fip>

  datatype Verdict = Allowed | PendingAllocation | AlreadyClaimed | NoQuota | QuotaExceeded

  function Prune(expiries: seq<Time>, now: Time): seq<Time> {
    if expiries == [] then []
    else if now < expiries[0] then [expiries[0]] + Prune(expiries[1..], now)
    else Prune(expiries[1..], now)
  }

  function ReservationsOf(m: map<Key, seq<Time>>, k: Key): seq<Time> {
    if k in m then m[k] else []
  }

  /** The occupying objects of a project and pool other than the one at hand. */
  function Occupying(fips: Fips, k: Key, self: Option<Name>): set<Name> {
    set n | n in fips && self != Some(n) && fips[n].key == k && fips[n].Occupies()
  }

  function Recent(fips: Fips, k: Key, self: Option<Name>, cutoff: Time): set<Name> {
    set n | n in Occupying(fips, k, self) && fips[n].created > cutoff
  }

  /** Usage counted from a list of objects: reservations no recent object can have
      turned into count on their own. */
  function Usage(fips: Fips, active: nat, k: Key, self: Option<Name>, cutoff: Time): nat {
    var recent := |Recent(fips, k, self, cutoff)|;
    |Occupying(fips, k, self)| + if active > recent then active - recent else 0
  }

  predicate Reserved(reservations: map<Claim, Time>, c: Claim, now: Time) {
    c in reservations && now < reservations[c]
  }

  predicate ClaimedByAny(fips: Fips, c: Claim) {
    exists n :: n in fips && fips[n].Claims(c)
  }

  // ------------------------------------------------------------- the admission handler

  /** What one listed object adds to the three counters. */
  method Counts(fip: Fip, counted: bool, cutoff: Time) returns (held: nat, waiting: nat, recent: nat)
    ensures held + waiting == if counted && fip.Occupies() then 1 else 0
    ensures recent == if counted && fip.Occupies() && fip.created > cutoff then 1 else 0
    ensures held == 1 <==> counted && fip.holds
  {
    held, waiting, recent := 0, 0, 0;
    if counted {
      var occupies := false;
      if fip.holds {
        held := 1;
        occupies := true;
      } else if !fip.errored {
        waiting := 1;
        occupies := true;
      }
      if occupies && fip.created > cutoff {
        recent := 1;
      }
    }
  }

  method CountOccupants(fips: Fips, k: Key, self: Name, cutoff: Time) returns (held: nat, waiting: nat, recent: nat)
    ensures held + waiting == |Occupying(fips, k, Some(self))|
    ensures recent == |Recent(fips, k, Some(self), cutoff)|
  {
    held, waiting, recent := 0, 0, 0;
    ghost var occupying, young := Occupying(fips, k, Some(self)), Recent(fips, k, Some(self), cutoff);
    var rest := fips.Keys;
    while rest != {}
      invariant rest <= fips.Keys
      invariant held + waiting == |occupying - rest|
      invariant recent == |young - rest|
      decreases rest
    {
      var n :| n in rest;
      var heldNow, waitingNow, recentNow := Counts(fips[n], n != self && fips[n].key == k, cutoff);
      assert n in occupying <==> heldNow + waitingNow == 1;
      assert n in young <==> recentNow == 1;
      ListedOnce(occupying, rest, n);
      ListedOnce(young, rest, n);
      held, waiting, recent := held + heldNow, waiting + waitingNow, recent + recentNow;
      rest := rest - {n};
    }
    AllListed(occupying);
    AllListed(young);
  }

  class Handler {
    var quotaReservations: map<Key, seq<Time>>
    var ipReservations: map<Claim, Time>

    constructor ()
      ensures quotaReservations == map[] && ipReservations == map[]
    {
      quotaReservations, ipReservations := map[], map[];
    }

    /** Counts the unexpired reservations of a key and forgets the others. */
    method ActiveQuotaReservations(k: Key, now: Time) returns (count: nat)
      modifies this`quotaReservations
      ensures count == |Prune(ReservationsOf(old(quotaReservations), k), now)|
      ensures quotaReservations == PrunedAt(old(quotaReservations), k, now)
    {
      if k !in quotaReservations {
        return 0;
      }
      var expiries := quotaReservations[k];
      var active := [];
      count := 0;
      for i := 0 to |expiries|
        invariant active + Prune(expiries[i..], now) == Prune(expiries, now)
        invariant count == |active|
      {
        if now < expiries[i] {
          active := active + [expiries[i]];
          count := count + 1;
        }
      }
      assert active + [] == active;
      quotaReservations := quotaReservations[k := active];
    }

    method TakeQuotaReservation(k: Key, now: Time)
      modifies this`quotaReservations
      ensures quotaReservations ==
        old(quotaReservations)[k := ReservationsOf(old(quotaReservations), k) + [now + RESERVATION_TTL]]
    {
      var expiries := if k in quotaReservations then quotaReservations[k] else [];
      quotaReservations := quotaReservations[k := expiries + [now + RESERVATION_TTL]];
    }

    /** Usage from a live list, counted in one pass over it. The clock is read for the
        cutoff, and again for the reservations. */
    method LiveQuotaUsage(fips: Fips, k: Key, self: Name, clock: Time, read: Time) returns (usage: nat)
      modifies this`quotaReservations
      ensures usage ==
        Usage(fips, |Prune(ReservationsOf(old(quotaReservations), k), read)|, k, Some(self), clock - RESERVATION_TTL)
      ensures quotaReservations == PrunedAt(old(quotaReservations), k, read)
    {
      var cutoff := clock - RESERVATION_TTL;
      var held, waiting, recent := CountOccupants(fips, k, self, cutoff);
      var reservations := ActiveQuotaReservations(k, read);
      var unpaired := if reservations < recent then 0 else reservations - recent;
      usage := held + waiting + unpaired;
    }

    /** Denies an address that is reserved now or claimed by an object listed after that,
        and reserves it otherwise. */
    method CheckIPNotInUse(fips: Fips, c: Claim, now: Time, later: Time) returns (v: Verdict)
      modifies this`ipReservations
      ensures v == if Reserved(old(ipReservations), c, now) then PendingAllocation
                   else if ClaimedByAny(fips, c) then AlreadyClaimed else Allowed
      ensures ipReservations ==
        if v == PendingAllocation then old(ipReservations) else Listed(fips, Probed(old(ipReservations), c), c, later)
    {
      if c in ipReservations {
        if now < ipReservations[c] {
          return PendingAllocation;
        }
        ipReservations := ipReservations - {c};
      }
      assert ipReservations == Probed(old(ipReservations), c);
      var rest := fips.Keys;
      while rest != {}
        invariant rest <= fips.Keys
        invariant forall n :: n in fips && n !in rest ==> !fips[n].Claims(c)
        decreases rest
      {
        var n :| n in rest;
        rest := rest - {n};
        var fip := fips[n];
        if fip.ip == Some(c.ip) && fip.key.pool == c.pool {
          if fip.terminating {
            assert fips[n].Claims(c);
            return AlreadyClaimed;
          }
          if !(fip.errored && !fip.holds) {
            assert fips[n].Claims(c);
            return AlreadyClaimed;
          }
        }
      }
      ipReservations := ipReservations[c := later + RESERVATION_TTL];
      return Allowed;
    }

    /** Denies a create that would exceed the project's quota for the pool, and takes
        a reservation for it otherwise, by yet another reading of the clock. */
    method CheckQuota(fips: Fips, quotas: map<Key, int>, n: Name, k: Key, clock: Time, read: Time, now: Time)
      returns (v: Verdict)
      modifies this`quotaReservations
      ensures v == QuotaVerdict(fips, quotas, old(quotaReservations), n, k, clock, read)
      ensures quotaReservations == QuotaReservationsAfter(v, old(quotaReservations), k, read, now)
    {
      if k !in quotas {
        return NoQuota;
      }
      var usage := LiveQuotaUsage(fips, k, n, clock, read);
      if usage >= quotas[k] {
        return QuotaExceeded;
      }
      TakeQuotaReservation(k, now);
      return Allowed;
    }

    /** Validates a create: first the pinned address, against the reservations and then a
        list of objects, then the project's quota, against a later list. */
    method ValidateCreate(probed: Time, fips: Fips, listed: Time, later: Fips, clock: Time, read: Time, now: Time,
                          quotas: map<Key, int>, n: Name, k: Key, ip: Option<Address>)
      returns (v: Verdict)
      modifies this
      ensures v == var used := AddressVerdict(fips, old(ipReservations), k, ip, probed);
        if used != Allowed then used else QuotaVerdict(later, quotas, old(quotaReservations), n, k, clock, read)
      ensures ipReservations == IPReservationsAfter(fips, old(ipReservations), k, ip, probed, listed)
      ensures quotaReservations == QuotaReservationsAfter(v, old(quotaReservations), k, read, now)
    {
      if ip.Some? {
        var used := CheckIPNotInUse(fips, Claim(k.pool, ip.value), probed, listed);
        if used != Allowed {
          return used;
        }
      }
      v := CheckQuota(later, quotas, n, k, clock, read, now);
    }
  }

  lemma AllListed(s: set<Name>)
    ensures |s - {}| == |s|
  {
    assert s - {} == s;
  }

  lemma ListedOnce(s: set<Name>, rest: set<Name>, n: Name)
    requires n in rest
    ensures |s - (rest - {n})| == |s - rest| + if n in s then 1 else 0
  {
    if n in s {
      assert s - (rest - {n}) == s - rest + {n};
    } else {
      assert s - (rest - {n}) == s - rest;
    }
  }

  function AddressVerdict(fips: Fips, ips: map<Claim, Time>, k: Key, ip: Option<Address>, now: Time): Verdict {
    if ip.None? then Allowed
    else if Reserved(ips, Claim(k.pool, ip.value), now) then PendingAllocation
    else if ClaimedByAny(fips, Claim(k.pool, ip.value)) then AlreadyClaimed
    else Allowed
  }

  function QuotaVerdict(
    fips: Fips, quotas: map<Key, int>, quota: map<Key, seq<Time>>, n: Name, k: Key, clock: Time, read: Time): Verdict
  {
    if k !in quotas then NoQuota
    else
      var active := |Prune(ReservationsOf(quota, k), read)|;
      if Usage(fips, active, k, Some(n), clock - RESERVATION_TTL) >= quotas[k] then QuotaExceeded
      else Allowed
  }

  /** The first look at an address drops its expired reservation. */
  function Probed(ips: map<Claim, Time>, c: Claim): map<Claim, Time> {
    ips - {c}
  }

  /** The list decides whether it is reserved anew. */
  function Listed(fips: Fips, ips: map<Claim, Time>, c: Claim, now: Time): map<Claim, Time> {
    if ClaimedByAny(fips, c) then ips else ips[c := now + RESERVATION_TTL]
  }

  function IPReservationsAfter(
    fips: Fips, ips: map<Claim, Time>, k: Key, ip: Option<Address>, now: Time, later: Time): map<Claim, Time>
  {
    if ip.None? || Reserved(ips, Claim(k.pool, ip.value), now) then ips
    else Listed(fips, Probed(ips, Claim(k.pool, ip.value)), Claim(k.pool, ip.value), later)
  }

  function PrunedAt(quota: map<Key, seq<Time>>, k: Key, read: Time): map<Key, seq<Time>> {
    if k in quota then quota[k := Prune(quota[k], read)] else quota
  }

  function QuotaReservationsAfter(
    v: Verdict, quota: map<Key, seq<Time>>, k: Key, read: Time, now: Time): map<Key, seq<Time>>
  {
    match v
    case QuotaExceeded => PrunedAt(quota, k, read)
    case Allowed => PrunedAt(quota, k, read)[k := Prune(ReservationsOf(quota, k), read) + [now + RESERVATION_TTL]]
    case _ => quota
  }
}
