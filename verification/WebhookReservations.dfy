/** Reservations of the quota and the admissions that they stand for. */
module WebhookReservations {
  import opened Webhook

  datatype Admission = Admission(name: Name, key: Key, at: Time)

  ghost predicate WasAdmitted(log: seq<Admission>, n: Name, k: Key, since: Time) {
    exists i :: 0 <= i < |log| && log[i].name == n && log[i].key == k && since <= log[i].at
  }

  /** The admissions whose reservations are unexpired. */
  function ActiveAdmissions(log: seq<Admission>, k: Key, now: Time): set<nat> {
    set i: nat | i < |log| && log[i].key == k && now < log[i].at + RESERVATION_TTL
  }

  function Expiries(log: seq<Admission>, k: Key): seq<Time> {
    if log == [] then []
    else
      var last := log[|log| - 1];
      Expiries(log[..|log| - 1], k) + if last.key == k then [last.at + RESERVATION_TTL] else []
  }

  lemma PruneFirst(a: seq<Time>, now: Time)
    requires a != []
    ensures Prune(a, now) == (if now < a[0] then [a[0]] else []) + Prune(a[1..], now)
  {
  }

  lemma PruneConcatenatesFirst(a: seq<Time>, b: seq<Time>, now: Time)
    requires a != [] && Prune(a[1..] + b, now) == Prune(a[1..], now) + Prune(b, now)
    ensures Prune(a + b, now) == Prune(a, now) + Prune(b, now)
  {
    hide Prune;
    PruneFirst(a, now);
    PruneFirst(a + b, now);
    assert (a + b)[1..] == a[1..] + b;
    Associates(if now < a[0] then [a[0]] else [], Prune(a[1..], now), Prune(b, now));
  }

  lemma Associates(a: seq<Time>, b: seq<Time>, c: seq<Time>)
    ensures a + (b + c) == a + b + c
  {
  }

  lemma {:induction false} PruneConcatenates(a: seq<Time>, b: seq<Time>, now: Time)
    ensures Prune(a + b, now) == Prune(a, now) + Prune(b, now)
  {
    if a == [] {
      assert a + b == b;
    } else {
      PruneConcatenates(a[1..], b, now);
      PruneConcatenatesFirst(a, b, now);
    }
  }

  lemma {:induction false} PruneAgain(a: seq<Time>, now: Time, later: Time)
    requires now <= later
    ensures Prune(Prune(a, now), later) == Prune(a, later)
  {
    if a != [] {
      PruneAgain(a[1..], now, later);
      if now < a[0] {
        assert ([a[0]] + Prune(a[1..], now))[1..] == Prune(a[1..], now);
      }
    }
  }

  lemma LastActive(log: seq<Admission>, k: Key, now: Time)
    requires log != []
    ensures var n := |log| - 1;
      |ActiveAdmissions(log, k, now)| ==
      |ActiveAdmissions(log[..n], k, now)| + if log[n].key == k && now < log[n].at + RESERVATION_TTL then 1 else 0
  {
    var n := |log| - 1;
    var before := ActiveAdmissions(log[..n], k, now);
    assert ActiveAdmissions(log, k, now) ==
      if log[n].key == k && now < log[n].at + RESERVATION_TTL then before + {n} else before;
  }

  lemma PruneOne(expiry: Time, now: Time)
    ensures Prune([expiry], now) == (if now < expiry then [expiry] else []) && Prune([], now) == []
  {
    assert [expiry][1..] == [];
  }

  lemma {:induction false} ActiveExpiries(log: seq<Admission>, k: Key, now: Time)
    ensures |Prune(Expiries(log, k), now)| == |ActiveAdmissions(log, k, now)|
  {
    if log == [] {
      assert ActiveAdmissions(log, k, now) == {};
    } else {
      hide ActiveAdmissions, Prune;
      var n := |log| - 1;
      ActiveExpiries(log[..n], k, now);
      LastActive(log, k, now);
      PruneOne(log[n].at + RESERVATION_TTL, now);
      PruneConcatenates(Expiries(log[..n], k), if log[n].key == k then [log[n].at + RESERVATION_TTL] else [], now);
    }
  }

  lemma AdmissionsStay(log: seq<Admission>, e: Admission, n: Name, k: Key, since: Time)
    requires WasAdmitted(log, n, k, since)
    ensures WasAdmitted(log + [e], n, k, since)
  {
    var i :| 0 <= i < |log| && log[i].name == n && log[i].key == k && since <= log[i].at;
    assert (log + [e])[i] == log[i];
  }

  lemma {:induction false} ImageSize<A, B>(from: set<A>, to: set<B>, f: map<A, B>)
    requires from <= f.Keys
    requires forall b :: b in to ==> exists a :: a in from && f[a] == b
    ensures |to| <= |from|
    decreases |from|
  {
    if from != {} {
      var a :| a in from;
      ImageSize(from - {a}, to - {f[a]}, f);
    } else {
      assert to == {};
    }
  }

  /** The reservations of every key are the expiries of its admissions, as far as they
      have not expired. */
  ghost predicate Follows(quota: map<Key, seq<Time>>, log: seq<Admission>, now: Time) {
    forall k :: Prune(ReservationsOf(quota, k), now) == Prune(Expiries(log, k), now)
  }

  lemma LastExpiry(log: seq<Admission>, e: Admission, k: Key)
    ensures Expiries(log + [e], k) == Expiries(log, k) + if e.key == k then [e.at + RESERVATION_TTL] else []
  {
    assert (log + [e])[..|log|] == log;
  }

  lemma PruningFollows(quota: map<Key, seq<Time>>, log: seq<Admission>, k: Key, read: Time, now: Time)
    requires Follows(quota, log, now) && read <= now
    ensures Follows(PrunedAt(quota, k, read), log, now)
  {
    PruneAgain(ReservationsOf(quota, k), read, now);
  }

  lemma AdmittingFollows(quota: map<Key, seq<Time>>, log: seq<Admission>, n: Name, k: Key, read: Time, now: Time)
    requires Follows(quota, log, now) && read <= now
    ensures Follows(QuotaReservationsAfter(Allowed, quota, k, read, now), log + [Admission(n, k, now)], now)
  {
    hide Prune, Expiries;
    var after, e := QuotaReservationsAfter(Allowed, quota, k, read, now), Admission(n, k, now);
    var kept, taken := Prune(ReservationsOf(quota, k), read), [now + RESERVATION_TTL];
    forall other
      ensures Prune(ReservationsOf(after, other), now) == Prune(Expiries(log + [e], other), now)
    {
      LastExpiry(log, e, other);
      if other == k {
        PruneAgain(ReservationsOf(quota, k), read, now);
        PruneConcatenates(kept, taken, now);
        PruneConcatenates(Expiries(log, k), taken, now);
      } else {
        assert Expiries(log, other) + [] == Expiries(log, other);
        assert ReservationsOf(after, other) == ReservationsOf(quota, other);
      }
    }
  }

  lemma TickFollows(quota: map<Key, seq<Time>>, log: seq<Admission>, now: Time, later: Time)
    requires Follows(quota, log, now) && now <= later
    ensures Follows(quota, log, later)
  {
    forall k
      ensures Prune(ReservationsOf(quota, k), later) == Prune(Expiries(log, k), later)
    {
      PruneAgain(ReservationsOf(quota, k), now, later);
      PruneAgain(Expiries(log, k), now, later);
    }
  }
}
