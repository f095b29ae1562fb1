/** What holds over whole sequences of allocator calls. */
module IpamProperties {
  import opened Common
  import opened Addresses
  import opened Ipam

  // ------------------------------------------------------------- one owner at a time

  ghost predicate HeldBy(m: Table, p: PoolName, a: Address, owner: Owner) {
    p in m && m[p].Used(a) && m[p].OwnerOf(a) == owner
  }

  /** The calls after which an owner no longer holds an address it held. */
  ghost predicate GivesUp(m: Table, c: Call, p: PoolName, a: Address, owner: Owner) {
    c.pool == p &&
    match c
    case NewSubnet(_, config) => ConfigError(config).None?
    case RefreshSubnet(_, config, excludes, _) => RefreshError(config, excludes).None? && !InRange(config, a)
    case DeleteSubnet(_) => true
    case ReleaseIP(_, given) => given == Some(a)
    case ReleaseIPOwned(_, given, who) => given == Some(a) && who == owner
    case ReleaseAllByOwner(_, who) => who == owner
    case _ => false
  }

  /** A claim survives a call exactly when the call is not one that gives it up. */
  lemma ClaimSurvivesIff(m: Table, c: Call, p: PoolName, a: Address, owner: Owner)
    requires ValidTable(m) && owner != "" && HeldBy(m, p, a, owner)
    ensures HeldBy(After(m, c), p, a, owner) <==> !GivesUp(m, c, p, a, owner)
  {
    if c.pool == p {
      match c
      case GetIP(_, given) => ClaimKeepsValid(m[p], given, "");
      case GetIPOwned(_, given, who) => ClaimKeepsValid(m[p], given, who);
      case _ =>
    }
  }

  ghost function StateAt(m: Table, calls: seq<Call>, n: nat): Table
    requires n <= |calls|
  {
    if n == 0 then m else After(StateAt(m, calls, n - 1), calls[n - 1])
  }

  lemma {:induction false} StateAtIsValid(m: Table, calls: seq<Call>, n: nat)
    requires ValidTable(m) && n <= |calls|
    ensures ValidTable(StateAt(m, calls, n))
  {
    if n > 0 {
      StateAtIsValid(m, calls, n - 1);
      CallsKeepValid(StateAt(m, calls, n - 1), calls[n - 1]);
    }
  }

  ghost predicate GivenUpAt(m: Table, calls: seq<Call>, k: nat, p: PoolName, a: Address, owner: Owner)
    requires k < |calls|
  {
    GivesUp(StateAt(m, calls, k), calls[k], p, a, owner)
  }

  lemma {:induction false} HeldUntilGivenUp(
        m: Table, calls: seq<Call>, i: nat, j: nat, p: PoolName, a: Address, owner: Owner)
    requires ValidTable(m) && i <= j <= |calls| && owner != ""
    requires HeldBy(StateAt(m, calls, i), p, a, owner)
    requires forall k :: i <= k < j ==> !GivenUpAt(m, calls, k, p, a, owner)
    ensures HeldBy(StateAt(m, calls, j), p, a, owner)
    decreases j
  {
    if i < j {
      HeldUntilGivenUp(m, calls, i, j - 1, p, a, owner);
      StateAtIsValid(m, calls, j - 1);
      assert !GivenUpAt(m, calls, j - 1, p, a, owner);
      ClaimSurvivesIff(StateAt(m, calls, j - 1), calls[j - 1], p, a, owner);
    }
  }

  lemma GrantHolds(m: Table, p: PoolName, given: Option<Address>, owner: Owner, a: Address)
    requires ValidTable(m) && ReplyTo(m, GetIPOwned(p, given, owner)) == Granted(a)
    ensures HeldBy(After(m, GetIPOwned(p, given, owner)), p, a, owner)
  {
    ClaimKeepsValid(m[p], given, owner);
  }

  lemma NoGrantWhileHeld(m: Table, c: Call, p: PoolName, a: Address, owner: Owner)
    requires ValidTable(m) && owner != "" && HeldBy(m, p, a, owner) && c.pool == p
    requires c.GetIP? || (c.GetIPOwned? && c.owner != owner)
    ensures ReplyTo(m, c) != Granted(a)
  {
    ClaimKeepsValid(m[p], c.given, if c.GetIP? then "" else c.owner);
  }

  lemma GrantedCallHolds(m: Table, calls: seq<Call>, i: nat, p: PoolName, a: Address)
    requires ValidTable(m) && i < |calls| && calls[i].GetIPOwned? && calls[i].pool == p
    requires ReplyTo(StateAt(m, calls, i), calls[i]) == Granted(a)
    ensures calls[i].owner != "" && HeldBy(StateAt(m, calls, i + 1), p, a, calls[i].owner)
  {
    StateAtIsValid(m, calls, i);
    GrantHolds(StateAt(m, calls, i), p, calls[i].given, calls[i].owner, a);
  }

  /** Over every sequence of allocator calls: an address granted to one owner and
      later granted to anyone else was given up in between. */
  lemma GrantsAreSeparated(m: Table, calls: seq<Call>, i: nat, j: nat, p: PoolName, a: Address)
    requires ValidTable(m) && i < j < |calls|
    requires calls[i].GetIPOwned? && calls[i].pool == p && ReplyTo(StateAt(m, calls, i), calls[i]) == Granted(a)
    requires calls[j].pool == p && ReplyTo(StateAt(m, calls, j), calls[j]) == Granted(a)
    requires calls[j].GetIP? || (calls[j].GetIPOwned? && calls[j].owner != calls[i].owner)
    ensures exists k :: i < k < j && GivenUpAt(m, calls, k, p, a, calls[i].owner)
  {
    hide ReplyTo, After, HeldBy, GivenUpAt, ValidTable;
    GrantedCallHolds(m, calls, i, p, a);
    var owner, now := calls[i].owner, StateAt(m, calls, j);
    StateAtIsValid(m, calls, j);
    if HeldBy(now, p, a, owner) {
      NoGrantWhileHeld(now, calls[j], p, a, owner);
    } else if !exists k :: i < k < j && GivenUpAt(m, calls, k, p, a, owner) {
      HeldUntilGivenUp(m, calls, i + 1, j, p, a, owner);
    }
  }

  // ------------------------------------------------------- what is granted and refused

  /** The accepted ranges: not empty, inside the subnet, short of an IPv4 broadcast and of at
      most 65536 addresses. The first of these that fails is the reason of the refusal. */
  lemma RangeIsAcceptedIff(c: Config)
    ensures var inside := c.cidr.first <= c.start <= c.cidr.last;
      var within := inside && c.cidr.first <= c.end <= c.cidr.last;
      var ordered := within && c.start <= c.end;
      var short := ordered && (c.cidr.V4? ==> c.end != c.cidr.last);
      && (ConfigError(c) == None <==> short && c.end - c.start < 65536)
      && (ConfigError(c) == Some(StartOutsideSubnet) <==> !inside)
      && (ConfigError(c) == Some(EndOutsideSubnet) <==> inside && !within)
      && (ConfigError(c) == Some(EndBeforeStart) <==> within && !ordered)
      && (ConfigError(c) == Some(EndIsBroadcast) <==> ordered && !short)
  {
  }

  /** A new pool has nothing allocated; a refused range leaves every pool as it was. */
  lemma NewPoolIsFree(m: Table, p: PoolName, c: Config)
    requires ValidTable(m)
    ensures var after := After(m, NewSubnet(p, c));
      if ReplyTo(m, NewSubnet(p, c)).Refused? then after == m && ConfigError(c).Some?
      else
        && p in after && after - {p} == m - {p} && after[p].config == c && ConfigError(c).None?
        && after[p].UsedSet() == {} && after[p].owners == map[]
        && forall a: Address :: a in after[p].ips <==> c.start <= a <= c.end
  {
    assert After(m, NewSubnet(p, c)) - {p} == m - {p};
  }

  /** A refresh is refused exactly for a range that is, or for an exclude outside it. */
  lemma RefreshIsRefusedIff(m: Table, p: PoolName, c: Config, excludes: seq<Address>, allocations: seq<Address>)
    ensures ReplyTo(m, RefreshSubnet(p, c, excludes, allocations)).Refused? <==>
      ConfigError(c).Some? || exists a :: a in excludes && !(c.start <= a <= c.end)
  {
    assert ConfigError(c).None? ==> forall a :: a in excludes ==> (InRange(c, a) <==> c.start <= a <= c.end);
  }

  /** What becomes of one address of one pool, while everything else stays as it is. */
  ghost predicate OnlyChanges(m: Table, after: Table, p: PoolName, a: Address, used: bool, owner: Owner) {
    && p in m && p in after && after - {p} == m - {p} && after[p].config == m[p].config
    && after[p].Used(a) == used && after[p].OwnerOf(a) == owner
    && forall b :: b != a ==> after[p].Used(b) == m[p].Used(b) && after[p].OwnerOf(b) == m[p].OwnerOf(b)
  }

  /** A claim on a given address is granted exactly when it is of the range and free, or when
      its owner asks for it again. */
  lemma PinnedClaimIsGrantedIff(m: Table, p: PoolName, a: Address, owner: Owner)
    requires ValidTable(m) && p in m && owner != ""
    ensures var call := GetIPOwned(p, Some(a), owner);
      && (ReplyTo(m, call) == Granted(a) <==>
            m[p].config.start <= a <= m[p].config.end && (!m[p].Used(a) || m[p].OwnerOf(a) == owner))
      && (ReplyTo(m, call) == Granted(a) || ReplyTo(m, call).Refused?)
      && if ReplyTo(m, call) == Granted(a) then OnlyChanges(m, After(m, call), p, a, true, owner)
         else After(m, call) == m
  {
    ClaimKeepsValid(m[p], Some(a), owner);
    assert After(m, GetIPOwned(p, Some(a), owner)) - {p} == m - {p};
    assert m[p := m[p]] == m;
  }

  /** Without an owner it is granted exactly when it is of the range and free. */
  lemma UnownedClaimIsGrantedIff(m: Table, p: PoolName, a: Address)
    requires ValidTable(m) && p in m
    ensures var call := GetIP(p, Some(a));
      && (ReplyTo(m, call) == Granted(a) <==> m[p].config.start <= a <= m[p].config.end && !m[p].Used(a))
      && (ReplyTo(m, call) == Granted(a) || ReplyTo(m, call).Refused?)
      && if ReplyTo(m, call) == Granted(a) then OnlyChanges(m, After(m, call), p, a, true, "")
         else After(m, call) == m
  {
    ClaimKeepsValid(m[p], Some(a), "");
    assert After(m, GetIP(p, Some(a))) - {p} == m - {p};
    assert m[p := m[p]] == m;
  }

  /** A release is done exactly when the address is used; an owner's, when it is the
      owner's. */
  lemma ReleaseIsDoneIff(m: Table, p: PoolName, a: Address, owner: Owner)
    requires ValidTable(m) && p in m && owner != ""
    ensures var call := ReleaseIP(p, Some(a));
      && (ReplyTo(m, call) == Done <==> m[p].Used(a)) && (ReplyTo(m, call) == Done || ReplyTo(m, call).Refused?)
      && if ReplyTo(m, call) == Done then OnlyChanges(m, After(m, call), p, a, false, "") else After(m, call) == m
    ensures var call := ReleaseIPOwned(p, Some(a), owner);
      && (ReplyTo(m, call) == Done <==> m[p].Used(a) && m[p].OwnerOf(a) == owner)
      && (ReplyTo(m, call) == Refused(ForeignClaim) <==> m[p].Used(a) && m[p].OwnerOf(a) != owner)
      && if ReplyTo(m, call) == Done then OnlyChanges(m, After(m, call), p, a, false, "") else After(m, call) == m
  {
    assert After(m, ReleaseIP(p, Some(a))) - {p} == m - {p};
    assert After(m, ReleaseIPOwned(p, Some(a), owner)) - {p} == m - {p};
    assert m[p := m[p]] == m;
  }

  // ------------------------------------------------------------------------- refresh

  /** A refresh is all or nothing, and its outcome is exactly the excludes, the
      allocations and the live owned claims the new range has. */
  lemma RefreshIsExact(m: Table, p: PoolName, c: Config, excludes: seq<Address>, allocations: seq<Address>)
    requires ValidTable(m)
    ensures var call := RefreshSubnet(p, c, excludes, allocations);
      if ReplyTo(m, call).Refused? then After(m, call) == m
      else
        && p in After(m, call)
        && After(m, call) - {p} == m - {p}
        && (forall a :: After(m, call)[p].Used(a) <==>
              InRange(c, a) && (a in excludes || a in allocations || exists o :: o != "" && HeldBy(m, p, a, o)))
        && (forall a, o :: o != "" ==> (HeldBy(After(m, call), p, a, o) <==> InRange(c, a) && HeldBy(m, p, a, o)))
  {
    var call := RefreshSubnet(p, c, excludes, allocations);
    if !ReplyTo(m, call).Refused? {
      assert After(m, call) - {p} == m - {p};
      forall a
        ensures Carried(Lookup(m, p), a) <==> exists o :: o != "" && HeldBy(m, p, a, o)
      {
        if Carried(Lookup(m, p), a) {
          assert HeldBy(m, p, a, m[p].owners[a]);
        }
      }
    }
  }

  /** Repeating a refresh with the same arguments changes nothing. */
  lemma RefreshIsIdempotent(m: Table, p: PoolName, c: Config, excludes: seq<Address>, allocations: seq<Address>)
    requires ValidTable(m)
    ensures var call := RefreshSubnet(p, c, excludes, allocations);
      After(After(m, call), call) == After(m, call)
  {
    if RefreshError(c, excludes).None? {
      var once := Refreshed(c, excludes, allocations, Lookup(m, p));
      var twice := Refreshed(c, excludes, allocations, Some(once));
      assert once.ips == twice.ips;
      assert once.owners == twice.owners;
    }
  }

  // ---------------------------------------------------------------------- accounting

  /** A pool has exactly the addresses from start to end, at most 65536 of them, none
      of which is the IPv4 directed broadcast or lies outside the subnet. */
  lemma MembersAreTheRange(s: Subnet)
    requires s.Valid()
    ensures forall a: Address :: a in s.ips <==> s.config.start <= a <= s.config.end
    ensures |s.ips.Keys| == s.config.end - s.config.start + 1 <= 65536
    ensures forall a :: a in s.ips ==>
      s.config.cidr.first <= a <= s.config.cidr.last && (s.config.cidr.V4? ==> a != s.config.cidr.last)
  {
    var members: set<int> := s.ips.Keys;
    forall x: int
      ensures x in members <==> s.config.start <= x <= s.config.end
    {
      if s.config.start <= x <= s.config.end {
        var a: Address := x;
        assert a in s.ips;
      }
    }
    IntervalSize(s.config.start, s.config.end, members);
  }

  /** Used and Available always add up to the size of the range. */
  lemma UsedPlusAvailable(s: Subnet)
    requires s.Valid()
    ensures |s.UsedSet()| + |s.FreeSet()| == s.config.end - s.config.start + 1 <= 65536
  {
    MembersAreTheRange(s);
    assert s.UsedSet() + s.FreeSet() == s.ips.Keys;
  }

  /** An unpinned claim takes the least free address and fails exactly when the
      pool is full. */
  lemma UnpinnedClaimIsLeast(s: Subnet, owner: Owner)
    requires s.Valid()
    ensures var r := Claim(s, None, owner);
      if r.Success? then r.value in s.FreeSet() && forall a :: a in s.FreeSet() ==> r.value <= a
      else r.error == Exhausted && s.FreeSet() == {}
  {
    FirstFreeIsLeast(s, s.config.start);
  }

  /** So do the calls, with an owner or without, whatever the owner has already. */
  lemma UnpinnedCallIsLeast(m: Table, p: PoolName, owner: Owner, call: Call)
    requires ValidTable(m) && p in m
    requires call == GetIP(p, None) || (call == GetIPOwned(p, None, owner) && owner != "")
    ensures match ReplyTo(m, call)
      case Granted(a) =>
        && a in m[p].FreeSet() && (forall b :: b in m[p].FreeSet() ==> a <= b)
        && OnlyChanges(m, After(m, call), p, a, true, if call.GetIP? then "" else owner)
      case Refused(e) => e == Exhausted && m[p].FreeSet() == {} && After(m, call) == m
      case _ => false
  {
    UnpinnedClaimIsLeast(m[p], if call.GetIP? then "" else owner);
    assert After(m, call) - {p} == m - {p};
    assert m[p := m[p]] == m;
  }

  /** How a call that answers moves the number of used addresses. */
  ghost predicate CountsRight(s: Subnet, c: Call)
    requires s.Valid() && !c.NewSubnet? && !c.RefreshSubnet? && !c.DeleteSubnet?
  {
    var t := PoolAfter(s, c);
    match ReplyTo(map[c.pool := s], c)
    case Granted(a) => |t.UsedSet()| == |s.UsedSet()| + (if s.Used(a) then 0 else 1)
                    && t.UsedSet() == s.UsedSet() + {a}
    case Done => |t.UsedSet()| == |s.UsedSet()| - 1 && t.UsedSet() == s.UsedSet() - {c.given.value}
    case Freeing(n) => |t.UsedSet()| == |s.UsedSet()| - n
    case Refused(_) => t == s
  }

  lemma ClaimsCount(s: Subnet, c: Call)
    requires s.Valid() && (c.GetIP? || c.GetIPOwned?)
    ensures CountsRight(s, c)
  {
    var owner := if c.GetIPOwned? then c.owner else "";
    if c.GetIPOwned? && c.given.Some? && s.Used(c.given.value) && s.OwnerOf(c.given.value) == owner && owner != "" {
      KeepClaim(s, c.given.value);
    } else {
      GrantCounts(s, c.given, owner);
    }
  }

  lemma ReleasesCount(s: Subnet, c: Call)
    requires s.Valid() && (c.ReleaseIP? || c.ReleaseIPOwned?)
    ensures CountsRight(s, c)
  {
    var e := if c.ReleaseIP? then ReleaseError(s, c.given) else ReleaseOwnedError(s, c.given, c.owner);
    ReleaseCounts(s, c.given, e);
  }

  /** Grants add one, a repeated claim none; releases subtract one, a sweep exactly
      what it reports; a refusal changes nothing. */
  lemma CallsCount(s: Subnet, c: Call)
    requires s.Valid() && !c.NewSubnet? && !c.RefreshSubnet? && !c.DeleteSubnet?
    ensures CountsRight(s, c)
  {
    if c.GetIP? || c.GetIPOwned? {
      ClaimsCount(s, c);
    } else if c.ReleaseAllByOwner? {
      SweepCounts(s, c.owner);
    } else {
      ReleasesCount(s, c);
    }
  }

  lemma GrantCounts(s: Subnet, given: Option<Address>, owner: Owner)
    requires s.Valid()
    ensures var r := Claim(s, given, owner);
      r.Success? ==> r.value !in s.UsedSet() && Grant(s, r.value, owner).UsedSet() == s.UsedSet() + {r.value}
  {
    ClaimKeepsValid(s, given, owner);
  }

  lemma ReleaseCounts(s: Subnet, given: Option<Address>, e: Option<Error>)
    requires s.Valid() && (e.None? ==> ReleaseError(s, given).None?)
    ensures var t := AfterRelease(s, given, e);
      e.None? ==> t.UsedSet() == s.UsedSet() - {given.value} && |t.UsedSet()| == |s.UsedSet()| - 1
  {
    if e.None? {
      assert AfterRelease(s, given, e).UsedSet() == s.UsedSet() - {given.value};
    }
  }

  /** A sweep frees as many addresses as it reports and leaves every other
      owner's claims alone. */
  lemma SweepCounts(s: Subnet, owner: Owner)
    requires s.Valid()
    ensures var t := Swept(s, owner);
      && |t.UsedSet()| == |s.UsedSet()| - |s.ClaimsOf(owner)|
      && t.ClaimsOf(owner) == {}
      && forall o :: o != owner ==> t.ClaimsOf(o) == s.ClaimsOf(o)
  {
    var t := Swept(s, owner);
    assert s.UsedSet() == t.UsedSet() + s.ClaimsOf(owner);
    assert t.UsedSet() !! s.ClaimsOf(owner);
    forall o | o != owner
      ensures t.ClaimsOf(o) == s.ClaimsOf(o)
    {
    }
  }
}
