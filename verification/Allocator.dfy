/** The allocator itself: a mutex-guarded object whose methods change the pool
    tables in place. Every method runs under the mutex, so each is one call. */
module Allocator {
  import opened Common
  import opened Addresses
  import opened Ipam

  /** Marks an address used if the pool has it. */
  method MarkIPUsed(s: Subnet, a: Address) returns (e: Option<Error>, marked: Subnet)
    requires s.Valid()
    ensures e == MarkError(s.config, a) && (e.None? <==> InRange(s.config, a))
    ensures marked == if e.None? then s.(ips := s.ips[a := true]) else s
  {
    if !s.config.cidr.Contains(a) {
      return Some(NotInCidr), s;
    }
    if s.broadcast == Some(a) {
      return Some(IsBroadcast), s;
    }
    if a in s.ips {
      return None, s.(ips := s.ips[a := true]);
    }
    return Some(NotInPool), s;
  }

  /** Carries one owned claim of the previous table into the new one. */
  method CarryClaim(s: Subnet, claims: Subnet, a: Address) returns (t: Subnet)
    requires s.Valid() && claims.Valid() && a in claims.owners
    ensures t == if claims.owners[a] != "" && InRange(s.config, a) then Grant(s, a, claims.owners[a]) else s
  {
    t := s;
    var owner := claims.owners[a];
    if owner != "" && claims.ips[a] {
      var e, marked := MarkIPUsed(s, a);
      if e.None? {
        t := marked.(owners := marked.owners[a := owner]);
      }
    }
  }

  /** The new table after the claims outside rest were carried over. */
  ghost predicate CarriedExcept(s: Subnet, s0: Subnet, prev: Subnet, rest: set<Address>) {
    && s.Valid() && s.config == s0.config && s.ips.Keys == s0.ips.Keys
    && (forall a :: a in s.ips ==> s.ips[a] == (s0.ips[a] || (Carried(Some(prev), a) && a !in rest)))
    && (forall a :: a in s.owners <==> Carried(Some(prev), a) && a !in rest && InRange(s0.config, a))
    && (forall a :: a in s.owners ==> s.owners[a] == prev.owners[a])
  }

  method CarryOwned(s0: Subnet, prev: Subnet) returns (s: Subnet)
    requires s0.Valid() && s0.owners == map[] && prev.Valid()
    ensures CarriedExcept(s, s0, prev, {})
  {
    s := s0;
    var rest := prev.owners.Keys;
    while rest != {}
      invariant rest <= prev.owners.Keys
      invariant CarriedExcept(s, s0, prev, rest)
      decreases rest
    {
      var a :| a in rest;
      s := CarryClaim(s, prev, a);
      rest := rest - {a};
    }
  }

  /** The table s0 with some more addresses used. */
  ghost predicate MarkedWith(s: Subnet, s0: Subnet, marks: seq<Address>) {
    && s.Valid() && s.config == s0.config && s.owners == s0.owners && s.ips.Keys == s0.ips.Keys
    && forall a :: a in s.ips ==> s.ips[a] == (s0.ips[a] || a in marks)
  }

  lemma FirstErrorAt(c: Config, marks: seq<Address>, i: nat)
    requires i < |marks| && forall j :: 0 <= j < i ==> MarkError(c, marks[j]).None?
    ensures MarkError(c, marks[i]).Some? ==> FirstMarkError(c, marks) == MarkError(c, marks[i])
  {
    if i > 0 {
      FirstErrorAt(c, marks[1..], i - 1);
    }
  }

  /** Marks addresses used; one that cannot be marked stops the marking if every one
      must be, and is skipped otherwise. */
  method MarkAll(s0: Subnet, marks: seq<Address>, strict: bool) returns (e: Option<Error>, s: Subnet)
    requires s0.Valid()
    ensures e == if strict then FirstMarkError(s0.config, marks) else None
    ensures e.None? ==> MarkedWith(s, s0, marks)
  {
    s := s0;
    for i := 0 to |marks|
      invariant MarkedWith(s, s0, marks[..i])
      invariant strict ==> forall j :: 0 <= j < i ==> MarkError(s0.config, marks[j]).None?
      invariant strict ==> forall j :: 0 <= j < i ==> InRange(s0.config, marks[j])
    {
      assert marks[..i + 1] == marks[..i] + [marks[i]];
      var marked;
      e, marked := MarkIPUsed(s, marks[i]);
      if strict && e.Some? {
        FirstErrorAt(s0.config, marks, i);
        return;
      }
      s := marked;
    }
    assert marks[..|marks|] == marks;
    e := None;
  }

  method Rebuild(blank: Subnet, excludes: seq<Address>, allocations: seq<Address>, prev: Option<Subnet>)
    returns (r: Result<Subnet, Error>)
    requires blank.Valid() && blank == Fresh(blank.config)
    requires prev.Some? ==> prev.value.Valid()
    ensures var e := RefreshError(blank.config, excludes);
      r == if e.Some? then Failure(e.value) else Success(Refreshed(blank.config, excludes, allocations, prev))
  {
    var e, reserved := MarkAll(blank, excludes, true);
    if e.Some? {
      return Failure(e.value);
    }
    var _, s := MarkAll(reserved, allocations, false);
    if prev.Some? {
      s := CarryOwned(s, prev.value);
    }
    assert s.ips == Refreshed(blank.config, excludes, allocations, prev).ips;
    assert s.owners == Refreshed(blank.config, excludes, allocations, prev).owners;
    return Success(s);
  }

  /** The claim both GetIP and GetIPOwned end in. */
  method Take(s: Subnet, given: Option<Address>, owner: Owner) returns (r: Result<Address, Error>, t: Subnet)
    requires s.Valid()
    ensures r == Claim(s, given, owner) && t == AfterClaim(s, r, owner)
  {
    t := s;
    if given.Some? {
      var a := given.value;
      if !s.config.cidr.Contains(a) {
        return Failure(NotInCidr), s;
      }
      if s.broadcast == Some(a) {
        return Failure(IsBroadcast), s;
      }
      if a !in s.ips {
        return Failure(NotInPool), s;
      }
      if s.ips[a] {
        return Failure(AlreadyAllocated), s;
      }
      return Success(a), Grant(s, a, owner);
    }
    r, t := TakeNext(s, owner);
  }

  /** Scans the sorted addresses for the first free one. */
  method TakeNext(s: Subnet, owner: Owner) returns (r: Result<Address, Error>, t: Subnet)
    requires s.Valid()
    ensures r == Claim(s, None, owner) && t == AfterClaim(s, r, owner)
  {
    var keys := Sorted(s.ips.Keys);
    FirstFreeIsLeast(s, s.config.start);
    for i := 0 to |keys|
      invariant forall j :: 0 <= j < i ==> s.ips[keys[j]]
    {
      if !s.ips[keys[i]] {
        FirstFreeIsUnique(s, keys[i]);
        return Success(keys[i]), Grant(s, keys[i], owner);
      }
    }
    assert forall a :: a in s.ips ==> a in keys && s.ips[a];
    return Failure(Exhausted), s;
  }

  method Release(s: Subnet, given: Option<Address>) returns (e: Option<Error>, t: Subnet)
    requires s.Valid()
    ensures e == ReleaseError(s, given) && t == AfterRelease(s, given, e)
  {
    if given.None? {
      return Some(EmptyAddress), s;
    }
    var a := given.value;
    if !s.config.cidr.Contains(a) {
      return Some(NotInCidr), s;
    }
    if a !in s.ips {
      return Some(NotInPool), s;
    }
    if !s.ips[a] {
      return Some(NotAllocated), s;
    }
    return None, Freed(s, a);
  }

  /** A subnet without the claims on some addresses. */
  ghost function Without(s: Subnet, gone: set<Address>): Subnet {
    s.(ips := map a | a in s.ips :: s.ips[a] && a !in gone, owners := s.owners - gone)
  }

  lemma WithoutNothing(s: Subnet)
    ensures Without(s, {}) == s
  {
    assert Without(s, {}).ips == s.ips && Without(s, {}).owners == s.owners;
  }

  lemma WithoutOneMore(s: Subnet, gone: set<Address>, a: Address)
    requires a in s.ips
    ensures Without(s, gone + {a}) == Freed(Without(s, gone), a)
  {
    var t := Freed(Without(s, gone), a);
    assert Without(s, gone + {a}).ips == t.ips;
    assert Without(s, gone + {a}).owners == t.owners;
  }

  lemma SweptIsWithout(s: Subnet, owner: Owner)
    ensures Swept(s, owner) == Without(s, s.ClaimsOf(owner))
  {
    assert Swept(s, owner).ips == Without(s, s.ClaimsOf(owner)).ips;
    assert Swept(s, owner).owners == Without(s, s.ClaimsOf(owner)).owners;
  }

  method Sweep(s: Subnet, owner: Owner) returns (freed: nat, t: Subnet)
    requires s.Valid()
    ensures freed == |s.ClaimsOf(owner)| && t == Swept(s, owner)
  {
    hide Swept;
    freed, t := 0, s;
    var rest := s.owners.Keys;
    ghost var gone: set<Address> := {};
    WithoutNothing(s);
    while rest != {}
      invariant rest <= s.owners.Keys
      invariant gone == set a | a in s.owners && s.owners[a] == owner && a !in rest
      invariant freed == |gone| && t == Without(s, gone)
      decreases rest
    {
      var a :| a in rest;
      rest := rest - {a};
      if s.owners[a] == owner {
        WithoutOneMore(s, gone, a);
        gone := gone + {a};
        if t.Used(a) {
          t := t.(ips := t.ips[a := false]);
          freed := freed + 1;
        }
        t := t.(owners := t.owners - {a});
      }
    }
    assert gone == s.ClaimsOf(owner);
    SweptIsWithout(s, owner);
  }

  method CountAllocated(s: Subnet, wanted: bool) returns (count: nat)
    ensures count == |if wanted then s.UsedSet() else s.FreeSet()|
  {
    count := 0;
    var rest := s.ips.Keys;
    ghost var seen: set<Address> := {};
    while rest != {}
      invariant rest <= s.ips.Keys
      invariant seen == set a | a in s.ips && s.ips[a] == wanted && a !in rest
      invariant count == |seen|
      decreases rest
    {
      var a :| a in rest;
      rest := rest - {a};
      if s.ips[a] == wanted {
        count := count + 1;
        seen := seen + {a};
      }
    }
    assert seen == if wanted then s.UsedSet() else s.FreeSet();
  }

  class IPAllocator {
    var ipam: Table

    constructor ()
      ensures ipam == map[]
    {
      ipam := map[];
    }

    /** Materializes the range of a pool. The walk over the range would not end
        for a range that ends at the very last address (WalkStopsIff). */
    method BuildSubnet(config: Config) returns (r: Result<Subnet, Error>)
      requires config.cidr.Valid() && (ConfigError(config).None? ==> config.end < ALL_ONES)
      ensures r == if ConfigError(config).Some? then Failure(ConfigError(config).value) else Success(Fresh(config))
    {
      if !config.cidr.Contains(config.start) {
        return Failure(StartOutsideSubnet);
      }
      if !config.cidr.Contains(config.end) {
        return Failure(EndOutsideSubnet);
      }
      if config.start > config.end {
        return Failure(EndBeforeStart);
      }
      var broadcast := None;
      if config.cidr.V4? {
        var bytes := DirectedBroadcast(config.cidr);
        broadcast := Some(FromQuad(Octets(bytes)));
        if broadcast.value == config.end {
          return Failure(EndIsBroadcast);
        }
      }
      if config.end - config.start + 1 > MAX_RANGE_SIZE {
        return Failure(RangeTooLarge);
      }
      var ips: map<Address, bool> := map[];
      var ip := At(config.start);
      while WalkGoesOn(ip, config.end)
        invariant ip.At? && config.start <= ip.a <= config.end + 1
        invariant forall a :: a in ips <==> config.start <= a < ip.a
        invariant forall a :: a in ips ==> !ips[a]
        decreases if ip.At? then config.end + 1 - ip.a else 0
      {
        ips := ips[ip.a := false];
        ip := ip.Next();
      }
      assert ips == Fresh(config).ips;
      return Success(Subnet(config, broadcast, ips, map[]));
    }

    method NewSubnet(pool: PoolName, config: Config) returns (e: Option<Error>)
      requires ValidTable(ipam) && config.cidr.Valid() && (ConfigError(config).None? ==> config.end < ALL_ONES)
      modifies this
      ensures Outcome(e) == ReplyTo(old(ipam), Call.NewSubnet(pool, config))
      ensures ipam == After(old(ipam), Call.NewSubnet(pool, config))
    {
      var built := BuildSubnet(config);
      if built.Failure? {
        return Some(built.error);
      }
      ipam := ipam[pool := built.value];
      return None;
    }

    method RefreshSubnet(pool: PoolName, config: Config, excludes: seq<Address>, allocations: seq<Address>)
      returns (e: Option<Error>)
      requires ValidTable(ipam) && config.cidr.Valid() && (ConfigError(config).None? ==> config.end < ALL_ONES)
      modifies this
      ensures Outcome(e) == ReplyTo(old(ipam), Call.RefreshSubnet(pool, config, excludes, allocations))
      ensures ipam == After(old(ipam), Call.RefreshSubnet(pool, config, excludes, allocations))
    {
      var built := BuildSubnet(config);
      if built.Failure? {
        return Some(built.error);
      }
      var rebuilt := Rebuild(built.value, excludes, allocations, Lookup(ipam, pool));
      if rebuilt.Failure? {
        return Some(rebuilt.error);
      }
      ipam := ipam[pool := rebuilt.value];
      return None;
    }

    method DeleteSubnet(pool: PoolName)
      requires ValidTable(ipam)
      modifies this
      ensures ipam == After(old(ipam), Call.DeleteSubnet(pool))
    {
      ipam := ipam - {pool};
    }

    method GetIP(pool: PoolName, given: Option<Address>) returns (r: Result<Address, Error>)
      requires ValidTable(ipam)
      modifies this
      ensures Claimed(r) == ReplyTo(old(ipam), Call.GetIP(pool, given))
      ensures ipam == After(old(ipam), Call.GetIP(pool, given))
    {
      if pool !in ipam {
        return Failure(NoNetwork);
      }
      var t;
      r, t := Take(ipam[pool], given, "");
      ipam := ipam[pool := t];
    }

    method GetIPOwned(pool: PoolName, given: Option<Address>, owner: Owner) returns (r: Result<Address, Error>)
      requires ValidTable(ipam)
      modifies this
      ensures Claimed(r) == ReplyTo(old(ipam), Call.GetIPOwned(pool, given, owner))
      ensures ipam == After(old(ipam), Call.GetIPOwned(pool, given, owner))
    {
      if owner == "" {
        KeepPool(ipam, pool);
        return Failure(EmptyOwner);
      }
      if given.Some? && pool in ipam {
        var s := ipam[pool];
        if s.Used(given.value) && s.OwnerOf(given.value) == owner {
          KeepClaim(s, given.value);
          KeepPool(ipam, pool);
          return Success(given.value);
        }
      }
      if pool !in ipam {
        return Failure(NoNetwork);
      }
      var t;
      r, t := Take(ipam[pool], given, owner);
      ipam := ipam[pool := t];
    }

    method ReleaseIP(pool: PoolName, given: Option<Address>) returns (e: Option<Error>)
      requires ValidTable(ipam)
      modifies this
      ensures Outcome(e) == ReplyTo(old(ipam), Call.ReleaseIP(pool, given))
      ensures ipam == After(old(ipam), Call.ReleaseIP(pool, given))
    {
      if pool !in ipam {
        return Some(NoNetwork);
      }
      var t;
      e, t := Release(ipam[pool], given);
      ipam := ipam[pool := t];
    }

    method ReleaseIPOwned(pool: PoolName, given: Option<Address>, owner: Owner) returns (e: Option<Error>)
      requires ValidTable(ipam)
      modifies this
      ensures Outcome(e) == ReplyTo(old(ipam), Call.ReleaseIPOwned(pool, given, owner))
      ensures ipam == After(old(ipam), Call.ReleaseIPOwned(pool, given, owner))
    {
      KeepPool(ipam, pool);
      if owner == "" {
        return Some(EmptyOwner);
      }
      if pool !in ipam {
        return Some(NoNetwork);
      }
      var s := ipam[pool];
      if given.Some? && s.Used(given.value) && s.OwnerOf(given.value) != owner {
        return Some(ForeignClaim);
      }
      var t;
      e, t := Release(s, given);
      ipam := ipam[pool := t];
    }

    method ReleaseAllByOwner(pool: PoolName, owner: Owner) returns (freed: nat)
      requires ValidTable(ipam)
      modifies this
      ensures Freeing(freed) == ReplyTo(old(ipam), Call.ReleaseAllByOwner(pool, owner))
      ensures ipam == After(old(ipam), Call.ReleaseAllByOwner(pool, owner))
    {
      KeepPool(ipam, pool);
      if owner == "" || pool !in ipam {
        return 0;
      }
      var t;
      freed, t := Sweep(ipam[pool], owner);
      ipam := ipam[pool := t];
    }

    method Used(pool: PoolName) returns (count: nat)
      ensures count == if pool in ipam then |ipam[pool].UsedSet()| else 0
    {
      if pool !in ipam {
        return 0;
      }
      count := CountAllocated(ipam[pool], true);
    }

    method Available(pool: PoolName) returns (count: nat)
      ensures count == if pool in ipam then |ipam[pool].FreeSet()| else 0
    {
      if pool !in ipam {
        return 0;
      }
      count := CountAllocated(ipam[pool], false);
    }
  }

  lemma KeepPool(m: Table, pool: PoolName)
    ensures pool in m ==> m[pool := m[pool]] == m
  {
  }
}
