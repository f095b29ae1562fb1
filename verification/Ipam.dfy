/** The in-memory IP allocator: one table of addresses and owners per pool, and
    every call that changes it. */
module Ipam {
  import opened Common
  import opened Addresses

  const MAX_RANGE_SIZE: nat := 65536

  type PoolName = string

  /** The FloatingIP (namespace/name) a claim was granted to; "" marks a claim
      nobody can re-claim or release as its owner. */
  type Owner = string

  datatype Config = Config(cidr: Prefix, start: Address, end: Address)

  datatype Error =
    | StartOutsideSubnet | EndOutsideSubnet | EndBeforeStart | EndIsBroadcast | RangeTooLarge
    | NoNetwork | NotInCidr | IsBroadcast | NotInPool | AlreadyAllocated | Exhausted
    | EmptyOwner | EmptyAddress | NotAllocated | ForeignClaim

  datatype Subnet = Subnet(
    config: Config, broadcast: Option<Address>, ips: map<Address, bool>, owners: map<Address, Owner>)
  {
    /** Every address of the range is tracked, nothing else is, and only an
        allocated address has an owner. */
    ghost predicate Valid() {
      && ConfigError(config) == None
      && broadcast == BroadcastOf(config.cidr)
      && (forall a: Address :: a in ips <==> config.start <= a <= config.end)
      && (forall a :: a in owners ==> a in ips && ips[a])
    }

    function OwnerOf(a: Address): Owner {
      if a in owners then owners[a] else ""
    }

    predicate Used(a: Address) {
      a in ips && ips[a]
    }

    /** The claims recorded for one owner. */
    ghost function ClaimsOf(owner: Owner): set<Address> {
      set a | a in owners && owners[a] == owner
    }

    ghost function UsedSet(): set<Address> {
      set a | a in ips && ips[a]
    }

    ghost function FreeSet(): set<Address> {
      set a | a in ips && !ips[a]
    }
  }

  function BroadcastOf(cidr: Prefix): Option<Address> {
    if cidr.V4? then Some(cidr.last) else None
  }

  /** Why a pool range is refused, checked in this order. */
  function ConfigError(c: Config): Option<Error> {
    if !c.cidr.Contains(c.start) then Some(StartOutsideSubnet)
    else if !c.cidr.Contains(c.end) then Some(EndOutsideSubnet)
    else if c.start > c.end then Some(EndBeforeStart)
    else if BroadcastOf(c.cidr) == Some(c.end) then Some(EndIsBroadcast)
    else if c.end - c.start + 1 > MAX_RANGE_SIZE then Some(RangeTooLarge)
    else None
  }

  predicate InRange(c: Config, a: Address) {
    c.start <= a <= c.end
  }

  function Fresh(c: Config): Subnet {
    Subnet(c, BroadcastOf(c.cidr), map a: Address | c.start <= a <= c.end && InRange(c, a) :: false, map[])
  }

  // ------------------------------------------------- what each call does to a pool

  /** The least free address from a given one on. */
  function FirstFree(s: Subnet, from: nat): Option<Address>
    decreases s.config.end + 1 - from
  {
    if from > s.config.end then None
    else if from in s.ips && !s.ips[from] then Some(from)
    else FirstFree(s, from + 1)
  }

  function Grant(s: Subnet, a: Address, owner: Owner): Subnet {
    s.(ips := s.ips[a := true], owners := s.owners[a := owner])
  }

  /** A claim on a given address, or on the least free one. */
  function Claim(s: Subnet, given: Option<Address>, owner: Owner): Result<Address, Error> {
    match given
    case Some(a) =>
      if !s.config.cidr.Contains(a) then Failure(NotInCidr)
      else if s.broadcast == Some(a) then Failure(IsBroadcast)
      else if a !in s.ips then Failure(NotInPool)
      else if s.ips[a] then Failure(AlreadyAllocated)
      else Success(a)
    case None =>
      match FirstFree(s, s.config.start)
      case None => Failure(Exhausted)
      case Some(a) => Success(a)
  }

  /** An owner re-claiming its own address is granted it again. */
  function ClaimOwned(s: Subnet, given: Option<Address>, owner: Owner): Result<Address, Error> {
    if owner == "" then Failure(EmptyOwner)
    else if given.Some? && s.Used(given.value) && s.OwnerOf(given.value) == owner then Success(given.value)
    else Claim(s, given, owner)
  }

  function AfterClaim(s: Subnet, r: Result<Address, Error>, owner: Owner): Subnet {
    if r.Success? then Grant(s, r.value, owner) else s
  }

  function Freed(s: Subnet, a: Address): Subnet {
    s.(ips := s.ips[a := false], owners := s.owners - {a})
  }

  function ReleaseError(s: Subnet, given: Option<Address>): Option<Error> {
    if given.None? then Some(EmptyAddress)
    else if !s.config.cidr.Contains(given.value) then Some(NotInCidr)
    else if given.value !in s.ips then Some(NotInPool)
    else if !s.ips[given.value] then Some(NotAllocated)
    else None
  }

  function ReleaseOwnedError(s: Subnet, given: Option<Address>, owner: Owner): Option<Error> {
    if given.Some? && s.Used(given.value) && s.OwnerOf(given.value) != owner then Some(ForeignClaim)
    else ReleaseError(s, given)
  }

  function AfterRelease(s: Subnet, given: Option<Address>, e: Option<Error>): Subnet {
    if e.None? && given.Some? then Freed(s, given.value) else s
  }

  function Swept(s: Subnet, owner: Owner): Subnet {
    s.(ips := map a | a in s.ips :: s.ips[a] && !(a in s.owners && s.owners[a] == owner),
       owners := map a | a in s.owners && s.owners[a] != owner :: s.owners[a])
  }

  /** A claim of the old table that a refresh carries over. */
  predicate Carried(prev: Option<Subnet>, a: Address) {
    prev.Some? && a in prev.value.owners && prev.value.owners[a] != "" && prev.value.Used(a)
  }

  /** The table a refresh installs: excluded addresses, allocations and carried
      claims are used as far as the new range has them, and only carried claims
      have owners. */
  function Refreshed(c: Config, excludes: seq<Address>, allocations: seq<Address>, prev: Option<Subnet>): Subnet {
    Subnet(c, BroadcastOf(c.cidr),
           map a: Address | c.start <= a <= c.end && InRange(c, a) ::
             a in excludes || a in allocations || Carried(prev, a),
           if prev.None? then map[]
           else map a | a in prev.value.owners && c.start <= a <= c.end && Carried(prev, a) :: prev.value.owners[a])
  }

  /** Why an address cannot be marked used in a new table. */
  function MarkError(c: Config, a: Address): Option<Error> {
    if !c.cidr.Contains(a) then Some(NotInCidr)
    else if BroadcastOf(c.cidr) == Some(a) then Some(IsBroadcast)
    else if !InRange(c, a) then Some(NotInPool)
    else None
  }

  /** The first exclude that cannot be reserved decides. */
  function FirstMarkError(c: Config, marks: seq<Address>): (e: Option<Error>)
    ensures ConfigError(c).None? ==> (e.None? <==> forall a :: a in marks ==> InRange(c, a))
  {
    if marks == [] then None
    else if MarkError(c, marks[0]).Some? then
      assert marks[0] in marks;
      MarkError(c, marks[0])
    else
      assert marks == [marks[0]] + marks[1..];
      FirstMarkError(c, marks[1..])
  }

  function RefreshError(c: Config, excludes: seq<Address>): Option<Error> {
    if ConfigError(c).Some? then ConfigError(c) else FirstMarkError(c, excludes)
  }

  // ---------------------------------------------------------------- lemmas on a pool

  lemma FirstFreeIsLeast(s: Subnet, from: nat)
    requires s.Valid() && s.config.start <= from <= s.config.end + 1
    ensures match FirstFree(s, from)
            case Some(a) => from <= a <= s.config.end && !s.ips[a] && forall b :: from <= b < a ==> s.ips[b]
            case None => forall b :: from <= b <= s.config.end ==> s.ips[b]
    decreases s.config.end + 1 - from
  {
    if from <= s.config.end && s.ips[from] {
      FirstFreeIsLeast(s, from + 1);
    }
  }

  lemma FirstFreeIsUnique(s: Subnet, a: Address)
    requires s.Valid() && a in s.ips && !s.ips[a]
    requires forall b :: b in s.ips && b < a ==> s.ips[b]
    ensures FirstFree(s, s.config.start) == Some(a)
  {
    FirstFreeIsLeast(s, s.config.start);
  }

  lemma ClaimKeepsValid(s: Subnet, given: Option<Address>, owner: Owner)
    requires s.Valid()
    ensures var r := Claim(s, given, owner);
      r.Success? ==> r.value in s.ips && !s.ips[r.value] && Grant(s, r.value, owner).Valid()
  {
    FirstFreeIsLeast(s, s.config.start);
  }

  /** Granting an owner its own address again changes nothing. */
  lemma KeepClaim(s: Subnet, a: Address)
    requires s.Valid() && s.Used(a) && s.OwnerOf(a) != ""
    ensures Grant(s, a, s.OwnerOf(a)) == s
  {
    assert s.ips[a := true] == s.ips;
    assert s.owners[a := s.owners[a]] == s.owners;
  }

  lemma RefreshedIsValid(c: Config, excludes: seq<Address>, allocations: seq<Address>, prev: Option<Subnet>)
    requires ConfigError(c) == None
    ensures Refreshed(c, excludes, allocations, prev).Valid()
  {
  }

  lemma ReleaseKeepsValid(s: Subnet, given: Option<Address>, e: Option<Error>)
    requires s.Valid() && (e.None? ==> ReleaseError(s, given).None?)
    ensures AfterRelease(s, given, e).Valid()
  {
  }

  lemma SweepKeepsValid(s: Subnet, owner: Owner)
    requires s.Valid()
    ensures Swept(s, owner).Valid()
  {
  }

  // --------------------------------------------------------------- calls and replies

  type Table = map<PoolName, Subnet>

  ghost predicate ValidTable(m: Table) {
    forall p :: p in m ==> m[p].Valid()
  }

  datatype Call =
    | NewSubnet(pool: PoolName, config: Config)
    | RefreshSubnet(pool: PoolName, config: Config, excludes: seq<Address>, allocations: seq<Address>)
    | DeleteSubnet(pool: PoolName)
    | GetIP(pool: PoolName, given: Option<Address>)
    | GetIPOwned(pool: PoolName, given: Option<Address>, owner: Owner)
    | ReleaseIP(pool: PoolName, given: Option<Address>)
    | ReleaseIPOwned(pool: PoolName, given: Option<Address>, owner: Owner)
    | ReleaseAllByOwner(pool: PoolName, owner: Owner)

  datatype Reply = Done | Granted(ip: Address) | Freeing(count: nat) | Refused(error: Error)

  function Outcome(e: Option<Error>): Reply {
    if e.Some? then Refused(e.value) else Done
  }

  function Claimed(r: Result<Address, Error>): Reply {
    if r.Success? then Granted(r.value) else Refused(r.error)
  }

  function Lookup(m: Table, pool: PoolName): Option<Subnet> {
    if pool in m then Some(m[pool]) else None
  }

  /** What a call answers. */
  ghost function ReplyTo(m: Table, c: Call): Reply {
    match c
    case NewSubnet(_, config) => Outcome(ConfigError(config))
    case RefreshSubnet(_, config, excludes, _) => Outcome(RefreshError(config, excludes))
    case DeleteSubnet(_) => Done
    case GetIP(p, given) => if p in m then Claimed(Claim(m[p], given, "")) else Refused(NoNetwork)
    case GetIPOwned(p, given, owner) =>
      if owner == "" then Refused(EmptyOwner)
      else if p in m then Claimed(ClaimOwned(m[p], given, owner)) else Refused(NoNetwork)
    case ReleaseIP(p, given) => if p in m then Outcome(ReleaseError(m[p], given)) else Refused(NoNetwork)
    case ReleaseIPOwned(p, given, owner) =>
      if owner == "" then Refused(EmptyOwner)
      else if p in m then Outcome(ReleaseOwnedError(m[p], given, owner)) else Refused(NoNetwork)
    case ReleaseAllByOwner(p, owner) => Freeing(if owner != "" && p in m then |m[p].ClaimsOf(owner)| else 0)
  }

  /** What a call that needs an existing pool makes of it. */
  function PoolAfter(s: Subnet, c: Call): Subnet
    requires !c.NewSubnet? && !c.RefreshSubnet? && !c.DeleteSubnet?
  {
    match c
    case GetIP(_, given) => AfterClaim(s, Claim(s, given, ""), "")
    case GetIPOwned(_, given, owner) => AfterClaim(s, ClaimOwned(s, given, owner), owner)
    case ReleaseIP(_, given) => AfterRelease(s, given, ReleaseError(s, given))
    case ReleaseIPOwned(_, given, owner) =>
      if owner == "" then s else AfterRelease(s, given, ReleaseOwnedError(s, given, owner))
    case ReleaseAllByOwner(_, owner) => if owner == "" then s else Swept(s, owner)
  }

  /** The table a call leaves behind. */
  function After(m: Table, c: Call): Table {
    match c
    case NewSubnet(p, config) => if ConfigError(config).None? then m[p := Fresh(config)] else m
    case RefreshSubnet(p, config, excludes, allocations) =>
      if RefreshError(config, excludes).None? then m[p := Refreshed(config, excludes, allocations, Lookup(m, p))] else m
    case DeleteSubnet(p) => m - {p}
    case _ => if c.pool in m then m[c.pool := PoolAfter(m[c.pool], c)] else m
  }

  lemma PoolAfterIsValid(s: Subnet, c: Call)
    requires s.Valid()
    requires !c.NewSubnet? && !c.RefreshSubnet? && !c.DeleteSubnet?
    ensures PoolAfter(s, c).Valid() && PoolAfter(s, c).config == s.config
  {
    match c
    case GetIP(_, given) => ClaimKeepsValid(s, given, "");
    case GetIPOwned(_, given, owner) => ClaimKeepsValid(s, given, owner);
    case ReleaseIP(_, given) => ReleaseKeepsValid(s, given, ReleaseError(s, given));
    case ReleaseIPOwned(_, given, owner) => ReleaseKeepsValid(s, given, ReleaseOwnedError(s, given, owner));
    case ReleaseAllByOwner(_, owner) => SweepKeepsValid(s, owner);
  }

  /** Every call keeps every pool's table consistent. */
  lemma CallsKeepValid(m: Table, c: Call)
    requires ValidTable(m)
    ensures ValidTable(After(m, c))
  {
    match c
    case NewSubnet(_, config) =>
    case RefreshSubnet(p, config, excludes, allocations) =>
      if RefreshError(config, excludes).None? {
        RefreshedIsValid(config, excludes, allocations, Lookup(m, p));
      }
    case DeleteSubnet(_) =>
    case _ => if c.pool in m { PoolAfterIsValid(m[c.pool], c); }
  }
}
