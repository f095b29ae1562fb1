/** The manager around the allocator, for the FloatingIPs of one pool: allocation and
    delete passes that start from cached copies and may end anywhere, pool refreshes from
    informer snapshots, and restarts that rebuild the pool from persisted statuses. */
module Manager {
  import opened Common
  import opened Addresses
  import opened Ipam

  /** A FloatingIP's namespace/name, which is also the owner of its claims. */
  type Fip = n: Owner | n != "" witness "namespace/name"

  /** Objects of one name, one after the other, differ in their uid. */
  datatype Object = Object(
    uid: nat, version: nat, spec: Option<Address>, status: Option<Address>, terminating: bool)

  type Api = map<Fip, Object>

  type Uid = (Fip, nat)

  /** Where an allocation pass stands between two of its API calls. */
  datatype Phase =
    | Claimed(copy: Object, ip: Address)
    | WriteFailed(ip: Address)
    | SpecWritten(ip: Address)

  /** seen holds every state of the API since the process started: a cached copy or
      a list of the informer is a part of one of them. The passes of one FloatingIP
      come one after the other, from copies that never get older: viewed says from
      which state its last one was. deletions has the copies of the delete passes that
      have yet to drop the finalizer; released is history, the objects for which some
      delete pass has released the address. */
  datatype State = State(
    api: Api, clock: nat, pool: Subnet, excludes: seq<Address>, seen: seq<Api>, viewed: map<Fip, nat>,
    passes: map<Fip, Phase>, deletions: map<Fip, Object>, released: set<Uid>)

  /** How an update ends: with an answer, with its answer lost, or undelivered. */
  datatype Fate = Answered | AnswerLost | Undelivered

  /** A delete pass releases, swept or ended early by a failed status write, and then
      drops the finalizer; either can end it, and the next one starts over. */
  datatype Step =
    | Create(f: Fip, pinned: Option<Address>)
    | Touch(f: Fip)
    | MarkDeleted(f: Fip)
    | BeginPass(f: Fip, view: nat)
    | WriteSpec(f: Fip, fate: Fate)
    | CheckSpec(f: Fip, answered: bool)
    | WriteStatus(f: Fip, landed: bool)
    | Release(f: Fip, view: nat, swept: bool)
    | DropFinalizer(f: Fip, fate: Fate)
    | Refresh(view: nat, allocations: seq<Address>)
    | Restart(allocations: seq<Address>)

  /** The statuses the pool sync collects: those of objects not being deleted. */
  ghost predicate CollectedFrom(allocations: seq<Address>, api: Api) {
    forall a :: a in allocations <==> exists f :: f in api && !api[f].terminating && api[f].status == Some(a)
  }

  function LastView(viewed: map<Fip, nat>, f: Fip): nat {
    if f in viewed then viewed[f] else 0
  }

  /** A state of the API whose copy of a FloatingIP its next pass may start from. */
  predicate CanView(s: State, f: Fip, view: nat) {
    f !in s.passes && f !in s.deletions && LastView(s.viewed, f) <= view < |s.seen| && f in s.seen[view]
  }

  ghost predicate Enabled(s: State, step: Step) {
    match step
    case Create(f, _) => f !in s.api
    case Touch(f) => f in s.api
    case MarkDeleted(f) => f in s.api
    case BeginPass(f, view) => CanView(s, f, view) && !s.seen[view][f].terminating && s.seen[view][f].status.None?
    case WriteSpec(f, _) => f in s.passes && s.passes[f].Claimed?
    case CheckSpec(f, _) => f in s.passes && s.passes[f].WriteFailed?
    case WriteStatus(f, _) => f in s.passes && s.passes[f].SpecWritten? && f in s.api
    case Release(f, view, swept) =>
      CanView(s, f, view) && s.seen[view][f].terminating && (swept || s.seen[view][f].status.Some?)
    case DropFinalizer(f, _) => f in s.deletions
    case Refresh(view, allocations) => view < |s.seen| && CollectedFrom(allocations, s.seen[view])
    case Restart(allocations) => CollectedFrom(allocations, s.api)
  }

  /** One write to the API: the object gets a version no object had before. */
  function Write(s: State, f: Fip, o: Object): State {
    var api := s.api[f := o.(version := s.clock + 1)];
    s.(api := api, clock := s.clock + 1, seen := s.seen + [api])
  }

  predicate WriteLands(s: State, f: Fip)
    requires f in s.passes && s.passes[f].Claimed?
  {
    f in s.api && s.api[f].version == s.passes[f].copy.version
  }

  /** A deletion releases the address of the status, whoever owns the claim, or
      else the FloatingIP's own claim on its pinned address. */
  function PoolAfterRelease(pool: Subnet, f: Fip, o: Object): Subnet {
    if o.status.Some? then AfterRelease(pool, o.status, ReleaseError(pool, o.status))
    else AfterRelease(pool, o.spec, ReleaseOwnedError(pool, o.spec, f))
  }

  function PoolAfterDeletion(pool: Subnet, f: Fip, o: Object, swept: bool): Subnet {
    if swept then Swept(PoolAfterRelease(pool, f, o), f) else PoolAfterRelease(pool, f, o)
  }

  /** Dropping the finalizer, and with it the object, from its copy. */
  predicate DropLands(s: State, f: Fip)
    requires f in s.deletions
  {
    f in s.api && s.api[f].version == s.deletions[f].version
  }

  function Removed(s: State, f: Fip): State {
    s.(api := s.api - {f}, seen := s.seen + [s.api - {f}])
  }

  function Viewing(s: State, f: Fip, view: nat): State {
    s.(viewed := s.viewed[f := view])
  }

  function Releasing(s: State, f: Fip, o: Object, swept: bool): State {
    s.(pool := PoolAfterDeletion(s.pool, f, o, swept), released := s.released + {(f, o.uid)},
       deletions := if swept then s.deletions[f := o] else s.deletions)
  }

  ghost function Next(s: State, step: Step): State
    requires Enabled(s, step)
  {
    match step
    case Create(f, pinned) => Write(s, f, Object(s.clock + 1, 0, pinned, None, false))
    case Touch(f) => Write(s, f, s.api[f])
    case MarkDeleted(f) => Write(s, f, s.api[f].(terminating := true))
    case BeginPass(f, view) =>
      var copy := s.seen[view][f];
      var r := ClaimOwned(s.pool, copy.spec, f);
      if r.Failure? then Viewing(s, f, view)
      else Viewing(s, f, view).(pool := AfterClaim(s.pool, r, f), passes := s.passes[f := Claimed(copy, r.value)])
    case WriteSpec(f, fate) =>
      var ip := s.passes[f].ip;
      var t := if WriteLands(s, f) && fate != Undelivered then Write(s, f, s.api[f].(spec := Some(ip))) else s;
      t.(passes := t.passes[f := if WriteLands(s, f) && fate == Answered then SpecWritten(ip) else WriteFailed(ip)])
    case CheckSpec(f, answered) =>
      var ip := s.passes[f].ip;
      var keep := answered && f in s.api && s.api[f].spec == Some(ip);
      s.(pool := if keep then s.pool else AfterRelease(s.pool, Some(ip), ReleaseOwnedError(s.pool, Some(ip), f)),
         passes := s.passes - {f})
    case WriteStatus(f, landed) =>
      var t := if landed then Write(s, f, s.api[f].(status := Some(s.passes[f].ip))) else s;
      t.(passes := t.passes - {f})
    case Release(f, view, swept) => Releasing(Viewing(s, f, view), f, s.seen[view][f], swept)
    case DropFinalizer(f, fate) =>
      var t := if DropLands(s, f) && fate != Undelivered then Removed(s, f) else s;
      t.(deletions := t.deletions - {f})
    case Refresh(_, allocations) =>
      s.(pool := Refreshed(s.pool.config, s.excludes, allocations, Some(s.pool)))
    case Restart(allocations) =>
      s.(pool := Refreshed(s.pool.config, s.excludes, allocations, None), seen := [s.api], viewed := map[],
         passes := map[], deletions := map[])
  }

  ghost function Taken(s: State, step: Step): Option<State> {
    if Enabled(s, step) then Some(Next(s, step)) else None
  }

  // ---------------------------------------------------------------------- invariant

  /** A FloatingIP whose status has an address that no deletion has released. */
  predicate Holds(api: Api, released: set<Uid>, f: Fip) {
    f in api && api[f].status.Some? && (f, api[f].uid) !in released
  }

  /** Nobody else has the address of a FloatingIP that holds it in its status, but
      those that are being deleted and have released it. */
  ghost predicate UniqueStatuses(api: Api, released: set<Uid>) {
    forall f, g :: Holds(api, released, f) && g in api && f != g && api[f].status == api[g].status
      ==> api[g].terminating && (g, api[g].uid) in released
  }

  ghost predicate ViewsAreUnique(seen: seq<Api>, released: set<Uid>) {
    forall i :: 0 <= i < |seen| ==> UniqueStatuses(seen[i], released)
  }

  /** The address of a status is used, and its claim is not somebody else's. */
  ghost predicate StatusesAreClaimed(s: State) {
    forall f :: Holds(s.api, s.released, f) ==> StatusIsClaimed(s.pool, f, s.api[f].status.value)
  }

  ghost predicate StatusIsClaimed(pool: Subnet, f: Fip, a: Address) {
    pool.Used(a) && (a in pool.owners ==> pool.owners[a] == f)
  }

  /** A status was allocated through the spec, and never from the excludes. */
  ghost predicate StatusesFollowSpecs(api: Api, config: Config, excludes: seq<Address>) {
    forall f :: f in api && api[f].status.Some? ==>
      api[f].spec == api[f].status && api[f].status.value !in excludes && InRange(config, api[f].status.value)
  }

  /** A status whose claim has no owner was there when the process started. */
  ghost predicate UnownedSinceStart(s: State) {
    forall f, i :: Holds(s.api, s.released, f) && s.api[f].status.value !in s.pool.owners && 0 <= i < |s.seen| ==>
      f in s.seen[i] && s.seen[i][f].status == s.api[f].status && s.seen[i][f].uid == s.api[f].uid
  }

  /** A version identifies the content of an object. */
  ghost predicate SameVersionSameObject(api: Api, clock: nat, f: Fip, copy: Object) {
    copy.uid <= clock && copy.version <= clock && (f in api && api[f].version == copy.version ==> api[f] == copy)
  }

  ghost predicate ViewsAreVersioned(api: Api, clock: nat, seen: seq<Api>) {
    && |seen| > 0 && seen[|seen| - 1] == api
    && forall i, f :: 0 <= i < |seen| && f in seen[i] ==> SameVersionSameObject(api, clock, f, seen[i][f])
  }

  /** A later object of the same name; of one object, deletion and address are final. */
  predicate IsLater(o: Object, p: Object) {
    && o.uid <= p.uid
    && (o.uid == p.uid ==> (o.terminating ==> p.terminating) && (o.status.Some? ==> p.status == o.status))
  }

  ghost predicate HistoryIsOrdered(seen: seq<Api>) {
    forall i, j, f :: 0 <= i <= j < |seen| && f in seen[i] && f in seen[j] ==> IsLater(seen[i][f], seen[j][f])
  }

  /** What a pass of a FloatingIP can still be shown: the current object, or one whose
      address has been released and that is shown as being deleted. */
  ghost predicate ViewIsSound(api: Api, released: set<Uid>, f: Fip, copy: Object) {
    && ((f in api && api[f].uid == copy.uid) || (f, copy.uid) in released)
    && ((f, copy.uid) in released ==> copy.terminating)
  }

  ghost predicate ViewsAreSound(s: State) {
    forall i, f :: LastView(s.viewed, f) <= i < |s.seen| && f in s.seen[i] ==>
      ViewIsSound(s.api, s.released, f, s.seen[i][f])
  }

  ghost predicate ReleasedAreOld(s: State) {
    && (forall u :: u in s.released ==> u.1 <= s.clock)
    && (forall f :: LastView(s.viewed, f) < |s.seen|)
  }

  ghost predicate History(s: State) {
    && ViewsAreVersioned(s.api, s.clock, s.seen)
    && HistoryIsOrdered(s.seen)
    && ViewsAreSound(s)
    && ReleasedAreOld(s)
  }

  /** A pass of the FloatingIP can only be shown this object from now on. */
  ghost predicate OnlySees(s: State, f: Fip, uid: nat) {
    forall i :: LastView(s.viewed, f) <= i < |s.seen| && f in s.seen[i] ==> s.seen[i][f].uid == uid
  }

  ghost predicate HoldersAreCurrent(s: State) {
    forall f :: Holds(s.api, s.released, f) ==> OnlySees(s, f, s.api[f].uid)
  }

  ghost predicate IsCurrent(s: State, f: Fip) {
    f in s.api && (f, s.api[f].uid) !in s.released && OnlySees(s, f, s.api[f].uid)
  }

  ghost predicate PassIsPlaced(s: State, f: Fip, p: Phase) {
    && IsCurrent(s, f) && InRange(s.pool.config, p.ip)
    && match p
       case Claimed(copy, ip) =>
         && SameVersionSameObject(s.api, s.clock, f, copy) && copy.status.None?
         && (copy.spec.Some? ==> copy.spec == Some(ip))
       case WriteFailed(_) => true
       case SpecWritten(ip) => s.api[f].spec == Some(ip) && s.api[f].status.None?
  }

  ghost predicate PassesArePlaced(s: State) {
    forall f :: f in s.passes ==> PassIsPlaced(s, f, s.passes[f])
  }

  /** A pass that can still get its address into the status. */
  predicate CanComplete(s: State, f: Fip) {
    f in s.passes && (s.passes[f].SpecWritten? || (s.passes[f].Claimed? && WriteLands(s, f)))
  }

  ghost predicate PassesAreBacked(s: State) {
    forall f :: CanComplete(s, f) ==> s.passes[f].ip in s.pool.owners && s.pool.owners[s.passes[f].ip] == f
  }

  /** Between release and finalizer, a FloatingIP has no claim. */
  ghost predicate DeletionIsSound(s: State, f: Fip, copy: Object) {
    && SameVersionSameObject(s.api, s.clock, f, copy) && (f, copy.uid) in s.released
    && forall a :: a in s.pool.owners ==> s.pool.owners[a] != f
  }

  ghost predicate DeletionsAreSound(s: State) {
    forall f :: f in s.deletions ==> DeletionIsSound(s, f, s.deletions[f])
  }

  /** Outside a pass, a FloatingIP owns its persisted address and nothing else. */
  ghost predicate ClaimsArePersisted(s: State) {
    forall a :: a in s.pool.owners ==> ClaimIsPersisted(s, a, s.pool.owners[a])
  }

  ghost predicate ClaimIsPersisted(s: State, a: Address, owner: Owner) {
    && owner != ""
    && var f: Fip := owner;
       (f in s.passes && s.passes[f].ip == a) || (f in s.api && s.api[f].spec == Some(a))
  }

  /** Excluded addresses are never free and never owned. */
  ghost predicate ExcludesAreReserved(pool: Subnet, excludes: seq<Address>) {
    && RefreshError(pool.config, excludes).None?
    && forall a :: a in excludes ==> pool.Used(a) && a !in pool.owners
  }

  ghost predicate ViewsFollowSpecs(seen: seq<Api>, config: Config, excludes: seq<Address>) {
    forall i :: 0 <= i < |seen| ==> StatusesFollowSpecs(seen[i], config, excludes)
  }

  ghost predicate PoolIsSound(s: State) {
    && s.pool.Valid() && ExcludesAreReserved(s.pool, s.excludes)
    && StatusesFollowSpecs(s.api, s.pool.config, s.excludes)
    && ViewsFollowSpecs(s.seen, s.pool.config, s.excludes)
  }

  ghost predicate StatusesAreUnique(s: State) {
    UniqueStatuses(s.api, s.released) && ViewsAreUnique(s.seen, s.released) && HoldersAreCurrent(s)
  }

  ghost predicate PassesAreSound(s: State) {
    PassesArePlaced(s) && DeletionsAreSound(s) && ClaimsArePersisted(s)
  }

  /** What every step keeps, of whatever state: who claims what, and for which object. */
  ghost predicate Tracked(s: State) {
    s.pool.Valid() && History(s) && PassesAreSound(s)
  }

  /** Everything that even a careless step keeps, if there was none before it. */
  ghost predicate Consistent(s: State) {
    PoolIsSound(s) && History(s) && StatusesAreUnique(s) && PassesAreSound(s)
  }

  ghost predicate AddressesAreClaimed(s: State) {
    StatusesAreClaimed(s) && UnownedSinceStart(s) && PassesAreBacked(s)
  }

  ghost predicate Inv(s: State) {
    Consistent(s) && AddressesAreClaimed(s)
  }

  /** A release takes the address from no other status and no pass that may complete. */
  ghost predicate TakesNoAddress(s: State, f: Fip, a: Address) {
    && (forall g :: g != f && Holds(s.api, s.released, g) ==> s.api[g].status != Some(a))
    && (forall g :: CanComplete(s, g) ==> s.passes[g].ip != a)
  }

  /** When a step leaves every status and every allocation under way with its claim: the
      read-back after a failed spec write must be answered if the address is in the
      status already, a pool sync must not skip an object that holds an address without
      owner, and a repeated release must not find the address given away since. */
  ghost predicate Careful(s: State, step: Step) {
    match step
    case CheckSpec(f, answered) =>
      answered || f !in s.passes || !Holds(s.api, s.released, f) || s.api[f].status != Some(s.passes[f].ip)
      || s.pool.OwnerOf(s.passes[f].ip) != f
    case Release(f, view, _) =>
      view < |s.seen| && f in s.seen[view] && s.seen[view][f].status.Some? ==>
        TakesNoAddress(s, f, s.seen[view][f].status.value)
    case Refresh(view, _) =>
      forall f :: Holds(s.api, s.released, f) && s.api[f].status.value !in s.pool.owners
        ==> view < |s.seen| && f in s.seen[view] && !s.seen[view][f].terminating
    case Restart(_) => forall f :: Holds(s.api, s.released, f) ==> !s.api[f].terminating
    case _ => true
  }
}
