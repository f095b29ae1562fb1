/** Allocation passes, call by call: what their claims and writes keep. */
module ManagerPasses {
  import opened Common
  import opened Addresses
  import opened Ipam
  import opened Manager
  import opened ManagerHistory

  // ---------------------------------------------------------------- pool operations

  lemma ClaimOwnedGrants(s: Subnet, given: Option<Address>, f: Fip)
    requires s.Valid()
    ensures var r := ClaimOwned(s, given, f);
      r.Success? ==>
        && AfterClaim(s, r, f).Valid()
        && (s.Used(r.value) ==> r.value in s.owners && s.owners[r.value] == f)
        && (given.Some? ==> given.value == r.value)
  {
    if given.Some? && s.Used(given.value) && s.OwnerOf(given.value) == f {
      KeepClaim(s, given.value);
    } else {
      ClaimKeepsValid(s, given, f);
    }
  }

  /** What a deletion takes from the pool: the address of its status, whoever has it,
      and in the end the FloatingIP's own claims. */
  predicate Loses(pool: Subnet, f: Fip, o: Object, swept: bool, a: Address) {
    o.status == Some(a) || (swept && pool.OwnerOf(a) == f)
  }

  lemma DeletionFrees(s: Subnet, f: Fip, o: Object, swept: bool)
    requires s.Valid() && (swept || o.status.Some?)
    ensures var t := PoolAfterDeletion(s, f, o, swept);
      && t.Valid() && t.config == s.config
      && (forall a :: a in t.owners <==> a in s.owners && !Loses(s, f, o, swept, a))
      && (forall a :: a in t.owners ==> t.owners[a] == s.owners[a])
      && (forall a :: t.Used(a) <==> s.Used(a) && !Loses(s, f, o, swept, a))
  {
    var released := PoolAfterRelease(s, f, o);
    ReleaseKeepsValid(s, if o.status.Some? then o.status else o.spec,
                      if o.status.Some? then ReleaseError(s, o.status) else ReleaseOwnedError(s, o.spec, f));
    SweepKeepsValid(released, f);
  }

  // -------------------------------------------------------------------------- frames

  predicate SameApi(s: State, t: State) {
    t.api == s.api && t.clock == s.clock && t.seen == s.seen && t.viewed == s.viewed && t.released == s.released
  }

  /** History and unique statuses are about the API, not about the pool and the passes. */
  lemma HistoryIsOfTheApi(s: State, t: State)
    requires SameApi(s, t)
    ensures History(s) ==> History(t)
    ensures StatusesAreUnique(s) ==> StatusesAreUnique(t)
  {
    hide ViewIsSound, UniqueStatuses, HistoryIsOrdered, ViewsAreVersioned, Holds;
    forall f
      ensures OnlySees(s, f, if f in s.api then s.api[f].uid else 0)
         <==> OnlySees(t, f, if f in s.api then s.api[f].uid else 0)
    {
    }
  }

  lemma PlacedIsOfTheApi(s: State, t: State, f: Fip, p: Phase)
    requires SameApi(s, t) && t.pool.config == s.pool.config && PassIsPlaced(s, f, p)
    ensures PassIsPlaced(t, f, p)
  {
    hide SameVersionSameObject;
  }

  /** Claims may go, but not those of a pass that is cut off before they are persisted. */
  ghost predicate ClaimsStay(s: State, t: State) {
    forall a :: a in t.pool.owners ==>
      && a in s.pool.owners && t.pool.owners[a] == s.pool.owners[a]
      && (ClaimIsPersisted(s, a, s.pool.owners[a]) ==> ClaimIsPersisted(t, a, s.pool.owners[a]))
  }

  lemma PassesStaySound(s: State, t: State)
    requires PassesAreSound(s) && SameApi(s, t) && ClaimsStay(s, t)
    requires t.deletions == s.deletions && t.pool.config == s.pool.config
    requires forall g :: g in t.passes ==> PassIsPlaced(s, g, t.passes[g])
    ensures PassesAreSound(t)
  {
    hide PassIsPlaced, ClaimIsPersisted;
    forall g | g in t.passes
      ensures PassIsPlaced(t, g, t.passes[g])
    {
      PlacedIsOfTheApi(s, t, g, t.passes[g]);
    }
    forall g | g in t.deletions
      ensures DeletionIsSound(t, g, t.deletions[g])
    {
      assert DeletionIsSound(s, g, s.deletions[g]);
    }
  }

  /** The pool and what it owes to statuses do not depend on the passes. */
  lemma PoolIsOfTheStatuses(s: State, t: State)
    requires SameApi(s, t) && t.pool == s.pool && t.excludes == s.excludes
    ensures PoolIsSound(s) ==> PoolIsSound(t)
    ensures StatusesAreClaimed(s) && UnownedSinceStart(s) ==> StatusesAreClaimed(t) && UnownedSinceStart(t)
  {
    hide Holds;
  }

  lemma ViewingKeepsPasses(s: State, f: Fip, view: nat)
    requires PassesAreSound(s) && CanView(s, f, view)
    ensures PassesAreSound(Viewing(s, f, view))
  {
    var t := Viewing(s, f, view);
    forall g | g in t.passes
      ensures PassIsPlaced(t, g, t.passes[g])
    {
      assert PassIsPlaced(s, g, s.passes[g]);
    }
    forall g | g in t.deletions
      ensures DeletionIsSound(t, g, t.deletions[g])
    {
      assert DeletionIsSound(s, g, s.deletions[g]);
    }
    forall a | a in t.pool.owners
      ensures ClaimIsPersisted(t, a, t.pool.owners[a])
    {
      assert ClaimIsPersisted(s, a, s.pool.owners[a]);
    }
  }

  lemma ViewingKeepsInv(s: State, f: Fip, view: nat)
    requires Inv(s) && CanView(s, f, view)
    ensures Inv(Viewing(s, f, view))
  {
    var t := Viewing(s, f, view);
    ViewingKeepsHistory(s, f, view);
    ViewingKeepsUnique(s, f, view);
    ViewingKeepsPasses(s, f, view);
    hide History, StatusesAreUnique, PassesAreSound;
    assert forall g :: CanComplete(t, g) ==> CanComplete(s, g);
  }

  // ------------------------------------------------------------------------- writes

  /** A write that goes on with the object, keeps its address and does not overtake its
      pass. */
  ghost predicate GoesOn(s: State, f: Fip, o: Object) {
    && WritesLater(s, f, o)
    && (f in s.api && s.api[f].spec.Some? ==> o.spec == s.api[f].spec)
    && (f in s.passes && s.passes[f].SpecWritten? ==> o.status.None?)
  }

  /** What a write to one object needs so that the invariant survives it. */
  ghost predicate WriteIsSound(s: State, f: Fip, o: Object) {
    && GoesOn(s, f, o)
    && (o.status.Some? ==> f in s.api && o.spec == o.status)
    && (o.status.Some? && f in s.api && s.api[f].status != o.status
        ==> o.status.value in s.pool.owners && s.pool.owners[o.status.value] == f && IsCurrent(s, f))
  }

  /** Only its owner can hold an owned address in its status. */
  lemma OwnedStatusIsOwn(s: State, f: Fip, o: Object)
    requires Inv(s) && WriteIsSound(s, f, o)
    ensures StatusIsOwn(s, f, o)
  {
    hide WritesLater, IsCurrent, PassesAreSound, PoolIsSound;
    if o.status.Some? && s.api[f].status != o.status {
      forall g | g in s.api && g != f && s.api[g].status == o.status
        ensures s.api[g].terminating && (g, s.api[g].uid) in s.released
      {
        assert Holds(s.api, s.released, g) ==> StatusIsClaimed(s.pool, g, o.status.value);
        ReleasedIsTerminating(s, g);
      }
    }
  }

  lemma WriteKeepsPool(s: State, f: Fip, o: Object)
    requires Inv(s) && WriteIsSound(s, f, o)
    ensures PoolIsSound(Write(s, f, o))
  {
    hide WritesLater, IsCurrent, PassesAreSound, History, StatusesAreUnique;
    var t := Write(s, f, o);
    assert StatusesFollowSpecs(t.api, t.pool.config, t.excludes);
  }

  lemma WriteKeepsPasses(s: State, f: Fip, o: Object)
    requires PassesAreSound(s) && History(s) && GoesOn(s, f, o)
    ensures PassesAreSound(Write(s, f, o))
  {
    hide HistoryIsOrdered, ViewsAreSound;
    var t := Write(s, f, o);
    forall g | g in t.passes
      ensures PassIsPlaced(t, g, t.passes[g])
    {
      assert PassIsPlaced(s, g, s.passes[g]);
    }
    forall g | g in t.deletions
      ensures DeletionIsSound(t, g, t.deletions[g])
    {
      assert DeletionIsSound(s, g, s.deletions[g]);
    }
    forall a | a in t.pool.owners
      ensures ClaimIsPersisted(t, a, t.pool.owners[a])
    {
      assert ClaimIsPersisted(s, a, s.pool.owners[a]);
    }
  }

  lemma WriteKeepsClaims(s: State, f: Fip, o: Object)
    requires Inv(s) && WriteIsSound(s, f, o)
    ensures AddressesAreClaimed(Write(s, f, o))
  {
    hide StatusesAreUnique, History, OnlySees;
    var t := Write(s, f, o);
    forall g | Holds(t.api, t.released, g)
      ensures StatusIsClaimed(t.pool, g, t.api[g].status.value)
      ensures t.api[g].status.value !in t.pool.owners
        ==> Holds(s.api, s.released, g) && s.api[g].status == t.api[g].status
    {
      if g != f || s.api[f].status == o.status {
        assert Holds(s.api, s.released, g);
      }
    }
    forall g | CanComplete(t, g)
      ensures t.passes[g].ip in t.pool.owners && t.pool.owners[t.passes[g].ip] == g
    {
      assert PassIsPlaced(s, g, s.passes[g]);
      assert CanComplete(s, g);
    }
  }

  lemma WriteKeepsInv(s: State, f: Fip, o: Object)
    requires Inv(s) && WriteIsSound(s, f, o)
    ensures Inv(Write(s, f, o))
  {
    WriteKeepsHistory(s, f, o);
    OwnedStatusIsOwn(s, f, o);
    WriteKeepsUnique(s, f, o);
    WriteKeepsPool(s, f, o);
    WriteKeepsPasses(s, f, o);
    WriteKeepsClaims(s, f, o);
    hide History, StatusesAreUnique, PoolIsSound, PassesAreSound, AddressesAreClaimed, WriteIsSound;
  }

  // ------------------------------------------------------------------ pass by phases

  /** A status whose address the pool would hand out again. */
  ghost predicate FreedStatus(s: State, f: Fip) {
    Holds(s.api, s.released, f) && !s.pool.Used(s.api[f].status.value)
  }

  ghost predicate SomeFreedStatus(s: State) {
    exists f :: FreedStatus(s, f)
  }

  /** A pass whose address the pool would hand out before it gets into the status. */
  ghost predicate LostClaim(s: State, f: Fip) {
    CanComplete(s, f) && !s.pool.Used(s.passes[f].ip)
  }

  ghost predicate SomeLostClaim(s: State) {
    exists f :: LostClaim(s, f)
  }

  /** The state once a claim on an address was granted to a pass. */
  function WithClaim(s: State, f: Fip, copy: Object, a: Address): State {
    s.(pool := Grant(s.pool, a, f), passes := s.passes[f := Claimed(copy, a)])
  }

  /** Whether a pass may start from a copy with an address. */
  ghost predicate MayStart(s: State, f: Fip, copy: Object, a: Address) {
    && f !in s.passes && f !in s.deletions && Grant(s.pool, a, f).Valid() && IsCurrent(s, f)
    && SameVersionSameObject(s.api, s.clock, f, copy) && copy.status.None? && (copy.spec.Some? ==> copy.spec == Some(a))
  }

  /** Whether the pool may grant an address to a pass that starts from a copy. */
  ghost predicate MayClaim(s: State, f: Fip, copy: Object, a: Address) {
    && MayStart(s, f, copy, a) && a !in s.excludes
    && (s.pool.Used(a) ==> a in s.pool.owners && s.pool.owners[a] == f)
  }

  lemma ClaimKeepsPasses(s: State, f: Fip, copy: Object, a: Address)
    requires PassesAreSound(s) && MayStart(s, f, copy, a)
    ensures PassesAreSound(WithClaim(s, f, copy, a))
  {
    hide IsCurrent, SameVersionSameObject;
    var t := WithClaim(s, f, copy, a);
    assert a in t.pool.ips;
    forall g | g in t.passes
      ensures PassIsPlaced(t, g, t.passes[g])
    {
      assert PassIsPlaced(s, g, t.passes[g]);
      PlacedIsOfTheApi(s, t, g, t.passes[g]);
    }
    forall g | g in t.deletions
      ensures DeletionIsSound(t, g, t.deletions[g])
    {
      assert DeletionIsSound(s, g, s.deletions[g]);
    }
    forall b | b in t.pool.owners
      ensures ClaimIsPersisted(t, b, t.pool.owners[b])
    {
      assert b != a ==> ClaimIsPersisted(s, b, s.pool.owners[b]);
    }
  }

  lemma ClaimKeepsClaims(s: State, f: Fip, copy: Object, a: Address)
    requires Inv(s) && MayClaim(s, f, copy, a)
    ensures AddressesAreClaimed(WithClaim(s, f, copy, a)) && PoolIsSound(WithClaim(s, f, copy, a))
  {
    hide History, StatusesAreUnique, PassesAreSound, IsCurrent, SameVersionSameObject;
    var t := WithClaim(s, f, copy, a);
    forall g | Holds(t.api, t.released, g)
      ensures StatusIsClaimed(t.pool, g, t.api[g].status.value)
    {
      assert StatusIsClaimed(s.pool, g, s.api[g].status.value);
    }
    forall g | CanComplete(t, g)
      ensures t.passes[g].ip in t.pool.owners && t.pool.owners[t.passes[g].ip] == g
    {
      assert g != f ==> CanComplete(s, g);
    }
  }

  lemma ClaimKeepsInv(s: State, f: Fip, copy: Object, a: Address)
    requires Inv(s) && MayClaim(s, f, copy, a)
    ensures Inv(WithClaim(s, f, copy, a))
  {
    ClaimKeepsPasses(s, f, copy, a);
    ClaimKeepsClaims(s, f, copy, a);
    HistoryIsOfTheApi(s, WithClaim(s, f, copy, a));
    hide History, StatusesAreUnique, PoolIsSound, PassesAreSound, AddressesAreClaimed, MayClaim;
  }

  lemma MayStartFromCopy(s: State, f: Fip, view: nat)
    requires s.pool.Valid() && History(s) && Enabled(s, BeginPass(f, view))
    ensures var copy := s.seen[view][f];
      var r := ClaimOwned(s.pool, copy.spec, f);
      r.Success? ==> MayStart(Viewing(s, f, view), f, copy, r.value)
  {
    LiveCopyIsCurrent(s, f, view);
    IsOld(s, f, view);
    hide History, IsCurrent, SameVersionSameObject;
    ClaimOwnedGrants(s.pool, s.seen[view][f].spec, f);
  }

  lemma BeginPassKeepsInv(s: State, step: Step)
    requires Inv(s) && Enabled(s, step) && step.BeginPass?
    ensures Inv(Next(s, step))
  {
    var f, view, copy := step.f, step.view, s.seen[step.view][step.f];
    var t, r := Viewing(s, f, view), ClaimOwned(s.pool, copy.spec, f);
    ViewingKeepsInv(s, f, view);
    MayStartFromCopy(s, f, view);
    if r.Success? {
      ClaimOwnedGrants(s.pool, copy.spec, f);
      hide History, StatusesAreUnique, PassesAreSound, AddressesAreClaimed, MayStart;
      assert MayClaim(t, f, copy, r.value);
      ClaimKeepsInv(t, f, copy, r.value);
      assert Next(s, step) == WithClaim(t, f, copy, r.value);
    }
  }

  ghost predicate BackedBy(s: State, f: Fip) {
    f in s.passes && s.passes[f].ip in s.pool.owners && s.pool.owners[s.passes[f].ip] == f
  }

  /** A pass moving on to another phase with its claim. */
  lemma PhaseKeepsInv(s: State, f: Fip, p: Phase)
    requires Inv(s) && f in s.passes && s.passes[f].ip == p.ip && PassIsPlaced(s, f, p)
    requires p.WriteFailed? || BackedBy(s, f)
    ensures Inv(s.(passes := s.passes[f := p]))
  {
    hide History, StatusesAreUnique, PoolIsSound, StatusesAreClaimed, UnownedSinceStart, PassIsPlaced;
    var t := s.(passes := s.passes[f := p]);
    HistoryIsOfTheApi(s, t);
    PoolIsOfTheStatuses(s, t);
    PassesStaySound(s, t);
    assert forall g :: g != f && CanComplete(t, g) ==> CanComplete(s, g);
  }

  lemma SpecGoesOn(s: State, f: Fip)
    requires PassesAreSound(s) && History(s) && f in s.passes && s.passes[f].Claimed? && WriteLands(s, f)
    ensures var ip := s.passes[f].ip;
      var o := s.api[f].(spec := Some(ip));
      && GoesOn(s, f, o) && o.status.None?
      && PassIsPlaced(Write(s, f, o), f, WriteFailed(ip)) && PassIsPlaced(Write(s, f, o), f, SpecWritten(ip))
  {
    var o := s.api[f].(spec := Some(s.passes[f].ip));
    assert PassIsPlaced(s, f, s.passes[f]);
    WriteKeepsPasses(s, f, o);
    assert PassIsPlaced(Write(s, f, o), f, s.passes[f]);
  }

  /** The spec lands where it was written over the copy that the pass claimed for. */
  lemma SpecLands(s: State, f: Fip)
    requires Inv(s) && f in s.passes && s.passes[f].Claimed? && WriteLands(s, f)
    ensures var t := Write(s, f, s.api[f].(spec := Some(s.passes[f].ip)));
      && Inv(t) && BackedBy(t, f)
      && PassIsPlaced(t, f, WriteFailed(s.passes[f].ip)) && PassIsPlaced(t, f, SpecWritten(s.passes[f].ip))
  {
    SpecGoesOn(s, f);
    assert CanComplete(s, f);
    hide Consistent, StatusesAreClaimed, UnownedSinceStart, GoesOn, PassIsPlaced;
    WriteKeepsInv(s, f, s.api[f].(spec := Some(s.passes[f].ip)));
  }

  lemma WriteSpecKeepsInv(s: State, step: Step)
    requires Inv(s) && Enabled(s, step) && step.WriteSpec?
    ensures Inv(Next(s, step))
  {
    var f, ip := step.f, s.passes[step.f].ip;
    assert PassIsPlaced(s, f, s.passes[f]);
    hide History, StatusesAreUnique, PoolIsSound, PassesAreSound, AddressesAreClaimed, IsCurrent;
    if WriteLands(s, f) && step.fate != Undelivered {
      SpecLands(s, f);
      var t := Write(s, f, s.api[f].(spec := Some(ip)));
      PhaseKeepsInv(t, f, if step.fate == Answered then SpecWritten(ip) else WriteFailed(ip));
    } else {
      PhaseKeepsInv(s, f, WriteFailed(ip));
    }
  }

  /** A pass may end with its claim kept when the claim's address is persisted, or when
      it has no claim any more. */
  lemma EndPassKeepsPasses(s: State, f: Fip)
    requires PassesAreSound(s) && f in s.passes
    requires (f in s.api && s.api[f].spec == Some(s.passes[f].ip)) || s.pool.OwnerOf(s.passes[f].ip) != f
    ensures PassesAreSound(s.(passes := s.passes - {f}))
  {
    hide PassIsPlaced;
    PassesStaySound(s, s.(passes := s.passes - {f}));
  }

  lemma EndPassIsConsistent(s: State, f: Fip)
    requires Consistent(s) && f in s.passes
    requires (f in s.api && s.api[f].spec == Some(s.passes[f].ip)) || s.pool.OwnerOf(s.passes[f].ip) != f
    ensures Consistent(s.(passes := s.passes - {f}))
  {
    hide History, StatusesAreUnique, PoolIsSound, PassesAreSound;
    var t := s.(passes := s.passes - {f});
    HistoryIsOfTheApi(s, t);
    PoolIsOfTheStatuses(s, t);
    EndPassKeepsPasses(s, f);
  }

  lemma EndPassKeepsInv(s: State, f: Fip)
    requires Inv(s) && f in s.passes
    requires (f in s.api && s.api[f].spec == Some(s.passes[f].ip)) || s.pool.OwnerOf(s.passes[f].ip) != f
    ensures Inv(s.(passes := s.passes - {f}))
  {
    hide Consistent, StatusesAreClaimed, UnownedSinceStart;
    var t := s.(passes := s.passes - {f});
    EndPassIsConsistent(s, f);
    PoolIsOfTheStatuses(s, t);
    assert forall g :: CanComplete(t, g) ==> CanComplete(s, g);
  }

  lemma StatusGoesOn(s: State, f: Fip)
    requires PassesAreSound(s) && Enabled(s, WriteStatus(f, true))
    ensures s.api[f].spec == Some(s.passes[f].ip) && IsCurrent(s.(passes := s.passes - {f}), f)
    ensures GoesOn(s.(passes := s.passes - {f}), f, s.api[f].(status := Some(s.passes[f].ip)))
  {
    assert PassIsPlaced(s, f, s.passes[f]);
    PlacedIsOfTheApi(s, s.(passes := s.passes - {f}), f, s.passes[f]);
  }

  lemma StatusMayBeWritten(s: State, f: Fip)
    requires Inv(s) && Enabled(s, WriteStatus(f, true))
    ensures s.api[f].spec == Some(s.passes[f].ip)
    ensures WriteIsSound(s.(passes := s.passes - {f}), f, s.api[f].(status := Some(s.passes[f].ip)))
  {
    StatusGoesOn(s, f);
    hide History, StatusesAreUnique, PoolIsSound, PassesAreSound, StatusesAreClaimed, UnownedSinceStart, GoesOn;
    assert CanComplete(s, f);
  }

  lemma WriteStatusKeepsInv(s: State, f: Fip, landed: bool)
    requires Inv(s) && Enabled(s, WriteStatus(f, landed))
    ensures Inv(Next(s, WriteStatus(f, landed)))
  {
    hide Inv, WriteIsSound;
    var ended := s.(passes := s.passes - {f});
    StatusMayBeWritten(s, f);
    EndPassKeepsInv(s, f);
    if landed {
      WriteKeepsInv(ended, f, s.api[f].(status := Some(s.passes[f].ip)));
      assert Next(s, WriteStatus(f, landed)) == Write(ended, f, ended.api[f].(status := Some(s.passes[f].ip)));
    }
  }

  // ------------------------------------------------------------------- giving claims up

  lemma FreeingKeepsPasses(s: State, f: Fip, ip: Address)
    requires PassesAreSound(s) && s.pool.Valid() && s.pool.OwnerOf(ip) == f
    ensures PassesAreSound(s.(pool := Freed(s.pool, ip))) && Freed(s.pool, ip).Valid()
  {
    hide PassIsPlaced;
    ReleaseKeepsValid(s.pool, Some(ip), None);
    PassesStaySound(s, s.(pool := Freed(s.pool, ip)));
  }

  /** Taking an address that a pass claimed back leaves everything but the FloatingIP's
      own status in order. */
  lemma FreeingIsConsistent(s: State, f: Fip, ip: Address)
    requires Inv(s) && s.pool.OwnerOf(ip) == f
    ensures Consistent(s.(pool := Freed(s.pool, ip)))
  {
    hide StatusesAreUnique, History, PassesAreSound, StatusesAreClaimed, UnownedSinceStart;
    var t := s.(pool := Freed(s.pool, ip));
    HistoryIsOfTheApi(s, t);
    FreeingKeepsPasses(s, f, ip);
  }

  lemma FreeingKeepsClaims(s: State, f: Fip, ip: Address)
    requires Inv(s) && s.pool.OwnerOf(ip) == f && !CanComplete(s, f)
    requires !(Holds(s.api, s.released, f) && s.api[f].status == Some(ip))
    ensures AddressesAreClaimed(s.(pool := Freed(s.pool, ip)))
  {
    hide StatusesAreUnique, History, PassesAreSound;
    var t := s.(pool := Freed(s.pool, ip));
    forall g | Holds(t.api, t.released, g)
      ensures StatusIsClaimed(t.pool, g, t.api[g].status.value) && t.api[g].status != Some(ip)
    {
      assert StatusIsClaimed(s.pool, g, s.api[g].status.value);
    }
    forall g | CanComplete(t, g)
      ensures t.passes[g].ip in t.pool.owners && t.pool.owners[t.passes[g].ip] == g
    {
      assert CanComplete(s, g);
    }
  }

  /** The read-back after a failed spec write releases the claim unless it finds it
      persisted. That is safe exactly when it does not lose the status's address. */
  lemma CheckSpecIsExact(s: State, step: Step)
    requires Inv(s) && Enabled(s, step) && step.CheckSpec?
    ensures Consistent(Next(s, step))
    ensures if Careful(s, step) then Inv(Next(s, step)) else SomeFreedStatus(Next(s, step))
  {
    var f, ip := step.f, s.passes[step.f].ip;
    var t := Next(s, step);
    assert PassIsPlaced(s, f, s.passes[f]);
    if Holds(s.api, s.released, f) {
      assert s.api[f].spec == s.api[f].status;
    }
    hide History, StatusesAreUnique, PassesAreSound, AddressesAreClaimed, OnlySees;
    if (step.answered && s.api[f].spec == Some(ip)) || s.pool.OwnerOf(ip) != f {
      EndPassKeepsInv(s, f);
    } else {
      var u := s.(pool := Freed(s.pool, ip));
      FreeingIsConsistent(s, f, ip);
      assert t == u.(passes := u.passes - {f}) by { OwnReleaseSucceeds(s.pool, ip, f); }
      EndPassIsConsistent(u, f);
      if Careful(s, step) {
        FreeingKeepsClaims(s, f, ip);
        EndPassKeepsInv(u, f);
      } else {
        assert FreedStatus(t, f);
      }
    }
  }

  /** An answered read-back that finds the address in the spec leaves the pool alone; any
      other one takes the claim back, if the FloatingIP has it, and touches nothing else. */
  lemma ReadBackKeepsThePersisted(s: State, step: Step)
    requires s.pool.Valid() && Enabled(s, step) && step.CheckSpec?
    ensures var f, ip, t := step.f, s.passes[step.f].ip, Next(s, step);
      && t.api == s.api && t.passes == s.passes - {f}
      && (if step.answered && f in s.api && s.api[f].spec == Some(ip) then t.pool == s.pool
          else
            && t.pool.OwnerOf(ip) != f
            && (forall a :: a != ip || s.pool.OwnerOf(ip) != f ==>
                  t.pool.OwnerOf(a) == s.pool.OwnerOf(a) && t.pool.Used(a) == s.pool.Used(a))
            && (s.pool.OwnerOf(ip) == f ==> !t.pool.Used(ip)))
  {
    if s.pool.OwnerOf(s.passes[step.f].ip) == step.f {
      OwnReleaseSucceeds(s.pool, s.passes[step.f].ip, step.f);
    }
  }

  lemma OwnReleaseSucceeds(s: Subnet, a: Address, f: Fip)
    requires s.Valid() && s.OwnerOf(a) == f
    ensures AfterRelease(s, Some(a), ReleaseOwnedError(s, Some(a), f)) == Freed(s, a)
  {
  }
}
