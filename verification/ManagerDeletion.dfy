/** Delete passes: what a release takes, when it takes it from somebody else, and what
    is left when the finalizer goes. */
module ManagerDeletion {
  import opened Common
  import opened Addresses
  import opened Manager
  import opened ManagerHistory
  import opened ManagerPasses

  /** A release from the copy that the last look of its FloatingIP showed. */
  ghost predicate Releases(s: State, f: Fip, view: nat, swept: bool) {
    && LastView(s.viewed, f) == view < |s.seen| && f in s.seen[view] && s.seen[view][f].terminating
    && f !in s.passes && f !in s.deletions && (swept || s.seen[view][f].status.Some?)
  }

  /** A release frees the address of its copy's status, whoever has it, and with the sweep
      every claim of the FloatingIP; it leaves all others. */
  lemma ReleaseFreesExactly(s: State, step: Step)
    requires s.pool.Valid() && Enabled(s, step) && step.Release?
    ensures var f, o, t := step.f, s.seen[step.view][step.f], Next(s, step);
      && t.api == s.api && t.passes == s.passes
      && forall a: Address ::
           var goes := o.status == Some(a) || (step.swept && s.pool.OwnerOf(a) == f);
           && t.pool.Used(a) == (s.pool.Used(a) && !goes)
           && t.pool.OwnerOf(a) == (if goes then "" else s.pool.OwnerOf(a))
  {
    DeletionFrees(s.pool, step.f, s.seen[step.view][step.f], step.swept);
    hide PoolAfterDeletion;
  }

  lemma ViewedStatusFollowsSpec(s: State, f: Fip, view: nat)
    requires PoolIsSound(s) && view < |s.seen| && f in s.seen[view] && s.seen[view][f].status.Some?
    ensures s.seen[view][f].status.value !in s.excludes
  {
    assert StatusesFollowSpecs(s.seen[view], s.pool.config, s.excludes);
  }

  lemma ReleaseKeepsPool(s: State, f: Fip, view: nat, swept: bool)
    requires PoolIsSound(s) && Releases(s, f, view, swept)
    ensures PoolIsSound(Releasing(s, f, s.seen[view][f], swept))
  {
    hide StatusesFollowSpecs, PoolAfterDeletion;
    DeletionFrees(s.pool, f, s.seen[view][f], swept);
    if s.seen[view][f].status.Some? {
      ViewedStatusFollowsSpec(s, f, view);
    }
  }

  lemma ReleaseKeepsPasses(s: State, f: Fip, view: nat, swept: bool)
    requires s.pool.Valid() && History(s) && PassesAreSound(s) && Releases(s, f, view, swept)
    ensures PassesAreSound(Releasing(s, f, s.seen[view][f], swept))
  {
    hide PoolAfterDeletion, OnlySees;
    var copy := s.seen[view][f];
    var t := Releasing(s, f, copy, swept);
    IsOld(s, f, view);
    hide History;
    DeletionFrees(s.pool, f, copy, swept);
    forall g | g in t.passes
      ensures PassIsPlaced(t, g, t.passes[g])
    {
      assert PassIsPlaced(s, g, s.passes[g]);
      StillSees(s, t, g, s.api[g].uid);
    }
    forall g | g in t.deletions
      ensures DeletionIsSound(t, g, t.deletions[g])
    {
      assert g in s.deletions && g != f ==> DeletionIsSound(s, g, s.deletions[g]);
    }
    forall a | a in t.pool.owners
      ensures ClaimIsPersisted(t, a, t.pool.owners[a])
    {
      assert ClaimIsPersisted(s, a, s.pool.owners[a]);
    }
  }

  lemma StillSees(s: State, t: State, f: Fip, uid: nat)
    requires t.seen == s.seen && t.viewed == s.viewed && OnlySees(s, f, uid)
    ensures OnlySees(t, f, uid)
  {
  }

  lemma ReleaseIsConsistent(s: State, f: Fip, view: nat, swept: bool)
    requires Consistent(s) && Releases(s, f, view, swept)
    ensures Consistent(Releasing(s, f, s.seen[view][f], swept))
  {
    var t, uid := Releasing(s, f, s.seen[view][f], swept), s.seen[view][f].uid;
    var u := s.(released := s.released + {(f, uid)});
    ReleaseKeepsPool(s, f, view, swept);
    ReleaseKeepsPasses(s, f, view, swept);
    ReleasingKeepsHistory(s, f, view);
    ReleasingKeepsUnique(s, f, uid);
    HistoryIsOfTheApi(u, t);
    hide PoolIsSound, PassesAreSound, History, StatusesAreUnique;
  }

  lemma ReleaseKeepsClaims(s: State, f: Fip, view: nat, swept: bool)
    requires Inv(s) && Releases(s, f, view, swept)
    requires s.seen[view][f].status.Some? ==> TakesNoAddress(s, f, s.seen[view][f].status.value)
    ensures AddressesAreClaimed(Releasing(s, f, s.seen[view][f], swept))
  {
    hide PoolAfterDeletion, History, PassesAreSound, UniqueStatuses;
    var copy := s.seen[view][f];
    var t := Releasing(s, f, copy, swept);
    DeletionFrees(s.pool, f, copy, swept);
    forall g | Holds(t.api, t.released, g)
      ensures StatusIsClaimed(t.pool, g, t.api[g].status.value)
      ensures Holds(s.api, s.released, g)
      ensures t.api[g].status.value !in t.pool.owners ==> s.api[g].status.value !in s.pool.owners
    {
      assert Holds(s.api, s.released, g);
      assert OnlySees(s, g, s.api[g].uid);
      assert StatusIsClaimed(s.pool, g, s.api[g].status.value);
    }
    forall g | CanComplete(t, g)
      ensures t.passes[g].ip in t.pool.owners && t.pool.owners[t.passes[g].ip] == g
    {
      assert CanComplete(s, g);
    }
  }

  /** A release that takes an address leaves a status or a pass without its claim. */
  lemma ReleaseTakesIt(s: State, f: Fip, view: nat, swept: bool)
    requires Inv(s) && Releases(s, f, view, swept)
    requires s.seen[view][f].status.Some? && !TakesNoAddress(s, f, s.seen[view][f].status.value)
    ensures var t := Releasing(s, f, s.seen[view][f], swept); SomeFreedStatus(t) || SomeLostClaim(t)
  {
    hide PoolAfterDeletion, History, PassesAreSound, StatusesAreUnique;
    var a := s.seen[view][f].status.value;
    var t := Releasing(s, f, s.seen[view][f], swept);
    DeletionFrees(s.pool, f, s.seen[view][f], swept);
    if g :| g != f && Holds(s.api, s.released, g) && s.api[g].status == Some(a) {
      assert FreedStatus(t, g);
    } else {
      var h :| CanComplete(s, h) && s.passes[h].ip == a;
      assert LostClaim(t, h);
    }
  }

  /** A release keeps the claims of all others exactly when its status's address has not
      been given to one of them. */
  lemma ReleaseIsExact(s: State, step: Step)
    requires Inv(s) && Enabled(s, step) && step.Release?
    ensures Consistent(Next(s, step))
    ensures if Careful(s, step) then Inv(Next(s, step))
            else SomeFreedStatus(Next(s, step)) || SomeLostClaim(Next(s, step))
  {
    hide Consistent, AddressesAreClaimed, TakesNoAddress, Releasing, SomeFreedStatus, SomeLostClaim;
    var f, view, swept := step.f, step.view, step.swept;
    var u := Viewing(s, f, view);
    ViewingKeepsInv(s, f, view);
    ReleaseIsConsistent(u, f, view, swept);
    if u.seen[view][f].status.Some? {
      ViewingTakesAsMuch(s, u, f, u.seen[view][f].status.value);
    }
    if Careful(s, step) {
      ReleaseKeepsClaims(u, f, view, swept);
    } else {
      ReleaseTakesIt(u, f, view, swept);
    }
  }

  lemma ViewingTakesAsMuch(s: State, u: State, f: Fip, a: Address)
    requires u == s.(viewed := u.viewed)
    ensures TakesNoAddress(s, f, a) <==> TakesNoAddress(u, f, a)
  {
    assert forall g :: CanComplete(s, g) <==> CanComplete(u, g);
  }

  /** What is shown of an object that has not released is the current object. */
  lemma UnreleasedCopyIsCurrent(s: State, f: Fip, view: nat)
    requires History(s) && LastView(s.viewed, f) <= view < |s.seen| && f in s.seen[view]
    requires (f, s.seen[view][f].uid) !in s.released && s.seen[view][f].status.Some?
    ensures Holds(s.api, s.released, f) && s.api[f].status == s.seen[view][f].status
  {
    assert ViewIsSound(s.api, s.released, f, s.seen[view][f]);
    LastIsCurrent(s);
    assert IsLater(s.seen[view][f], s.seen[|s.seen| - 1][f]);
  }

  /** Only a repeated release can take an address from somebody else: the first one of an
      object never does, whatever copy it starts from. */
  lemma FirstReleaseIsCareful(s: State, step: Step)
    requires Inv(s) && Enabled(s, step) && step.Release?
    requires (step.f, s.seen[step.view][step.f].uid) !in s.released
    ensures Careful(s, step)
  {
    hide PoolIsSound, PassesAreSound, ViewsAreUnique, HoldersAreCurrent;
    var f, copy := step.f, s.seen[step.view][step.f];
    if copy.status.Some? {
      UnreleasedCopyIsCurrent(s, f, step.view);
      hide History;
      assert StatusIsClaimed(s.pool, f, copy.status.value);
    }
  }

  /** And no release does that finds its own claim on the address. */
  lemma OwnedReleaseIsCareful(s: State, step: Step)
    requires Inv(s) && Enabled(s, step) && step.Release?
    requires s.seen[step.view][step.f].status.Some?
    requires s.pool.OwnerOf(s.seen[step.view][step.f].status.value) == step.f
    ensures Careful(s, step)
  {
    hide PoolIsSound, PassesAreSound, StatusesAreUnique, History;
    var a := s.seen[step.view][step.f].status.value;
    forall g | g != step.f && Holds(s.api, s.released, g)
      ensures s.api[g].status != Some(a)
    {
      assert StatusIsClaimed(s.pool, g, s.api[g].status.value);
    }
  }

  /** Nor does one that finds the address unused. */
  lemma UnusedReleaseIsCareful(s: State, step: Step)
    requires Inv(s) && Enabled(s, step) && step.Release?
    requires s.seen[step.view][step.f].status.Some?
    requires !s.pool.Used(s.seen[step.view][step.f].status.value)
    ensures Careful(s, step)
  {
    hide PassesAreSound, StatusesAreUnique, History;
    var a := s.seen[step.view][step.f].status.value;
    forall g | g != step.f && Holds(s.api, s.released, g)
      ensures s.api[g].status != Some(a)
    {
      assert StatusIsClaimed(s.pool, g, s.api[g].status.value);
    }
  }

  // ------------------------------------------------------------------- the finalizer

  lemma RemovalKeepsPasses(s: State, f: Fip)
    requires History(s) && PassesAreSound(s) && f in s.deletions && DropLands(s, f)
    ensures f !in s.passes && (f, s.api[f].uid) in s.released && PassesAreSound(Removed(s, f))
  {
    hide HistoryIsOrdered, ViewsAreSound;
    var t := Removed(s, f);
    assert DeletionIsSound(s, f, s.deletions[f]);
    assert f in s.passes ==> PassIsPlaced(s, f, s.passes[f]);
    forall g | g in t.passes
      ensures PassIsPlaced(t, g, t.passes[g])
    {
      assert PassIsPlaced(s, g, s.passes[g]);
    }
    forall g | g in t.deletions
      ensures DeletionIsSound(t, g, t.deletions[g])
    {
      assert DeletionIsSound(s, g, s.deletions[g]);
    }
    forall a | a in t.pool.owners
      ensures ClaimIsPersisted(t, a, t.pool.owners[a])
    {
      assert ClaimIsPersisted(s, a, s.pool.owners[a]);
    }
  }

  lemma RemovalKeepsClaims(s: State, f: Fip)
    requires Inv(s) && f in s.api && f !in s.passes
    ensures AddressesAreClaimed(Removed(s, f)) && PoolIsSound(Removed(s, f))
  {
    hide StatusesAreUnique, PassesAreSound, HistoryIsOrdered, ViewsAreSound;
    var t := Removed(s, f);
    forall g | Holds(t.api, t.released, g)
      ensures Holds(s.api, s.released, g) && g != f
    {
    }
    assert forall g :: CanComplete(t, g) ==> CanComplete(s, g);
    assert StatusesFollowSpecs(t.api, t.pool.config, t.excludes);
  }

  lemma RemovalKeepsInv(s: State, f: Fip)
    requires Inv(s) && f in s.deletions && DropLands(s, f)
    ensures Inv(Removed(s, f))
  {
    RemovalKeepsPasses(s, f);
    RemovalKeepsClaims(s, f);
    RemovalKeepsHistory(s, f);
    RemovalKeepsUnique(s, f);
    hide PoolIsSound, StatusesAreUnique, PassesAreSound, History, AddressesAreClaimed;
  }

  lemma EndDeletionKeepsPasses(s: State, f: Fip)
    requires PassesAreSound(s)
    ensures PassesAreSound(s.(deletions := s.deletions - {f}))
  {
    hide PassIsPlaced, ClaimIsPersisted;
    var t := s.(deletions := s.deletions - {f});
    forall g | g in t.passes
      ensures PassIsPlaced(t, g, t.passes[g])
    {
      PlacedIsOfTheApi(s, t, g, s.passes[g]);
    }
    forall g | g in t.deletions
      ensures DeletionIsSound(t, g, t.deletions[g])
    {
      assert DeletionIsSound(s, g, s.deletions[g]);
    }
    forall a | a in t.pool.owners
      ensures ClaimIsPersisted(t, a, t.pool.owners[a])
    {
      assert ClaimIsPersisted(s, a, s.pool.owners[a]);
      PersistedIsOfTheApi(s, t, a);
    }
  }

  lemma EndDeletionKeepsInv(s: State, f: Fip)
    requires Inv(s)
    ensures Inv(s.(deletions := s.deletions - {f}))
  {
    hide History, StatusesAreUnique, PoolIsSound, PassesAreSound, StatusesAreClaimed, UnownedSinceStart;
    var t := s.(deletions := s.deletions - {f});
    HistoryIsOfTheApi(s, t);
    PoolIsOfTheStatuses(s, t);
    EndDeletionKeepsPasses(s, f);
    assert forall g :: CanComplete(t, g) ==> CanComplete(s, g);
  }

  lemma PersistedIsOfTheApi(s: State, t: State, a: Address)
    requires t == s.(deletions := t.deletions) && a in s.pool.owners && ClaimIsPersisted(s, a, s.pool.owners[a])
    ensures ClaimIsPersisted(t, a, s.pool.owners[a])
  {
  }

  lemma DropFinalizerKeepsInv(s: State, step: Step)
    requires Inv(s) && Enabled(s, step) && step.DropFinalizer?
    ensures Inv(Next(s, step))
  {
    hide Inv;
    var f := step.f;
    if DropLands(s, f) && step.fate != Undelivered {
      RemovalKeepsInv(s, f);
      EndDeletionKeepsInv(Removed(s, f), f);
    } else {
      EndDeletionKeepsInv(s, f);
    }
  }
}
