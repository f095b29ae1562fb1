/** Whose claims the pool has: what every step of the manager keeps, careful or not. */
module ManagerClaims {
  import opened Common
  import opened Addresses
  import opened Ipam
  import opened Manager
  import opened ManagerHistory
  import opened ManagerPasses
  import opened ManagerDeletion

  lemma WriteKeepsTracked(s: State, f: Fip, o: Object)
    requires Tracked(s) && GoesOn(s, f, o)
    ensures Tracked(Write(s, f, o))
  {
    WriteKeepsHistory(s, f, o);
    WriteKeepsPasses(s, f, o);
    hide History, PassesAreSound, GoesOn;
  }

  /** Creating an object and writes that leave spec and status alone. */
  lemma WriteStepKeepsTracked(s: State, step: Step)
    requires Tracked(s) && Enabled(s, step) && (step.Create? || step.Touch? || step.MarkDeleted?)
    ensures Tracked(Next(s, step))
  {
    hide History;
    var f := step.f;
    assert f in s.passes ==> PassIsPlaced(s, f, s.passes[f]);
    WriteKeepsTracked(s, f,
      if step.Create? then Object(s.clock + 1, 0, step.pinned, None, false)
      else if step.Touch? then s.api[f] else s.api[f].(terminating := true));
  }

  lemma BeginPassKeepsTracked(s: State, f: Fip, view: nat)
    requires Tracked(s) && Enabled(s, BeginPass(f, view))
    ensures Tracked(Next(s, BeginPass(f, view)))
  {
    var t, copy := Viewing(s, f, view), s.seen[view][f];
    var r := ClaimOwned(s.pool, copy.spec, f);
    ViewingKeepsHistory(s, f, view);
    ViewingKeepsPasses(s, f, view);
    MayStartFromCopy(s, f, view);
    hide History, PassesAreSound, IsCurrent, SameVersionSameObject;
    if r.Success? {
      ClaimKeepsPasses(t, f, copy, r.value);
      HistoryIsOfTheApi(t, WithClaim(t, f, copy, r.value));
    }
  }

  lemma PhaseKeepsTracked(s: State, f: Fip, p: Phase)
    requires Tracked(s) && f in s.passes && s.passes[f].ip == p.ip && PassIsPlaced(s, f, p)
    ensures Tracked(s.(passes := s.passes[f := p]))
  {
    hide History, PassIsPlaced;
    var t := s.(passes := s.passes[f := p]);
    HistoryIsOfTheApi(s, t);
    PassesStaySound(s, t);
  }

  lemma WriteSpecKeepsTracked(s: State, step: Step)
    requires Tracked(s) && Enabled(s, step) && step.WriteSpec?
    ensures Tracked(Next(s, step))
  {
    var f, ip := step.f, s.passes[step.f].ip;
    assert PassIsPlaced(s, f, s.passes[f]);
    hide History, PassesAreSound, IsCurrent, GoesOn;
    if WriteLands(s, f) && step.fate != Undelivered {
      var o := s.api[f].(spec := Some(ip));
      SpecGoesOn(s, f);
      WriteKeepsTracked(s, f, o);
      PhaseKeepsTracked(Write(s, f, o), f, if step.fate == Answered then SpecWritten(ip) else WriteFailed(ip));
    } else {
      PhaseKeepsTracked(s, f, WriteFailed(ip));
    }
  }

  lemma EndPassKeepsTracked(s: State, f: Fip)
    requires Tracked(s) && f in s.passes
    requires (f in s.api && s.api[f].spec == Some(s.passes[f].ip)) || s.pool.OwnerOf(s.passes[f].ip) != f
    ensures Tracked(s.(passes := s.passes - {f}))
  {
    hide History, PassesAreSound;
    HistoryIsOfTheApi(s, s.(passes := s.passes - {f}));
    EndPassKeepsPasses(s, f);
  }

  lemma CheckSpecKeepsTracked(s: State, step: Step)
    requires Tracked(s) && Enabled(s, step) && step.CheckSpec?
    ensures Tracked(Next(s, step))
  {
    hide History, PassesAreSound;
    var f, ip := step.f, s.passes[step.f].ip;
    if (step.answered && f in s.api && s.api[f].spec == Some(ip)) || s.pool.OwnerOf(ip) != f {
      EndPassKeepsTracked(s, f);
    } else {
      var u := s.(pool := Freed(s.pool, ip));
      FreeingKeepsPasses(s, f, ip);
      HistoryIsOfTheApi(s, u);
      OwnReleaseSucceeds(s.pool, ip, f);
      EndPassKeepsTracked(u, f);
    }
  }

  lemma WriteStatusKeepsTracked(s: State, f: Fip, landed: bool)
    requires Tracked(s) && Enabled(s, WriteStatus(f, landed))
    ensures Tracked(Next(s, WriteStatus(f, landed)))
  {
    hide History, PassesAreSound, GoesOn, IsCurrent;
    var ended := s.(passes := s.passes - {f});
    StatusGoesOn(s, f);
    EndPassKeepsTracked(s, f);
    if landed {
      WriteKeepsTracked(ended, f, s.api[f].(status := Some(s.passes[f].ip)));
      assert Next(s, WriteStatus(f, landed)) == Write(ended, f, ended.api[f].(status := Some(s.passes[f].ip)));
    }
  }

  lemma ReleaseKeepsTracked(s: State, f: Fip, view: nat, swept: bool)
    requires Tracked(s) && Enabled(s, Release(f, view, swept))
    ensures Tracked(Next(s, Release(f, view, swept)))
  {
    var u, copy := Viewing(s, f, view), s.seen[view][f];
    ViewingKeepsHistory(s, f, view);
    ViewingKeepsPasses(s, f, view);
    ReleaseKeepsPasses(u, f, view, swept);
    ReleasingKeepsHistory(u, f, view);
    DeletionFrees(s.pool, f, copy, swept);
    hide History, PassesAreSound, PoolAfterDeletion;
    HistoryIsOfTheApi(u.(released := u.released + {(f, copy.uid)}), Releasing(u, f, copy, swept));
  }

  lemma DropFinalizerKeepsTracked(s: State, step: Step)
    requires Tracked(s) && Enabled(s, step) && step.DropFinalizer?
    ensures Tracked(Next(s, step))
  {
    var f := step.f;
    if DropLands(s, f) && step.fate != Undelivered {
      RemovalKeepsPasses(s, f);
      RemovalKeepsHistory(s, f);
      hide History, PassesAreSound;
      EndDeletionKeepsPasses(Removed(s, f), f);
      HistoryIsOfTheApi(Removed(s, f), Next(s, step));
    } else {
      hide History, PassesAreSound;
      EndDeletionKeepsPasses(s, f);
      HistoryIsOfTheApi(s, Next(s, step));
    }
  }

  lemma OwnersSurviveRefresh(s: State, allocations: seq<Address>)
    requires s.pool.Valid() && ClaimsArePersisted(s)
    ensures Refreshed(s.pool.config, s.excludes, allocations, Some(s.pool)).owners == s.pool.owners
  {
    forall a | a in s.pool.owners
      ensures Carried(Some(s.pool), a) && InRange(s.pool.config, a)
    {
      assert ClaimIsPersisted(s, a, s.pool.owners[a]);
    }
  }

  lemma PersistedStays(s: State, t: State)
    requires t == s.(pool := t.pool) && t.pool.owners == s.pool.owners
    ensures ClaimsStay(s, t)
  {
  }

  lemma RefreshKeepsPasses(s: State, allocations: seq<Address>)
    requires s.pool.Valid() && PassesAreSound(s)
    ensures var t := s.(pool := Refreshed(s.pool.config, s.excludes, allocations, Some(s.pool)));
      t.pool.Valid() && PassesAreSound(t)
  {
    hide PassIsPlaced, ClaimIsPersisted;
    var t := s.(pool := Refreshed(s.pool.config, s.excludes, allocations, Some(s.pool)));
    RefreshedIsValid(s.pool.config, s.excludes, allocations, Some(s.pool));
    OwnersSurviveRefresh(s, allocations);
    PersistedStays(s, t);
    PassesStaySound(s, t);
  }

  lemma RefreshKeepsTracked(s: State, step: Step)
    requires Tracked(s) && Enabled(s, step) && step.Refresh?
    ensures Tracked(Next(s, step))
  {
    hide History, PassesAreSound;
    RefreshKeepsPasses(s, step.allocations);
    HistoryIsOfTheApi(s, Next(s, step));
  }

  lemma RestartKeepsTracked(s: State, step: Step)
    requires Tracked(s) && Enabled(s, step) && step.Restart?
    ensures Tracked(Next(s, step))
  {
    RestartKeepsHistory(s);
    hide History;
    RefreshedIsValid(s.pool.config, s.excludes, step.allocations, None);
    HistoryIsOfTheApi(s.(seen := [s.api], viewed := map[]), Next(s, step));
  }

  /** Every step, whatever is lost, stale or taken from somebody else, keeps track of whose
      claims there are. */
  lemma StepKeepsTracked(s: State, step: Step)
    requires Tracked(s) && Enabled(s, step)
    ensures Tracked(Next(s, step))
  {
    hide Tracked, Next, Enabled;
    match step
    case Create(_, _) => WriteStepKeepsTracked(s, step);
    case Touch(_) => WriteStepKeepsTracked(s, step);
    case MarkDeleted(_) => WriteStepKeepsTracked(s, step);
    case BeginPass(f, view) => BeginPassKeepsTracked(s, f, view);
    case WriteSpec(_, _) => WriteSpecKeepsTracked(s, step);
    case CheckSpec(_, _) => CheckSpecKeepsTracked(s, step);
    case WriteStatus(f, landed) => WriteStatusKeepsTracked(s, f, landed);
    case Release(f, view, swept) => ReleaseKeepsTracked(s, f, view, swept);
    case DropFinalizer(_, _) => DropFinalizerKeepsTracked(s, step);
    case Refresh(_, _) => RefreshKeepsTracked(s, step);
    case Restart(_) => RestartKeepsTracked(s, step);
  }

  lemma ClaimStaysIffPass(s: State, step: Step, f: Fip, a: Address)
    requires s.pool.Valid() && Enabled(s, step) && s.pool.OwnerOf(a) == f && (step.BeginPass? || step.CheckSpec?)
    ensures Next(s, step).pool.OwnerOf(a) == f <==>
      !(step.CheckSpec? && step.f == f && s.passes[f].ip == a
        && !(step.answered && f in s.api && s.api[f].spec == Some(a)))
  {
    if step.BeginPass? {
      ClaimOwnedGrants(s.pool, s.seen[step.view][step.f].spec, step.f);
    } else {
      ReadBackKeepsThePersisted(s, step);
    }
  }

  /** The steps that end a claim: a read-back that does not find it in the spec, a deletion
      that releases its address or sweeps its owner, and a restart, which forgets owners. */
  lemma ClaimStaysIff(s: State, step: Step, f: Fip, a: Address)
    requires Tracked(s) && Enabled(s, step) && s.pool.OwnerOf(a) == f
    ensures Next(s, step).pool.OwnerOf(a) == f <==>
      match step
      case CheckSpec(g, answered) =>
        !(g == f && s.passes[f].ip == a) || (answered && f in s.api && s.api[f].spec == Some(a))
      case Release(g, view, swept) => s.seen[view][g].status != Some(a) && !(swept && g == f)
      case Restart(_) => false
      case _ => true
  {
    hide History, PassesArePlaced, DeletionsAreSound, ClaimIsPersisted, Refreshed;
    match step
    case BeginPass(_, _) => ClaimStaysIffPass(s, step, f, a);
    case CheckSpec(_, _) => ClaimStaysIffPass(s, step, f, a);
    case Release(_, _, _) => ReleaseFreesExactly(s, step);
    case Refresh(_, allocations) => OwnersSurviveRefresh(s, allocations);
    case Restart(allocations) => RestartForgetsOwners(s, allocations);
    case _ =>
  }

  lemma RestartForgetsOwners(s: State, allocations: seq<Address>)
    ensures Refreshed(s.pool.config, s.excludes, allocations, None).owners == map[]
  {
  }

  /** Only the start of a pass makes a claim, on the address its copy pins if it pins one. */
  lemma ClaimBeginsWithAPass(s: State, step: Step, f: Fip, a: Address)
    requires Tracked(s) && Enabled(s, step) && s.pool.OwnerOf(a) != f && Next(s, step).pool.OwnerOf(a) == f
    ensures step.BeginPass? && step.f == f && !s.pool.Used(a)
    ensures s.seen[step.view][f].spec.Some? ==> s.seen[step.view][f].spec == Some(a)
    ensures f in Next(s, step).passes && Next(s, step).passes[f].ip == a
  {
    hide History, PassesArePlaced, DeletionsAreSound, ClaimIsPersisted, Refreshed;
    match step
    case BeginPass(g, view) => ClaimOwnedGrants(s.pool, s.seen[view][g].spec, g);
    case CheckSpec(_, _) => ReadBackKeepsThePersisted(s, step);
    case Release(_, _, _) => ReleaseFreesExactly(s, step);
    case Refresh(_, allocations) => OwnersSurviveRefresh(s, allocations);
    case Restart(allocations) => RestartForgetsOwners(s, allocations);
    case _ =>
  }

  /** When the finalizer goes, so has every claim of the FloatingIP, whatever went wrong
      before. */
  lemma DeletionLeavesNoClaim(s: State, f: Fip, fate: Fate)
    requires Tracked(s) && Enabled(s, DropFinalizer(f, fate)) && f !in Next(s, DropFinalizer(f, fate)).api
    ensures Next(s, DropFinalizer(f, fate)).pool.ClaimsOf(f) == {}
  {
    hide History;
    assert DeletionIsSound(s, f, s.deletions[f]);
  }
}
