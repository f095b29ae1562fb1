/** Safety of the manager over whole runs: no address in two statuses. */
module ManagerSafety {
  import opened Common
  import opened Addresses
  import opened Ipam
  import opened Manager
  import opened ManagerHistory
  import opened ManagerPasses
  import opened ManagerDeletion
  import opened ManagerClaims

  // ------------------------------------------------------------------- pool rebuilds

  lemma RefreshOnStatus(s: State, step: Step, f: Fip)
    requires Inv(s) && Enabled(s, step) && step.Refresh? && Holds(s.api, s.released, f)
    ensures var t, a := Next(s, step), s.api[f].status.value;
      && (a !in s.pool.owners ==> f in s.seen[step.view])
      && (FreedStatus(t, f) <==> a !in s.pool.owners && s.seen[step.view][f].terminating)
      && (FreedStatus(t, f) || StatusIsClaimed(t.pool, f, a))
  {
    hide History, HoldersAreCurrent, PassesArePlaced;
    var a, view := s.api[f].status.value, s.seen[step.view];
    assert StatusIsClaimed(s.pool, f, a);
    OwnersSurviveRefresh(s, step.allocations);
    if a !in s.pool.owners {
      assert Holds(view, s.released, f) && view[f].status == Some(a);
      assert UniqueStatuses(view, s.released);
      assert a in step.allocations <==> !view[f].terminating;
    }
  }

  lemma RefreshIsConsistent(s: State, step: Step)
    requires Inv(s) && Enabled(s, step) && step.Refresh?
    ensures Consistent(Next(s, step)) && PassesAreBacked(Next(s, step))
  {
    var t := Next(s, step);
    OwnersSurviveRefresh(s, step.allocations);
    hide History, StatusesAreUnique, PassesAreSound, StatusesAreClaimed, UnownedSinceStart;
    RefreshKeepsPasses(s, step.allocations);
    HistoryIsOfTheApi(s, t);
    assert forall f :: CanComplete(t, f) ==> CanComplete(s, f);
  }

  /** A sync from a list of the informer keeps owned claims; it keeps the unowned
      ones of live statuses exactly when it does not skip them as terminating. */
  lemma RefreshIsExact(s: State, step: Step)
    requires Inv(s) && Enabled(s, step) && step.Refresh?
    ensures Consistent(Next(s, step))
    ensures if Careful(s, step) then Inv(Next(s, step)) else SomeFreedStatus(Next(s, step))
  {
    hide History, StatusesAreUnique, PassesArePlaced, DeletionsAreSound;
    var t := Next(s, step);
    RefreshIsConsistent(s, step);
    OwnersSurviveRefresh(s, step.allocations);
    hide Consistent, PassesAreBacked;
    forall f | Holds(s.api, s.released, f)
      ensures FreedStatus(t, f) <==> s.api[f].status.value !in s.pool.owners && s.seen[step.view][f].terminating
      ensures FreedStatus(t, f) || StatusIsClaimed(t.pool, f, t.api[f].status.value)
      ensures s.api[f].status.value !in s.pool.owners ==> f in s.seen[step.view]
    {
      RefreshOnStatus(s, step, f);
    }
  }

  /** A restart forgets every owner; it keeps every status claimed exactly when no
      object that holds an address is being deleted. */
  lemma RestartIsExact(s: State, step: Step)
    requires Inv(s) && Enabled(s, step) && step.Restart?
    ensures Consistent(Next(s, step))
    ensures if Careful(s, step) then Inv(Next(s, step)) else SomeFreedStatus(Next(s, step))
  {
    hide History, StatusesAreUnique;
    var t, u := Next(s, step), s.(seen := [s.api], viewed := map[]);
    RefreshedIsValid(s.pool.config, s.excludes, step.allocations, None);
    RestartKeepsHistory(s);
    RestartKeepsUnique(s);
    HistoryIsOfTheApi(u, t);
    forall f | Holds(s.api, s.released, f)
      ensures FreedStatus(t, f) <==> s.api[f].terminating
      ensures FreedStatus(t, f) || StatusIsClaimed(t.pool, f, t.api[f].status.value)
    {
      RestartOnStatus(s, step, f);
    }
  }

  lemma RestartOnStatus(s: State, step: Step, f: Fip)
    requires Inv(s) && Enabled(s, step) && step.Restart? && Holds(s.api, s.released, f)
    ensures var t := Next(s, step);
      && (FreedStatus(t, f) <==> s.api[f].terminating)
      && (FreedStatus(t, f) || StatusIsClaimed(t.pool, f, s.api[f].status.value))
  {
    hide History, HoldersAreCurrent, PassesAreSound, ViewsAreUnique;
    var a := s.api[f].status.value;
    assert a in step.allocations <==> !s.api[f].terminating;
  }

  // --------------------------------------------------------------------- whole runs

  /** The exact condition: a step leaves every status, and every allocation that can
      still complete, with its claim if and only if it is careful; one that is not frees
      the address of one of them. */
  lemma StepKeepsInvIff(s: State, step: Step)
    requires Inv(s) && Enabled(s, step)
    ensures Consistent(Next(s, step))
    ensures Inv(Next(s, step)) <==> Careful(s, step)
    ensures SomeFreedStatus(Next(s, step)) || SomeLostClaim(Next(s, step)) <==> !Careful(s, step)
  {
    ClaimedMeansNotFreed(Next(s, step));
    hide Inv, Next, Enabled, Consistent, SomeFreedStatus, SomeLostClaim;
    match step
    case Create(_, _) => WriteStepKeepsInv(s, step);
    case Touch(_) => WriteStepKeepsInv(s, step);
    case MarkDeleted(_) => WriteStepKeepsInv(s, step);
    case BeginPass(_, _) => BeginPassKeepsInv(s, step);
    case WriteSpec(_, _) => WriteSpecKeepsInv(s, step);
    case CheckSpec(_, _) => CheckSpecIsExact(s, step);
    case WriteStatus(f, landed) => WriteStatusKeepsInv(s, f, landed);
    case Release(_, _, _) => ReleaseIsExact(s, step);
    case DropFinalizer(_, _) => DropFinalizerKeepsInv(s, step);
    case Refresh(_, _) => RefreshIsExact(s, step);
    case Restart(_) => RestartIsExact(s, step);
  }

  lemma ClaimedMeansNotFreed(s: State)
    ensures Inv(s) ==> Consistent(s) && !SomeFreedStatus(s) && !SomeLostClaim(s)
  {
    hide Consistent;
    if Inv(s) {
      forall f | Holds(s.api, s.released, f)
        ensures !FreedStatus(s, f)
      {
        assert StatusIsClaimed(s.pool, f, s.api[f].status.value);
      }
      forall f | CanComplete(s, f)
        ensures !LostClaim(s, f)
      {
        OwnedIsUsed(s, s.passes[f].ip);
      }
    }
  }

  lemma OwnedIsUsed(s: State, a: Address)
    requires Consistent(s) && a in s.pool.owners
    ensures s.pool.Used(a)
  {
  }

  /** Creating an object and writes that leave spec and status alone. */
  lemma WriteStepKeepsInv(s: State, step: Step)
    requires Inv(s) && Enabled(s, step) && (step.Create? || step.Touch? || step.MarkDeleted?)
    ensures Inv(Next(s, step))
  {
    hide History, StatusesAreUnique, AddressesAreClaimed;
    var f := step.f;
    assert f in s.passes ==> PassIsPlaced(s, f, s.passes[f]);
    var o :=
      if step.Create? then Object(s.clock + 1, 0, step.pinned, None, false)
      else if step.Touch? then s.api[f] else s.api[f].(terminating := true);
    assert WriteIsSound(s, f, o);
    WriteKeepsInv(s, f, o);
  }

  /** The state after the first n steps of a run. */
  ghost predicate IsRun(trace: seq<State>, steps: seq<Step>) {
    && |trace| == |steps| + 1
    && forall i :: 0 <= i < |steps| ==> Enabled(trace[i], steps[i]) && trace[i + 1] == Next(trace[i], steps[i])
  }

  /** A manager that has just synced an empty pool. */
  ghost predicate Initial(s: State) {
    && s.api == map[] && s.seen == [map[]] && s.viewed == map[]
    && s.passes == map[] && s.deletions == map[] && s.released == {}
    && RefreshError(s.pool.config, s.excludes).None?
    && s.pool == Refreshed(s.pool.config, s.excludes, [], None)
  }

  lemma InitialInv(s: State)
    requires Initial(s)
    ensures Inv(s)
  {
    RefreshedIsValid(s.pool.config, s.excludes, [], None);
  }

  lemma {:induction false} CarefulRunsKeepInv(trace: seq<State>, steps: seq<Step>, n: nat)
    requires IsRun(trace, steps) && n < |trace| && Initial(trace[0])
    requires forall i :: 0 <= i < n ==> Careful(trace[i], steps[i])
    ensures Inv(trace[n])
  {
    hide Inv, Next, Enabled, Careful, Initial;
    if n == 0 {
      InitialInv(trace[0]);
    } else {
      CarefulRunsKeepInv(trace, steps, n - 1);
      StepKeepsInvIff(trace[n - 1], steps[n - 1]);
    }
  }

  lemma HoldersAreApart(s: State, f: Fip, g: Fip)
    requires Inv(s) && f in s.api && g in s.api && f != g && s.api[f].status.Some?
    requires s.api[f].status == s.api[g].status
    ensures (s.api[f].terminating && (f, s.api[f].uid) in s.released)
         || (s.api[g].terminating && (g, s.api[g].uid) in s.released)
  {
    hide History, PoolIsSound, PassesAreSound, AddressesAreClaimed;
    if !Holds(s.api, s.released, f) {
      ReleasedIsTerminating(s, f);
    }
  }

  // ------------------------------------------------------------- what a pass can check

  /** What a pass can check before the call: that its read-back is answered, and that its
      object has not released the address before, or the address is not somebody else's:
      the pool has it for the FloatingIP, or for nobody. */
  ghost predicate Checked(s: State, step: Step)
    requires Enabled(s, step)
  {
    match step
    case CheckSpec(_, answered) => answered
    case Release(f, view, _) =>
      var copy := s.seen[view][f];
      copy.status.Some? ==>
        (f, copy.uid) !in s.released || s.pool.OwnerOf(copy.status.value) == f || !s.pool.Used(copy.status.value)
    case _ => Careful(s, step)
  }

  lemma CheckedIsCareful(s: State, step: Step)
    requires Inv(s) && Enabled(s, step) && Checked(s, step)
    ensures Careful(s, step)
  {
    hide Inv, TakesNoAddress;
    if step.Release? && s.seen[step.view][step.f].status.Some? {
      var copy := s.seen[step.view][step.f];
      if (step.f, copy.uid) !in s.released {
        FirstReleaseIsCareful(s, step);
      } else if s.pool.OwnerOf(copy.status.value) == step.f {
        OwnedReleaseIsCareful(s, step);
      } else {
        UnusedReleaseIsCareful(s, step);
      }
    }
  }

  lemma {:induction false} CheckedRunsKeepInv(trace: seq<State>, steps: seq<Step>, n: nat)
    requires IsRun(trace, steps) && n < |trace| && Initial(trace[0])
    requires forall i :: 0 <= i < n ==> Checked(trace[i], steps[i])
    ensures Inv(trace[n])
  {
    hide Inv, Next, Enabled, Careful, Checked, Initial;
    if n == 0 {
      InitialInv(trace[0]);
    } else {
      CheckedRunsKeepInv(trace, steps, n - 1);
      CheckedIsCareful(trace[n - 1], steps[n - 1]);
      StepKeepsInvIff(trace[n - 1], steps[n - 1]);
    }
  }

  /** Over every run of checked steps, whatever is lost, stale, interleaved, cut off or
      restarted: if two FloatingIPs of the pool have the same address in their status, one
      of them is being deleted and has released it. */
  lemma NoAddressTwice(trace: seq<State>, steps: seq<Step>, n: nat, f: Fip, g: Fip)
    requires IsRun(trace, steps) && n < |trace| && Initial(trace[0])
    requires forall i :: 0 <= i < n ==> Checked(trace[i], steps[i])
    requires f in trace[n].api && g in trace[n].api && f != g && trace[n].api[f].status.Some?
    requires trace[n].api[f].status == trace[n].api[g].status
    ensures (trace[n].api[f].terminating && (f, trace[n].api[f].uid) in trace[n].released)
         || (trace[n].api[g].terminating && (g, trace[n].api[g].uid) in trace[n].released)
  {
    CheckedRunsKeepInv(trace, steps, n);
    hide Inv, IsRun, Initial;
    HoldersAreApart(trace[n], f, g);
  }

  /** So do the runs of careful steps, which need not check as much. */
  lemma CarefulRunsKeepApart(trace: seq<State>, steps: seq<Step>, n: nat, f: Fip, g: Fip)
    requires IsRun(trace, steps) && n < |trace| && Initial(trace[0])
    requires forall i :: 0 <= i < n ==> Careful(trace[i], steps[i])
    requires f in trace[n].api && g in trace[n].api && f != g && trace[n].api[f].status.Some?
    requires trace[n].api[f].status == trace[n].api[g].status
    ensures (trace[n].api[f].terminating && (f, trace[n].api[f].uid) in trace[n].released)
         || (trace[n].api[g].terminating && (g, trace[n].api[g].uid) in trace[n].released)
  {
    CarefulRunsKeepInv(trace, steps, n);
    hide Inv, IsRun, Initial;
    HoldersAreApart(trace[n], f, g);
  }

  // ----------------------------------------------------------------------- every run

  lemma {:induction false} RunsKeepTracked(trace: seq<State>, steps: seq<Step>, n: nat)
    requires IsRun(trace, steps) && n < |trace| && Initial(trace[0])
    ensures Tracked(trace[n])
  {
    hide Tracked, Next, Enabled, Initial;
    if n == 0 {
      InitialIsTracked(trace[0]);
    } else {
      RunsKeepTracked(trace, steps, n - 1);
      StepKeepsTracked(trace[n - 1], steps[n - 1]);
    }
  }

  lemma InitialIsTracked(s: State)
    requires Initial(s)
    ensures Tracked(s)
  {
    InitialInv(s);
  }

  /** Over every run at all, careless steps included: between passes a FloatingIP owns at
      most the address its spec records. */
  lemma ClaimsBetweenPasses(trace: seq<State>, steps: seq<Step>, n: nat, f: Fip, a: Address)
    requires IsRun(trace, steps) && n < |trace| && Initial(trace[0])
    requires a in trace[n].pool.owners && trace[n].pool.owners[a] == f && f !in trace[n].passes
    ensures f in trace[n].api && trace[n].api[f].spec == Some(a)
  {
    RunsKeepTracked(trace, steps, n);
    hide History, IsRun, Initial;
    assert ClaimIsPersisted(trace[n], a, f);
  }

  /** And one that is gone owns none, whatever went wrong in its deletion. */
  lemma NoClaimOutlivesItsObject(trace: seq<State>, steps: seq<Step>, n: nat, f: Fip)
    requires IsRun(trace, steps) && n < |trace| && Initial(trace[0]) && f !in trace[n].api
    ensures trace[n].pool.ClaimsOf(f) == {}
  {
    RunsKeepTracked(trace, steps, n);
    hide History, IsRun, Initial, OnlySees;
    assert f in trace[n].passes ==> PassIsPlaced(trace[n], f, trace[n].passes[f]);
    forall a | a in trace[n].pool.owners
      ensures trace[n].pool.owners[a] != f
    {
      assert ClaimIsPersisted(trace[n], a, trace[n].pool.owners[a]);
    }
  }

  // ------------------------------------------------------------- deletions in one go

  /** No object is left whose address has been released. */
  ghost predicate NoneReleased(s: State) {
    forall f :: f in s.api ==> (f, s.api[f].uid) !in s.released
  }

  /** A delete pass that starts from the current object and releases all that it has. */
  ghost predicate FromCurrent(s: State, step: Step)
    requires Enabled(s, step)
  {
    step.Release? ==> step.swept && step.f in s.api && s.seen[step.view][step.f] == s.api[step.f]
  }

  /** Every delete pass is one step: its finalizer write comes right after its release, and
      is carried out. */
  ghost predicate DeletesAtOnce(trace: seq<State>, steps: seq<Step>)
    requires IsRun(trace, steps)
  {
    && (forall i :: 0 <= i < |steps| ==> FromCurrent(trace[i], steps[i]))
    && (forall i :: 0 < i < |steps| && steps[i - 1].Release? ==>
          steps[i].DropFinalizer? && steps[i].f == steps[i - 1].f && steps[i].fate != Undelivered)
  }

  lemma StepKeepsNoneReleased(s: State, step: Step)
    requires Tracked(s) && Enabled(s, step) && !step.Release? && NoneReleased(s)
    ensures NoneReleased(Next(s, step))
  {
    hide PassesAreSound, HistoryIsOrdered, ViewsAreSound, ViewsAreVersioned;
    var t := Next(s, step);
    forall f | f in t.api
      ensures (f, t.api[f].uid) !in t.released
    {
      assert f in s.api ==> t.api[f].uid == s.api[f].uid;
    }
  }

  lemma DeletionKeepsNoneReleased(s: State, release: Step, drop: Step)
    requires Enabled(s, release) && release.Release? && FromCurrent(s, release) && NoneReleased(s)
    requires Enabled(Next(s, release), drop) && drop.DropFinalizer? && drop.f == release.f && drop.fate != Undelivered
    ensures NoneReleased(Next(Next(s, release), drop))
  {
    hide PoolAfterDeletion;
    var t := Next(s, release);
    assert t.deletions[drop.f] == t.api[drop.f];
  }

  lemma {:induction false} RunsLeaveNoneReleased(trace: seq<State>, steps: seq<Step>, n: nat)
    requires IsRun(trace, steps) && n < |trace| && Initial(trace[0]) && DeletesAtOnce(trace, steps)
    requires forall i :: 0 <= i < n ==> steps[i].Release? || Checked(trace[i], steps[i])
    ensures Inv(trace[n])
    ensures n == 0 || !steps[n - 1].Release? ==> NoneReleased(trace[n])
  {
    hide Inv, Next, Enabled, Careful, Checked, Initial, Tracked, FromCurrent;
    if n == 0 {
      InitialInv(trace[0]);
      NothingIsThere(trace[0]);
    } else {
      RunsLeaveNoneReleased(trace, steps, n - 1);
      StepAtOnceKeepsInv(trace[n - 1], steps[n - 1]);
      if !steps[n - 1].Release? {
        if n == 1 || !steps[n - 2].Release? {
          RunsKeepTracked(trace, steps, n - 1);
          StepKeepsNoneReleased(trace[n - 1], steps[n - 1]);
        } else {
          RunsLeaveNoneReleased(trace, steps, n - 2);
          DeletionKeepsNoneReleased(trace[n - 2], steps[n - 2], steps[n - 1]);
        }
      }
    }
  }

  lemma NothingIsThere(s: State)
    requires Initial(s)
    ensures NoneReleased(s)
  {
  }

  lemma StepAtOnceKeepsInv(s: State, step: Step)
    requires Inv(s) && Enabled(s, step) && FromCurrent(s, step)
    requires if step.Release? then NoneReleased(s) else Checked(s, step)
    ensures Inv(Next(s, step))
  {
    hide Inv, Next, Careful;
    if step.Release? {
      FirstReleaseIsCareful(s, step);
    } else {
      CheckedIsCareful(s, step);
    }
    StepKeepsInvIff(s, step);
  }

  lemma ReleaseLeavesTheApi(s: State, step: Step)
    requires Enabled(s, step) && step.Release?
    ensures Next(s, step).api == s.api
  {
  }

  /** If every delete pass is one step, no two FloatingIPs ever have the same address in
      their status, and no release has anything to check. */
  lemma NoTwoShareAnAddress(trace: seq<State>, steps: seq<Step>, n: nat, f: Fip, g: Fip)
    requires IsRun(trace, steps) && n < |trace| && Initial(trace[0]) && DeletesAtOnce(trace, steps)
    requires forall i :: 0 <= i < n ==> steps[i].Release? || Checked(trace[i], steps[i])
    requires f in trace[n].api && g in trace[n].api && f != g && trace[n].api[f].status.Some?
    ensures trace[n].api[f].status != trace[n].api[g].status
  {
    hide Inv, Next, Enabled, Checked, Initial, FromCurrent;
    var m := if n > 0 && steps[n - 1].Release? then n - 1 else n;
    if m < n {
      ReleaseLeavesTheApi(trace[m], steps[m]);
    }
    RunsLeaveNoneReleased(trace, steps, m);
    if trace[m].api[f].status == trace[m].api[g].status {
      HoldersAreApart(trace[m], f, g);
    }
  }
}
