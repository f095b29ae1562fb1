/** Why the manager's steps must be careful: a step that is not lets the pool hand out an
    address twice, and such steps are reachable. */
module ManagerLimits {
  import opened Common
  import opened Addresses
  import opened Ipam
  import opened Manager
  import opened ManagerPasses
  import opened ManagerSafety
  import opened Runs

  // ------------------------------------------------------------ an ordinary allocation

  /** Free to be created under its name, and for its first pass to be shown it. */
  ghost predicate IsNew(s: State, f: Fip) {
    && f !in s.api && f !in s.passes && f !in s.deletions
    && LastView(s.viewed, f) <= |s.seen| && forall u :: u in s.released ==> u.1 <= s.clock
  }

  function Pinned(s: State, a: Address): Object {
    Object(s.clock + 1, s.clock + 1, Some(a), None, false)
  }

  function AfterCreate(s: State, f: Fip, a: Address): State {
    var api := s.api[f := Pinned(s, a)];
    s.(api := api, clock := s.clock + 1, seen := s.seen + [api])
  }

  function AfterClaiming(s: State, f: Fip, a: Address): State {
    AfterCreate(s, f, a).(pool := Grant(s.pool, a, f), passes := s.passes[f := Claimed(Pinned(s, a), a)],
                          viewed := s.viewed[f := |s.seen|])
  }

  function AfterSpec(s: State, f: Fip, a: Address): State {
    var api := s.api[f := Pinned(s, a).(version := s.clock + 2)];
    AfterClaiming(s, f, a).(api := api, clock := s.clock + 2, seen := AfterCreate(s, f, a).seen + [api],
                            passes := s.passes[f := SpecWritten(a)])
  }

  /** The state once a new FloatingIP that asks for an address has got it. */
  function Allocated(s: State, f: Fip, a: Address): State {
    var api := s.api[f := Pinned(s, a).(version := s.clock + 3, status := Some(a))];
    AfterSpec(s, f, a).(api := api, clock := s.clock + 3, seen := AfterSpec(s, f, a).seen + [api], passes := s.passes)
  }

  lemma FreeAddressIsGranted(pool: Subnet, f: Fip, a: Address)
    requires pool.Valid() && a in pool.ips && !pool.ips[a]
    ensures ClaimOwned(pool, Some(a), f) == Success(a)
  {
  }

  lemma CreatesPinned(s: State, f: Fip, a: Address)
    requires IsNew(s, f)
    ensures Reaches(Taken, s, [Create(f, Some(a))], AfterCreate(s, f, a))
  {
    OneStep(Taken, s, Create(f, Some(a)));
  }

  lemma ClaimsPinned(s: State, f: Fip, a: Address)
    requires IsNew(s, f) && s.pool.Valid() && a in s.pool.ips && !s.pool.ips[a]
    ensures Reaches(Taken, AfterCreate(s, f, a), [BeginPass(f, |s.seen|)], AfterClaiming(s, f, a))
  {
    hide ClaimOwned;
    FreeAddressIsGranted(s.pool, f, a);
    OneStep(Taken, AfterCreate(s, f, a), BeginPass(f, |s.seen|));
  }

  lemma Overwritten<K, V>(m: map<K, V>, k: K, v: V, w: V)
    ensures m[k := v][k := w] == m[k := w]
    ensures k !in m ==> m[k := v] - {k} == m
  {
  }

  lemma SpecIsWritten(t: State, f: Fip, copy: Object, a: Address)
    requires f in t.passes && t.passes[f] == Claimed(copy, a) && f in t.api && t.api[f] == copy
    ensures Enabled(t, WriteSpec(f, Answered))
    ensures Next(t, WriteSpec(f, Answered))
         == Write(t, f, copy.(spec := Some(a))).(passes := t.passes[f := SpecWritten(a)])
  {
  }

  lemma StatusIsWritten(t: State, f: Fip, a: Address)
    requires f in t.passes && t.passes[f] == SpecWritten(a) && f in t.api
    ensures Enabled(t, WriteStatus(f, true))
    ensures Next(t, WriteStatus(f, true))
         == Write(t, f, t.api[f].(status := Some(a))).(passes := t.passes - {f})
  {
  }

  lemma WritesPinned(s: State, f: Fip, a: Address)
    requires IsNew(s, f)
    ensures Reaches(Taken, AfterClaiming(s, f, a), [WriteSpec(f, Answered)], AfterSpec(s, f, a))
  {
    hide Reaches, Next, Enabled, Grant, IsNew;
    var t, o := AfterClaiming(s, f, a), Pinned(s, a);
    SpecIsWritten(t, f, o, a);
    OneStep(Taken, t, WriteSpec(f, Answered));
    Overwritten(s.api, f, o, o.(version := s.clock + 2));
    Overwritten(s.passes, f, Claimed(o, a), SpecWritten(a));
  }

  lemma CompletesPinned(s: State, f: Fip, a: Address)
    requires IsNew(s, f)
    ensures Reaches(Taken, AfterSpec(s, f, a), [WriteStatus(f, true)], Allocated(s, f, a))
  {
    hide Reaches, Next, Enabled, Grant;
    var t, o := AfterSpec(s, f, a), Pinned(s, a);
    StatusIsWritten(t, f, a);
    OneStep(Taken, t, WriteStatus(f, true));
    Overwritten(s.api, f, o.(version := s.clock + 2), o.(version := s.clock + 3, status := Some(a)));
    Overwritten(s.passes, f, SpecWritten(a), SpecWritten(a));
  }

  lemma AllocatePinned(s: State, f: Fip, a: Address) returns (steps: seq<Step>)
    requires IsNew(s, f) && s.pool.Valid() && a in s.pool.ips && !s.pool.ips[a]
    ensures Reaches(Taken, s, steps, Allocated(s, f, a))
  {
    hide Reaches, IsNew, AfterCreate, AfterClaiming, AfterSpec, Allocated;
    CreatesPinned(s, f, a);
    ClaimsPinned(s, f, a);
    WritesPinned(s, f, a);
    CompletesPinned(s, f, a);
    var create, begin := [Create(f, Some(a))], [BeginPass(f, |s.seen|)];
    Then(Taken, s, create, AfterCreate(s, f, a), begin, AfterClaiming(s, f, a));
    Then(Taken, s, create + begin, AfterClaiming(s, f, a), [WriteSpec(f, Answered)], AfterSpec(s, f, a));
    steps := create + begin + [WriteSpec(f, Answered)];
    Then(Taken, s, steps, AfterSpec(s, f, a), [WriteStatus(f, true)], Allocated(s, f, a));
    steps := steps + [WriteStatus(f, true)];
  }

  // ------------------------------------------------------- what a careless step leads to

  lemma ConsistentAllocates(s: State, f: Fip, a: Address) returns (steps: seq<Step>)
    requires Consistent(s) && f !in s.api && f !in s.passes && f !in s.deletions && a in s.pool.ips && !s.pool.ips[a]
    ensures Reaches(Taken, s, steps, Allocated(s, f, a)) && (f, s.clock + 1) !in s.released
  {
    hide Reaches, StatusesAreUnique, PassesAreSound, Allocated;
    assert LastView(s.viewed, f) < |s.seen|;
    steps := AllocatePinned(s, f, a);
  }

  lemma FreedIsInRange(s: State, a: Address)
    requires Consistent(s) && InRange(s.pool.config, a) && !s.pool.Used(a)
    ensures a in s.pool.ips && !s.pool.ips[a]
  {
  }

  /** Once the address of a status is free, any new FloatingIP can be given it. */
  lemma FreedStatusIsGivenAgain(s: State, f: Fip, g: Fip) returns (steps: seq<Step>, t: State)
    requires Consistent(s) && FreedStatus(s, f) && g !in s.api && g !in s.passes && g !in s.deletions
    ensures Reaches(Taken, s, steps, t) && !UniqueStatuses(t.api, t.released)
  {
    hide History, StatusesAreUnique, PassesAreSound, Reaches;
    var a := s.api[f].status.value;
    FreedIsInRange(s, a);
    steps := ConsistentAllocates(s, g, a);
    t := Allocated(s, g, a);
    assert Holds(t.api, t.released, f) && t.api[f].status == t.api[g].status;
  }

  /** An allocation whose address is given away completes all the same. */
  lemma LostClaimCompletes(s: State, f: Fip) returns (steps: seq<Step>, t: State)
    requires CanComplete(s, f) && f in s.api
    ensures Reaches(Taken, s, steps, t) && t.released == s.released && t.api.Keys == s.api.Keys
    ensures forall g :: g in s.api && g != f ==> t.api[g] == s.api[g]
    ensures t.api[f].status == Some(s.passes[f].ip) && t.api[f].uid == s.api[f].uid
  {
    var ip := s.passes[f].ip;
    if s.passes[f].Claimed? {
      var u := Next(s, WriteSpec(f, Answered));
      assert u.passes[f] == SpecWritten(ip) && u.api == s.api[f := u.api[f]];
      OneStep(Taken, s, WriteSpec(f, Answered));
      ThenStep(Taken, s, [WriteSpec(f, Answered)], u, WriteStatus(f, true));
      steps, t := [WriteSpec(f, Answered)] + [WriteStatus(f, true)], Next(u, WriteStatus(f, true));
    } else {
      OneStep(Taken, s, WriteStatus(f, true));
      steps, t := [WriteStatus(f, true)], Next(s, WriteStatus(f, true));
    }
  }

  lemma AllocationLeavesPasses(s: State, f: Fip, g: Fip, a: Address)
    requires CanComplete(s, f) && f in s.api && g !in s.api
    ensures var t := Allocated(s, g, a); t.api[f] == s.api[f] && t.passes == s.passes && CanComplete(t, f)
  {
  }

  lemma CompletingIsPlaced(s: State, f: Fip)
    requires Consistent(s) && CanComplete(s, f)
    ensures f in s.api && (f, s.api[f].uid) !in s.released && InRange(s.pool.config, s.passes[f].ip)
  {
    hide History, PoolIsSound, StatusesAreUnique, OnlySees;
    assert PassIsPlaced(s, f, s.passes[f]);
  }

  lemma LostClaimIsGivenAgain(s: State, f: Fip, g: Fip) returns (steps: seq<Step>, t: State)
    requires Consistent(s) && LostClaim(s, f)
    requires g !in s.api && g !in s.passes && g !in s.deletions
    ensures Reaches(Taken, s, steps, t) && !UniqueStatuses(t.api, t.released)
  {
    hide Reaches, Consistent;
    CompletingIsPlaced(s, f);
    var a := s.passes[f].ip;
    hide CanComplete;
    FreedIsInRange(s, a);
    var first := ConsistentAllocates(s, g, a);
    var u := Allocated(s, g, a);
    AllocationLeavesPasses(s, f, g, a);
    var second;
    second, t := LostClaimCompletes(u, f);
    Then(Taken, s, first, u, second, t);
    steps := first + second;
    assert Holds(t.api, t.released, f) && t.api[f].status == t.api[g].status && !t.api[g].terminating;
  }

  /** Being careful is exactly what keeps addresses apart: after a step that is not
      careful, an ordinary allocation, completed or under way, ends with an address in
      two statuses. */
  lemma CarelessStepBreaks(s: State, step: Step, g: Fip) returns (steps: seq<Step>, t: State)
    requires Inv(s) && Enabled(s, step) && !Careful(s, step)
    requires g !in Next(s, step).api && g !in Next(s, step).passes && g !in Next(s, step).deletions
    ensures Reaches(Taken, Next(s, step), steps, t) && !UniqueStatuses(t.api, t.released)
  {
    hide Inv, Consistent, Careful, Reaches, UniqueStatuses, Next, LostClaim, FreedStatus;
    StepKeepsInvIff(s, step);
    if f :| FreedStatus(Next(s, step), f) {
      steps, t := FreedStatusIsGivenAgain(Next(s, step), f, g);
    } else {
      var h :| LostClaim(Next(s, step), h);
      steps, t := LostClaimIsGivenAgain(Next(s, step), h, g);
    }
  }

  // ---------------------------------------------------- runs that get to a careless step

  lemma FirstAllocation(s: State, f: Fip, a: Address) returns (steps: seq<Step>)
    requires Initial(s) && a in s.pool.ips && !s.pool.ips[a]
    ensures Reaches(Taken, s, steps, Allocated(s, f, a)) && Inv(s)
  {
    hide Reaches, Allocated;
    InitialInv(s);
    steps := AllocatePinned(s, f, a);
  }

  /** A pass from an outdated copy gets its own address again, but not into the spec. */
  lemma OutdatedPassFails(s: State, f: Fip, view: nat, a: Address) returns (steps: seq<Step>, t: State)
    requires Enabled(s, BeginPass(f, view)) && s.seen[view][f].spec == Some(a)
    requires f in s.api && s.api[f].version != s.seen[view][f].version && s.pool.Used(a) && s.pool.OwnerOf(a) == f
    ensures Reaches(Taken, s, steps, t) && f in t.passes && t.passes[f] == WriteFailed(a)
    ensures t.api == s.api && t.released == s.released && t.pool.OwnerOf(a) == f
  {
    var u := Next(s, BeginPass(f, view));
    assert u.passes[f] == Claimed(s.seen[view][f], a);
    t := Next(u, WriteSpec(f, Answered));
    OneStep(Taken, s, BeginPass(f, view));
    ThenStep(Taken, s, [BeginPass(f, view)], u, WriteSpec(f, Answered));
    steps := [BeginPass(f, view)] + [WriteSpec(f, Answered)];
  }

  /** A pass that starts from a copy without the status, has its spec write refused
      as outdated and gets no answer to its read-back, is a careless one. */
  lemma LostReadBackIsReachable(s: State, f: Fip, a: Address) returns (steps: seq<Step>, t: State)
    requires Initial(s) && a in s.pool.ips && !s.pool.ips[a]
    ensures Reaches(Taken, s, steps, t) && Enabled(t, CheckSpec(f, false)) && !Careful(t, CheckSpec(f, false))
  {
    hide Reaches;
    var first := FirstAllocation(s, f, a);
    var s1 := Allocated(s, f, a);
    assert s1.seen[2][f] == Object(s.clock + 1, s.clock + 2, Some(a), None, false);
    var second;
    second, t := OutdatedPassFails(s1, f, 2, a);
    Then(Taken, s, first, s1, second, t);
    steps := first + second;
    assert Holds(t.api, t.released, f);
  }

  /** A restart while a FloatingIP with an address is being deleted is careless. */
  lemma RestartDuringDeletionIsReachable(s: State, f: Fip, a: Address) returns (steps: seq<Step>, t: State)
    requires Initial(s) && a in s.pool.ips && !s.pool.ips[a]
    ensures Reaches(Taken, s, steps, t) && Enabled(t, Restart([])) && !Careful(t, Restart([]))
  {
    hide Reaches;
    var first := FirstAllocation(s, f, a);
    t := Next(Allocated(s, f, a), MarkDeleted(f));
    ThenStep(Taken, s, first, Allocated(s, f, a), MarkDeleted(f));
    steps := first + [MarkDeleted(f)];
    assert Holds(t.api, t.released, f) && t.api[f].terminating;
    assert CollectedFrom([], t.api);
  }

  lemma RestartsSettled(s: State, f: Fip, a: Address)
    requires f in s.api && !s.api[f].terminating && s.api[f].status == Some(a) && s.api.Keys == {f}
    requires (f, s.api[f].uid) !in s.released
    ensures Enabled(s, Restart([a]))
    ensures var t := Next(s, Restart([a]));
      t.seen == [s.api] && t.api == s.api && t.pool.owners == map[] && t.released == s.released
  {
  }

  lemma SyncSkipsEnding(s: State, f: Fip, a: Address)
    requires f in s.api && s.api.Keys == {f} && s.api[f].status == Some(a) && (f, s.api[f].uid) !in s.released
    requires s.seen == [s.api] && s.pool.owners == map[]
    ensures var t := Next(s, MarkDeleted(f)); Enabled(t, Refresh(1, [])) && !Careful(t, Refresh(1, []))
  {
    var t := Next(s, MarkDeleted(f));
    assert t.seen[1] == t.api && t.api.Keys == {f};
    assert Holds(t.api, t.released, f) && t.api[f].terminating;
    assert CollectedFrom([], t.seen[1]);
  }

  /** A pool sync while a FloatingIP with an address is being deleted, in a process that
      was started after it got the address, is careless. */
  lemma SyncDuringDeletionIsReachable(s: State, f: Fip, a: Address) returns (steps: seq<Step>, t: State)
    requires Initial(s) && a in s.pool.ips && !s.pool.ips[a]
    ensures Reaches(Taken, s, steps, t) && Enabled(t, Refresh(1, [])) && !Careful(t, Refresh(1, []))
  {
    hide Reaches, Next, Enabled, Careful, Inv;
    var first := FirstAllocation(s, f, a);
    var s1 := Allocated(s, f, a);
    RestartsSettled(s1, f, a);
    var s2 := Next(s1, Restart([a]));
    SyncSkipsEnding(s2, f, a);
    MayBeDeleted(s2, f);
    t := Next(s2, MarkDeleted(f));
    ThenStep(Taken, s, first, s1, Restart([a]));
    ThenStep(Taken, s, first + [Restart([a])], s2, MarkDeleted(f));
    steps := first + [Restart([a])] + [MarkDeleted(f)];
  }

  lemma MayBeDeleted(s: State, f: Fip)
    requires f in s.api
    ensures Enabled(s, MarkDeleted(f))
  {
  }

  function Ending(s: State, f: Fip): Object
    requires f in s.api
  {
    s.api[f].(version := s.clock + 1, terminating := true)
  }

  function Marked(s: State, f: Fip): State
    requires f in s.api
  {
    var api := s.api[f := Ending(s, f)];
    s.(api := api, clock := s.clock + 1, seen := s.seen + [api])
  }

  /** A FloatingIP is deleted and written once more. */
  function Ended(s: State, f: Fip): State
    requires f in s.api
  {
    var api := s.api[f := Ending(s, f).(version := s.clock + 2)];
    s.(api := api, clock := s.clock + 2, seen := Marked(s, f).seen + [api])
  }

  /** Its delete pass starts from the copy in between: it releases, finds the object
      written since, and is to start over. */
  function Retrying(s: State, f: Fip): State
    requires f in s.api
  {
    var copy := Ending(s, f);
    Ended(s, f).(pool := PoolAfterDeletion(s.pool, f, copy, true), viewed := s.viewed[f := |s.seen|],
                 released := s.released + {(f, copy.uid)})
  }

  lemma IsMarked(s: State, f: Fip)
    requires f in s.api
    ensures Reaches(Taken, s, [MarkDeleted(f)], Marked(s, f))
  {
    OneStep(Taken, s, MarkDeleted(f));
  }

  lemma IsTouched(s: State, f: Fip)
    requires f in s.api
    ensures Reaches(Taken, Marked(s, f), [Touch(f)], Ended(s, f))
  {
    OneStep(Taken, Marked(s, f), Touch(f));
    assert Next(Marked(s, f), Touch(f)).api == Ended(s, f).api;
  }

  lemma ReleasesInVain(s: State, f: Fip)
    requires f in s.api && f !in s.passes && f !in s.deletions && LastView(s.viewed, f) <= |s.seen|
    ensures Reaches(Taken, Ended(s, f), [Release(f, |s.seen|, true)] + [DropFinalizer(f, Answered)], Retrying(s, f))
  {
    hide PoolAfterDeletion;
    var t, release := Ended(s, f), Release(f, |s.seen|, true);
    assert t.seen[|s.seen|][f] == Ending(s, f);
    var u := Next(t, release);
    OneStep(Taken, t, release);
    assert u.deletions[f] == Ending(s, f) && !DropLands(u, f);
    ThenStep(Taken, t, [release], u, DropFinalizer(f, Answered));
    assert u.deletions - {f} == s.deletions;
    assert Next(u, DropFinalizer(f, Answered)) == Retrying(s, f);
  }

  lemma GetsToRetry(s: State, f: Fip) returns (steps: seq<Step>)
    requires f in s.api && f !in s.passes && f !in s.deletions && LastView(s.viewed, f) <= |s.seen|
    ensures Reaches(Taken, s, steps, Retrying(s, f))
  {
    hide Reaches, Marked, Ended, Retrying;
    IsMarked(s, f);
    IsTouched(s, f);
    ReleasesInVain(s, f);
    Then(Taken, s, [MarkDeleted(f)], Marked(s, f), [Touch(f)], Ended(s, f));
    var first, second := [MarkDeleted(f)] + [Touch(f)], [Release(f, |s.seen|, true)] + [DropFinalizer(f, Answered)];
    Then(Taken, s, first, Ended(s, f), second, Retrying(s, f));
    steps := first + second;
  }

  /** Its address is free by then, and goes to another FloatingIP. */
  lemma RetryingAllocates(s: State, f: Fip, g: Fip, a: Address) returns (steps: seq<Step>)
    requires f in s.api && s.api[f].status == Some(a) && IsNew(s, g) && s.pool.Valid() && a in s.pool.ips
    requires f != g && (forall u :: u in s.released ==> u.1 <= s.clock) && s.api[f].uid <= s.clock
    ensures Reaches(Taken, Retrying(s, f), steps, Allocated(Retrying(s, f), g, a))
  {
    hide Reaches, PoolAfterDeletion, Allocated;
    DeletionFrees(s.pool, f, Ending(s, f), true);
    assert !Retrying(s, f).pool.Used(a);
    steps := AllocatePinned(Retrying(s, f), g, a);
  }

  lemma RetryViews(s: State, f: Fip, g: Fip, a: Address)
    requires f in s.api && f !in s.passes && f !in s.deletions && f != g && s.api[f].status == Some(a)
    requires (forall u :: u in s.released ==> u.1 <= s.clock) && s.api[f].uid <= s.clock
    ensures var t := Allocated(Retrying(s, f), g, a);
      && CanView(t, f, |s.seen|) && t.seen[|s.seen|][f] == Ending(s, f)
      && Holds(t.api, t.released, g) && t.api[g].status == Some(a) && !t.api[g].terminating
  {
    hide PoolAfterDeletion;
  }

  lemma RetryTakesIt(s: State, f: Fip, view: nat, g: Fip)
    requires CanView(s, f, view) && s.seen[view][f].terminating && s.seen[view][f].status.Some? && s.pool.Valid()
    requires f != g && Holds(s.api, s.released, g) && s.api[g].status == s.seen[view][f].status
    ensures var again := Release(f, view, true);
      Enabled(s, again) && !Careful(s, again) && FreedStatus(Next(s, again), g)
  {
    hide PoolAfterDeletion;
    DeletionFrees(s.pool, f, s.seen[view][f], true);
  }

  /** What a FloatingIP that holds its address in a valid pool comes with. */
  ghost predicate IsSettled(s: State, f: Fip, a: Address) {
    && f in s.api && f !in s.passes && f !in s.deletions && s.api[f].status == Some(a)
    && s.api[f].uid <= s.clock && LastView(s.viewed, f) <= |s.seen| && (forall u :: u in s.released ==> u.1 <= s.clock)
    && s.pool.Valid() && a in s.pool.ips
  }

  lemma AllocatedIsSettled(s: State, f: Fip, a: Address)
    requires IsNew(s, f) && s.pool.Valid() && a in s.pool.ips
    ensures IsSettled(Allocated(s, f, a), f, a)
  {
  }

  lemma RetryIsCareless(s: State, f: Fip, g: Fip, a: Address)
    requires IsSettled(s, f, a) && f != g
    ensures var t, again := Allocated(Retrying(s, f), g, a), Release(f, |s.seen|, true);
      && Enabled(t, again) && !Careful(t, again) && FreedStatus(Next(t, again), g)
      && Holds(t.api, t.released, g) && !t.api[g].terminating
  {
    hide Careful, Next, FreedStatus, PoolAfterDeletion;
    RetryViews(s, f, g, a);
    DeletionFrees(s.pool, f, Ending(s, f), true);
    var t := Allocated(Retrying(s, f), g, a);
    assert t.pool == Grant(Retrying(s, f).pool, a, g);
    RetryTakesIt(t, f, |s.seen|, g);
  }

  /** A deletion whose finalizer write is refused, because the object was written since
      the pass took its copy, releases the address again, which by then can be another
      FloatingIP's. */
  lemma RepeatedReleaseIsReachable(s: State, f: Fip, g: Fip, a: Address)
    returns (steps: seq<Step>, t: State, again: Step)
    requires Initial(s) && a in s.pool.ips && !s.pool.ips[a] && f != g
    ensures Reaches(Taken, s, steps, t) && again.Release? && again.f == f && Enabled(t, again) && !Careful(t, again)
    ensures Holds(t.api, t.released, g) && !t.api[g].terminating && FreedStatus(Next(t, again), g)
  {
    var first := FirstAllocation(s, f, a);
    var s1 := Allocated(s, f, a);
    AllocatedIsSettled(s, f, a);
    assert IsNew(s1, g);
    hide Reaches, Allocated, Retrying, Next, Enabled, Careful, FreedStatus, Inv, IsNew;
    var second := GetsToRetry(s1, f);
    var third := RetryingAllocates(s1, f, g, a);
    RetryIsCareless(s1, f, g, a);
    t, again := Allocated(Retrying(s1, f), g, a), Release(f, |s1.seen|, true);
    Then(Taken, s, first, s1, second, Retrying(s1, f));
    Then(Taken, s, first + second, Retrying(s1, f), third, t);
    steps := first + second + third;
  }

  /** The release of a deletion does not ask who owns the address: it leaves every
      other claim alone exactly when its own status does not name one. */
  lemma DeletionKeepsOthersIff(s: Subnet, f: Fip, o: Object, swept: bool)
    requires s.Valid() && (swept || o.status.Some?)
    ensures (forall a :: a in s.owners && s.owners[a] != f ==> PoolAfterDeletion(s, f, o, swept).Used(a))
       <==> !(o.status.Some? && o.status.value in s.owners && s.owners[o.status.value] != f)
  {
    hide PoolAfterDeletion;
    DeletionFrees(s, f, o, swept);
    var t := PoolAfterDeletion(s, f, o, swept);
    if o.status.Some? && o.status.value in s.owners && s.owners[o.status.value] != f {
      assert !t.Used(o.status.value);
    }
  }
}
