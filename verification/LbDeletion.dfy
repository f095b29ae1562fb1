/** How the load balancer controller gives one address back: the Services that share
    it, its pool and advertisement, its claims in the IPAM, and deletion passes that
    hold the address's lock and can be interrupted between any two writes. */
module LbDeletion {
  import opened Common

  type Svc = string

  /** The cleanup progress recorded on a Service. */
  datatype Stage = NotStarted | ResourcesDeleted | Released

  /** annotated: the Service records the address; labelled: the pool selects it. */
  datatype Service = Service(
    annotated: bool, labelled: bool, loadBalancer: bool, deleting: bool, finalizer: bool, progress: Stage)

  /** The next write of a deletion pass. */
  datatype Todo =
    | WithdrawAdvertisement
    | DeletePool
    | RecordDeleted
    | Release
    | RecordReleased
    | DropRecords
    | RemoveFinalizer

  datatype Pass = Pass(svc: Svc, todo: Todo)

  /** metallb: pools select Services and are advertised on their own; otherwise there
      is neither a selector nor an advertisement. pass: who holds the lock. */
  datatype State = State(
    metallb: bool, services: map<Svc, Service>, claims: set<Svc>, pool: bool, advertised: bool, pass: Option<Pass>)

  datatype Step =
    | Join(f: Svc, grouped: bool)
    | MarkDeleted(f: Svc)
    | Convert(f: Svc)
    | Strip(f: Svc)
    | Begin(f: Svc, copy: Stage)
    | Work
    | Interrupt
    | Finish(f: Svc)
    | Vanish(f: Svc)

  /** Stages are ordered: released implies resources-deleted. */
  predicate Reached(progress: Stage, stage: Stage) {
    progress == Released || (stage == ResourcesDeleted && progress == ResourcesDeleted)
  }

  predicate NoLaterThan(copy: Stage, progress: Stage) {
    copy == NotStarted || Reached(progress, copy)
  }

  /** A peer keeps the address: by its record, whatever its state, or while it is not
      being deleted by its claim or by the pool's selector. */
  predicate Keeps(s: State, g: Svc) {
    && g in s.services && s.services[g].loadBalancer
    && (s.services[g].annotated
        || (!s.services[g].deleting && (g in s.claims || (s.metallb && s.pool && s.services[g].labelled))))
  }

  predicate InUse(s: State, f: Svc) {
    exists g :: g in s.services && g != f && Keeps(s, g)
  }

  predicate CleansUp(o: Service) {
    o.deleting || !o.loadBalancer
  }

  function FirstTodo(copy: Stage, shared: bool): Todo {
    if Reached(copy, Released) then DropRecords
    else if !shared && !Reached(copy, ResourcesDeleted) then WithdrawAdvertisement
    else Release
  }

  /** A pass begins from a cached copy that shows the record. The copy's progress may be
      outdated, and so may the record: dropped since, or gone with the Service. */
  ghost predicate Enabled(s: State, step: Step) {
    match step
    case Join(f, _) => f !in s.services && (s.pass.Some? ==> s.pass.value.svc != f)
    case MarkDeleted(f) => f in s.services
    case Convert(f) => f in s.services
    case Strip(f) => f in s.services
    case Begin(f, copy) =>
      && s.pass.None?
      && (f in s.services ==> CleansUp(s.services[f]))
      && (f in s.services && s.services[f].annotated ==> NoLaterThan(copy, s.services[f].progress))
    case Work => s.pass.Some?
    case Interrupt => s.pass.Some?
    case Finish(f) =>
      && f in s.services && !s.services[f].annotated && CleansUp(s.services[f]) && s.services[f].finalizer
      && (s.pass.Some? ==> s.pass.value.svc != f)
    case Vanish(f) => f in s.services && s.services[f].deleting && !s.services[f].finalizer
  }

  function Update(s: State, f: Svc, o: Service): State {
    s.(services := s.services[f := o])
  }

  function Following(todo: Todo): Option<Todo> {
    match todo
    case WithdrawAdvertisement => Some(DeletePool)
    case DeletePool => Some(RecordDeleted)
    case RecordDeleted => Some(Release)
    case Release => Some(RecordReleased)
    case RecordReleased => Some(DropRecords)
    case DropRecords => Some(RemoveFinalizer)
    case RemoveFinalizer => None
  }

  function Written(o: Service, todo: Todo): Service {
    match todo
    case RecordDeleted => o.(progress := ResourcesDeleted)
    case RecordReleased => o.(progress := Released)
    case DropRecords => o.(annotated := false, progress := NotStarted)
    case RemoveFinalizer => o.(finalizer := false)
    case _ => o
  }

  /** One write of the pass; a Service that is gone has nothing left to record. */
  function AfterWork(s: State, f: Svc, todo: Todo): State {
    State(s.metallb,
          if f in s.services then s.services[f := Written(s.services[f], todo)] else s.services,
          if todo == Release then s.claims - {f} else s.claims,
          s.pool && todo != DeletePool,
          s.advertised && todo != WithdrawAdvertisement,
          if Following(todo).Some? then Some(Pass(f, Following(todo).value)) else None)
  }

  /** A member of a group that finds the pool there creates neither it nor its
      advertisement. */
  ghost function Next(s: State, step: Step): State
    requires Enabled(s, step)
  {
    match step
    case Join(f, grouped) =>
      s.(services := s.services[f := Service(true, true, true, false, true, NotStarted)], claims := s.claims + {f},
         pool := true, advertised := s.advertised || (s.metallb && !(grouped && s.pool)))
    case MarkDeleted(f) => Update(s, f, s.services[f].(deleting := true))
    case Convert(f) => Update(s, f, s.services[f].(loadBalancer := false))
    case Strip(f) => Update(s, f, s.services[f].(annotated := false))
    case Begin(f, copy) => s.(pass := Some(Pass(f, FirstTodo(copy, InUse(s, f)))))
    case Work => AfterWork(s, s.pass.value.svc, s.pass.value.todo)
    case Interrupt => s.(pass := None)
    case Finish(f) => Update(s, f, s.services[f].(progress := NotStarted, finalizer := false))
    case Vanish(f) => s.(services := s.services - {f})
  }

  ghost function Taken(s: State, step: Step): Option<State> {
    if Enabled(s, step) then Some(Next(s, step)) else None
  }

  ghost predicate IsRun(trace: seq<State>, steps: seq<Step>) {
    && |trace| == |steps| + 1
    && forall i :: 0 <= i < |steps| ==> Enabled(trace[i], steps[i]) && trace[i + 1] == Next(trace[i], steps[i])
  }

  ghost predicate Initial(s: State) {
    s.services == map[] && s.claims == {} && !s.pool && !s.advertised && s.pass.None?
  }

  // ------------------------------------------------------- no pool is taken from a peer

  /** An advertised pool: all there is when pools are not advertised on their own. */
  predicate Serves(s: State) {
    s.pool && (s.metallb ==> s.advertised)
  }

  predicate Member(s: State, g: Svc) {
    g in s.services && s.services[g].loadBalancer && s.services[g].annotated
  }

  predicate Withdrawing(s: State) {
    s.pass.Some? && (s.pass.value.todo == WithdrawAdvertisement || s.pass.value.todo == DeletePool)
  }

  /** A pass runs for a Service that is to give its address up, and when it is about
      to take the pool away it is the last user's. */
  predicate Guarded(s: State) {
    && (s.pass.Some? && s.pass.value.svc in s.services ==> CleansUp(s.services[s.pass.value.svc]))
    && (Withdrawing(s) ==> !InUse(s, s.pass.value.svc))
  }

  /** A member is owed the pool until it is both alone and being deleted. */
  ghost predicate Owed(s: State, g: Svc) {
    Member(s, g) && (!s.services[g].deleting || exists h :: h != g && Member(s, h))
  }

  ghost predicate MembersAreServed(s: State) {
    forall g :: Owed(s, g) ==> Serves(s)
  }

  /** Joining is safe unless the pool is being taken away, or a group's pool was left
      without its advertisement. */
  predicate SafeJoin(s: State, step: Step) {
    step.Join? ==> !Withdrawing(s) && !(s.metallb && step.grouped && s.pool && !s.advertised)
  }

  lemma JoinKeepsGuard(s: State, step: Step)
    requires Guarded(s) && Enabled(s, step) && step.Join?
    ensures Guarded(Next(s, step)) <==> !Withdrawing(s)
  {
    assert Withdrawing(s) ==> Keeps(Next(s, step), step.f);
  }

  /** A withdrawal that is still ahead was ahead before, or begins for the last user. */
  lemma StepKeepsPass(s: State, step: Step)
    requires Guarded(s) && Enabled(s, step) && !step.Join?
    ensures var t := Next(s, step);
      && (t.pass.Some? && t.pass.value.svc in t.services ==> CleansUp(t.services[t.pass.value.svc]))
      && (Withdrawing(t) ==> !InUse(s, t.pass.value.svc))
  {
    hide InUse;
  }

  lemma KeptBefore(s: State, step: Step, g: Svc)
    requires Enabled(s, step) && !step.Join? && Keeps(Next(s, step), g)
    ensures Keeps(s, g)
  {
    hide InUse;
  }

  lemma StepKeepsUnused(s: State, step: Step, f: Svc)
    requires Enabled(s, step) && !step.Join? && !InUse(s, f)
    ensures !InUse(Next(s, step), f)
  {
    hide Next, Enabled, Keeps;
    if g :| g in Next(s, step).services && g != f && Keeps(Next(s, step), g) {
      KeptBefore(s, step, g);
      KeepersAreThere(s, g);
    }
  }

  lemma KeepersAreThere(s: State, g: Svc)
    ensures Keeps(s, g) ==> g in s.services
  {
  }

  lemma StepKeepsGuard(s: State, step: Step)
    requires Guarded(s) && Enabled(s, step)
    ensures Guarded(Next(s, step)) <==> !(step.Join? && Withdrawing(s))
  {
    if step.Join? {
      JoinKeepsGuard(s, step);
    } else {
      StepKeepsPass(s, step);
      hide InUse, Next, Enabled;
      if Withdrawing(Next(s, step)) {
        StepKeepsUnused(s, step, Next(s, step).pass.value.svc);
      }
    }
  }

  lemma MembersOnlyLeave(s: State, step: Step, g: Svc)
    requires Enabled(s, step) && !step.Join? && Member(Next(s, step), g)
    ensures Member(s, g) && (s.services[g].deleting ==> Next(s, step).services[g].deleting)
  {
  }

  lemma NothingIsOwedAnew(s: State, step: Step, g: Svc)
    requires Enabled(s, step) && !step.Join? && Owed(Next(s, step), g)
    ensures Owed(s, g)
  {
    MembersOnlyLeave(s, step, g);
    if h :| h != g && Member(Next(s, step), h) {
      MembersOnlyLeave(s, step, h);
    }
  }

  lemma NothingIsOwedByTheLast(s: State, g: Svc)
    requires Guarded(s) && Withdrawing(s)
    ensures !Owed(s, g)
  {
    assert forall h :: Member(s, h) ==> Keeps(s, h);
  }

  lemma StepServesMembers(s: State, step: Step)
    requires Guarded(s) && MembersAreServed(s) && Enabled(s, step)
    ensures MembersAreServed(Next(s, step)) <==> !(step.Join? && s.metallb && step.grouped && s.pool && !s.advertised)
  {
    var t := Next(s, step);
    if step.Join? {
      assert Owed(t, step.f);
    } else {
      forall g | Owed(t, g)
        ensures Serves(t)
      {
        NothingIsOwedAnew(s, step, g);
        if Withdrawing(s) {
          NothingIsOwedByTheLast(s, g);
        }
      }
    }
  }

  /** The exact condition: a step keeps members served, and every later withdrawal
      the last user's, if and only if it is not an unsafe join. */
  lemma StepKeepsServiceIff(s: State, step: Step)
    requires Guarded(s) && MembersAreServed(s) && Enabled(s, step)
    ensures Guarded(Next(s, step)) && MembersAreServed(Next(s, step)) <==> SafeJoin(s, step)
  {
    StepKeepsGuard(s, step);
    StepServesMembers(s, step);
  }

  lemma OnlyTheLastWithdraws(s: State, step: Step)
    requires Guarded(s) && Enabled(s, step)
    requires (s.pool && !Next(s, step).pool) || (s.advertised && !Next(s, step).advertised)
    ensures step.Work? && !InUse(s, s.pass.value.svc)
  {
  }

  /** What it takes for an address not to be in use: no other load balancer Service records
      it or, unless it is being deleted, claims it or is selected by its pool. */
  lemma UnusedIff(s: State, f: Svc)
    ensures !InUse(s, f) <==>
      forall g :: g in s.services && g != f && s.services[g].loadBalancer ==>
        && !s.services[g].annotated
        && (s.services[g].deleting || (g !in s.claims && !(s.metallb && s.pool && s.services[g].labelled)))
  {
    assert forall g :: Keeps(s, g) ==> g in s.services;
  }

  /** Whatever is interrupted, repeated, converted or stripped of its records: a pool
      or an advertisement is only taken away when no other Service keeps the address. */
  lemma {:induction false} PoolIsNeverTakenFromAPeer(trace: seq<State>, steps: seq<Step>, n: nat)
    requires IsRun(trace, steps) && n < |trace| && Initial(trace[0])
    requires forall i :: 0 <= i < n ==> SafeJoin(trace[i], steps[i])
    ensures Guarded(trace[n]) && MembersAreServed(trace[n])
    ensures n < |steps| && ((trace[n].pool && !trace[n + 1].pool) || (trace[n].advertised && !trace[n + 1].advertised))
      ==>
        && steps[n].Work? && !InUse(trace[n], trace[n].pass.value.svc)
        && var s := trace[n];
           forall g :: g in s.services && g != s.pass.value.svc && s.services[g].loadBalancer ==>
             && !s.services[g].annotated
             && (s.services[g].deleting || (g !in s.claims && !(s.metallb && s.pool && s.services[g].labelled)))
  {
    if n > 0 {
      PoolIsNeverTakenFromAPeer(trace, steps, n - 1);
      StepKeepsServiceIff(trace[n - 1], steps[n - 1]);
    }
    if n < |steps| && ((trace[n].pool && !trace[n + 1].pool) || (trace[n].advertised && !trace[n + 1].advertised)) {
      OnlyTheLastWithdraws(trace[n], steps[n]);
      UnusedIff(trace[n], trace[n].pass.value.svc);
    }
  }
}
