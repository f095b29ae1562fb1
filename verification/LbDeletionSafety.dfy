/** What deletion passes leave behind: the last one takes the pool away and leaves no
    claim, unless an interruption made every peer defer to another. */
module LbDeletionSafety {
  import opened LbDeletion

  predicate Recorded(s: State, g: Svc) {
    g in s.services && s.services[g].annotated
  }

  /** A Service whose pass still decides about the pool. */
  predicate Undecided(s: State, g: Svc) {
    Recorded(s, g) && s.services[g].progress == NotStarted
  }

  ghost predicate ClaimsAreRecorded(s: State) {
    && (forall g :: g in s.claims ==> Recorded(s, g))
    && (forall g :: Recorded(s, g) && s.services[g].progress == Released ==> g !in s.claims)
  }

  /** The finalizer outlives the records, and the records the claim. */
  ghost predicate FinalizersLast(s: State) {
    && (forall g :: Recorded(s, g) ==> s.services[g].finalizer)
    && (s.pass.Some? ==>
          var f, todo := s.pass.value.svc, s.pass.value.todo;
          && (todo == RemoveFinalizer ==> !Recorded(s, f))
          && (todo == RecordReleased || todo == DropRecords || todo == RemoveFinalizer ==> f !in s.claims))
  }

  predicate Present(s: State) {
    s.pool || s.advertised
  }

  /** What is left of the pool once the pass has written all it withdraws. */
  predicate Stays(s: State)
    requires s.pass.Some?
  {
    if s.pass.value.todo == WithdrawAdvertisement then false
    else if s.pass.value.todo == DeletePool then s.advertised
    else Present(s)
  }

  ghost predicate PoolIsAccounted(s: State) {
    && (Present(s) ==> exists g :: Undecided(s, g))
    && (s.pass.Some? && Stays(s) ==> exists g :: g != s.pass.value.svc && Undecided(s, g))
  }

  /** The pool has a Service whose pass will yet decide about it. */
  ghost predicate Tidy(s: State) {
    ClaimsAreRecorded(s) && FinalizersLast(s) && PoolIsAccounted(s)
  }

  /** A pass may leave the pool alone only for a peer that has not decided yet. */
  ghost predicate DefersWell(s: State, step: Step) {
    (step.Begin? && Present(s) && (InUse(s, step.f) || step.copy != NotStarted)) ==>
      exists g :: g != step.f && Undecided(s, g)
  }

  lemma WorkOnOthers(s: State, g: Svc)
    requires s.pass.Some? && g != s.pass.value.svc
    ensures var t := Next(s, Work);
      && (g in t.services <==> g in s.services) && (g in t.services ==> t.services[g] == s.services[g])
      && (g in t.claims <==> g in s.claims)
  {
  }

  lemma WorkOnItself(s: State)
    requires ClaimsAreRecorded(s) && FinalizersLast(s) && s.pass.Some?
    ensures var t, f := Next(s, Work), s.pass.value.svc;
      && (f in t.claims ==> Recorded(t, f) && t.services[f].progress != Released)
      && (Recorded(t, f) ==> t.services[f].finalizer)
      && (t.pass.Some? ==>
            && t.pass.value.svc == f
            && (t.pass.value.todo == RemoveFinalizer ==> !Recorded(t, f))
            && (t.pass.value.todo in {RecordReleased, DropRecords, RemoveFinalizer} ==> f !in t.claims))
  {
  }

  lemma WorkKeepsRecords(s: State)
    requires ClaimsAreRecorded(s) && FinalizersLast(s) && s.pass.Some?
    ensures ClaimsAreRecorded(Next(s, Work)) && FinalizersLast(Next(s, Work))
  {
    WorkOnItself(s);
    forall g | g != s.pass.value.svc
      ensures var t := Next(s, Work);
        && (Recorded(t, g) <==> Recorded(s, g)) && (g in t.services ==> t.services[g] == s.services[g])
        && (g in t.claims <==> g in s.claims)
    {
      WorkOnOthers(s, g);
    }
  }

  lemma StepKeepsRecords(s: State, step: Step)
    requires ClaimsAreRecorded(s) && FinalizersLast(s) && Enabled(s, step) && !step.Strip?
    ensures ClaimsAreRecorded(Next(s, step)) && FinalizersLast(Next(s, step))
  {
    if step.Work? {
      WorkKeepsRecords(s);
    } else {
      var t := Next(s, step);
      forall g | !(step.Join? && g == step.f)
        ensures Recorded(t, g) ==> Recorded(s, g) && t.services[g].progress == s.services[g].progress
        ensures Recorded(s, g) ==> Recorded(t, g) && t.services[g].finalizer == s.services[g].finalizer
      {
      }
    }
  }

  lemma WorkKeepsPool(s: State)
    requires Tidy(s) && s.pass.Some?
    ensures PoolIsAccounted(Next(s, Work))
  {
    var t, f := Next(s, Work), s.pass.value.svc;
    if Stays(s) {
      var g :| g != f && Undecided(s, g);
      WorkOnOthers(s, g);
      assert Undecided(t, g);
    } else if Present(t) {
      var g :| Undecided(s, g);
      assert t.services == s.services;
      assert Undecided(t, g);
    }
  }

  lemma OtherStepsKeepPool(s: State, step: Step)
    requires Tidy(s) && Enabled(s, step) && !step.Strip? && !step.Work? && !step.Begin?
    ensures PoolIsAccounted(Next(s, step))
  {
    var t := Next(s, step);
    forall g | Undecided(s, g)
      ensures Undecided(t, g)
    {
    }
    if step.Join? {
      assert Undecided(t, step.f);
    }
  }

  lemma BeginKeepsPool(s: State, step: Step)
    requires Tidy(s) && Enabled(s, step) && step.Begin?
    ensures PoolIsAccounted(Next(s, step)) <==> DefersWell(s, step)
  {
    var t := Next(s, step);
    assert forall g :: Undecided(t, g) <==> Undecided(s, g);
    assert Stays(t) <==> Present(s) && (InUse(s, step.f) || step.copy != NotStarted);
  }

  /** The exact condition: a step leaves the pool to a pass that will decide about it
      if and only if it does not defer to peers that have all decided already. */
  lemma StepKeepsTidyIff(s: State, step: Step)
    requires Tidy(s) && Enabled(s, step) && !step.Strip?
    ensures Tidy(Next(s, step)) <==> DefersWell(s, step)
  {
    StepKeepsRecords(s, step);
    match step
    case Work => WorkKeepsPool(s);
    case Begin(_, _) => BeginKeepsPool(s, step);
    case _ => OtherStepsKeepPool(s, step);
  }

  /** Once nobody records the address and no pass runs, nothing of it is left. */
  lemma TidyEnd(s: State)
    requires Tidy(s) && s.pass.None? && forall g :: !Recorded(s, g)
    ensures !s.pool && !s.advertised && s.claims == {}
  {
  }

  // ---------------------------------------------------------------- uninterrupted runs

  /** Only the Service whose pass runs has made progress, and every live one records
      the address. */
  ghost predicate Uninterrupted(s: State) {
    && (forall g :: Recorded(s, g) && s.services[g].progress != NotStarted ==> s.pass.Some? && s.pass.value.svc == g)
    && (forall g :: g in s.services && !CleansUp(s.services[g]) ==> s.services[g].annotated)
    && (s.pass.Some? && s.pass.value.svc in s.services ==> CleansUp(s.services[s.pass.value.svc]))
  }

  lemma UninterruptedDefersWell(s: State, step: Step)
    requires Uninterrupted(s) && Tidy(s) && Enabled(s, step)
    ensures DefersWell(s, step)
  {
    if step.Begin? && InUse(s, step.f) {
      var g :| g in s.services && g != step.f && Keeps(s, g);
      assert Undecided(s, g);
    }
  }

  lemma WorkStaysUninterrupted(s: State)
    requires Uninterrupted(s) && FinalizersLast(s) && s.pass.Some?
    ensures Uninterrupted(Next(s, Work))
  {
    forall g | g != s.pass.value.svc
      ensures var t := Next(s, Work);
        (g in t.services <==> g in s.services) && (g in t.services ==> t.services[g] == s.services[g])
    {
      WorkOnOthers(s, g);
    }
  }

  lemma StepStaysUninterrupted(s: State, step: Step)
    requires Uninterrupted(s) && FinalizersLast(s) && Enabled(s, step) && !step.Strip? && !step.Interrupt?
    ensures Uninterrupted(Next(s, step))
  {
    if step.Work? {
      WorkStaysUninterrupted(s);
    }
  }

  lemma {:induction false} UninterruptedRuns(trace: seq<State>, steps: seq<Step>, n: nat)
    requires IsRun(trace, steps) && n < |trace| && Initial(trace[0])
    requires forall i :: 0 <= i < n ==> !steps[i].Strip? && !steps[i].Interrupt?
    ensures Tidy(trace[n]) && Uninterrupted(trace[n])
  {
    if n > 0 {
      UninterruptedRuns(trace, steps, n - 1);
      StepStaysUninterrupted(trace[n - 1], steps[n - 1]);
      UninterruptedDefersWell(trace[n - 1], steps[n - 1]);
      StepKeepsTidyIff(trace[n - 1], steps[n - 1]);
    }
  }

  /** However many Services share the address and in whatever order their uninterrupted
      passes run, after the last one pool, advertisement and claims are gone. */
  lemma LastMemberRemovesThePool(trace: seq<State>, steps: seq<Step>, n: nat)
    requires IsRun(trace, steps) && n < |trace| && Initial(trace[0])
    requires forall i :: 0 <= i < n ==> !steps[i].Strip? && !steps[i].Interrupt?
    requires trace[n].pass.None? && forall g :: !Recorded(trace[n], g)
    ensures !trace[n].pool && !trace[n].advertised && trace[n].claims == {}
  {
    UninterruptedRuns(trace, steps, n);
    TidyEnd(trace[n]);
  }
}
