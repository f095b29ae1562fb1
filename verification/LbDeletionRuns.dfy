/** Particular runs of deletion passes: a sole claimant's, which end the same however
    they are interrupted, and two members' that leak their pool. */
module LbDeletionRuns {
  import opened Common
  import opened LbDeletion
  import opened LbDeletionSafety
  import opened Runs

  // -------------------------------------------------------------------- sole claimant

  predicate AtOrAfter(todo: Todo, done: Todo) {
    Position(done) <= Position(todo)
  }

  function Position(todo: Todo): nat {
    match todo
    case WithdrawAdvertisement => 0
    case DeletePool => 1
    case RecordDeleted => 2
    case Release => 3
    case RecordReleased => 4
    case DropRecords => 5
    case RemoveFinalizer => 6
  }

  /** A Service that alone uses the address and is being deleted: what it has given
      back follows from how far its records and its pass have come. */
  predicate Sole(s: State, f: Svc) {
    && s.services.Keys <= {f} && s.claims <= {f}
    && (s.advertised ==> s.pool)
    && (s.pool ==> f in s.claims)
    && (f in s.claims ==> f in s.services && s.services[f].annotated)
    && (f in s.services ==> SoleService(s, f, s.services[f]))
    && (s.pass.Some? ==> SolePass(s, f, s.pass.value))
  }

  predicate SoleService(s: State, f: Svc, o: Service) {
    && o.deleting
    && (o.annotated ==> o.finalizer)
    && (o.annotated && o.progress != NotStarted ==> !s.pool)
    && (o.annotated && o.progress == Released ==> f !in s.claims)
  }

  predicate SolePass(s: State, f: Svc, pass: Pass) {
    && pass.svc == f
    && (pass.todo == RemoveFinalizer && f in s.services ==> !s.services[f].annotated)
    && (AtOrAfter(pass.todo, DeletePool) ==> !s.advertised)
    && (AtOrAfter(pass.todo, RecordDeleted) ==> !s.pool)
    && (AtOrAfter(pass.todo, RecordReleased) ==> f !in s.claims)
  }

  predicate IsCleanup(f: Svc, step: Step) {
    (step.Begin? && step.f == f) || step.Work? || step.Finish? || step.Vanish?
  }

  lemma SoleUsesItAlone(s: State, f: Svc)
    requires Sole(s, f)
    ensures !InUse(s, f)
  {
  }

  lemma SoleStep(s: State, f: Svc, step: Step)
    requires Sole(s, f) && Enabled(s, step) && (IsCleanup(f, step) || step.Interrupt?)
    ensures Sole(Next(s, step), f)
  {
    SoleUsesItAlone(s, f);
  }

  /** What is still to be done, were nothing interrupted any more. */
  function Rank(s: State, f: Svc): nat {
    if s.pass.Some? then 9 - Position(s.pass.value.todo) + if f in s.services then 1 else 0
    else if f !in s.services then 0
    else if s.services[f].annotated then 11
    else if s.services[f].finalizer then 2
    else 1
  }

  /** Every uninterrupted step gets closer to the end, but for the beginning of a pass from
      a copy whose record is gone. */
  lemma SoleProgress(s: State, f: Svc, step: Step)
    requires Sole(s, f) && Enabled(s, step) && IsCleanup(f, step)
    ensures Rank(Next(s, step), f) < Rank(s, f) <==> !(step.Begin? && !Recorded(s, f))
  {
    SoleUsesItAlone(s, f);
  }

  function Continue(s: State, f: Svc): Step
    requires Sole(s, f) && (f in s.services || s.pass.Some?)
  {
    if s.pass.Some? then Work
    else if s.services[f].annotated then Begin(f, s.services[f].progress)
    else if s.services[f].finalizer then Finish(f)
    else Vanish(f)
  }

  lemma SoleContinues(s: State, f: Svc)
    requires Sole(s, f) && (f in s.services || s.pass.Some?)
    ensures var step := Continue(s, f);
      Enabled(s, step) && IsCleanup(f, step) && (step.Begin? ==> Recorded(s, f))
  {
  }

  /** From whatever an interruption left behind, a rerun ends with nothing left. */
  lemma {:induction false} SoleReachesTheEnd(s: State, f: Svc) returns (steps: seq<Step>)
    requires Sole(s, f)
    ensures forall i :: 0 <= i < |steps| ==> IsCleanup(f, steps[i])
    ensures Reaches(Taken, s, steps, State(s.metallb, map[], {}, false, false, None))
    decreases Rank(s, f)
  {
    if f !in s.services && s.pass.None? {
      steps := [];
      assert s.services == map[];
    } else {
      SoleContinues(s, f);
      var step := Continue(s, f);
      SoleStep(s, f, step);
      SoleProgress(s, f, step);
      var rest := SoleReachesTheEnd(Next(s, step), f);
      steps := [step] + rest;
      assert steps[1..] == rest;
    }
  }

  /** However often it is interrupted, and begun again from whatever copy, advertisement
      and pool are withdrawn before the release, the release comes before the finalizer's
      removal, and once the Service is gone the state is always the same. */
  lemma {:induction false} SoleDeletionIsOrdered(trace: seq<State>, steps: seq<Step>, n: nat, f: Svc)
    requires IsRun(trace, steps) && n < |trace| && Sole(trace[0], f)
    requires forall i :: 0 <= i < n ==> IsCleanup(f, steps[i]) || steps[i].Interrupt?
    ensures Sole(trace[n], f)
    ensures var s := trace[n];
      && (!s.pool ==> !s.advertised)
      && (f !in s.claims ==> !s.pool && !s.advertised)
      && ((f in s.services && !s.services[f].finalizer) || f !in s.services ==> f !in s.claims)
      && (f !in s.services ==> s.(pass := None) == State(trace[0].metallb, map[], {}, false, false, None))
  {
    if n > 0 {
      SoleDeletionIsOrdered(trace, steps, n - 1, f);
      SoleStep(trace[n - 1], f, steps[n - 1]);
      MetallbStays(trace, steps, n);
    }
    assert f !in trace[n].services ==> trace[n].services == map[];
  }

  lemma {:induction false} MetallbStays(trace: seq<State>, steps: seq<Step>, n: nat)
    requires IsRun(trace, steps) && n < |trace|
    ensures trace[n].metallb == trace[0].metallb
  {
    if n > 0 {
      MetallbStays(trace, steps, n - 1);
    }
  }

  // --------------------------------------------------------------------------- a leak

  /** The rest of a pass, up to the removal of the finalizer. */
  lemma {:induction false} RunOut(s: State, f: Svc, todo: Todo) returns (steps: seq<Step>, t: State)
    requires s.pass == Some(Pass(f, todo)) && f in s.services && s.services[f].deleting && s.services[f].finalizer
    requires todo == Release || todo == RecordReleased || todo == DropRecords || todo == RemoveFinalizer
    ensures Reaches(Taken, s, steps, t)
    ensures t == s.(services := s.services - {f},
                    claims := if todo == Release then s.claims - {f} else s.claims,
                    pass := None)
    decreases 6 - Position(todo)
  {
    var next := Next(s, Work);
    OneStep(Taken, s, Work);
    if todo == RemoveFinalizer {
      t := Next(next, Vanish(f));
      OneStep(Taken, next, Vanish(f));
      Then(Taken, s, [Work], next, [Vanish(f)], t);
      steps := [Work] + [Vanish(f)];
    } else {
      var rest;
      rest, t := RunOut(next, f, Following(todo).value);
      Then(Taken, s, [Work], next, rest, t);
      steps := [Work] + rest;
    }
  }

  /** The first member's pass, cut off when its release is recorded. */
  lemma CutOff(s: State, a: Svc) returns (steps: seq<Step>, t: State)
    requires s.pass.None? && a in s.services && s.services[a].annotated && s.services[a].deleting && InUse(s, a)
    requires s.services[a].progress == NotStarted
    ensures Reaches(Taken, s, steps, t)
    ensures t == s.(services := s.services[a := s.services[a].(progress := Released)], claims := s.claims - {a})
  {
    var s1 := Next(s, Begin(a, NotStarted));
    var s2 := Next(s1, Work);
    var s3 := Next(s2, Work);
    t := Next(s3, Interrupt);
    OneStep(Taken, s, Begin(a, NotStarted));
    OneStep(Taken, s1, Work);
    OneStep(Taken, s2, Work);
    OneStep(Taken, s3, Interrupt);
    Then(Taken, s2, [Work], s3, [Interrupt], t);
    Then(Taken, s1, [Work], s2, [Work] + [Interrupt], t);
    Then(Taken, s, [Begin(a, NotStarted)], s1, [Work] + ([Work] + [Interrupt]), t);
    steps := [Begin(a, NotStarted)] + ([Work] + ([Work] + [Interrupt]));
  }

  /** Two members, deleted together: if one is interrupted right after it recorded its
      release and the other goes first, both are gone and the pool is not. */
  lemma InterruptedMemberLeaksThePool(s: State, a: Svc, b: Svc) returns (steps: seq<Step>, t: State)
    requires a != b && s.services.Keys == {a, b} && s.pass.None? && Member(s, a) && Member(s, b)
    requires forall g :: g in {a, b} ==>
      s.services[g].deleting && s.services[g].finalizer && s.services[g].progress == NotStarted
    ensures Reaches(Taken, s, steps, t)
    ensures t.services == map[] && t.claims == s.claims - {a, b} && t.pool == s.pool && t.advertised == s.advertised
  {
    assert Keeps(s, b);
    var first, s1 := CutOff(s, a);
    assert Keeps(s1, a);
    var s2 := Next(s1, Begin(b, NotStarted));
    var second, s3 := RunOut(s2, b, Release);
    var s4 := Next(s3, Begin(a, Released));
    var third, end := RunOut(s4, a, DropRecords);
    OneStep(Taken, s1, Begin(b, NotStarted));
    OneStep(Taken, s3, Begin(a, Released));
    Then(Taken, s3, [Begin(a, Released)], s4, third, end);
    Then(Taken, s2, second, s3, [Begin(a, Released)] + third, end);
    Then(Taken, s1, [Begin(b, NotStarted)], s2, second + ([Begin(a, Released)] + third), end);
    Then(Taken, s, first, s1, [Begin(b, NotStarted)] + (second + ([Begin(a, Released)] + third)), end);
    t := end;
    steps := first + ([Begin(b, NotStarted)] + (second + ([Begin(a, Released)] + third)));
    assert t.services == map[];
  }

  // ---------------------------------------------------------------------- unsafe joins

  /** The only member's deletion begins. */
  lemma WithdrawalIsReachable(s: State, a: Svc) returns (steps: seq<Step>, t: State)
    requires Initial(s)
    ensures Reaches(Taken, s, steps, t)
    ensures t == State(s.metallb, map[a := Service(true, true, true, true, true, NotStarted)], {a}, true, s.metallb,
                       Some(Pass(a, WithdrawAdvertisement)))
  {
    var s1 := Next(s, Join(a, true));
    var s2 := Next(s1, MarkDeleted(a));
    assert !InUse(s2, a);
    t := Next(s2, Begin(a, NotStarted));
    OneStep(Taken, s2, Begin(a, NotStarted));
    Before(Taken, s1, MarkDeleted(a), [Begin(a, NotStarted)], t);
    Before(Taken, s, Join(a, true), [MarkDeleted(a)] + [Begin(a, NotStarted)], t);
    steps := [Join(a, true)] + ([MarkDeleted(a)] + [Begin(a, NotStarted)]);
  }

  /** A pass interrupted between its first two writes leaves the pool without its
      advertisement, and the next member of the group does not announce it again. */
  lemma JoinFindsNoAdvertisement(s: State, a: Svc, b: Svc) returns (steps: seq<Step>, u: State)
    requires Initial(s) && s.metallb && a != b
    ensures Reaches(Taken, s, steps, u) && Enabled(u, Join(b, true)) && !Withdrawing(u) && !SafeJoin(u, Join(b, true))
    ensures Guarded(u) && MembersAreServed(u) && !MembersAreServed(Next(u, Join(b, true)))
  {
    var first, s1 := WithdrawalIsReachable(s, a);
    var s2 := Next(s1, Work);
    u := Next(s2, Interrupt);
    OneStep(Taken, s2, Interrupt);
    Before(Taken, s1, Work, [Interrupt], u);
    Then(Taken, s, first, s1, [Work] + [Interrupt], u);
    steps := first + ([Work] + [Interrupt]);
    assert Owed(Next(u, Join(b, true)), b);
  }

  /** Joining does not take the address's lock: a member that joins while the pool is
      being taken away is left without it. */
  lemma JoinDuringWithdrawalLosesThePool(s: State, a: Svc, b: Svc, grouped: bool)
    returns (steps: seq<Step>, u: State, t: State)
    requires Initial(s) && a != b
    ensures Reaches(Taken, s, steps, u) && Enabled(u, Join(b, grouped)) && Guarded(u) && MembersAreServed(u)
    ensures Withdrawing(u) && !SafeJoin(u, Join(b, grouped))
    ensures Reaches(Taken, Next(u, Join(b, grouped)), [Work, Work], t)
    ensures Member(t, b) && !t.pool && !MembersAreServed(t)
  {
    steps, u := WithdrawalIsReachable(s, a);
    var s1 := Next(u, Join(b, grouped));
    var s2 := Next(s1, Work);
    t := Next(s2, Work);
    OneStep(Taken, s2, Work);
    Before(Taken, s1, Work, [Work], t);
    assert [Work] + [Work] == [Work, Work];
    assert !InUse(u, a);
    assert Owed(t, b);
  }
}
