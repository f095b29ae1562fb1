/** The deletion branch of the load balancer controller's reconcile, against the
    cluster it writes to. */
module LbCleaner {
  import opened Common
  import opened LbDeletion
  import opened Runs

  /** The state after k writes of the pass, or after all there are. */
  function Worked(s: State, k: nat): State
    decreases k
  {
    if k == 0 || s.pass.None? then s else Worked(AfterWork(s, s.pass.value.svc, s.pass.value.todo), k - 1)
  }

  lemma {:induction false} WorkedOnce(s: State, k: nat)
    requires Worked(s, k).pass.Some?
    ensures Worked(s, k + 1) == var t := Worked(s, k); AfterWork(t, t.pass.value.svc, t.pass.value.todo)
    decreases k
  {
    if k > 0 {
      WorkedOnce(AfterWork(s, s.pass.value.svc, s.pass.value.todo), k - 1);
    }
  }

  function Begun(s: State, f: Svc, progress: Stage): State {
    s.(pass := Some(Pass(f, FirstTodo(progress, InUse(s, f)))))
  }

  /** How many writes a pass still has to do. */
  function Needed(todo: Todo): nat {
    match todo
    case WithdrawAdvertisement => 7
    case DeletePool => 6
    case RecordDeleted => 5
    case Release => 4
    case RecordReleased => 3
    case DropRecords => 2
    case RemoveFinalizer => 1
  }

  /** A pass is finished exactly when it has done these. */
  lemma {:induction false} FinishedIff(s: State, k: nat)
    requires s.pass.Some?
    ensures Worked(s, k).pass.None? <==> k >= Needed(s.pass.value.todo)
    decreases k
  {
    var t := AfterWork(s, s.pass.value.svc, s.pass.value.todo);
    if k > 0 && t.pass.Some? {
      FinishedIff(t, k - 1);
    }
  }

  function Min(a: nat, b: nat): nat {
    if a < b then a else b
  }

  /** The cluster that a pass leaves when it is cut off after this many writes. */
  function LeftAfter(s: State, f: Svc, progress: Stage, attempts: nat): State {
    Worked(Begun(s, f, progress), Min(attempts, Needed(Begun(s, f, progress).pass.value.todo))).(pass := None)
  }

  /** That is what a run of the protocol leaves: the beginning of the pass, its writes, and
      the interruption if there are more to come. */
  lemma PassIsARun(s: State, f: Svc, copy: Stage, attempts: nat) returns (steps: seq<Step>)
    requires Enabled(s, Begin(f, copy))
    ensures Reaches(Taken, s, steps, LeftAfter(s, f, copy, attempts))
  {
    var start := Begun(s, f, copy);
    assert Next(s, Begin(f, copy)) == start;
    var rest := WritesAreARun(start, Min(attempts, Needed(start.pass.value.todo)));
    Before(Taken, s, Begin(f, copy), rest, LeftAfter(s, f, copy, attempts));
    steps := [Begin(f, copy)] + rest;
  }

  lemma {:induction false} WritesAreARun(s: State, k: nat) returns (steps: seq<Step>)
    ensures Reaches(Taken, s, steps, Worked(s, k).(pass := None))
    decreases k
  {
    if s.pass.None? {
      steps := [];
    } else if k == 0 {
      OneStep(Taken, s, Interrupt);
      steps := [Interrupt];
    } else {
      var rest := WritesAreARun(Next(s, Work), k - 1);
      Before(Taken, s, Work, rest, Worked(s, k).(pass := None));
      steps := [Work] + rest;
    }
  }

  /** What the writes change that take a pass from some number of writes ahead of it to
      another: the seventh withdraws the advertisement, and so on down. */
  ghost predicate Changes(s: State, t: State, f: Svc, n: nat, left: nat) {
    && t.metallb == s.metallb
    && t.advertised == (s.advertised && !(left < 7 <= n)) && t.pool == (s.pool && !(left < 6 <= n))
    && t.claims == (if left < 4 <= n then s.claims - {f} else s.claims)
    && t.services - {f} == s.services - {f} && (f in t.services <==> f in s.services)
    && (f in s.services ==> Records(s.services[f], t.services[f], n, left))
  }

  predicate Records(o: Service, w: Service, n: nat, left: nat) {
    && w.labelled == o.labelled && w.loadBalancer == o.loadBalancer && w.deleting == o.deleting
    && w.annotated == (o.annotated && !(left < 2 <= n)) && w.finalizer == (o.finalizer && !(left < 1 <= n))
    && w.progress == (if left < 2 <= n then NotStarted else if left < 3 <= n then Released
                      else if left < 5 <= n then ResourcesDeleted else o.progress)
  }

  lemma OneWriteChanges(s: State)
    requires s.pass.Some?
    ensures var n, t := Needed(s.pass.value.todo), AfterWork(s, s.pass.value.svc, s.pass.value.todo);
      && Changes(s, t, s.pass.value.svc, n, n - 1)
      && (if n == 1 then t.pass.None?
          else t.pass.Some? && t.pass.value.svc == s.pass.value.svc && Needed(t.pass.value.todo) == n - 1)
  {
  }

  lemma ChangesAddUp(s: State, t: State, u: State, f: Svc, n: nat, left: nat, rest: nat)
    requires rest <= left <= n && Changes(s, t, f, n, left) && Changes(t, u, f, left, rest)
    ensures Changes(s, u, f, n, rest)
  {
  }

  lemma {:induction false} WorkedChanges(s: State, k: nat)
    requires s.pass.Some? && k <= Needed(s.pass.value.todo)
    ensures Changes(s, Worked(s, k), s.pass.value.svc, Needed(s.pass.value.todo), Needed(s.pass.value.todo) - k)
    decreases k
  {
    var n, t := Needed(s.pass.value.todo), AfterWork(s, s.pass.value.svc, s.pass.value.todo);
    if k > 0 {
      OneWriteChanges(s);
      hide AfterWork, Needed, Changes;
      if n > 1 {
        WorkedChanges(t, k - 1);
        ChangesAddUp(s, t, Worked(s, k), s.pass.value.svc, n, n - 1, n - k);
      }
    }
  }

  lemma PassChanges(s: State, f: Svc, progress: Stage, attempts: nat)
    ensures var total := Needed(FirstTodo(progress, InUse(s, f)));
      Changes(s, LeftAfter(s, f, progress, attempts), f, total, total - Min(attempts, total))
  {
    hide Needed, Worked, InUse, FirstTodo;
    var start := Begun(s, f, progress);
    WorkedChanges(start, Min(attempts, Needed(start.pass.value.todo)));
  }

  /** What a pass leaves that is cut off after some of its writes. The pool goes only if no
      pass took it away before and no other load balancer Service records the address or,
      unless it is being deleted, claims it or is selected by the pool. */
  lemma PassLeaves(s: State, f: Svc, progress: Stage, attempts: nat)
    ensures var t := LeftAfter(s, f, progress, attempts);
      var withdraws := progress == NotStarted &&
        forall g :: g in s.services && g != f && s.services[g].loadBalancer ==>
          && !s.services[g].annotated
          && (s.services[g].deleting || (g !in s.claims && !(s.metallb && s.pool && s.services[g].labelled)));
      var total := if progress == Released then 2 else if withdraws then 7 else 4;
      && Needed(FirstTodo(progress, InUse(s, f))) == total
      && t.advertised == (s.advertised && !(withdraws && attempts >= 1))
      && t.pool == (s.pool && !(withdraws && attempts >= 2))
      && t.claims == (if progress != Released && attempts > total - 4 then s.claims - {f} else s.claims)
      && t.services - {f} == s.services - {f} && (f in t.services <==> f in s.services)
      && (f in s.services ==> var o, w := s.services[f], t.services[f];
            && w.labelled == o.labelled && w.loadBalancer == o.loadBalancer && w.deleting == o.deleting
            && w.annotated == (o.annotated && attempts < total - 1)
            && w.finalizer == (o.finalizer && attempts < total)
            && w.progress ==
                 if attempts >= total - 1 then NotStarted
                 else if progress != Released && attempts == total - 2 then Released
                 else if withdraws && attempts >= 3 then ResourcesDeleted else o.progress)
  {
    UnusedIff(s, f);
    PassChanges(s, f, progress, attempts);
    hide InUse, LeftAfter;
  }

  class Cleaner {
    const metallb: bool
    var services: map<Svc, Service>
    var claims: set<Svc>
    var pool: bool
    var advertised: bool
    /** How many more writes reach the cluster before the pass is cut off. */
    var attempts: nat

    /** The cluster while no pass runs. */
    ghost function Cluster(): State
      reads this
    {
      State(metallb, services, claims, pool, advertised, None)
    }

    /** Another Service that records the address and can still use it. */
    method AddressInUse(f: Svc) returns (inUse: bool)
      ensures inUse <==> exists g :: g != f && Member(Cluster(), g)
    {
      var rest := services.Keys;
      while rest != {}
        invariant rest <= services.Keys
        invariant forall g :: g in services && g !in rest && g != f ==> !Member(Cluster(), g)
        decreases rest
      {
        var g :| g in rest;
        rest := rest - {g};
        if g != f && services[g].annotated && services[g].loadBalancer {
          assert Member(Cluster(), g);
          return true;
        }
      }
      return false;
    }

    ghost predicate SelectedOrClaims(g: Svc)
      reads this
    {
      && g in services && services[g].loadBalancer && !services[g].deleting
      && (g in claims || (metallb && pool && services[g].labelled))
    }

    ghost predicate Selected(g: Svc)
      reads this
    {
      g in services && services[g].loadBalancer && !services[g].deleting && services[g].labelled
    }

    /** The pool still selects another live Service. */
    method PoolSelects(f: Svc) returns (inUse: bool)
      ensures inUse <==> metallb && pool && exists g :: g != f && Selected(g)
    {
      if !metallb || !pool {
        return false;
      }
      var rest := services.Keys;
      while rest != {}
        invariant rest <= services.Keys
        invariant forall g :: g !in rest && g != f ==> !Selected(g)
        decreases rest
      {
        var g :| g in rest;
        rest := rest - {g};
        if g != f && services[g].loadBalancer && !services[g].deleting && services[g].labelled {
          assert Selected(g);
          return true;
        }
      }
      return false;
    }

    /** The IPAM still lists the address for another live Service. */
    method SharedPoolInUse(f: Svc) returns (inUse: bool)
      ensures inUse <==> exists g :: g != f && SelectedOrClaims(g)
    {
      inUse := PoolSelects(f);
      if inUse {
        ghost var g :| g != f && Selected(g);
        assert SelectedOrClaims(g);
        return;
      }
      var rest := claims;
      while rest != {}
        invariant rest <= claims
        invariant forall g :: g in claims && g !in rest && g != f ==> !SelectedOrClaims(g)
        decreases rest
      {
        var g :| g in rest;
        rest := rest - {g};
        if g != f && g in services && !services[g].deleting && services[g].loadBalancer {
          assert SelectedOrClaims(g);
          return true;
        }
      }
      forall g | g != f && g !in claims
        ensures !SelectedOrClaims(g)
      {
        assert metallb && pool ==> !Selected(g);
      }
    }

    method Shared(f: Svc) returns (shared: bool)
      ensures shared == InUse(Cluster(), f)
    {
      shared := AddressInUse(f);
      if !shared {
        shared := SharedPoolInUse(f);
      }
      assert forall g :: Keeps(Cluster(), g) <==> Member(Cluster(), g) || SelectedOrClaims(g);
      if shared {
        ghost var g :| g != f && Keeps(Cluster(), g);
        assert g in services;
      }
    }

    /** One write to the cluster, which may be the one that the pass dies before. */
    method Write(f: Svc, todo: Todo) returns (ok: bool)
      modifies this
      ensures ok == (old(attempts) > 0)
      ensures attempts == old(attempts) - if ok then 1 else 0
      ensures Cluster() == if ok then AfterWork(old(Cluster()), f, todo).(pass := None) else old(Cluster())
    {
      if attempts == 0 {
        return false;
      }
      attempts := attempts - 1;
      match todo {
        case WithdrawAdvertisement => advertised := false;
        case DeletePool => pool := false;
        case Release => claims := claims - {f};
        case _ => UpdateService(f, todo);
      }
      return true;
    }

    method UpdateService(f: Svc, todo: Todo)
      modifies this`services
      ensures services ==
        if f in old(services) then old(services)[f := Written(old(services)[f], todo)] else old(services)
    {
      if f in services {
        var current := services[f];
        match todo {
          case RecordDeleted => current := current.(progress := ResourcesDeleted);
          case RecordReleased => current := current.(progress := Released);
          case DropRecords => current := current.(annotated := false, progress := NotStarted);
          case RemoveFinalizer => current := current.(finalizer := false);
          case _ =>
        }
        services := services[f := current];
      }
    }

    /** Writes what the pass has to do next, and follows it in the model. */
    method Do(f: Svc, todo: Todo, ghost start: State, ghost k: nat) returns (ok: bool)
      requires Worked(start, k).pass == Some(Pass(f, todo)) && Cluster() == Worked(start, k).(pass := None)
      modifies this
      ensures ok == (old(attempts) > 0)
      ensures attempts == old(attempts) - if ok then 1 else 0
      ensures Cluster() == Worked(start, if ok then k + 1 else k).(pass := None)
      ensures ok ==> Worked(start, k + 1) == AfterWork(Worked(start, k), f, todo)
    {
      WorkedOnce(start, k);
      ok := Write(f, todo);
    }

    /** The advertisement goes first, so that no address is announced without a pool. */
    method Withdraw(f: Svc, ghost start: State) returns (ok: bool, ghost writes: nat)
      requires start.pass == Some(Pass(f, WithdrawAdvertisement)) && Cluster() == start.(pass := None)
      modifies this
      ensures ok == (old(attempts) >= 3) && writes == Min(old(attempts), 3) && attempts == old(attempts) - writes
      ensures Cluster() == Worked(start, writes).(pass := None)
      ensures if ok then Worked(start, writes).pass == Some(Pass(f, Release)) else Worked(start, writes).pass.Some?
    {
      writes := 0;
      ok := Do(f, WithdrawAdvertisement, start, 0);
      if ok {
        writes := 1;
        ok := Do(f, DeletePool, start, 1);
        if ok {
          writes := 2;
          ok := Do(f, RecordDeleted, start, 2);
          if ok {
            writes := 3;
          }
        }
      }
    }

    /** Drops the records, and only then the finalizer. */
    method Finish(f: Svc, ghost start: State, ghost before: nat) returns (ok: bool, ghost writes: nat)
      requires Worked(start, before).pass == Some(Pass(f, DropRecords))
      requires Cluster() == Worked(start, before).(pass := None)
      modifies this
      ensures ok == (old(attempts) >= 2) && writes == before + Min(old(attempts), 2)
      ensures attempts == old(attempts) - (writes - before)
      ensures Cluster() == Worked(start, writes).(pass := None) && ok == Worked(start, writes).pass.None?
    {
      writes := before;
      ok := Do(f, DropRecords, start, writes);
      if ok {
        writes := writes + 1;
        ok := Do(f, RemoveFinalizer, start, writes);
        if ok {
          writes := writes + 1;
        }
      }
    }

    method GiveBack(f: Svc, ghost start: State, ghost before: nat) returns (ok: bool, ghost writes: nat)
      requires Worked(start, before).pass == Some(Pass(f, Release)) && Cluster() == Worked(start, before).(pass := None)
      modifies this
      ensures ok == (old(attempts) >= 2) && writes == before + Min(old(attempts), 2)
      ensures attempts == old(attempts) - (writes - before) && Cluster() == Worked(start, writes).(pass := None)
      ensures if ok then Worked(start, writes).pass == Some(Pass(f, DropRecords)) else Worked(start, writes).pass.Some?
    {
      writes := before;
      ok := Do(f, Release, start, writes);
      if ok {
        writes := writes + 1;
        ok := Do(f, RecordReleased, start, writes);
        if ok {
          writes := writes + 1;
        }
      }
    }

    /** Resumes where an earlier pass got to, once the decision about the pool was made. It
        is finished exactly when all the writes that it has to do reach the cluster. */
    method Resume(f: Svc, progress: Stage, shared: bool) returns (ok: bool)
      modifies this
      ensures var start := old(Cluster()).(pass := Some(Pass(f, FirstTodo(progress, shared))));
        var needed := Needed(FirstTodo(progress, shared));
        && Cluster() == Worked(start, Min(old(attempts), needed)).(pass := None)
        && ok == (old(attempts) >= needed) && attempts == old(attempts) - Min(old(attempts), needed)
    {
      hide Worked;
      var released := Reached(progress, Released);
      var resourcesDeleted := Reached(progress, ResourcesDeleted);
      ghost var start := Cluster().(pass := Some(Pass(f, FirstTodo(progress, shared))));
      NothingWorked(start);
      ghost var writes := 0;
      if !released && !shared && !resourcesDeleted {
        ok, writes := Withdraw(f, start);
        if !ok {
          return;
        }
      }
      if !released {
        ok, writes := GiveBack(f, start, writes);
        if !ok {
          return;
        }
      }
      ok, writes := Finish(f, start, writes);
    }

    /** A deletion pass that sees the recorded progress: it decides about the pool once
        and then resumes; cut off, it leaves what the writes before left. */
    method DeletePass(f: Svc, progress: Stage) returns (ok: bool)
      modifies this
      ensures Cluster() == LeftAfter(old(Cluster()), f, progress, old(attempts))
      ensures var needed := Needed(FirstTodo(progress, InUse(old(Cluster()), f)));
        ok == (old(attempts) >= needed) && attempts == old(attempts) - Min(old(attempts), needed)
      ensures var withdraws := progress == NotStarted &&
          forall g :: g in old(services) && g != f && old(services)[g].loadBalancer ==>
            && !old(services)[g].annotated
            && (old(services)[g].deleting
                || (g !in old(claims) && !(metallb && old(pool) && old(services)[g].labelled)));
        var total := if progress == Released then 2 else if withdraws then 7 else 4;
        && ok == (old(attempts) >= total)
        && advertised == (old(advertised) && !(withdraws && old(attempts) >= 1))
        && pool == (old(pool) && !(withdraws && old(attempts) >= 2))
        && claims == (if progress != Released && old(attempts) > total - 4 then old(claims) - {f} else old(claims))
        && services - {f} == old(services) - {f}
        && (ok && f in old(services) ==>
              f in services && !services[f].annotated && !services[f].finalizer && services[f].progress == NotStarted)
    {
      hide Worked, InUse;
      PassLeaves(Cluster(), f, progress, attempts);
      var shared := Shared(f);
      ok := Resume(f, progress, shared);
    }
  }

  lemma NothingWorked(s: State)
    ensures Worked(s, 0) == s
  {
  }
}
