/** Claims on FloatingIPs by Services of different clusters: every step is one atomic
    update of a live object, and what matters is whether it was guarded. */
module Claims {
  import opened Common
  import opened Text
  import opened Registry
  import opened RegistryUpdates

  type Name = string

  datatype Request = Request(project: string, cluster: string, svc: Service, group: string)

  /** clusters remembers for every registration which cluster's request made it. */
  datatype Fip = Fip(labels: Labels, reg: Registrations, clusters: map<nat, string>)

  type State = map<Name, Fip>

  /** The precondition an update checks on the live object; sharing a group has none. */
  datatype Guard = ByCluster | ByRequest | Unguarded

  datatype Step =
    | Create(f: Name, request: Request)
    | Claim(f: Name, request: Request, guard: Guard, max: int)
    | Release(f: Name, svc: Service, after: Labels)
    | Strip(f: Name)

  function LabelOr(labels: Labels, key: string): string {
    if key in labels then labels[key] else ""
  }

  predicate ClaimableByCluster(labels: Labels, cluster: string) {
    LabelOr(labels, CLUSTER) == "" || LabelOr(labels, CLUSTER) == cluster
  }

  predicate ClaimableByRequest(labels: Labels, cluster: string, group: string) {
    || LabelOr(labels, CLUSTER) == ""
    || (group != "" && LabelOr(labels, CLUSTER) == cluster && LabelOr(labels, GROUP) == group)
  }

  predicate Passes(labels: Labels, request: Request, guard: Guard) {
    match guard
    case ByCluster => ClaimableByCluster(labels, request.cluster)
    case ByRequest => ClaimableByRequest(labels, request.cluster, request.group)
    case Unguarded => true
  }

  ghost predicate Enabled(s: State, step: Step) {
    match step
    case Create(f, _) => f !in s
    case Claim(f, r, guard, max) =>
      f in s && Passes(s[f].labels, r, guard) && IsGreatestId(s[f].labels, max) && max < MAX_INT
    case Release(f, svc, after) => f in s && IsReleased(s[f].labels, svc, after)
    case Strip(f) => f in s
  }

  function Without(reg: Registrations, svc: Service): Registrations {
    map id | id in reg && reg[id] != svc :: reg[id]
  }

  function ClaimedBy(fip: Fip, r: Request, max: int): Fip
    requires max >= -1
  {
    var labels := Applied(fip.labels, r.project, r.cluster, r.svc, r.group, IdAfter(max));
    if r.svc in fip.reg.Values then Fip(labels, fip.reg, fip.clusters)
    else Fip(labels, fip.reg[max + 1 := r.svc], fip.clusters[max + 1 := r.cluster])
  }

  function ReleasedFrom(fip: Fip, svc: Service, after: Labels): Fip {
    Fip(after, Without(fip.reg, svc),
        map id | id in fip.clusters && id in fip.reg && fip.reg[id] != svc :: fip.clusters[id])
  }

  ghost function Next(s: State, step: Step): State
    requires Enabled(s, step)
  {
    match step
    case Create(f, r) => s[f := ClaimedBy(Fip(map[], map[], map[]), r, -1)]
    case Claim(f, r, _, max) => s[f := ClaimedBy(s[f], r, max)]
    case Release(f, svc, after) => s[f := ReleasedFrom(s[f], svc, after)]
    case Strip(f) => s[f := Fip(Stripped(s[f].labels), map[], map[])]
  }

  /** Every service is registered by the one cluster that the cluster label names. */
  ghost predicate OneCluster(fip: Fip) {
    && fip.clusters.Keys == fip.reg.Keys
    && forall id :: id in fip.clusters ==> CLUSTER in fip.labels && fip.clusters[id] == fip.labels[CLUSTER]
  }

  ghost predicate Sound(fip: Fip) {
    WellKept(fip.labels, fip.reg) && OneCluster(fip)
  }

  ghost predicate Inv(s: State) {
    forall f :: f in s ==> Sound(s[f])
  }

  /** The live object must be unclaimed or claimed by the cluster of the request. */
  predicate Careful(s: State, step: Step) {
    step.Claim? && step.f in s && CLUSTER in s[step.f].labels ==> s[step.f].labels[CLUSTER] == step.request.cluster
  }

  lemma ClaimIsWellKept(fip: Fip, r: Request, max: int)
    requires WellKept(fip.labels, fip.reg) && IsGreatestId(fip.labels, max) && max < MAX_INT
    ensures WellKept(ClaimedBy(fip, r, max).labels, ClaimedBy(fip, r, max).reg)
  {
    var reg := ClaimRegisters(fip.labels, fip.reg, r.project, r.cluster, r.svc, r.group, max);
    hide Applied, IdAfter, IsGreatestId, Encodes, NoServiceTwice;
    assert r.svc in fip.reg.Values <==> exists id :: id in fip.reg && fip.reg[id] == r.svc;
    assert reg == ClaimedBy(fip, r, max).reg;
  }

  /** The claim is the request's cluster's, whoever had the others. */
  lemma ClaimsOneCluster(fip: Fip, r: Request, max: int)
    requires OneCluster(fip) && max >= -1 && (CLUSTER in fip.labels <==> fip.reg != map[])
    requires forall id :: id in fip.reg ==> id <= max
    ensures OneCluster(ClaimedBy(fip, r, max)) <==> CLUSTER !in fip.labels || fip.labels[CLUSTER] == r.cluster
  {
    hide Applied, IdAfter;
    var t := ClaimedBy(fip, r, max);
    ClaimNamesTheRest(fip.labels, r.project, r.cluster, r.svc, r.group, IdAfter(max));
    if CLUSTER in fip.labels {
      var id :| id in fip.reg;
      assert id in t.clusters && t.clusters[id] == fip.labels[CLUSTER];
    }
  }

  lemma ClaimIsExact(fip: Fip, r: Request, max: int)
    requires Sound(fip) && IsGreatestId(fip.labels, max) && max < MAX_INT
    ensures WellKept(ClaimedBy(fip, r, max).labels, ClaimedBy(fip, r, max).reg)
    ensures Sound(ClaimedBy(fip, r, max)) <==> CLUSTER !in fip.labels || fip.labels[CLUSTER] == r.cluster
  {
    GreatestIdIsRegistered(fip.labels, fip.reg, max);
    ClaimIsWellKept(fip, r, max);
    hide ClaimedBy, OneCluster, IsGreatestId, Encodes, NoServiceTwice;
    ClaimsOneCluster(fip, r, max);
  }

  lemma ReleaseKeepsTheCluster(labels: Labels, svc: Service, after: Labels)
    requires IsReleased(labels, svc, after) && CLUSTER in after
    ensures CLUSTER in labels && after[CLUSTER] == labels[CLUSTER]
  {
  }

  lemma ReleaseKeepsSound(fip: Fip, svc: Service, after: Labels)
    requires Sound(fip) && IsReleased(fip.labels, svc, after)
    ensures Sound(ReleasedFrom(fip, svc, after))
  {
    hide IsReleased, Encodes;
    var left := ReleaseUnregisters(fip.labels, fip.reg, svc, after);
    assert left == Without(fip.reg, svc);
    var t := ReleasedFrom(fip, svc, after);
    assert t.clusters.Keys == t.reg.Keys;
    if CLUSTER in after {
      ReleaseKeepsTheCluster(fip.labels, svc, after);
    } else {
      assert t.reg == map[];
    }
  }

  lemma NewFipIsSound(r: Request)
    ensures Sound(ClaimedBy(Fip(map[], map[], map[]), r, -1))
  {
    hide Applied;
    ClaimIsExact(Fip(map[], map[], map[]), r, -1);
  }

  /** The exact condition: a step keeps all services of a FloatingIP with one cluster if
      and only if it does not claim a live object that another cluster has. */
  lemma StepKeepsInvIff(s: State, step: Step)
    requires Inv(s) && Enabled(s, step)
    ensures Inv(Next(s, step)) <==> Careful(s, step)
  {
    hide Sound, ClaimedBy, ReleasedFrom, Stripped, IsReleased, IsGreatestId;
    var t := Next(s, step);
    assert Inv(t) <==> Sound(t[step.f]);
    match step
    case Create(f, r) => NewFipIsSound(r);
    case Claim(f, r, _, max) => ClaimIsExact(s[f], r, max);
    case Release(f, svc, after) => ReleaseKeepsSound(s[f], svc, after);
    case Strip(f) => StripIsSound(s[f]);
  }

  lemma StripIsSound(fip: Fip)
    requires Sound(fip)
    ensures Sound(Fip(Stripped(fip.labels), map[], map[]))
  {
    StrippingUnregistersAll(fip.labels, fip.reg);
  }

  // ---------------------------------------------------------------------- whole runs

  ghost predicate IsRun(trace: seq<State>, steps: seq<Step>) {
    && |trace| == |steps| + 1
    && forall i :: 0 <= i < |steps| ==> Enabled(trace[i], steps[i]) && trace[i + 1] == Next(trace[i], steps[i])
  }

  predicate NamesACluster(step: Step) {
    match step
    case Create(_, r) => r.cluster != ""
    case Claim(_, r, _, _) => r.cluster != ""
    case _ => true
  }

  ghost predicate ClustersHaveNames(s: State) {
    forall f :: f in s && CLUSTER in s[f].labels ==> s[f].labels[CLUSTER] != ""
  }

  lemma StepKeepsClusterNames(s: State, step: Step)
    requires ClustersHaveNames(s) && Enabled(s, step) && NamesACluster(step)
    ensures ClustersHaveNames(Next(s, step))
  {
    hide Applied, IsReleased, IsGreatestId, IdAfter, IsClaimKey;
    match step
    case Create(f, r) => ClaimNamesTheRest(map[], r.project, r.cluster, r.svc, r.group, IdAfter(-1));
    case Claim(f, r, _, max) => ClaimNamesTheRest(s[f].labels, r.project, r.cluster, r.svc, r.group, IdAfter(max));
    case Release(f, svc, after) =>
      if CLUSTER in after {
        ReleaseKeepsTheCluster(s[f].labels, svc, after);
      }
    case Strip(f) =>
  }

  /** A FloatingIP that a cluster claimed is there for that cluster's requests, and unpinned
      ones must be of its group: the claim's or, if that names none, the one before. */
  lemma ClaimAdmitsItsGroup(fip: Fip, r: Request, max: int, other: Request)
    requires max >= -1
    ensures var labels := ClaimedBy(fip, r, max).labels;
      var group := if r.group != "" then r.group else if GROUP in fip.labels then fip.labels[GROUP] else "";
      && (Passes(labels, other, ByCluster) <==> r.cluster in {"", other.cluster})
      && (Passes(labels, other, ByRequest) <==>
            r.cluster == "" || (r.cluster == other.cluster && group != "" && group == other.group))
  {
    hide Applied, IdAfter;
    ClaimNamesTheRest(fip.labels, r.project, r.cluster, r.svc, r.group, IdAfter(max));
  }

  /** While services remain, a release changes nothing for whom the FloatingIP is there;
      after the last one it is there for everybody. */
  lemma ReleaseReopensIff(labels: Labels, reg: Registrations, svc: Service, after: Labels, r: Request, guard: Guard)
    requires WellKept(labels, reg) && IsReleased(labels, svc, after)
    ensures Passes(after, r, guard) <==>
      Passes(labels, r, guard) || forall id :: id in reg ==> reg[id] == svc
  {
    var left := ReleaseUnregisters(labels, reg, svc, after);
    OtherKeys();
    hide HasPrefix, IsReleased, WellKept;
    if left != map[] {
      assert Unchanged(labels, after, CLUSTER) && Unchanged(labels, after, GROUP);
      var id :| id in left;
      assert id in reg && reg[id] != svc;
    } else {
      assert forall id :: id in reg && reg[id] != svc ==> id in left;
    }
  }

  /** Sharing a group has no guard, but finds on the live object the cluster label that the
      list showed, unless the FloatingIP changed hands in between. */
  predicate FindsItsCluster(s: State, step: Step) {
    step.Claim? && step.guard == Unguarded && step.f in s ==> LabelOr(s[step.f].labels, CLUSTER) == step.request.cluster
  }

  /** However the requests of different clusters interleave with releases and with the
      deletion of clusters, guarded claims, and group sharing as good as one step, keep
      the services of every FloatingIP with the one cluster it names, and list no service
      twice. */
  lemma {:induction false} GuardedClaimsKeepOneCluster(trace: seq<State>, steps: seq<Step>, n: nat)
    requires IsRun(trace, steps) && n < |trace| && trace[0] == map[]
    requires forall i :: 0 <= i < n ==> NamesACluster(steps[i]) && FindsItsCluster(trace[i], steps[i])
    ensures Inv(trace[n]) && ClustersHaveNames(trace[n])
  {
    hide Next, Enabled;
    if n > 0 {
      GuardedClaimsKeepOneCluster(trace, steps, n - 1);
      FindingIsCareful(trace[n - 1], steps[n - 1]);
      StepKeepsInvIff(trace[n - 1], steps[n - 1]);
      StepKeepsClusterNames(trace[n - 1], steps[n - 1]);
    }
  }

  lemma FindingIsCareful(s: State, step: Step)
    requires ClustersHaveNames(s) && Enabled(s, step) && FindsItsCluster(s, step)
    ensures Careful(s, step)
  {
  }

  // ---------------------------------------------------------------- sharing a group

  lemma RegisteredIsGreatest(labels: Labels, reg: Registrations, max: int)
    requires Encodes(labels, reg) && (if reg == map[] then max == -1 else max in reg)
    requires forall id :: id in reg ==> id <= max
    ensures IsGreatestId(labels, max)
  {
    hide NameKey, NamespaceKey, Itoa, Atoi;
    forall key | key in labels && IsNameKey(key)
      ensures Atoi(IdOf(key)).Some? ==> Atoi(IdOf(key)).value <= max
    {
      var id := NameKeyIsSomeones(labels, reg, key);
      AtoiUndoesItoa(id);
    }
    if max >= 0 {
      assert Holds(labels, max, reg[max]);
      NameKeyFacts(Itoa(max));
      AtoiUndoesItoa(max);
    }
  }

  lemma FirstClaim(labels: Labels, r: Request)
    requires WellKept(labels, map[])
    ensures IsGreatestId(labels, -1)
    ensures var t := ClaimedBy(Fip(labels, map[], map[]), r, -1);
      && WellKept(t.labels, map[0 := r.svc]) && t.reg == map[0 := r.svc]
      && CLUSTER in t.labels && t.labels[CLUSTER] == r.cluster
      && IsGreatestId(t.labels, 0)
  {
    hide Applied, Encodes, IsGreatestId, IdAfter;
    RegisteredIsGreatest(labels, map[], -1);
    var reg := ClaimRegisters(labels, map[], r.project, r.cluster, r.svc, r.group, -1);
    assert reg == map[0 := r.svc];
    ClaimNamesTheRest(labels, r.project, r.cluster, r.svc, r.group, IdAfter(-1));
    RegisteredIsGreatest(Applied(labels, r.project, r.cluster, r.svc, r.group, IdAfter(-1)), reg, 0);
  }

  /** Sharing a group is not guarded, and between its list and its update the FloatingIP
      can change hands: released by the listed cluster, claimed by another one, it then
      gets a service of the first again. */
  lemma ReuseAfterHandoverMixesClusters(f: Name, first: Request, next: Request, again: Request) returns (after: Labels)
    requires first.cluster == again.cluster != next.cluster && first.cluster != "" && next.cluster != ""
    ensures Enabled(map[], Create(f, first))
    ensures var listed := Next(map[], Create(f, first));
      && listed[f].labels[CLUSTER] == again.cluster
      && Enabled(listed, Release(f, first.svc, after))
      && var free := Next(listed, Release(f, first.svc, after));
         && Enabled(free, Claim(f, next, ByRequest, -1))
         && var taken := Next(free, Claim(f, next, ByRequest, -1));
            && Enabled(taken, Claim(f, again, Unguarded, 0))
            && !Careful(taken, Claim(f, again, Unguarded, 0))
            && !Inv(Next(taken, Claim(f, again, Unguarded, 0)))
  {
    hide Applied, Encodes, IsReleased, IsGreatestId, IdAfter;
    EmptyIsWellKept();
    FirstClaim(map[], first);
    var listed := Next(map[], Create(f, first));
    after := SomeRelease(listed[f].labels, first.svc);
    var left := ReleaseUnregisters(listed[f].labels, listed[f].reg, first.svc, after);
    assert left == map[];
    var free := Next(listed, Release(f, first.svc, after));
    assert free[f].reg == map[];
    assert free[f].clusters == map[];
    FirstClaim(after, next);
    var taken := Next(free, Claim(f, next, ByRequest, -1));
    assert Sound(taken[f]) by {
      NewFipIsSound(first);
      ReleaseKeepsSound(listed[f], first.svc, after);
      ClaimIsExact(free[f], next, -1);
    }
    StepKeepsInvIff(taken, Claim(f, again, Unguarded, 0));
  }

  lemma EmptyIsWellKept()
    ensures WellKept(map[], map[])
  {
  }

  lemma SomeRelease(labels: Labels, svc: Service) returns (after: Labels)
    ensures IsReleased(labels, svc, after)
  {
    if AlreadyExists(labels, svc) {
      var key :| key in labels && IsPair(labels, key, svc);
      after := Tidied(Unregister(labels, key));
    } else {
      after := Tidied(labels);
    }
  }
}
