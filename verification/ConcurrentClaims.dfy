/** Claims and releases as guarded updates that interleave: what the label registry
    keeps when requests of different clusters race for one FloatingIP. */
module ConcurrentClaims {
  import opened Common
  import opened Text
  import opened Registry
  import opened RegistryUpdates
  import opened Claims
  import Updates

  /** What a caller of the guarded update wants. */
  datatype Intent = Claiming(request: Request, guard: Guard) | Releasing(svc: Service)

  lemma {:induction false} GreatestIdExists(labels: Labels) returns (max: int)
    ensures IsGreatestId(labels, max)
    decreases |labels|
  {
    hide IsNameKey, IdOf;
    if labels == map[] {
      max := -1;
    } else {
      var key :| key in labels;
      assert |(labels - {key}).Keys| < |labels.Keys|;
      max := GreatestIdExists(labels - {key});
      if IsNameKey(key) && Atoi(IdOf(key)).Some? && Atoi(IdOf(key)).value > max {
        max := Atoi(IdOf(key)).value;
      }
    }
  }

  ghost function GreatestId(labels: Labels): (max: int)
    ensures IsGreatestId(labels, max)
  {
    assert exists max :: IsGreatestId(labels, max) by {
      var max := GreatestIdExists(labels);
    }
    var max :| IsGreatestId(labels, max);
    max
  }

  ghost function ReleasedLabels(labels: Labels, svc: Service): (after: Labels)
    ensures IsReleased(labels, svc, after)
  {
    assert exists after :: IsReleased(labels, svc, after) by {
      var after := SomeRelease(labels, svc);
    }
    var after :| IsReleased(labels, svc, after);
    after
  }

  ghost function Claimed(labels: Labels, r: Request): Labels {
    Applied(labels, r.project, r.cluster, r.svc, r.group, IdAfter(GreatestId(labels)))
  }

  ghost function CallOf(intent: Intent): Updates.Call {
    match intent
    case Claiming(r, guard) => Updates.Call(labels => Passes(labels, r, guard), labels => Claimed(labels, r))
    case Releasing(svc) => Updates.Call(labels => true, labels => ReleasedLabels(labels, svc))
  }

  /** Guarded claims of named clusters, and releases. */
  predicate IsGuarded(intent: Intent) {
    intent.Claiming? ==> intent.guard != Unguarded && intent.request.cluster != ""
  }

  ghost predicate Kept(labels: Labels) {
    exists reg :: WellKept(labels, reg)
  }

  /** What others do to the labels: nothing, strip a deleted cluster's claims, delete
      the object, or create one. */
  ghost predicate IsHarmless(c: Updates.Commit) {
    match c.after
    case None => true
    case Some(after) =>
      if c.before.Some? then after == c.before.value || after == Stripped(c.before.value) else Kept(after)
  }

  predicate NumbersLeft(labels: Labels) {
    NameKey(Itoa(MAX_INT)) !in labels
  }

  /** Every call is what its intent says, and nobody else interferes with claims. */
  ghost predicate IsOrderly(s: Updates.State, intents: map<Updates.Id, Intent>) {
    && (forall id :: id in s.calls ==>
          id in intents && IsGuarded(intents[id]) && s.calls[id].call == CallOf(intents[id]))
    && (forall i :: 0 <= i < |s.log| && s.log[i].author.None? ==> IsHarmless(s.log[i]))
    && (forall i :: 0 <= i < |s.log| && s.log[i].before.Some? ==> NumbersLeft(s.log[i].before.value))
  }

  // ----------------------------------------------------------------------- one commit

  lemma NumbersAreLeft(labels: Labels, reg: Registrations)
    requires Encodes(labels, reg) && NumbersLeft(labels)
    ensures GreatestId(labels) < MAX_INT
  {
    hide NameKey, Itoa, IsGreatestId;
    var max := GreatestId(labels);
    GreatestIdIsRegistered(labels, reg, max);
    assert max <= MAX_INT by { GreatestIdIsBounded(labels, max); }
  }

  lemma GreatestIdIsBounded(labels: Labels, max: int)
    requires IsGreatestId(labels, max)
    ensures -1 <= max <= MAX_INT
  {
  }

  lemma ClaimRegistersIt(labels: Labels, reg: Registrations, r: Request) returns (after: Registrations)
    requires WellKept(labels, reg) && NumbersLeft(labels)
    ensures WellKept(Claimed(labels, r), after) && exists id :: id in after && after[id] == r.svc
  {
    hide Encodes, Applied, IdAfter, AlreadyExists, NumbersLeft, IsGreatestId;
    NumbersAreLeft(labels, reg);
    var max := GreatestId(labels);
    GreatestIdIsBounded(labels, max);
    after := ClaimRegisters(labels, reg, r.project, r.cluster, r.svc, r.group, max);
    if !exists id :: id in reg && reg[id] == r.svc {
      var id: nat := max + 1;
      assert after[id] == r.svc;
    }
  }

  lemma ClaimKeepsRegistry(labels: Labels, r: Request)
    requires Kept(labels) && NumbersLeft(labels)
    ensures Kept(Claimed(labels, r)) && AlreadyExists(Claimed(labels, r), r.svc)
    ensures CLUSTER in Claimed(labels, r) && Claimed(labels, r)[CLUSTER] == r.cluster
  {
    hide Encodes, Applied, IdAfter, AlreadyExists, NumbersLeft, NoServiceTwice;
    var reg :| WellKept(labels, reg);
    var after := ClaimRegistersIt(labels, reg, r);
    ClaimNamesTheRest(labels, r.project, r.cluster, r.svc, r.group, IdAfter(GreatestId(labels)));
    ExistsIffRegistered(Claimed(labels, r), after, r.svc);
  }

  lemma ReleaseKeepsRegistry(labels: Labels, svc: Service)
    requires Kept(labels)
    ensures Kept(ReleasedLabels(labels, svc))
  {
    hide Encodes, IsReleased;
    var reg :| WellKept(labels, reg);
    var left := ReleaseUnregisters(labels, reg, svc, ReleasedLabels(labels, svc));
  }

  lemma ListedHasCluster(labels: Labels, svc: Service)
    requires Kept(labels) && AlreadyExists(labels, svc)
    ensures CLUSTER in labels
  {
    hide Encodes, AlreadyExists;
    var reg :| WellKept(labels, reg);
    ExistsIffRegistered(labels, reg, svc);
  }

  lemma StripKeepsRegistry(labels: Labels, svc: Service)
    requires Kept(labels)
    ensures Kept(Stripped(labels)) && !AlreadyExists(Stripped(labels), svc)
  {
    hide Encodes, Stripped, AlreadyExists;
    var reg :| WellKept(labels, reg);
    StrippingUnregistersAll(labels, reg);
    ExistsIffRegistered(Stripped(labels), map[], svc);
  }

  /** What a commit of an orderly run makes of the labels it finds. */
  ghost predicate Effect(c: Updates.Commit, intents: map<Updates.Id, Intent>) {
    if c.author.Some? then
      && c.author.value in intents && IsGuarded(intents[c.author.value])
      && c.before.Some? && c.after.Some? && NumbersLeft(c.before.value)
      && match intents[c.author.value]
         case Claiming(r, guard) => Passes(c.before.value, r, guard) && c.after.value == Claimed(c.before.value, r)
         case Releasing(svc) => c.after.value == ReleasedLabels(c.before.value, svc)
    else IsHarmless(c)
  }

  lemma CommitsHaveEffect(s: Updates.State, intents: map<Updates.Id, Intent>, i: nat)
    requires Updates.Inv(s) && IsOrderly(s, intents) && i < |s.log|
    ensures Effect(s.log[i], intents)
  {
    hide Claimed, ReleasedLabels, Passes;
    assert Updates.IsAtomic(s.calls, s.log[i]);
  }

  ghost predicate KeptIfAny(labels: Option<Labels>) {
    labels.Some? ==> Kept(labels.value)
  }

  lemma CommitKeepsRegistry(c: Updates.Commit, intents: map<Updates.Id, Intent>)
    requires Effect(c, intents) && KeptIfAny(c.before)
    ensures KeptIfAny(c.after)
  {
    hide Claimed, ReleasedLabels, Stripped, Kept, Passes, NumbersLeft;
    if c.author.Some? {
      match intents[c.author.value]
      case Claiming(r, _) => ClaimKeepsRegistry(c.before.value, r);
      case Releasing(svc) => ReleaseKeepsRegistry(c.before.value, svc);
    } else if c.before.Some? && c.after.Some? {
      StripKeepsRegistry(c.before.value, Service("", ""));
    }
  }

  /** While a service stays listed, no commit can change the cluster. */
  lemma CommitKeepsCluster(c: Updates.Commit, intents: map<Updates.Id, Intent>, svc: Service)
    requires Effect(c, intents) && KeptIfAny(c.before) && c.before.Some? && c.after.Some?
    requires AlreadyExists(c.before.value, svc) && AlreadyExists(c.after.value, svc)
    requires CLUSTER in c.before.value && c.before.value[CLUSTER] != ""
    ensures CLUSTER in c.after.value && c.after.value[CLUSTER] == c.before.value[CLUSTER]
  {
    hide Claimed, ReleasedLabels, Stripped, Kept, NumbersLeft, AlreadyExists, IsReleased;
    CommitKeepsRegistry(c, intents);
    ListedHasCluster(c.after.value, svc);
    if c.author.Some? {
      match intents[c.author.value]
      case Claiming(r, _) => ClaimKeepsRegistry(c.before.value, r);
      case Releasing(other) => ReleaseKeepsTheCluster(c.before.value, other, c.after.value);
    } else {
      StripKeepsRegistry(c.before.value, svc);
    }
  }

  // ----------------------------------------------------------------------- whole runs

  lemma {:induction false} LogStartsThere(trace: seq<Updates.State>, steps: seq<Updates.Step>, n: nat)
    requires Updates.IsRun(trace, steps) && n < |trace| && Updates.Initial(trace[0])
    ensures var s, first := trace[n], Updates.ValueOf(trace[0].current);
      if s.log == [] then Updates.ValueOf(s.current) == first else s.log[0].before == first
  {
    if n > 0 {
      LogStartsThere(trace, steps, n - 1);
      StepExtendsLog(trace[n - 1], steps[n - 1]);
    }
  }

  lemma StepExtendsLog(s: Updates.State, step: Updates.Step)
    requires Updates.Enabled(s, step)
    ensures var t := Updates.Next(s, step);
      || (t.log == s.log && t.current == s.current)
      || (|t.log| == |s.log| + 1 && t.log[..|s.log|] == s.log && t.log[|s.log|].before == Updates.ValueOf(s.current))
  {
  }

  /** Every content the labels ever have encodes a registry without duplicates, with a
      cluster label exactly when a service is registered. */
  lemma {:induction false} EveryContentIsKept(
        trace: seq<Updates.State>, steps: seq<Updates.Step>, n: nat, intents: map<Updates.Id, Intent>, i: nat)
    requires Updates.IsRun(trace, steps) && n < |trace| && Updates.Initial(trace[0])
    requires KeptIfAny(Updates.ValueOf(trace[0].current)) && IsOrderly(trace[n], intents) && i < |trace[n].log|
    ensures KeptIfAny(trace[n].log[i].before) && KeptIfAny(trace[n].log[i].after)
  {
    hide Updates.Inv, Updates.Initial, Updates.Next, Updates.Enabled, Updates.IsRun, Kept, Effect, IsOrderly;
    Updates.RunsKeepInv(trace, steps, n);
    Updates.InterleavedUpdatesAreAtomic(trace, steps, n);
    CommitsHaveEffect(trace[n], intents, i);
    if i == 0 {
      LogStartsThere(trace, steps, n);
    } else {
      EveryContentIsKept(trace, steps, n, intents, i - 1);
    }
    CommitKeepsRegistry(trace[n].log[i], intents);
  }

  /** A call that claims for a service. */
  ghost predicate ClaimsAt(s: Updates.State, intents: map<Updates.Id, Intent>, i: nat, r: Request)
    requires i < |s.log|
  {
    var c := s.log[i];
    && c.author.Some? && c.author.value in intents
    && intents[c.author.value].Claiming? && intents[c.author.value].request == r
  }

  predicate ListedThroughout(log: seq<Updates.Commit>, i: nat, j: nat, svc: Service) {
    forall k :: i <= k <= j && k < |log| ==> log[k].after.Some? && AlreadyExists(log[k].after.value, svc)
  }

  /** From its claim on, and for as long as its service stays listed, the FloatingIP
      names the cluster of the request, whoever else tries to claim it meanwhile. */
  lemma {:induction false} ClusterStaysWhileListed(trace: seq<Updates.State>, steps: seq<Updates.Step>, n: nat,
                                                   intents: map<Updates.Id, Intent>, r: Request, i: nat, j: nat)
    requires Updates.IsRun(trace, steps) && n < |trace| && Updates.Initial(trace[0])
    requires KeptIfAny(Updates.ValueOf(trace[0].current)) && IsOrderly(trace[n], intents)
    requires i <= j < |trace[n].log| && ClaimsAt(trace[n], intents, i, r) && ListedThroughout(trace[n].log, i, j, r.svc)
    ensures trace[n].log[j].after.Some? && CLUSTER in trace[n].log[j].after.value
    ensures trace[n].log[j].after.value[CLUSTER] == r.cluster != ""
  {
    hide Updates.Inv, Updates.Initial, Updates.Next, Updates.Enabled, Updates.IsRun;
    hide Kept, IsOrderly, AlreadyExists, Claimed, ReleasedLabels, Passes, NumbersLeft;
    Updates.RunsKeepInv(trace, steps, n);
    Updates.InterleavedUpdatesAreAtomic(trace, steps, n);
    CommitsHaveEffect(trace[n], intents, j);
    EveryContentIsKept(trace, steps, n, intents, j);
    var c := trace[n].log[j];
    if i == j {
      ClaimKeepsRegistry(c.before.value, r);
    } else {
      ClusterStaysWhileListed(trace, steps, n, intents, r, i, j - 1);
      assert c.before == trace[n].log[j - 1].after;
      CommitKeepsCluster(c, intents, r.svc);
    }
  }

  /** However requests from different clusters interleave: two services that are listed
      together belong to the same cluster. */
  lemma ServicesListedTogetherShareACluster(trace: seq<Updates.State>, steps: seq<Updates.Step>, n: nat,
                                            intents: map<Updates.Id, Intent>, one: Request, other: Request,
                                            i: nat, j: nat, now: nat)
    requires Updates.IsRun(trace, steps) && n < |trace| && Updates.Initial(trace[0])
    requires KeptIfAny(Updates.ValueOf(trace[0].current)) && IsOrderly(trace[n], intents)
    requires i <= now < |trace[n].log| && ClaimsAt(trace[n], intents, i, one)
    requires ListedThroughout(trace[n].log, i, now, one.svc)
    requires j <= now && ClaimsAt(trace[n], intents, j, other) && ListedThroughout(trace[n].log, j, now, other.svc)
    ensures one.cluster == other.cluster
  {
    ClusterStaysWhileListed(trace, steps, n, intents, one, i, now);
    ClusterStaysWhileListed(trace, steps, n, intents, other, j, now);
  }
}
