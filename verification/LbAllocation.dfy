/** How the load balancer controller gets one Service an address: the pending marker
    before the request, the annotation after it, and retries from cached copies. */
module LbAllocation {
  import opened Common
  import opened Addresses

  /** What a Service asks for: its network, a pinned address, its group. */
  datatype Identity = Identity(pool: string, pin: Option<Address>, group: string)

  datatype Service = Service(annotation: Option<Address>, pending: bool, ingress: bool, wants: Identity)

  /** Where the IPAM keeps a claim of this Service. */
  datatype Place = Place(pool: string, group: string)

  /** The next call of an allocation pass. */
  datatype Todo =
    | ListClaims
    | MarkPending
    | RequestFIP
    | Annotate(ip: Address, adopting: bool)
    | ClearPending

  datatype Pass = Pass(copy: Service, todo: Todo)

  /** seen lists the states of the Service that a cached copy can still show. */
  datatype State = State(live: Option<Service>, seen: seq<Service>, claims: map<Address, Place>, pass: Option<Pass>)

  /** How a write ends: with an answer, with its answer lost, or undelivered. */
  datatype Fate = Answered | AnswerLost | Undelivered

  datatype Outcome = Granted(ip: Address, pool: string, answered: bool) | Refused | NoAnswer

  datatype Step =
    | Edit(wants: Identity)
    | GetIngress
    | Vanish
    | Restart
    | Begin(view: nat)
    | List(found: Option<Address>)
    | Mark(fate: Fate)
    | Request(outcome: Outcome)
    | Record(fate: Fate, released: bool)
    | Clear(landed: bool)
    | CleanUp(found: Option<Address>)

  /** The claim that the IPAM returns for a repeated request: a pinned one by its
      address, any other by network and group. */
  predicate Matches(s: State, a: Address, wants: Identity) {
    && a in s.claims
    && if wants.pin.Some? then wants.pin == Some(a) else s.claims[a] == Place(wants.pool, wants.group)
  }

  predicate Grantable(s: State, wants: Identity, ip: Address) {
    if wants.pin.Some? then wants.pin == Some(ip)
    else (forall a :: a in s.claims ==> !Matches(s, a, wants)) || Matches(s, ip, wants)
  }

  /** A request for a claim that exists is granted it, or not answered. */
  predicate CanAnswer(s: State, wants: Identity, outcome: Outcome) {
    && (outcome.Granted? ==> Grantable(s, wants, outcome.ip))
    && (outcome.Refused? ==> forall a :: a in s.claims ==> !Matches(s, a, wants))
  }

  /** A claim that exists stays where it is, but for a group that the request names. */
  function PlaceGranted(s: State, wants: Identity, ip: Address, pool: string): Place {
    if ip in s.claims then s.claims[ip].(group := if wants.group == "" then s.claims[ip].group else wants.group)
    else Place(pool, wants.group)
  }

  function FirstTodo(copy: Service): Todo {
    if copy.annotation.Some? then Annotate(copy.annotation.value, true)
    else if copy.ingress || copy.pending then ListClaims
    else MarkPending
  }

  predicate Doing(s: State, todo: Todo) {
    s.pass.Some? && s.pass.value.todo == todo
  }

  predicate Annotating(s: State) {
    s.pass.Some? && s.pass.value.todo.Annotate?
  }

  predicate Enabled(s: State, step: Step) {
    match step
    case Edit(_) => s.live.Some?
    case GetIngress => s.live.Some?
    case Vanish => s.live.Some?
    case Restart => true
    case Begin(view) => s.pass.None? && view < |s.seen|
    case List(found) =>
      Doing(s, ListClaims) && CanList(s, s.pass.value.copy.wants.pool, found)
    case Mark(_) => Doing(s, MarkPending)
    case Request(outcome) => Doing(s, RequestFIP) && CanAnswer(s, s.pass.value.copy.wants, outcome)
    case Record(_, _) => Annotating(s)
    case Clear(_) => Doing(s, ClearPending)
    case CleanUp(found) =>
      && s.live.Some? && s.pass.None?
      && var o := s.live.value;
         if o.annotation.Some? then found == o.annotation
         else if o.pending then CanList(s, o.wants.pool, found)
         else found.None?
  }

  /** A list of a network shows some claim there, if there is one. */
  predicate CanList(s: State, pool: string, found: Option<Address>) {
    if found.Some? then found.value in s.claims && s.claims[found.value].pool == pool
    else forall a :: a in s.claims ==> s.claims[a].pool != pool
  }

  function Write(s: State, o: Service): State {
    s.(live := Some(o), seen := s.seen + [o])
  }

  function Continue(s: State, todo: Todo): State
    requires s.pass.Some?
  {
    s.(pass := Some(s.pass.value.(todo := todo)))
  }

  function End(s: State): State {
    s.(pass := None)
  }

  function Next(s: State, step: Step): State
    requires Enabled(s, step)
  {
    match step
    case Edit(wants) => Write(s, s.live.value.(wants := wants))
    case GetIngress => Write(s, s.live.value.(ingress := true))
    case Vanish => s.(live := None)
    case Restart => s.(seen := if s.live.Some? then [s.live.value] else [], pass := None)
    case Begin(view) => s.(pass := Some(Pass(s.seen[view], FirstTodo(s.seen[view]))))
    case List(found) =>
      if found.Some? then Continue(s, Annotate(found.value, true))
      else if s.pass.value.copy.ingress then End(s)
      else Continue(s, MarkPending)
    case Mark(fate) =>
      if s.live.None? || fate == Undelivered then End(s)
      else
        var t := Write(s, s.live.value.(pending := true));
        if fate == Answered then Continue(t, RequestFIP) else End(t)
    case Request(outcome) =>
      (match outcome
       case Granted(ip, pool, answered) =>
         var t := s.(claims := s.claims[ip := PlaceGranted(s, s.pass.value.copy.wants, ip, pool)]);
         if answered then Continue(t, Annotate(ip, false)) else End(t)
       case Refused => Continue(s, ClearPending)
       case NoAnswer => End(s))
    case Record(fate, released) =>
      var ip, adopting := s.pass.value.todo.ip, s.pass.value.todo.adopting;
      var undone := if released && (s.live.None? || !adopting) then s.(claims := s.claims - {ip}) else s;
      if s.live.None? || fate == Undelivered then End(undone)
      else End(Write(if fate == Answered then s else undone, s.live.value.(annotation := Some(ip), pending := false)))
    case Clear(landed) =>
      End(if landed && s.live.Some? then Write(s, s.live.value.(pending := false)) else s)
    case CleanUp(found) =>
      s.(live := None, claims := if found.Some? then s.claims - {found.value} else s.claims)
  }

  function Taken(s: State, step: Step): Option<State> {
    if Enabled(s, step) then Some(Next(s, step)) else None
  }

  // ---------------------------------------------------------------------- invariant

  /** The Service records its claim, or that it may have one; it never has two; and a
      recorded address is claimed. */
  predicate ClaimsAreRecorded(claims: map<Address, Place>, o: Service) {
    && (claims != map[] ==> o.annotation.Some? || o.pending)
    && (forall a, b :: a in claims && b in claims ==> a == b)
    && (o.annotation.Some? ==> o.annotation.value in claims)
  }

  /** A copy shows no other address than the Service does. */
  predicate CopyIsOlder(copy: Service, o: Service) {
    copy.annotation.Some? ==> copy.annotation == o.annotation
  }

  /** A request with this copy cannot get the Service a second claim. */
  predicate RequestIsSafe(s: State, copy: Service) {
    s.live.Some? ==> s.live.value.annotation.None? && forall a :: a in s.claims ==> Matches(s, a, copy.wants)
  }

  predicate PassIsSound(s: State, p: Pass, o: Service) {
    && CopyIsOlder(p.copy, o)
    && match p.todo
       case ListClaims => ListIsSafe(s, p.copy)
       case MarkPending => RequestIsSafe(s, p.copy)
       case RequestFIP => RequestIsSafe(s, p.copy) && o.pending
       case Annotate(ip, adopting) => ip in s.claims && (!adopting ==> o.annotation.None? && o.pending)
       case ClearPending => s.claims == map[]
  }

  /** A list of the copy's network shows the claim, unless it is not needed. */
  predicate ListIsSafe(s: State, copy: Service) {
    copy.ingress || (exists a :: a in s.claims && s.claims[a].pool == copy.wants.pool) || RequestIsSafe(s, copy)
  }

  predicate Inv(s: State) {
    s.live.Some? ==>
      && ClaimsAreRecorded(s.claims, s.live.value)
      && (forall i :: 0 <= i < |s.seen| ==> CopyIsOlder(s.seen[i], s.live.value))
      && (s.pass.Some? ==> PassIsSound(s, s.pass.value, s.live.value))
  }

  /** When a pass may start from a copy: the copy has the address, or will find the
      claim, or asks for exactly what the claim was made for. And a pass that requested
      an address must not release it when only the answer to its record was lost. */
  predicate Careful(s: State, step: Step)
    requires Enabled(s, step)
  {
    match step
    case Begin(view) =>
      var copy := s.seen[view];
      (match FirstTodo(copy)
       case ListClaims => ListIsSafe(s, copy)
       case MarkPending => RequestIsSafe(s, copy)
       case _ => true)
    case Record(fate, released) => fate == AnswerLost && released && s.live.Some? ==> s.pass.value.todo.adopting
    case _ => true
  }

  lemma RequestIsCareful(s: State, step: Step)
    requires Inv(s) && Enabled(s, step) && step.Request?
    ensures Inv(Next(s, step))
  {
    if s.live.Some? && step.outcome.Granted? {
      assert forall a :: a in s.claims ==> Matches(s, a, s.pass.value.copy.wants);
    }
  }

  lemma RecordIsCareful(s: State, step: Step)
    requires Inv(s) && Enabled(s, step) && step.Record? && Careful(s, step)
    ensures Inv(Next(s, step))
  {
  }

  /** The writes of others, a restart, and the marker. */
  lemma WritesAreCareful(s: State, step: Step)
    requires Inv(s) && Enabled(s, step)
    requires step.Edit? || step.GetIngress? || step.Vanish? || step.Restart? || step.Mark? || step.Clear?
    ensures Inv(Next(s, step))
  {
  }

  lemma LooksAreCareful(s: State, step: Step)
    requires Inv(s) && Enabled(s, step) && Careful(s, step) && (step.Begin? || step.List? || step.CleanUp?)
    ensures Inv(Next(s, step))
  {
  }

  lemma StepKeepsInv(s: State, step: Step)
    requires Inv(s) && Enabled(s, step) && Careful(s, step)
    ensures Inv(Next(s, step))
  {
    hide Inv, Next, Enabled, Careful;
    match step
    case Request(_) => RequestIsCareful(s, step);
    case Record(_, _) => RecordIsCareful(s, step);
    case Begin(_) => LooksAreCareful(s, step);
    case List(_) => LooksAreCareful(s, step);
    case CleanUp(_) => LooksAreCareful(s, step);
    case _ => WritesAreCareful(s, step);
  }

  // --------------------------------------------------------------------- whole runs

  ghost predicate IsRun(trace: seq<State>, steps: seq<Step>) {
    && |trace| == |steps| + 1
    && forall i :: 0 <= i < |steps| ==> Enabled(trace[i], steps[i]) && trace[i + 1] == Next(trace[i], steps[i])
  }

  /** A Service that asks for an address for the first time. */
  predicate Initial(s: State) {
    && s.live.Some? && s.live.value.annotation.None? && !s.live.value.pending
    && s.seen == [s.live.value] && s.claims == map[] && s.pass.None?
  }

  /** What a run must be free of, step by step: an edit of what the Service asks for, a
      grant in another network than the one asked for, and the release of a requested
      address unless it is known that its record is undelivered and there is none. */
  predicate Unedited(step: Step) {
    !step.Edit?
  }

  predicate GrantedThere(s: State, step: Step) {
    (step.Request? && step.outcome.Granted? && s.pass.Some? && s.pass.value.copy.wants.pin.None?) ==>
      step.outcome.pool == s.pass.value.copy.wants.pool
  }

  /** A pass that gives the address it requested back, its record not having gone well. */
  predicate GivesBack(s: State, step: Step) {
    step.Record? && step.released && step.fate != Answered && Annotating(s) && !s.pass.value.todo.adopting
  }

  predicate ReleasedSafely(s: State, step: Step) {
    GivesBack(s, step) && s.live.Some? ==> step.fate == Undelivered && s.live.value.annotation.None?
  }

  predicate Plain(s: State, step: Step) {
    Unedited(step) && GrantedThere(s, step) && ReleasedSafely(s, step)
  }

  /** Every claim is one that the Service's requests are answered with. */
  predicate ClaimsMatch(s: State, wants: Identity) {
    forall a :: a in s.claims ==> Matches(s, a, wants)
  }

  /** A state of the Service asks for the same as all others, and its address is claimed. */
  predicate CopyFits(s: State, o: Service, wants: Identity) {
    o.wants == wants && (o.annotation.Some? ==> o.annotation.value in s.claims)
  }

  predicate PassFits(s: State, p: Pass, o: Service, wants: Identity) {
    && CopyFits(s, p.copy, wants)
    && match p.todo
       case RequestFIP => o.annotation.Some? || o.pending
       case Annotate(ip, _) => ip in s.claims
       case ClearPending => s.claims == map[]
       case _ => true
  }

  predicate SeenFits(s: State, o: Service, wants: Identity) {
    forall i :: 0 <= i < |s.seen| ==> CopyFits(s, s.seen[i], wants) && CopyIsOlder(s.seen[i], o)
  }

  predicate LiveFits(s: State, o: Service, wants: Identity) {
    && ClaimsAreRecorded(s.claims, o) && ClaimsMatch(s, wants) && CopyFits(s, o, wants) && SeenFits(s, o, wants)
    && (s.pass.Some? ==> PassFits(s, s.pass.value, o, wants) && CopyIsOlder(s.pass.value.copy, o))
  }

  predicate PlainInv(s: State, wants: Identity) {
    s.live.Some? ==> LiveFits(s, s.live.value, wants)
  }

  lemma MarkKeepsInv(s: State, step: Step, wants: Identity)
    requires PlainInv(s, wants) && Enabled(s, step) && step.Mark?
    ensures PlainInv(Next(s, step), wants)
  {
  }

  /** A request that is answered is answered with the claim there is. */
  lemma RequestKeepsInv(s: State, step: Step, wants: Identity)
    requires PlainInv(s, wants) && Enabled(s, step) && step.Request? && GrantedThere(s, step)
    ensures PlainInv(Next(s, step), wants)
  {
    if s.live.Some? && step.outcome.Granted? {
      var ip := step.outcome.ip;
      forall a | a in s.claims
        ensures a == ip
      {
        assert Matches(s, a, wants);
      }
    } else if s.live.Some? && step.outcome.Refused? {
      assert forall a :: a in s.claims ==> Matches(s, a, wants);
    }
  }

  lemma RecordKeepsInv(s: State, step: Step, wants: Identity)
    requires PlainInv(s, wants) && Enabled(s, step) && step.Record? && ReleasedSafely(s, step)
    ensures PlainInv(Next(s, step), wants)
  {
  }

  lemma OtherStepsKeepInv(s: State, step: Step, wants: Identity)
    requires PlainInv(s, wants) && Enabled(s, step) && !step.Edit? && !step.Mark? && !step.Request? && !step.Record?
    ensures PlainInv(Next(s, step), wants)
  {
  }

  lemma PlainStepKeepsInv(s: State, step: Step, wants: Identity)
    requires PlainInv(s, wants) && Enabled(s, step) && Plain(s, step)
    ensures PlainInv(Next(s, step), wants)
  {
    hide PlainInv, Next;
    match step
    case Mark(_) => MarkKeepsInv(s, step, wants);
    case Request(_) => RequestKeepsInv(s, step, wants);
    case Record(_, _) => RecordKeepsInv(s, step, wants);
    case _ => OtherStepsKeepInv(s, step, wants);
  }

  ghost predicate IsPlain(trace: seq<State>, steps: seq<Step>, from: nat, to: nat)
    requires |trace| > |steps|
  {
    forall i :: from <= i < to && i < |steps| ==> Plain(trace[i], steps[i])
  }

  lemma {:induction false} PlainRunsKeepInv(trace: seq<State>, steps: seq<Step>, n: nat)
    requires IsRun(trace, steps) && n < |trace| && Initial(trace[0]) && IsPlain(trace, steps, 0, n)
    ensures PlainInv(trace[n], trace[0].live.value.wants)
  {
    if n > 0 {
      PlainRunsKeepInv(trace, steps, n - 1);
      PlainStepKeepsInv(trace[n - 1], steps[n - 1], trace[0].live.value.wants);
    }
  }

  /** At every point at which the controller can die, whatever copies its passes started
      from, a claim of the Service is on record, it is the only one, and a recorded
      address is claimed. */
  lemma ClaimIsRecordedAndSingle(trace: seq<State>, steps: seq<Step>, n: nat)
    requires IsRun(trace, steps) && n < |trace| && Initial(trace[0]) && IsPlain(trace, steps, 0, n)
    requires trace[n].live.Some?
    ensures ClaimsAreRecorded(trace[n].claims, trace[n].live.value)
  {
    PlainRunsKeepInv(trace, steps, n);
  }

  lemma PlainStepKeepsClaim(s: State, step: Step, wants: Identity, a: Address)
    requires PlainInv(s, wants) && Enabled(s, step) && Plain(s, step) && s.live.Some? && a in s.claims
    requires Next(s, step).live.Some? && !GivesBack(s, step)
    ensures Next(s, step).claims.Keys == {a}
    ensures step.Record? && step.fate != Undelivered ==> Next(s, step).live.value.annotation == Some(a)
  {
  }

  /** Once there is a claim, every later retry adopts it: as long as no pass gives it back,
      the Service has that claim alone, and a pass that gets to its record records it. */
  lemma {:induction false} RetryAdoptsTheClaim(trace: seq<State>, steps: seq<Step>, m: nat, n: nat, a: Address)
    requires IsRun(trace, steps) && m <= n < |trace| && Initial(trace[0]) && IsPlain(trace, steps, 0, n)
    requires forall i :: m <= i < n ==> !GivesBack(trace[i], steps[i])
    requires a in trace[m].claims && trace[n].live.Some?
    ensures trace[n].claims.Keys == {a}
    ensures trace[n].live.value.annotation.Some? ==> trace[n].live.value.annotation == Some(a)
    ensures n > m && steps[n - 1].Record? && steps[n - 1].fate != Undelivered
      ==> trace[n].live.value.annotation == Some(a)
    decreases n
  {
    hide Next, Enabled;
    PlainRunsKeepInv(trace, steps, n);
    if n > m {
      WasLive(trace[n - 1], steps[n - 1]);
      PlainRunsKeepInv(trace, steps, n - 1);
      RetryAdoptsTheClaim(trace, steps, m, n - 1, a);
      PlainStepKeepsClaim(trace[n - 1], steps[n - 1], trace[0].live.value.wants, a);
    }
  }

  lemma WasLive(s: State, step: Step)
    requires Enabled(s, step) && Next(s, step).live.Some?
    ensures s.live.Some?
  {
  }

  /** Deleting a Service releases what it records, or what a list shows if it records
      only that it may have a claim. That leaves it none exactly when its claim is on
      record or in the network that it asks for now. */
  lemma CleanUpLeavesNoClaimIff(s: State, step: Step)
    requires Enabled(s, step) && step.CleanUp? && ClaimsAreRecorded(s.claims, s.live.value)
    ensures Next(s, step).live.None?
    ensures Next(s, step).claims == map[] <==>
      s.live.value.annotation.Some? || forall a :: a in s.claims ==> s.claims[a].pool == s.live.value.wants.pool
  {
    var t := Next(s, step);
    if step.found.Some? {
      assert forall a :: a in s.claims ==> a == step.found.value;
      assert t.claims == map[];
    } else if a :| a in s.claims {
      assert a in t.claims;
    }
  }
}
