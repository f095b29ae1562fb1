/** Runs in which a Service does lose track of its claim, one for every condition that
    keeps it on record. */
module LbAllocationRuns {
  import opened Common
  import opened Addresses
  import opened LbAllocation
  import opened Runs

  predicate Broken(s: State) {
    s.live.Some? && !ClaimsAreRecorded(s.claims, s.live.value)
  }

  /** From an unsafe request on, the Service ends up with two claims, or with a record
      of an address that it released. */
  lemma UnsafeRequestBreaks(s: State, unused: Address) returns (steps: seq<Step>, t: State)
    requires s.live.Some? && ClaimsAreRecorded(s.claims, s.live.value)
    requires Doing(s, MarkPending) && !RequestIsSafe(s, s.pass.value.copy) && unused !in s.claims
    ensures Reaches(Taken, s, steps, t) && Broken(t)
  {
    var wants := s.pass.value.copy.wants;
    var a :| a in s.claims;
    var ip := if wants.pin.Some? then wants.pin.value else if Matches(s, a, wants) then a else unused;
    var s1 := Next(s, Mark(Answered));
    var granted := Request(Granted(ip, wants.pool, true));
    assert Enabled(s1, granted);
    var s2 := Next(s1, granted);
    if ip != a {
      assert a in s2.claims && ip in s2.claims;
      t := s2;
      steps := [];
    } else {
      var lost := Record(Undelivered, true);
      t := Next(s2, lost);
      assert t.claims == map[];
      Before(Taken, s2, lost, [], t);
      steps := [lost] + [];
    }
    Before(Taken, s1, granted, steps, t);
    Before(Taken, s, Mark(Answered), [granted] + steps, t);
    steps := [Mark(Answered)] + ([granted] + steps);
  }

  /** Being careful is exactly what keeps claims recorded: a careless step breaks that
      at once or by how the pass that it starts can go on. */
  lemma CarelessStepBreaks(s: State, step: Step, unused: Address) returns (steps: seq<Step>, t: State)
    requires Inv(s) && s.live.Some? && Enabled(s, step) && !Careful(s, step) && unused !in s.claims
    ensures Reaches(Taken, Next(s, step), steps, t) && Broken(t)
  {
    var s1 := Next(s, step);
    if step.Record? {
      steps, t := [], s1;
    } else if Doing(s1, MarkPending) {
      steps, t := UnsafeRequestBreaks(s1, unused);
    } else {
      var s2 := Next(s1, List(None));
      steps, t := UnsafeRequestBreaks(s2, unused);
      Before(Taken, s1, List(None), steps, t);
      steps := [List(None)] + steps;
    }
  }

  /** A careless pass is reachable: the Service is edited, an address is requested from
      the older copy, the answer is lost, and the retry sees the edit but no marker. */
  lemma StaleRetryIsReachable(s: State, wants: Identity, ip: Address, pool: string)
    returns (steps: seq<Step>, t: State)
    requires Initial(s) && !s.live.value.ingress && s.live.value.wants.pin.None?
    requires if wants.pin.Some? then wants.pin != Some(ip) else wants.group != s.live.value.wants.group
    ensures Reaches(Taken, s, steps, t) && Enabled(t, Begin(1)) && !Careful(t, Begin(1))
  {
    var s1 := Next(s, Edit(wants));
    var s2 := Next(s1, Begin(0));
    var s3 := Next(s2, Mark(Answered));
    t := Next(s3, Request(Granted(ip, pool, false)));
    assert t.seen[1] == s.live.value.(wants := wants);
    assert ip in t.claims && !Matches(t, ip, wants);
    Before(Taken, s3, Request(Granted(ip, pool, false)), [], t);
    steps := [Request(Granted(ip, pool, false))] + [];
    Before(Taken, s2, Mark(Answered), steps, t);
    steps := [Mark(Answered)] + steps;
    Before(Taken, s1, Begin(0), steps, t);
    steps := [Begin(0)] + steps;
    Before(Taken, s, Edit(wants), steps, t);
    steps := [Edit(wants)] + steps;
  }

  // ----------------------------------------------------- what each condition is needed for

  /** The one condition that a run does not meet. */
  datatype Lapse = Editing | Straying | Releasing

  predicate Allows(lapse: Lapse, s: State, step: Step) {
    && (lapse == Editing || Unedited(step))
    && (lapse == Straying || GrantedThere(s, step))
    && (lapse == Releasing || ReleasedSafely(s, step))
  }

  /** The steps that meet the other two conditions. */
  function Lapsing(lapse: Lapse): (State, Step) -> Option<State> {
    (s, step) => if Enabled(s, step) && Allows(lapse, s, step) then Some(Next(s, step)) else None
  }

  predicate Requests(copy: Service) {
    copy.annotation.None? && !copy.ingress && !copy.pending && copy.wants.pin.None?
  }

  /** The state after a pass that requests from a copy and gets the address granted. */
  function Granting(s: State, copy: Service, ip: Address, pool: string, answered: bool): State
    requires s.live.Some?
  {
    var o := s.live.value.(pending := true);
    State(Some(o), s.seen + [o], s.claims[ip := PlaceGranted(s, copy.wants, ip, pool)],
          if answered then Some(Pass(copy, Annotate(ip, false))) else None)
  }

  /** A pass that requests from a copy without record or marker. */
  lemma RequestFromCopy(lapse: Lapse, s: State, view: nat, ip: Address, pool: string, answered: bool)
    returns (steps: seq<Step>)
    requires s.live.Some? && s.pass.None? && view < |s.seen| && Requests(s.seen[view])
    requires Grantable(s, s.seen[view].wants, ip) && (lapse == Straying || pool == s.seen[view].wants.pool)
    ensures Reaches(Lapsing(lapse), s, steps, Granting(s, s.seen[view], ip, pool, answered))
  {
    hide Reaches;
    var s1 := Next(s, Begin(view));
    var s2 := Next(s1, Mark(Answered));
    var request := Request(Granted(ip, pool, answered));
    assert s1.pass == Some(Pass(s.seen[view], MarkPending)) && s2.pass == Some(Pass(s.seen[view], RequestFIP));
    assert Next(s2, request) == Granting(s, s.seen[view], ip, pool, answered);
    OneStep(Lapsing(lapse), s2, request);
    steps := [request];
    Before(Lapsing(lapse), s1, Mark(Answered), steps, Next(s2, request));
    steps := [Mark(Answered)] + steps;
    Before(Lapsing(lapse), s, Begin(view), steps, Next(s2, request));
    steps := [Begin(view)] + steps;
  }

  /** Edited between the older copy and the retry's, a Service gets two claims. */
  lemma EditedServiceGetsTwoClaims(s: State, wants: Identity, ip: Address, other: Address)
    returns (steps: seq<Step>, t: State)
    requires Initial(s) && Requests(s.live.value) && wants.pin.None? && ip != other
    requires wants.pool != s.live.value.wants.pool || wants.group != s.live.value.wants.group
    ensures Reaches(Lapsing(Editing), s, steps, t) && Broken(t) && t.claims.Keys == {ip, other}
  {
    var o := s.live.value;
    var s1 := Next(s, Edit(wants));
    assert s1.seen[0] == o && s1.seen[1] == o.(wants := wants);
    var first := RequestFromCopy(Editing, s1, 0, ip, o.wants.pool, false);
    var s2 := Granting(s1, o, ip, o.wants.pool, false);
    assert s2.seen[1] == o.(wants := wants);
    var second := RequestFromCopy(Editing, s2, 1, other, wants.pool, false);
    t := Granting(s2, s2.seen[1], other, wants.pool, false);
    Then(Lapsing(Editing), s1, first, s2, second, t);
    Before(Lapsing(Editing), s, Edit(wants), first + second, t);
    steps := [Edit(wants)] + (first + second);
    assert ip in t.claims && other in t.claims;
  }

  /** Granted an address of another network, as the reuse of unassigned ones can, a Service
      gets two claims even if nothing is edited and every pass starts from the live state. */
  lemma StrayGrantGetsTwoClaims(s: State, pool: string, ip: Address, other: Address)
    returns (steps: seq<Step>, t: State)
    requires Initial(s) && Requests(s.live.value) && pool != s.live.value.wants.pool && ip != other
    ensures Reaches(Lapsing(Straying), s, steps, t) && Broken(t) && t.claims.Keys == {ip, other}
  {
    hide Reaches;
    var wants := s.live.value.wants;
    var first := RequestFromCopy(Straying, s, 0, ip, pool, false);
    var s1 := Granting(s, s.live.value, ip, pool, false);
    var s2 := Next(s1, Begin(1));
    var s3 := Next(s2, List(None));
    var s4 := Next(s3, Mark(Answered));
    var request := Request(Granted(other, wants.pool, false));
    t := Next(s4, request);
    OneStep(Lapsing(Straying), s4, request);
    steps := [request];
    Before(Lapsing(Straying), s3, Mark(Answered), steps, t);
    steps := [Mark(Answered)] + steps;
    Before(Lapsing(Straying), s2, List(None), steps, t);
    steps := [List(None)] + steps;
    Before(Lapsing(Straying), s1, Begin(1), steps, t);
    steps := [Begin(1)] + steps;
    Then(Lapsing(Straying), s, first, s1, steps, t);
    steps := first + steps;
    assert ip in t.claims && other in t.claims;
  }

  /** When only the answer to the record is lost, its pass releases the address that the
      Service now records. */
  lemma LostAnswerReleasesTheRecord(s: State, ip: Address) returns (steps: seq<Step>, u: State, t: State)
    requires Initial(s) && Requests(s.live.value)
    ensures Reaches(Lapsing(Releasing), s, steps, u) && Enabled(u, Record(AnswerLost, true))
    ensures !Careful(u, Record(AnswerLost, true)) && t == Next(u, Record(AnswerLost, true))
    ensures Broken(t) && t.live.value.annotation == Some(ip) && t.claims == map[]
  {
    steps := RequestFromCopy(Releasing, s, 0, ip, s.live.value.wants.pool, true);
    u := Granting(s, s.live.value, ip, s.live.value.wants.pool, true);
    t := Next(u, Record(AnswerLost, true));
    assert t.claims == map[];
  }

  /** And so does a retry from an older copy whose record is known to be undelivered. */
  lemma OlderCopyReleasesTheRecord(s: State, ip: Address) returns (steps: seq<Step>, u: State, t: State)
    requires Initial(s) && Requests(s.live.value)
    ensures Reaches(Lapsing(Releasing), s, steps, u) && Enabled(u, Record(Undelivered, true))
    ensures t == Next(u, Record(Undelivered, true))
    ensures Broken(t) && t.live.value.annotation == Some(ip) && t.claims == map[]
  {
    var wants := s.live.value.wants;
    var first := RequestFromCopy(Releasing, s, 0, ip, wants.pool, true);
    var s1 := Granting(s, s.live.value, ip, wants.pool, true);
    var s2 := Next(s1, Record(Answered, false));
    Before(Lapsing(Releasing), s1, Record(Answered, false), [], s2);
    Then(Lapsing(Releasing), s, first, s1, [Record(Answered, false)] + [], s2);
    assert s2.seen[0] == s.live.value && s2.claims == map[ip := Place(wants.pool, wants.group)];
    var second := RequestFromCopy(Releasing, s2, 0, ip, wants.pool, true);
    u := Granting(s2, s.live.value, ip, wants.pool, true);
    Then(Lapsing(Releasing), s, first + ([Record(Answered, false)] + []), s2, second, u);
    steps := first + ([Record(Answered, false)] + []) + second;
    t := Next(u, Record(Undelivered, true));
    assert t.claims == map[];
  }

  /** A Service with only a marker whose network is edited is deleted with its claim left. */
  lemma EditedServiceLeavesItsClaim(s: State, wants: Identity, ip: Address) returns (steps: seq<Step>, t: State)
    requires Initial(s) && Requests(s.live.value) && wants.pool != s.live.value.wants.pool
    ensures Reaches(Lapsing(Editing), s, steps, t) && t.live.None? && t.claims.Keys == {ip}
  {
    var o := s.live.value;
    var first := RequestFromCopy(Editing, s, 0, ip, o.wants.pool, false);
    var s1 := Granting(s, o, ip, o.wants.pool, false);
    var s2 := Next(s1, Edit(wants));
    t := Next(s2, CleanUp(None));
    Before(Lapsing(Editing), s2, CleanUp(None), [], t);
    Before(Lapsing(Editing), s1, Edit(wants), [CleanUp(None)] + [], t);
    Then(Lapsing(Editing), s, first, s1, [Edit(wants)] + ([CleanUp(None)] + []), t);
    steps := first + ([Edit(wants)] + ([CleanUp(None)] + []));
  }
}
