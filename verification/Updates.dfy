/** Guarded updates of an object under optimistic concurrency: read the live object,
    check it, change it, write it back unless its version moved, and try again. */
module Updates {
  import opened Common

  /** How often a conflict is retried in all. */
  const ATTEMPTS := 8

  type Id = nat

  datatype Versioned = Versioned(version: nat, value: Labels)

  /** What a caller wants: a change, and when the live object may have it. */
  datatype Call = Call(guard: Labels -> bool, change: Labels -> Labels)

  datatype Ending = Running | Done | Refused | Conflicted | Gone | Failed

  /** A call in progress; taken is how long the log was when the copy was read. */
  datatype Progress = Progress(
    call: Call, started: nat, conflicts: nat, copy: Option<Versioned>, taken: nat, ending: Ending)

  /** A change of the object, by a call or by somebody else. */
  datatype Commit = Commit(author: Option<Id>, before: Option<Labels>, after: Option<Labels>)

  datatype State = State(current: Option<Versioned>, clock: nat, calls: map<Id, Progress>, log: seq<Commit>)

  /** How a write ends: with an answer, with its answer lost, or undelivered. */
  datatype Fate = Answered | AnswerLost | Undelivered

  datatype Step =
    | Start(id: Id, call: Call)
    | Get(id: Id)
    | Update(id: Id, fate: Fate)
    | Write(after: Option<Labels>)

  ghost predicate Enabled(s: State, step: Step) {
    match step
    case Start(id, _) => id !in s.calls
    case Get(id) => id in s.calls && s.calls[id].ending.Running? && s.calls[id].copy.None?
    case Update(id, _) => id in s.calls && s.calls[id].ending.Running? && s.calls[id].copy.Some?
    case Write(after) => s.current.Some? || after.Some?
  }

  function ValueOf(current: Option<Versioned>): Option<Labels> {
    if current.Some? then Some(current.value.value) else None
  }

  /** A change of the object: its new content has a version that nothing had before. */
  ghost function Committed(s: State, author: Option<Id>, after: Option<Labels>): State {
    s.(current := if after.Some? then Some(Versioned(s.clock + 1, after.value)) else None,
       clock := s.clock + 1,
       log := s.log + [Commit(author, ValueOf(s.current), after)])
  }

  ghost function Ended(s: State, id: Id, ending: Ending): State
    requires id in s.calls
  {
    s.(calls := s.calls[id := s.calls[id].(ending := ending)])
  }

  ghost function AfterConflict(p: Progress): Progress {
    p.(conflicts := p.conflicts + 1, copy := None, ending := if p.conflicts + 1 < ATTEMPTS then Running else Conflicted)
  }

  ghost predicate UpToDate(s: State, p: Progress) {
    s.current.Some? && p.copy.Some? && s.current.value.version == p.copy.value.version
  }

  ghost function Next(s: State, step: Step): State
    requires Enabled(s, step)
  {
    match step
    case Start(id, call) => s.(calls := s.calls[id := Progress(call, |s.log|, 0, None, |s.log|, Running)])
    case Get(id) =>
      if s.current.None? then Ended(s, id, Gone)
      else if !s.calls[id].call.guard(s.current.value.value) then Ended(s, id, Refused)
      else s.(calls := s.calls[id := s.calls[id].(copy := s.current, taken := |s.log|)])
    case Update(id, fate) =>
      var p := s.calls[id];
      if fate == Undelivered then Ended(s, id, Failed)
      else if s.current.None? then Ended(s, id, Gone)
      else if !UpToDate(s, p) then s.(calls := s.calls[id := AfterConflict(p)])
      else
        var t := Committed(s, Some(id), Some(p.call.change(p.copy.value.value)));
        Ended(t, id, if fate == Answered then Done else Failed)
    case Write(after) => Committed(s, None, after)
  }

  // ------------------------------------------------------------------- what is proved

  /** What a call commits is its change of what was there, where its guard held. */
  ghost predicate IsAtomic(calls: map<Id, Progress>, c: Commit) {
    c.author.Some? ==>
      && c.author.value in calls && c.before.Some?
      && calls[c.author.value].call.guard(c.before.value)
      && c.after == Some(calls[c.author.value].call.change(c.before.value))
  }

  /** No commit overwrites what another one wrote unseen. */
  ghost predicate IsChain(log: seq<Commit>, now: Option<Labels>) {
    && (forall i :: 0 <= i < |log| - 1 ==> log[i].after == log[i + 1].before)
    && (log != [] ==> log[|log| - 1].after == now)
  }

  function CommitsOf(log: seq<Commit>, id: Id): nat {
    if log == [] then 0
    else CommitsOf(log[..|log| - 1], id) + if log[|log| - 1].author == Some(id) then 1 else 0
  }

  /** A call that is done committed once, one that failed at most once, and one that was
      refused, found the object gone or conflicted too often never did. */
  ghost predicate CommitsMatch(ending: Ending, commits: nat) {
    match ending
    case Done => commits == 1
    case Failed => commits <= 1
    case _ => commits == 0
  }

  ghost predicate ProgressIsSound(s: State, p: Progress) {
    && p.started + p.conflicts <= |s.log|
    && (p.conflicts < ATTEMPTS || p.ending == Conflicted)
    && (p.ending == Conflicted ==> p.conflicts == ATTEMPTS)
    && (p.copy.Some? ==>
          && p.call.guard(p.copy.value.value)
          && p.started + p.conflicts <= p.taken <= |s.log| && p.copy.value.version <= s.clock
          && (UpToDate(s, p) ==> s.current == p.copy)
          && (|s.log| == p.taken ==> s.current == p.copy))
  }

  ghost predicate CallsAreSound(s: State) {
    && (s.current.Some? ==> s.current.value.version <= s.clock)
    && forall id :: id in s.calls ==> ProgressIsSound(s, s.calls[id])
  }

  ghost predicate CountsMatch(s: State) {
    forall id :: CommitsMatch(if id in s.calls then s.calls[id].ending else Running, CommitsOf(s.log, id))
  }

  ghost predicate AreAtomic(calls: map<Id, Progress>, log: seq<Commit>) {
    forall i :: 0 <= i < |log| ==> IsAtomic(calls, log[i])
  }

  ghost predicate Inv(s: State) {
    CallsAreSound(s) && CountsMatch(s) && AreAtomic(s.calls, s.log) && IsChain(s.log, ValueOf(s.current))
  }

  // ------------------------------------------------------------------------ one step

  lemma LastCommit(log: seq<Commit>, c: Commit, id: Id)
    ensures CommitsOf(log + [c], id) == CommitsOf(log, id) + if c.author == Some(id) then 1 else 0
  {
    assert (log + [c])[..|log|] == log;
  }

  lemma ChainGrows(log: seq<Commit>, c: Commit)
    requires IsChain(log, c.before)
    ensures IsChain(log + [c], c.after)
  {
  }

  /** A commit is new to every call whose copy was the live object. */
  lemma CommitKeepsProgress(s: State, author: Option<Id>, after: Option<Labels>, p: Progress)
    requires (s.current.Some? ==> s.current.value.version <= s.clock) && ProgressIsSound(s, p)
    ensures ProgressIsSound(Committed(s, author, after), p)
  {
  }

  lemma CommitKeepsCalls(s: State, author: Option<Id>, after: Option<Labels>)
    requires CallsAreSound(s)
    ensures CallsAreSound(Committed(s, author, after))
  {
    forall id | id in s.calls
      ensures ProgressIsSound(Committed(s, author, after), s.calls[id])
    {
      CommitKeepsProgress(s, author, after, s.calls[id]);
    }
  }

  lemma CommitCounts(s: State, author: Option<Id>, after: Option<Labels>)
    ensures forall id: Id ::
      CommitsOf(Committed(s, author, after).log, id) == CommitsOf(s.log, id) + if author == Some(id) then 1 else 0
  {
    forall id: Id
      ensures CommitsOf(Committed(s, author, after).log, id)
           == CommitsOf(s.log, id) + if author == Some(id) then 1 else 0
    {
      LastCommit(s.log, Commit(author, ValueOf(s.current), after), id);
    }
  }

  lemma WriteKeepsInv(s: State, after: Option<Labels>)
    requires Inv(s) && Enabled(s, Write(after))
    ensures Inv(Next(s, Write(after)))
  {
    ChainGrows(s.log, Commit(None, ValueOf(s.current), after));
    CommitKeepsCalls(s, None, after);
    CommitCounts(s, None, after);
  }

  lemma LandingKeepsCalls(s: State, id: Id, after: Option<Labels>, ending: Ending)
    requires CallsAreSound(s) && id in s.calls && s.calls[id].ending.Running? && (ending == Done || ending == Failed)
    ensures CallsAreSound(Ended(Committed(s, Some(id), after), id, ending))
  {
    CommitKeepsCalls(s, Some(id), after);
    assert ProgressIsSound(Committed(s, Some(id), after), s.calls[id]);
  }

  lemma LandingIsAtomic(s: State, id: Id, ending: Ending)
    requires Inv(s) && id in s.calls && UpToDate(s, s.calls[id])
    ensures var p := s.calls[id];
      var t := Ended(Committed(s, Some(id), Some(p.call.change(p.copy.value.value))), id, ending);
      AreAtomic(t.calls, t.log) && IsChain(t.log, ValueOf(t.current))
  {
    var p := s.calls[id];
    var after := Some(p.call.change(p.copy.value.value));
    assert ProgressIsSound(s, p);
    ChainGrows(s.log, Commit(Some(id), ValueOf(s.current), after));
    var calls := Ended(Committed(s, Some(id), after), id, ending).calls;
    forall i | 0 <= i < |s.log|
      ensures IsAtomic(calls, s.log[i])
    {
      assert IsAtomic(s.calls, s.log[i]);
    }
  }

  lemma LandingCounts(s: State, id: Id, after: Option<Labels>, ending: Ending)
    requires CountsMatch(s) && id in s.calls && s.calls[id].ending.Running? && (ending == Done || ending == Failed)
    ensures CountsMatch(Ended(Committed(s, Some(id), after), id, ending))
  {
    hide CommitsOf;
    CommitCounts(s, Some(id), after);
    assert CommitsMatch(s.calls[id].ending, CommitsOf(s.log, id));
  }

  lemma LandingKeepsInv(s: State, id: Id, fate: Fate)
    requires Inv(s) && Enabled(s, Update(id, fate)) && UpToDate(s, s.calls[id]) && fate != Undelivered
    ensures Inv(Next(s, Update(id, fate)))
  {
    hide CallsAreSound, CountsMatch, AreAtomic, IsChain, Committed, Ended;
    var p, ending := s.calls[id], if fate == Answered then Done else Failed;
    var after := Some(p.call.change(p.copy.value.value));
    LandingKeepsCalls(s, id, after, ending);
    LandingIsAtomic(s, id, ending);
    LandingCounts(s, id, after, ending);
  }

  /** A step that commits nothing and moves one call on. */
  lemma MoveKeepsInv(s: State, id: Id, p: Progress)
    requires Inv(s) && ProgressIsSound(s, p) && CommitsMatch(p.ending, CommitsOf(s.log, id))
    requires id in s.calls ==> s.calls[id].call == p.call
    ensures Inv(s.(calls := s.calls[id := p]))
  {
    var t := s.(calls := s.calls[id := p]);
    forall i | 0 <= i < |s.log|
      ensures IsAtomic(t.calls, s.log[i])
    {
      assert IsAtomic(s.calls, s.log[i]);
    }
    forall other | other in t.calls
      ensures ProgressIsSound(t, t.calls[other])
      ensures CommitsMatch(t.calls[other].ending, CommitsOf(s.log, other))
    {
      if other in s.calls {
        assert ProgressIsSound(s, s.calls[other]);
      }
    }
  }

  lemma StepKeepsInv(s: State, step: Step)
    requires Inv(s) && Enabled(s, step)
    ensures Inv(Next(s, step))
  {
    var t := Next(s, step);
    match step
    case Start(id, call) => MoveKeepsInv(s, id, t.calls[id]);
    case Get(id) => MoveKeepsInv(s, id, t.calls[id]);
    case Update(id, fate) =>
      if UpToDate(s, s.calls[id]) && fate != Undelivered {
        LandingKeepsInv(s, id, fate);
      } else {
        assert ProgressIsSound(s, s.calls[id]);
        MoveKeepsInv(s, id, t.calls[id]);
      }
    case Write(after) => WriteKeepsInv(s, after);
  }

  // ---------------------------------------------------------------------- whole runs

  ghost predicate IsRun(trace: seq<State>, steps: seq<Step>) {
    && |trace| == |steps| + 1
    && forall i :: 0 <= i < |steps| ==> Enabled(trace[i], steps[i]) && trace[i + 1] == Next(trace[i], steps[i])
  }

  ghost predicate Initial(s: State) {
    (s.current.Some? ==> s.current.value.version <= s.clock) && s.calls == map[] && s.log == []
  }

  lemma {:induction false} RunsKeepInv(trace: seq<State>, steps: seq<Step>, n: nat)
    requires IsRun(trace, steps) && n < |trace| && Initial(trace[0])
    ensures Inv(trace[n])
  {
    if n > 0 {
      RunsKeepInv(trace, steps, n - 1);
      StepKeepsInv(trace[n - 1], steps[n - 1]);
    }
  }

  /** However calls and other writers interleave, the object's history is a chain of
      single changes: every commit of a call applies its change to what was there at
      that moment, with its guard true, and nothing committed is ever lost. */
  lemma InterleavedUpdatesAreAtomic(trace: seq<State>, steps: seq<Step>, n: nat)
    requires IsRun(trace, steps) && n < |trace| && Initial(trace[0])
    ensures forall i :: 0 <= i < |trace[n].log| ==> IsAtomic(trace[n].calls, trace[n].log[i])
    ensures IsChain(trace[n].log, ValueOf(trace[n].current))
    ensures forall id :: id in trace[n].calls ==> CommitsMatch(trace[n].calls[id].ending, CommitsOf(trace[n].log, id))
  {
    RunsKeepInv(trace, steps, n);
  }

  /** A call only gives up on conflicts when as many changes by others came between. */
  lemma ConflictsAreOthersProgress(trace: seq<State>, steps: seq<Step>, n: nat, id: Id)
    requires IsRun(trace, steps) && n < |trace| && Initial(trace[0])
    requires id in trace[n].calls && trace[n].calls[id].ending == Conflicted
    ensures trace[n].calls[id].started + ATTEMPTS <= |trace[n].log|
    ensures CommitsOf(trace[n].log, id) == 0
  {
    RunsKeepInv(trace, steps, n);
    assert ProgressIsSound(trace[n], trace[n].calls[id]);
  }

  /** Why a call ends: it finds the object gone or closed to it, a write of its own is
      carried out or fails, or the last attempt that it had meets another version. */
  lemma CallEndsIff(s: State, step: Step, id: Id)
    requires Enabled(s, step) && id in s.calls && s.calls[id].ending.Running?
    ensures var p, ending := s.calls[id], Next(s, step).calls[id].ending;
      var writes := step.Update? && step.id == id && step.fate != Undelivered;
      var lands := writes && s.current.Some? && p.copy.Some? && s.current.value.version == p.copy.value.version;
      && (ending == Refused <==> step == Get(id) && s.current.Some? && !p.call.guard(s.current.value.value))
      && (ending == Gone <==> s.current.None? && (step == Get(id) || writes))
      && (ending == Done <==> lands && step.fate == Answered)
      && (ending == Failed <==> step == Update(id, Undelivered) || (lands && step.fate == AnswerLost))
      && (ending == Conflicted <==> writes && s.current.Some? && !lands && p.conflicts + 1 >= ATTEMPTS)
  {
  }

  // --------------------------------------------------------------------- the retry loop

  /** What others do to the object between a read and the write that follows it. */
  datatype Meanwhile = Nothing | Change(after: Option<Labels>)

  /** The end of a call, and the content it leaves, from its given attempt on. */
  function Outcome(
        content: Option<Labels>, call: Call, meanwhile: seq<Meanwhile>, attempt: nat): (r: (Ending, Option<Labels>))
    requires |meanwhile| == ATTEMPTS && attempt <= ATTEMPTS
    decreases ATTEMPTS - attempt
  {
    if attempt == ATTEMPTS then (Conflicted, content)
    else if content.None? then (Gone, content)
    else if !call.guard(content.value) then (Refused, content)
    else match meanwhile[attempt]
         case Nothing => (Done, Some(call.change(content.value)))
         case Change(None) => (Gone, None)
         case Change(after) => Outcome(after, call, meanwhile, attempt + 1)
  }

  /** What an attempt finds, if every one before it met a change. */
  function Found(content: Option<Labels>, meanwhile: seq<Meanwhile>, attempt: nat): Option<Labels>
    requires attempt <= |meanwhile| && forall i :: 0 <= i < attempt ==> meanwhile[i].Change?
  {
    if attempt == 0 then content else meanwhile[attempt - 1].after
  }

  predicate Passes(call: Call, found: Option<Labels>) {
    found.Some? && call.guard(found.value)
  }

  /** Every one of the first attempts passes the guard, and is then disturbed. */
  predicate DisturbedUpTo(content: Option<Labels>, call: Call, meanwhile: seq<Meanwhile>, attempt: nat) {
    && attempt <= |meanwhile| && (forall i :: 0 <= i < attempt ==> meanwhile[i].Change?)
    && forall i :: 0 <= i < attempt ==> Passes(call, Found(content, meanwhile, i))
  }

  /** Disturbed before but not at this attempt, the change is applied to what it found. */
  predicate AppliedAt(
    content: Option<Labels>, call: Call, meanwhile: seq<Meanwhile>, attempt: nat, after: Option<Labels>)
  {
    && DisturbedUpTo(content, call, meanwhile, attempt) && attempt < |meanwhile| && meanwhile[attempt].Nothing?
    && var found := Found(content, meanwhile, attempt);
       Passes(call, found) && after == Some(call.change(found.value))
  }

  /** Disturbed before, the attempt finds an object that does not pass, and leaves it. */
  predicate RefusedAt(
    content: Option<Labels>, call: Call, meanwhile: seq<Meanwhile>, attempt: nat, after: Option<Labels>)
  {
    && DisturbedUpTo(content, call, meanwhile, attempt) && attempt < |meanwhile|
    && var found := Found(content, meanwhile, attempt);
       found.Some? && !call.guard(found.value) && after == found
  }

  lemma OneDisturbanceMore(content: Option<Labels>, call: Call, meanwhile: seq<Meanwhile>, attempt: nat)
    requires DisturbedUpTo(content, call, meanwhile, attempt) && attempt < |meanwhile|
    requires Passes(call, Found(content, meanwhile, attempt)) && meanwhile[attempt].Change?
    ensures DisturbedUpTo(content, call, meanwhile, attempt + 1)
  {
    forall i | 0 <= i < attempt + 1
      ensures Passes(call, Found(content, meanwhile, i))
    {
      if i < attempt {
        assert Passes(call, Found(content, meanwhile, i));
      }
    }
  }

  /** From an attempt on: a call is done exactly when some attempt passes undisturbed, all
      before it having passed and been disturbed, with its change applied to what that
      attempt found; and it conflicts exactly when every attempt is disturbed so. */
  lemma {:induction false} OutcomeFrom(content: Option<Labels>, call: Call, meanwhile: seq<Meanwhile>, attempt: nat)
    requires |meanwhile| == ATTEMPTS && DisturbedUpTo(content, call, meanwhile, attempt)
    requires attempt > 0 ==> Found(content, meanwhile, attempt).Some?
    ensures var r := Outcome(Found(content, meanwhile, attempt), call, meanwhile, attempt);
      && (r.0 == Done <==> exists k :: AppliedAt(content, call, meanwhile, k, r.1))
      && (r.0 == Conflicted <==> DisturbedUpTo(content, call, meanwhile, ATTEMPTS) && EndsThere(content, meanwhile))
      && (r.0 == Refused <==> exists k :: RefusedAt(content, call, meanwhile, k, r.1))
      && (r.0 == Gone ==> r.1.None?) && (r.0 == Conflicted ==> r.1 == Found(content, meanwhile, ATTEMPTS))
    decreases ATTEMPTS - attempt
  {
    var found := Found(content, meanwhile, attempt);
    if attempt < ATTEMPTS && Passes(call, found) && meanwhile[attempt].Change? && meanwhile[attempt].after.Some? {
      OneDisturbanceMore(content, call, meanwhile, attempt);
      OutcomeFrom(content, call, meanwhile, attempt + 1);
    } else {
      StopsAt(content, call, meanwhile, attempt);
      if attempt < ATTEMPTS && Passes(call, found) && meanwhile[attempt].Nothing? {
        assert AppliedAt(content, call, meanwhile, attempt, Some(call.change(found.value)));
      } else if attempt < ATTEMPTS && found.Some? && !call.guard(found.value) {
        assert RefusedAt(content, call, meanwhile, attempt, found);
      }
    }
  }

  /** The last disturbance was not the object's deletion. */
  predicate EndsThere(content: Option<Labels>, meanwhile: seq<Meanwhile>)
    requires |meanwhile| == ATTEMPTS && forall i :: 0 <= i < ATTEMPTS ==> meanwhile[i].Change?
  {
    Found(content, meanwhile, ATTEMPTS).Some?
  }

  /** No attempt after one that ends the call is applied or refused. */
  lemma StopsAt(content: Option<Labels>, call: Call, meanwhile: seq<Meanwhile>, attempt: nat)
    requires |meanwhile| == ATTEMPTS && DisturbedUpTo(content, call, meanwhile, attempt)
    requires attempt == ATTEMPTS || !Passes(call, Found(content, meanwhile, attempt))
      || meanwhile[attempt].Nothing? || meanwhile[attempt].after.None?
    ensures forall k, after :: AppliedAt(content, call, meanwhile, k, after) ==>
      k == attempt < ATTEMPTS && Passes(call, Found(content, meanwhile, attempt)) && meanwhile[attempt].Nothing?
    ensures forall k, after :: RefusedAt(content, call, meanwhile, k, after) ==>
      k == attempt < ATTEMPTS && !Passes(call, Found(content, meanwhile, attempt))
    ensures DisturbedUpTo(content, call, meanwhile, ATTEMPTS) ==>
      attempt == ATTEMPTS || (attempt == ATTEMPTS - 1 && meanwhile[attempt].after.None?)
  {
    forall k: nat, after | AppliedAt(content, call, meanwhile, k, after)
      ensures k == attempt < ATTEMPTS
    {
      if attempt < k {
        NotDisturbedPast(content, call, meanwhile, attempt, k);
      }
    }
    assert forall i :: 0 <= i < attempt ==> Passes(call, Found(content, meanwhile, i));
    forall k: nat, after | RefusedAt(content, call, meanwhile, k, after)
      ensures k == attempt < ATTEMPTS
    {
      if attempt < k {
        NotDisturbedPast(content, call, meanwhile, attempt, k);
      }
    }
    if DisturbedUpTo(content, call, meanwhile, ATTEMPTS) && attempt < ATTEMPTS {
      NotDisturbedPast(content, call, meanwhile, attempt, ATTEMPTS);
    }
  }

  lemma NotDisturbedPast(content: Option<Labels>, call: Call, meanwhile: seq<Meanwhile>, attempt: nat, k: nat)
    requires |meanwhile| == ATTEMPTS && attempt < k <= ATTEMPTS && DisturbedUpTo(content, call, meanwhile, k)
    ensures Passes(call, Found(content, meanwhile, attempt)) && meanwhile[attempt].Change?
    ensures attempt + 1 < k ==> meanwhile[attempt].after.Some?
  {
    assert Passes(call, Found(content, meanwhile, attempt));
    if attempt + 1 < k {
      assert Passes(call, Found(content, meanwhile, attempt + 1));
    }
  }

  /** A call is done, with a change applied, exactly when some attempt passes undisturbed
      after passed and disturbed ones; it conflicts exactly when all are disturbed, and it
      is refused exactly when one finds an object that does not pass. Not done, it leaves
      what it found. */
  lemma OutcomeIsAtomic(content: Option<Labels>, call: Call, meanwhile: seq<Meanwhile>)
    requires |meanwhile| == ATTEMPTS
    ensures var r := Outcome(content, call, meanwhile, 0);
      && (r.0 == Done <==> exists k :: AppliedAt(content, call, meanwhile, k, r.1))
      && (r.0 == Conflicted <==> DisturbedUpTo(content, call, meanwhile, ATTEMPTS) && EndsThere(content, meanwhile))
      && (r.0 == Refused <==> exists k :: RefusedAt(content, call, meanwhile, k, r.1))
      && (r.0 == Gone ==> r.1.None?) && (r.0 == Conflicted ==> r.1 == Found(content, meanwhile, ATTEMPTS))
  {
    assert DisturbedUpTo(content, call, meanwhile, 0);
    OutcomeFrom(content, call, meanwhile, 0);
  }

  class ApiServer {
    var current: Option<Versioned>
    var clock: nat

    ghost predicate Valid()
      reads this
    {
      current.Some? ==> current.value.version <= clock
    }

    method Put(after: Option<Labels>)
      requires Valid()
      modifies this
      ensures Valid() && ValueOf(current) == after && clock == old(clock) + 1
      ensures current.Some? ==> current.value.version == clock
    {
      clock := clock + 1;
      current := if after.Some? then Some(Versioned(clock, after.value)) else None;
    }

    /** An update of an old version is a conflict. */
    method Update(live: Versioned) returns (r: Ending)
      requires Valid()
      modifies this
      ensures Valid()
      ensures r == if old(current).None? then Gone
                   else if old(current).value.version == live.version then Done else Conflicted
      ensures if r == Done then ValueOf(current) == Some(live.value) else current == old(current)
    {
      if current.None? {
        return Gone;
      }
      if current.value.version != live.version {
        return Conflicted;
      }
      Put(Some(live.value));
      return Done;
    }

    /** Re-reads, re-checks and re-applies on every conflict, a bounded number of times. */
    method UpdateIf(call: Call, meanwhile: seq<Meanwhile>) returns (ending: Ending)
      requires Valid() && |meanwhile| == ATTEMPTS
      modifies this
      ensures Valid()
      ensures (ending, ValueOf(current)) == Outcome(ValueOf(old(current)), call, meanwhile, 0)
    {
      var attempt := 0;
      while attempt < ATTEMPTS
        invariant Valid() && attempt <= ATTEMPTS
        invariant Outcome(ValueOf(current), call, meanwhile, attempt)
               == Outcome(ValueOf(old(current)), call, meanwhile, 0)
      {
        if current.None? {
          return Gone;
        }
        var live := current.value;
        if !call.guard(live.value) {
          return Refused;
        }
        if meanwhile[attempt].Change? {
          Put(meanwhile[attempt].after);
        }
        ending := Update(live.(value := call.change(live.value)));
        if ending != Conflicted {
          return;
        }
        attempt := attempt + 1;
      }
      ending := Conflicted;
    }
  }
}
