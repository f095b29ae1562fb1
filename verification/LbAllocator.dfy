/** The allocation branch of the load balancer controller's reconcile, against the
    Service and the IPAM it works on. */
module LbAllocator {
  import opened Common
  import opened Addresses
  import opened LbAllocation
  import opened Runs

  /** The marker, the request, and the marker's removal after a refusal. */
  function Requested(s: State, mark: Fate, outcome: Outcome, cleared: bool): (t: State)
    requires Doing(s, MarkPending) && CanAnswer(s, s.pass.value.copy.wants, outcome)
    ensures t.pass.Some? ==> Annotating(t)
  {
    var marked := Next(s, Mark(mark));
    if marked.pass.None? then marked
    else
      var answered := Next(marked, Request(outcome));
      if Doing(answered, ClearPending) then Next(answered, Clear(cleared)) else answered
  }

  /** The claim that the copy knows of, or that the network lists. */
  function Listed(s: State, view: nat, found: Option<Address>): (t: State)
    requires Enabled(s, Begin(view)) && CanList(s, s.seen[view].wants.pool, found)
    ensures t.claims == s.claims
    ensures t.pass.Some? ==> t.pass.value.copy == s.seen[view] && (Doing(t, MarkPending) || Annotating(t))
  {
    var begun := Next(s, Begin(view));
    if Doing(begun, ListClaims) then Next(begun, List(found)) else begun
  }

  /** The state after an allocation pass from a cached copy, given how its lookup, its
      writes and its request end. */
  function PassResult(
      s: State, view: nat, found: Option<Address>, mark: Fate, outcome: Outcome, record: Fate, released: bool,
      cleared: bool): State
    requires Enabled(s, Begin(view)) && CanList(s, s.seen[view].wants.pool, found)
    requires CanAnswer(s, s.seen[view].wants, outcome)
  {
    var listed := Listed(s, view, found);
    var requested := if Doing(listed, MarkPending) then Requested(listed, mark, outcome, cleared) else listed;
    if requested.pass.Some? then Next(requested, Record(record, released)) else requested
  }

  lemma RequestIsARun(s: State, mark: Fate, outcome: Outcome, cleared: bool) returns (steps: seq<Step>)
    requires Doing(s, MarkPending) && CanAnswer(s, s.pass.value.copy.wants, outcome)
    ensures Reaches(Taken, s, steps, Requested(s, mark, outcome, cleared))
  {
    hide Reaches;
    var marked := Next(s, Mark(mark));
    OneStep(Taken, s, Mark(mark));
    steps := [Mark(mark)];
    if marked.pass.Some? {
      var answered := Next(marked, Request(outcome));
      ThenStep(Taken, s, steps, marked, Request(outcome));
      steps := steps + [Request(outcome)];
      if Doing(answered, ClearPending) {
        ThenStep(Taken, s, steps, answered, Clear(cleared));
        steps := steps + [Clear(cleared)];
      }
    }
  }

  /** Whatever its copy shows and however its calls end, a pass is a run of the protocol. */
  lemma PassIsARun(
      s: State, view: nat, found: Option<Address>, mark: Fate, outcome: Outcome, record: Fate, released: bool,
      cleared: bool)
    returns (steps: seq<Step>)
    requires Enabled(s, Begin(view)) && CanList(s, s.seen[view].wants.pool, found)
    requires CanAnswer(s, s.seen[view].wants, outcome)
    ensures Reaches(Taken, s, steps, PassResult(s, view, found, mark, outcome, record, released, cleared))
  {
    hide Reaches, Requested;
    var begun, t := Next(s, Begin(view)), Listed(s, view, found);
    OneStep(Taken, s, Begin(view));
    steps := [Begin(view)];
    if Doing(begun, ListClaims) {
      ThenStep(Taken, s, steps, begun, List(found));
      steps := steps + [List(found)];
    }
    if Doing(t, MarkPending) {
      var more := RequestIsARun(t, mark, outcome, cleared);
      Then(Taken, s, steps, t, more, Requested(t, mark, outcome, cleared));
      t, steps := Requested(t, mark, outcome, cleared), steps + more;
    }
    if t.pass.Some? {
      ThenStep(Taken, s, steps, t, Record(record, released));
      steps := steps + [Record(record, released)];
    }
  }

  /** A Service with an ingress address, but neither a record nor a claim, is left alone. */
  lemma PassLeavesUnknown(
      s: State, view: nat, found: Option<Address>, mark: Fate, outcome: Outcome, record: Fate, released: bool,
      cleared: bool)
    requires Enabled(s, Begin(view)) && CanList(s, s.seen[view].wants.pool, found)
    requires CanAnswer(s, s.seen[view].wants, outcome)
    requires s.seen[view].annotation.None? && s.seen[view].ingress && found.None?
    ensures PassResult(s, view, found, mark, outcome, record, released, cleared) == s
  {
  }

  /** A recorded address or, where there may be a claim, a listed one is recorded as it is
      and never requested; it is taken back only when the Service is gone. */
  lemma PassAdopts(
      s: State, view: nat, found: Option<Address>, mark: Fate, outcome: Outcome, record: Fate, released: bool,
      cleared: bool)
    requires Enabled(s, Begin(view)) && CanList(s, s.seen[view].wants.pool, found)
    requires CanAnswer(s, s.seen[view].wants, outcome)
    requires s.seen[view].annotation.Some? || ((s.seen[view].ingress || s.seen[view].pending) && found.Some?)
    ensures var t := PassResult(s, view, found, mark, outcome, record, released, cleared);
      var a := if s.seen[view].annotation.Some? then s.seen[view].annotation.value else found.value;
      && t.pass.None?
      && t.claims == (if s.live.None? && released then s.claims - {a} else s.claims)
      && t.live == (if s.live.Some? && record != Undelivered
                    then Some(s.live.value.(annotation := Some(a), pending := false)) else s.live)
  {
  }

  lemma RequestLeaves(s: State, mark: Fate, outcome: Outcome, cleared: bool)
    requires Doing(s, MarkPending) && CanAnswer(s, s.pass.value.copy.wants, outcome)
    ensures var t, wants := Requested(s, mark, outcome, cleared), s.pass.value.copy.wants;
      var asked := s.live.Some? && mark == Answered;
      && t.pass == (if asked && outcome.Granted? && outcome.answered
                    then Some(Pass(s.pass.value.copy, Annotate(outcome.ip, false))) else None)
      && t.live == (if s.live.None? || mark == Undelivered then s.live
                    else Some(s.live.value.(pending := !(asked && outcome.Refused? && cleared))))
      && (if asked && outcome.Granted? then
            && t.claims - {outcome.ip} == s.claims - {outcome.ip} && outcome.ip in t.claims
            && var place := t.claims[outcome.ip];
               && place.pool == (if outcome.ip in s.claims then s.claims[outcome.ip].pool else outcome.pool)
               && place.group ==
                    if outcome.ip in s.claims && wants.group == "" then s.claims[outcome.ip].group else wants.group
          else t.claims == s.claims)
  {
  }

  lemma NothingListed(s: State, view: nat, found: Option<Address>)
    requires Enabled(s, Begin(view)) && CanList(s, s.seen[view].wants.pool, found)
    requires s.seen[view].annotation.None? && !s.seen[view].ingress && (s.seen[view].pending ==> found.None?)
    ensures Listed(s, view, found) == s.(pass := Some(Pass(s.seen[view], Todo.MarkPending)))
  {
  }

  lemma RecordLeaves(s: State, record: Fate, released: bool)
    requires Annotating(s) && !s.pass.value.todo.adopting
    ensures var t, ip := Next(s, Record(record, released)), s.pass.value.todo.ip;
      && t.pass.None?
      && t.live == (if s.live.None? || record == Undelivered then s.live
                    else Some(s.live.value.(annotation := Some(ip), pending := false)))
      && t.claims == (if released && (s.live.None? || record != Answered) then s.claims - {ip} else s.claims)
  {
  }

  /** Otherwise an address is requested once the marker is known to be written. A claim
      that exists keeps its network, and its group unless another one is asked for; the
      marker goes with the record or after a refusal; and a granted address whose record
      is not known to be written may be taken back. */
  lemma PassRequests(
      s: State, view: nat, found: Option<Address>, mark: Fate, outcome: Outcome, record: Fate, released: bool,
      cleared: bool)
    requires Enabled(s, Begin(view)) && CanList(s, s.seen[view].wants.pool, found)
    requires CanAnswer(s, s.seen[view].wants, outcome)
    requires s.seen[view].annotation.None? && !s.seen[view].ingress && (s.seen[view].pending ==> found.None?)
    ensures var t := PassResult(s, view, found, mark, outcome, record, released, cleared);
      var wants, asked := s.seen[view].wants, s.live.Some? && mark == Answered;
      var granted := asked && outcome.Granted?;
      var recorded := granted && outcome.answered && record != Undelivered;
      && t.pass.None?
      && t.live == (if s.live.None? || mark == Undelivered then s.live
                    else if recorded then Some(s.live.value.(annotation := Some(outcome.ip), pending := false))
                    else Some(s.live.value.(pending := !(asked && outcome.Refused? && cleared))))
      && (!granted ==> t.claims == s.claims)
      && (granted ==>
            && t.claims - {outcome.ip} == s.claims - {outcome.ip}
            && (outcome.ip in t.claims <==> !(outcome.answered && record != Answered && released)))
      && (granted && outcome.ip in t.claims ==> var place := t.claims[outcome.ip];
            && place.pool == (if outcome.ip in s.claims then s.claims[outcome.ip].pool else outcome.pool)
            && place.group ==
                 if outcome.ip in s.claims && wants.group == "" then s.claims[outcome.ip].group else wants.group)
  {
    var begun := s.(pass := Some(Pass(s.seen[view], Todo.MarkPending)));
    NothingListed(s, view, found);
    RequestLeaves(begun, mark, outcome, cleared);
    var requested := Requested(begun, mark, outcome, cleared);
    hide Requested, CanList, CanAnswer, Listed, Next;
    if requested.pass.Some? {
      RecordLeaves(requested, record, released);
    }
  }

  /** Every network can be listed. */
  ghost function SomeList(s: State, pool: string): (found: Option<Address>)
    ensures CanList(s, pool, found)
  {
    if a :| a in s.claims && s.claims[a].pool == pool then Some(a) else None
  }

  /** How a pass goes on after its lookup. */
  lemma PassGoesOn(
      s: State, view: nat, found: Option<Address>, mark: Fate, outcome: Outcome, record: Fate, released: bool,
      cleared: bool)
    requires Enabled(s, Begin(view)) && CanList(s, s.seen[view].wants.pool, found)
    requires CanAnswer(s, s.seen[view].wants, outcome)
    ensures var t := PassResult(s, view, found, mark, outcome, record, released, cleared);
      var listed := Listed(s, view, found);
      var requesting := listed.pass.Some? && listed.pass.value.todo.MarkPending?;
      var requested := if requesting then Requested(listed, mark, outcome, cleared) else listed;
      t == if requested.pass.Some? then Next(requested, Record(record, released)) else requested
  {
    hide Next, Requested, Listed, Enabled, CanList, CanAnswer;
  }

  class Allocator {
    var live: Option<Service>
    ghost var seen: seq<Service>
    var claims: map<Address, Place>

    ghost function At(pass: Option<Pass>): State
      reads this
    {
      State(live, seen, claims, pass)
    }

    /** Writes the Service if it is still there; the write may be undelivered, and its
        answer may be lost. */
    method UpdateService(after: Service, fate: Fate) returns (ok: bool)
      modifies this`live, this`seen
      ensures ok <==> old(live).Some? && fate == Answered
      ensures if old(live).Some? && fate != Undelivered then live == Some(after) && seen == old(seen) + [after]
              else live == old(live) && seen == old(seen)
    {
      if live.None? {
        return false;
      }
      if fate == Undelivered {
        return false;
      }
      live := Some(after);
      seen := seen + [after];
      ok := fate == Answered;
    }

    /** The address that the IPAM lists for this Service in a network. */
    method LookupFloatingIP(pool: string) returns (found: Option<Address>)
      ensures CanList(At(None), pool, found)
    {
      var rest := claims.Keys;
      while rest != {}
        invariant rest <= claims.Keys
        invariant forall a :: a in claims && a !in rest ==> claims[a].pool != pool
        decreases rest
      {
        var a :| a in rest;
        rest := rest - {a};
        if claims[a].pool == pool {
          return Some(a);
        }
      }
      return None;
    }

    /** Writes the marker before it asks for an address, and asks only if that went well.
        An answer names the address; a refusal takes the marker back. */
    method MarkAndRequest(wants: Identity, mark: Fate, outcome: Outcome, cleared: bool, ghost copy: Service)
      returns (ip: Option<Address>)
      requires copy.wants == wants && CanAnswer(At(None), wants, outcome)
      modifies this
      ensures At(if ip.Some? then Some(Pass(copy, Annotate(ip.value, false))) else None)
           == Requested(old(At(Some(Pass(copy, Todo.MarkPending)))), mark, outcome, cleared)
      ensures ip ==
        if old(live).Some? && mark == Answered && outcome.Granted? && outcome.answered then Some(outcome.ip) else None
      ensures ip.Some? ==> ip.value in claims && live.Some?
      ensures old(live).None? || mark != Answered || !outcome.Granted? ==> claims == old(claims)
    {
      ip := None;
      var ok := false;
      if live.Some? {
        ok := UpdateService(live.value.(pending := true), mark);
      }
      if !ok {
        return;
      }
      match outcome {
        case Granted(address, pool, answered) =>
          var place := Place(pool, wants.group);
          if address in claims {
            place := claims[address];
            if wants.group != "" {
              place := place.(group := wants.group);
            }
          }
          claims := claims[address := place];
          if answered {
            ip := Some(address);
          }
        case Refused =>
          ok := UpdateService(live.value.(pending := false), if cleared then Answered else Undelivered);
        case NoAnswer =>
      }
    }

    /** Records the address, and takes back what it requested when that failed. */
    method RecordAddress(ip: Address, adopting: bool, record: Fate, released: bool, ghost copy: Service)
      returns (ok: bool)
      modifies this
      ensures At(None) == Next(old(At(Some(Pass(copy, Annotate(ip, adopting))))), Record(record, released))
      ensures ok <==> old(live).Some? && record == Answered
      ensures ok ==> live == Some(old(live).value.(annotation := Some(ip), pending := false))
      ensures claims ==
        if released && (old(live).None? || (record != Answered && !adopting)) then old(claims) - {ip} else old(claims)
    {
      if live.None? {
        if released {
          claims := claims - {ip};
        }
        return false;
      }
      ok := UpdateService(live.value.(annotation := Some(ip), pending := false), record);
      if !ok && released && !adopting {
        claims := claims - {ip};
      }
    }

    /** The claim to adopt, if the copy records one or may have one; a Service with an
        ingress address but no claim is left alone. */
    method FindClaim(ghost view: nat, copy: Service)
      returns (ip: Option<Address>, ended: bool, ghost found: Option<Address>)
      requires view < |seen| && seen[view] == copy
      ensures CanList(At(None), copy.wants.pool, found)
      ensures ip == if copy.annotation.None? && (copy.ingress || copy.pending) then found else copy.annotation
      ensures ended == (ip.None? && copy.ingress)
      ensures Listed(At(None), view, found) == At(
        if ip.Some? then Some(Pass(copy, Annotate(ip.value, true)))
        else if ended then None else Some(Pass(copy, Todo.MarkPending)))
    {
      ip, ended, found := copy.annotation, false, SomeList(At(None), copy.wants.pool);
      if ip.None? && (copy.ingress || copy.pending) {
        ip := LookupFloatingIP(copy.wants.pool);
        found := ip;
        ended := ip.None? && copy.ingress;
      }
    }

    /** An allocation pass from a cached copy: adopts the claim it knows of or finds, or
        requests one, and records it. */
    method AllocationPass(
          ghost view: nat, copy: Service, mark: Fate, outcome: Outcome, record: Fate, released: bool,
          cleared: bool)
      returns (ok: bool, ghost found: Option<Address>)
      requires view < |seen| && seen[view] == copy && CanAnswer(At(None), copy.wants, outcome)
      modifies this
      ensures CanList(old(At(None)), copy.wants.pool, found)
      ensures At(None) == PassResult(old(At(None)), view, found, mark, outcome, record, released, cleared)
      ensures ok ==> live.Some? && live.value.annotation.Some? && !live.value.pending
      ensures var known := if copy.annotation.None? && (copy.ingress || copy.pending) then found else copy.annotation;
        if known.Some? then
          && ok == (old(live).Some? && record == Answered)
          && (ok ==> live == Some(old(live).value.(annotation := known, pending := false)))
          && claims == (if old(live).None? && released then old(claims) - {known.value} else old(claims))
        else if copy.ingress then !ok && live == old(live) && claims == old(claims)
        else
          && ok == (old(live).Some? && mark == Answered && outcome.Granted? && outcome.answered && record == Answered)
          && (ok ==> live.value.annotation == Some(outcome.ip) && outcome.ip in claims)
          && (!(old(live).Some? && mark == Answered && outcome.Granted?) ==> claims == old(claims))
    {
      hide Requested, Listed, CanAnswer, CanList, Next, PassResult, Doing;
      ghost var start := At(None);
      ok := false;
      var ip, ended;
      ip, ended, found := FindClaim(view, copy);
      PassGoesOn(start, view, found, mark, outcome, record, released, cleared);
      if ended {
        return;
      }
      var adopting := ip.Some?;
      if !adopting {
        AnswersAlike(start, At(Some(Pass(copy, Todo.MarkPending))), copy.wants, outcome);
        ip := MarkAndRequest(copy.wants, mark, outcome, cleared, copy);
        if ip.None? {
          return;
        }
      }
      ok := RecordAddress(ip.value, adopting, record, released, copy);
    }
  }

  lemma AnswersAlike(s: State, t: State, wants: Identity, outcome: Outcome)
    requires t.claims == s.claims
    ensures CanAnswer(s, wants, outcome) <==> CanAnswer(t, wants, outcome)
  {
  }
}
