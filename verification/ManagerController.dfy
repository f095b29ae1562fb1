/** The manager's two reconcile loops as they run when nothing interleaves, over
    the shared allocator object. Each is tied to the steps of the Manager module. */
module ManagerController {
  import opened Common
  import opened Addresses
  import opened Ipam
  import opened Allocator
  import opened Manager
  import opened ManagerPasses
  import opened ManagerDeletion

  /** The steps one uninterrupted allocation pass amounts to. */
  ghost function PassResult(s: State, f: Fip, view: nat, fate: Fate, answered: bool, landed: bool): State
    requires Enabled(s, BeginPass(f, view))
  {
    var begun := Next(s, BeginPass(f, view));
    if f !in begun.passes then begun
    else
      var written := Next(begun, WriteSpec(f, fate));
      if written.passes[f].SpecWritten? then Next(written, WriteStatus(f, landed))
      else Next(written, CheckSpec(f, answered))
  }

  /** And the steps of a delete pass, which ends early if it cannot save what it released. */
  ghost function DeletionResult(s: State, f: Fip, view: nat, swept: bool, fate: Fate): State
    requires Enabled(s, Release(f, view, swept))
  {
    var released := Next(s, Release(f, view, swept));
    if swept then Next(released, DropFinalizer(f, fate)) else released
  }

  lemma BegunPass(s: State, f: Fip, view: nat)
    requires s.pool.Valid() && Enabled(s, BeginPass(f, view))
    ensures var t, r := Next(s, BeginPass(f, view)), ClaimOwned(s.pool, s.seen[view][f].spec, f);
      && t.pool.Valid() && t.api == s.api && (f in t.passes <==> r.Success?)
      && (r.Failure? ==> t.pool == s.pool)
      && (r.Success? ==>
            && t.passes[f] == Claimed(s.seen[view][f], r.value) && t.pool.OwnerOf(r.value) == f
            && (forall a: Address :: a != r.value ==>
                  t.pool.OwnerOf(a) == s.pool.OwnerOf(a) && t.pool.Used(a) == s.pool.Used(a)))
  {
    ClaimOwnedGrants(s.pool, s.seen[view][f].spec, f);
  }

  lemma WrittenSpec(s: State, f: Fip, fate: Fate)
    requires Enabled(s, WriteSpec(f, fate))
    ensures var t, ip := Next(s, WriteSpec(f, fate)), s.passes[f].ip;
      var lands := f in s.api && s.api[f].version == s.passes[f].copy.version && fate != Undelivered;
      && t.pool == s.pool && t.api - {f} == s.api - {f} && (f in t.api <==> f in s.api)
      && t.passes[f] == (if lands && fate == Answered then SpecWritten(ip) else WriteFailed(ip))
      && (f in s.api ==>
            && t.api[f].spec == (if lands then Some(ip) else s.api[f].spec)
            && t.api[f].status == s.api[f].status
            && t.api[f].terminating == s.api[f].terminating && t.api[f].uid == s.api[f].uid)
  {
  }

  lemma EndedPass(s: State, f: Fip, answered: bool, landed: bool)
    requires s.pool.Valid() && f in s.passes && !s.passes[f].Claimed? && (s.passes[f].SpecWritten? ==> f in s.api)
    ensures var written, ip := s.passes[f].SpecWritten?, s.passes[f].ip;
      var t := Next(s, if written then WriteStatus(f, landed) else CheckSpec(f, answered));
      && t.api - {f} == s.api - {f} && (f in t.api <==> f in s.api)
      && (f in s.api ==>
            && t.api[f].spec == s.api[f].spec
            && t.api[f].status == (if written && landed then Some(ip) else s.api[f].status)
            && t.api[f].terminating == s.api[f].terminating && t.api[f].uid == s.api[f].uid)
      && (s.pool.OwnerOf(ip) == f ==>
            (t.pool.OwnerOf(ip) == f <==> written || (answered && f in s.api && s.api[f].spec == Some(ip))))
      && (forall a: Address :: a != ip ==>
            t.pool.OwnerOf(a) == s.pool.OwnerOf(a) && t.pool.Used(a) == s.pool.Used(a))
  {
    if s.passes[f].WriteFailed? {
      ReadBackKeepsThePersisted(s, CheckSpec(f, answered));
    }
  }

  /** What an allocation pass leaves behind. The address it was granted is in the spec if
      the write was carried out and in the status if everything went well; it stays claimed
      if the write was answered, or if a read-back was and found it in the spec. */
  lemma AllocationLeaves(s: State, f: Fip, view: nat, fate: Fate, answered: bool, landed: bool)
    requires s.pool.Valid() && Enabled(s, BeginPass(f, view))
    ensures var copy, t := s.seen[view][f], PassResult(s, f, view, fate, answered, landed);
      var r := ClaimOwned(s.pool, copy.spec, f);
      var lands := f in s.api && s.api[f].version == copy.version && fate != Undelivered;
      if r.Failure? then t.api == s.api && t.pool == s.pool
      else
        && t.api - {f} == s.api - {f} && (f in t.api <==> f in s.api)
        && (f in s.api ==>
              && t.api[f].spec == (if lands then Some(r.value) else s.api[f].spec)
              && t.api[f].status == (if lands && fate == Answered && landed then Some(r.value) else s.api[f].status)
              && t.api[f].terminating == s.api[f].terminating && t.api[f].uid == s.api[f].uid)
        && (t.pool.OwnerOf(r.value) == f <==>
              (lands && fate == Answered) || (answered && f in t.api && t.api[f].spec == Some(r.value)))
        && (forall a: Address :: a != r.value ==>
              t.pool.OwnerOf(a) == s.pool.OwnerOf(a) && t.pool.Used(a) == s.pool.Used(a))
  {
    hide ClaimOwned, Write, WriteLands, AfterRelease, CanView;
    var begun := Next(s, BeginPass(f, view));
    BegunPass(s, f, view);
    if f in begun.passes {
      WrittenSpec(begun, f, fate);
      EndedPass(Next(begun, WriteSpec(f, fate)), f, answered, landed);
    }
  }

  /** What a delete pass leaves behind: it frees the address of its copy's status, whoever
      has it, and with the sweep the FloatingIP's claims; the object goes if it was swept
      and nobody wrote it since the copy. */
  lemma DeletionLeaves(s: State, f: Fip, view: nat, swept: bool, fate: Fate)
    requires s.pool.Valid() && Enabled(s, Release(f, view, swept))
    ensures var copy, t := s.seen[view][f], DeletionResult(s, f, view, swept, fate);
      && t.api == (if swept && f in s.api && s.api[f].version == copy.version && fate != Undelivered
                   then s.api - {f} else s.api)
      && forall a: Address ::
           var goes := copy.status == Some(a) || (swept && s.pool.OwnerOf(a) == f);
           && t.pool.Used(a) == (s.pool.Used(a) && !goes)
           && t.pool.OwnerOf(a) == (if goes then "" else s.pool.OwnerOf(a))
  {
    ReleaseFreesExactly(s, Release(f, view, swept));
    hide PoolAfterDeletion;
  }

  class Controller {
    const ipam: IPAllocator
    const pool: PoolName
    const excludes: seq<Address>
    var api: Api
    var clock: nat
    var seen: seq<Api>
    var viewed: map<Fip, nat>
    ghost var released: set<Uid>

    constructor (ipam: IPAllocator, pool: PoolName, excludes: seq<Address>, api: Api, clock: nat)
      ensures this.ipam == ipam && this.pool == pool && this.excludes == excludes
      ensures this.api == api && this.clock == clock && seen == [api] && viewed == map[] && released == {}
    {
      this.ipam, this.pool, this.excludes := ipam, pool, excludes;
      this.api, this.clock, this.seen, this.viewed, this.released := api, clock, [api], map[], {};
    }

    ghost predicate Ready()
      reads this, ipam
    {
      ValidTable(ipam.ipam) && pool in ipam.ipam
    }

    /** The manager's state between passes. */
    ghost function Between(): State
      reads this, ipam
      requires Ready()
    {
      State(api, clock, ipam.ipam[pool], excludes, seen, viewed, map[], map[], released)
    }

    method WriteObject(f: Fip, o: Object)
      modifies this`api, this`clock, this`seen
      ensures api == old(api)[f := o.(version := old(clock) + 1)]
      ensures clock == old(clock) + 1 && seen == old(seen) + [api]
    {
      clock := clock + 1;
      api := api[f := o.(version := clock)];
      seen := seen + [api];
    }

    /** An update that the API refuses unless the object still has the version of
        the copy; the caller may not hear that it was carried out. */
    method UpdateSpec(f: Fip, copy: Object, ip: Address, fate: Fate) returns (ok: bool)
      modifies this`api, this`clock, this`seen
      ensures var lands := f in old(api) && old(api)[f].version == copy.version;
        && ok == (lands && fate == Answered)
        && (ok ==> f in api)
        && (if lands && fate != Undelivered
            then api == old(api)[f := old(api)[f].(spec := Some(ip), version := old(clock) + 1)]
              && clock == old(clock) + 1 && seen == old(seen) + [api]
            else api == old(api) && clock == old(clock) && seen == old(seen))
    {
      if f in api && api[f].version == copy.version {
        if fate == Undelivered {
          return false;
        }
        WriteObject(f, api[f].(spec := Some(ip)));
        return fate == Answered;
      }
      return false;
    }

    /** The manager's state while one pass is in flight. */
    ghost function During(f: Fip, p: Phase): State
      reads this, ipam
      requires Ready()
    {
      Between().(passes := map[f := p])
    }

    method ClaimAddress(f: Fip, view: nat) returns (r: Result<Address, Error>)
      requires Ready() && Enabled(Between(), BeginPass(f, view))
      modifies this`viewed, ipam
      ensures Ready()
      ensures r == ClaimOwned(old(ipam.ipam[pool]), seen[view][f].spec, f)
      ensures (if r.Success? then During(f, Claimed(seen[view][f], r.value)) else Between())
           == Next(old(Between()), BeginPass(f, view))
    {
      CallsKeepValid(ipam.ipam, GetIPOwned(pool, seen[view][f].spec, f));
      viewed := viewed[f := view];
      r := ipam.GetIPOwned(pool, seen[view][f].spec, f);
    }

    method PersistSpec(f: Fip, copy: Object, ip: Address, fate: Fate) returns (written: bool)
      requires Ready()
      modifies this`api, this`clock, this`seen
      ensures Ready() && (written ==> f in api)
      ensures written == (f in old(api) && old(api)[f].version == copy.version && fate == Answered)
      ensures During(f, if written then SpecWritten(ip) else WriteFailed(ip))
           == Next(old(During(f, Claimed(copy, ip))), WriteSpec(f, fate))
    {
      ghost var s := During(f, Claimed(copy, ip));
      written := UpdateSpec(f, copy, ip, fate);
      ghost var t := Next(s, WriteSpec(f, fate));
      assert t.passes == map[f := if written then SpecWritten(ip) else WriteFailed(ip)];
    }

    /** Reads the object back after a failed write and gives the claim up unless the
        spec turns out to have it. */
    method SettleClaim(f: Fip, ip: Address, answered: bool)
      requires Ready()
      modifies ipam
      ensures Ready() && Between() == Next(old(During(f, WriteFailed(ip))), CheckSpec(f, answered))
      ensures if answered && f in api && api[f].spec == Some(ip) then ipam.ipam[pool] == old(ipam.ipam[pool])
              else ipam.ipam[pool].OwnerOf(ip) != f
    {
      assert During(f, WriteFailed(ip)).passes - {f} == map[];
      if !(answered && f in api && api[f].spec == Some(ip)) {
        CallsKeepValid(ipam.ipam, ReleaseIPOwned(pool, Some(ip), f));
        var _ := ipam.ReleaseIPOwned(pool, Some(ip), f);
      }
    }

    method PersistStatus(f: Fip, ip: Address, landed: bool)
      requires Ready() && f in api
      modifies this`api, this`clock, this`seen
      ensures Ready() && Between() == Next(old(During(f, SpecWritten(ip))), WriteStatus(f, landed))
      ensures landed ==> f in api && api[f].status == Some(ip)
    {
      assert During(f, SpecWritten(ip)).passes - {f} == map[];
      if landed {
        WriteObject(f, api[f].(status := Some(ip)));
      }
    }

    /** Allocates an address for a FloatingIP seen without one: claim, persist it in
        the spec, keep or release the claim if that failed, persist it in the status. */
    method AllocationPass(f: Fip, view: nat, fate: Fate, answered: bool, landed: bool) returns (ok: bool)
      requires Ready() && Enabled(Between(), BeginPass(f, view))
      modifies this, ipam
      ensures Ready() && Between() == PassResult(old(Between()), f, view, fate, answered, landed)
      ensures var copy := old(seen)[view][f];
        var r, ours := ClaimOwned(old(ipam.ipam[pool]), copy.spec, f), ipam.ipam[pool];
        var lands := f in old(api) && old(api)[f].version == copy.version && fate != Undelivered;
        && api - {f} == old(api) - {f}
        && ok == (r.Success? && lands && fate == Answered && landed)
        && (ok ==> f in api && api[f].status == Some(r.value) && api[f].spec == Some(r.value))
        && (r.Success? && lands && (fate == Answered || answered) ==>
              f in api && api[f].spec == Some(r.value) && ours.OwnerOf(r.value) == f)
        && (r.Success? && !lands && !(answered && f in api && api[f].spec == Some(r.value)) ==>
              ours.OwnerOf(r.value) != f)
        && (r.Failure? ==> api == old(api) && ours == old(ipam.ipam[pool]))
    {
      AllocationLeaves(Between(), f, view, fate, answered, landed);
      hide Next, Enabled, ValidTable, ClaimOwned;
      var copy := seen[view][f];
      var r := ClaimAddress(f, view);
      if r.Failure? {
        return false;
      }
      var written := PersistSpec(f, copy, r.value, fate);
      if !written {
        SettleClaim(f, r.value, answered);
        return false;
      }
      PersistStatus(f, r.value, landed);
      return landed;
    }

    /** Releases the address of the status, or else the claim on the pinned address. */
    method ReleaseHeld(f: Fip, o: Object)
      requires Ready()
      modifies ipam
      ensures Ready() && ipam.ipam[pool] == PoolAfterRelease(old(ipam.ipam[pool]), f, o)
    {
      if o.status.Some? {
        CallsKeepValid(ipam.ipam, ReleaseIP(pool, o.status));
        var _ := ipam.ReleaseIP(pool, o.status);
      } else if o.spec.Some? {
        CallsKeepValid(ipam.ipam, ReleaseIPOwned(pool, o.spec, f));
        var _ := ipam.ReleaseIPOwned(pool, o.spec, f);
      }
    }

    /** The manager's state between a delete pass's release and its finalizer write. */
    ghost function Deleting(f: Fip, copy: Object): State
      reads this, ipam
      requires Ready()
    {
      Between().(deletions := map[f := copy])
    }

    /** Releases what the copy holds, and unless saving that fails, all other claims. */
    method ReleaseAll(f: Fip, o: Object, swept: bool)
      requires Ready()
      modifies ipam
      ensures Ready() && ipam.ipam[pool] == PoolAfterDeletion(old(ipam.ipam[pool]), f, o, swept)
    {
      hide PoolAfterRelease, Swept;
      ReleaseHeld(f, o);
      if swept {
        CallsKeepValid(ipam.ipam, ReleaseAllByOwner(pool, f));
        var _ := ipam.ReleaseAllByOwner(pool, f);
      }
    }

    method ReleaseFromCopy(f: Fip, view: nat, swept: bool)
      requires Ready() && Enabled(Between(), Release(f, view, swept))
      modifies this`viewed, this`released, ipam
      ensures Ready()
      ensures (if swept then Deleting(f, seen[view][f]) else Between())
           == Next(old(Between()), Release(f, view, swept))
    {
      hide PoolAfterDeletion;
      viewed, released := viewed[f := view], released + {(f, seen[view][f].uid)};
      ReleaseAll(f, seen[view][f], swept);
    }

    /** Drops the finalizer from a copy: refused if the object was written since. */
    method RemoveFinalizer(f: Fip, copy: Object, fate: Fate) returns (ok: bool)
      requires Ready()
      modifies this`api, this`seen
      ensures Ready() && Between() == Next(old(Deleting(f, copy)), DropFinalizer(f, fate))
      ensures ok == (f in old(api) && old(api)[f].version == copy.version && fate == Answered)
      ensures ok ==> f !in api
    {
      assert Deleting(f, copy).deletions - {f} == map[];
      if f in api && api[f].version == copy.version && fate != Undelivered {
        api := api - {f};
        seen := seen + [api];
        return fate == Answered;
      }
      return false;
    }

    /** Deletes a FloatingIP seen as being deleted: releases, sweeps, drops the finalizer. */
    method DeletePass(f: Fip, view: nat, swept: bool, fate: Fate) returns (ok: bool)
      requires Ready() && Enabled(Between(), Release(f, view, swept))
      modifies this, ipam
      ensures Ready() && Between() == DeletionResult(old(Between()), f, view, swept, fate)
      ensures ok ==> f !in api
      ensures var copy := old(seen)[view][f];
        var goes := swept && f in old(api) && old(api)[f].version == copy.version && fate != Undelivered;
        && api == (if goes then old(api) - {f} else old(api))
        && ok == (goes && fate == Answered)
        && (forall a: Address :: ipam.ipam[pool].Used(a) <==>
              old(ipam.ipam[pool]).Used(a) && copy.status != Some(a)
              && !(swept && old(ipam.ipam[pool]).OwnerOf(a) == f))
    {
      DeletionLeaves(Between(), f, view, swept, fate);
      hide Next, Enabled, ValidTable;
      var copy := seen[view][f];
      ReleaseFromCopy(f, view, swept);
      if !swept {
        return false;
      }
      ok := RemoveFinalizer(f, copy, fate);
    }

    /** The addresses of the FloatingIPs in a list of the informer, without those
        being deleted. */
    static method CollectStatuses(list: Api) returns (allocations: seq<Address>)
      ensures CollectedFrom(allocations, list)
    {
      allocations := [];
      var rest := list.Keys;
      while rest != {}
        invariant rest <= list.Keys
        invariant forall a :: a in allocations <==>
          exists f :: f in list && f !in rest && !list[f].terminating && list[f].status == Some(a)
        decreases rest
      {
        var f :| f in rest;
        ghost var before, known := rest, allocations;
        rest := rest - {f};
        if !list[f].terminating && list[f].status.Some? {
          allocations := allocations + [list[f].status.value];
        }
        forall a
          ensures a in allocations <==>
            exists g :: g in list && g !in rest && !list[g].terminating && list[g].status == Some(a)
        {
          if a in allocations {
            if a in known {
              var g :| g in list && g !in before && !list[g].terminating && list[g].status == Some(a);
              assert g !in rest;
            } else {
              assert f !in rest;
            }
          }
        }
      }
    }

    /** Syncs the pool from a list of the informer. */
    method PoolSync(view: nat) returns (ghost allocations: seq<Address>)
      requires Ready() && view < |seen|
      requires ipam.ipam[pool].config.cidr.Valid() && ipam.ipam[pool].config.end < ALL_ONES
      modifies ipam
      ensures Ready() && Enabled(old(Between()), Refresh(view, allocations))
      ensures Between() ==
        if RefreshError(old(ipam.ipam[pool]).config, excludes).Some? then old(Between())
        else Next(old(Between()), Refresh(view, allocations))
    {
      var collected := CollectStatuses(seen[view]);
      allocations := collected;
      var config := ipam.ipam[pool].config;
      CallsKeepValid(ipam.ipam, RefreshSubnet(pool, config, excludes, collected));
      var _ := ipam.RefreshSubnet(pool, config, excludes, collected);
    }
  }
}
