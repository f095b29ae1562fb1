/** What the API's history tells the manager's passes: whatever copies they start from,
    they are shown the current object, or one that is being deleted and has released. */
module ManagerHistory {
  import opened Manager

  /** A write that goes on with the object, or starts a new one under the name. */
  ghost predicate WritesLater(s: State, f: Fip, o: Object) {
    if f in s.api then o.uid == s.api[f].uid && IsLater(s.api[f], o) else o.uid == s.clock + 1
  }

  lemma LaterIsTransitive(o: Object, p: Object, q: Object)
    requires IsLater(o, p) && IsLater(p, q)
    ensures IsLater(o, q)
  {
  }

  lemma WriteKeepsVersions(s: State, f: Fip, o: Object)
    requires ViewsAreVersioned(s.api, s.clock, s.seen) && WritesLater(s, f, o)
    ensures (var t := Write(s, f, o); ViewsAreVersioned(t.api, t.clock, t.seen))
  {
    hide IsLater;
    var t := Write(s, f, o);
    forall i, g | 0 <= i < |t.seen| && g in t.seen[i]
      ensures SameVersionSameObject(t.api, t.clock, g, t.seen[i][g])
    {
      if i < |s.seen| {
        assert SameVersionSameObject(s.api, s.clock, g, s.seen[i][g]);
      } else if g in s.api {
        assert SameVersionSameObject(s.api, s.clock, g, s.seen[|s.seen| - 1][g]);
      }
    }
  }

  lemma WriteKeepsOrder(s: State, f: Fip, o: Object)
    requires ViewsAreVersioned(s.api, s.clock, s.seen) && HistoryIsOrdered(s.seen) && WritesLater(s, f, o)
    ensures HistoryIsOrdered(Write(s, f, o).seen)
  {
    hide IsLater;
    var t, n := Write(s, f, o), |s.seen| - 1;
    forall i, j, g | 0 <= i <= j < |t.seen| && g in t.seen[i] && g in t.seen[j]
      ensures IsLater(t.seen[i][g], t.seen[j][g])
    {
      if j <= n {
      } else if i > n {
        IsLaterItself(t.api[g]);
      } else if g in s.api {
        assert IsLater(s.seen[i][g], s.seen[n][g]);
        WrittenIsLater(s, f, o, g);
        LaterIsTransitive(s.seen[i][g], s.api[g], t.api[g]);
      } else {
        assert SameVersionSameObject(s.api, s.clock, g, s.seen[i][g]);
        NewIsLater(s.seen[i][g], t.api[g]);
      }
    }
  }

  lemma IsLaterItself(o: Object)
    ensures IsLater(o, o)
  {
  }

  lemma NewIsLater(o: Object, p: Object)
    requires o.uid < p.uid
    ensures IsLater(o, p)
  {
  }

  lemma WrittenIsLater(s: State, f: Fip, o: Object, g: Fip)
    requires g in s.api && WritesLater(s, f, o)
    ensures IsLater(s.api[g], Write(s, f, o).api[g])
  {
  }

  lemma WriteKeepsViewsSound(s: State, f: Fip, o: Object)
    requires History(s) && WritesLater(s, f, o)
    ensures ViewsAreSound(Write(s, f, o))
  {
    hide HistoryIsOrdered;
    var t, n := Write(s, f, o), |s.seen| - 1;
    forall i, g | LastView(t.viewed, g) <= i < |t.seen| && g in t.seen[i]
      ensures ViewIsSound(t.api, t.released, g, t.seen[i][g])
    {
      if i <= n {
        assert ViewIsSound(s.api, s.released, g, s.seen[i][g]);
      } else if g in s.api {
        assert ViewIsSound(s.api, s.released, g, s.seen[n][g]);
      }
    }
  }

  lemma WriteKeepsHistory(s: State, f: Fip, o: Object)
    requires History(s) && WritesLater(s, f, o)
    ensures History(Write(s, f, o))
  {
    WriteKeepsVersions(s, f, o);
    WriteKeepsOrder(s, f, o);
    WriteKeepsViewsSound(s, f, o);
    hide ViewsAreVersioned, HistoryIsOrdered, ViewsAreSound, WritesLater;
  }

  /** An object goes once its address is released. */
  lemma RemovalKeepsHistory(s: State, f: Fip)
    requires History(s) && f in s.api && (f, s.api[f].uid) in s.released
    ensures History(Removed(s, f))
  {
    var t, n := Removed(s, f), |s.seen| - 1;
    forall i, g | 0 <= i < |t.seen| && g in t.seen[i]
      ensures SameVersionSameObject(t.api, t.clock, g, t.seen[i][g])
    {
      assert SameVersionSameObject(s.api, s.clock, g, s.seen[if i <= n then i else n][g]);
    }
    forall i, j, g | 0 <= i <= j < |t.seen| && g in t.seen[i] && g in t.seen[j]
      ensures IsLater(t.seen[i][g], t.seen[j][g])
    {
      assert IsLater(s.seen[if i <= n then i else n][g], s.seen[if j <= n then j else n][g]);
    }
    forall i, g | LastView(t.viewed, g) <= i < |t.seen| && g in t.seen[i]
      ensures ViewIsSound(t.api, t.released, g, t.seen[i][g])
    {
      assert ViewIsSound(s.api, s.released, g, s.seen[if i <= n then i else n][g]);
    }
  }

  lemma ViewingKeepsHistory(s: State, f: Fip, view: nat)
    requires History(s) && LastView(s.viewed, f) <= view < |s.seen|
    ensures History(Viewing(s, f, view))
  {
    hide ViewIsSound, HistoryIsOrdered, ViewsAreVersioned;
    var t := Viewing(s, f, view);
    assert forall g :: LastView(s.viewed, g) <= LastView(t.viewed, g);
  }

  /** From a copy that is being deleted on, its object is only shown so. */
  lemma ReleasingKeepsHistory(s: State, f: Fip, view: nat)
    requires History(s) && LastView(s.viewed, f) == view < |s.seen| && f in s.seen[view] && s.seen[view][f].terminating
    ensures History(s.(released := s.released + {(f, s.seen[view][f].uid)}))
  {
    hide ViewsAreVersioned;
    var t := s.(released := s.released + {(f, s.seen[view][f].uid)});
    assert SameVersionSameObject(s.api, s.clock, f, s.seen[view][f]) by { IsOld(s, f, view); }
    forall i, g | LastView(t.viewed, g) <= i < |t.seen| && g in t.seen[i]
      ensures ViewIsSound(t.api, t.released, g, t.seen[i][g])
    {
      assert ViewIsSound(s.api, s.released, g, s.seen[i][g]);
      if g == f {
        assert IsLater(s.seen[view][f], s.seen[i][f]);
      }
    }
  }

  lemma IsOld(s: State, f: Fip, view: nat)
    requires ViewsAreVersioned(s.api, s.clock, s.seen) && view < |s.seen| && f in s.seen[view]
    ensures SameVersionSameObject(s.api, s.clock, f, s.seen[view][f])
  {
  }

  lemma RestartKeepsHistory(s: State)
    requires History(s)
    ensures History(s.(seen := [s.api], viewed := map[]))
  {
    var t, n := s.(seen := [s.api], viewed := map[]), |s.seen| - 1;
    forall f | f in s.api
      ensures SameVersionSameObject(s.api, s.clock, f, s.api[f]) && ViewIsSound(s.api, s.released, f, s.api[f])
    {
      assert SameVersionSameObject(s.api, s.clock, f, s.seen[n][f]);
      assert LastView(s.viewed, f) <= n;
      assert ViewIsSound(s.api, s.released, f, s.seen[n][f]);
    }
  }

  /** The current object of a FloatingIP is being deleted if it has released. */
  lemma ReleasedIsTerminating(s: State, f: Fip)
    requires History(s) && f in s.api && (f, s.api[f].uid) in s.released
    ensures s.api[f].terminating
  {
    assert LastView(s.viewed, f) <= |s.seen| - 1;
    assert ViewIsSound(s.api, s.released, f, s.seen[|s.seen| - 1][f]);
  }

  /** A copy that is not being deleted is the current object, and the only one that the
      passes of its FloatingIP are shown from now on. */
  lemma LiveCopyIsCurrent(s: State, f: Fip, view: nat)
    requires History(s) && LastView(s.viewed, f) <= view < |s.seen| && f in s.seen[view]
    requires !s.seen[view][f].terminating
    ensures IsCurrent(Viewing(s, f, view), f) && s.api[f].uid == s.seen[view][f].uid
  {
    hide ViewsAreVersioned;
    var n, uid := |s.seen| - 1, s.seen[view][f].uid;
    assert ViewIsSound(s.api, s.released, f, s.seen[view][f]);
    assert s.seen[n] == s.api by { LastIsCurrent(s); }
    forall i | view <= i < |s.seen| && f in s.seen[i]
      ensures s.seen[i][f].uid == uid
    {
      assert IsLater(s.seen[view][f], s.seen[i][f]) && IsLater(s.seen[i][f], s.seen[n][f]);
    }
  }

  lemma LastIsCurrent(s: State)
    requires ViewsAreVersioned(s.api, s.clock, s.seen)
    ensures s.seen[|s.seen| - 1] == s.api
  {
  }

  // ---------------------------------------------------------------- unique statuses

  lemma UniqueWhileReleasing(api: Api, released: set<Uid>, later: set<Uid>)
    requires UniqueStatuses(api, released) && released <= later
    ensures UniqueStatuses(api, later)
  {
    forall f, g | Holds(api, later, f) && g in api && f != g && api[f].status == api[g].status
      ensures api[g].terminating && (g, api[g].uid) in later
    {
      assert Holds(api, released, f);
    }
  }

  lemma ReleasingKeepsUnique(s: State, f: Fip, uid: nat)
    requires StatusesAreUnique(s)
    ensures StatusesAreUnique(s.(released := s.released + {(f, uid)}))
  {
    hide UniqueStatuses;
    var t := s.(released := s.released + {(f, uid)});
    UniqueWhileReleasing(s.api, s.released, t.released);
    forall i | 0 <= i < |t.seen|
      ensures UniqueStatuses(t.seen[i], t.released)
    {
      UniqueWhileReleasing(s.seen[i], s.released, t.released);
    }
    forall g | Holds(t.api, t.released, g)
      ensures OnlySees(t, g, t.api[g].uid)
    {
      assert Holds(s.api, s.released, g);
      assert OnlySees(s, g, s.api[g].uid);
    }
  }

  lemma ViewingKeepsUnique(s: State, f: Fip, view: nat)
    requires StatusesAreUnique(s) && LastView(s.viewed, f) <= view
    ensures StatusesAreUnique(Viewing(s, f, view))
  {
    hide UniqueStatuses;
    var t := Viewing(s, f, view);
    forall g | Holds(t.api, t.released, g)
      ensures OnlySees(t, g, t.api[g].uid)
    {
      assert OnlySees(s, g, s.api[g].uid);
    }
  }

  /** An address that comes into a status is in no other one that is not released. */
  ghost predicate StatusIsOwn(s: State, f: Fip, o: Object) {
    o.status.Some? && !(f in s.api && s.api[f].status == o.status) ==>
      && IsCurrent(s, f)
      && forall g :: g in s.api && g != f && s.api[g].status == o.status ==>
           s.api[g].terminating && (g, s.api[g].uid) in s.released
  }

  lemma WriteKeepsUniqueStatuses(s: State, f: Fip, o: Object)
    requires UniqueStatuses(s.api, s.released) && WritesLater(s, f, o) && StatusIsOwn(s, f, o)
    ensures UniqueStatuses(Write(s, f, o).api, s.released)
  {
    hide IsCurrent;
    var t := Write(s, f, o);
    forall g, h | Holds(t.api, t.released, g) && h in t.api && g != h && t.api[g].status == t.api[h].status
      ensures t.api[h].terminating && (h, t.api[h].uid) in t.released
    {
      assert g != f ==> Holds(s.api, s.released, g);
      assert g == f && f in s.api && s.api[f].status == o.status ==> Holds(s.api, s.released, f);
    }
  }

  lemma WriteKeepsUnique(s: State, f: Fip, o: Object)
    requires StatusesAreUnique(s) && WritesLater(s, f, o) && StatusIsOwn(s, f, o)
    ensures StatusesAreUnique(Write(s, f, o))
  {
    hide UniqueStatuses;
    var t := Write(s, f, o);
    WriteKeepsUniqueStatuses(s, f, o);
    forall g | Holds(t.api, t.released, g)
      ensures OnlySees(t, g, t.api[g].uid)
    {
      if g != f || (f in s.api && s.api[f].status == o.status) {
        assert Holds(s.api, s.released, g);
      }
      assert OnlySees(s, g, s.api[g].uid);
    }
  }

  lemma RemovalKeepsUnique(s: State, f: Fip)
    requires StatusesAreUnique(s)
    ensures StatusesAreUnique(Removed(s, f))
  {
    var t := Removed(s, f);
    forall g | Holds(t.api, t.released, g)
      ensures Holds(s.api, s.released, g) && OnlySees(t, g, t.api[g].uid)
    {
      assert OnlySees(s, g, s.api[g].uid);
    }
  }

  lemma RestartKeepsUnique(s: State)
    requires StatusesAreUnique(s)
    ensures StatusesAreUnique(s.(seen := [s.api], viewed := map[]))
  {
    hide UniqueStatuses;
  }
}
