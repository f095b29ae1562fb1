/** A FloatingIP whose label map the API server and the cluster manager change in
    place, and the manager's decoder of the registry in it. */
module LabelledFip {
  import opened Common
  import opened Text
  import opened Registry
  import opened RegistryUpdates

  class FloatingIP {
    var labels: Labels

    constructor (labels: Labels)
      ensures this.labels == labels
    {
      this.labels := labels;
    }

    /** One more than the greatest number in use. */
    method NextServiceID() returns (id: string)
      ensures exists max :: IsGreatestId(labels, max) && id == IdAfter(max)
    {
      hide HasPrefix, HasSuffix, TrimPrefix, TrimSuffix, Itoa;
      var maxID := -1;
      var rest := labels.Keys;
      while rest != {}
        invariant rest <= labels.Keys && -1 <= maxID <= MAX_INT
        invariant forall key ::
          key in labels && key !in rest && IsNameKey(key) && Atoi(IdOf(key)).Some? ==> Atoi(IdOf(key)).value <= maxID
        invariant maxID == -1 || exists key :: key in labels && IsNameKey(key) && Atoi(IdOf(key)) == Some(maxID)
        decreases rest
      {
        var key :| key in rest;
        rest := rest - {key};
        if HasPrefix(key, SERVICE) && HasSuffix(key, NAME) {
          var id := Atoi(IdOf(key));
          if id.Some? && id.value > maxID {
            maxID := id.value;
          }
        }
      }
      assert IsGreatestId(labels, maxID);
      if maxID >= 0 {
        return Itoa(Increment(maxID));
      }
      return "0";
    }

    method ServiceAlreadyExists(svc: Service) returns (found: bool)
      ensures found == AlreadyExists(labels, svc)
    {
      hide HasPrefix, HasSuffix, TrimPrefix, TrimSuffix, NamespaceKey;
      var rest := labels.Keys;
      while rest != {}
        invariant rest <= labels.Keys
        invariant forall key :: key in labels && key !in rest ==> !IsPair(labels, key, svc)
        decreases rest
      {
        var key :| key in rest;
        rest := rest - {key};
        if HasPrefix(key, SERVICE) && HasSuffix(key, NAME) && labels[key] == svc.name {
          var namespaceKey := NamespaceKey(LookupIdOf(key));
          if namespaceKey in labels && labels[namespaceKey] == svc.namespace {
            assert IsPair(labels, key, svc);
            return true;
          }
        }
      }
      return false;
    }

    /** Writes project, cluster, service and group labels; a service is listed once. */
    method ApplyRequestLabels(project: string, cluster: string, svc: Service, group: string) returns (added: bool)
      modifies this
      ensures added == !AlreadyExists(Owned(old(labels), project, cluster), svc)
      ensures exists max ::
        IsGreatestId(old(labels), max) && labels == Applied(old(labels), project, cluster, svc, group, IdAfter(max))
    {
      hide HasPrefix, HasSuffix, TrimPrefix, TrimSuffix, NamespaceKey, NameKey, AlreadyExists, IdAfter;
      labels := labels[PROJECT := project];
      labels := labels[CLUSTER := cluster];
      ghost var owned := labels;
      var id := NextServiceID();
      ghost var max :| IsGreatestId(owned, max) && id == IdAfter(max);
      GreatestIdIgnoresOwner(old(labels), project, cluster, max);
      var found := ServiceAlreadyExists(svc);
      added := !found;
      if added {
        labels := labels[NameKey(id) := svc.name];
        labels := labels[NamespaceKey(id) := svc.namespace];
      }
      if group != "" {
        labels := labels[GROUP := group];
      }
      assert labels == Applied(old(labels), project, cluster, svc, group, IdAfter(max));
    }

    /** Deletes the labels of a service, and those that nothing needs any more. */
    method Release(svc: Service)
      modifies this
      ensures IsReleased(old(labels), svc, labels)
    {
      hide HasPrefix, HasSuffix, TrimPrefix, TrimSuffix, NamespaceKey, NameKey;
      var rest := labels.Keys;
      var released := false;
      while rest != {} && !released
        invariant rest <= old(labels).Keys
        invariant !released ==> labels == old(labels)
        invariant !released ==> forall key :: key in labels && key !in rest ==> !IsPair(labels, key, svc)
        invariant released ==> exists key :: IsPair(old(labels), key, svc) && labels == Unregister(old(labels), key)
        decreases rest
      {
        var key :| key in rest;
        rest := rest - {key};
        if HasPrefix(key, SERVICE) && HasSuffix(key, NAME) {
          var namespaceKey := NamespaceKey(LookupIdOf(key));
          if namespaceKey in labels && labels[namespaceKey] == svc.namespace && labels[key] == svc.name {
            assert IsPair(labels, key, svc);
            labels := labels - {key};
            labels := labels - {namespaceKey};
            assert labels == Unregister(old(labels), key);
            released := true;
          }
        }
      }
      ghost var left := labels;
      Tidy();
      assert labels == Tidied(left);
      if released {
        ghost var key :| IsPair(old(labels), key, svc) && left == Unregister(old(labels), key);
        assert AlreadyExists(old(labels), svc);
      } else {
        assert !AlreadyExists(old(labels), svc);
      }
    }

    method Tidy()
      modifies this
      ensures labels == Tidied(old(labels))
    {
      hide HasPrefix, HasSuffix;
      OtherKeys();
      var remaining := CountServices();
      if GROUP in labels && labels[GROUP] != "" {
        if remaining == 0 {
          labels := labels - {GROUP};
        }
      }
      if remaining == 0 {
        labels := labels - {CLUSTER};
      }
    }

    method CountServices() returns (count: nat)
      ensures count == 0 <==> !HasServices(labels)
    {
      hide HasPrefix, HasSuffix;
      count := 0;
      var rest := labels.Keys;
      while rest != {}
        invariant rest <= labels.Keys
        invariant count == 0 <==> forall key :: key in labels && key !in rest ==> !IsNameKey(key)
        decreases rest
      {
        var key :| key in rest;
        rest := rest - {key};
        if HasPrefix(key, SERVICE) && HasSuffix(key, NAME) {
          count := count + 1;
        }
      }
    }

    /** Strips every claim of a cluster, while it goes through the labels. */
    method ReleaseClaimLabels()
      modifies this
      ensures labels == Stripped(old(labels))
    {
      hide HasPrefix, HasSuffix;
      OtherKeys();
      labels := labels - {CLUSTER};
      labels := labels - {GROUP};
      var rest := labels.Keys;
      while rest != {}
        invariant rest <= labels.Keys && labels.Keys <= old(labels).Keys
        invariant forall key :: key in labels ==> labels[key] == old(labels)[key]
        invariant CLUSTER !in labels && GROUP !in labels
        invariant forall key :: key in labels ==> key in rest || !IsClaimKey(key)
        invariant forall key :: key in old(labels) && !IsClaimKey(key) ==> key in labels
        decreases rest
      {
        var key :| key in rest;
        rest := rest - {key};
        if HasPrefix(key, SERVICE) {
          if HasSuffix(key, NAME) || HasSuffix(key, NAMESPACE) {
            labels := labels - {key};
          }
        }
      }
    }
  }

  lemma GreatestIdIgnoresOwner(labels: Labels, project: string, cluster: string, max: int)
    requires IsGreatestId(Owned(labels, project, cluster), max)
    ensures IsGreatestId(labels, max)
  {
    hide HasSuffix, TrimPrefix, TrimSuffix, Atoi;
    OtherKeys();
    assert forall key :: HasPrefix(key, SERVICE) ==> (key in labels <==> key in Owned(labels, project, cluster));
  }
}
