/** What a claim, a release and the removal of a cluster do to the registry that the
    labels of a FloatingIP encode. */
module RegistryUpdates {
  import opened Common
  import opened Text
  import opened Registry

  // ------------------------------------------------------------------------ operations

  function Register(labels: Labels, id: string, svc: Service): Labels {
    labels[NameKey(id) := svc.name][NamespaceKey(id) := svc.namespace]
  }

  function Owned(labels: Labels, project: string, cluster: string): Labels {
    labels[PROJECT := project][CLUSTER := cluster]
  }

  function Grouped(labels: Labels, group: string): Labels {
    if group != "" then labels[GROUP := group] else labels
  }

  /** The labels after a request; id is the number chosen for a new service. */
  function Applied(labels: Labels, project: string, cluster: string, svc: Service, group: string, id: string): Labels {
    var owned := Owned(labels, project, cluster);
    Grouped(if AlreadyExists(owned, svc) then owned else Register(owned, id, svc), group)
  }

  function Unregister(labels: Labels, key: string): Labels {
    labels - {key, NamespaceKey(LookupIdOf(key))}
  }

  /** The group and the cluster go when no service is left. */
  function Tidied(labels: Labels): Labels {
    if HasServices(labels) then labels
    else (if GROUP in labels && labels[GROUP] != "" then labels - {GROUP} else labels) - {CLUSTER}
  }

  /** A release removes one pair of labels of the service, whichever it meets first. */
  ghost predicate IsReleased(labels: Labels, svc: Service, after: Labels) {
    if !AlreadyExists(labels, svc) then after == Tidied(labels)
    else exists key :: IsPair(labels, key, svc) && after == Tidied(Unregister(labels, key))
  }

  predicate IsClaimKey(key: string) {
    key == CLUSTER || key == GROUP || (HasPrefix(key, SERVICE) && (HasSuffix(key, NAME) || HasSuffix(key, NAMESPACE)))
  }

  function Stripped(labels: Labels): Labels {
    map key | key in labels && !IsClaimKey(key) :: labels[key]
  }

  // --------------------------------------------------------- what they do to the registry

  /** The labels of a FloatingIP at rest: no service is listed twice, and there is a
      cluster exactly when there is a service. */
  ghost predicate WellKept(labels: Labels, reg: Registrations) {
    Encodes(labels, reg) && NoServiceTwice(reg) && (CLUSTER in labels <==> reg != map[])
  }

  /** Labels outside the service prefix say nothing about the registry. */
  lemma SameServicesSameRegistry(labels: Labels, other: Labels, reg: Registrations)
    requires Encodes(labels, reg)
    requires forall key :: HasPrefix(key, SERVICE) ==>
      (key in labels <==> key in other) && (key in labels ==> labels[key] == other[key])
    ensures Encodes(other, reg)
  {
    forall id | id in reg
      ensures Holds(other, id, reg[id])
    {
      assert Holds(labels, id, reg[id]);
      NameKeyFacts(Itoa(id));
      NamespaceKeyFacts(Itoa(id));
    }
  }

  /** The greatest number of the labels is that of the registry. */
  lemma GreatestIdIsRegistered(labels: Labels, reg: Registrations, max: int)
    requires Encodes(labels, reg) && IsGreatestId(labels, max)
    ensures forall id :: id in reg ==> id <= max
    ensures max >= 0 ==> max in reg
  {
    forall id | id in reg
      ensures id <= max
    {
      assert Holds(labels, id, reg[id]);
      NameKeyFacts(Itoa(id));
      AtoiUndoesItoa(id);
    }
    if max >= 0 {
      var key :| key in labels && IsNameKey(key) && Atoi(IdOf(key)) == Some(max);
      var id := NameKeyIsSomeones(labels, reg, key);
      AtoiUndoesItoa(id);
    }
  }

  lemma RegisterAdds(labels: Labels, reg: Registrations, id: nat, svc: Service)
    requires Encodes(labels, reg) && id !in reg && id <= MAX_INT
    ensures Encodes(Register(labels, Itoa(id), svc), reg[id := svc])
  {
    hide NameKey, NamespaceKey, Itoa;
    var after, more := Register(labels, Itoa(id), svc), reg[id := svc];
    IdsAreInjective(id, id);
    forall i | i in more
      ensures Holds(after, i, more[i])
    {
      IdsAreInjective(i, id);
      IdsAreInjective(id, i);
      if i != id {
        assert Holds(labels, i, reg[i]);
      }
    }
    forall key | key in after && HasPrefix(key, SERVICE)
      ensures exists i :: i in more && IsKeyOf(key, i)
    {
      if key in labels {
        var i :| i in reg && IsKeyOf(key, i);
        assert i in more;
      } else {
        assert IsKeyOf(key, id);
      }
    }
  }

  lemma OwningKeepsRegistry(labels: Labels, reg: Registrations, project: string, cluster: string, svc: Service)
    requires Encodes(labels, reg)
    ensures Encodes(Owned(labels, project, cluster), reg)
    ensures AlreadyExists(Owned(labels, project, cluster), svc) <==> exists id :: id in reg && reg[id] == svc
  {
    hide NameKey, NamespaceKey, Itoa, AlreadyExists;
    OtherKeys();
    SameServicesSameRegistry(labels, Owned(labels, project, cluster), reg);
    ExistsIffRegistered(Owned(labels, project, cluster), reg, svc);
  }

  lemma GroupingKeepsRegistry(labels: Labels, reg: Registrations, group: string)
    requires Encodes(labels, reg)
    ensures Encodes(Grouped(labels, group), reg)
    ensures CLUSTER in labels ==> CLUSTER in Grouped(labels, group)
  {
    hide NameKey, NamespaceKey, Itoa;
    OtherKeys();
    SameServicesSameRegistry(labels, Grouped(labels, group), reg);
  }

  lemma KnownStaysRegistered(owned: Labels, reg: Registrations, svc: Service, group: string)
    requires Encodes(owned, reg) && NoServiceTwice(reg) && CLUSTER in owned
    requires exists id :: id in reg && reg[id] == svc
    ensures WellKept(Grouped(owned, group), reg)
  {
    hide Encodes, Grouped, NoServiceTwice;
    GroupingKeepsRegistry(owned, reg, group);
    assert reg != map[];
  }

  lemma NewIsRegistered(owned: Labels, reg: Registrations, id: nat, svc: Service, group: string)
    requires Encodes(owned, reg) && NoServiceTwice(reg) && CLUSTER in owned
    requires id !in reg && id <= MAX_INT && forall i :: i in reg ==> reg[i] != svc
    ensures WellKept(Grouped(Register(owned, Itoa(id), svc), group), reg[id := svc])
  {
    hide Encodes, Grouped, NameKey, NamespaceKey, Itoa;
    var registered, after := Register(owned, Itoa(id), svc), reg[id := svc];
    RegisterAdds(owned, reg, id, svc);
    assert CLUSTER in registered && id in after && NoServiceTwice(after);
    GroupingKeepsRegistry(registered, after, group);
  }

  /** A claim lists the service once, under a number greater than all others. */
  lemma ClaimRegisters(
        labels: Labels, reg: Registrations, project: string, cluster: string, svc: Service, group: string,
        max: int)
    returns (after: Registrations)
    requires Encodes(labels, reg) && NoServiceTwice(reg) && IsGreatestId(labels, max)
    requires max < MAX_INT
    ensures WellKept(Applied(labels, project, cluster, svc, group, IdAfter(max)), after)
    ensures if exists id :: id in reg && reg[id] == svc then after == reg
            else after == reg[max + 1 := svc] && forall id :: id in reg ==> id < max + 1
  {
    GreatestIdIsRegistered(labels, reg, max);
    IdAfterIsNext(max);
    var next: nat := max + 1;
    hide IsGreatestId, IdAfter, Itoa, Encodes, NoServiceTwice, WellKept, AlreadyExists, Grouped, Register;
    var owned := Owned(labels, project, cluster);
    OwningKeepsRegistry(labels, reg, project, cluster, svc);
    assert CLUSTER in owned;
    hide Owned;
    if AlreadyExists(owned, svc) {
      after := reg;
      KnownStaysRegistered(owned, reg, svc, group);
    } else {
      after := reg[next := svc];
      NewIsRegistered(owned, reg, next, svc, group);
    }
  }

  /** Besides, a claim names its project, its cluster and its group, if it has one, and
      leaves every other label outside the service prefix as it was. */
  lemma ClaimNamesTheRest(
        labels: Labels, project: string, cluster: string, svc: Service, group: string, id: string)
    ensures var after := Applied(labels, project, cluster, svc, group, id);
      && PROJECT in after && after[PROJECT] == project && CLUSTER in after && after[CLUSTER] == cluster
      && (if group != "" then GROUP in after && after[GROUP] == group else Unchanged(labels, after, GROUP))
      && forall key :: IsOther(key) && key != PROJECT ==> Unchanged(labels, after, key)
  {
    hide AlreadyExists, HasSuffix;
    OtherKeys();
    assert HasPrefix(NameKey(id), SERVICE) && HasPrefix(NamespaceKey(id), SERVICE);
  }

  /** With the greatest machine integer in use, the next number is no number: the
      labels encode a registry afterwards exactly when no number was needed. */
  lemma ClaimOverflowsIff(
        labels: Labels, reg: Registrations, project: string, cluster: string, svc: Service, group: string,
        max: int)
    requires Encodes(labels, reg) && NoServiceTwice(reg) && IsGreatestId(labels, max)
    ensures (exists after :: Encodes(Applied(labels, project, cluster, svc, group, IdAfter(max)), after))
       <==> MAX_INT !in reg || AlreadyExists(labels, svc)
  {
    hide NameKey, NamespaceKey, Itoa, IsNameKey, IsNamespaceKey, LookupIdOf, IdOf, HasPrefix, HasSuffix;
    GreatestIdIsRegistered(labels, reg, max);
    ExistsIffRegistered(labels, reg, svc);
    var applied := Applied(labels, project, cluster, svc, group, IdAfter(max));
    var owned := Owned(labels, project, cluster);
    OwningKeepsRegistry(labels, reg, project, cluster, svc);
    if max < MAX_INT {
      var after := ClaimRegisters(labels, reg, project, cluster, svc, group, max);
    } else if AlreadyExists(labels, svc) {
      GroupingKeepsRegistry(owned, reg, group);
    } else {
      NameKeyFacts(Itoa(MIN_INT));
      assert NameKey(Itoa(MIN_INT)) in applied;
      forall after | Encodes(applied, after)
        ensures false
      {
        var id := NameKeyIsSomeones(applied, after, NameKey(Itoa(MIN_INT)));
        AtoiUndoesItoa(id);
        AtoiUndoesItoa(MIN_INT);
      }
    }
  }

  lemma UnregisterRemoves(labels: Labels, reg: Registrations, id: nat)
    requires Encodes(labels, reg) && id in reg
    ensures Encodes(Unregister(labels, NameKey(Itoa(id))), reg - {id})
  {
    hide NameKey, NamespaceKey, Itoa;
    var key := NameKey(Itoa(id));
    var after := Unregister(labels, key);
    NameKeyFacts(Itoa(id));
    forall i | i in reg && i != id
      ensures Holds(after, i, reg[i])
    {
      assert Holds(labels, i, reg[i]);
      IdsAreInjective(i, id);
      IdsAreInjective(id, i);
    }
    forall k | k in after && HasPrefix(k, SERVICE)
      ensures exists i :: i in reg - {id} && IsKeyOf(k, i)
    {
      var i :| i in reg && IsKeyOf(k, i);
      assert i in reg - {id};
    }
  }

  lemma TidyingKeepsRegistry(labels: Labels, reg: Registrations)
    requires Encodes(labels, reg)
    ensures Encodes(Tidied(labels), reg)
    ensures CLUSTER in Tidied(labels) <==> CLUSTER in labels && reg != map[]
  {
    OtherKeys();
    HasServicesIff(labels, reg);
    SameServicesSameRegistry(labels, Tidied(labels), reg);
  }

  /** A label that is neither a service's nor the cluster's nor the group's. */
  predicate IsOther(key: string) {
    !HasPrefix(key, SERVICE) && key != CLUSTER && key != GROUP
  }

  /** A label as it was: there with the same value, or not there. */
  predicate Unchanged(labels: Labels, after: Labels, key: string) {
    (key in after <==> key in labels) && (key in labels ==> after[key] == labels[key])
  }

  lemma TidyingLeavesTheRest(labels: Labels, reg: Registrations)
    requires Encodes(labels, reg)
    ensures forall key :: IsOther(key) ==> Unchanged(labels, Tidied(labels), key)
    ensures reg != map[] ==> forall key :: Unchanged(labels, Tidied(labels), key)
    ensures reg == map[] ==> CLUSTER !in Tidied(labels)
    ensures reg == map[] ==> (GROUP in Tidied(labels) <==> GROUP in labels && labels[GROUP] == "")
  {
    hide HasPrefix, HasSuffix, Encodes;
    OtherKeys();
    HasServicesIff(labels, reg);
  }

  lemma UnregisteringLeavesTheRest(labels: Labels, id: nat)
    ensures forall key :: !HasPrefix(key, SERVICE) ==> Unchanged(labels, Unregister(labels, NameKey(Itoa(id))), key)
  {
    hide Itoa, HasSuffix;
    NameKeyFacts(Itoa(id));
    NamespaceKeyFacts(Itoa(id));
  }

  lemma PairIsUnique(labels: Labels, reg: Registrations, svc: Service, one: string, other: string)
    requires Encodes(labels, reg) && NoServiceTwice(reg) && IsPair(labels, one, svc) && IsPair(labels, other, svc)
    ensures one == other
  {
    hide NameKey, NamespaceKey, Itoa, IsPair;
    PairsAreRegistrations(labels, reg, one, svc);
    PairsAreRegistrations(labels, reg, other, svc);
  }

  /** While services remain, every label outside their prefix stays as it was; with the
      last one exactly the cluster label and a group's name go too. */
  ghost predicate RestStays(labels: Labels, after: Labels, left: Registrations) {
    if left != map[] then forall key :: !HasPrefix(key, SERVICE) ==> Unchanged(labels, after, key)
    else
      && CLUSTER !in after && (GROUP in after <==> GROUP in labels && labels[GROUP] == "")
      && forall key :: IsOther(key) ==> Unchanged(labels, after, key)
  }

  lemma RestStaysThrough(labels: Labels, middle: Labels, left: Registrations)
    requires forall key :: !HasPrefix(key, SERVICE) ==> Unchanged(labels, middle, key)
    requires Encodes(middle, left)
    ensures RestStays(labels, Tidied(middle), left)
  {
    hide HasPrefix, Tidied, Encodes;
    TidyingLeavesTheRest(middle, left);
    OtherKeys();
    assert Unchanged(labels, middle, GROUP);
    forall key | if left != map[] then !HasPrefix(key, SERVICE) else IsOther(key)
      ensures Unchanged(labels, Tidied(middle), key)
    {
      assert Unchanged(labels, middle, key) && Unchanged(middle, Tidied(middle), key);
    }
  }

  lemma OneGoes(reg: Registrations, svc: Service, id: nat)
    requires NoServiceTwice(reg) && id in reg && reg[id] == svc
    ensures reg - {id} == map i | i in reg && reg[i] != svc :: reg[i]
    ensures NoServiceTwice(reg - {id})
  {
  }

  lemma PairGoes(labels: Labels, reg: Registrations, svc: Service, key: string, left: Registrations)
    requires WellKept(labels, reg) && IsPair(labels, key, svc)
    requires left == map id | id in reg && reg[id] != svc :: reg[id]
    ensures WellKept(Tidied(Unregister(labels, key)), left)
    ensures RestStays(labels, Tidied(Unregister(labels, key)), left)
  {
    hide NameKey, NamespaceKey, Itoa, HasPrefix, HasSuffix, Tidied, Unregister, IsPair;
    PairsAreRegistrations(labels, reg, key, svc);
    var id :| id in reg && key == NameKey(Itoa(id)) && reg[id] == svc;
    UnregisterRemoves(labels, reg, id);
    OneGoes(reg, svc, id);
    UnregisteringLeavesTheRest(labels, id);
    OtherKeys();
    assert Unchanged(labels, Unregister(labels, key), CLUSTER);
    hide Encodes, NoServiceTwice;
    TidyingKeepsRegistry(Unregister(labels, key), left);
    RestStaysThrough(labels, Unregister(labels, key), left);
  }

  lemma NothingGoes(labels: Labels, reg: Registrations, svc: Service)
    requires WellKept(labels, reg) && !AlreadyExists(labels, svc)
    ensures WellKept(Tidied(labels), reg) && RestStays(labels, Tidied(labels), reg)
    ensures reg == map id | id in reg && reg[id] != svc :: reg[id]
  {
    ExistsIffRegistered(labels, reg, svc);
    hide Encodes, Tidied, HasPrefix, AlreadyExists;
    TidyingKeepsRegistry(labels, reg);
    RestStaysThrough(labels, labels, reg);
  }

  /** A release removes the service, and whatever order it meets labels in, it leaves
      the same ones. While services remain, every label outside their prefix stays as it
      was; with the last one exactly the cluster label and a group's name go too. */
  lemma ReleaseUnregisters(labels: Labels, reg: Registrations, svc: Service, after: Labels)
    returns (left: Registrations)
    requires WellKept(labels, reg) && IsReleased(labels, svc, after)
    ensures WellKept(after, left)
    ensures left == map id | id in reg && reg[id] != svc :: reg[id]
    ensures forall other :: IsReleased(labels, svc, other) ==> other == after
    ensures left != map[] ==> forall key :: !HasPrefix(key, SERVICE) ==> Unchanged(labels, after, key)
    ensures left == map[] ==>
      && CLUSTER !in after && (GROUP in after <==> GROUP in labels && labels[GROUP] == "")
      && forall key :: IsOther(key) ==> Unchanged(labels, after, key)
  {
    hide HasPrefix, Tidied, Unregister, IsPair, Encodes, NoServiceTwice, IsOther, Unchanged;
    left := map id | id in reg && reg[id] != svc :: reg[id];
    if AlreadyExists(labels, svc) {
      var key :| IsPair(labels, key, svc) && after == Tidied(Unregister(labels, key));
      PairGoes(labels, reg, svc, key, left);
      forall other | IsPair(labels, other, svc)
        ensures other == key
      {
        PairIsUnique(labels, reg, svc, key, other);
      }
    } else {
      NothingGoes(labels, reg, svc);
      assert left == reg;
    }
  }

  /** Deleting a cluster leaves no service and no cluster. */
  lemma StrippingUnregistersAll(labels: Labels, reg: Registrations)
    requires Encodes(labels, reg)
    ensures WellKept(Stripped(labels), map[])
    ensures CLUSTER !in Stripped(labels) && GROUP !in Stripped(labels)
    ensures forall key :: IsOther(key) ==> Unchanged(labels, Stripped(labels), key)
  {
    OtherKeys();
    forall key | key in labels && HasPrefix(key, SERVICE)
      ensures IsClaimKey(key)
    {
      var id :| id in reg && IsKeyOf(key, id);
      NameKeyFacts(Itoa(id));
      NamespaceKeyFacts(Itoa(id));
    }
  }

  lemma OnlyServiceReleased(labels: Labels, svc: Service, after: Labels)
    requires Encodes(labels, map[0 := svc]) && IsReleased(labels, svc, after)
    ensures var rest := Unregister(labels, NameKey(Itoa(0))); !HasServices(rest) && after == Tidied(rest)
  {
    hide NameKey, NamespaceKey, Itoa, IsPair, Encodes, Tidied, Unregister, HasServices;
    var reg: Registrations := map[0 := svc];
    ExistsIffRegistered(labels, reg, svc);
    assert reg[0] == svc;
    var key :| IsPair(labels, key, svc) && after == Tidied(Unregister(labels, key));
    PairsAreRegistrations(labels, reg, key, svc);
    UnregisterRemoves(labels, reg, 0);
    HasServicesIff(Unregister(labels, NameKey(Itoa(0))), reg - {0});
  }

  /** When a release right after a claim restores the labels of a FloatingIP that no
      service used: it had this project already, and no group of its own that the
      release would drop with the last service. */
  lemma ReleaseUndoesClaimIff(
        labels: Labels, project: string, cluster: string, svc: Service, group: string, max: int, after: Labels)
    requires WellKept(labels, map[]) && IsGreatestId(labels, max)
    requires IsReleased(Applied(labels, project, cluster, svc, group, IdAfter(max)), svc, after)
    ensures after == labels <==>
      && PROJECT in labels && labels[PROJECT] == project
      && (GROUP in labels ==> labels[GROUP] == "" && group == "")
  {
    hide NameKey, NamespaceKey, Itoa, IdAfter, Encodes, IsReleased, Tidied, Applied, AlreadyExists, Unregister;
    GreatestIdIsRegistered(labels, map[], max);
    IdAfterIsNext(max);
    OwningKeepsRegistry(labels, map[], project, cluster, svc);
    var reg := ClaimRegisters(labels, map[], project, cluster, svc, group, max);
    assert reg == map[0 := svc];
    OnlyServiceReleased(Applied(labels, project, cluster, svc, group, Itoa(0)), svc, after);
    UndoneLabels(labels, project, cluster, svc, group, after);
  }

  lemma UndoneLabels(labels: Labels, project: string, cluster: string, svc: Service, group: string, after: Labels)
    requires WellKept(labels, map[])
    requires var applied := Applied(labels, project, cluster, svc, group, Itoa(0));
      && !AlreadyExists(Owned(labels, project, cluster), svc)
      && !HasServices(Unregister(applied, NameKey(Itoa(0)))) && after == Tidied(Unregister(applied, NameKey(Itoa(0))))
    ensures after == labels <==>
      && PROJECT in labels && labels[PROJECT] == project
      && (GROUP in labels ==> labels[GROUP] == "" && group == "")
  {
    hide NameKey, NamespaceKey, Itoa, IsNameKey, IsNamespaceKey, LookupIdOf, IdOf, HasPrefix, HasSuffix;
    OtherKeys();
    NameKeyFacts(Itoa(0));
    NamespaceKeyFacts(Itoa(0));
    var touched := {NameKey(Itoa(0)), NamespaceKey(Itoa(0)), PROJECT, CLUSTER, GROUP};
    assert NameKey(Itoa(0)) !in labels && NamespaceKey(Itoa(0)) !in labels;
    assert forall key :: key !in touched ==>
      (key in after <==> key in labels) && (key in labels ==> after[key] == labels[key]);
    assert after[PROJECT] == project && CLUSTER !in after && CLUSTER !in labels;
    assert NameKey(Itoa(0)) !in after && NamespaceKey(Itoa(0)) !in after;
    assert GROUP in after <==> GROUP in labels && labels[GROUP] == "" && group == "";
  }
}
