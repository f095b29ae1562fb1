/** The registry of services that the labels of a FloatingIP encode: one pair of labels
    for every service, numbered, beside a project, a cluster and a group label. */
module Registry {
  import opened Common
  import opened Text

  const SERVICE := "rancher.k8s.binbash.org/service-"
  const PROJECT := "rancher.k8s.binbash.org/project-name"
  const CLUSTER := "rancher.k8s.binbash.org/cluster-name"
  const GROUP := "rancher.k8s.binbash.org/floatingip-group"
  const NAME := "-name"
  const NAMESPACE := "-namespace"

  datatype Service = Service(namespace: string, name: string)

  function NameKey(id: string): string {
    SERVICE + id + NAME
  }

  function NamespaceKey(id: string): string {
    SERVICE + id + NAMESPACE
  }

  predicate IsNameKey(key: string) {
    HasPrefix(key, SERVICE) && HasSuffix(key, NAME)
  }

  predicate IsNamespaceKey(key: string) {
    HasPrefix(key, SERVICE) && HasSuffix(key, NAMESPACE)
  }

  /** The number in a label key, as the allocation of new numbers cuts it out. */
  function IdOf(key: string): string {
    TrimSuffix(TrimPrefix(key, SERVICE), NAME)
  }

  /** The number in a label key, as the lookup of services cuts it out. */
  function LookupIdOf(key: string): string {
    TrimPrefix(TrimSuffix(key, NAME), SERVICE)
  }

  // ----------------------------------------------------------------------------- keys

  lemma NameKeyFacts(id: string)
    ensures IsNameKey(NameKey(id)) && !IsNamespaceKey(NameKey(id))
    ensures IdOf(NameKey(id)) == id == LookupIdOf(NameKey(id))
  {
    var key := NameKey(id);
    assert key[|SERVICE|..] == id + NAME;
    assert key[..|key| - |NAME|] == SERVICE + id;
    assert key[|key| - 1] == 'e' && key[|key| - 2] == 'm';
  }

  lemma NamespaceKeyFacts(id: string)
    ensures IsNamespaceKey(NamespaceKey(id)) && !IsNameKey(NamespaceKey(id))
    ensures NamespaceKey(id)[|SERVICE|..] == id + NAMESPACE
  {
    var key := NamespaceKey(id);
    assert key[|key| - 2] == 'c';
  }

  lemma KeysAreInjective(i: string, j: string)
    ensures NameKey(i) == NameKey(j) ==> i == j
    ensures NamespaceKey(i) == NamespaceKey(j) ==> i == j
    ensures NameKey(i) != NamespaceKey(j)
  {
    NameKeyFacts(i);
    NameKeyFacts(j);
    NamespaceKeyFacts(i);
    NamespaceKeyFacts(j);
    if NamespaceKey(i) == NamespaceKey(j) {
      assert (i + NAMESPACE)[..|i|] == i && (j + NAMESPACE)[..|j|] == j;
    }
  }

  lemma OtherKeys()
    ensures !HasPrefix(PROJECT, SERVICE) && !HasPrefix(CLUSTER, SERVICE) && !HasPrefix(GROUP, SERVICE)
    ensures PROJECT != CLUSTER && PROJECT != GROUP && CLUSTER != GROUP
  {
    assert PROJECT[24] == 'p' && CLUSTER[24] == 'c' && GROUP[24] == 'f' && SERVICE[24] == 's';
  }

  // -------------------------------------------------------------------------- numbers

  /** The greatest number of the labels, or -1 when there is none. */
  ghost predicate IsGreatestId(labels: Labels, max: int) {
    && -1 <= max <= MAX_INT
    && (forall key :: key in labels && IsNameKey(key) && Atoi(IdOf(key)).Some? ==> Atoi(IdOf(key)).value <= max)
    && (max == -1 || exists key :: key in labels && IsNameKey(key) && Atoi(IdOf(key)) == Some(max))
  }

  function IdAfter(max: int): string {
    if max >= 0 then Itoa(Increment(max)) else "0"
  }

  lemma IdAfterIsNext(max: int)
    requires -1 <= max <= MAX_INT
    ensures IdAfter(max) == Itoa(if max < MAX_INT then max + 1 else MIN_INT)
  {
    assert Decimal(0) == "0";
  }

  /** The number chosen for a new service is not in use, with one exception: after the
      greatest machine integer comes the least one, and its label may exist. */
  lemma NextIdIsUnusedIff(labels: Labels, max: int)
    requires IsGreatestId(labels, max)
    ensures NameKey(IdAfter(max)) in labels <==> max == MAX_INT && NameKey(Itoa(MIN_INT)) in labels
  {
    hide NameKey, IsNameKey, IsNamespaceKey, Itoa, Atoi, IdAfter, IdOf, LookupIdOf;
    IdAfterIsNext(max);
    NameKeyFacts(IdAfter(max));
    if max < MAX_INT {
      AtoiUndoesItoa(max + 1);
    }
  }

  // ------------------------------------------------------------------------- encoding

  type Registrations = map<nat, Service>

  /** The labels hold these services and nothing else under the service prefix. */
  ghost predicate Encodes(labels: Labels, reg: Registrations) {
    && (forall id :: id in reg ==> id <= MAX_INT && Holds(labels, id, reg[id]))
    && (forall key :: key in labels && HasPrefix(key, SERVICE) ==> exists id :: id in reg && IsKeyOf(key, id))
  }

  predicate Holds(labels: Labels, id: nat, svc: Service) {
    && NameKey(Itoa(id)) in labels && labels[NameKey(Itoa(id))] == svc.name
    && NamespaceKey(Itoa(id)) in labels && labels[NamespaceKey(Itoa(id))] == svc.namespace
  }

  predicate IsKeyOf(key: string, id: nat) {
    key == NameKey(Itoa(id)) || key == NamespaceKey(Itoa(id))
  }

  /** The name labels of a service. */
  predicate IsPair(labels: Labels, key: string, svc: Service) {
    && key in labels && IsNameKey(key) && labels[key] == svc.name
    && NamespaceKey(LookupIdOf(key)) in labels && labels[NamespaceKey(LookupIdOf(key))] == svc.namespace
  }

  predicate AlreadyExists(labels: Labels, svc: Service) {
    exists key :: key in labels && IsPair(labels, key, svc)
  }

  predicate HasServices(labels: Labels) {
    exists key :: key in labels && IsNameKey(key)
  }

  predicate NoServiceTwice(reg: Registrations) {
    forall i, j :: i in reg && j in reg && reg[i] == reg[j] ==> i == j
  }

  lemma ItoaIsInjective(i: nat, j: nat)
    requires i <= MAX_INT && j <= MAX_INT && Itoa(i) == Itoa(j)
    ensures i == j
  {
    AtoiUndoesItoa(i);
    AtoiUndoesItoa(j);
  }

  lemma IdsAreInjective(i: nat, j: nat)
    requires i <= MAX_INT && j <= MAX_INT
    ensures NameKey(Itoa(i)) == NameKey(Itoa(j)) ==> i == j
    ensures NamespaceKey(Itoa(i)) == NamespaceKey(Itoa(j)) ==> i == j
    ensures NameKey(Itoa(i)) != NamespaceKey(Itoa(j))
  {
    KeysAreInjective(Itoa(i), Itoa(j));
    if Itoa(i) == Itoa(j) {
      ItoaIsInjective(i, j);
    }
  }

  lemma NameKeyIsSomeones(labels: Labels, reg: Registrations, key: string) returns (id: nat)
    requires Encodes(labels, reg) && key in labels && IsNameKey(key)
    ensures id in reg && key == NameKey(Itoa(id)) && IdOf(key) == Itoa(id) == LookupIdOf(key)
  {
    id :| id in reg && IsKeyOf(key, id);
    NameKeyFacts(Itoa(id));
    NamespaceKeyFacts(Itoa(id));
  }

  /** A lookup of labels is a lookup in the registry. */
  lemma PairsAreRegistrations(labels: Labels, reg: Registrations, key: string, svc: Service)
    requires Encodes(labels, reg)
    ensures IsPair(labels, key, svc) <==> exists id :: id in reg && key == NameKey(Itoa(id)) && reg[id] == svc
  {
    if key in labels && IsNameKey(key) {
      var id := NameKeyIsSomeones(labels, reg, key);
      assert Holds(labels, id, reg[id]);
      if j :| j in reg && key == NameKey(Itoa(j)) && reg[j] == svc {
        IdsAreInjective(id, j);
      }
    }
    if id :| id in reg && key == NameKey(Itoa(id)) && reg[id] == svc {
      NameKeyFacts(Itoa(id));
      assert Holds(labels, id, reg[id]);
    }
  }

  lemma ExistsIffRegistered(labels: Labels, reg: Registrations, svc: Service)
    requires Encodes(labels, reg)
    ensures AlreadyExists(labels, svc) <==> exists id :: id in reg && reg[id] == svc
  {
    if AlreadyExists(labels, svc) {
      var key :| key in labels && IsPair(labels, key, svc);
      PairsAreRegistrations(labels, reg, key, svc);
    }
    if id :| id in reg && reg[id] == svc {
      PairsAreRegistrations(labels, reg, NameKey(Itoa(id)), svc);
      assert IsPair(labels, NameKey(Itoa(id)), svc);
    }
  }

  lemma HasServicesIff(labels: Labels, reg: Registrations)
    requires Encodes(labels, reg)
    ensures HasServices(labels) <==> reg != map[]
  {
    if HasServices(labels) {
      var key :| key in labels && IsNameKey(key);
      var id := NameKeyIsSomeones(labels, reg, key);
    }
    if reg != map[] {
      var id :| id in reg;
      assert Holds(labels, id, reg[id]);
      NameKeyFacts(Itoa(id));
    }
  }
}
