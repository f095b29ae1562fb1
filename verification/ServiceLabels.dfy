/** The manager's decoder: from the labels of a FloatingIP to the services it reports. */
module ServiceLabels {
  import opened Common
  import opened Text
  import opened Registry

  const PATTERN := "service-"

  /** Where the digits that start at i end. */
  function DigitsEnd(s: string, i: nat): (end: nat)
    requires i <= |s|
    ensures i <= end <= |s| && AllDigits(s[i..end])
    ensures end == |s| || !IsDigit(s[end])
    decreases |s| - i
  {
    if i < |s| && IsDigit(s[i]) then
      var end := DigitsEnd(s, i + 1);
      assert s[i..end] == [s[i]] + s[i + 1..end];
      end
    else i
  }

  datatype Field = NamespaceField | NameField

  datatype Match = Match(number: string, field: Field)

  /** The pattern service-, digits, and -namespace or -name, matched at i; whatever
      follows it does not matter. */
  function MatchAt(key: string, i: nat): Option<Match>
    requires i <= |key|
  {
    if !HasPrefix(key[i..], PATTERN) then None
    else
      var start := i + |PATTERN|;
      var end := DigitsEnd(key, start);
      if end == start then None
      else if HasPrefix(key[end..], NAMESPACE) then Some(Match(key[start..end], NamespaceField))
      else if HasPrefix(key[end..], NAME) then Some(Match(key[start..end], NameField))
      else None
  }

  /** The leftmost match. */
  function FindMatch(key: string, i: nat): Option<Match>
    requires i <= |key|
    decreases |key| - i
  {
    if MatchAt(key, i).Some? then MatchAt(key, i)
    else if i < |key| then FindMatch(key, i + 1)
    else None
  }

  /** A number too great to be scanned is left at its initial zero. */
  function Scan(number: string): int {
    if Atoi(number).Some? then Atoi(number).value else 0
  }

  /** The registered services in the order of their numbers. */
  ghost predicate InOrder(services: seq<Service>, reg: Registrations, ids: seq<nat>) {
    && |services| == |ids|
    && (forall i, j :: 0 <= i < j < |ids| ==> ids[i] < ids[j])
    && (forall id :: id in reg <==> id in ids)
    && (forall i :: 0 <= i < |ids| ==> ids[i] in reg && services[i] == reg[ids[i]])
  }

  lemma LastIsGreatest(services: seq<Service>, reg: Registrations, ids: seq<nat>, id: nat)
    requires InOrder(services, reg, ids) && id in reg
    ensures ids != [] && ids[|ids| - 1] in reg && id <= ids[|ids| - 1]
  {
    var i :| 0 <= i < |ids| && ids[i] == id;
    assert i < |ids| - 1 ==> ids[i] < ids[|ids| - 1];
  }

  lemma SameLast(services: seq<Service>, reg: Registrations, ids: seq<nat>, other: seq<Service>, otherIds: seq<nat>)
    requires InOrder(services, reg, ids) && InOrder(other, reg, otherIds) && ids != []
    ensures otherIds != [] && ids[|ids| - 1] == otherIds[|otherIds| - 1]
    ensures |services| == |ids| && |other| == |otherIds| && services[|ids| - 1] == other[|otherIds| - 1]
  {
    assert ids[|ids| - 1] in reg;
    hide InOrder;
    LastIsGreatest(other, reg, otherIds, ids[|ids| - 1]);
    LastIsGreatest(services, reg, ids, otherIds[|otherIds| - 1]);
    LastsAreRegistered(services, reg, ids);
    LastsAreRegistered(other, reg, otherIds);
  }

  lemma LastsAreRegistered(services: seq<Service>, reg: Registrations, ids: seq<nat>)
    requires InOrder(services, reg, ids) && ids != []
    ensures |services| == |ids| && ids[|ids| - 1] in reg && services[|ids| - 1] == reg[ids[|ids| - 1]]
  {
  }

  lemma NoneInOrder(services: seq<Service>, reg: Registrations, ids: seq<nat>, other: seq<Service>, otherIds: seq<nat>)
    requires InOrder(services, reg, ids) && InOrder(other, reg, otherIds) && ids == []
    ensures services == other == []
  {
    NoIdsIffNothing(services, reg, ids);
    NoIdsIffNothing(other, reg, otherIds);
  }

  lemma NoIdsIffNothing(services: seq<Service>, reg: Registrations, ids: seq<nat>)
    requires InOrder(services, reg, ids)
    ensures ids == [] <==> reg == map[]
  {
    if ids != [] {
      assert ids[0] in reg;
    } else {
      assert forall id :: id !in reg;
    }
  }

  /** The order leaves nothing open. */
  lemma {:induction false} InOrderIsUnique(
      services: seq<Service>, reg: Registrations, ids: seq<nat>, other: seq<Service>, otherIds: seq<nat>)
    requires InOrder(services, reg, ids) && InOrder(other, reg, otherIds)
    ensures services == other
    decreases |ids|
  {
    hide InOrder;
    if ids == [] {
      NoneInOrder(services, reg, ids, other, otherIds);
    } else {
      var n, m := |ids| - 1, |otherIds| - 1;
      SameLast(services, reg, ids, other, otherIds);
      LastOut(services, reg, ids);
      LastOut(other, reg, otherIds);
      InOrderIsUnique(services[..n], reg - {ids[n]}, ids[..n], other[..m], otherIds[..m]);
      assert services == services[..n] + [services[n]];
      assert other == other[..m] + [other[m]];
    }
  }

  lemma LastOut(services: seq<Service>, reg: Registrations, ids: seq<nat>)
    requires InOrder(services, reg, ids) && ids != []
    ensures |services| == |ids|
    ensures var n := |ids| - 1; InOrder(services[..n], reg - {ids[n]}, ids[..n])
  {
    var n := |ids| - 1;
    forall id | id in reg && id != ids[n]
      ensures id in ids[..n]
    {
      var i :| 0 <= i < |ids| && ids[i] == id;
      assert ids[..n][i] == id;
    }
  }

  lemma DigitsEndThere(s: string, i: nat, end: nat)
    requires i <= end < |s| && AllDigits(s[i..end]) && !IsDigit(s[end])
    ensures DigitsEnd(s, i) == end
    decreases end - i
  {
    if i < end {
      assert IsDigit(s[i..end][0]);
      assert s[i + 1..end] == s[i..end][1..];
      DigitsEndThere(s, i + 1, end);
    }
  }

  lemma NoEarlierMatch(key: string, i: nat)
    requires HasPrefix(key, SERVICE) && i < 24
    ensures MatchAt(key, i).None?
  {
    assert key[i] == SERVICE[i] && key[i + 1] == SERVICE[i + 1];
    assert SERVICE[i] != 's' || SERVICE[i + 1] != 'e';
    assert key[i..][0] == key[i] && key[i..][1] == key[i + 1];
  }

  lemma MatchAfterPrefix(key: string, number: string, suffix: string)
    requires key == SERVICE + number + suffix && number != "" && AllDigits(number)
    requires suffix == NAME || suffix == NAMESPACE
    ensures MatchAt(key, 24) == Some(Match(number, if suffix == NAME then NameField else NamespaceField))
  {
    var end := |SERVICE| + |number|;
    assert key[24..] == PATTERN + number + suffix by {
      assert SERVICE == SERVICE[..24] + PATTERN;
    }
    assert key[32..end] == number;
    assert key[end..] == suffix;
    assert key[end] == suffix[0] == '-';
    DigitsEndThere(key, 32, end);
    assert NAME[2] != NAMESPACE[2] || |NAME| < |NAMESPACE|;
  }

  lemma {:induction false} FindSkips(key: string, i: nat)
    requires HasPrefix(key, SERVICE) && i <= 24
    ensures FindMatch(key, i) == FindMatch(key, 24)
    decreases 24 - i
  {
    assert |SERVICE| <= |key|;
    hide MatchAt, HasPrefix;
    if i < 24 {
      NoEarlierMatch(key, i);
      FindSkips(key, i + 1);
    }
  }

  /** The decoder cuts out of a registry's label exactly its number and field. */
  lemma FindsTheNumber(id: nat)
    requires id <= MAX_INT
    ensures FindMatch(NameKey(Itoa(id)), 0) == Some(Match(Itoa(id), NameField))
    ensures FindMatch(NamespaceKey(Itoa(id)), 0) == Some(Match(Itoa(id), NamespaceField))
    ensures Scan(Itoa(id)) == id
  {
    FindSkips(NameKey(Itoa(id)), 0);
    FindSkips(NamespaceKey(Itoa(id)), 0);
    MatchAfterPrefix(NameKey(Itoa(id)), Itoa(id), NAME);
    MatchAfterPrefix(NamespaceKey(Itoa(id)), Itoa(id), NAMESPACE);
    AtoiUndoesItoa(id);
  }

  // ------------------------------------------------------------------------ decoding

  /** Field by field, what the decoder has of a registry after some of its labels. */
  ghost predicate DecodedSoFar(table: map<int, Service>, reg: Registrations, done: set<string>) {
    && (forall n :: n in table ==> n >= 0 && n in reg)
    && (forall id: nat :: id in reg ==>
          EntrySoFar(table, reg[id], id, NameKey(Itoa(id)) in done, NamespaceKey(Itoa(id)) in done))
  }

  ghost predicate EntrySoFar(table: map<int, Service>, svc: Service, id: nat, name: bool, namespace: bool) {
    && (id in table <==> name || namespace)
    && (id in table ==> table[id] == Service(if namespace then svc.namespace else "", if name then svc.name else ""))
  }

  /** What the decoder does with one label. */
  function Decode(table: map<int, Service>, key: string, value: string): map<int, Service> {
    var m := FindMatch(key, 0);
    if !HasPrefix(key, SERVICE) || m.None? then table
    else
      var index := Scan(m.value.number);
      var entry := if index in table then table[index] else Service("", "");
      table[index := match m.value.field
                     case NamespaceField => entry.(namespace := value)
                     case NameField => entry.(name := value)]
  }

  lemma DecodesOneLabel(table: map<int, Service>, labels: Labels, reg: Registrations, done: set<string>, key: string)
    requires Encodes(labels, reg) && key in labels && key !in done && DecodedSoFar(table, reg, done)
    ensures DecodedSoFar(Decode(table, key, labels[key]), reg, done + {key})
  {
    hide NameKey, NamespaceKey, Itoa, FindMatch, Scan;
    if HasPrefix(key, SERVICE) {
      var id :| id in reg && IsKeyOf(key, id);
      FindsTheNumber(id);
      IdsAreInjective(id, id);
      assert Holds(labels, id, reg[id]);
      assert EntrySoFar(table, reg[id], id, NameKey(Itoa(id)) in done, NamespaceKey(Itoa(id)) in done);
      forall i | i in reg && i != id
        ensures NameKey(Itoa(i)) != key && NamespaceKey(Itoa(i)) != key
      {
        IdsAreInjective(i, id);
        IdsAreInjective(id, i);
      }
    } else {
      forall id | id in reg
        ensures NameKey(Itoa(id)) != key && NamespaceKey(Itoa(id)) != key
      {
        NameKeyFacts(Itoa(id));
        NamespaceKeyFacts(Itoa(id));
        StartsUnderPrefix(Itoa(id));
      }
    }
  }

  lemma StartsUnderPrefix(id: string)
    ensures HasPrefix(NameKey(id), SERVICE) && HasPrefix(NamespaceKey(id), SERVICE)
  {
  }

  lemma DecodedAll(table: map<int, Service>, labels: Labels, reg: Registrations)
    requires Encodes(labels, reg) && DecodedSoFar(table, reg, labels.Keys)
    ensures forall id: nat :: id in reg ==> id in table && table[id] == reg[id]
  {
    hide NameKey, NamespaceKey, Itoa;
    forall id: nat | id in reg
      ensures id in table && table[id] == reg[id]
    {
      assert Holds(labels, id, reg[id]);
    }
  }

  ghost predicate NamesAreGiven(reg: Registrations) {
    forall id :: id in reg ==> reg[id].name != "" || reg[id].namespace != ""
  }

  ghost predicate DecodedForAll(table: map<int, Service>, labels: Labels, done: set<string>) {
    forall reg :: Encodes(labels, reg) ==> DecodedSoFar(table, reg, done)
  }

  lemma OneLabelMore(table: map<int, Service>, labels: Labels, rest: set<string>, key: string)
    requires key in rest && rest <= labels.Keys && DecodedForAll(table, labels, labels.Keys - rest)
    ensures DecodedForAll(Decode(table, key, labels[key]), labels, labels.Keys - (rest - {key}))
  {
    hide Encodes, DecodedSoFar, Decode;
    assert labels.Keys - rest + {key} == labels.Keys - (rest - {key});
    forall reg | Encodes(labels, reg)
      ensures DecodedSoFar(Decode(table, key, labels[key]), reg, labels.Keys - (rest - {key}))
    {
      DecodesOneLabel(table, labels, reg, labels.Keys - rest, key);
    }
  }

  /** Writes the field that a label names into the entry of its number. */
  method DecodeInto(table: map<int, Service>, key: string, value: string) returns (after: map<int, Service>)
    requires forall n :: n in table ==> n >= 0
    ensures after == Decode(table, key, value) && forall n :: n in after ==> n >= 0
  {
    hide FindMatch, Scan;
    after := table;
    if HasPrefix(key, SERVICE) {
      var found := FindMatch(key, 0);
      if found.Some? {
        ScansNonNegative(key, 0);
        var index := Scan(found.value.number);
        if index !in after {
          after := after[index := Service("", "")];
        }
        var entry := after[index];
        match found.value.field {
          case NamespaceField => entry := entry.(namespace := value);
          case NameField => entry := entry.(name := value);
        }
        after := after[index := entry];
      }
    }
  }

  method CollectEntries(labels: Labels) returns (table: map<int, Service>)
    ensures forall n :: n in table ==> n >= 0
    ensures DecodedForAll(table, labels, labels.Keys)
  {
    hide Encodes, DecodedSoFar, Decode, DecodedForAll;
    table := map[];
    var rest := labels.Keys;
    NothingDecoded(labels);
    assert labels.Keys - rest == {};
    while rest != {}
      invariant rest <= labels.Keys
      invariant forall n :: n in table ==> n >= 0
      invariant DecodedForAll(table, labels, labels.Keys - rest)
      decreases rest
    {
      var key :| key in rest;
      OneLabelMore(table, labels, rest, key);
      rest := rest - {key};
      table := DecodeInto(table, key, labels[key]);
    }
    assert labels.Keys - {} == labels.Keys;
  }

  lemma NothingDecoded(labels: Labels)
    ensures DecodedForAll(map[], labels, {})
  {
    hide Encodes, NameKey, NamespaceKey;
  }

  lemma {:induction false} ScansNonNegative(key: string, i: nat)
    requires i <= |key| && FindMatch(key, i).Some?
    ensures Scan(FindMatch(key, i).value.number) >= 0
    decreases |key| - i
  {
    var m := MatchAt(key, i);
    if m.Some? {
      assert IsDigit(m.value.number[0]);
    } else {
      ScansNonNegative(key, i + 1);
    }
  }

  /** The entries of a table that say something, in increasing order. */
  ghost predicate Lists(services: seq<Service>, table: map<int, Service>, ids: seq<nat>, upTo: seq<nat>) {
    && |services| == |ids|
    && (forall j, k :: 0 <= j < k < |ids| ==> ids[j] < ids[k])
    && (forall j :: 0 <= j < |ids| ==> ids[j] in upTo && ids[j] in table && services[j] == table[ids[j]])
    && (forall n :: n in upTo && n in table && table[n] != Service("", "") ==> n in ids)
  }

  method ListEntries(table: map<int, Service>, indices: seq<nat>) returns (services: seq<Service>, ghost ids: seq<nat>)
    requires forall i, j :: 0 <= i < j < |indices| ==> indices[i] < indices[j]
    requires forall n :: n in indices ==> n in table
    ensures Lists(services, table, ids, indices)
  {
    services, ids := [], [];
    for i := 0 to |indices|
      invariant Lists(services, table, ids, indices[..i])
    {
      assert indices[i] in indices;
      assert indices[..i + 1] == indices[..i] + [indices[i]];
      var svc := table[indices[i]];
      if svc.namespace != "" || svc.name != "" {
        services := services + [svc];
        ids := ids + [indices[i]];
      }
    }
    assert indices[..|indices|] == indices;
  }

  /** The services that the labels list, in the order of their numbers: for the labels
      of a registry, exactly what is registered. */
  method ParseServices(labels: Labels) returns (services: seq<Service>)
    ensures forall reg :: Encodes(labels, reg) && NamesAreGiven(reg) ==> exists ids :: InOrder(services, reg, ids)
  {
    hide Encodes, NameKey, NamespaceKey;
    var table := CollectEntries(labels);
    var keys: set<nat> := set n | n in table;
    var indices := Sorted(keys);
    ghost var ids;
    services, ids := ListEntries(table, indices);
    forall reg | Encodes(labels, reg) && NamesAreGiven(reg)
      ensures InOrder(services, reg, ids)
    {
      DecodedAll(table, labels, reg);
      ListsTheRegistry(services, table, ids, indices, reg, labels.Keys);
    }
  }

  lemma ListsTheRegistry(
        services: seq<Service>, table: map<int, Service>, ids: seq<nat>, indices: seq<nat>, reg: Registrations,
        done: set<string>)
    requires Lists(services, table, ids, indices) && forall n :: n in table ==> n >= 0 && n in indices
    requires DecodedSoFar(table, reg, done) && NamesAreGiven(reg)
    requires forall id: nat :: id in reg ==> id in table && table[id] == reg[id]
    ensures InOrder(services, reg, ids)
  {
    hide NameKey, NamespaceKey;
    forall j | 0 <= j < |ids|
      ensures ids[j] in reg && services[j] == reg[ids[j]]
    {
      assert ids[j] in table;
    }
  }
}
