/** The status of a project's quota: kept up to date by every allocation and deletion,
    and rebuilt from the list of FloatingIPs by another controller. */
module QuotaStatus {
  import opened Common
  import opened Addresses

  type Name = string

  type Pool = string

  /** cluster is the one the FloatingIP is assigned to, or empty. */
  datatype Fip = Fip(project: Option<string>, pool: Pool, ip: Option<Address>, cluster: string)

  type Fips = map<Name, Fip>

  datatype Info = Info(granted: map<Address, string>, used: int)

  type Status = map<Pool, Info>

  const EMPTY := Info(map[], 0)

  function InfoOf(status: Status, p: Pool): Info {
    if p in status then status[p] else EMPTY
  }

  function DisplayName(fip: Fip): string {
    if fip.cluster != "" then fip.cluster else "Unassigned"
  }

  /** The FloatingIPs of a project that hold an address of a pool. */
  function Holders(fips: Fips, project: string, p: Pool): set<Name> {
    set n | n in fips && Holds(fips[n], project, p)
  }

  predicate Holds(fip: Fip, project: string, p: Pool) {
    fip.project == Some(project) && fip.pool == p && p != "" && fip.ip.Some?
  }

  function AddressesOf(fips: Fips, names: set<Name>): set<Address>
    requires forall n :: n in names ==> n in fips && fips[n].ip.Some?
  {
    set n | n in names :: fips[n].ip.value
  }

  /** What a status says about a pool, but for the names it displays. */
  predicate Reports(status: Status, p: Pool, used: int, addresses: set<Address>) {
    InfoOf(status, p).used == used && InfoOf(status, p).granted.Keys == addresses
  }

  /** The name that an address is shown with is that of a holder's cluster, if it has one. */
  predicate Shows(fip: Fip, project: string, p: Pool, ip: Address, display: string) {
    && fip.project == Some(project) && fip.pool == p && fip.ip == Some(ip)
    && display == if fip.cluster == "" then "Unassigned" else fip.cluster
  }

  predicate Agree(a: Status, b: Status, p: Pool) {
    Reports(a, p, InfoOf(b, p).used, InfoOf(b, p).granted.Keys)
  }

  predicate ReportsHolders(status: Status, fips: Fips, project: string, p: Pool) {
    Reports(status, p, |Holders(fips, project, p)|, AddressesOf(fips, Holders(fips, project, p)))
  }

  // ------------------------------------------------------------------- incremental keeping

  function Added(status: Status, p: Pool, ip: Address, display: string): Status {
    var info := InfoOf(status, p);
    status[p := Info(info.granted[ip := display], if ip in info.granted then info.used else info.used + 1)]
  }

  function Removed(status: Status, p: Pool, ip: Address): Status {
    if p in status && ip in status[p].granted then
      status[p := Info(status[p].granted - {ip}, if status[p].used > 0 then status[p].used - 1 else status[p].used)]
    else status
  }

  class Quota {
    var status: Status

    /** After an allocation: an address counts once, however often it is recorded. */
    method RecordAllocation(p: Pool, ip: Address, cluster: string)
      modifies this
      ensures status == Added(old(status), p, ip, if cluster != "" then cluster else "Unassigned")
    {
      if p !in status {
        status := status[p := EMPTY];
      }
      var clusterName := if cluster != "" then cluster else "Unassigned";
      if ip !in status[p].granted {
        status := status[p := status[p].(used := status[p].used + 1)];
      }
      status := status[p := status[p].(granted := status[p].granted[ip := clusterName])];
    }

    method RecordDeletion(p: Pool, ip: Address)
      modifies this
      ensures status == Removed(old(status), p, ip)
    {
      if p in status {
        var info := status[p];
        if ip in info.granted {
          if info.used > 0 {
            info := info.(used := info.used - 1);
          }
          info := info.(granted := info.granted - {ip});
          status := status[p := info];
        }
      }
    }

    /** The status from scratch, whatever order the FloatingIPs are listed in. */
    method Rebuild(fips: Fips, project: string, list: seq<Name>)
      requires (forall n :: n in list <==> n in fips) && forall i, j :: 0 <= i < j < |list| ==> list[i] != list[j]
      modifies this
      ensures forall p :: ReportsHolders(status, fips, project, p)
      ensures forall p, a :: p in status && a in status[p].granted ==>
        exists n :: n in fips && Shows(fips[n], project, p, a, status[p].granted[a])
    {
      var rebuilt: Status := map[];
      ghost var seen: set<Name> := {};
      NothingSeen(fips, project);
      for i := 0 to |list|
        invariant forall n :: n in seen <==> n in list[..i]
        invariant forall p :: ReportsSeen(rebuilt, fips, project, p, seen)
        invariant forall p, a :: p in rebuilt && a in rebuilt[p].granted ==>
          exists n :: n in fips && Shows(fips[n], project, p, a, rebuilt[p].granted[a])
      {
        var fip := fips[list[i]];
        ghost var before := rebuilt;
        if fip.project == Some(project) {
          if fip.pool != "" {
            if fip.pool !in rebuilt {
              rebuilt := rebuilt[fip.pool := EMPTY];
            }
            if fip.ip.Some? {
              var info := rebuilt[fip.pool];
              rebuilt := rebuilt[fip.pool := Info(info.granted[fip.ip.value := DisplayName(fip)], info.used + 1)];
              assert Shows(fip, project, fip.pool, fip.ip.value, DisplayName(fip));
            }
          }
        }
        assert list[i] !in seen;
        SeesOneMore(before, rebuilt, fips, project, seen, list[i]);
        seen := seen + {list[i]};
      }
      status := rebuilt;
      assert seen == fips.Keys;
      SeenAll(rebuilt, fips, project);
    }
  }

  function SeenHolders(fips: Fips, project: string, p: Pool, seen: set<Name>): set<Name> {
    set n | n in seen && n in fips && Holds(fips[n], project, p)
  }

  predicate ReportsSeen(status: Status, fips: Fips, project: string, p: Pool, seen: set<Name>) {
    var names := SeenHolders(fips, project, p, seen);
    Reports(status, p, |names|, AddressesOf(fips, names))
  }

  lemma NothingSeen(fips: Fips, project: string)
    ensures forall p :: ReportsSeen(map[], fips, project, p, {})
  {
    forall p
      ensures ReportsSeen(map[], fips, project, p, {})
    {
      assert SeenHolders(fips, project, p, {}) == {};
    }
  }

  /** What a listed FloatingIP adds to the entry of a pool. */
  function Counted(info: Info, fip: Fip, project: string, p: Pool): Info {
    if Holds(fip, project, p) then Info(info.granted[fip.ip.value := DisplayName(fip)], info.used + 1) else info
  }

  lemma SeesOneMore(before: Status, after: Status, fips: Fips, project: string, seen: set<Name>, n: Name)
    requires n in fips && n !in seen && forall p :: ReportsSeen(before, fips, project, p, seen)
    requires forall p :: InfoOf(after, p) == Counted(InfoOf(before, p), fips[n], project, p)
    ensures forall p :: ReportsSeen(after, fips, project, p, seen + {n})
  {
    forall p
      ensures ReportsSeen(after, fips, project, p, seen + {n})
    {
      var names := SeenHolders(fips, project, p, seen);
      assert ReportsSeen(before, fips, project, p, seen);
      if Holds(fips[n], project, p) {
        assert SeenHolders(fips, project, p, seen + {n}) == names + {n};
        assert AddressesOf(fips, names + {n}) == AddressesOf(fips, names) + {fips[n].ip.value};
      } else {
        assert SeenHolders(fips, project, p, seen + {n}) == names;
      }
    }
  }

  lemma SeenAll(status: Status, fips: Fips, project: string)
    requires forall p :: ReportsSeen(status, fips, project, p, fips.Keys)
    ensures forall p :: ReportsHolders(status, fips, project, p)
  {
    forall p
      ensures ReportsHolders(status, fips, project, p)
    {
      assert ReportsSeen(status, fips, project, p, fips.Keys);
      assert SeenHolders(fips, project, p, fips.Keys) == Holders(fips, project, p);
    }
  }

  // ---------------------------------------------------------------------- whole runs

  datatype State = State(fips: Fips, status: Status)

  /** Allocations and deletions are completed passes; other projects' FloatingIPs and
      rebuilds come in between. */
  datatype Step =
    | Create(n: Name, project: Option<string>, pool: Pool)
    | Allocate(n: Name, ip: Address)
    | Assign(n: Name, cluster: string)
    | Delete(n: Name)
    | Rebuilt(status: Status)

  ghost predicate Enabled(s: State, project: string, step: Step) {
    match step
    case Create(n, _, _) => n !in s.fips
    case Allocate(n, ip) =>
      && n in s.fips && s.fips[n].ip.None? && s.fips[n].pool != ""
      && forall m :: m in s.fips && s.fips[m].pool == s.fips[n].pool ==> s.fips[m].ip != Some(ip)
    case Assign(n, _) => n in s.fips
    case Delete(n) => n in s.fips
    case Rebuilt(status) => forall p :: ReportsHolders(status, s.fips, project, p)
  }

  ghost function Next(s: State, project: string, step: Step): State
    requires Enabled(s, project, step)
  {
    match step
    case Create(n, owner, pool) => s.(fips := s.fips[n := Fip(owner, pool, None, "")])
    case Allocate(n, ip) =>
      var fip := s.fips[n];
      State(s.fips[n := fip.(ip := Some(ip))],
            if fip.project == Some(project) then Added(s.status, fip.pool, ip, DisplayName(fip)) else s.status)
    case Assign(n, cluster) => s.(fips := s.fips[n := s.fips[n].(cluster := cluster)])
    case Delete(n) =>
      var fip := s.fips[n];
      State(s.fips - {n},
            if fip.project != Some(project) || fip.ip.None? then s.status
            else Removed(s.status, fip.pool, fip.ip.value))
    case Rebuilt(status) => s.(status := status)
  }

  predicate NoAddressTwice(fips: Fips) {
    forall m, n :: m in fips && n in fips && m != n && fips[m].ip.Some? && fips[m].pool == fips[n].pool
      ==> fips[m].ip != fips[n].ip
  }

  ghost predicate Inv(s: State, project: string) {
    && NoAddressTwice(s.fips)
    && (forall n :: n in s.fips && s.fips[n].ip.Some? ==> s.fips[n].pool != "")
    && forall p :: ReportsHolders(s.status, s.fips, project, p)
  }

  lemma SameHolders(s: State, t: State, project: string, p: Pool)
    requires ReportsHolders(s.status, s.fips, project, p) && InfoOf(t.status, p) == InfoOf(s.status, p)
    requires Holders(t.fips, project, p) == Holders(s.fips, project, p)
    requires forall n :: n in Holders(s.fips, project, p) ==> t.fips[n].ip == s.fips[n].ip
    ensures ReportsHolders(t.status, t.fips, project, p)
  {
    assert AddressesOf(t.fips, Holders(t.fips, project, p)) == AddressesOf(s.fips, Holders(s.fips, project, p));
  }

  lemma OneAddressMore(fips: Fips, after: Fips, names: set<Name>, n: Name)
    requires forall m :: m in names ==> m in fips && fips[m].ip.Some? && m in after && after[m].ip == fips[m].ip
    requires n in after && after[n].ip.Some? && n !in names
    ensures AddressesOf(after, names + {n}) == AddressesOf(fips, names) + {after[n].ip.value}
    ensures |names + {n}| == |names| + 1
  {
  }

  lemma AllocationReports(s: State, project: string, n: Name, ip: Address, p: Pool)
    requires Inv(s, project) && Enabled(s, project, Allocate(n, ip))
    ensures var t := Next(s, project, Allocate(n, ip)); ReportsHolders(t.status, t.fips, project, p)
  {
    var t, fip, held := Next(s, project, Allocate(n, ip)), s.fips[n], Holders(s.fips, project, p);
    assert ReportsHolders(s.status, s.fips, project, p);
    if fip.project == Some(project) && fip.pool == p {
      assert Holders(t.fips, project, p) == held + {n};
      OneAddressMore(s.fips, t.fips, held, n);
      assert ip !in AddressesOf(s.fips, held);
      AddingReports(s.status, p, ip, DisplayName(fip), |held|, AddressesOf(s.fips, held));
    } else {
      assert Holders(t.fips, project, p) == held;
      SameHolders(s, t, project, p);
    }
  }

  lemma AddingReports(status: Status, p: Pool, ip: Address, display: string, used: int, addresses: set<Address>)
    requires Reports(status, p, used, addresses) && ip !in addresses
    ensures Reports(Added(status, p, ip, display), p, used + 1, addresses + {ip})
  {
  }

  /** An address that is recorded again counts once, and is shown with the latest name. */
  lemma RecordingAgainReports(status: Status, p: Pool, ip: Address, display: string, used: int, addresses: set<Address>)
    requires Reports(status, p, used, addresses)
    ensures var after := Added(status, p, ip, display);
      && Reports(after, p, used + if ip in addresses then 0 else 1, addresses + {ip})
      && after[p].granted[ip] == display
      && (forall a :: a in addresses && a != ip ==> after[p].granted[a] == status[p].granted[a])
      && forall q :: q != p ==> InfoOf(after, q) == InfoOf(status, q)
  {
    assert addresses + {ip} == Added(status, p, ip, display)[p].granted.Keys;
  }

  /** A deletion takes back one recorded address; one that is not recorded, nothing. */
  lemma RemovingTakesOne(status: Status, p: Pool, ip: Address, used: int, addresses: set<Address>)
    requires Reports(status, p, used, addresses)
    ensures var after := Removed(status, p, ip);
      && Reports(after, p, if ip in addresses && used > 0 then used - 1 else used, addresses - {ip})
      && (forall a :: a in addresses && a != ip ==> after[p].granted[a] == status[p].granted[a])
      && forall q :: q != p ==> InfoOf(after, q) == InfoOf(status, q)
  {
    assert addresses - {ip} == InfoOf(Removed(status, p, ip), p).granted.Keys;
  }

  lemma RemovingReports(status: Status, p: Pool, ip: Address, used: nat, addresses: set<Address>)
    requires Reports(status, p, used + 1, addresses + {ip}) && ip !in addresses
    ensures Reports(Removed(status, p, ip), p, used, addresses)
  {
  }

  lemma RemovingElsewhere(status: Status, p: Pool, ip: Address, q: Pool)
    requires p != q
    ensures InfoOf(Removed(status, p, ip), q) == InfoOf(status, q)
  {
  }

  lemma OthersHoldOthers(s: State, project: string, n: Name, p: Pool)
    requires Inv(s, project) && n in s.fips && Holds(s.fips[n], project, p)
    ensures var fips, rest := s.fips - {n}, Holders(s.fips, project, p) - {n};
      && Holders(fips, project, p) == rest
      && s.fips[n].ip.value !in AddressesOf(fips, rest)
  {
  }

  lemma DeletionReportsHere(s: State, project: string, n: Name, p: Pool)
    requires Inv(s, project) && n in s.fips && Holds(s.fips[n], project, p)
    ensures ReportsHolders(Removed(s.status, p, s.fips[n].ip.value), s.fips - {n}, project, p)
  {
    hide Reports, Removed;
    var held, fips := Holders(s.fips, project, p), s.fips - {n};
    var rest := held - {n};
    assert ReportsHolders(s.status, s.fips, project, p);
    OthersHoldOthers(s, project, n, p);
    OneAddressMore(fips, s.fips, rest, n);
    assert rest + {n} == held;
    RemovingReports(s.status, p, s.fips[n].ip.value, |rest|, AddressesOf(fips, rest));
  }

  lemma DeletionReports(s: State, project: string, n: Name, p: Pool)
    requires Inv(s, project) && Enabled(s, project, Delete(n))
    ensures var t := Next(s, project, Delete(n)); ReportsHolders(t.status, t.fips, project, p)
  {
    hide Reports, Removed, AddressesOf;
    if Holds(s.fips[n], project, p) {
      DeletionReportsHere(s, project, n, p);
    } else {
      assert ReportsHolders(s.status, s.fips, project, p);
      var t := Next(s, project, Delete(n));
      assert Holders(t.fips, project, p) == Holders(s.fips, project, p);
      if s.fips[n].ip.Some? && s.fips[n].pool != p {
        RemovingElsewhere(s.status, s.fips[n].pool, s.fips[n].ip.value, p);
      }
      SameHolders(s, t, project, p);
    }
  }

  lemma StepKeepsInv(s: State, project: string, step: Step)
    requires Inv(s, project) && Enabled(s, project, step)
    ensures Inv(Next(s, project, step), project)
  {
    var t := Next(s, project, step);
    forall p
      ensures ReportsHolders(t.status, t.fips, project, p)
    {
      assert ReportsHolders(s.status, s.fips, project, p);
      match step
      case Allocate(n, ip) => AllocationReports(s, project, n, ip, p);
      case Delete(n) => DeletionReports(s, project, n, p);
      case Rebuilt(_) =>
      case _ =>
        assert Holders(t.fips, project, p) == Holders(s.fips, project, p);
        SameHolders(s, t, project, p);
    }
  }

  ghost predicate IsRun(trace: seq<State>, project: string, steps: seq<Step>) {
    && |trace| == |steps| + 1
    && forall i :: 0 <= i < |steps| ==>
         Enabled(trace[i], project, steps[i]) && trace[i + 1] == Next(trace[i], project, steps[i])
  }

  lemma {:induction false} RunsKeepInv(trace: seq<State>, project: string, steps: seq<Step>, n: nat)
    requires IsRun(trace, project, steps) && n < |trace| && trace[0] == State(map[], map[])
    ensures Inv(trace[n], project)
  {
    hide Next, Enabled;
    if n == 0 {
      forall p
        ensures ReportsHolders(map[], map[], project, p)
      {
        assert Holders(map[], project, p) == {};
      }
    } else {
      RunsKeepInv(trace, project, steps, n - 1);
      StepKeepsInv(trace[n - 1], project, steps[n - 1]);
    }
  }

  /** After any run, the status kept step by step and any status rebuilt from the list,
      in whatever order, report the same usage and the same addresses of every pool. */
  lemma KeptEqualsRebuilt(trace: seq<State>, project: string, steps: seq<Step>, n: nat, rebuilt: Status, p: Pool)
    requires IsRun(trace, project, steps) && n < |trace| && trace[0] == State(map[], map[])
    requires forall q :: ReportsHolders(rebuilt, trace[n].fips, project, q)
    ensures Agree(trace[n].status, rebuilt, p)
  {
    RunsKeepInv(trace, project, steps, n);
    assert ReportsHolders(rebuilt, trace[n].fips, project, p);
    assert ReportsHolders(trace[n].status, trace[n].fips, project, p);
  }

  lemma {:induction false} FewerAddresses(fips: Fips, names: set<Name>)
    requires forall n :: n in names ==> n in fips && fips[n].ip.Some?
    ensures |AddressesOf(fips, names)| <= |names|
    ensures |AddressesOf(fips, names)| == |names| <==>
      forall m, n :: m in names && n in names && m != n ==> fips[m].ip != fips[n].ip
    decreases |names|
  {
    if names == {} {
      assert AddressesOf(fips, names) == {};
    } else {
      var n :| n in names;
      var rest := names - {n};
      FewerAddresses(fips, rest);
      assert AddressesOf(fips, names) == AddressesOf(fips, rest) + {fips[n].ip.value};
      if m :| m in rest && fips[m].ip == fips[n].ip {
        assert AddressesOf(fips, names) == AddressesOf(fips, rest);
      }
    }
  }

  /** A rebuilt status counts its addresses right exactly when no two FloatingIPs of
      the project hold the same one: it counts objects, and lists addresses. */
  lemma RebuiltCountsAddressesIff(status: Status, fips: Fips, project: string, p: Pool)
    requires ReportsHolders(status, fips, project, p)
    ensures InfoOf(status, p).used == |InfoOf(status, p).granted| <==>
      forall m, n :: m in fips && n in fips && m != n && Holds(fips[m], project, p) && Holds(fips[n], project, p)
        ==> fips[m].ip != fips[n].ip
  {
    FewerAddresses(fips, Holders(fips, project, p));
    assert |InfoOf(status, p).granted| == |InfoOf(status, p).granted.Keys|;
  }
}
