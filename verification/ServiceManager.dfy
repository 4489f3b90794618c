/** The allocator of object_database/service_manager/ServiceManager.py: which host gets the next instance of a
    service, and how many instances each service ends up with. */
module ServiceManagers {
  import opened Common
  import opened OrderedSets

  type HostId = int
  type ServiceId = int
  type InstanceId = nat

  const MAX_BAD_BOOTS := 5

  datatype Host = Host(
    connected: bool, placementGroup: string, maxGbRam: real, maxCores: int, maxServiceInstances: Option<int>,
    gbRamUsed: real, coresUsed: real)

  datatype Service = Service(
    gbRamUsed: real, coresUsed: real, validPlacementGroups: set<string>, isSingleton: bool,
    target: int, unbootableCount: int, timesBootedUnsuccessfully: int)
  {
    function EffectiveTargetCount(): (n: nat)
      ensures timesBootedUnsuccessfully >= MAX_BAD_BOOTS || target <= 0 ==> n == 0
      ensures isSingleton ==> n <= 1
      ensures timesBootedUnsuccessfully < MAX_BAD_BOOTS && 0 < target ==> n == if isSingleton then 1 else target
    {
      if timesBootedUnsuccessfully >= MAX_BAD_BOOTS then 0
      else if isSingleton then Min(1, Max(target, 0))
      else Max(target, 0)
    }
  }

  /** An instance record. `up` stands for a state and a connection that make it count as running or about to. */
  datatype Instance = Instance(service: ServiceId, host: HostId, owned: bool, deleted: bool, up: bool,
                      shouldShutdown: bool) {
    predicate IsActive() {
      !deleted && up && !shouldShutdown
    }
  }

  /** A booting instance on the parent's host, owned by its parent. */
  function ChildOf(parent: Instance): Instance {
    Instance(parent.service, parent.host, true, false, true, false)
  }

  function Sum(s: seq<real>): real {
    if s == [] then 0.0 else Sum(s[..|s| - 1]) + s[|s| - 1]
  }

  lemma SumAppend(s: seq<real>, x: real)
    ensures Sum(s + [x]) == Sum(s) + x
  {
  }

  /** A sum whose terms only shrink only shrinks. */
  lemma {:induction false} SumMonotone(s: seq<real>, t: seq<real>)
    requires |s| == |t| && forall n :: 0 <= n < |s| ==> s[n] <= t[n]
    ensures Sum(s) <= Sum(t)
  {
    if s != [] {
      SumMonotone(s[..|s| - 1], t[..|t| - 1]);
    }
  }

  function RamOf(i: Instance, services: map<ServiceId, Service>, h: HostId): real {
    if i.IsActive() && i.host == h && i.service in services then services[i.service].gbRamUsed else 0.0
  }

  function CoresOf(i: Instance, services: map<ServiceId, Service>, h: HostId): real {
    if i.IsActive() && i.host == h && i.service in services then services[i.service].coresUsed else 0.0
  }

  /** What the active instances on a host use. */
  function RamLoad(instances: seq<Instance>, services: map<ServiceId, Service>, h: HostId): real {
    Sum(seq(|instances|, n requires 0 <= n < |instances| => RamOf(instances[n], services, h)))
  }

  function CoresLoad(instances: seq<Instance>, services: map<ServiceId, Service>, h: HostId): real {
    Sum(seq(|instances|, n requires 0 <= n < |instances| => CoresOf(instances[n], services, h)))
  }

  lemma LoadAppend(instances: seq<Instance>, services: map<ServiceId, Service>, h: HostId, i: Instance)
    ensures RamLoad(instances + [i], services, h) == RamLoad(instances, services, h) + RamOf(i, services, h)
    ensures CoresLoad(instances + [i], services, h) == CoresLoad(instances, services, h) + CoresOf(i, services, h)
    ensures var counts := !i.deleted && i.up && !i.shouldShutdown && i.host == h && i.service in services;
            && RamOf(i, services, h) == (if counts then services[i.service].gbRamUsed else 0.0)
            && CoresOf(i, services, h) == (if counts then services[i.service].coresUsed else 0.0)
    ensures RamLoad([], services, h) == CoresLoad([], services, h) == 0.0
  {
    var ram := seq(|instances|, n requires 0 <= n < |instances| => RamOf(instances[n], services, h));
    var cores := seq(|instances|, n requires 0 <= n < |instances| => CoresOf(instances[n], services, h));
    var all := instances + [i];
    assert seq(|all|, n requires 0 <= n < |all| => RamOf(all[n], services, h)) == ram + [RamOf(i, services, h)];
    assert seq(|all|, n requires 0 <= n < |all| => CoresOf(all[n], services, h)) == cores + [CoresOf(i, services, h)];
    SumAppend(ram, RamOf(i, services, h));
    SumAppend(cores, CoresOf(i, services, h));
  }

  /** Instances that stop being active leave no host with more to carry. */
  ghost predicate OnlyDeactivated(before: seq<Instance>, after: seq<Instance>) {
    && |before| == |after|
    && forall n :: 0 <= n < |before| ==>
         && after[n].service == before[n].service && after[n].host == before[n].host
         && (before[n].deleted ==> after[n].deleted) && (after[n].IsActive() ==> before[n].IsActive())
  }

  ghost predicate Reasonable(services: map<ServiceId, Service>) {
    forall s :: s in services ==> 0.0 <= services[s].gbRamUsed && 0.0 <= services[s].coresUsed
  }

  /** The services use the same as before. */
  ghost predicate SameUse(before: map<ServiceId, Service>, after: map<ServiceId, Service>) {
    after.Keys == before.Keys
    && forall s :: s in before ==>
         after[s].gbRamUsed == before[s].gbRamUsed && after[s].coresUsed == before[s].coresUsed
  }

  lemma LoadShrinks(before: seq<Instance>, after: seq<Instance>, services: map<ServiceId, Service>,
                    services': map<ServiceId, Service>, h: HostId)
    requires OnlyDeactivated(before, after) && Reasonable(services) && SameUse(services, services')
    ensures RamLoad(after, services', h) <= RamLoad(before, services, h)
    ensures CoresLoad(after, services', h) <= CoresLoad(before, services, h)
  {
    SumMonotone(seq(|after|, n requires 0 <= n < |after| => RamOf(after[n], services', h)),
                seq(|before|, n requires 0 <= n < |before| => RamOf(before[n], services, h)));
    SumMonotone(seq(|after|, n requires 0 <= n < |after| => CoresOf(after[n], services', h)),
                seq(|before|, n requires 0 <= n < |before| => CoresOf(before[n], services, h)));
  }

  /** The instance records of a host, active or not. */
  function OnHost(instances: seq<Instance>, h: HostId): set<InstanceId> {
    set n | 0 <= n < |instances| && !instances[n].deleted && instances[n].host == h
  }

  lemma OnHostAppend(instances: seq<Instance>, h: HostId, i: Instance)
    ensures |OnHost(instances + [i], h)| == |OnHost(instances, h)| + if i.host == h && !i.deleted then 1 else 0
  {
    var more := OnHost(instances + [i], h);
    if i.host == h && !i.deleted {
      assert more == OnHost(instances, h) + {|instances|};
    } else {
      assert more == OnHost(instances, h);
    }
  }

  lemma {:induction false} SubsetIsSmaller<T>(a: set<T>, b: set<T>)
    requires a <= b
    ensures |a| <= |b|
  {
    assert b == a + (b - a) && |a + (b - a)| == |a| + |b - a|;
  }

  /** The instances of a service that count towards its target. */
  function ActiveOf(instances: seq<Instance>, s: ServiceId): set<InstanceId> {
    set n | 0 <= n < |instances| && instances[n].service == s && instances[n].IsActive() && !instances[n].owned
  }

  /** The host records at least what its active instances use, and is within all its limits. */
  ghost predicate SafeHost(host: Host, instances: seq<Instance>, services: map<ServiceId, Service>, h: HostId) {
    && RamLoad(instances, services, h) <= host.gbRamUsed <= host.maxGbRam
    && CoresLoad(instances, services, h) <= host.coresUsed <= host.maxCores as real
    && (host.maxServiceInstances.Some? ==> |OnHost(instances, h)| <= host.maxServiceInstances.value)
  }

  predicate CanAssign(service: Service, host: Host, instances: seq<Instance>, h: HostId) {
    && host.placementGroup in service.validPlacementGroups
    && (host.maxServiceInstances.Some? ==> |OnHost(instances, h)| < host.maxServiceInstances.value)
    && host.gbRamUsed + service.gbRamUsed <= host.maxGbRam
    && host.coresUsed + service.coresUsed <= host.maxCores as real
  }

  predicate Takes(service: Service, hosts: map<HostId, Host>, instances: seq<Instance>, h: HostId) {
    h in hosts && hosts[h].connected && CanAssign(service, hosts[h], instances, h)
  }

  /** How many instances on the host are not deleted. */
  ghost function NotDeletedOn(instances: seq<Instance>, h: HostId): nat {
    if instances == [] then 0
    else
      var last := instances[|instances| - 1];
      NotDeletedOn(instances[..|instances| - 1], h) + if last.host == h && !last.deleted then 1 else 0
  }

  lemma {:induction false} CountOnHost(instances: seq<Instance>, h: HostId)
    ensures |OnHost(instances, h)| == NotDeletedOn(instances, h)
  {
    if instances == [] {
      assert OnHost(instances, h) == {};
    } else {
      var front, last := instances[..|instances| - 1], instances[|instances| - 1];
      CountOnHost(front, h);
      assert instances == front + [last];
      OnHostAppend(front, h, last);
    }
  }

  /** Hosts change in nothing but the use recorded for them. */
  ghost predicate SameButUse(before: map<HostId, Host>, after: map<HostId, Host>) {
    && after.Keys == before.Keys
    && forall h :: h in before ==>
         after[h] == before[h].(gbRamUsed := after[h].gbRamUsed, coresUsed := after[h].coresUsed)
  }

  /** The instances from the given one on are on connected hosts, of groups their services accept. */
  ghost predicate WellPlaced(hosts: map<HostId, Host>, services: map<ServiceId, Service>, instances: seq<Instance>,
                             from: nat)
  {
    forall n :: from <= n < |instances| ==>
      && instances[n].host in hosts && hosts[instances[n].host].connected
      && instances[n].service in services
      && hosts[instances[n].host].placementGroup in services[instances[n].service].validPlacementGroups
  }

  lemma NoUseChanges(hosts: map<HostId, Host>)
    ensures SameButUse(hosts, hosts)
  {
  }

  lemma UseChangesTwice(a: map<HostId, Host>, b: map<HostId, Host>, c: map<HostId, Host>)
    requires SameButUse(a, b) && SameButUse(b, c)
    ensures SameButUse(a, c)
  {
  }

  lemma ShortfallKeepsPlaced(hosts: map<HostId, Host>, services: map<ServiceId, Service>, s: ServiceId,
                             instances: seq<Instance>)
    requires s in services
    ensures forall n, from ::
              WellPlaced(hosts, services, instances, from) ==>
                WellPlaced(hosts, services[s := services[s].(unbootableCount := n)], instances, from)
  {
  }

  lemma NoneToPlace(hosts: map<HostId, Host>, services: map<ServiceId, Service>, instances: seq<Instance>)
    ensures WellPlaced(hosts, services, instances, |instances|)
  {
  }

  lemma StaysWellPlaced(hosts: map<HostId, Host>, hosts': map<HostId, Host>, services: map<ServiceId, Service>,
                        services': map<ServiceId, Service>, instances: seq<Instance>, instances': seq<Instance>,
                        from: nat)
    requires WellPlaced(hosts, services, instances, from) && SameButUse(hosts, hosts')
    requires services'.Keys == services.Keys && forall s :: s in services ==>
               SameButShortfall(services[s], services'[s])
    requires SameRecords(instances, instances') && WellPlaced(hosts', services', instances', |instances|)
    ensures WellPlaced(hosts', services', instances', from)
  {
  }

  /** The service has what it wants, or says exactly how much it lacks. */
  predicate Settled(service: Service, count: nat) {
    || (count == service.EffectiveTargetCount() && service.unbootableCount == 0)
    || (count < service.EffectiveTargetCount() && service.unbootableCount == service.EffectiveTargetCount() - count)
  }

  /** A service ends up settled, unless it had its target and recorded a shortfall all the same. */
  predicate SettledIfMissed(before: Service, after: Service, looked: nat, left: nat) {
    Settled(after, left) <==> !(looked == before.EffectiveTargetCount() && before.unbootableCount != 0)
  }

  predicate SameButShortfall(before: Service, after: Service) {
    after == before.(unbootableCount := after.unbootableCount)
  }

  lemma SameIsSameButShortfall()
    ensures forall service: Service :: SameButShortfall(service, service)
  {
  }

  function AsSet(records: seq<InstanceId>): set<InstanceId> {
    set n | n in records
  }

  predicate Distinct(records: seq<InstanceId>) {
    forall a, b :: 0 <= a < b < |records| ==> records[a] != records[b]
  }

  /** The records are the instances of the service that count, each once. */
  ghost predicate AreRecords(instances: seq<Instance>, records: seq<InstanceId>, s: ServiceId) {
    Distinct(records) && AsSet(records) == ActiveOf(instances, s)
  }

  /** Some instances of the service, each once. They counted when they were looked up, which may be a while ago. */
  ghost predicate WereLookedUp(instances: seq<Instance>, records: seq<InstanceId>, s: ServiceId) {
    Distinct(records) && forall n :: n in records ==> n < |instances| && instances[n].service == s
  }

  predicate SomeDeleted(instances: seq<Instance>, records: seq<InstanceId>) {
    exists n :: n in records && n < |instances| && instances[n].deleted
  }

  lemma BootedIsActive(before: seq<Instance>, after: seq<Instance>, s: ServiceId, h: HostId, records: seq<InstanceId>)
    requires after == before + [Instance(s, h, false, false, true, false)] && WereLookedUp(before, records, s)
    ensures WereLookedUp(after, records + [|before|], s)
    ensures AreRecords(before, records, s) ==> AreRecords(after, records + [|before|], s)
    ensures forall p :: p != s ==> ActiveOf(after, p) == ActiveOf(before, p)
  {
    assert AsSet(records + [|before|]) == AsSet(records) + {|before|};
    assert ActiveOf(after, s) == ActiveOf(before, s) + {|before|};
  }

  lemma LastIsDropped(before: seq<Instance>, after: seq<Instance>, s: ServiceId, records: seq<InstanceId>)
    requires records != [] && WereLookedUp(before, records, s)
    requires records[|records| - 1] < |before|
    requires after == before[records[|records| - 1] := before[records[|records| - 1]].(shouldShutdown := true)]
    ensures WereLookedUp(after, records[..|records| - 1], s)
    ensures AreRecords(before, records, s) ==> AreRecords(after, records[..|records| - 1], s)
    ensures forall p :: p != s ==> ActiveOf(after, p) == ActiveOf(before, p)
  {
    var last, front := records[|records| - 1], records[..|records| - 1];
    assert records == front + [last] && last in records;
    assert forall n :: n in front ==> n in records;
    assert AsSet(front) == AsSet(records) - {last};
    assert ActiveOf(after, s) == ActiveOf(before, s) - {last};
  }

  /** No record goes away, each stays with its service and its host, and what has stopped does not start again. */
  ghost predicate SameRecords(before: seq<Instance>, after: seq<Instance>) {
    && |before| <= |after|
    && forall n :: 0 <= n < |before| ==>
         && after[n].service == before[n].service && after[n].host == before[n].host
         && (after[n].up ==> before[n].up)
  }

  /** The instances said to have gone before the first so many transactions are not up. */
  ghost predicate StoppedBy(meanwhile: seq<seq<Happening>>, taken: nat, instances: seq<Instance>, known: nat) {
    forall k, i: nat, delete :: 0 <= k < taken && k < |meanwhile| && Gone(i, delete) in meanwhile[k] && i < known ==>
      i < |instances| && !instances[i].up
  }

  /** What a pass over the services has done after some transactions. */
  ghost predicate PassSoFar(hosts: map<HostId, Host>, hosts': map<HostId, Host>, services: map<ServiceId, Service>,
                            instances: seq<Instance>, instances': seq<Instance>, meanwhile: seq<seq<Happening>>, n: nat)
  {
    && SameButUse(hosts, hosts') && WellPlaced(hosts', services, instances', |instances|)
    && SameRecords(instances, instances') && StoppedBy(meanwhile, n, instances', |instances|)
  }

  ghost function SizeOf<K, V>(m: map<K, V>): nat {
    |m|
  }

  lemma NoneHandled<V>()
    ensures SizeOf<ServiceId, V>(map[]) == 0
  {
  }

  lemma SameKeysSameSize<K, V, W>(a: map<K, V>, b: map<K, W>)
    requires a.Keys == b.Keys
    ensures SizeOf(a) == SizeOf(b)
  {
    assert |a| == |a.Keys| && |b| == |b.Keys|;
  }

  lemma OneMoreHandled<K, V>(m: map<K, V>, k: K, v: V)
    requires k !in m
    ensures SizeOf(m[k := v]) == SizeOf(m) + 1
  {
  }

  lemma PassBegins(hosts: map<HostId, Host>, services: map<ServiceId, Service>, instances: seq<Instance>,
                   meanwhile: seq<seq<Happening>>)
    ensures PassSoFar(hosts, hosts, services, instances, instances, meanwhile, 0)
  {
  }

  lemma PassGoesOn(hosts: map<HostId, Host>, before: map<HostId, Host>, after: map<HostId, Host>,
                   services: map<ServiceId, Service>, services': map<ServiceId, Service>, instances: seq<Instance>,
                   middle: seq<Instance>, instances': seq<Instance>, meanwhile: seq<seq<Happening>>, n: nat)
    requires PassSoFar(hosts, before, services, instances, middle, meanwhile, n)
    requires SameButUse(before, after) && SameRecords(middle, instances')
             && WellPlaced(after, services', instances', |middle|)
    requires services'.Keys == services.Keys && forall s :: s in services ==>
               SameButShortfall(services[s], services'[s])
    requires forall i: nat, delete :: n < |meanwhile| && Gone(i, delete) in meanwhile[n] && i < |middle| ==>
               i < |instances'| && !instances'[i].up
    ensures PassSoFar(hosts, after, services', instances, instances', meanwhile, n + 1)
  {
    StaysWellPlaced(before, after, services, services', middle, instances', |instances|);
    UseChangesTwice(hosts, before, after);
    hide WellPlaced, SameButUse, SameButShortfall;
  }

  lemma PassIsOver(hosts: map<HostId, Host>, hosts': map<HostId, Host>, services: map<ServiceId, Service>,
                   instances: seq<Instance>, instances': seq<Instance>, meanwhile: seq<seq<Happening>>, n: nat)
    requires PassSoFar(hosts, hosts', services, instances, instances', meanwhile, n)
    ensures SameButUse(hosts, hosts') && WellPlaced(hosts', services, instances', |instances|)
    ensures SameRecords(instances, instances') && StoppedBy(meanwhile, n, instances', |instances|)
  {
  }

  lemma LookedUpStays(before: seq<Instance>, after: seq<Instance>)
    requires SameRecords(before, after)
    ensures forall records, s :: WereLookedUp(before, records, s) ==> WereLookedUp(after, records, s)
  {
  }

  lemma RecordsStay(before: seq<Instance>, after: seq<Instance>, except: ServiceId)
    requires forall s :: s != except ==> ActiveOf(after, s) == ActiveOf(before, s)
    ensures forall records, s :: s != except && AreRecords(before, records, s) ==> AreRecords(after, records, s)
  {
  }

  /** What other parts of the system may do in between: an instance stops, crashes or is deleted, or the use of a
      host is recorded. */
  datatype Happening = Gone(instance: InstanceId, delete: bool) | UseRecorded(host: HostId)

  /** Instances are booted only for a service that has none too many. */
  lemma ExcessIsOld(before: seq<Instance>, after: seq<Instance>, records: seq<InstanceId>, records': seq<InstanceId>,
                    target: nat)
    requires before <= after && records <= records' && |after| - |before| == |records'| - |records|
    ensures |records'| == Max(|records|, target) ==>
              && SomeDeleted(after, records'[Min(|records'|, target)..])
                 == SomeDeleted(before, records[Min(|records|, target)..])
              && forall n :: n in records'[Min(|records'|, target)..] ==> n in records
    ensures |records'| < target ==> !SomeDeleted(before, records[Min(|records|, target)..])
  {
    if |records'| == |records| {
      assert records' == records && after == before;
    }
  }

  class ServiceManager {
    var hosts: map<HostId, Host>
    var services: map<ServiceId, Service>
    var instances: seq<Instance>

    ghost predicate Valid()
      reads this
    {
      Reasonable(services)
    }

    ghost predicate Safe(h: HostId)
      reads this
    {
      h in hosts && SafeHost(hosts[h], instances, services, h)
    }

    /** What a host records beyond the use of its active instances. */
    ghost function Slack(h: HostId): (real, real)
      requires h in hosts
      reads this
    {
      (hosts[h].gbRamUsed - RamLoad(instances, services, h), hosts[h].coresUsed - CoresLoad(instances, services, h))
    }

    ghost predicate Records(records: seq<InstanceId>, s: ServiceId)
      reads this`instances
    {
      AreRecords(instances, records, s)
    }

    ghost predicate LookedUp(records: seq<InstanceId>, s: ServiceId)
      reads this`instances
    {
      WereLookedUp(instances, records, s)
    }

    lemma RecordsAreLookedUp(records: seq<InstanceId>, s: ServiceId)
      requires Records(records, s)
      ensures LookedUp(records, s) && forall n :: n in records ==> instances[n].IsActive()
    {
      assert forall n :: n in records ==> n in AsSet(records);
    }

    constructor (hosts: map<HostId, Host>, services: map<ServiceId, Service>)
      requires Reasonable(services)
      ensures Valid() && this.hosts == hosts && this.services == services && instances == []
    {
      this.hosts, this.services, instances := hosts, services, [];
    }

    /** A connected host of a group the service accepts that has room for it and an instance slot, if there is one. */
    method PickHost(service: Service) returns (r: Option<HostId>)
      ensures r.Some? ==> Takes(service, hosts, instances, r.value)
      ensures r.Some? ==>
                && r.value in hosts && hosts[r.value].connected
                && hosts[r.value].placementGroup in service.validPlacementGroups
                && hosts[r.value].gbRamUsed + service.gbRamUsed <= hosts[r.value].maxGbRam
                && hosts[r.value].coresUsed + service.coresUsed <= hosts[r.value].maxCores as real
                && (hosts[r.value].maxServiceInstances.Some? ==>
                      NotDeletedOn(instances, r.value) < hosts[r.value].maxServiceInstances.value)
      ensures r.None? ==> forall h :: h in hosts ==> !Takes(service, hosts, instances, h)
      ensures r.None? ==> forall h ::
                h in hosts && hosts[h].connected && hosts[h].placementGroup in service.validPlacementGroups ==>
                  || hosts[h].maxGbRam < hosts[h].gbRamUsed + service.gbRamUsed
                  || hosts[h].maxCores as real < hosts[h].coresUsed + service.coresUsed
                  || (hosts[h].maxServiceInstances.Some?
                      && hosts[h].maxServiceInstances.value <= NotDeletedOn(instances, h))
    {
      var todo := hosts.Keys;
      while todo != {}
        invariant todo <= hosts.Keys
        invariant forall h :: h in hosts && h !in todo ==>
                    !Takes(service, hosts, instances, h) && |OnHost(instances, h)| == NotDeletedOn(instances, h)
        decreases todo
      {
        ghost var some := AnElement(todo);
        var h :| h in todo;
        CountOnHost(instances, h);
        if hosts[h].connected {
          if CanAssign(service, hosts[h], instances, h) {
            return Some(h);
          }
        }
        todo := todo - {h};
      }
      r := None;
    }

    /** Record the use and add a booting instance. */
    method Boot(s: ServiceId, h: HostId)
      requires Valid() && s in services && Takes(services[s], hosts, instances, h)
      modifies this`hosts, this`instances
      ensures Valid() && instances == old(instances) + [Instance(s, h, false, false, true, false)]
      ensures SameButUse(old(hosts), hosts)
      ensures forall g :: old(Safe(g)) ==> Safe(g)
      ensures forall g :: g in hosts ==> Slack(g) == old(Slack(g))
    {
      var host := hosts[h];
      ghost var booted := Instance(s, h, false, false, true, false);
      forall g | g in hosts
        ensures RamLoad(instances + [booted], services, g)
                == RamLoad(instances, services, g) + RamOf(booted, services, g)
        ensures CoresLoad(instances + [booted], services, g)
                == CoresLoad(instances, services, g) + CoresOf(booted, services, g)
        ensures |OnHost(instances + [booted], g)| == |OnHost(instances, g)| + if g == h then 1 else 0
      {
        LoadAppend(instances, services, g, booted);
        OnHostAppend(instances, g, booted);
      }
      hide RamLoad, CoresLoad, OnHost;
      hosts := hosts[h := host.(gbRamUsed := host.gbRamUsed + services[s].gbRamUsed,
                                coresUsed := host.coresUsed + services[s].coresUsed)];
      instances := instances + [Instance(s, h, false, false, true, false)];
    }

    /** Whatever makes instances inactive, and any change of a service that does not change its use, keeps
        every host safe. */
    lemma DeactivatingKeepsSafe(before: seq<Instance>, services': map<ServiceId, Service>, h: HostId)
      requires h in hosts && Reasonable(services') && SameUse(services', services) && OnlyDeactivated(before, instances)
      requires SafeHost(hosts[h], before, services', h)
      ensures Safe(h)
    {
      LoadShrinks(before, instances, services', services, h);
      SubsetIsSmaller(OnHost(instances, h), OnHost(before, h));
    }

    /** Boot until the service has what it wants or no host takes it. */
    method BootMissing(s: ServiceId, actualRecords: seq<InstanceId>) returns (records: seq<InstanceId>, full: bool)
      requires Valid() && s in services && LookedUp(actualRecords, s)
      modifies this`hosts, this`instances
      ensures Valid() && SameButUse(old(hosts), hosts) && old(instances) <= instances
      ensures forall h :: old(Safe(h)) ==> Safe(h)
      ensures forall h :: h in hosts ==> Slack(h) == old(Slack(h))
      ensures WellPlaced(hosts, services, instances, |old(instances)|)
      ensures actualRecords <= records && LookedUp(records, s)
              && (old(Records(actualRecords, s)) ==> Records(records, s))
      ensures |instances| - |old(instances)| == |records| - |actualRecords|
      ensures forall p :: p != s ==> ActiveOf(instances, p) == old(ActiveOf(instances, p))
      ensures full ==> |records| == Max(|actualRecords|, services[s].EffectiveTargetCount())
      ensures !full ==> |records| < services[s].EffectiveTargetCount() && forall h :: h in hosts ==>
                !Takes(services[s], hosts, instances, h)
    {
      hide SafeHost, CanAssign, Service.EffectiveTargetCount, Slack, AreRecords, WereLookedUp;
      records := actualRecords;
      while services[s].EffectiveTargetCount() > |records|
        invariant Valid() && SameButUse(old(hosts), hosts) && old(instances) <= instances
        invariant WellPlaced(hosts, services, instances, |old(instances)|)
        invariant forall h :: old(Safe(h)) ==> Safe(h)
        invariant forall h :: h in hosts ==> Slack(h) == old(Slack(h))
        invariant actualRecords <= records && LookedUp(records, s)
                  && (old(Records(actualRecords, s)) ==> Records(records, s))
        invariant |instances| - |old(instances)| == |records| - |actualRecords|
        invariant forall p :: p != s ==> ActiveOf(instances, p) == old(ActiveOf(instances, p))
        invariant |records| <= Max(|actualRecords|, services[s].EffectiveTargetCount())
        decreases services[s].EffectiveTargetCount() - |records|
      {
        var host := PickHost(services[s]);
        if host.None? {
          return records, false;
        }
        ghost var before := instances;
        Boot(s, host.value);
        BootedIsActive(before, instances, s, host.value, records);
        records := records + [|instances| - 1];
      }
      full := true;
    }

    /** Ask instances to shut down, the youngest first, until no more than wanted are left. What they use
        stays recorded. An instance deleted in the meantime cannot be asked. */
    method ShutDownExcess(s: ServiceId, actualRecords: seq<InstanceId>) returns (r: Result<seq<InstanceId>>)
      requires Valid() && s in services && LookedUp(actualRecords, s)
      modifies this`instances
      ensures Valid() && OnlyDeactivated(old(instances), instances)
      ensures forall from :: old(WellPlaced(hosts, services, instances, from)) ==>
                WellPlaced(hosts, services, instances, from)
      ensures var left := Min(|actualRecords|, services[s].EffectiveTargetCount());
              && (r.Thrown? <==> SomeDeleted(old(instances), actualRecords[left..]))
              && (r.Ok? ==> r.value == actualRecords[..left])
              && (r.Ok? ==> forall n :: 0 <= n < |instances| ==>
                    instances[n]
                    == if n in actualRecords[left..] then old(instances)[n].(shouldShutdown := true)
                       else old(instances)[n])
      ensures r.Ok? ==> LookedUp(r.value, s) && (old(Records(actualRecords, s)) ==> Records(r.value, s))
      ensures forall p :: p != s ==> ActiveOf(instances, p) == old(ActiveOf(instances, p))
    {
      hide Service.EffectiveTargetCount, AreRecords;
      var records := actualRecords;
      while services[s].EffectiveTargetCount() < |records|
        invariant Valid() && OnlyDeactivated(old(instances), instances)
        invariant records <= actualRecords && LookedUp(records, s)
                  && (old(Records(actualRecords, s)) ==> Records(records, s))
        invariant Min(|actualRecords|, services[s].EffectiveTargetCount()) <= |records|
        invariant !SomeDeleted(old(instances), actualRecords[|records|..])
        invariant forall n :: 0 <= n < |instances| ==>
                    instances[n] == if n in actualRecords[|records|..] then old(instances)[n].(shouldShutdown := true)
                                    else old(instances)[n]
        invariant forall p :: p != s ==> ActiveOf(instances, p) == old(ActiveOf(instances, p))
        decreases |records|
      {
        var last := records[|records| - 1];
        assert last in records;
        assert actualRecords[|records| - 1..] == [last] + actualRecords[|records|..];
        if instances[last].deleted {
          LaterInTheList(actualRecords, |records| - 1, Min(|actualRecords|, services[s].EffectiveTargetCount()));
          return Thrown;
        }
        ghost var before := instances;
        instances := instances[last := instances[last].(shouldShutdown := true)];
        LastIsDropped(before, instances, s, records);
        records := records[..|records| - 1];
      }
      r := Ok(records);
    }

    lemma LaterInTheList(records: seq<InstanceId>, n: nat, left: nat)
      requires left <= n < |records|
      ensures records[n] in records[left..]
    {
      assert records[n] == records[left..][n - left];
    }

    /** Bring a service to its target, going by instances looked up before. It ends up settled: with the wanted
        number of them, or short of it by the recorded number because no host can take another one. If an
        instance to be shut down was deleted in the meantime, the whole transaction is undone. */
    method UpdateService(s: ServiceId, actualRecords: seq<InstanceId>) returns (r: Result<seq<InstanceId>>)
      requires Valid() && s in services && LookedUp(actualRecords, s)
      modifies this
      ensures Valid() && services.Keys == old(services).Keys && SameButUse(old(hosts), hosts)
      ensures WellPlaced(hosts, services, instances, |old(instances)|)
      ensures forall h :: old(Safe(h)) ==> Safe(h)
      ensures r.Thrown? <==>
                SomeDeleted(old(instances),
                            actualRecords[Min(|actualRecords|, old(services[s]).EffectiveTargetCount())..])
      ensures r.Thrown? ==> unchanged(this)
      ensures r.Ok? ==> LookedUp(r.value, s) && (old(Records(actualRecords, s)) ==> Records(r.value, s))
      ensures r.Ok? ==> Settled(services[s], |r.value|)
      ensures r.Ok? && |r.value| < services[s].EffectiveTargetCount() ==> forall h :: h in hosts ==>
                !Takes(services[s], hosts, instances, h)
      ensures services == old(services)[s := services[s]] && SameButShortfall(old(services[s]), services[s])
      ensures SameRecords(old(instances), instances)
      ensures forall n :: 0 <= n < |old(instances)| && n !in actualRecords ==> instances[n] == old(instances)[n]
      ensures forall p :: p != s ==> ActiveOf(instances, p) == old(ActiveOf(instances, p))
    {
      hide SafeHost, Slack, Service.EffectiveTargetCount, AreRecords, WereLookedUp, SomeDeleted, SameButUse, WellPlaced;
      NoUseChanges(hosts);
      var undo := (hosts, services, instances);
      ghost var target := services[s].EffectiveTargetCount();
      var records, full := BootMissing(s, actualRecords);
      ghost var use := services;
      ExcessIsOld(undo.2, instances, actualRecords, records, target);
      ShortfallKeepsPlaced(hosts, services, s, instances);
      if !full {
        services := services[s := services[s].(unbootableCount := services[s].EffectiveTargetCount() - |records|)];
        StillSafe(instances, use);
        return Ok(records);
      }
      if services[s].unbootableCount != 0 {
        services := services[s := services[s].(unbootableCount := 0)];
      }
      ghost var before := instances;
      r := ShutDownExcess(s, records);
      if r.Thrown? {
        hosts, services, instances := undo.0, undo.1, undo.2;
        NoneToPlace(hosts, services, instances);
        return;
      }
      StillSafe(before, use);
    }

    lemma StillSafe(before: seq<Instance>, services': map<ServiceId, Service>)
      requires Reasonable(services') && SameUse(services', services) && OnlyDeactivated(before, instances)
      ensures forall h :: h in hosts && SafeHost(hosts[h], before, services', h) ==> Safe(h)
    {
      hide SafeHost;
      forall h | h in hosts && SafeHost(hosts[h], before, services', h)
        ensures Safe(h)
      {
        DeactivatingKeepsSafe(before, services', h);
      }
    }

    /** An instance stops, crashes or is deleted. */
    method InstanceGone(n: InstanceId, delete: bool)
      requires Valid() && n < |instances|
      modifies this`instances
      ensures Valid() && forall h :: old(Safe(h)) ==> Safe(h)
      ensures instances
              == old(instances)[n := old(instances)[n].(up := false, deleted := delete || old(instances)[n].deleted)]
      ensures forall s :: ActiveOf(instances, s) == old(ActiveOf(instances, s)) - {n}
    {
      hide SafeHost;
      ghost var before := instances;
      instances := instances[n := instances[n].(up := false, deleted := delete || instances[n].deleted)];
      StillSafe(before, services);
    }

    /** `collectDeadHosts` for a host that is alive: record what its active instances use. */
    method RecordUse(h: HostId)
      requires Valid() && h in hosts
      modifies this`hosts
      ensures Valid() && SameButUse(old(hosts), hosts) && forall g :: old(Safe(g)) ==> Safe(g)
      ensures Slack(h) == (0.0, 0.0) && forall g :: g in hosts && g != h ==> hosts[g] == old(hosts[g])
    {
      hosts := hosts[h := hosts[h].(gbRamUsed := RamLoad(instances, services, h),
                                    coresUsed := CoresLoad(instances, services, h))];
    }

    /** A child started by an instance itself bypasses the allocator: its host stays safe exactly if it has
        room for it that is recorded but not used. */
    method SpawnChild(parent: InstanceId)
      requires Valid() && parent < |instances| && instances[parent].service in services
               && instances[parent].host in hosts
      modifies this`instances
      ensures Valid()
      ensures var p := old(instances)[parent];
              instances == old(instances) + [Instance(p.service, p.host, true, false, true, false)]
      ensures var (h, service) := (old(instances)[parent].host, services[old(instances)[parent].service]);
              old(Safe(h)) ==>
                (Safe(h) <==> && RamLoad(old(instances), services, h) + service.gbRamUsed <= hosts[h].gbRamUsed
                              && CoresLoad(old(instances), services, h) + service.coresUsed <= hosts[h].coresUsed
                              && (hosts[h].maxServiceInstances.Some? ==>
                                    |OnHost(old(instances), h)| < hosts[h].maxServiceInstances.value))
    {
      ghost var before := instances;
      var h := instances[parent].host;
      var child := ChildOf(instances[parent]);
      LoadAppend(instances, services, h, child);
      OnHostAppend(instances, h, child);
      hide RamLoad, CoresLoad, OnHost;
      instances := instances + [child];
    }

    /** The active, unowned instances of a service, in the order they were created. */
    method ActiveRecords(s: ServiceId) returns (records: seq<InstanceId>)
      ensures Records(records, s)
      ensures forall n: nat :: n in records
                <==> && n < |instances| && instances[n].service == s && !instances[n].owned
                     && !instances[n].deleted && instances[n].up && !instances[n].shouldShutdown
    {
      records := [];
      var n := 0;
      while n < |instances|
        invariant 0 <= n <= |instances|
        invariant Distinct(records) && (forall x :: x in records ==> x < n)
        invariant forall x: nat :: x in records
                    <==> && x < n && instances[x].service == s && !instances[x].owned
                         && !instances[x].deleted && instances[x].up && !instances[x].shouldShutdown
        invariant AsSet(records) == ActiveOf(instances[..n], s)
      {
        ghost var before := records;
        if instances[n].service == s && instances[n].IsActive() && !instances[n].owned {
          records := records + [n];
          assert AsSet(records) == AsSet(before) + {n};
          assert ActiveOf(instances[..n + 1], s) == ActiveOf(instances[..n], s) + {n};
        } else {
          assert ActiveOf(instances[..n + 1], s) == ActiveOf(instances[..n], s);
        }
        n := n + 1;
      }
      assert instances[..n] == instances;
    }

    /** One service of the loop, going by instances looked up before. A service that has its target by these is
        passed over, and then keeps whatever shortfall it recorded before. */
    method UpdateIfNeeded(s: ServiceId, actualRecords: seq<InstanceId>) returns (r: Result<seq<InstanceId>>)
      requires Valid() && s in services && LookedUp(actualRecords, s)
      modifies this
      ensures Valid() && services.Keys == old(services).Keys && SameButUse(old(hosts), hosts)
      ensures WellPlaced(hosts, services, instances, |old(instances)|)
      ensures forall h :: old(Safe(h)) ==> Safe(h)
      ensures var target := old(services[s]).EffectiveTargetCount();
              && (r.Thrown? <==> SomeDeleted(old(instances), actualRecords[Min(|actualRecords|, target)..]))
              && (r.Thrown? || |actualRecords| == target ==> unchanged(this))
              && (r.Ok? ==> SettledIfMissed(old(services[s]), services[s], |actualRecords|, |r.value|))
      ensures r.Ok? ==> LookedUp(r.value, s) && (old(Records(actualRecords, s)) ==> Records(r.value, s))
      ensures SameRecords(old(instances), instances)
      ensures forall n :: 0 <= n < |old(instances)| && n !in actualRecords ==> instances[n] == old(instances)[n]
      ensures forall p :: p != s ==> ActiveOf(instances, p) == old(ActiveOf(instances, p))
      ensures services == old(services)[s := services[s]] && SameButShortfall(old(services[s]), services[s])
    {
      hide SafeHost, AreRecords, WereLookedUp;
      if services[s].EffectiveTargetCount() == |actualRecords| {
        assert actualRecords[|actualRecords|..] == [];
        return Ok(actualRecords);
      }
      r := UpdateService(s, actualRecords);
    }

    /** The instances that count, of every service. */
    method LookUpAll() returns (actualByService: map<ServiceId, seq<InstanceId>>)
      ensures actualByService.Keys == services.Keys
      ensures forall s :: s in services ==>
                && Records(actualByService[s], s) && LookedUp(actualByService[s], s)
                && |actualByService[s]| == |ActiveOf(instances, s)|
      ensures forall s, n: nat :: s in services ==>
                (n in actualByService[s]
                 <==> && n < |instances| && instances[n].service == s && !instances[n].owned
                      && !instances[n].deleted && instances[n].up && !instances[n].shouldShutdown)
    {
      actualByService := map[];
      var todo := services.Keys;
      while todo != {}
        invariant todo <= services.Keys && actualByService.Keys == services.Keys - todo
        invariant forall s :: s in actualByService ==>
                    && Records(actualByService[s], s) && LookedUp(actualByService[s], s)
                    && |actualByService[s]| == |ActiveOf(instances, s)|
        invariant forall s, n: nat :: s in actualByService ==>
                    (n in actualByService[s]
                     <==> && n < |instances| && instances[n].service == s && !instances[n].owned
                          && !instances[n].deleted && instances[n].up && !instances[n].shouldShutdown)
        decreases todo
      {
        ghost var some := AnElement(todo);
        var s :| s in todo;
        var records := ActiveRecords(s);
        RecordsAreLookedUp(records, s);
        SizeOfRecords(records, s);
        actualByService := actualByService[s := records];
        todo := todo - {s};
      }
    }

    /** What other parts of the system do between two transactions. */
    method Happen(happenings: seq<Happening>)
      requires Valid()
      modifies this`hosts, this`instances
      ensures Valid() && SameButUse(old(hosts), hosts) && forall h :: old(Safe(h)) ==> Safe(h)
      ensures happenings == [] ==> unchanged(this)
      ensures forall n: nat, delete :: Gone(n, delete) in happenings && n < |instances| ==>
                !instances[n].up && (delete ==> instances[n].deleted)
      ensures |instances| == |old(instances)| && SameRecords(old(instances), instances)
    {
      hide SafeHost;
      for k := 0 to |happenings|
        invariant Valid() && SameButUse(old(hosts), hosts) && forall h :: old(Safe(h)) ==> Safe(h)
        invariant k == 0 ==> unchanged(this)
        invariant forall n: nat, delete :: Gone(n, delete) in happenings[..k] && n < |instances| ==>
                    !instances[n].up && (delete ==> instances[n].deleted)
        invariant |instances| == |old(instances)| && SameRecords(old(instances), instances)
      {
        match happenings[k] {
          case Gone(n, delete) =>
            if n < |instances| {
              InstanceGone(n, delete);
            }
          case UseRecorded(h) =>
            if h in hosts {
              RecordUse(h);
            }
        }
      }
    }

    /** The transaction of one service, after whatever happened before it. */
    method NextService(happenings: seq<Happening>, s: ServiceId, actualRecords: seq<InstanceId>)
        returns (r: Result<seq<InstanceId>>)
      requires Valid() && s in services && LookedUp(actualRecords, s)
      modifies this
      ensures Valid() && services.Keys == old(services).Keys && SameButUse(old(hosts), hosts)
      ensures WellPlaced(hosts, services, instances, |old(instances)|)
      ensures forall h :: old(Safe(h)) ==> Safe(h)
      ensures services == old(services)[s := services[s]] && SameButShortfall(old(services[s]), services[s])
      ensures r.Ok? ==>
                && LookedUp(r.value, s)
                && SettledIfMissed(old(services[s]), services[s], |actualRecords|, |r.value|)
      ensures SameRecords(old(instances), instances)
      ensures forall n: nat, delete :: Gone(n, delete) in happenings && n < |old(instances)| ==>
                n < |instances| && !instances[n].up
      ensures forall records, p :: old(LookedUp(records, p)) ==> LookedUp(records, p)
      ensures happenings == [] ==>
                && (forall records, p :: p != s && old(Records(records, p)) ==> Records(records, p))
                && (old(Records(actualRecords, s)) ==> r.Ok? && Records(r.value, s))
    {
      hide SafeHost, SettledIfMissed, AreRecords, WereLookedUp, SomeDeleted, Service.EffectiveTargetCount;
      ghost var before := instances;
      Happen(happenings);
      LookedUpStays(before, instances);
      NoneIsDeleted(actualRecords, s, services[s].EffectiveTargetCount());
      before := instances;
      r := UpdateIfNeeded(s, actualRecords);
      LookedUpStays(before, instances);
      RecordsStay(before, instances, s);
    }

    /** The service has not been handled yet in this pass, and its records were looked up at the beginning. */
    ghost predicate Waits(before: map<ServiceId, Service>, records: seq<InstanceId>, s: ServiceId, quiet: bool)
      reads this
    {
      && s in before && s in services && services[s] == before[s] && LookedUp(records, s)
      && (quiet ==> Records(records, s))
    }

    /** The service has been handled, and these records are left. */
    ghost predicate IsDone(before: map<ServiceId, Service>, looked: seq<InstanceId>, left: seq<InstanceId>,
                           s: ServiceId, quiet: bool)
      reads this
    {
      && s in before && s in services && LookedUp(left, s) && SameButShortfall(before[s], services[s])
      && SettledIfMissed(before[s], services[s], |looked|, |left|)
      && (quiet ==> Records(left, s) && |left| == |ActiveOf(instances, s)|)
    }

    /** The next transaction of a pass. */
    method PassStep(meanwhile: seq<seq<Happening>>, n: nat, s: ServiceId, actualRecords: seq<InstanceId>,
                    ghost hosts0: map<HostId, Host>, ghost services0: map<ServiceId, Service>,
                    ghost instances0: seq<Instance>, ghost quiet: bool)
        returns (r: Result<seq<InstanceId>>)
      requires Valid() && Waits(services0, actualRecords, s, quiet)
      requires PassSoFar(hosts0, hosts, services, instances0, instances, meanwhile, n)
      requires quiet ==> n >= |meanwhile| || meanwhile[n] == []
      modifies this
      ensures Valid() && PassSoFar(hosts0, hosts, services, instances0, instances, meanwhile, n + 1)
      ensures services.Keys == old(services).Keys
      ensures forall h :: old(Safe(h)) ==> Safe(h)
      ensures quiet ==> r.Ok?
      ensures r.Ok? ==> IsDone(services0, actualRecords, r.value, s, quiet)
      ensures s in services0 && s in services && SameButShortfall(services0[s], services[s])
      ensures forall p, records :: p != s && old(Waits(services0, records, p, quiet)) ==>
                Waits(services0, records, p, quiet)
      ensures forall p, looked, left :: p != s && old(IsDone(services0, looked, left, p, quiet)) ==>
                IsDone(services0, looked, left, p, quiet)
    {
      hide SafeHost, SettledIfMissed, SameButShortfall, PassSoFar, AreRecords, WereLookedUp, ActiveOf;
      ghost var before := (hosts, services, instances);
      r := NextService(if n < |meanwhile| then meanwhile[n] else [], s, actualRecords);
      SameIsSameButShortfall();
      PassGoesOn(hosts0, before.0, hosts, before.1, services, instances0, before.2, instances, meanwhile, n);
      AllSizesOfRecords();
    }

    /** What is left of the services at the end of a pass. */
    lemma PassResults(before: map<ServiceId, Service>, looked: map<ServiceId, seq<InstanceId>>,
                      left: map<ServiceId, seq<InstanceId>>, quiet: bool)
      requires services.Keys == before.Keys == looked.Keys == left.Keys
      requires forall s :: s in left ==> IsDone(before, looked[s], left[s], s, quiet)
      ensures forall s :: s in services ==> SameButShortfall(before[s], services[s])
      ensures forall s :: s in services ==>
                && LookedUp(left[s], s) && SettledIfMissed(before[s], services[s], |looked[s]|, |left[s]|)
                && (quiet ==> Records(left[s], s) && |left[s]| == |ActiveOf(instances, s)|)
    {
      hide SettledIfMissed, LookedUp, Records, ActiveOf;
    }

    /** The second loop of a pass: one service after the other. */
    method HandleServices(meanwhile: seq<seq<Happening>>, actualByService: map<ServiceId, seq<InstanceId>>,
                          ghost quiet: bool)
        returns (ok: bool, handled: map<ServiceId, seq<InstanceId>>, n: nat)
      requires Valid() && actualByService.Keys == services.Keys
      requires forall s :: s in services ==> Waits(services, actualByService[s], s, quiet)
      requires quiet ==> forall k :: 0 <= k < |meanwhile| ==> meanwhile[k] == []
      modifies this
      ensures Valid() && services.Keys == old(services).Keys
      ensures forall h :: old(Safe(h)) ==> Safe(h)
      ensures PassSoFar(old(hosts), hosts, services, old(instances), instances, meanwhile, n)
      ensures forall s :: s in services ==> SameButShortfall(old(services[s]), services[s])
      ensures quiet ==> ok
      ensures ok ==> handled.Keys == services.Keys && n == SizeOf(services)
      ensures ok ==> forall s :: s in services ==> IsDone(old(services), actualByService[s], handled[s], s, quiet)
    {
      hide *;
      PassBegins(hosts, services, instances, meanwhile);
      NoneHandled<seq<InstanceId>>();
      handled := map[];
      var todo := services.Keys;
      n := 0;
      while todo != {}
        invariant Valid() && services.Keys == old(services).Keys && n == SizeOf(handled)
        invariant PassSoFar(old(hosts), hosts, services, old(instances), instances, meanwhile, n)
        invariant todo <= services.Keys && handled.Keys == services.Keys - todo
        invariant forall h :: old(Safe(h)) ==> Safe(h)
        invariant forall s :: s in todo ==> Waits(old(services), actualByService[s], s, quiet)
        invariant forall s :: s in handled ==> IsDone(old(services), actualByService[s], handled[s], s, quiet)
        decreases todo
      {
        ghost var some := AnElement(todo);
        var s :| s in todo;
        var records := PassStep(meanwhile, n, s, actualByService[s], old(hosts), old(services), old(instances), quiet);
        n := n + 1;
        if records.Thrown? {
          OthersSame(old(services), actualByService, handled, todo, s, quiet);
          return false, handled, n;
        }
        OneMoreHandled(handled, s, records.value);
        handled := handled[s := records.value];
        todo := todo - {s};
      }
      SameKeysSameSize(handled, services);
      PassResults(old(services), actualByService, handled, quiet);
      ok := true;
    }

    /** Look up the instances of all services, and then bring one service after the other to its target, each in
        a transaction of its own. In between instances may stop or be deleted, and hosts have their use recorded;
        an instance that was to be shut down and is found deleted ends the pass. */
    method CreateInstanceRecords(meanwhile: seq<seq<Happening>>)
        returns (ghost looked: map<ServiceId, seq<InstanceId>>, r: Result<map<ServiceId, seq<InstanceId>>>)
      requires Valid()
      modifies this
      ensures Valid() && services.Keys == old(services).Keys && SameButUse(old(hosts), hosts)
      ensures WellPlaced(hosts, services, instances, |old(instances)|)
      ensures forall h :: old(Safe(h)) ==> Safe(h)
      ensures looked.Keys == services.Keys && forall s :: s in services ==>
                old(Records(looked[s], s)) && |looked[s]| == |old(ActiveOf(instances, s))|
      ensures SameRecords(old(instances), instances)
      ensures r.Ok? ==> StoppedBy(meanwhile, SizeOf(services), instances, |old(instances)|)
      ensures r.Ok? ==> r.value.Keys == services.Keys
      ensures r.Ok? ==> forall s :: s in services ==>
                LookedUp(r.value[s], s) && SettledIfMissed(old(services[s]), services[s], |looked[s]|, |r.value[s]|)
      ensures (forall k :: 0 <= k < |meanwhile| ==> meanwhile[k] == []) ==>
                r.Ok? && forall s :: s in services ==>
                  Records(r.value[s], s) && |r.value[s]| == |ActiveOf(instances, s)|
      ensures forall s :: s in services ==> SameButShortfall(old(services[s]), services[s])
    {
      hide *;
      ghost var quiet := forall k :: 0 <= k < |meanwhile| ==> meanwhile[k] == [];
      var actualByService := LookUpAll();
      looked := actualByService;
      AllWait(looked, quiet);
      var ok, handled, n := HandleServices(meanwhile, actualByService, quiet);
      PassIsOver(old(hosts), hosts, services, old(instances), instances, meanwhile, n);
      if !ok {
        return looked, Thrown;
      }
      PassResults(old(services), looked, handled, quiet);
      r := Ok(handled);
    }

    lemma AllWait(looked: map<ServiceId, seq<InstanceId>>, quiet: bool)
      requires looked.Keys == services.Keys
      requires forall s :: s in services ==> Records(looked[s], s) && LookedUp(looked[s], s)
      ensures forall s :: s in services ==> Waits(services, looked[s], s, quiet)
    {
    }

    lemma OthersSame(before: map<ServiceId, Service>, looked: map<ServiceId, seq<InstanceId>>,
                     left: map<ServiceId, seq<InstanceId>>, todo: set<ServiceId>, thrown: ServiceId, quiet: bool)
      requires services.Keys == before.Keys == looked.Keys && left.Keys == services.Keys - todo && thrown in todo
      requires todo <= services.Keys && forall s :: s in todo && s != thrown ==> Waits(before, looked[s], s, quiet)
      requires forall s :: s in left ==> IsDone(before, looked[s], left[s], s, quiet)
      requires SameButShortfall(before[thrown], services[thrown])
      ensures forall s :: s in services ==> SameButShortfall(before[s], services[s])
    {
      hide LookedUp, Records, SettledIfMissed, ActiveOf;
    }

    lemma AllSizesOfRecords()
      ensures forall records, s :: Records(records, s) ==> |records| == |ActiveOf(instances, s)|
    {
      forall records, s | Records(records, s)
        ensures |records| == |ActiveOf(instances, s)|
      {
        SizeOfRecords(records, s);
      }
    }

    lemma NoneIsDeleted(records: seq<InstanceId>, s: ServiceId, left: nat)
      ensures Records(records, s) ==> !SomeDeleted(instances, records[Min(|records|, left)..])
    {
      if Records(records, s) {
        RecordsAreLookedUp(records, s);
      }
    }

    lemma SizeOfRecords(records: seq<InstanceId>, s: ServiceId)
      requires Records(records, s)
      ensures |records| == |ActiveOf(instances, s)|
    {
      DistinctSize(records);
    }
  }

  lemma {:induction false} DistinctSize(records: seq<InstanceId>)
    requires Distinct(records)
    ensures |AsSet(records)| == |records|
  {
    if records == [] {
      assert AsSet(records) == {};
    } else {
      var front, last := records[..|records| - 1], records[|records| - 1];
      DistinctSize(front);
      assert records == front + [last];
      assert AsSet(records) == AsSet(front) + {last};
    }
  }
}
