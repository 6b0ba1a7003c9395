/** The XenServer sync: the first pool, all hosts, the VMs with a fallback to the pool master. */
module XenServer {
  import opened Wrappers
  import opened Values
  import opened Store
  import opened Keys
  import opened Effects
  import opened Updates
  import opened Reconcile
  import opened Runs
  import opened Engine
  import opened Hypervisor
  import opened Inventory

  datatype XenPool = XenPool(name: string, master: string, platformData: Value)

  function ClusterOf(p: XenPool): ClusterReport {
    ClusterReport(p.name, "citrix_xenserver", p.platformData)
  }

  /** Hosts, VMs and storage repositories are records keyed by their opaque reference. */
  datatype XenHost = XenHost(hostRef: string, uuid: string, specs: Specs, at: string)

  datatype XenVm = XenVm(
    uuid: string, isTemplate: bool, isControlDomain: bool, residentOn: string, power: string, specs: Specs, at: string)

  datatype XenSr = XenSr(srType: string, store: StoreReport)

  function VmStatus(power: string): string {
    if power == "Running" then "running"
    else if power == "Suspended" || power == "Paused" then "suspended"
    else if power == "Migrating" then "migrating"
    else "stopped"
  }

  function HostReports(hosts: seq<XenHost>): seq<HostReport> {
    seq(|hosts|, i requires 0 <= i < |hosts| =>
      HostReport(hosts[i].uuid, [hosts[i].hostRef], "active", hosts[i].specs, hosts[i].at))
  }

  /** Templates and control domains are not synced. */
  predicate Eligible(vm: XenVm) {
    !vm.isTemplate && !vm.isControlDomain
  }

  /** The host the VM runs on if it is tracked, else the pool master. */
  function Resolve(index: map<string, nat>, master: string, vm: XenVm): Option<nat> {
    if vm.residentOn in index then Some(index[vm.residentOn])
    else if master in index then Some(index[master])
    else None
  }

  function ReportOf(index: map<string, nat>, master: string, vm: XenVm): Report {
    Report(vm.uuid, Resolve(index, master, vm), VmStatus(vm.power), vm.specs, vm.at)
  }

  function Reports(index: map<string, nat>, master: string, vms: seq<XenVm>): (reports: seq<Report>)
    ensures forall r :: r in reports <==> exists vm :: vm in vms && Eligible(vm) && r == ReportOf(index, master, vm)
  {
    if vms == [] then []
    else
      var rest, vm := Reports(index, master, vms[..|vms| - 1]), vms[|vms| - 1];
      assert forall x :: x in vms <==> x in vms[..|vms| - 1] || x == vm;
      if Eligible(vm) then rest + [ReportOf(index, master, vm)] else rest
  }

  function Repositories(srs: seq<XenSr>): seq<StoreReport> {
    if srs == [] then []
    else
      var rest, sr := Repositories(srs[..|srs| - 1]), srs[|srs| - 1];
      if sr.srType == "udev" || sr.srType == "xenapi" then rest else rest + [sr.store]
  }

  /** The VMs the pool should show, each on the host it resolves to. */
  function KnownVms(index: map<string, nat>, master: string, vms: seq<XenVm>): set<KnownVm> {
    set vm | vm in vms && Eligible(vm) && Resolve(index, master, vm) != None
      :: KnownVm(Resolve(index, master, vm).value, vm.uuid,
                 VmRow(vm.uuid, VmStatus(vm.power), vm.specs), vm.at)
  }

  lemma KnownReports(index: map<string, nat>, master: string, vms: seq<XenVm>)
    ensures Known(Reports(index, master, vms)) == KnownVms(index, master, vms)
  {
    var reports := Reports(index, master, vms);
    forall k | k in KnownVms(index, master, vms) ensures k in Known(reports) {
      var vm :| vm in vms && Eligible(vm) && Resolve(index, master, vm) != None
        && k == KnownVm(Resolve(index, master, vm).value, vm.uuid,
                        VmRow(vm.uuid, VmStatus(vm.power), vm.specs), vm.at);
      assert ReportOf(index, master, vm) in reports;
    }
  }

  /** The pool, its hosts, the eligible VMs that resolve and the repositories have rows. */
  ghost predicate AllHaveRows(db: Db, pool: XenPool, hosts: seq<XenHost>, vms: seq<XenVm>, srs: seq<XenSr>) {
    && TreeHasRows(db, ClusterOf(pool), HostReports(hosts))
    && (forall vm :: vm in vms && Eligible(vm) && Resolves(hosts, pool.master, vm) ==>
         HasRow(db, Vm, SingleKey(Text(vm.uuid))))
    && ClusterStoresHaveRows(db, ClusterOf(pool), Repositories(srs))
  }

  /** The VM's resident host or the pool master is among the hosts. */
  predicate Resolves(hosts: seq<XenHost>, master: string, vm: XenVm) {
    vm.residentOn in AllNames(HostReports(hosts)) || master in AllNames(HostReports(hosts))
  }

  lemma VmsOfIndex(db: Db, index: map<string, nat>, master: string, hosts: seq<XenHost>, vms: seq<XenVm>)
    requires index.Keys == AllNames(HostReports(hosts))
    ensures VmsHaveRows(db, Reports(index, master, vms)) <==>
      forall vm :: vm in vms && Eligible(vm) && Resolves(hosts, master, vm) ==> HasRow(db, Vm, SingleKey(Text(vm.uuid)))
  {
    hide HasRow, Eligible;
    var reports := Reports(index, master, vms);
    if VmsHaveRows(db, reports) {
      forall vm | vm in vms && Eligible(vm) && Resolves(hosts, master, vm)
        ensures HasRow(db, Vm, SingleKey(Text(vm.uuid)))
      {
        assert ReportOf(index, master, vm) in reports;
      }
    }
  }

  // ---------- in the listing's own terms ----------

  /** Each power state and what it is stored as. */
  lemma StatusReads(power: string)
    ensures VmStatus(power) == "running" <==> power == "Running"
    ensures VmStatus(power) == "suspended" <==> power == "Suspended" || power == "Paused"
    ensures VmStatus(power) == "migrating" <==> power == "Migrating"
    ensures VmStatus(power) == "stopped" <==>
      power != "Running" && power != "Suspended" && power != "Paused" && power != "Migrating"
  {
  }

  /** Host `i` is the last one listed under the reference. */
  ghost predicate LastRef(hosts: seq<XenHost>, ref: string, i: int) {
    0 <= i < |hosts| && hosts[i].hostRef == ref && forall j :: i < j < |hosts| ==> hosts[j].hostRef != ref
  }

  /** Host `i` is the one the VM is resident on; failing any such host, the pool master. */
  ghost predicate RunsOn(hosts: seq<XenHost>, master: string, vm: XenVm, i: int) {
    || LastRef(hosts, vm.residentOn, i)
    || (LastRef(hosts, master, i) && forall j :: 0 <= j < |hosts| ==> hosts[j].hostRef != vm.residentOn)
  }

  lemma IndexReads(hosts: seq<XenHost>, ids: seq<nat>, ref: string)
    requires |hosts| == |ids|
    ensures
      var index := IndexOf(HostReports(hosts), ids);
      && (ref in index <==> exists i :: 0 <= i < |hosts| && hosts[i].hostRef == ref)
      && (ref in index ==> exists i :: LastRef(hosts, ref, i) && index[ref] == ids[i])
      && (forall i :: LastRef(hosts, ref, i) ==> ref in index && index[ref] == ids[i])
  {
    var reports := HostReports(hosts);
    assert forall i :: 0 <= i < |hosts| ==> reports[i].names == [hosts[i].hostRef];
    IndexIsLast(reports, ids, ref);
    var index := IndexOf(reports, ids);
    if i :| 0 <= i < |hosts| && hosts[i].hostRef == ref {
      assert ref in reports[i].names;
    }
    if ref in index {
      var i :| 0 <= i < |reports| && ref in reports[i].names && index[ref] == ids[i]
        && forall j :: i < j < |reports| ==> ref !in reports[j].names;
      assert LastRef(hosts, ref, i);
      assert forall j :: LastRef(hosts, ref, j) ==> j == i;
    }
  }

  /** A VM resolves to its resident host, and without one among the hosts to the pool master. */
  lemma ResolvesToResidentOrMaster(hosts: seq<XenHost>, ids: seq<nat>, master: string, vm: XenVm)
    requires |hosts| == |ids|
    ensures
      var found := Resolve(IndexOf(HostReports(hosts), ids), master, vm);
      && (forall i :: RunsOn(hosts, master, vm, i) ==> found == Some(ids[i]))
      && (found != None ==> exists i :: RunsOn(hosts, master, vm, i))
  {
    IndexReads(hosts, ids, vm.residentOn);
    IndexReads(hosts, ids, master);
  }

  /** Neither a template nor a control domain, on some host, and the only such VM with its uuid. */
  ghost predicate Placed(hosts: seq<XenHost>, master: string, vms: seq<XenVm>, vm: XenVm, i: int) {
    && vm in vms && !vm.isTemplate && !vm.isControlDomain && RunsOn(hosts, master, vm, i)
    && forall w :: w in vms && !w.isTemplate && !w.isControlDomain && w.uuid == vm.uuid ==> w == vm
  }

  /** No such VM with this uuid. */
  ghost predicate NotPlaced(hosts: seq<XenHost>, master: string, vms: seq<XenVm>, v: string) {
    forall vm, i :: vm in vms && !vm.isTemplate && !vm.isControlDomain && vm.uuid == v ==> !RunsOn(hosts, master, vm, i)
  }

  /** The VM table after the sync.  A VM that is neither template nor control domain reads what was reported, on
      the row of its resident host or of the pool master; every other VM row is as before, and stopped when it
      is on a host of the pool. */
  ghost predicate PoolAgrees(before: Db, after: Db, hosts: seq<XenHost>, ids: seq<nat>, master: string,
                             vms: seq<XenVm>) {
    && |ids| == |hosts|
    && (forall i :: 0 <= i < |hosts| ==> HasText(after, Ref(Host, ids[i]), Host, "platform_uuid", hosts[i].uuid))
    && (forall vm, i, r ::
          0 <= i < |hosts| && Placed(hosts, master, vms, vm, i) && vm.uuid != "" && HasId(after.rows, r, vm.uuid) ==>
          VmReads(after.rows[r], ids[i], vm.uuid, VmStatus(vm.power), vm.specs, vm.at))
    && (forall r, v :: v != "" && HasId(after.rows, r, v) && NotPlaced(hosts, master, vms, v) ==>
          && r in before.rows
          && (forall c :: c != "status" ==> Get(after.rows[r], c) == Get(before.rows[r], c))
          && Get(after.rows[r], "status") ==
               if exists i :: OnHost(hosts, ids, after.rows[r], i) then Text("stopped")
               else Get(before.rows[r], "status"))
  }

  /** The row is on host `i`, the last one under its reference. */
  ghost predicate OnHost(hosts: seq<XenHost>, ids: seq<nat>, row: Row, i: int)
    requires |ids| == |hosts|
  {
    0 <= i < |hosts| && LastRef(hosts, hosts[i].hostRef, i) && Get(row, "host_id") == Key(ids[i])
  }

  lemma PlacedIsKnown(hosts: seq<XenHost>, ids: seq<nat>, master: string, vms: seq<XenVm>, vm: XenVm, i: int)
    requires |hosts| == |ids| && Placed(hosts, master, vms, vm, i)
    ensures
      var known := KnownVms(IndexOf(HostReports(hosts), ids), master, vms);
      var k := KnownVm(ids[i], vm.uuid, VmRow(vm.uuid, VmStatus(vm.power), vm.specs), vm.at);
      k in known && forall other :: other in known && other.id == vm.uuid ==> other == k
  {
    hide VmRow, RunsOn, IndexOf;
    ResolvesToResidentOrMaster(hosts, ids, master, vm);
  }

  lemma KnownIsPlaced(hosts: seq<XenHost>, ids: seq<nat>, master: string, vms: seq<XenVm>, v: string)
    requires |hosts| == |ids| && NotPlaced(hosts, master, vms, v)
    ensures forall k :: k in KnownVms(IndexOf(HostReports(hosts), ids), master, vms) ==> k.id != v
  {
    hide VmRow, RunsOn, IndexOf;
    forall vm | vm in vms ensures Resolve(IndexOf(HostReports(hosts), ids), master, vm) != None ==>
      exists i :: RunsOn(hosts, master, vm, i)
    {
      ResolvesToResidentOrMaster(hosts, ids, master, vm);
    }
  }

  lemma SweptReads(hosts: seq<XenHost>, ids: seq<nat>, row: Row)
    requires |hosts| == |ids|
    ensures (exists h: nat :: h in IndexOf(HostReports(hosts), ids).Values && Get(row, "host_id") == Key(h))
      <==> exists i :: OnHost(hosts, ids, row, i)
  {
    var index := IndexOf(HostReports(hosts), ids);
    if h: nat :| h in index.Values && Get(row, "host_id") == Key(h) {
      var ref :| ref in index && index[ref] == h;
      IndexReads(hosts, ids, ref);
      var i :| LastRef(hosts, ref, i) && index[ref] == ids[i];
      assert OnHost(hosts, ids, row, i);
    }
    if i :| OnHost(hosts, ids, row, i) {
      IndexReads(hosts, ids, hosts[i].hostRef);
    }
  }

  lemma AgreesReads(before: Db, after: Db, hosts: seq<XenHost>, ids: seq<nat>, master: string, vms: seq<XenVm>)
    requires Bound(after, HostReports(hosts), ids)
    requires
      var index := IndexOf(HostReports(hosts), ids);
      Agrees(before, after, index.Values, KnownVms(index, master, vms))
    ensures PoolAgrees(before, after, hosts, ids, master, vms)
  {
    hide VmRow, VmReads, RunsOn, IndexOf, KnownVms, Placed, NotPlaced, OnHost, Base;
    var index := IndexOf(HostReports(hosts), ids);
    var known := KnownVms(index, master, vms);
    forall i | 0 <= i < |hosts| ensures HasText(after, Ref(Host, ids[i]), Host, "platform_uuid", hosts[i].uuid) {
      assert IsHost(after, ids[i], HostReports(hosts)[i].uuid);
    }
    forall vm, i, r |
      0 <= i < |hosts| && Placed(hosts, master, vms, vm, i) && vm.uuid != "" && HasId(after.rows, r, vm.uuid)
      ensures VmReads(after.rows[r], ids[i], vm.uuid, VmStatus(vm.power), vm.specs, vm.at)
    {
      PlacedIsKnown(hosts, ids, master, vms, vm, i);
      ReportedReads(before, after, index.Values, known, r, ids[i], vm.uuid, VmStatus(vm.power), vm.specs, vm.at);
    }
    forall r, v | v != "" && HasId(after.rows, r, v) && NotPlaced(hosts, master, vms, v)
      ensures
        && r in before.rows
        && (forall c :: c != "status" ==> Get(after.rows[r], c) == Get(before.rows[r], c))
        && Get(after.rows[r], "status") ==
             if exists i :: OnHost(hosts, ids, after.rows[r], i) then Text("stopped") else Get(before.rows[r], "status")
    {
      KnownIsPlaced(hosts, ids, master, vms, v);
      assert RowAgrees(before, r, after.rows[r], v, index.Values, known);
      SweptReads(hosts, ids, after.rows[r]);
    }
  }

  /** Every repository but those of two types has a row under the cluster. */
  ghost predicate SrsHaveRows(db: Db, cluster: nat, srs: seq<XenSr>) {
    forall sr :: sr in srs && sr.srType != "udev" && sr.srType != "xenapi" ==> StoreNamed(db, cluster, sr.store.name)
  }

  /** Of the hosts with one uuid, the row holds the last one listed. */
  ghost predicate HostsStored(db: Db, cluster: nat, hosts: seq<XenHost>) {
    forall i :: 0 <= i < |hosts| && LastUuid(hosts, i) ==>
      exists id :: IsHostRow(db, id, cluster, hosts[i].uuid, hosts[i].specs.platformData, hosts[i].at)
  }

  ghost predicate LastUuid(hosts: seq<XenHost>, i: int)
    requires 0 <= i < |hosts|
  {
    forall j :: i < j < |hosts| ==> hosts[j].uuid != hosts[i].uuid
  }

  lemma HostsReadStored(db: Db, cluster: nat, hosts: seq<XenHost>)
    requires HostsRead(db, cluster, HostReports(hosts))
    ensures HostsStored(db, cluster, hosts)
  {
    forall i | 0 <= i < |hosts| && LastUuid(hosts, i)
      ensures exists id :: IsHostRow(db, id, cluster, hosts[i].uuid, hosts[i].specs.platformData, hosts[i].at)
    {
      assert HostReports(hosts)[i].uuid == hosts[i].uuid && LastOfUuid(HostReports(hosts), i);
    }
  }

  /** What the sync of a pool needs to complete. */
  lemma NeedsRead(db: Db, pool: XenPool, hosts: seq<XenHost>, vms: seq<XenVm>, srs: seq<XenSr>)
    ensures AllHaveRows(db, pool, hosts, vms, srs) <==>
      && (exists id :: IsClusterRow(db, id, ClusterReport(pool.name, "citrix_xenserver", pool.platformData)))
      && (forall h :: h in hosts ==> TextRow(db, Host, "platform_uuid", h.uuid))
      && (forall vm, i :: vm in vms && !vm.isTemplate && !vm.isControlDomain && RunsOn(hosts, pool.master, vm, i) ==>
            TextRow(db, Vm, "platform_vm_id", vm.uuid))
      && (exists id :: IsClusterRow(db, id, ClusterReport(pool.name, "citrix_xenserver", pool.platformData))
            && SrsHaveRows(db, id, srs))
  {
    hide TextRow, IsClusterRow, StoreNamed, HasRow, TreeHasRows, ClusterStoresHaveRows, RunsOn;
    var c := ClusterOf(pool);
    TreeRowsRead(db, c, HostReports(hosts), Repositories(srs));
    HostsListed(hosts);
    RepositoriesRead(srs);
    forall vm | vm in vms
      ensures HasRow(db, Vm, SingleKey(Text(vm.uuid))) <==> TextRow(db, Vm, "platform_vm_id", vm.uuid)
      ensures Resolves(hosts, pool.master, vm) <==> exists i :: RunsOn(hosts, pool.master, vm, i)
    {
      HasRowReads(db, vm.uuid, 0, StoreReport("", "", Null, Null, ""));
      ResolvesReads(hosts, pool.master, vm);
    }
    forall id: nat
      ensures SrsHaveRows(db, id, srs) <==> forall d :: d in Repositories(srs) ==> StoreNamed(db, id, d.name)
    {
    }
  }

  lemma HostsListed(hosts: seq<XenHost>)
    ensures forall h :: h in hosts ==> exists k :: k in HostReports(hosts) && k.uuid == h.uuid
    ensures forall k :: k in HostReports(hosts) ==> exists h :: h in hosts && k.uuid == h.uuid
  {
    forall h | h in hosts ensures exists k :: k in HostReports(hosts) && k.uuid == h.uuid {
      var i :| 0 <= i < |hosts| && hosts[i] == h;
      assert HostReports(hosts)[i] in HostReports(hosts);
    }
  }

  lemma ResolvesReads(hosts: seq<XenHost>, master: string, vm: XenVm)
    ensures Resolves(hosts, master, vm) <==> exists i :: RunsOn(hosts, master, vm, i)
  {
    var ids := seq(|hosts|, _ => 0);
    IndexedNames(HostReports(hosts), ids);
    IndexReads(hosts, ids, vm.residentOn);
    IndexReads(hosts, ids, master);
    ResolvesToResidentOrMaster(hosts, ids, master, vm);
  }

  /** The repositories that become datastores: all but two types. */
  lemma {:induction false} RepositoriesRead(srs: seq<XenSr>)
    ensures forall d :: d in Repositories(srs) <==>
      exists sr :: sr in srs && sr.srType != "udev" && sr.srType != "xenapi" && sr.store == d
  {
    if srs != [] {
      var n := |srs| - 1;
      RepositoriesRead(srs[..n]);
      assert forall sr :: sr in srs <==> sr in srs[..n] || sr == srs[n];
    }
  }

  /** Each of them counts once. */
  lemma {:induction false} RepositoriesCounted(srs: seq<XenSr>)
    ensures |Repositories(srs)| == |set i | 0 <= i < |srs| && srs[i].srType != "udev" && srs[i].srType != "xenapi"|
  {
    if srs != [] {
      var n := |srs| - 1;
      RepositoriesCounted(srs[..n]);
      var some := set i | 0 <= i < n && srs[..n][i].srType != "udev" && srs[..n][i].srType != "xenapi";
      var all := set i | 0 <= i < |srs| && srs[i].srType != "udev" && srs[i].srType != "xenapi";
      assert all == some + if srs[n].srType != "udev" && srs[n].srType != "xenapi" then {n} else {};
    }
  }

  /** The VM loop sees each VM that is neither template nor control domain. */
  lemma {:induction false} ReportsCounted(index: map<string, nat>, master: string, vms: seq<XenVm>)
    ensures |Reports(index, master, vms)| == |set i | 0 <= i < |vms| && !vms[i].isTemplate && !vms[i].isControlDomain|
  {
    if vms != [] {
      var n := |vms| - 1;
      ReportsCounted(index, master, vms[..n]);
      var some := set i | 0 <= i < n && !vms[..n][i].isTemplate && !vms[..n][i].isControlDomain;
      var all := set i | 0 <= i < |vms| && !vms[i].isTemplate && !vms[i].isControlDomain;
      assert all == some + if !vms[n].isTemplate && !vms[n].isControlDomain then {n} else {};
    }
  }

  /** `_process`: only the first pool is processed, and without a pool nothing happens.  Over tables with
      unambiguous keys it completes exactly when everything it lists has a row already.  Every VM row on
      a pool host then has its reported status if it is a reported, eligible VM that resolves to its
      resident host or the master, and is stopped otherwise. */
  method Process(engine: SyncEngine, stats: SyncStats, pools: seq<XenPool>, hosts: seq<XenHost>, vms: seq<XenVm>,
                 srs: seq<XenSr>)
    returns (ok: bool, index: map<string, nat>, ghost ids: seq<nat>, ghost cluster: nat)
    requires engine.Valid()
    modifies engine, stats`counts
    ensures engine.Valid() && SameKeys(old(engine.State()), engine.State())
    ensures stats.counts.created == old(stats.counts.created)
    ensures KeysUnique(old(engine.State())) ==>
      (ok <==> pools == [] || AllHaveRows(old(engine.State()), pools[0], hosts, vms, srs))
    ensures pools == [] ==> ok && engine.State() == old(engine.State()) && stats.counts == old(stats.counts)
    ensures ok && pools != [] ==>
      && Bound(engine.State(), HostReports(hosts), ids) && index == IndexOf(HostReports(hosts), ids)
      && Agrees(old(engine.State()), engine.State(), index.Values, KnownVms(index, pools[0].master, vms))
      && PoolAgrees(old(engine.State()), engine.State(), hosts, ids, pools[0].master, vms)
      && IsClusterRow(engine.State(), cluster, ClusterOf(pools[0]))
      && HostsStored(engine.State(), cluster, hosts)
      && StoresRead(engine.State(), cluster, Repositories(srs))
      && stats.counts.Total() == old(stats.counts.Total()) + 1 + |hosts|
           + |Reports(index, pools[0].master, vms)| + |Repositories(srs)|
  {
    hide Run, Exec, Completed, KeysUnique, Executes, Known, KnownVms, Agrees, WellFormed, SameKeys, HasRow;
    hide TreeHasRows, ClusterStoresHaveRows, VmsHaveRows, IndexOf, AllNames, Resolves;
    hide PoolAgrees, IsClusterRow, HostsRead, StoresRead, HostsStored;
    ok, index, ids, cluster := true, map[], [], 0;
    FollowsNothing(engine.State());
    if pools == [] {
      return;
    }
    ghost var before, run := engine.State(), [];
    ValidIsWellFormed(engine);
    var master := pools[0].master;
    var resolve := (index: map<string, nat>) => Reports(index, master, vms);
    var storesOk, clusterId;
    ok, storesOk, clusterId, index, ids, run :=
      SyncTree(engine, stats, ClusterOf(pools[0]), HostReports(hosts), resolve, Repositories(srs));
    if ok || (KeysUnique(before) && TreeHasRows(before, ClusterOf(pools[0]), HostReports(hosts))) {
      IndexedNames(HostReports(hosts), ids);
      VmsOfIndex(before, index, master, hosts, vms);
    }
    cluster := clusterId;
    if ok {
      KnownReports(index, master, vms);
      RunReconciles(before, run, index.Values, KnownVms(index, master, vms));
      AgreesReads(before, engine.State(), hosts, ids, master, vms);
      HostsReadStored(engine.State(), cluster, hosts);
    }
    ok := ok && storesOk;
  }
}
