/** The SCVMM sync: one cluster, hosts indexed by name, FQDN and short name. */
module Scvmm {
  import opened Wrappers
  import opened Values
  import opened Store
  import opened Keys
  import opened Effects
  import opened Updates
  import opened Reconcile
  import opened Runs
  import opened Engine
  import opened Hypervisor
  import opened Inventory

  /** `fqdn` is empty when the host reports none. */
  datatype ScHost = ScHost(id: string, fqdn: string, specs: Specs, at: string)

  datatype ScVm = ScVm(id: string, status: string, hostName: string, specs: Specs, at: string)

  function ClusterOf(name: string, platformData: Value): ClusterReport {
    ClusterReport(name, "hyper_v", platformData)
  }

  function VmStatus(status: string): string {
    if status == "Running" || status == "Starting" then "running"
    else if status == "Paused" || status == "Saved" then "suspended"
    else if status == "CreationFailed" || status == "CustomizationFailed" || status == "UpdateFailed" then "error"
    else "stopped"
  }

  /** `name.split(".")[0]`. */
  function Short(name: string): (short: string)
    ensures short <= name && '.' !in short
    ensures short == name || name[|short|] == '.'
  {
    if name == "" || name[0] == '.' then "" else [name[0]] + Short(name[1..])
  }

  function Names(h: ScHost): seq<string> {
    [h.specs.name] + (if h.fqdn == "" then [] else [h.fqdn]) + [Short(h.specs.name)]
  }

  function HostReports(hosts: seq<ScHost>): seq<HostReport> {
    seq(|hosts|, i requires 0 <= i < |hosts| =>
      HostReport(hosts[i].id, Names(hosts[i]), "active", hosts[i].specs, hosts[i].at))
  }

  function Resolve(index: map<string, nat>, hostName: string): Option<nat> {
    if hostName in index then Some(index[hostName])
    else if Short(hostName) in index then Some(index[Short(hostName)])
    else None
  }

  function ReportOf(index: map<string, nat>, vm: ScVm): Report {
    Report(vm.id, Resolve(index, vm.hostName), VmStatus(vm.status), vm.specs, vm.at)
  }

  /** VMs without an id are passed over. */
  function Reports(index: map<string, nat>, vms: seq<ScVm>): (reports: seq<Report>)
    ensures forall r :: r in reports <==> exists vm :: vm in vms && vm.id != "" && r == ReportOf(index, vm)
  {
    if vms == [] then []
    else
      var rest, vm := Reports(index, vms[..|vms| - 1]), vms[|vms| - 1];
      assert forall x :: x in vms <==> x in vms[..|vms| - 1] || x == vm;
      if vm.id != "" then rest + [ReportOf(index, vm)] else rest
  }

  function KnownVms(index: map<string, nat>, vms: seq<ScVm>): set<KnownVm> {
    set vm | vm in vms && vm.id != "" && Resolve(index, vm.hostName) != None
      :: KnownVm(Resolve(index, vm.hostName).value, vm.id,
                 VmRow(vm.id, VmStatus(vm.status), vm.specs), vm.at)
  }

  lemma KnownReports(index: map<string, nat>, vms: seq<ScVm>)
    ensures Known(Reports(index, vms)) == KnownVms(index, vms)
  {
    var reports := Reports(index, vms);
    forall k | k in KnownVms(index, vms) ensures k in Known(reports) {
      var vm :| vm in vms && vm.id != "" && Resolve(index, vm.hostName) != None
        && k == KnownVm(Resolve(index, vm.hostName).value, vm.id,
                        VmRow(vm.id, VmStatus(vm.status), vm.specs), vm.at);
      assert ReportOf(index, vm) in reports;
    }
  }

  // ---------- in the listing's own terms ----------

  /** Each status and what it is stored as. */
  lemma StatusReads(status: string)
    ensures VmStatus(status) == "running" <==> status == "Running" || status == "Starting"
    ensures VmStatus(status) == "suspended" <==> status == "Paused" || status == "Saved"
    ensures VmStatus(status) == "error" <==>
      status == "CreationFailed" || status == "CustomizationFailed" || status == "UpdateFailed"
    ensures VmStatus(status) in {"running", "suspended", "error", "stopped"}
  {
  }

  /** The host carries the name: as its name, its FQDN or its short name. */
  predicate CarriesName(h: ScHost, name: string) {
    name == h.specs.name || (h.fqdn != "" && name == h.fqdn) || name == Short(h.specs.name)
  }

  /** Host `i` is the last one listed that carries `name`. */
  ghost predicate LastNamed(hosts: seq<ScHost>, name: string, i: int) {
    0 <= i < |hosts| && CarriesName(hosts[i], name) && forall j :: i < j < |hosts| ==> !CarriesName(hosts[j], name)
  }

  /** Host `i` is the last one that carries the name the VM gives; failing any, the last one that carries that
      name's short form. */
  ghost predicate RunsOn(hosts: seq<ScHost>, hostName: string, i: int) {
    || LastNamed(hosts, hostName, i)
    || (LastNamed(hosts, Short(hostName), i) && forall j :: 0 <= j < |hosts| ==> !CarriesName(hosts[j], hostName))
  }

  lemma NamesAreCarried(h: ScHost, name: string)
    ensures name in Names(h) <==> CarriesName(h, name)
  {
  }

  lemma IndexReads(hosts: seq<ScHost>, ids: seq<nat>, name: string)
    requires |hosts| == |ids|
    ensures
      var index := IndexOf(HostReports(hosts), ids);
      && (name in index <==> exists i :: 0 <= i < |hosts| && CarriesName(hosts[i], name))
      && (name in index ==> exists i :: LastNamed(hosts, name, i) && index[name] == ids[i])
      && (forall i :: LastNamed(hosts, name, i) ==> name in index && index[name] == ids[i])
  {
    hide CarriesName, Names;
    var reports := HostReports(hosts);
    forall i | 0 <= i < |hosts| ensures name in reports[i].names <==> CarriesName(hosts[i], name) {
      NamesAreCarried(hosts[i], name);
    }
    IndexIsLast(reports, ids, name);
    var index := IndexOf(reports, ids);
    if name in index {
      var i :| 0 <= i < |reports| && name in reports[i].names && index[name] == ids[i]
        && forall j :: i < j < |reports| ==> name !in reports[j].names;
      assert LastNamed(hosts, name, i);
      assert forall j :: LastNamed(hosts, name, j) ==> j == i;
    }
  }

  /** A VM resolves to the last listed host that carries the name the VM gives, be it the host's name,
      FQDN or short name; failing that, to the last one that carries that name's short form. */
  lemma ResolvesByAnyName(hosts: seq<ScHost>, ids: seq<nat>, hostName: string)
    requires |hosts| == |ids|
    ensures
      var found := Resolve(IndexOf(HostReports(hosts), ids), hostName);
      && (forall i :: RunsOn(hosts, hostName, i) ==> found == Some(ids[i]))
      && (found != None ==> exists i :: RunsOn(hosts, hostName, i))
  {
    hide CarriesName;
    IndexReads(hosts, ids, hostName);
    IndexReads(hosts, ids, Short(hostName));
    var index := IndexOf(HostReports(hosts), ids);
    if hostName in index {
      var i :| LastNamed(hosts, hostName, i);
      assert RunsOn(hosts, hostName, i);
    } else if Short(hostName) in index {
      var i :| LastNamed(hosts, Short(hostName), i);
      assert RunsOn(hosts, hostName, i);
    }
  }

  /** A VM with an id whose host is known, and the only one with that id. */
  ghost predicate Placed(hosts: seq<ScHost>, vms: seq<ScVm>, vm: ScVm, i: int) {
    vm in vms && vm.id != "" && RunsOn(hosts, vm.hostName, i) && forall w :: w in vms && w.id == vm.id ==> w == vm
  }

  ghost predicate NotPlaced(hosts: seq<ScHost>, vms: seq<ScVm>, v: string) {
    forall vm, i :: vm in vms && vm.id == v ==> !RunsOn(hosts, vm.hostName, i)
  }

  /** The row is on host `i`, which some name leads to. */
  ghost predicate OnHost(hosts: seq<ScHost>, ids: seq<nat>, row: Row, name: string, i: int)
    requires |ids| == |hosts|
  {
    0 <= i < |hosts| && LastNamed(hosts, name, i) && Get(row, "host_id") == Key(ids[i])
  }

  /** The VM table after the sync.  A VM with an id reads what was reported, on the row of the host its host name
      leads to; every other VM row is as before, and stopped when it is on a host that some name leads to. */
  ghost predicate CloudAgrees(before: Db, after: Db, hosts: seq<ScHost>, ids: seq<nat>, vms: seq<ScVm>) {
    && |ids| == |hosts|
    && (forall i :: 0 <= i < |hosts| ==> HasText(after, Ref(Host, ids[i]), Host, "platform_uuid", hosts[i].id))
    && (forall vm, i, r :: 0 <= i < |hosts| && Placed(hosts, vms, vm, i) && HasId(after.rows, r, vm.id) ==>
          VmReads(after.rows[r], ids[i], vm.id, VmStatus(vm.status), vm.specs, vm.at))
    && (forall r, v :: v != "" && HasId(after.rows, r, v) && NotPlaced(hosts, vms, v) ==>
          && r in before.rows
          && (forall c :: c != "status" ==> Get(after.rows[r], c) == Get(before.rows[r], c))
          && Get(after.rows[r], "status") ==
               if exists name, i :: OnHost(hosts, ids, after.rows[r], name, i) then Text("stopped")
               else Get(before.rows[r], "status"))
  }

  lemma PlacedIsKnown(hosts: seq<ScHost>, ids: seq<nat>, vms: seq<ScVm>, vm: ScVm, i: int)
    requires |hosts| == |ids| && 0 <= i < |hosts| && Placed(hosts, vms, vm, i)
    ensures
      var known := KnownVms(IndexOf(HostReports(hosts), ids), vms);
      var k := KnownVm(ids[i], vm.id, VmRow(vm.id, VmStatus(vm.status), vm.specs), vm.at);
      k in known && forall other :: other in known && other.id == vm.id ==> other == k
  {
    hide VmRow, RunsOn, IndexOf, Resolve;
    ResolvesByAnyName(hosts, ids, vm.hostName);
  }

  lemma KnownIsPlaced(hosts: seq<ScHost>, ids: seq<nat>, vms: seq<ScVm>, v: string)
    requires |hosts| == |ids| && NotPlaced(hosts, vms, v)
    ensures forall k :: k in KnownVms(IndexOf(HostReports(hosts), ids), vms) ==> k.id != v
  {
    hide VmRow, RunsOn, IndexOf, Resolve;
    forall vm | vm in vms ensures Resolve(IndexOf(HostReports(hosts), ids), vm.hostName) != None ==>
      exists i :: RunsOn(hosts, vm.hostName, i)
    {
      ResolvesByAnyName(hosts, ids, vm.hostName);
    }
  }

  lemma SweptReads(hosts: seq<ScHost>, ids: seq<nat>, row: Row)
    requires |hosts| == |ids|
    ensures (exists h: nat :: h in IndexOf(HostReports(hosts), ids).Values && Get(row, "host_id") == Key(h))
      <==> exists name, i :: OnHost(hosts, ids, row, name, i)
  {
    hide CarriesName;
    var index := IndexOf(HostReports(hosts), ids);
    if h: nat :| h in index.Values && Get(row, "host_id") == Key(h) {
      var name :| name in index && index[name] == h;
      IndexReads(hosts, ids, name);
      var i :| LastNamed(hosts, name, i) && index[name] == ids[i];
      assert OnHost(hosts, ids, row, name, i);
    }
    if name, i :| OnHost(hosts, ids, row, name, i) {
      IndexReads(hosts, ids, name);
    }
  }

  lemma AgreesReads(before: Db, after: Db, hosts: seq<ScHost>, ids: seq<nat>, vms: seq<ScVm>)
    requires Bound(after, HostReports(hosts), ids)
    requires
      var index := IndexOf(HostReports(hosts), ids);
      Agrees(before, after, index.Values, KnownVms(index, vms))
    ensures CloudAgrees(before, after, hosts, ids, vms)
  {
    hide VmRow, VmReads, RunsOn, IndexOf, KnownVms, NotPlaced, OnHost, Base;
    var index := IndexOf(HostReports(hosts), ids);
    var known := KnownVms(index, vms);
    forall i | 0 <= i < |hosts| ensures HasText(after, Ref(Host, ids[i]), Host, "platform_uuid", hosts[i].id) {
      assert IsHost(after, ids[i], HostReports(hosts)[i].uuid);
    }
    forall vm, i, r | 0 <= i < |hosts| && Placed(hosts, vms, vm, i) && HasId(after.rows, r, vm.id)
      ensures VmReads(after.rows[r], ids[i], vm.id, VmStatus(vm.status), vm.specs, vm.at)
    {
      PlacedIsKnown(hosts, ids, vms, vm, i);
      ReportedReads(before, after, index.Values, known, r, ids[i], vm.id, VmStatus(vm.status), vm.specs, vm.at);
    }
    forall r, v | v != "" && HasId(after.rows, r, v) && NotPlaced(hosts, vms, v)
      ensures
        && r in before.rows
        && (forall c :: c != "status" ==> Get(after.rows[r], c) == Get(before.rows[r], c))
        && Get(after.rows[r], "status") ==
             if exists name, i :: OnHost(hosts, ids, after.rows[r], name, i) then Text("stopped")
             else Get(before.rows[r], "status")
    {
      KnownIsPlaced(hosts, ids, vms, v);
      assert RowAgrees(before, r, after.rows[r], v, index.Values, known);
      SweptReads(hosts, ids, after.rows[r]);
    }
  }

  /** Of the hosts with one id, the row holds the last one listed. */
  ghost predicate HostsStored(db: Db, cluster: nat, hosts: seq<ScHost>) {
    forall i :: 0 <= i < |hosts| && LastId(hosts, i) ==>
      exists id :: IsHostRow(db, id, cluster, hosts[i].id, hosts[i].specs.platformData, hosts[i].at)
  }

  ghost predicate LastId(hosts: seq<ScHost>, i: int)
    requires 0 <= i < |hosts|
  {
    forall j :: i < j < |hosts| ==> hosts[j].id != hosts[i].id
  }

  lemma HostsReadStored(db: Db, cluster: nat, hosts: seq<ScHost>)
    requires HostsRead(db, cluster, HostReports(hosts))
    ensures HostsStored(db, cluster, hosts)
  {
    forall i | 0 <= i < |hosts| && LastId(hosts, i)
      ensures exists id :: IsHostRow(db, id, cluster, hosts[i].id, hosts[i].specs.platformData, hosts[i].at)
    {
      assert HostReports(hosts)[i].uuid == hosts[i].id && LastOfUuid(HostReports(hosts), i);
    }
  }

  /** What the sync needs to complete; datastores are optional. */
  lemma NeedsRead(db: Db, name: string, platformData: Value, hosts: seq<ScHost>, vms: seq<ScVm>)
    ensures AllHaveRows(db, ClusterOf(name, platformData), hosts, vms) <==>
      && (exists id :: IsClusterRow(db, id, ClusterReport(name, "hyper_v", platformData)))
      && (forall h :: h in hosts ==> TextRow(db, Host, "platform_uuid", h.id))
      && (forall vm, i :: vm in vms && vm.id != "" && RunsOn(hosts, vm.hostName, i) ==>
            TextRow(db, Vm, "platform_vm_id", vm.id))
  {
    hide TextRow, IsClusterRow, HasRow, TreeHasRows, RunsOn;
    TreeRowsRead(db, ClusterOf(name, platformData), HostReports(hosts), []);
    HostsListed(hosts);
    forall vm | vm in vms
      ensures HasRow(db, Vm, SingleKey(Text(vm.id))) <==> TextRow(db, Vm, "platform_vm_id", vm.id)
      ensures Resolves(hosts, vm.hostName) <==> exists i :: RunsOn(hosts, vm.hostName, i)
    {
      HasRowReads(db, vm.id, 0, StoreReport("", "", Null, Null, ""));
      ResolvesReads(hosts, vm.hostName);
    }
  }

  lemma HostsListed(hosts: seq<ScHost>)
    ensures forall h :: h in hosts ==> exists k :: k in HostReports(hosts) && k.uuid == h.id
    ensures forall k :: k in HostReports(hosts) ==> exists h :: h in hosts && k.uuid == h.id
  {
    forall h | h in hosts ensures exists k :: k in HostReports(hosts) && k.uuid == h.id {
      var i :| 0 <= i < |hosts| && hosts[i] == h;
      assert HostReports(hosts)[i] in HostReports(hosts);
    }
  }

  lemma ResolvesReads(hosts: seq<ScHost>, hostName: string)
    ensures Resolves(hosts, hostName) <==> exists i :: RunsOn(hosts, hostName, i)
  {
    var ids := seq(|hosts|, _ => 0);
    IndexedNames(HostReports(hosts), ids);
    IndexReads(hosts, ids, hostName);
    IndexReads(hosts, ids, Short(hostName));
    ResolvesByAnyName(hosts, ids, hostName);
  }

  /** The VM loop sees each VM with an id. */
  lemma {:induction false} ReportsCounted(index: map<string, nat>, vms: seq<ScVm>)
    ensures |Reports(index, vms)| == |set i | 0 <= i < |vms| && vms[i].id != ""|
  {
    if vms != [] {
      var n := |vms| - 1;
      ReportsCounted(index, vms[..n]);
      var some := set i | 0 <= i < n && vms[..n][i].id != "";
      var all := set i | 0 <= i < |vms| && vms[i].id != "";
      assert all == some + if vms[n].id != "" then {n} else {};
    }
  }

  predicate Resolves(hosts: seq<ScHost>, hostName: string) {
    hostName in AllNames(HostReports(hosts)) || Short(hostName) in AllNames(HostReports(hosts))
  }

  /** The cluster, its hosts and the VMs with an id that resolve have rows. */
  ghost predicate AllHaveRows(db: Db, cluster: ClusterReport, hosts: seq<ScHost>, vms: seq<ScVm>) {
    && TreeHasRows(db, cluster, HostReports(hosts))
    && (forall vm :: vm in vms && vm.id != "" && Resolves(hosts, vm.hostName) ==>
         HasRow(db, Vm, SingleKey(Text(vm.id))))
  }

  lemma VmsOfIndex(db: Db, index: map<string, nat>, hosts: seq<ScHost>, vms: seq<ScVm>)
    requires index.Keys == AllNames(HostReports(hosts))
    ensures VmsHaveRows(db, Reports(index, vms)) <==>
      forall vm :: vm in vms && vm.id != "" && Resolves(hosts, vm.hostName) ==> HasRow(db, Vm, SingleKey(Text(vm.id)))
  {
    hide HasRow;
    var reports := Reports(index, vms);
    if VmsHaveRows(db, reports) {
      forall vm | vm in vms && vm.id != "" && Resolves(hosts, vm.hostName)
        ensures HasRow(db, Vm, SingleKey(Text(vm.id)))
      {
        assert ReportOf(index, vm) in reports;
      }
    }
  }

  /** `sync_all`.  Over tables with unambiguous keys it completes exactly when the cluster, its hosts and
      the VMs it upserts have rows already.  Every VM row on an indexed host has its reported status if it was
      reported with an id and a host name that resolves, and is stopped otherwise.  The optional datastore step
      may fail without failing the sync; over WinRM it is left out. */
  method SyncAll(engine: SyncEngine, stats: SyncStats, useWinrm: bool, name: string, platformData: Value,
                 hosts: seq<ScHost>, vms: seq<ScVm>, shares: seq<StoreReport>)
    returns (ok: bool, index: map<string, nat>, ghost ids: seq<nat>, ghost cluster: nat)
    requires engine.Valid()
    modifies engine, stats`counts
    ensures engine.Valid() && SameKeys(old(engine.State()), engine.State())
    ensures stats.counts.created == old(stats.counts.created)
    ensures KeysUnique(old(engine.State())) ==>
      (ok <==> AllHaveRows(old(engine.State()), ClusterOf(name, platformData), hosts, vms))
    ensures ok ==>
      && Bound(engine.State(), HostReports(hosts), ids) && index == IndexOf(HostReports(hosts), ids)
      && Agrees(old(engine.State()), engine.State(), index.Values, KnownVms(index, vms))
      && CloudAgrees(old(engine.State()), engine.State(), hosts, ids, vms)
      && IsClusterRow(engine.State(), cluster, ClusterOf(name, platformData))
      && HostsStored(engine.State(), cluster, hosts)
    ensures
      var stores := if useWinrm then [] else shares;
      KeysUnique(old(engine.State())) && ok
      && ClusterStoresHaveRows(old(engine.State()), ClusterOf(name, platformData), stores) ==>
        && StoresRead(engine.State(), cluster, stores)
        && stats.counts.Total() == old(stats.counts.Total()) + 1 + |hosts| + |Reports(index, vms)| + |stores|
  {
    hide Run, Exec, Completed, KeysUnique, Executes, Known, KnownVms, Agrees, WellFormed, SameKeys, HasRow;
    hide TreeHasRows, ClusterStoresHaveRows, VmsHaveRows, IndexOf, AllNames, Resolves;
    hide CloudAgrees, IsClusterRow, HostsRead, HostsStored, StoresRead;
    ghost var before, run := engine.State(), [];
    ValidIsWellFormed(engine);
    var resolve := (index: map<string, nat>) => Reports(index, vms);
    var storesOk, clusterId;
    ok, storesOk, clusterId, index, ids, run :=
      SyncTree(engine, stats, ClusterOf(name, platformData), HostReports(hosts), resolve,
        if useWinrm then [] else shares);
    if ok || (KeysUnique(before) && TreeHasRows(before, ClusterOf(name, platformData), HostReports(hosts))) {
      IndexedNames(HostReports(hosts), ids);
      VmsOfIndex(before, index, hosts, vms);
    }
    if ok {
      KnownReports(index, vms);
      RunReconciles(before, run, index.Values, KnownVms(index, vms));
      AgreesReads(before, engine.State(), hosts, ids, vms);
      HostsReadStored(engine.State(), clusterId, hosts);
    }
    cluster := clusterId;
  }
}
