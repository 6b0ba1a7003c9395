/** The vCenter sync: clusters, and inside each its hosts, VMs and datastores. */
module VCenter {
  import opened Wrappers
  import opened Values
  import opened Store
  import opened Keys
  import opened Effects
  import opened Updates
  import opened Replay
  import opened Reconcile
  import opened Runs
  import opened Engine
  import opened Hypervisor
  import opened Inventory

  datatype VcHost = VcHost(moref: string, connection: string, power: string, specs: Specs, at: string)

  datatype VcVm = VcVm(moref: string, host: string, power: string, specs: Specs, at: string)

  /** A cluster as vCenter lists it. */
  datatype VcCluster = VcCluster(
    name: string, platformData: Value, hosts: seq<VcHost>, vms: seq<VcVm>, datastores: seq<StoreReport>)

  function ClusterOf(c: VcCluster): ClusterReport {
    ClusterReport(c.name, "vmware_vsphere", c.platformData)
  }

  function HostStatus(connection: string, power: string): string {
    if connection == "CONNECTED" && power == "POWERED_ON" then "active"
    else if power == "POWERED_OFF" then "maintenance"
    else "active"
  }

  function VmStatus(power: string): string {
    if power == "POWERED_ON" then "running"
    else if power == "SUSPENDED" then "suspended"
    else "stopped"
  }

  /** Each power state and what it is stored as.  A host's connection state never matters, only its power. */
  lemma StatusReads(power: string)
    ensures forall connection :: HostStatus(connection, power) == "maintenance" <==> power == "POWERED_OFF"
    ensures forall connection :: HostStatus(connection, power) == "active" <==> power != "POWERED_OFF"
    ensures VmStatus(power) == "running" <==> power == "POWERED_ON"
    ensures VmStatus(power) == "suspended" <==> power == "SUSPENDED"
    ensures VmStatus(power) == "stopped" <==> power != "POWERED_ON" && power != "SUSPENDED"
  {
  }

  function HostReportOf(h: VcHost): HostReport {
    HostReport(h.moref, [h.moref], HostStatus(h.connection, h.power), h.specs, h.at)
  }

  function HostReports(hosts: seq<VcHost>): seq<HostReport> {
    seq(|hosts|, i requires 0 <= i < |hosts| => HostReportOf(hosts[i]))
  }

  function Morefs(hosts: seq<VcHost>): set<string> {
    set h | h in hosts :: h.moref
  }

  function VmData(vm: VcVm): Row {
    VmRow(vm.moref, VmStatus(vm.power), vm.specs)
  }

  /** What the VM table stores of it; the host is the one it resolves to. */
  function VmColumns(vm: VcVm): Row {
    Stored(KnownVm(0, vm.moref, VmData(vm), vm.at).Put())
  }

  /** `host_moref_to_db_id.get(...)`. */
  function ReportOf(index: map<string, nat>, vm: VcVm): Report {
    Report(vm.moref, if vm.host in index then Some(index[vm.host]) else None, VmStatus(vm.power), vm.specs, vm.at)
  }

  function Reports(index: map<string, nat>, vms: seq<VcVm>): seq<Report> {
    seq(|vms|, i requires 0 <= i < |vms| => ReportOf(index, vms[i]))
  }

  // ---------- what was reported, free of order ----------

  function HostMorefs(clusters: seq<VcCluster>): set<string> {
    set c, h | c in clusters && h in c.hosts :: h.moref
  }

  /** VMs reported on a host of their own cluster. */
  function KnownVms(clusters: seq<VcCluster>): set<VcVm> {
    set c, vm | c in clusters && vm in c.vms && vm.host in Morefs(c.hosts) :: vm
  }

  /** Every host belongs to one cluster. */
  ghost predicate UniqueHosts(clusters: seq<VcCluster>) {
    forall i, j :: 0 <= i < j < |clusters| ==> Morefs(clusters[i].hosts) !! Morefs(clusters[j].hosts)
  }

  function KnownOf(index: map<string, nat>, vms: set<VcVm>): set<KnownVm> {
    set vm | vm in vms && vm.host in index
      :: KnownVm(index[vm.host], vm.moref, VmData(vm), vm.at)
  }

  function Listed(clusters: seq<VcCluster>): nat {
    if clusters == [] then 0
    else
      var c := clusters[|clusters| - 1];
      Listed(clusters[..|clusters| - 1]) + 1 + |c.hosts| + |c.vms| + |c.datastores|
  }

  /** Every entry of the index is the row of the host with that moref. */
  ghost predicate IndexBound(db: Db, index: map<string, nat>) {
    forall m :: m in index ==> IsHost(db, index[m], m)
  }

  // ---------- one cluster ----------

  lemma IndexOfMorefs(db: Db, hosts: seq<VcHost>, ids: seq<nat>)
    requires Bound(db, HostReports(hosts), ids)
    ensures IndexOf(HostReports(hosts), ids).Keys == Morefs(hosts)
    ensures IndexBound(db, IndexOf(HostReports(hosts), ids))
  {
    var reports := HostReports(hosts);
    forall m: string
      ensures m in IndexOf(reports, ids) <==> m in Morefs(hosts)
      ensures m in IndexOf(reports, ids) ==> IsHost(db, IndexOf(reports, ids)[m], m)
    {
      IndexIsLast(reports, ids, m);
      if m in Morefs(hosts) {
        var i :| 0 <= i < |hosts| && hosts[i].moref == m;
        assert m in reports[i].names;
      }
    }
  }

  lemma KnownReports(index: map<string, nat>, vms: seq<VcVm>)
    ensures Known(Reports(index, vms)) == KnownOf(index, set vm | vm in vms)
  {
    var all := set vm | vm in vms;
    forall vm | vm in vms ensures ReportOf(index, vm) in Reports(index, vms) {
      var i :| 0 <= i < |vms| && vms[i] == vm;
      assert Reports(index, vms)[i] == ReportOf(index, vm);
    }
    forall k | k in KnownOf(index, all) ensures k in Known(Reports(index, vms)) {
      var vm :| vm in all && vm.host in index
        && k == KnownVm(index[vm.host], vm.moref, VmData(vm), vm.at);
      assert ReportOf(index, vm) in Reports(index, vms);
    }
    forall k | k in Known(Reports(index, vms)) ensures k in KnownOf(index, all) {
      var r :| r in Reports(index, vms) && r.host != None && k == KnownVm(r.host.value, r.id, ReportData(r), r.at);
      var i :| 0 <= i < |vms| && Reports(index, vms)[i] == r;
      assert vms[i] in all;
    }
  }

  // ---------- which rows a sync needs ----------

  /** The cluster, its hosts, the VMs on these hosts and its datastores have rows. */
  ghost predicate ClusterHasRows(db: Db, c: VcCluster) {
    && TreeHasRows(db, ClusterOf(c), HostReports(c.hosts))
    && (forall vm :: vm in c.vms && vm.host in Morefs(c.hosts) ==> HasRow(db, Vm, SingleKey(Text(vm.moref))))
    && ClusterStoresHaveRows(db, ClusterOf(c), c.datastores)
  }

  ghost predicate AllHaveRows(db: Db, clusters: seq<VcCluster>) {
    forall c :: c in clusters ==> ClusterHasRows(db, c)
  }

  lemma VmsOfIndex(db: Db, index: map<string, nat>, c: VcCluster)
    requires index.Keys == Morefs(c.hosts)
    ensures VmsHaveRows(db, Reports(index, c.vms)) <==>
      forall vm :: vm in c.vms && vm.host in Morefs(c.hosts) ==> HasRow(db, Vm, SingleKey(Text(vm.moref)))
  {
    hide HasRow;
    var reports := Reports(index, c.vms);
    if VmsHaveRows(db, reports) {
      forall vm | vm in c.vms && vm.host in Morefs(c.hosts) ensures HasRow(db, Vm, SingleKey(Text(vm.moref))) {
        var i :| 0 <= i < |c.vms| && c.vms[i] == vm;
        assert reports[i] == ReportOf(index, vm);
      }
    }
    if forall vm :: vm in c.vms && vm.host in Morefs(c.hosts) ==> HasRow(db, Vm, SingleKey(Text(vm.moref))) {
      forall r | r in reports && r.host != None ensures HasRow(db, Vm, SingleKey(Text(r.id))) {
        var i :| 0 <= i < |reports| && reports[i] == r;
        assert c.vms[i] in c.vms;
      }
    }
  }

  /** Of the hosts with one moref, the row holds the last one listed. */
  ghost predicate HostsStored(db: Db, cluster: nat, hosts: seq<VcHost>) {
    forall i :: 0 <= i < |hosts| && LastMoref(hosts, i) ==>
      exists id :: IsHostRow(db, id, cluster, hosts[i].moref, hosts[i].specs.platformData, hosts[i].at)
  }

  ghost predicate LastMoref(hosts: seq<VcHost>, i: int)
    requires 0 <= i < |hosts|
  {
    forall j :: i < j < |hosts| ==> hosts[j].moref != hosts[i].moref
  }

  lemma HostsReadStored(db: Db, cluster: nat, hosts: seq<VcHost>)
    requires HostsRead(db, cluster, HostReports(hosts))
    ensures HostsStored(db, cluster, hosts)
  {
    forall i | 0 <= i < |hosts| && LastMoref(hosts, i)
      ensures exists id :: IsHostRow(db, id, cluster, hosts[i].moref, hosts[i].specs.platformData, hosts[i].at)
    {
      assert HostReports(hosts)[i].uuid == hosts[i].moref && LastOfUuid(HostReports(hosts), i);
    }
  }

  /** What the sync of a cluster needs to complete. */
  lemma NeedsRead(db: Db, c: VcCluster)
    ensures ClusterHasRows(db, c) <==>
      && (exists id :: IsClusterRow(db, id, ClusterReport(c.name, "vmware_vsphere", c.platformData)))
      && (forall h :: h in c.hosts ==> TextRow(db, Host, "platform_uuid", h.moref))
      && (forall vm, h :: vm in c.vms && h in c.hosts && vm.host == h.moref ==>
            TextRow(db, Vm, "platform_vm_id", vm.moref))
      && (exists id :: IsClusterRow(db, id, ClusterReport(c.name, "vmware_vsphere", c.platformData))
            && forall d :: d in c.datastores ==> StoreNamed(db, id, d.name))
  {
    hide TextRow, IsClusterRow, StoreNamed, HasRow, TreeHasRows, ClusterStoresHaveRows;
    TreeRowsRead(db, ClusterOf(c), HostReports(c.hosts), c.datastores);
    HostsListed(c.hosts);
    forall vm | vm in c.vms
      ensures HasRow(db, Vm, SingleKey(Text(vm.moref))) <==> TextRow(db, Vm, "platform_vm_id", vm.moref)
    {
      HasRowReads(db, vm.moref, 0, StoreReport("", "", Null, Null, ""));
    }
  }

  lemma HostsListed(hosts: seq<VcHost>)
    ensures forall h :: h in hosts ==> exists k :: k in HostReports(hosts) && k.uuid == h.moref
    ensures forall k :: k in HostReports(hosts) ==> exists h :: h in hosts && k.uuid == h.moref
  {
    forall h | h in hosts ensures exists k :: k in HostReports(hosts) && k.uuid == h.moref {
      var i :| 0 <= i < |hosts| && hosts[i] == h;
      assert HostReports(hosts)[i] in HostReports(hosts);
    }
  }

  /** Put together from what the tree reports. */
  lemma CompleteIffRows(db: Db, c: VcCluster, ok: bool, storesOk: bool, index: map<string, nat>)
    requires ok || TreeHasRows(db, ClusterOf(c), HostReports(c.hosts)) ==> index.Keys == Morefs(c.hosts)
    requires ok <==> TreeHasRows(db, ClusterOf(c), HostReports(c.hosts)) && VmsHaveRows(db, Reports(index, c.vms))
    requires ok ==> (storesOk <==> ClusterStoresHaveRows(db, ClusterOf(c), c.datastores))
    ensures ok && storesOk <==> ClusterHasRows(db, c)
  {
    hide TreeHasRows, VmsHaveRows, ClusterStoresHaveRows, HasRow;
    if TreeHasRows(db, ClusterOf(c), HostReports(c.hosts)) {
      VmsOfIndex(db, index, c);
    }
  }

  /** One iteration of the cluster loop. */
  method SyncCluster(engine: SyncEngine, stats: SyncStats, c: VcCluster)
    returns (ok: bool, index: map<string, nat>, ghost run: seq<Op>, ghost cluster: nat)
    requires engine.Valid()
    modifies engine, stats`counts
    ensures engine.Valid() && SameKeys(old(engine.State()), engine.State())
    ensures stats.counts.created == old(stats.counts.created)
    ensures ok ==> Follows(engine, old(engine.State()), old(engine.ops), run)
    ensures ok ==> index.Keys == Morefs(c.hosts) && IndexBound(engine.State(), index)
    ensures ok ==> Executes(run, index.Values, KnownOf(index, set vm | vm in c.vms))
    ensures ok ==> stats.counts.Total() == old(stats.counts.Total()) + 1 + |c.hosts| + |c.vms| + |c.datastores|
    ensures ok ==> IsClusterRow(engine.State(), cluster, ClusterOf(c)) && HostsStored(engine.State(), cluster, c.hosts)
    ensures ok ==> StoresRead(engine.State(), cluster, c.datastores)
    ensures KeysUnique(old(engine.State())) ==> (ok <==> ClusterHasRows(old(engine.State()), c))
  {
    hide Run, Exec, Completed, KeysUnique, Bound, IndexOf, Executes, Known, KnownOf, IndexBound, SameKeys, HasRow;
    hide ClusterHasRows, TreeHasRows, VmsHaveRows, ClusterStoresHaveRows;
    hide IsClusterRow, HostsRead, HostsStored, StoresRead;
    ghost var before := engine.State();
    var resolve := (index: map<string, nat>) => Reports(index, c.vms);
    var storesOk, clusterId;
    ghost var ids;
    ok, storesOk, clusterId, index, ids, run :=
      SyncTree(engine, stats, ClusterOf(c), HostReports(c.hosts), resolve, c.datastores);
    if ok || (KeysUnique(before) && TreeHasRows(before, ClusterOf(c), HostReports(c.hosts))) {
      IndexOfMorefs(engine.State(), c.hosts, ids);
      KnownReports(index, c.vms);
    }
    cluster := clusterId;
    if ok {
      HostsReadStored(engine.State(), cluster, c.hosts);
    }
    if KeysUnique(before) {
      CompleteIffRows(before, c, ok, storesOk, index);
    }
    ok := ok && storesOk;
  }

  lemma IndexStays(before: Db, a: seq<Op>, b: seq<Op>, index: map<string, nat>)
    requires WellFormed(before) && IndexBound(Run(before, a), index)
    ensures IndexBound(Run(before, a + b), index)
  {
    hide Run;
    RunReplays(before, a);
    RunConcat(before, a, b);
    forall m | m in index ensures IsHost(Run(before, a + b), index[m], m) {
      IsHostStays(Run(before, a), b, index[m], m);
    }
  }

  // ---------- the whole run ----------

  lemma ListedOneMore(clusters: seq<VcCluster>, c: VcCluster)
    ensures Listed(clusters + [c]) == Listed(clusters) + 1 + |c.hosts| + |c.vms| + |c.datastores|
  {
    assert (clusters + [c])[..|clusters|] == clusters;
  }

  /** A run that did what the listed clusters call for. */
  ghost predicate Performs(before: Db, run: seq<Op>, clusters: seq<VcCluster>, index: map<string, nat>) {
    && Completed(before, run)
    && index.Keys == HostMorefs(clusters)
    && IndexBound(Run(before, run), index)
    && Executes(run, index.Values, KnownOf(index, KnownVms(clusters)))
  }

  lemma PerformsNothing(before: Db)
    ensures Performs(before, [], [], map[])
  {
    assert HostMorefs([]) == {} && KnownVms([]) == {};
    var none: map<string, nat> := map[];
    assert none.Values == {};
  }

  lemma ContentsOneMore(clusters: seq<VcCluster>, c: VcCluster)
    ensures HostMorefs(clusters + [c]) == HostMorefs(clusters) + Morefs(c.hosts)
    ensures KnownVms(clusters + [c]) == KnownVms(clusters) + set vm | vm in c.vms && vm.host in Morefs(c.hosts)
  {
    var all := clusters + [c];
    assert c in all;
    assert forall d :: d in clusters ==> d in all;
    forall m | m in HostMorefs(all) ensures m in HostMorefs(clusters) + Morefs(c.hosts) {
      var d, h :| d in all && h in d.hosts && h.moref == m;
    }
    forall m | m in Morefs(c.hosts) ensures m in HostMorefs(all) {
      var h :| h in c.hosts && h.moref == m;
    }
  }

  /** The index entries of different clusters are different rows. */
  lemma DisjointValues(db: Db, a: map<string, nat>, b: map<string, nat>)
    requires IndexBound(db, a) && IndexBound(db, b) && a.Keys !! b.Keys
    ensures a.Values !! b.Values && (a + b).Values == a.Values + b.Values
  {
    forall x, y | x in a && y in b ensures a[x] != b[y] {
      assert IsHost(db, a[x], x) && IsHost(db, b[y], y);
    }
    forall v | v in a.Values ensures v in (a + b).Values {
      var x :| x in a && a[x] == v;
      assert (a + b)[x] == v;
    }
    forall v | v in b.Values ensures v in (a + b).Values {
      var x :| x in b && b[x] == v;
      assert (a + b)[x] == v;
    }
  }

  lemma KnownOfUnion(clusters: seq<VcCluster>, c: VcCluster, a: map<string, nat>, b: map<string, nat>)
    requires a.Keys == HostMorefs(clusters) && b.Keys == Morefs(c.hosts) && a.Keys !! b.Keys
    ensures KnownOf(a + b, KnownVms(clusters + [c])) ==
      KnownOf(a, KnownVms(clusters)) + KnownOf(b, set vm | vm in c.vms)
  {
    ContentsOneMore(clusters, c);
    forall vm | vm in KnownVms(clusters) ensures vm.host in a {
      var d :| d in clusters && vm in d.vms && vm.host in Morefs(d.hosts);
      var h :| h in d.hosts && h.moref == vm.host;
    }
    var known, added := KnownVms(clusters), set vm | vm in c.vms && vm.host in Morefs(c.hosts);
    KnownOfJoin(a + b, known, added);
    KnownOfLocal(a + b, a, known);
    KnownOfFiltered(a + b, b, c);
  }

  lemma KnownOfJoin(index: map<string, nat>, x: set<VcVm>, y: set<VcVm>)
    ensures KnownOf(index, x + y) == KnownOf(index, x) + KnownOf(index, y)
  {
  }

  lemma KnownOfLocal(a: map<string, nat>, b: map<string, nat>, vms: set<VcVm>)
    requires forall vm :: vm in vms ==> vm.host in a && vm.host in b && a[vm.host] == b[vm.host]
    ensures KnownOf(a, vms) == KnownOf(b, vms)
  {
  }

  /** VMs whose host is not in the index are skipped. */
  lemma KnownOfFiltered(a: map<string, nat>, b: map<string, nat>, c: VcCluster)
    requires b.Keys == Morefs(c.hosts) && (forall m :: m in b ==> m in a && a[m] == b[m])
    ensures KnownOf(a, set vm | vm in c.vms && vm.host in Morefs(c.hosts)) == KnownOf(b, set vm | vm in c.vms)
  {
  }

  lemma PerformsOneMore(before: Db, run: seq<Op>, clusters: seq<VcCluster>, index: map<string, nat>,
                        c: VcCluster, run': seq<Op>, index': map<string, nat>)
    requires WellFormed(before) && Performs(before, run, clusters, index) && HostMorefs(clusters) !! Morefs(c.hosts)
    requires Completed(Run(before, run), run') && index'.Keys == Morefs(c.hosts)
    requires IndexBound(Run(Run(before, run), run'), index')
    requires Executes(run', index'.Values, KnownOf(index', set vm | vm in c.vms))
    ensures Performs(before, run + run', clusters + [c], index + index')
  {
    hide Run, Completed, Executes, KnownOf, KnownVms, HostMorefs, Morefs;
    FollowsJoin(before, run, run');
    IndexStays(before, run, run', index);
    DisjointValues(Run(before, run + run'), index, index');
    ExecutesConcat(run, index.Values, KnownOf(index, KnownVms(clusters)), run', index'.Values, KnownOf(index',
      set vm | vm in c.vms));
    KnownOfUnion(clusters, c, index, index');
    ContentsOneMore(clusters, c);
  }

  lemma EarlierHostsDiffer(clusters: seq<VcCluster>, i: nat)
    requires UniqueHosts(clusters) && i < |clusters|
    ensures HostMorefs(clusters[..i]) !! Morefs(clusters[i].hosts)
  {
    forall m | m in HostMorefs(clusters[..i]) ensures m !in Morefs(clusters[i].hosts) {
      var d, h :| d in clusters[..i] && h in d.hosts && h.moref == m;
      var j :| 0 <= j < i && clusters[j] == d;
      assert m in Morefs(clusters[j].hosts);
    }
  }

  /** `_sync_with_token`.  A run never creates a row, completed or not.  Over tables with unambiguous keys
      it completes exactly when everything listed has a row already.  A completed run
      counts every listed item once; and when every host belongs to one cluster it leaves the VM table
      as reported: `Agrees` does not mention the order of clusters, hosts or VMs. */
  method SyncWithToken(engine: SyncEngine, stats: SyncStats, clusters: seq<VcCluster>)
    returns (ok: bool, ghost index: map<string, nat>, ghost run: seq<Op>)
    requires engine.Valid()
    modifies engine, stats`counts
    ensures engine.Valid() && SameKeys(old(engine.State()), engine.State())
    ensures stats.counts.created == old(stats.counts.created)
    ensures KeysUnique(old(engine.State())) ==> (ok <==> AllHaveRows(old(engine.State()), clusters))
    ensures ok ==> engine.State() == Run(old(engine.State()), run)
    ensures ok ==> stats.counts.Total() == old(stats.counts.Total()) + Listed(clusters)
    ensures ok && UniqueHosts(clusters) ==>
      Performs(old(engine.State()), run, clusters, index)
      && Agrees(old(engine.State()), engine.State(), index.Values, KnownOf(index, KnownVms(clusters)))
  {
    hide Run, Exec, Completed, KeysUnique, Performs, UniqueHosts, Agrees, Executes, KnownOf, KnownVms, IndexBound;
    hide WellFormed, SameKeys, ClusterHasRows, HostMorefs, Morefs, HasRow;
    ok, index, run := true, map[], [];
    ghost var before, ops := engine.State(), engine.ops;
    ValidIsWellFormed(engine);
    FollowsNothing(before);
    PerformsNothing(before);
    for i := 0 to |clusters|
      invariant Follows(engine, before, ops, run)
      invariant UniqueHosts(clusters) ==> Performs(before, run, clusters[..i], index)
      invariant stats.counts.created == old(stats.counts.created)
      invariant stats.counts.Total() == old(stats.counts.Total()) + Listed(clusters[..i])
      invariant KeysUnique(before) ==> AllHaveRows(before, clusters[..i])
    {
      ghost var mid := engine.State();
      ValidIsWellFormed(engine);
      if KeysUnique(before) {
        SameKeysStayUnique(before, mid);
        SameClusterRows(before, mid, clusters[i]);
      }
      assert clusters[i] in clusters;
      ghost var index', run', cluster;
      ok, index', run', cluster := SyncCluster(engine, stats, clusters[i]);
      SameKeysTransitive(before, mid, engine.State());
      if !ok {
        return;
      }
      FollowsJoin(before, run, run');
      if UniqueHosts(clusters) {
        EarlierHostsDiffer(clusters, i);
        PerformsOneMore(before, run, clusters[..i], index, clusters[i], run', index') by {
          PerformsParts(before, run, clusters[..i], index);
        }
      }
      ListedOneMore(clusters[..i], clusters[i]);
      assert clusters[..i + 1] == clusters[..i] + [clusters[i]];
      index, run := index + index', run + run';
    }
    assert clusters[..|clusters|] == clusters;
    if UniqueHosts(clusters) {
      PerformsParts(before, run, clusters, index);
      RunReconciles(before, run, index.Values, KnownOf(index, KnownVms(clusters)));
    }
  }

  lemma SameClusterRows(a: Db, b: Db, c: VcCluster)
    requires SameKeys(a, b)
    ensures ClusterHasRows(a, c) <==> ClusterHasRows(b, c)
  {
    hide SameKeys, HasRow, HostsHaveRows, StoresHaveRows, IsCluster;
    SameHosts(a, b, HostReports(c.hosts));
    SameKeysSameRows(a, b, Cluster, ClusterKey(ClusterOf(c)));
    forall vm | vm in c.vms
      ensures HasRow(a, Vm, SingleKey(Text(vm.moref))) <==> HasRow(b, Vm, SingleKey(Text(vm.moref)))
    {
      SameKeysSameRows(a, b, Vm, SingleKey(Text(vm.moref)));
    }
    forall id: nat
      ensures IsCluster(a, id, ClusterOf(c)) <==> IsCluster(b, id, ClusterOf(c))
      ensures StoresHaveRows(a, id, c.datastores) <==> StoresHaveRows(b, id, c.datastores)
    {
      SameStores(a, b, id, c.datastores);
      SameCluster(a, b, id, ClusterOf(c));
    }
  }

  /** On empty tables the first cluster already raises: the simplest input on which nothing can be synced. */
  lemma FirstSyncFails(clusters: seq<VcCluster>)
    requires clusters != []
    ensures
      var empty := Db(map[], map[], map[], map[], [], 0);
      && KeysUnique(empty) && !AllHaveRows(empty, clusters)
      && StepOf(empty, UpsertCluster(ClusterRow(ClusterOf(clusters[0])))).Raised?
  {
    hide StepOf, OnlyUpdates, ClusterRow;
    var empty := Db(map[], map[], map[], map[], [], 0);
    assert clusters[0] in clusters;
    ClusterRowOnlyUpdates(ClusterOf(clusters[0]));
    SucceedsIffRow(empty, UpsertCluster(ClusterRow(ClusterOf(clusters[0]))));
  }

  lemma PerformsParts(before: Db, run: seq<Op>, clusters: seq<VcCluster>, index: map<string, nat>)
    requires Performs(before, run, clusters, index)
    ensures Completed(before, run) && Executes(run, index.Values, KnownOf(index, KnownVms(clusters)))
  {
  }

  // ---------- the order of the listing does not matter ----------

  /** Every VM row points to a host row (a foreign key). */
  ghost predicate VmsHaveHosts(db: Db) {
    forall r :: r in db.rows && r.kind == Vm ==>
      var h := Get(db.rows[r], "host_id"); h.Key? && Ref(Host, h.id) in db.rows
  }

  /** No VM is reported twice. */
  ghost predicate UniqueVms(clusters: seq<VcCluster>) {
    forall a, b :: a in KnownVms(clusters) && b in KnownVms(clusters) && a.moref == b.moref ==> a == b
  }

  /** The platform uuid of the host a VM row points to. */
  function HostUuidOf(db: Db, row: Row): Value {
    var h := Get(row, "host_id");
    if h.Key? && Ref(Host, h.id) in db.rows then Get(db.rows[Ref(Host, h.id)], "platform_uuid") else Null
  }

  /** The same VM as two databases see it; row ids of hosts the run created may differ. */
  ghost predicate SameVm(db1: Db, row1: Row, db2: Db, row2: Row) {
    (forall c :: c != "host_id" ==> Get(row1, c) == Get(row2, c)) && HostUuidOf(db1, row1) == HostUuidOf(db2, row2)
  }

  lemma KnownVmOf(index: map<string, nat>, vms: set<VcVm>, k: KnownVm) returns (vm: VcVm)
    requires k in KnownOf(index, vms)
    ensures vm in vms && vm.host in index
    ensures k == KnownVm(index[vm.host], vm.moref, VmData(vm), vm.at)
  {
    vm :| vm in vms && vm.host in index
      && k == KnownVm(index[vm.host], vm.moref, VmData(vm), vm.at);
  }

  /** A host row that existed before was swept exactly when its uuid was listed. */
  lemma SweptIsListed(before: Db, run: seq<Op>, clusters: seq<VcCluster>, index: map<string, nat>, h: nat)
    requires KeysUnique(before) && Performs(before, run, clusters, index) && "" !in HostMorefs(clusters)
    requires Ref(Host, h) in before.rows
    ensures h in index.Values <==>
      exists m :: m in HostMorefs(clusters) && Get(before.rows[Ref(Host, h)], "platform_uuid") == Text(m)
  {
    hide Run, Completed, Executes, KnownOf, KnownVms, HostMorefs;
    var after := Run(before, run);
    RunKeepsId(before, run, Ref(Host, h));
    RunKeepsUnique(before, run, Host);
    if m :| m in HostMorefs(clusters) && Get(before.rows[Ref(Host, h)], "platform_uuid") == Text(m) {
      assert IsHost(after, index[m], m);
      SameUuidSameHost(after, Ref(Host, h), Ref(Host, index[m]));
    }
    if h in index.Values {
      var m :| m in index && index[m] == h;
      assert IsHost(after, index[m], m);
    }
  }

  lemma SameUuidSameHost(db: Db, a: Ref, b: Ref)
    requires Unique(db.rows, Host) && a in db.rows && b in db.rows && a.kind == Host && b.kind == Host
    requires Get(db.rows[a], "platform_uuid") == Get(db.rows[b], "platform_uuid")
    requires Truthy(Get(db.rows[a], "platform_uuid"))
    ensures a == b
  {
    assert Tables.Keyed(db.rows, Part(Host), KeyFn(Host), Unkeyed, a);
    assert Tables.Keyed(db.rows, Part(Host), KeyFn(Host), Unkeyed, b);
  }

  /** The rows of one id come from `before` or are new in both. */
  lemma SameBase(before: Db, run1: seq<Op>, run2: seq<Op>, v: string, r1: Ref, r2: Ref)
    requires WellFormed(before) && v != ""
    requires HasId(Run(before, run1).rows, r1, v) && AtMostOne(IdRows(Run(before, run1).rows, v))
    requires HasId(Run(before, run2).rows, r2, v) && AtMostOne(IdRows(Run(before, run2).rows, v))
    ensures Base(before, r1) == Base(before, r2)
  {
    hide Run;
    var rows1, rows2 := Run(before, run1).rows, Run(before, run2).rows;
    assert r1 in IdRows(rows1, v) && r2 in IdRows(rows2, v);
    if r1 in before.rows {
      RunKeepsId(before, run1, r1);
      RunKeepsId(before, run2, r1);
      assert r1 in IdRows(rows2, v);
    }
    if r2 in before.rows {
      RunKeepsId(before, run1, r2);
      RunKeepsId(before, run2, r2);
      assert r2 in IdRows(rows1, v);
    }
  }

  /** What a listing and the tables before it determine about a VM that was reported. */
  lemma ReportedVm(before: Db, run: seq<Op>, clusters: seq<VcCluster>, index: map<string, nat>, vm: VcVm, r: Ref)
    requires Performs(before, run, clusters, index) && UniqueVms(clusters) && vm in KnownVms(clusters) && vm.moref != ""
    requires Agrees(before, Run(before, run), index.Values, KnownOf(index, KnownVms(clusters)))
    requires HasId(Run(before, run).rows, r, vm.moref)
    ensures vm.host in index && Get(Run(before, run).rows[r], "host_id") == Key(index[vm.host])
    ensures forall c :: c != "host_id" ==>
      Get(Run(before, run).rows[r], c) ==
        if c in VmColumns(vm) then VmColumns(vm)[c] else Get(Base(before, r), c)
  {
    hide Run, Executes, Completed, Performs, UniqueVms, Base, IdRows, Stored, VmColumns, KnownVms;
    var row, known := Run(before, run).rows[r], KnownOf(index, KnownVms(clusters));
    KnownHostsIndexed(before, run, clusters, index, vm);
    var data := VmData(vm);
    var k := KnownVm(index[vm.host], vm.moref, data, vm.at);
    assert k in known;
    assert RowAgrees(before, r, row, vm.moref, index.Values, known);
    forall k' | k' in known && k'.id == vm.moref ensures k' == k {
      var vm' := KnownVmOf(index, KnownVms(clusters), k');
      SameMorefSameVm(clusters, vm, vm');
    }
    assert Carries(row, k.Put());
    PutStores(k.host, vm);
  }

  lemma PutStores(host: nat, vm: VcVm)
    ensures
      var stored := Stored(KnownVm(host, vm.moref, VmData(vm), vm.at).Put());
      && "host_id" in stored && stored["host_id"] == Key(host)
      && "status" in stored && stored["status"] == Text(VmStatus(vm.power))
      && forall c :: c != "host_id" ==>
           (c in stored <==> c in VmColumns(vm)) && (c in stored ==> stored[c] == VmColumns(vm)[c])
  {
    var op := KnownVm(host, vm.moref, VmData(vm), vm.at).Put();
    assert "host_id" in DataOf(op) && Declares(Vm, "host_id");
    assert "status" in DataOf(op) && Declares(Vm, "status");
    hide Declares;
    assert forall c :: c != "host_id" ==>
      (c in DataOf(op) <==> c in DataOf(KnownVm(0, vm.moref, VmData(vm), vm.at).Put()));
  }

  /** The same, column by column and in the listing's own terms. */
  lemma ReportedVmReads(before: Db, run: seq<Op>, clusters: seq<VcCluster>, index: map<string, nat>, vm: VcVm, r: Ref)
    requires Performs(before, run, clusters, index) && UniqueVms(clusters) && vm in KnownVms(clusters)
    requires vm.moref != "" && HasId(Run(before, run).rows, r, vm.moref)
    requires Agrees(before, Run(before, run), index.Values, KnownOf(index, KnownVms(clusters)))
    ensures vm.host in index && HasText(Run(before, run), Ref(Host, index[vm.host]), Host, "platform_uuid", vm.host)
    ensures VmReads(Run(before, run).rows[r], index[vm.host], vm.moref, VmStatus(vm.power), vm.specs, vm.at)
  {
    hide Run, Performs, UniqueVms, KnownVms, VmRow, VmReads;
    KnownHostsIndexed(before, run, clusters, index, vm);
    var known := KnownOf(index, KnownVms(clusters));
    var k := KnownVm(index[vm.host], vm.moref, VmData(vm), vm.at);
    assert k in known;
    forall k' | k' in known && k'.id == vm.moref ensures k' == k {
      var vm' := KnownVmOf(index, KnownVms(clusters), k');
      SameMorefSameVm(clusters, vm, vm');
    }
    ReportedReads(before, Run(before, run), index.Values, known, r, index[vm.host], vm.moref,
                  VmStatus(vm.power), vm.specs, vm.at);
  }

  /** The reported CPU count never reaches the VM table, which has no such column. */
  lemma CpuCountIsNotStored(vm: VcVm)
    ensures "cpu_count" in VmData(vm) && "cpu_count" !in VmColumns(vm)
    ensures VmColumns(vm).Keys == {"name", "platform_vm_id", "status", "ram_gb", "platform_data",
                                   "last_seen_at", "last_synced_at", "host_id"}
  {
  }

  lemma SameMorefSameVm(clusters: seq<VcCluster>, a: VcVm, b: VcVm)
    requires UniqueVms(clusters) && a in KnownVms(clusters) && b in KnownVms(clusters) && a.moref == b.moref
    ensures a == b
  {
  }

  lemma KnownHostsIndexed(before: Db, run: seq<Op>, clusters: seq<VcCluster>, index: map<string, nat>, vm: VcVm)
    requires Performs(before, run, clusters, index) && vm in KnownVms(clusters)
    ensures vm.host in index && IsHost(Run(before, run), index[vm.host], vm.host)
  {
    var d :| d in clusters && vm in d.vms && vm.host in Morefs(d.hosts);
    var h :| h in d.hosts && h.moref == vm.host;
  }

  /** A VM that was not reported keeps its row; it is stopped when its host was listed. */
  lemma UnreportedVm(before: Db, run: seq<Op>, clusters: seq<VcCluster>, index: map<string, nat>, r: Ref, v: string)
    requires KeysUnique(before) && VmsHaveHosts(before) && "" !in HostMorefs(clusters) && v != ""
    requires Performs(before, run, clusters, index) && HasId(Run(before, run).rows, r, v)
    requires Agrees(before, Run(before, run), index.Values, KnownOf(index, KnownVms(clusters)))
    requires forall vm :: vm in KnownVms(clusters) ==> vm.moref != v
    ensures HasId(before.rows, r, v)
    ensures forall c :: c != "status" ==> Get(Run(before, run).rows[r], c) == Get(before.rows[r], c)
    ensures
      var h := Get(before.rows[r], "host_id");
      && h.Key? && Ref(Host, h.id) in before.rows
      && HostUuidOf(Run(before, run), Run(before, run).rows[r]) == Get(before.rows[Ref(Host, h.id)], "platform_uuid")
      && Get(Run(before, run).rows[r], "status") ==
           if exists m :: m in HostMorefs(clusters) && Get(before.rows[Ref(Host, h.id)], "platform_uuid") == Text(m)
           then Text("stopped") else Get(before.rows[r], "status")
  {
    hide Run, Executes, Completed, Performs, KnownVms, HostMorefs;
    var row, known := Run(before, run).rows[r], KnownOf(index, KnownVms(clusters));
    assert RowAgrees(before, r, row, v, index.Values, known);
    forall k | k in known ensures k.id != v {
      var vm := KnownVmOf(index, KnownVms(clusters), k);
    }
    var h := Get(before.rows[r], "host_id");
    assert Get(row, "host_id") == h;
    RunKeepsId(before, run, Ref(Host, h.id));
    SweptIsListed(before, run, clusters, index, h.id);
  }

  /** When a run breaks off, the theorems hold of the clusters it had finished.  A VM that none of these
      reported, be it reported by a later one, is left stopped exactly when it was stopped before or its
      old host is one of those already swept. */
  lemma StoppedByAbort(before: Db, run: seq<Op>, finished: seq<VcCluster>, index: map<string, nat>, v: string, r: Ref)
    requires KeysUnique(before) && VmsHaveHosts(before) && "" !in HostMorefs(finished) && v != ""
    requires Performs(before, run, finished, index) && HasId(Run(before, run).rows, r, v)
    requires forall vm :: vm in KnownVms(finished) ==> vm.moref != v
    ensures r in before.rows && HostIdOf(before, r) != None
    ensures Get(Run(before, run).rows[r], "status") == Text("stopped") <==>
      || Get(before.rows[r], "status") == Text("stopped")
      || HostListed(before, HostIdOf(before, r).value, finished)
  {
    hide Run, Performs, KnownVms, HostMorefs, KeysUnique, VmsHaveHosts, Agrees, KnownOf, HostUuidOf;
    RunPerforms(before, run, finished, index);
    UnreportedVm(before, run, finished, index, r, v);
  }

  /** The host row a VM row points to. */
  function HostIdOf(db: Db, r: Ref): Option<nat>
    requires r in db.rows
  {
    var h := Get(db.rows[r], "host_id");
    if h.Key? && Ref(Host, h.id) in db.rows then Some(h.id) else None
  }

  ghost predicate HostListed(db: Db, h: nat, clusters: seq<VcCluster>)
    requires Ref(Host, h) in db.rows
  {
    exists m :: m in HostMorefs(clusters) && Get(db.rows[Ref(Host, h)], "platform_uuid") == Text(m)
  }

  lemma SameReported(before: Db, clusters: seq<VcCluster>, run1: seq<Op>, index1: map<string, nat>,
                     run2: seq<Op>, index2: map<string, nat>, vm: VcVm, r1: Ref, r2: Ref)
    requires WellFormed(before) && UniqueVms(clusters) && vm in KnownVms(clusters) && vm.moref != ""
    requires Performs(before, run1, clusters, index1) && Performs(before, run2, clusters, index2)
    requires Agrees(before, Run(before, run1), index1.Values, KnownOf(index1, KnownVms(clusters)))
    requires Agrees(before, Run(before, run2), index2.Values, KnownOf(index2, KnownVms(clusters)))
    requires HasId(Run(before, run1).rows, r1, vm.moref) && HasId(Run(before, run2).rows, r2, vm.moref)
    ensures SameVm(Run(before, run1), Run(before, run1).rows[r1], Run(before, run2), Run(before, run2).rows[r2])
  {
    hide Run, Performs, KnownVms, Agrees;
    ReportedVm(before, run1, clusters, index1, vm, r1);
    ReportedVm(before, run2, clusters, index2, vm, r2);
    KnownHostsIndexed(before, run1, clusters, index1, vm);
    KnownHostsIndexed(before, run2, clusters, index2, vm);
    ReportedOnce(before, run1, clusters, index1, vm);
    ReportedOnce(before, run2, clusters, index2, vm);
    SameBase(before, run1, run2, vm.moref, r1, r2);
  }

  lemma SameUnreported(before: Db, clusters: seq<VcCluster>, run1: seq<Op>, index1: map<string, nat>,
                       run2: seq<Op>, index2: map<string, nat>, v: string, r1: Ref, r2: Ref)
    requires KeysUnique(before) && VmsHaveHosts(before) && "" !in HostMorefs(clusters) && v != ""
    requires forall vm :: vm in KnownVms(clusters) ==> vm.moref != v
    requires Performs(before, run1, clusters, index1) && Performs(before, run2, clusters, index2)
    requires Agrees(before, Run(before, run1), index1.Values, KnownOf(index1, KnownVms(clusters)))
    requires Agrees(before, Run(before, run2), index2.Values, KnownOf(index2, KnownVms(clusters)))
    requires HasId(Run(before, run1).rows, r1, v) && HasId(Run(before, run2).rows, r2, v)
    ensures SameVm(Run(before, run1), Run(before, run1).rows[r1], Run(before, run2), Run(before, run2).rows[r2])
  {
    hide Run, Performs, KnownVms, HostMorefs, Agrees;
    UnreportedVm(before, run1, clusters, index1, r1, v);
    UnreportedVm(before, run2, clusters, index2, r2, v);
    SameIdSameVm(before, r1, r2, v);
  }

  lemma SameContents(before: Db, run: seq<Op>, a: seq<VcCluster>, b: seq<VcCluster>, index: map<string, nat>)
    requires HostMorefs(a) == HostMorefs(b) && KnownVms(a) == KnownVms(b)
    ensures Performs(before, run, a, index) <==> Performs(before, run, b, index)
  {
  }

  /** Two listings with the same hosts and the same VMs, in whatever order of clusters, hosts and VMs,
      leave the same VM table: a VM is in both tables or in neither, and its rows agree. */
  lemma OrderDoesNotMatter(before: Db, a: seq<VcCluster>, run1: seq<Op>, index1: map<string, nat>,
                           b: seq<VcCluster>, run2: seq<Op>, index2: map<string, nat>, v: string)
    requires KeysUnique(before) && VmsHaveHosts(before)
    requires HostMorefs(a) == HostMorefs(b) && KnownVms(a) == KnownVms(b) && UniqueVms(a) && "" !in HostMorefs(a)
    requires Performs(before, run1, a, index1) && Performs(before, run2, b, index2) && v != ""
    ensures IdRows(Run(before, run1).rows, v) == {} <==> IdRows(Run(before, run2).rows, v) == {}
    ensures forall r1, r2 :: HasId(Run(before, run1).rows, r1, v) && HasId(Run(before, run2).rows, r2, v) ==>
      SameVm(Run(before, run1), Run(before, run1).rows[r1], Run(before, run2), Run(before, run2).rows[r2])
  {
    hide Run, Performs, KnownVms, HostMorefs, Agrees, SameVm, KeysUnique, VmsHaveHosts, KnownOf;
    SameContents(before, run2, a, b, index2);
    RunPerforms(before, run1, a, index1);
    RunPerforms(before, run2, a, index2);
    forall r1, r2 | HasId(Run(before, run1).rows, r1, v) && HasId(Run(before, run2).rows, r2, v)
      ensures SameVm(Run(before, run1), Run(before, run1).rows[r1], Run(before, run2), Run(before, run2).rows[r2])
    {
      if vm :| vm in KnownVms(a) && vm.moref == v {
        SameReported(before, a, run1, index1, run2, index2, vm, r1, r2);
      } else {
        SameUnreported(before, a, run1, index1, run2, index2, v, r1, r2);
      }
    }
    SamePresence(before, run1, a, index1, run2, index2, v);
    SamePresence(before, run2, a, index2, run1, index1, v);
  }

  lemma RunPerforms(before: Db, run: seq<Op>, clusters: seq<VcCluster>, index: map<string, nat>)
    requires KeysUnique(before) && Performs(before, run, clusters, index)
    ensures WellFormed(before)
    ensures Agrees(before, Run(before, run), index.Values, KnownOf(index, KnownVms(clusters)))
  {
    RunReconciles(before, run, index.Values, KnownOf(index, KnownVms(clusters)));
  }

  lemma SamePresence(before: Db, run1: seq<Op>, clusters: seq<VcCluster>, index1: map<string, nat>,
                     run2: seq<Op>, index2: map<string, nat>, v: string)
    requires KeysUnique(before) && VmsHaveHosts(before) && "" !in HostMorefs(clusters) && v != ""
    requires Performs(before, run1, clusters, index1) && Performs(before, run2, clusters, index2)
    requires Agrees(before, Run(before, run1), index1.Values, KnownOf(index1, KnownVms(clusters)))
    requires Agrees(before, Run(before, run2), index2.Values, KnownOf(index2, KnownVms(clusters)))
    ensures IdRows(Run(before, run1).rows, v) != {} ==> IdRows(Run(before, run2).rows, v) != {}
  {
    hide Run, Performs, KnownVms, HostMorefs, Agrees, KnownOf;
    if r :| r in IdRows(Run(before, run1).rows, v) {
      if vm :| vm in KnownVms(clusters) && vm.moref == v {
        ReportedOnce(before, run2, clusters, index2, vm);
      } else {
        UnreportedVm(before, run1, clusters, index1, r, v);
        RunKeepsId(before, run2, r);
        assert r in IdRows(Run(before, run2).rows, v);
      }
    }
  }

  lemma ReportedOnce(before: Db, run: seq<Op>, clusters: seq<VcCluster>, index: map<string, nat>, vm: VcVm)
    requires Performs(before, run, clusters, index) && vm in KnownVms(clusters) && vm.moref != ""
    requires Agrees(before, Run(before, run), index.Values, KnownOf(index, KnownVms(clusters)))
    ensures IdRows(Run(before, run).rows, vm.moref) != {} && AtMostOne(IdRows(Run(before, run).rows, vm.moref))
  {
    hide Run, Performs, KnownVms;
    KnownHostsIndexed(before, run, clusters, index, vm);
    assert KnownVm(index[vm.host], vm.moref, VmData(vm), vm.at)
        in KnownOf(index, KnownVms(clusters));
  }

  lemma SameIdSameVm(db: Db, a: Ref, b: Ref, v: string)
    requires Unique(db.rows, Vm) && HasId(db.rows, a, v) && HasId(db.rows, b, v) && v != ""
    ensures a == b
  {
    assert Tables.Keyed(db.rows, Part(Vm), KeyFn(Vm), Unkeyed, a);
    assert Tables.Keyed(db.rows, Part(Vm), KeyFn(Vm), Unkeyed, b);
  }
}
