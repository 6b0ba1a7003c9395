/** The Proxmox sync: one cluster, reconciled node by node, with VM ids made of node name and vmid. */
module Proxmox {
  import opened Wrappers
  import opened Values
  import opened Store
  import opened Keys
  import opened Effects
  import opened Updates
  import opened Replay
  import opened Reconcile
  import opened Runs
  import opened Engine
  import opened Hypervisor
  import opened Inventory

  /** A QEMU VM or LXC container; the two lists of a node are handled alike, one after the other. */
  datatype PveGuest = PveGuest(vmid: Option<string>, status: string, specs: Specs, at: string)

  datatype PveNode = PveNode(
    name: string, status: string, specs: Specs, at: string,
    qemu: seq<PveGuest>, lxc: seq<PveGuest>, storages: seq<StoreReport>)

  function ClusterOf(name: string, platformData: Value): ClusterReport {
    ClusterReport(name, "proxmox", platformData)
  }

  function VmStatus(status: string): string {
    if status == "running" then "running"
    else if status == "paused" then "suspended"
    else if status == "migrating" then "migrating"
    else "stopped"
  }

  function CompositeId(node: string, vmid: string): string {
    node + "/" + vmid
  }

  /** Node names contain no slash, so the composite id determines both its parts. */
  lemma CompositeIdInjective(n1: string, v1: string, n2: string, v2: string)
    requires '/' !in n1 && '/' !in n2 && CompositeId(n1, v1) == CompositeId(n2, v2)
    ensures n1 == n2 && v1 == v2
  {
    var id := CompositeId(n1, v1);
    assert id[|n1|] == '/' && id[|n2|] == '/';
    assert forall i :: 0 <= i < |n1| ==> id[i] == n1[i];
    assert forall i :: 0 <= i < |n2| ==> id[i] == n2[i];
    assert |n1| == |n2|;
    assert n1 == id[..|n1|] && n2 == id[..|n2|];
    assert v1 == id[|n1| + 1..] && v2 == id[|n2| + 1..];
  }

  /** Nodes outside the configured filter and offline nodes are skipped. */
  predicate Synced(filter: set<string>, n: PveNode) {
    (filter == {} || n.name in filter) && n.status != "offline"
  }

  function HostReportOf(n: PveNode): HostReport {
    HostReport(n.name, [n.name], if n.status == "online" then "active" else "maintenance", n.specs, n.at)
  }

  function GuestReport(node: string, host: nat, g: PveGuest): Report
    requires g.vmid != None
  {
    Report(CompositeId(node, g.vmid.value), Some(host), VmStatus(g.status), g.specs, g.at)
  }

  function WithVmid(guests: seq<PveGuest>): nat {
    if guests == [] then 0
    else WithVmid(guests[..|guests| - 1]) + if guests[|guests| - 1].vmid != None then 1 else 0
  }

  /** Guests without a vmid are passed over. */
  function GuestReports(node: string, host: nat, guests: seq<PveGuest>): (reports: seq<Report>)
    ensures forall r :: r in reports <==> exists g :: g in guests && g.vmid != None && r == GuestReport(node, host, g)
    ensures |reports| == WithVmid(guests)
  {
    if guests == [] then []
    else
      var rest, g := GuestReports(node, host, guests[..|guests| - 1]), guests[|guests| - 1];
      assert forall x :: x in guests <==> x in guests[..|guests| - 1] || x == g;
      if g.vmid != None then rest + [GuestReport(node, host, g)] else rest
  }

  /** Storages of one node, first of each name only; the set of names starts empty at every node. */
  function Distinct(storages: seq<StoreReport>): seq<StoreReport> {
    if storages == [] then []
    else
      var rest, s := Distinct(storages[..|storages| - 1]), storages[|storages| - 1];
      if HasName(rest, s.name) then rest else rest + [s]
  }

  predicate HasName(stores: seq<StoreReport>, name: string) {
    exists i :: 0 <= i < |stores| && stores[i].name == name
  }

  function Guests(n: PveNode): seq<PveGuest> {
    n.qemu + n.lxc
  }

  /** The guests of the synced nodes, each on its node's host row. */
  function KnownGuests(index: map<string, nat>, nodes: set<PveNode>): set<KnownVm> {
    set n, g | n in nodes && n.name in index && g in Guests(n) && g.vmid != None
      :: KnownVm(index[n.name], CompositeId(n.name, g.vmid.value),
                 VmRow(CompositeId(n.name, g.vmid.value), VmStatus(g.status), g.specs), g.at)
  }

  lemma KnownOfNode(index: map<string, nat>, n: PveNode)
    requires n.name in index
    ensures Known(GuestReports(n.name, index[n.name], Guests(n))) == KnownGuests(index, {n})
  {
    var reports := GuestReports(n.name, index[n.name], Guests(n));
    forall k | k in KnownGuests(index, {n}) ensures k in Known(reports) {
      var g :| g in Guests(n) && g.vmid != None
        && k == KnownVm(index[n.name], CompositeId(n.name, g.vmid.value),
                        VmRow(CompositeId(n.name, g.vmid.value), VmStatus(g.status), g.specs), g.at);
      assert GuestReport(n.name, index[n.name], g) in reports;
    }
  }

  /** What one synced node adds to the counters. */
  function Items(n: PveNode): nat {
    1 + WithVmid(Guests(n)) + |Distinct(n.storages)|
  }

  // ---------- which rows a sync needs ----------

  /** The node and its guests have rows, and its storages have rows under the cluster. */
  ghost predicate NodeHasRows(db: Db, cluster: nat, n: PveNode) {
    && HasRow(db, Host, SingleKey(Text(n.name)))
    && (forall g :: g in Guests(n) && g.vmid != None ==>
         HasRow(db, Vm, SingleKey(Text(CompositeId(n.name, g.vmid.value)))))
    && StoresHaveRows(db, cluster, Distinct(n.storages))
  }

  lemma SameNodeRows(a: Db, b: Db, cluster: nat, n: PveNode)
    requires SameKeys(a, b)
    ensures NodeHasRows(a, cluster, n) <==> NodeHasRows(b, cluster, n)
  {
    hide SameKeys, HasRow, StoresHaveRows, Guests, CompositeId;
    SameKeysSameRows(a, b, Host, SingleKey(Text(n.name)));
    SameStores(a, b, cluster, Distinct(n.storages));
    forall g | g in Guests(n) && g.vmid != None
      ensures HasRow(a, Vm, SingleKey(Text(CompositeId(n.name, g.vmid.value))))
         <==> HasRow(b, Vm, SingleKey(Text(CompositeId(n.name, g.vmid.value))))
    {
      SameKeysSameRows(a, b, Vm, SingleKey(Text(CompositeId(n.name, g.vmid.value))));
    }
  }

  lemma GuestsHaveRows(db: Db, n: PveNode, host: nat)
    ensures VmsHaveRows(db, GuestReports(n.name, host, Guests(n))) <==>
      forall g :: g in Guests(n) && g.vmid != None ==>
        HasRow(db, Vm, SingleKey(Text(CompositeId(n.name, g.vmid.value))))
  {
    hide HasRow, Guests, CompositeId;
    var reports := GuestReports(n.name, host, Guests(n));
    if VmsHaveRows(db, reports) {
      forall g | g in Guests(n) && g.vmid != None
        ensures HasRow(db, Vm, SingleKey(Text(CompositeId(n.name, g.vmid.value))))
      {
        assert GuestReport(n.name, host, g) in reports;
      }
    }
  }

  /** The cluster and everything on its synced nodes have rows. */
  ghost predicate AllHaveRows(db: Db, c: ClusterReport, filter: set<string>, nodes: seq<PveNode>) {
    && HasRow(db, Cluster, ClusterKey(c))
    && forall id, n :: IsCluster(db, id, c) && n in nodes && Synced(filter, n) ==> NodeHasRows(db, id, n)
  }

  /** One synced node: host, guests and their sweep, storages. */
  method SyncNode(engine: SyncEngine, stats: SyncStats, cluster: nat, n: PveNode)
    returns (ok: bool, host: nat, ghost run: seq<Op>)
    requires engine.Valid()
    modifies engine, stats`counts
    ensures engine.Valid() && SameKeys(old(engine.State()), engine.State())
    ensures stats.counts.created == old(stats.counts.created)
    ensures KeysUnique(old(engine.State())) ==> (ok <==> NodeHasRows(old(engine.State()), cluster, n))
    ensures ok ==> Follows(engine, old(engine.State()), old(engine.ops), run)
    ensures ok ==> IsHost(engine.State(), host, n.name)
    ensures ok ==> exists id :: IsHostRow(engine.State(), id, cluster, n.name, n.specs.platformData, n.at)
    ensures ok ==> StoresRead(engine.State(), cluster, Distinct(n.storages))
    ensures ok ==> Executes(run, {host}, KnownGuests(map[n.name := host], {n}))
    ensures ok ==> stats.counts.Total() == old(stats.counts.Total()) + Items(n)
  {
    hide Run, Exec, Completed, KeysUnique, StepOf, Executes, Known, KnownGuests, WellFormed, IsHost, Distinct, Guests;
    hide CompositeId, VmStatus, HostRow, SameKeys, HasRow, StoresHaveRows, VmsHaveRows, HostsRead, StoresRead;
    ValidIsWellFormed(engine);
    NothingRead(engine.State(), cluster);
    ghost var before, ops := engine.State(), engine.ops;
    FollowsNothing(before);
    ok, host := SyncHost(engine, stats, cluster, HostReportOf(n), before, ops, []);
    run := [] + [UpsertHost(cluster, HostRow(HostReportOf(n)), n.at)];
    if !ok {
      return;
    }
    HostsReadOneMore(before, cluster, [], HostReportOf(n));
    assert [] + [HostReportOf(n)] == [HostReportOf(n)];
    var reports := GuestReports(n.name, host, Guests(n));
    ghost var mid := engine.State();
    ValidIsWellFormed(engine);
    if KeysUnique(before) {
      SameKeysStayUnique(before, mid);
      GuestsHaveRows(before, n, host);
      SameVms(before, mid, reports);
    }
    ghost var vmRun, tailRun;
    ok, vmRun := ReconcileVms(engine, stats, {host}, reports);
    SameKeysTransitive(before, mid, engine.State());
    if !ok {
      return;
    }
    KnownOfNode(map[n.name := host], n);
    FollowsJoin(before, run, vmRun);
    ghost var later := engine.State();
    ValidIsWellFormed(engine);
    if KeysUnique(before) {
      SameKeysStayUnique(before, later);
      SameStores(before, later, cluster, Distinct(n.storages));
    }
    ok, tailRun := SyncDatastores(engine, stats, cluster, Distinct(n.storages));
    SameKeysTransitive(before, later, engine.State());
    FollowsJoin(before, run + vmRun, tailRun);
    HostLater(before, run, vmRun + tailRun, host, n.name);
    HostsReadLater(mid, vmRun, cluster, [HostReportOf(n)]);
    HostsReadLater(later, tailRun, cluster, [HostReportOf(n)]);
    OneHostRead(engine.State(), cluster, n);
    ExecutesBetween(run, vmRun, tailRun, {host}, KnownGuests(map[n.name := host], {n}));
    assert run + (vmRun + tailRun) == run + vmRun + tailRun;
    run := run + vmRun + tailRun;
  }

  lemma OneHostRead(db: Db, cluster: nat, n: PveNode)
    requires HostsRead(db, cluster, [HostReportOf(n)])
    ensures exists id :: IsHostRow(db, id, cluster, n.name, n.specs.platformData, n.at)
  {
    assert LastOfUuid([HostReportOf(n)], 0);
  }

  lemma HostLater(before: Db, a: seq<Op>, b: seq<Op>, id: nat, uuid: string)
    requires WellFormed(before) && IsHost(Run(before, a), id, uuid)
    ensures IsHost(Run(before, a + b), id, uuid)
  {
    hide Run;
    RunReplays(before, a);
    RunConcat(before, a, b);
    IsHostStays(Run(before, a), b, id, uuid);
  }

  // ---------- the whole run ----------

  function SyncedNodes(filter: set<string>, nodes: seq<PveNode>): set<PveNode> {
    set n | n in nodes && Synced(filter, n)
  }

  function TotalItems(filter: set<string>, nodes: seq<PveNode>): nat {
    if nodes == [] then 0
    else
      var n := nodes[|nodes| - 1];
      TotalItems(filter, nodes[..|nodes| - 1]) + if Synced(filter, n) then Items(n) else 0
  }

  /** Node names are unique within the cluster. */
  ghost predicate UniqueNodes(nodes: seq<PveNode>) {
    forall i, j :: 0 <= i < j < |nodes| ==> nodes[i].name != nodes[j].name
  }

  /** A run that did what `synced` calls for; `index` takes each synced node to its host row. */
  ghost predicate Performs(before: Db, run: seq<Op>, synced: set<PveNode>, index: map<string, nat>) {
    && Completed(before, run)
    && index.Keys == (set n | n in synced :: n.name)
    && (forall m :: m in index ==> IsHost(Run(before, run), index[m], m))
    && Executes(run, index.Values, KnownGuests(index, synced))
  }

  lemma PerformsNothing(before: Db)
    ensures Performs(before, [], {}, map[])
  {
    var none: map<string, nat> := map[];
    assert none.Values == {} && KnownGuests(none, {}) == {};
  }

  lemma KnownGuestsUnion(a: map<string, nat>, x: set<PveNode>, n: PveNode, host: nat)
    requires n.name !in a && a.Keys == set m | m in x :: m.name
    ensures KnownGuests(a[n.name := host], x + {n}) == KnownGuests(a, x) + KnownGuests(map[n.name := host], {n})
  {
    KnownGuestsJoin(a[n.name := host], x, {n});
    KnownGuestsLocal(a[n.name := host], a, x);
    KnownGuestsLocal(a[n.name := host], map[n.name := host], {n});
  }

  lemma KnownGuestsJoin(index: map<string, nat>, x: set<PveNode>, y: set<PveNode>)
    ensures KnownGuests(index, x + y) == KnownGuests(index, x) + KnownGuests(index, y)
  {
  }

  lemma KnownGuestsLocal(a: map<string, nat>, b: map<string, nat>, x: set<PveNode>)
    requires forall n :: n in x ==> n.name in a && n.name in b && a[n.name] == b[n.name]
    ensures KnownGuests(a, x) == KnownGuests(b, x)
  {
  }

  lemma NewHostIsNew(db: Db, index: map<string, nat>, name: string, host: nat)
    requires name !in index && IsHost(db, host, name) && forall m :: m in index ==> IsHost(db, index[m], m)
    ensures host !in index.Values && index[name := host].Values == index.Values + {host}
  {
    forall m | m in index ensures index[m] != host {
      assert IsHost(db, index[m], m);
    }
    assert index[name := host][name] == host;
    forall v | v in index.Values ensures v in index[name := host].Values {
      var m :| m in index && index[m] == v;
      assert index[name := host][m] == v;
    }
  }

  lemma PerformsOneMore(before: Db, run: seq<Op>, synced: set<PveNode>, index: map<string, nat>,
                        n: PveNode, host: nat, run': seq<Op>)
    requires WellFormed(before) && Performs(before, run, synced, index) && n.name !in index
    requires Completed(Run(before, run), run') && IsHost(Run(Run(before, run), run'), host, n.name)
    requires Executes(run', {host}, KnownGuests(map[n.name := host], {n}))
    ensures Performs(before, run + run', synced + {n}, index[n.name := host])
  {
    hide Run, Completed, Executes, KnownGuests, IsHost;
    FollowsJoin(before, run, run');
    var after := Run(before, run + run');
    forall m | m in index ensures IsHost(after, index[m], m) {
      HostLater(before, run, run', index[m], m);
    }
    NewHostIsNew(after, index, n.name, host);
    ExecutesConcat(run, index.Values, KnownGuests(index, synced), run', {host}, KnownGuests(map[n.name := host], {n}));
    KnownGuestsUnion(index, synced, n, host);
  }

  // ---------- in the listing's own terms ----------

  /** Each status and what it is stored as; a node is reported under its name, in maintenance unless online. */
  lemma StatusReads(status: string)
    ensures forall n: PveNode :: HostReportOf(n).uuid == n.name && HostReportOf(n).names == [n.name]
    ensures forall n: PveNode :: HostReportOf(n).status == "maintenance" <==> n.status != "online"
    ensures VmStatus(status) == "running" <==> status == "running"
    ensures VmStatus(status) == "suspended" <==> status == "paused"
    ensures VmStatus(status) == "migrating" <==> status == "migrating"
    ensures VmStatus(status) == "stopped" <==> status != "running" && status != "paused" && status != "migrating"
  {
  }

  /** The storages that are upserted are listed, have different names, and have every name listed. */
  lemma {:induction false} DistinctReads(storages: seq<StoreReport>)
    ensures forall i, j :: 0 <= i < j < |Distinct(storages)| ==>
      Distinct(storages)[i].name != Distinct(storages)[j].name
    ensures forall d :: d in Distinct(storages) ==> d in storages
  {
    if storages != [] {
      DistinctReads(storages[..|storages| - 1]);
    }
  }

  lemma {:induction false} NamesKept(storages: seq<StoreReport>, name: string)
    ensures HasName(storages, name) <==> HasName(Distinct(storages), name)
  {
    if storages != [] {
      var init, last := storages[..|storages| - 1], storages[|storages| - 1];
      NamesKept(init, name);
      NamesAdd(init, last, name);
      NamesAdd(Distinct(init), last, name);
      assert storages == init + [last];
    }
  }

  lemma NamesAdd(stores: seq<StoreReport>, last: StoreReport, name: string)
    ensures HasName(stores + [last], name) <==> HasName(stores, name) || last.name == name
  {
    if i :| 0 <= i < |stores| && stores[i].name == name {
      assert (stores + [last])[i].name == name;
    }
    assert (stores + [last])[|stores|] == last;
  }

  /** Of each name it is the first one listed. */
  lemma {:induction false} FirstIsDistinct(storages: seq<StoreReport>, i: nat)
    requires i < |storages| && !HasName(storages[..i], storages[i].name)
    ensures storages[i] in Distinct(storages)
  {
    var n := |storages| - 1;
    if i < n {
      assert storages[..n][..i] == storages[..i];
      FirstIsDistinct(storages[..n], i);
    } else {
      NamesKept(storages[..n], storages[n].name);
    }
  }

  lemma {:induction false} CountWithVmid(guests: seq<PveGuest>)
    ensures WithVmid(guests) == |set i | 0 <= i < |guests| && guests[i].vmid != None|
  {
    if guests != [] {
      var n := |guests| - 1;
      CountWithVmid(guests[..n]);
      var some := set i | 0 <= i < n && guests[..n][i].vmid != None;
      var all := set i | 0 <= i < |guests| && guests[i].vmid != None;
      assert all == some + if guests[n].vmid != None then {n} else {};
    }
  }

  lemma {:induction false} WithVmidSplits(a: seq<PveGuest>, b: seq<PveGuest>)
    ensures WithVmid(a + b) == WithVmid(a) + WithVmid(b)
    decreases |b|
  {
    if b == [] {
      assert a + b == a;
    } else {
      assert (a + b)[..|a + b| - 1] == a + b[..|b| - 1];
      WithVmidSplits(a, b[..|b| - 1]);
    }
  }

  /** A node counts once, and so do its VMs and containers with an id and its storages by name. */
  lemma ItemsRead(n: PveNode)
    ensures Items(n) == 1 + |set i | 0 <= i < |n.qemu| && n.qemu[i].vmid != None|
      + |set i | 0 <= i < |n.lxc| && n.lxc[i].vmid != None| + |Names(n.storages)|
  {
    hide Distinct, Names;
    WithVmidSplits(n.qemu, n.lxc);
    CountWithVmid(n.qemu);
    CountWithVmid(n.lxc);
    DistinctReads(n.storages);
    NamesCounted(Distinct(n.storages));
    SameNames(n.storages);
  }

  function Names(stores: seq<StoreReport>): set<string> {
    set s | s in stores :: s.name
  }

  lemma NamesAreHad(stores: seq<StoreReport>, name: string)
    ensures name in Names(stores) <==> HasName(stores, name)
  {
    if HasName(stores, name) {
      var i :| 0 <= i < |stores| && stores[i].name == name;
      assert stores[i] in stores;
    }
  }

  lemma SameNames(storages: seq<StoreReport>)
    ensures Names(Distinct(storages)) == Names(storages)
  {
    hide Distinct, Names, HasName;
    forall name ensures name in Names(Distinct(storages)) <==> name in Names(storages) {
      NamesKept(storages, name);
      NamesAreHad(storages, name);
      NamesAreHad(Distinct(storages), name);
    }
  }

  lemma {:induction false} NamesCounted(stores: seq<StoreReport>)
    requires forall i, j :: 0 <= i < j < |stores| ==> stores[i].name != stores[j].name
    ensures |Names(stores)| == |stores|
  {
    if stores != [] {
      var n := |stores| - 1;
      NamesCounted(stores[..n]);
      assert stores == stores[..n] + [stores[n]];
      assert Names(stores) == Names(stores[..n]) + {stores[n].name};
    }
  }

  /** The node takes part: it passes the filter, if there is one, and is not offline. */
  predicate TakesPart(filter: set<string>, n: PveNode) {
    (filter == {} || n.name in filter) && n.status != "offline"
  }

  /** A VM or container with this id, of a node that takes part. */
  ghost predicate Reported(filter: set<string>, nodes: seq<PveNode>, n: PveNode, g: PveGuest, vmid: string) {
    n in nodes && TakesPart(filter, n) && (g in n.qemu || g in n.lxc) && g.vmid == Some(vmid)
  }

  ghost predicate NotReported(filter: set<string>, nodes: seq<PveNode>, v: string) {
    forall n, g, vmid :: Reported(filter, nodes, n, g, vmid) ==> v != n.name + "/" + vmid
  }

  ghost predicate OnlyOne(filter: set<string>, nodes: seq<PveNode>, n: PveNode, g: PveGuest, vmid: string) {
    Reported(filter, nodes, n, g, vmid) && forall h :: Reported(filter, nodes, n, h, vmid) ==> h == g
  }

  /** The VM table after the sync: a guest that alone has its id on its node reads what was reported, on the
      node's row; every other VM row is as before, and stopped when it is on the row of a node that took part. */
  ghost predicate NodesAgree(before: Db, after: Db, filter: set<string>, nodes: seq<PveNode>, index: map<string, nat>) {
    && (forall n :: n in nodes && TakesPart(filter, n) ==>
          n.name in index && HasText(after, Ref(Host, index[n.name]), Host, "platform_uuid", n.name))
    && (forall n, g, vmid, r :: OnlyOne(filter, nodes, n, g, vmid) && HasId(after.rows, r, n.name + "/" + vmid) ==>
          n.name in index
          && VmReads(after.rows[r], index[n.name], n.name + "/" + vmid, VmStatus(g.status), g.specs, g.at))
    && (forall r, v :: v != "" && HasId(after.rows, r, v) && NotReported(filter, nodes, v) ==>
          OtherReads(before, after, filter, nodes, index, r))
  }

  ghost predicate OnNode(index: map<string, nat>, row: Row, n: PveNode) {
    n.name in index && Get(row, "host_id") == Key(index[n.name])
  }

  lemma AgreesReads(before: Db, after: Db, filter: set<string>, nodes: seq<PveNode>, index: map<string, nat>)
    requires UniqueNodes(nodes) && forall n :: n in nodes ==> '/' !in n.name
    requires index.Keys == (set n | n in SyncedNodes(filter, nodes) :: n.name)
    requires forall m :: m in index ==> IsHost(after, index[m], m)
    requires Agrees(before, after, index.Values, KnownGuests(index, SyncedNodes(filter, nodes)))
    ensures NodesAgree(before, after, filter, nodes, index)
  {
    hide VmReads, KnownGuests, Agrees, UniqueNodes, Reported, OnlyOne, NotReported, VmStatus, OnNode, OtherReads;
    forall n | n in nodes && TakesPart(filter, n)
      ensures n.name in index && HasText(after, Ref(Host, index[n.name]), Host, "platform_uuid", n.name)
    {
      assert n in SyncedNodes(filter, nodes);
      assert IsHost(after, index[n.name], n.name);
    }
    forall n, g, vmid, r | OnlyOne(filter, nodes, n, g, vmid) && HasId(after.rows, r, n.name + "/" + vmid)
      ensures n.name in index && r in after.rows
        && VmReads(after.rows[r], index[n.name], n.name + "/" + vmid, VmStatus(g.status), g.specs, g.at)
    {
      GuestReads(before, after, filter, nodes, index, n, g, vmid, r);
    }
    forall r, v | v != "" && HasId(after.rows, r, v) && NotReported(filter, nodes, v)
      ensures OtherReads(before, after, filter, nodes, index, r)
    {
      UnreportedReads(before, after, filter, nodes, index, r, v);
    }
  }

  lemma GuestReads(before: Db, after: Db, filter: set<string>, nodes: seq<PveNode>, index: map<string, nat>,
                   n: PveNode, g: PveGuest, vmid: string, r: Ref)
    requires UniqueNodes(nodes) && forall m :: m in nodes ==> '/' !in m.name
    requires index.Keys == (set m | m in SyncedNodes(filter, nodes) :: m.name)
    requires Agrees(before, after, index.Values, KnownGuests(index, SyncedNodes(filter, nodes)))
    requires OnlyOne(filter, nodes, n, g, vmid) && HasId(after.rows, r, n.name + "/" + vmid)
    ensures n.name in index && r in after.rows
      && VmReads(after.rows[r], index[n.name], n.name + "/" + vmid, VmStatus(g.status), g.specs, g.at)
  {
    hide VmReads, KnownGuests, Agrees, UniqueNodes, VmStatus, VmRow;
    assert n in SyncedNodes(filter, nodes);
    GuestIsOnlyKnown(filter, nodes, index, n, g, vmid);
    ReportedReads(before, after, index.Values, KnownGuests(index, SyncedNodes(filter, nodes)), r, index[n.name],
                  n.name + "/" + vmid, VmStatus(g.status), g.specs, g.at);
  }

  /** The row is as before, and stopped when it is on the row of a node that took part. */
  ghost predicate OtherReads(before: Db, after: Db, filter: set<string>, nodes: seq<PveNode>, index: map<string, nat>,
                             r: Ref)
    requires r in after.rows
  {
    && r in before.rows
    && (forall c :: c != "status" ==> Get(after.rows[r], c) == Get(before.rows[r], c))
    && Get(after.rows[r], "status") ==
         if exists n :: n in nodes && TakesPart(filter, n) && OnNode(index, after.rows[r], n) then Text("stopped")
         else Get(before.rows[r], "status")
  }

  lemma UnreportedReads(before: Db, after: Db, filter: set<string>, nodes: seq<PveNode>, index: map<string, nat>,
                        r: Ref, v: string)
    requires index.Keys == (set n | n in SyncedNodes(filter, nodes) :: n.name)
    requires Agrees(before, after, index.Values, KnownGuests(index, SyncedNodes(filter, nodes)))
    requires v != "" && HasId(after.rows, r, v) && NotReported(filter, nodes, v)
    ensures OtherReads(before, after, filter, nodes, index, r)
  {
    hide KnownGuests, Base, OnNode;
    UnreportedIsUnknown(filter, nodes, index, v);
    assert RowAgrees(before, r, after.rows[r], v, index.Values, KnownGuests(index, SyncedNodes(filter, nodes)));
    OnNodeIsSwept(filter, nodes, index, after.rows[r]);
  }

  lemma GuestIsOnlyKnown(filter: set<string>, nodes: seq<PveNode>, index: map<string, nat>, n: PveNode, g: PveGuest,
                         vmid: string)
    requires UniqueNodes(nodes) && (forall m :: m in nodes ==> '/' !in m.name)
    requires Reported(filter, nodes, n, g, vmid) && n.name in index
    requires forall h :: Reported(filter, nodes, n, h, vmid) ==> h == g
    ensures
      var known := KnownGuests(index, SyncedNodes(filter, nodes));
      var id := n.name + "/" + vmid;
      var k := KnownVm(index[n.name], id, VmRow(id, VmStatus(g.status), g.specs), g.at);
      k in known && forall other :: other in known && other.id == n.name + "/" + vmid ==> other == k
  {
    hide VmRow, VmStatus;
    var synced := SyncedNodes(filter, nodes);
    var known := KnownGuests(index, synced);
    assert CompositeId(n.name, vmid) == n.name + "/" + vmid;
    assert n in synced && g in Guests(n);
    forall other | other in known && other.id == n.name + "/" + vmid
      ensures other == KnownVm(index[n.name], n.name + "/" + vmid,
                               VmRow(n.name + "/" + vmid, VmStatus(g.status), g.specs), g.at)
    {
      var m, h :| m in synced && m.name in index && h in Guests(m) && h.vmid != None
        && other == KnownVm(index[m.name], CompositeId(m.name, h.vmid.value),
                            VmRow(CompositeId(m.name, h.vmid.value), VmStatus(h.status), h.specs), h.at);
      CompositeIdInjective(m.name, h.vmid.value, n.name, vmid);
      assert m == n;
      assert Reported(filter, nodes, n, h, vmid);
    }
  }

  lemma UnreportedIsUnknown(filter: set<string>, nodes: seq<PveNode>, index: map<string, nat>, v: string)
    requires forall n, g, vmid :: Reported(filter, nodes, n, g, vmid) ==> v != n.name + "/" + vmid
    ensures forall k :: k in KnownGuests(index, SyncedNodes(filter, nodes)) ==> k.id != v
  {
    hide VmRow, VmStatus;
    forall k | k in KnownGuests(index, SyncedNodes(filter, nodes)) ensures k.id != v {
      var m, h :| m in SyncedNodes(filter, nodes) && m.name in index && h in Guests(m) && h.vmid != None
        && k == KnownVm(index[m.name], CompositeId(m.name, h.vmid.value),
                        VmRow(CompositeId(m.name, h.vmid.value), VmStatus(h.status), h.specs), h.at);
      assert Reported(filter, nodes, m, h, h.vmid.value);
    }
  }

  lemma OnNodeIsSwept(filter: set<string>, nodes: seq<PveNode>, index: map<string, nat>, row: Row)
    requires index.Keys == (set n | n in SyncedNodes(filter, nodes) :: n.name)
    ensures (exists h: nat :: h in index.Values && Get(row, "host_id") == Key(h))
      <==> exists n :: n in nodes && TakesPart(filter, n) && OnNode(index, row, n)
  {
    if h: nat :| h in index.Values && Get(row, "host_id") == Key(h) {
      var m :| m in index && index[m] == h;
      var n :| n in SyncedNodes(filter, nodes) && n.name == m;
      assert n in nodes && TakesPart(filter, n) && OnNode(index, row, n);
    }
    if n :| n in nodes && TakesPart(filter, n) && OnNode(index, row, n) {
      assert index[n.name] in index.Values;
    }
  }

  /** What the sync needs to complete. */
  lemma NeedsRead(db: Db, name: string, platformData: Value, filter: set<string>, nodes: seq<PveNode>)
    ensures AllHaveRows(db, ClusterOf(name, platformData), filter, nodes) <==>
      && (exists id :: IsClusterRow(db, id, ClusterReport(name, "proxmox", platformData)))
      && (forall id, n :: n in nodes && TakesPart(filter, n) ==>
            IsClusterRow(db, id, ClusterReport(name, "proxmox", platformData)) ==> NodeReads(db, id, n))
  {
    hide IsClusterRow, HasRow, IsCluster, NodeHasRows, NodeReads;
    var c := ClusterOf(name, platformData);
    ClusterHasRowReads(db, c);
    forall id: nat ensures IsCluster(db, id, c) <==> IsClusterRow(db, id, c) {
      ClusterReads(db, id, c);
    }
    forall id: nat, n ensures NodeHasRows(db, id, n) <==> NodeReads(db, id, n) {
      NodeRowsRead(db, id, n);
    }
  }

  /** The node, its guests and its storages have rows. */
  ghost predicate NodeReads(db: Db, cluster: nat, n: PveNode) {
    && TextRow(db, Host, "platform_uuid", n.name)
    && (forall g :: (g in n.qemu || g in n.lxc) && g.vmid != None ==>
          TextRow(db, Vm, "platform_vm_id", n.name + "/" + g.vmid.value))
    && (forall s :: s in n.storages ==> StoreNamed(db, cluster, s.name))
  }

  lemma NodeRowsRead(db: Db, cluster: nat, n: PveNode)
    ensures NodeHasRows(db, cluster, n) <==> NodeReads(db, cluster, n)
  {
    hide TextRow, StoreNamed, HasRow, Distinct, StoresHaveRows;
    HasRowReads(db, n.name, 0, StoreReport("", "", Null, Null, ""));
    forall g | g in Guests(n) && g.vmid != None
      ensures HasRow(db, Vm, SingleKey(Text(CompositeId(n.name, g.vmid.value))))
        <==> TextRow(db, Vm, "platform_vm_id", n.name + "/" + g.vmid.value)
    {
      HasRowReads(db, n.name + "/" + g.vmid.value, 0, StoreReport("", "", Null, Null, ""));
    }
    StoragesHaveRows(db, cluster, n.storages);
  }

  lemma StoragesHaveRows(db: Db, cluster: nat, storages: seq<StoreReport>)
    ensures StoresHaveRows(db, cluster, Distinct(storages))
      <==> forall s :: s in storages ==> StoreNamed(db, cluster, s.name)
  {
    hide StoreNamed, HasRow, Distinct, HasName;
    DistinctReads(storages);
    forall d | d in Distinct(storages)
      ensures HasRow(db, Datastore, StoreKey(cluster, d)) <==> StoreNamed(db, cluster, d.name)
    {
      HasRowReads(db, "", cluster, d);
    }
    forall s | s in storages ensures s.name in Names(Distinct(storages)) {
      SameNames(storages);
    }
  }

  /** `sync_all`.  Over tables with unambiguous keys it completes exactly when the cluster and everything on
      its synced nodes have rows already.  With unique node names, every VM row on a synced node has its
      reported status if the node reported it and is stopped otherwise; rows on nodes that are offline or
      filtered out keep theirs. */
  method SyncAll(engine: SyncEngine, stats: SyncStats, filter: set<string>, name: string, platformData: Value,
                 nodes: seq<PveNode>)
    returns (ok: bool, ghost index: map<string, nat>)
    requires engine.Valid()
    modifies engine, stats`counts
    ensures engine.Valid() && SameKeys(old(engine.State()), engine.State())
    ensures stats.counts.created == old(stats.counts.created)
    ensures KeysUnique(old(engine.State())) ==>
      (ok <==> AllHaveRows(old(engine.State()), ClusterOf(name, platformData), filter, nodes))
    ensures ok ==> stats.counts.Total() == old(stats.counts.Total()) + 1 + TotalItems(filter, nodes)
    ensures ok && UniqueNodes(nodes) && (forall n :: n in nodes ==> '/' !in n.name) ==>
      NodesAgree(old(engine.State()), engine.State(), filter, nodes, index)
    ensures ok && UniqueNodes(nodes) ==>
      && index.Keys == (set n | n in SyncedNodes(filter, nodes) :: n.name)
      && (forall m :: m in index ==> IsHost(engine.State(), index[m], m))
      && Agrees(old(engine.State()), engine.State(), index.Values, KnownGuests(index, SyncedNodes(filter, nodes)))
  {
    hide Run, Exec, Completed, KeysUnique, Performs, UniqueNodes, Agrees, Executes, KnownGuests, WellFormed, IsHost;
    hide SyncedNodes, SameKeys, HasRow, NodeHasRows, IsCluster, NodesAgree, Synced, Items;
    index := map[];
    ghost var before, ops := engine.State(), engine.ops;
    ValidIsWellFormed(engine);
    PerformsNothing(before);
    var cluster;
    ghost var run;
    ok, cluster, run := SyncClusterRow(engine, stats, ClusterOf(name, platformData));
    if !ok {
      return;
    }
    PerformsOther(before, run);
    NoNodesSynced(filter);
    for i := 0 to |nodes|
      invariant Follows(engine, before, ops, run)
      invariant UniqueNodes(nodes) ==> Performs(before, run, SyncedNodes(filter, nodes[..i]), index)
      invariant stats.counts.created == old(stats.counts.created)
      invariant stats.counts.Total() == old(stats.counts.Total()) + 1 + TotalItems(filter, nodes[..i])
      invariant KeysUnique(before) ==> forall j :: 0 <= j < i && Synced(filter, nodes[j]) ==>
        NodeHasRows(before, cluster, nodes[j])
    {
      var n := nodes[i];
      NodesOneMore(filter, nodes, i);
      if !Synced(filter, n) {
        continue;
      }
      ghost var mid := engine.State();
      ValidIsWellFormed(engine);
      if KeysUnique(before) {
        SameKeysStayUnique(before, mid);
        SameNodeRows(before, mid, cluster, n);
      }
      ghost var run';
      var host;
      ok, host, run' := SyncNode(engine, stats, cluster, n);
      SameKeysTransitive(before, mid, engine.State());
      if !ok {
        assert n in nodes;
        return;
      }
      FollowsJoin(before, run, run');
      if UniqueNodes(nodes) {
        NewNodeIsNew(before, run, filter, nodes, i, index);
        PerformsOneMore(before, run, SyncedNodes(filter, nodes[..i]), index, n, host, run');
      }
      index, run := index[n.name := host], run + run';
    }
    assert nodes[..|nodes|] == nodes;
    if KeysUnique(before) {
      OneClusterNodes(before, cluster, ClusterOf(name, platformData), filter, nodes);
    }
    if UniqueNodes(nodes) {
      PerformsParts(before, run, SyncedNodes(filter, nodes), index);
      RunReconciles(before, run, index.Values, KnownGuests(index, SyncedNodes(filter, nodes)));
      if forall n :: n in nodes ==> '/' !in n.name {
        AgreesReads(before, engine.State(), filter, nodes, index);
      }
    }
  }

  lemma OneClusterNodes(db: Db, id: nat, c: ClusterReport, filter: set<string>, nodes: seq<PveNode>)
    requires KeysUnique(db) && IsCluster(db, id, c) && HasRow(db, Cluster, ClusterKey(c))
    requires forall j :: 0 <= j < |nodes| && Synced(filter, nodes[j]) ==> NodeHasRows(db, id, nodes[j])
    ensures AllHaveRows(db, c, filter, nodes)
  {
    hide KeysUnique, IsCluster, HasRow, NodeHasRows;
    forall other, n | IsCluster(db, other, c) && n in nodes && Synced(filter, n) ensures NodeHasRows(db, other, n) {
      OneClusterRow(db, id, other, c);
    }
  }

  lemma NoNodesSynced(filter: set<string>)
    ensures SyncedNodes(filter, []) == {}
  {
  }

  lemma PerformsOther(before: Db, run: seq<Op>)
    requires Completed(before, run) && NoVmOps(run)
    ensures Performs(before, run, {}, map[])
  {
    PerformsNothing(before);
    NoVmOpsExecutesNothing(run);
    var none: map<string, nat> := map[];
    assert none.Values == {} && KnownGuests(none, {}) == {};
  }

  lemma NodesOneMore(filter: set<string>, nodes: seq<PveNode>, i: nat)
    requires i < |nodes|
    ensures SyncedNodes(filter, nodes[..i + 1]) ==
      if Synced(filter, nodes[i]) then SyncedNodes(filter, nodes[..i]) + {nodes[i]} else SyncedNodes(filter, nodes[..i])
    ensures TotalItems(filter, nodes[..i + 1]) ==
      TotalItems(filter, nodes[..i]) + if Synced(filter, nodes[i]) then Items(nodes[i]) else 0
  {
    assert nodes[..i + 1][..i] == nodes[..i];
    assert nodes[..i + 1] == nodes[..i] + [nodes[i]];
  }

  lemma NewNodeIsNew(before: Db, run: seq<Op>, filter: set<string>, nodes: seq<PveNode>, i: nat, index: map<string,
                     nat>)
    requires UniqueNodes(nodes) && i < |nodes| && Performs(before, run, SyncedNodes(filter, nodes[..i]), index)
    ensures nodes[i].name !in index
  {
    forall m | m in index ensures m != nodes[i].name {
      var n :| n in SyncedNodes(filter, nodes[..i]) && n.name == m;
      var j :| 0 <= j < i && nodes[j] == n;
    }
  }

  lemma PerformsParts(before: Db, run: seq<Op>, synced: set<PveNode>, index: map<string, nat>)
    requires Performs(before, run, synced, index)
    ensures Completed(before, run) && Executes(run, index.Values, KnownGuests(index, synced))
    ensures index.Keys == (set n | n in synced :: n.name)
    ensures forall m :: m in index ==> IsHost(Run(before, run), index[m], m)
  {
  }

  /** Everything known under a composite id is on that node. */
  lemma IdNamesNode(index: map<string, nat>, synced: set<PveNode>, k: KnownVm, node: string, vmid: string)
    requires k in KnownGuests(index, synced) && k.id == CompositeId(node, vmid)
    requires '/' !in node && forall m :: m in synced ==> '/' !in m.name
    ensures node in index && k.host == index[node]
  {
    var m, h :| m in synced && m.name in index && h in Guests(m) && h.vmid != None
      && k == KnownVm(index[m.name], CompositeId(m.name, h.vmid.value),
                      VmRow(CompositeId(m.name, h.vmid.value), VmStatus(h.status), h.specs), h.at);
    CompositeIdInjective(m.name, h.vmid.value, node, vmid);
  }

  /** A reported guest's row sits on the node that reported it: guests of different nodes never share an
      id, so a migrated guest gets a new row and its old one is tombstoned with its node's sweep. */
  lemma GuestsStayOnTheirNode(before: Db, after: Db, synced: set<PveNode>, index: map<string, nat>,
                              n: PveNode, g: PveGuest, r: Ref)
    requires Agrees(before, after, index.Values, KnownGuests(index, synced))
    requires forall m :: m in synced ==> '/' !in m.name
    requires n in synced && n.name in index && g in Guests(n) && g.vmid != None
    requires HasId(after.rows, r, CompositeId(n.name, g.vmid.value))
    ensures Get(after.rows[r], "host_id") == Key(index[n.name])
  {
    hide CompositeId, KnownGuests, Guests, IdRows, Base;
    var v := CompositeId(n.name, g.vmid.value);
    assert v != "" by { NotEmpty(n.name, g.vmid.value); }
    var known := KnownGuests(index, synced);
    GuestIsKnown(index, synced, n, g);
    assert RowAgrees(before, r, after.rows[r], v, index.Values, known);
    var k :| k in known && k.id == v && Carries(after.rows[r], k.Put());
    IdNamesNode(index, synced, k, n.name, g.vmid.value);
    assert Stored(k.Put())["host_id"] == Key(k.host);
  }

  lemma GuestIsKnown(index: map<string, nat>, synced: set<PveNode>, n: PveNode, g: PveGuest)
    requires n in synced && n.name in index && g in Guests(n) && g.vmid != None
    ensures exists k :: k in KnownGuests(index, synced) && k.id == CompositeId(n.name, g.vmid.value)
  {
    hide CompositeId, VmStatus, Guests;
    var v := CompositeId(n.name, g.vmid.value);
    assert KnownVm(index[n.name], v, VmRow(v, VmStatus(g.status), g.specs), g.at)
        in KnownGuests(index, synced);
  }

  lemma NotEmpty(node: string, vmid: string)
    ensures CompositeId(node, vmid) != ""
  {
  }
}
