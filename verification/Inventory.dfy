/** The host and datastore loops of the hypervisor services, and the index from reported host names
    to host rows through which VMs are resolved. */
module Inventory {
  import opened Wrappers
  import opened Values
  import opened Store
  import opened Keys
  import opened Updates
  import opened Effects
  import opened Replay
  import opened Reconcile
  import opened Runs
  import opened Engine
  import opened Hypervisor

  /** A reported host: its platform uuid, and the names VMs may use to refer to it, in the order in
      which the service enters them into the index. */
  datatype HostReport = HostReport(uuid: string, names: seq<string>, status: string, specs: Specs, at: string)

  /** The dictionary handed to `upsert_virt_host`; the table declares neither `name`, `status`, `cpu_count`
      nor `ram_gb`. */
  function HostRow(h: HostReport): Row {
    map["name" := Text(h.specs.name), "platform_uuid" := Text(h.uuid), "status" := Text(h.status),
        "cpu_count" := h.specs.cpuCount, "ram_gb" := h.specs.ramGb, "platform_data" := h.specs.platformData]
  }

  lemma HostRowOnlyUpdates(cluster: nat, h: HostReport)
    ensures
      var op := UpsertHost(cluster, HostRow(h), h.at);
      OnlyUpdates(op) && OpKey(op) == SingleKey(Text(h.uuid))
  {
    var op := UpsertHost(cluster, HostRow(h), h.at);
    assert "cpu_count" in DataOf(op) && !Declares(Host, "cpu_count");
    assert "platform_uuid" in DataOf(op) && Declares(Host, "platform_uuid");
  }

  datatype ClusterReport = ClusterReport(name: string, platform: string, platformData: Value)

  /** The dictionary handed to `upsert_virt_cluster`; the table declares no `platform_data`. */
  function ClusterRow(c: ClusterReport): Row {
    map["name" := Text(c.name), "platform" := Text(c.platform), "platform_data" := c.platformData]
  }

  function ClusterKey(c: ClusterReport): DedupKey {
    Pair(Text(c.name), Text(c.platform))
  }

  lemma ClusterRowOnlyUpdates(c: ClusterReport)
    ensures OnlyUpdates(UpsertCluster(ClusterRow(c))) && OpKey(UpsertCluster(ClusterRow(c))) == ClusterKey(c)
  {
    var op := UpsertCluster(ClusterRow(c));
    assert "platform_data" in DataOf(op) && !Declares(Cluster, "platform_data");
    assert "name" in DataOf(op) && Declares(Cluster, "name");
    assert "platform" in DataOf(op) && Declares(Cluster, "platform");
  }

  datatype StoreReport = StoreReport(name: string, storeType: string, capacityGb: Value, freeGb: Value, status: string)

  /** The dictionary handed to `upsert_datastore`; the table declares neither `capacity_gb` nor `status`. */
  function StoreRow(d: StoreReport): Row {
    map["name" := Text(d.name), "datastore_type" := Text(d.storeType), "capacity_gb" := d.capacityGb,
        "free_gb" := d.freeGb, "status" := Text(d.status)]
  }

  function StoreKey(cluster: nat, d: StoreReport): DedupKey {
    Pair(Key(cluster), Text(d.name))
  }

  lemma StoreRowOnlyUpdates(cluster: nat, d: StoreReport)
    ensures
      var op := UpsertDatastore(cluster, StoreRow(d));
      OnlyUpdates(op) && OpKey(op) == StoreKey(cluster, d)
  {
    var op := UpsertDatastore(cluster, StoreRow(d));
    assert "status" in DataOf(op) && !Declares(Datastore, "status");
    assert "name" in DataOf(op) && Declares(Datastore, "name");
    assert "cluster_id" in DataOf(op) && Declares(Datastore, "cluster_id");
  }

  // ---------- what the tables read afterwards ----------

  /** Row `id` is what the host's last upsert left: its uuid and platform data, the time, and its cluster. */
  ghost predicate IsHostRow(db: Db, id: nat, cluster: nat, uuid: string, platformData: Value, at: string) {
    && Ref(Host, id) in db.rows
    && var row := db.rows[Ref(Host, id)];
       && Get(row, "platform_uuid") == Text(uuid) && Get(row, "platform_data") == platformData
       && Get(row, "last_synced_at") == Stamp(at) && Get(row, "cluster_id") == Key(cluster)
  }

  ghost predicate LastOfUuid(hosts: seq<HostReport>, i: int)
    requires 0 <= i < |hosts|
  {
    forall j :: i < j < |hosts| ==> hosts[j].uuid != hosts[i].uuid
  }

  ghost predicate LastOfName(stores: seq<StoreReport>, i: int)
    requires 0 <= i < |stores|
  {
    forall j :: i < j < |stores| ==> stores[j].name != stores[i].name
  }

  /** Of the hosts with one uuid, the last one listed is in the table. */
  ghost predicate HostsRead(db: Db, cluster: nat, hosts: seq<HostReport>) {
    forall i :: 0 <= i < |hosts| && LastOfUuid(hosts, i) ==>
      exists id :: IsHostRow(db, id, cluster, hosts[i].uuid, hosts[i].specs.platformData, hosts[i].at)
  }

  ghost predicate IsStoreRow(db: Db, id: nat, cluster: nat, d: StoreReport) {
    && Ref(Datastore, id) in db.rows
    && var row := db.rows[Ref(Datastore, id)];
       && Get(row, "cluster_id") == Key(cluster) && Get(row, "name") == Text(d.name)
       && Get(row, "datastore_type") == Text(d.storeType) && Get(row, "free_gb") == d.freeGb
  }

  /** Of the datastores with one name, the last one listed is in the table, under the cluster. */
  ghost predicate StoresRead(db: Db, cluster: nat, stores: seq<StoreReport>) {
    forall i :: 0 <= i < |stores| && LastOfName(stores, i) ==>
      exists id :: IsStoreRow(db, id, cluster, stores[i])
  }

  ghost predicate IsClusterRow(db: Db, id: nat, c: ClusterReport) {
    && Ref(Cluster, id) in db.rows
    && Get(db.rows[Ref(Cluster, id)], "name") == Text(c.name)
    && Get(db.rows[Ref(Cluster, id)], "platform") == Text(c.platform)
  }

  lemma ClusterReads(db: Db, id: nat, c: ClusterReport)
    ensures IsCluster(db, id, c) <==> IsClusterRow(db, id, c)
  {
  }

  lemma HostUpsertReads(db: Db, cluster: nat, h: HostReport)
    requires StepOf(db, UpsertHost(cluster, HostRow(h), h.at)).Done?
    ensures
      var op := UpsertHost(cluster, HostRow(h), h.at);
      var r := StepOf(db, op).ref;
      && r.kind == Host && IsHostRow(Exec(db, op), r.id, cluster, h.uuid, h.specs.platformData, h.at)
      && Exec(db, op).rows == db.rows[r := Exec(db, op).rows[r]]
      && (r in db.rows ==> Get(db.rows[r], "platform_uuid") == Text(h.uuid))
  {
    hide StepOf, Exec, Target;
    var op := UpsertHost(cluster, HostRow(h), h.at);
    HostRowOnlyUpdates(cluster, h);
    NeverCreates(db, op);
    UpsertWritesOne(db, op);
    UpsertStores(db, op, "platform_uuid");
    UpsertStores(db, op, "platform_data");
    HostColumnsDeclared();
    OwnColumnsRead(db, op);
    TextLookups(db, op, "platform_uuid", h.uuid, StepOf(db, op).ref);
  }

  lemma HostColumnsDeclared()
    ensures Declares(Host, "platform_uuid") && Declares(Host, "platform_data")
  {
  }

  lemma HostsReadOneMore(db: Db, cluster: nat, hosts: seq<HostReport>, h: HostReport)
    requires StepOf(db, UpsertHost(cluster, HostRow(h), h.at)).Done? && HostsRead(db, cluster, hosts)
    ensures HostsRead(Exec(db, UpsertHost(cluster, HostRow(h), h.at)), cluster, hosts + [h])
  {
    hide StepOf, Exec, HostRow;
    HostUpsertReads(db, cluster, h);
    var op, all := UpsertHost(cluster, HostRow(h), h.at), hosts + [h];
    var db' := Exec(db, op);
    assert all[|hosts|] == h;
    forall i | 0 <= i < |all| && LastOfUuid(all, i)
      ensures exists id :: IsHostRow(db', id, cluster, all[i].uuid, all[i].specs.platformData, all[i].at)
    {
      if i < |hosts| {
        assert forall j :: i < j < |hosts| ==> hosts[j].uuid == all[j].uuid;
        var id :| IsHostRow(db, id, cluster, hosts[i].uuid, hosts[i].specs.platformData, hosts[i].at);
        assert all[|hosts|].uuid != all[i].uuid;
        assert IsHostRow(db', id, cluster, all[i].uuid, all[i].specs.platformData, all[i].at);
      }
    }
  }

  lemma StoreUpsertReads(db: Db, cluster: nat, d: StoreReport)
    requires StepOf(db, UpsertDatastore(cluster, StoreRow(d))).Done?
    ensures
      var op := UpsertDatastore(cluster, StoreRow(d));
      var r := StepOf(db, op).ref;
      && r.kind == Datastore && IsStoreRow(Exec(db, op), r.id, cluster, d)
      && Exec(db, op).rows == db.rows[r := Exec(db, op).rows[r]]
      && (r in db.rows ==> Get(db.rows[r], "cluster_id") == Key(cluster) && Get(db.rows[r], "name") == Text(d.name))
  {
    hide StepOf, Exec, Target;
    var op := UpsertDatastore(cluster, StoreRow(d));
    StoreRowOnlyUpdates(cluster, d);
    NeverCreates(db, op);
    UpsertWritesOne(db, op);
    UpsertStores(db, op, "name");
    UpsertStores(db, op, "datastore_type");
    UpsertStores(db, op, "free_gb");
    StoreColumnsDeclared();
    OwnColumnsRead(db, op);
    PairLookups(db, op, StepOf(db, op).ref);
  }

  lemma StoreColumnsDeclared()
    ensures Declares(Datastore, "name") && Declares(Datastore, "datastore_type") && Declares(Datastore, "free_gb")
  {
  }

  lemma StoresReadOneMore(db: Db, cluster: nat, stores: seq<StoreReport>, d: StoreReport)
    requires StepOf(db, UpsertDatastore(cluster, StoreRow(d))).Done? && StoresRead(db, cluster, stores)
    ensures StoresRead(Exec(db, UpsertDatastore(cluster, StoreRow(d))), cluster, stores + [d])
  {
    hide StepOf, Exec, StoreRow;
    StoreUpsertReads(db, cluster, d);
    var op, all := UpsertDatastore(cluster, StoreRow(d)), stores + [d];
    var db' := Exec(db, op);
    assert all[|stores|] == d;
    forall i | 0 <= i < |all| && LastOfName(all, i)
      ensures exists id :: IsStoreRow(db', id, cluster, all[i])
    {
      if i < |stores| {
        assert forall j :: i < j < |stores| ==> stores[j].name == all[j].name;
        var id :| IsStoreRow(db, id, cluster, stores[i]);
        assert all[|stores|].name != all[i].name;
        assert IsStoreRow(db', id, cluster, all[i]);
      }
    }
  }

  /** Operations on VMs and datastores leave host rows alone. */
  lemma {:induction false} HostRowsStay(db: Db, run: seq<Op>)
    requires WellFormed(db)
    requires forall op :: op in run ==> op.UpsertVm? || op.SweepVms? || op.UpsertDatastore?
    ensures forall r :: r in db.rows && r.kind == Host ==> r in Run(db, run).rows && Run(db, run).rows[r] == db.rows[r]
  {
    if run != [] {
      hide Run, Exec, WellFormed;
      var init, op := run[..|run| - 1], run[|run| - 1];
      HostRowsStay(db, init);
      RunLast(db, run);
      RunReplays(db, init);
      HostRowsKept(Run(db, init), op);
    }
  }

  lemma HostRowsKept(db: Db, op: Op)
    requires WellFormed(db) && (op.UpsertVm? || op.SweepVms? || op.UpsertDatastore?)
    ensures forall r :: r in db.rows && r.kind == Host ==> r in Exec(db, op).rows && Exec(db, op).rows[r] == db.rows[r]
  {
    hide Exec, StepOf, WellFormed;
    if IsUpsert(op) {
      UpsertWritesOne(db, op);
    } else {
      forall r | r in db.rows && r.kind == Host ensures r in Exec(db, op).rows && Exec(db, op).rows[r] == db.rows[r] {
        SweepReads(db, op, r);
      }
    }
  }

  lemma HostsReadLater(a: Db, run: seq<Op>, cluster: nat, hosts: seq<HostReport>)
    requires WellFormed(a) && HostsRead(a, cluster, hosts)
    requires forall op :: op in run ==> op.UpsertVm? || op.SweepVms? || op.UpsertDatastore?
    ensures HostsRead(Run(a, run), cluster, hosts)
  {
    hide Run, WellFormed;
    HostRowsStay(a, run);
    forall i | 0 <= i < |hosts| && LastOfUuid(hosts, i)
      ensures exists id :: IsHostRow(Run(a, run), id, cluster, hosts[i].uuid, hosts[i].specs.platformData, hosts[i].at)
    {
      var id :| IsHostRow(a, id, cluster, hosts[i].uuid, hosts[i].specs.platformData, hosts[i].at);
      assert IsHostRow(Run(a, run), id, cluster, hosts[i].uuid, hosts[i].specs.platformData, hosts[i].at);
    }
  }

  lemma NothingRead(db: Db, cluster: nat)
    ensures HostsRead(db, cluster, []) && StoresRead(db, cluster, [])
  {
  }

  /** Some row of the kind holds the text, which is not empty. */
  ghost predicate TextRow(db: Db, kind: Kind, c: Column, s: string) {
    s != "" && exists r :: HasText(db, r, kind, c, s)
  }

  ghost predicate StoreNamed(db: Db, cluster: nat, name: string) {
    exists id: nat :: Ref(Datastore, id) in db.rows
                      && Get(db.rows[Ref(Datastore, id)], "cluster_id") == Key(cluster)
                      && Get(db.rows[Ref(Datastore, id)], "name") == Text(name)
  }

  /** What it means for a host, a VM or a datastore to have a row. */
  lemma HasRowReads(db: Db, s: string, cluster: nat, d: StoreReport)
    ensures HasRow(db, Host, SingleKey(Text(s))) <==> TextRow(db, Host, "platform_uuid", s)
    ensures HasRow(db, Vm, SingleKey(Text(s))) <==> TextRow(db, Vm, "platform_vm_id", s)
    ensures HasRow(db, Datastore, StoreKey(cluster, d)) <==> StoreNamed(db, cluster, d.name)
  {
    if r :| HasText(db, r, Host, "platform_uuid", s) && s != "" {
      assert KeyOf(Host, db.rows[r]) == SingleKey(Text(s));
    }
    if r :| HasText(db, r, Vm, "platform_vm_id", s) && s != "" {
      assert KeyOf(Vm, db.rows[r]) == SingleKey(Text(s));
    }
    if id: nat :| Ref(Datastore, id) in db.rows && Get(db.rows[Ref(Datastore, id)], "cluster_id") == Key(cluster)
                  && Get(db.rows[Ref(Datastore, id)], "name") == Text(d.name) {
      assert KeyOf(Datastore, db.rows[Ref(Datastore, id)]) == StoreKey(cluster, d);
    }
    if HasRow(db, Host, SingleKey(Text(s))) {
      var r :| r in db.rows && r.kind == Host && KeyOf(Host, db.rows[r]) == SingleKey(Text(s));
      assert HasText(db, r, Host, "platform_uuid", s);
    }
    if HasRow(db, Vm, SingleKey(Text(s))) {
      var r :| r in db.rows && r.kind == Vm && KeyOf(Vm, db.rows[r]) == SingleKey(Text(s));
      assert HasText(db, r, Vm, "platform_vm_id", s);
    }
    if HasRow(db, Datastore, StoreKey(cluster, d)) {
      var r :| r in db.rows && r.kind == Datastore && KeyOf(Datastore, db.rows[r]) == StoreKey(cluster, d);
      assert r == Ref(Datastore, r.id);
    }
  }

  /** A cluster, its hosts and its datastores have rows. */
  lemma TreeRowsRead(db: Db, c: ClusterReport, hosts: seq<HostReport>, stores: seq<StoreReport>)
    ensures TreeHasRows(db, c, hosts) <==>
      && (exists id :: IsClusterRow(db, id, c))
      && forall h :: h in hosts ==> TextRow(db, Host, "platform_uuid", h.uuid)
    ensures ClusterStoresHaveRows(db, c, stores) <==>
      exists id :: IsClusterRow(db, id, c) && forall d :: d in stores ==> StoreNamed(db, id, d.name)
  {
    hide HasRow, TextRow, StoreNamed, IsCluster, IsClusterRow;
    ClusterHasRowReads(db, c);
    forall h | h in hosts
      ensures HasRow(db, Host, SingleKey(Text(h.uuid))) <==> TextRow(db, Host, "platform_uuid", h.uuid)
    {
      HasRowReads(db, h.uuid, 0, StoreReport("", "", Null, Null, ""));
    }
    forall id: nat
      ensures IsCluster(db, id, c) <==> IsClusterRow(db, id, c)
      ensures StoresHaveRows(db, id, stores) <==> forall d :: d in stores ==> StoreNamed(db, id, d.name)
    {
      ClusterReads(db, id, c);
      forall d | d in stores ensures HasRow(db, Datastore, StoreKey(id, d)) <==> StoreNamed(db, id, d.name) {
        HasRowReads(db, "", id, d);
      }
    }
  }

  lemma ClusterHasRowReads(db: Db, c: ClusterReport)
    ensures HasRow(db, Cluster, ClusterKey(c)) <==> exists id :: IsClusterRow(db, id, c)
  {
    if id :| IsClusterRow(db, id, c) {
      ClusterReads(db, id, c);
    }
    if HasRow(db, Cluster, ClusterKey(c)) {
      var r :| r in db.rows && r.kind == Cluster && KeyOf(Cluster, db.rows[r]) == ClusterKey(c);
      assert r == Ref(Cluster, r.id);
      ClusterReads(db, r.id, c);
    }
  }

  ghost predicate HostsHaveRows(db: Db, hosts: seq<HostReport>) {
    forall h :: h in hosts ==> HasRow(db, Host, SingleKey(Text(h.uuid)))
  }

  ghost predicate StoresHaveRows(db: Db, cluster: nat, stores: seq<StoreReport>) {
    forall d :: d in stores ==> HasRow(db, Datastore, StoreKey(cluster, d))
  }

  /** Row `id` is the row of the cluster. */
  ghost predicate IsCluster(db: Db, id: nat, c: ClusterReport) {
    Ref(Cluster, id) in db.rows && KeyOf(Cluster, db.rows[Ref(Cluster, id)]) == ClusterKey(c)
  }

  /** `index[name] = id` for each name. */
  function Enter(index: map<string, nat>, names: seq<string>, id: nat): map<string, nat> {
    if names == [] then index else Enter(index, names[..|names| - 1], id)[names[|names| - 1] := id]
  }

  /** The index after the hosts, the i-th of which has row id `ids[i]`. */
  function IndexOf(hosts: seq<HostReport>, ids: seq<nat>): map<string, nat>
    requires |hosts| == |ids|
  {
    if hosts == [] then map[]
    else
      var n := |hosts| - 1;
      Enter(IndexOf(hosts[..n], ids[..n]), hosts[n].names, ids[n])
  }

  lemma {:induction false} EnterReads(index: map<string, nat>, names: seq<string>, id: nat)
    ensures Enter(index, names, id).Keys == index.Keys + set n | n in names
    ensures forall n :: n in Enter(index, names, id) ==>
      Enter(index, names, id)[n] == if n in names then id else index[n]
  {
    if names != [] {
      EnterReads(index, names[..|names| - 1], id);
      assert names == names[..|names| - 1] + [names[|names| - 1]];
    }
  }

  /** A name leads to the last host that carries it. */
  lemma {:induction false} IndexIsLast(hosts: seq<HostReport>, ids: seq<nat>, name: string)
    requires |hosts| == |ids|
    ensures name in IndexOf(hosts, ids) <==> exists i :: 0 <= i < |hosts| && name in hosts[i].names
    ensures name in IndexOf(hosts, ids) ==>
      exists i :: 0 <= i < |hosts| && name in hosts[i].names && IndexOf(hosts, ids)[name] == ids[i]
                  && forall j :: i < j < |hosts| ==> name !in hosts[j].names
  {
    hide Enter;
    if hosts != [] {
      var n := |hosts| - 1;
      IndexIsLast(hosts[..n], ids[..n], name);
      EnterReads(IndexOf(hosts[..n], ids[..n]), hosts[n].names, ids[n]);
      if name in hosts[n].names {
        assert IndexOf(hosts, ids)[name] == ids[n];
      } else if name in IndexOf(hosts, ids) {
        var i :| 0 <= i < |hosts[..n]| && name in hosts[..n][i].names
                 && IndexOf(hosts[..n], ids[..n])[name] == ids[..n][i]
                 && forall j :: i < j < |hosts[..n]| ==> name !in hosts[..n][j].names;
        assert hosts[i] == hosts[..n][i];
      }
    }
  }

  /** Row `id` is the host row with platform uuid `uuid`. */
  ghost predicate IsHost(db: Db, id: nat, uuid: string) {
    Ref(Host, id) in db.rows && Get(db.rows[Ref(Host, id)], "platform_uuid") == Text(uuid)
  }

  ghost predicate Bound(db: Db, hosts: seq<HostReport>, ids: seq<nat>) {
    |hosts| == |ids| && forall i :: 0 <= i < |hosts| ==> IsHost(db, ids[i], hosts[i].uuid)
  }

  /** A row stays the row of its host, whatever runs. */
  lemma IsHostStays(db: Db, run: seq<Op>, id: nat, uuid: string)
    requires WellFormed(db) && IsHost(db, id, uuid)
    ensures IsHost(Run(db, run), id, uuid)
  {
    RunKeepsId(db, run, Ref(Host, id));
  }

  lemma BoundStays(db: Db, run: seq<Op>, hosts: seq<HostReport>, ids: seq<nat>)
    requires WellFormed(db) && Bound(db, hosts, ids)
    ensures Bound(Run(db, run), hosts, ids)
  {
    forall i | 0 <= i < |hosts| ensures IsHost(Run(db, run), ids[i], hosts[i].uuid) {
      IsHostStays(db, run, ids[i], hosts[i].uuid);
    }
  }

  ghost predicate NoVmOps(run: seq<Op>) {
    forall op :: op in run ==> !op.UpsertVm? && !op.SweepVms?
  }

  /** A run without VM operations executes nothing. */
  lemma NoVmOpsExecutesNothing(run: seq<Op>)
    requires NoVmOps(run)
    ensures Executes(run, {}, {})
  {
  }

  /** VM operations surrounded by others. */
  lemma ExecutesBetween(a: seq<Op>, run: seq<Op>, b: seq<Op>, swept: set<nat>, known: set<KnownVm>)
    requires NoVmOps(a) && Executes(run, swept, known) && NoVmOps(b)
    ensures Executes(a + run + b, swept, known)
  {
    NoVmOpsExecutesNothing(a);
    NoVmOpsExecutesNothing(b);
    ExecutesConcat(a, {}, {}, run, swept, known);
    ExecutesConcat(a + run, swept, known, b, {}, {});
    assert {} + swept + {} == swept && {} + known + {} == known;
    assert {} + swept == swept && {} + known == known;
  }

  /** Upsert one host, extending the run. */
  method SyncHost(engine: SyncEngine, stats: SyncStats, cluster: nat, h: HostReport,
                  ghost before: Db, ghost ops: seq<Op>, ghost run: seq<Op>)
    returns (ok: bool, id: nat)
    requires WellFormed(before) && Follows(engine, before, ops, run)
    modifies engine, stats`counts
    ensures engine.Valid() && SameKeys(before, engine.State())
    ensures stats.counts.created == old(stats.counts.created)
    ensures ok ==> Follows(engine, before, ops, run + [UpsertHost(cluster, HostRow(h), h.at)])
    ensures ok ==> IsHost(engine.State(), id, h.uuid)
    ensures ok ==> StepOf(old(engine.State()), UpsertHost(cluster, HostRow(h), h.at)).Done?
    ensures ok ==> engine.State() == Exec(old(engine.State()), UpsertHost(cluster, HostRow(h), h.at))
    ensures ok ==> stats.counts.Total() == old(stats.counts.Total()) + 1
    ensures KeysUnique(before) ==> (ok <==> HasRow(before, Host, SingleKey(Text(h.uuid))))
  {
    hide Exec, StepOf, Run, KeysUnique, SameKeys, OnlyUpdates, HasRow, WellFormed, HostRow;
    ghost var op, db := UpsertHost(cluster, HostRow(h), h.at), engine.State();
    HostRowOnlyUpdates(cluster, h);
    ValidIsWellFormed(engine);
    if KeysUnique(before) {
      SucceedsIffRowBefore(before, db, op);
    }
    NeverCreates(db, op);
    NeverTalliesCreated(stats.counts, db, op);
    SameKeysTransitive(before, db, Exec(db, op));
    var ref;
    ok, ref := engine.UpsertVirtHost(cluster, HostRow(h), h.at, stats);
    id := ref.id;
    if ok {
      FollowsStep(before, run, op);
      HostIsBound(db, cluster, h);
    }
  }

  lemma HostIsBound(db: Db, cluster: nat, h: HostReport)
    requires StepOf(db, UpsertHost(cluster, HostRow(h), h.at)).Done?
    ensures
      var op := UpsertHost(cluster, HostRow(h), h.at);
      StepOf(db, op).ref.kind == Host && IsHost(Exec(db, op), StepOf(db, op).ref.id, h.uuid)
  {
    HostUpsertBinds(db, UpsertHost(cluster, HostRow(h), h.at));
  }

  /** The host loop: upsert every host and enter its names into the index. */
  method SyncHosts(engine: SyncEngine, stats: SyncStats, cluster: nat, hosts: seq<HostReport>)
    returns (ok: bool, index: map<string, nat>, ghost ids: seq<nat>, ghost run: seq<Op>)
    requires engine.Valid()
    modifies engine, stats`counts
    ensures engine.Valid() && SameKeys(old(engine.State()), engine.State())
    ensures stats.counts.created == old(stats.counts.created)
    ensures ok ==> Follows(engine, old(engine.State()), old(engine.ops), run) && NoVmOps(run)
    ensures ok ==> Bound(engine.State(), hosts, ids) && index == IndexOf(hosts, ids)
    ensures ok ==> HostsRead(engine.State(), cluster, hosts)
    ensures ok ==> stats.counts.Total() == old(stats.counts.Total()) + |hosts|
    ensures KeysUnique(old(engine.State())) ==> (ok <==> HostsHaveRows(old(engine.State()), hosts))
  {
    hide Run, Exec, Completed, KeysUnique, WellFormed, SameKeys, HasRow, HostRow, HostsRead, StepOf;
    NothingRead(engine.State(), cluster);
    ValidIsWellFormed(engine);
    ok, index, ids, run := true, map[], [], [];
    FollowsNothing(engine.State());
    ghost var before, ops := engine.State(), engine.ops;
    for i := 0 to |hosts|
      invariant Follows(engine, before, ops, run) && NoVmOps(run)
      invariant |ids| == i && Bound(engine.State(), hosts[..i], ids) && index == IndexOf(hosts[..i], ids)
      invariant stats.counts.created == old(stats.counts.created)
      invariant stats.counts.Total() == old(stats.counts.Total()) + i
      invariant KeysUnique(before) ==> HostsHaveRows(before, hosts[..i])
      invariant HostsRead(engine.State(), cluster, hosts[..i])
    {
      var h := hosts[i];
      assert h in hosts;
      ghost var mid := engine.State();
      var id;
      ok, id := SyncHost(engine, stats, cluster, h, before, ops, run);
      if !ok {
        return;
      }
      ghost var op := UpsertHost(cluster, HostRow(h), h.at);
      BoundOneMore(before, run, op, hosts[..i], ids, h, id);
      HostsReadOneMore(mid, cluster, hosts[..i], h);
      assert hosts[..i + 1] == hosts[..i] + [h];
      run := run + [op];
      index := EnterAll(index, h.names, id);
      ids := ids + [id];
    }
    assert hosts[..|hosts|] == hosts;
  }

  /** The inner assignments `index[name] = id`. */
  method EnterAll(index: map<string, nat>, names: seq<string>, id: nat) returns (index': map<string, nat>)
    ensures index' == Enter(index, names, id)
  {
    index' := index;
    for i := 0 to |names|
      invariant index' == Enter(index, names[..i], id)
    {
      assert names[..i + 1][..i] == names[..i];
      index' := index'[names[i] := id];
    }
    assert names[..|names|] == names;
  }

  lemma BoundOneMore(before: Db, run: seq<Op>, op: Op, hosts: seq<HostReport>, ids: seq<nat>, h: HostReport, id: nat)
    requires WellFormed(before) && Bound(Run(before, run), hosts, ids)
    requires IsHost(Run(before, run + [op]), id, h.uuid)
    ensures Bound(Run(before, run + [op]), hosts + [h], ids + [id])
    ensures IndexOf(hosts + [h], ids + [id]) == Enter(IndexOf(hosts, ids), h.names, id)
  {
    hide Exec;
    RunReplays(before, run);
    RunConcat(before, run, [op]);
    BoundStays(Run(before, run), [op], hosts, ids);
    assert (hosts + [h])[..|hosts|] == hosts && (ids + [id])[..|ids|] == ids;
  }

  /** A cluster row and its hosts: the part of a sync before the VMs. */
  method SyncClusterAndHosts(engine: SyncEngine, stats: SyncStats, c: ClusterReport, hosts: seq<HostReport>)
    returns (ok: bool, cluster: nat, index: map<string, nat>, ghost ids: seq<nat>, ghost run: seq<Op>)
    requires engine.Valid()
    modifies engine, stats`counts
    ensures engine.Valid() && SameKeys(old(engine.State()), engine.State())
    ensures stats.counts.created == old(stats.counts.created)
    ensures ok ==> Follows(engine, old(engine.State()), old(engine.ops), run) && NoVmOps(run)
    ensures ok ==> Bound(engine.State(), hosts, ids) && index == IndexOf(hosts, ids)
    ensures ok ==> IsCluster(old(engine.State()), cluster, c) && IsCluster(engine.State(), cluster, c)
    ensures ok ==> HostsRead(engine.State(), cluster, hosts)
    ensures ok ==> stats.counts.Total() == old(stats.counts.Total()) + 1 + |hosts|
    ensures KeysUnique(old(engine.State())) ==>
      (ok <==> HasRow(old(engine.State()), Cluster, ClusterKey(c)) && HostsHaveRows(old(engine.State()), hosts))
  {
    hide Run, Exec, Completed, KeysUnique, StepOf, Bound, IndexOf, SameKeys, HasRow, WellFormed, IsCluster, HostsRead;
    index, ids := map[], [];
    ghost var before := engine.State();
    ok, cluster, run := SyncClusterRow(engine, stats, c);
    if !ok {
      return;
    }
    ghost var mid := engine.State();
    ValidIsWellFormed(engine);
    if KeysUnique(before) {
      SameKeysStayUnique(before, mid);
      SameHosts(before, mid, hosts);
    }
    ghost var run2;
    ok, index, ids, run2 := SyncHosts(engine, stats, cluster, hosts);
    SameKeysTransitive(before, mid, engine.State());
    if ok {
      SameCluster(before, engine.State(), cluster, c);
      FollowsJoin(before, run, run2);
      run := run + run2;
    }
  }

  lemma SameCluster(a: Db, b: Db, id: nat, c: ClusterReport)
    requires SameKeys(a, b)
    ensures IsCluster(a, id, c) <==> IsCluster(b, id, c)
  {
    hide KeyOf;
  }

  lemma SameHosts(a: Db, b: Db, hosts: seq<HostReport>)
    requires SameKeys(a, b)
    ensures HostsHaveRows(a, hosts) <==> HostsHaveRows(b, hosts)
  {
    hide SameKeys, HasRow;
    forall h | h in hosts
      ensures HasRow(a, Host, SingleKey(Text(h.uuid))) <==> HasRow(b, Host, SingleKey(Text(h.uuid)))
    {
      SameKeysSameRows(a, b, Host, SingleKey(Text(h.uuid)));
    }
  }

  lemma SameVms(a: Db, b: Db, reports: seq<Report>)
    requires SameKeys(a, b)
    ensures VmsHaveRows(a, reports) <==> VmsHaveRows(b, reports)
  {
    hide SameKeys, HasRow;
    forall r | r in reports
      ensures HasRow(a, Vm, SingleKey(Text(r.id))) <==> HasRow(b, Vm, SingleKey(Text(r.id)))
    {
      SameKeysSameRows(a, b, Vm, SingleKey(Text(r.id)));
    }
  }

  lemma SameStores(a: Db, b: Db, cluster: nat, stores: seq<StoreReport>)
    requires SameKeys(a, b)
    ensures StoresHaveRows(a, cluster, stores) <==> StoresHaveRows(b, cluster, stores)
  {
    hide SameKeys, HasRow;
    forall d | d in stores
      ensures HasRow(a, Datastore, StoreKey(cluster, d)) <==> HasRow(b, Datastore, StoreKey(cluster, d))
    {
      SameKeysSameRows(a, b, Datastore, StoreKey(cluster, d));
    }
  }

  /** The datastore loop; it ends at the first upsert that raises. */
  method SyncDatastores(engine: SyncEngine, stats: SyncStats, cluster: nat, datastores: seq<StoreReport>)
    returns (ok: bool, ghost run: seq<Op>)
    requires engine.Valid()
    modifies engine, stats`counts
    ensures Follows(engine, old(engine.State()), old(engine.ops), run) && NoVmOps(run)
    ensures forall op :: op in run ==> op.UpsertDatastore?
    ensures stats.counts.created == old(stats.counts.created)
    ensures ok ==> StoresRead(engine.State(), cluster, datastores)
    ensures ok ==> stats.counts.Total() == old(stats.counts.Total()) + |datastores|
    ensures KeysUnique(old(engine.State())) ==> (ok <==> StoresHaveRows(old(engine.State()), cluster, datastores))
  {
    hide Run, Exec, Completed, KeysUnique, StepOf, SameKeys, HasRow, OnlyUpdates, StoreRow, WellFormed, StoresRead;
    NothingRead(engine.State(), cluster);
    ok, run := true, [];
    FollowsNothing(engine.State());
    ghost var before, ops := engine.State(), engine.ops;
    for i := 0 to |datastores|
      invariant Follows(engine, before, ops, run) && NoVmOps(run)
      invariant stats.counts.created == old(stats.counts.created)
      invariant stats.counts.Total() == old(stats.counts.Total()) + i
      invariant KeysUnique(before) ==> StoresHaveRows(before, cluster, datastores[..i])
      invariant forall op :: op in run ==> op.UpsertDatastore?
      invariant StoresRead(engine.State(), cluster, datastores[..i])
    {
      ghost var op, db := UpsertDatastore(cluster, StoreRow(datastores[i])), engine.State();
      assert datastores[i] in datastores && datastores[..i + 1] == datastores[..i] + [datastores[i]];
      StoreRowOnlyUpdates(cluster, datastores[i]);
      ValidIsWellFormed(engine);
      if KeysUnique(before) {
        SucceedsIffRowBefore(before, db, op);
      }
      NeverCreates(db, op);
      NeverTalliesCreated(stats.counts, db, op);
      SameKeysTransitive(before, db, Exec(db, op));
      var ref;
      ok, ref := engine.UpsertStore(cluster, StoreRow(datastores[i]), stats);
      FollowsStep(before, run, op);
      run := run + [op];
      if !ok {
        return;
      }
      StoresReadOneMore(db, cluster, datastores[..i], datastores[i]);
    }
    assert datastores[..|datastores|] == datastores;
  }

  /** The cluster upsert every service starts with. */
  method SyncClusterRow(engine: SyncEngine, stats: SyncStats, c: ClusterReport)
    returns (ok: bool, id: nat, ghost run: seq<Op>)
    requires engine.Valid()
    modifies engine, stats`counts
    ensures engine.Valid() && SameKeys(old(engine.State()), engine.State())
    ensures stats.counts.created == old(stats.counts.created)
    ensures ok ==> Follows(engine, old(engine.State()), old(engine.ops), run) && NoVmOps(run)
    ensures ok ==> IsCluster(old(engine.State()), id, c)
    ensures ok ==> stats.counts.Total() == old(stats.counts.Total()) + 1
    ensures KeysUnique(old(engine.State())) ==> (ok <==> HasRow(old(engine.State()), Cluster, ClusterKey(c)))
  {
    hide Run, Exec, Completed, KeysUnique, StepOf, SameKeys, HasRow, OnlyUpdates, ClusterRow, WellFormed;
    ghost var before, op := engine.State(), UpsertCluster(ClusterRow(c));
    FollowsNothing(before);
    ClusterRowOnlyUpdates(c);
    ValidIsWellFormed(engine);
    if KeysUnique(before) {
      SucceedsIffRowBefore(before, before, op);
    }
    NeverCreates(before, op);
    NeverTalliesCreated(stats.counts, before, op);
    var ref;
    ok, ref := engine.UpsertVirtCluster(ClusterRow(c), stats);
    id, run := ref.id, [op];
    if ok {
      FollowsStep(before, [], op);
      assert [] + [op] == [op];
    }
  }

  /** One cluster with everything under it, in the order every service uses: cluster, hosts, VMs and
      their sweep, datastores.  `resolve` turns the host index into the VM reports. */
  method SyncTree(engine: SyncEngine, stats: SyncStats, c: ClusterReport, hosts: seq<HostReport>,
                  resolve: map<string, nat> -> seq<Report>, datastores: seq<StoreReport>)
    returns (ok: bool, storesOk: bool, cluster: nat, index: map<string, nat>, ghost ids: seq<nat>, ghost run: seq<Op>)
    requires engine.Valid()
    requires forall index, r :: r in resolve(index) && r.host != None ==> r.host.value in index.Values
    modifies engine, stats`counts
    ensures engine.Valid() && SameKeys(old(engine.State()), engine.State())
    ensures stats.counts.created == old(stats.counts.created)
    ensures ok ==> Follows(engine, old(engine.State()), old(engine.ops), run)
    ensures ok || (KeysUnique(old(engine.State())) && TreeHasRows(old(engine.State()), c, hosts)) ==>
      Bound(engine.State(), hosts, ids) && index == IndexOf(hosts, ids)
    ensures ok ==> Executes(run, index.Values, Known(resolve(index)))
    ensures ok ==> IsClusterRow(engine.State(), cluster, c) && HostsRead(engine.State(), cluster, hosts)
    ensures ok && storesOk ==> StoresRead(engine.State(), cluster, datastores)
    ensures ok && storesOk ==>
      stats.counts.Total() == old(stats.counts.Total()) + 1 + |hosts| + |resolve(index)| + |datastores|
    ensures KeysUnique(old(engine.State())) ==>
      && (ok <==> TreeHasRows(old(engine.State()), c, hosts) && VmsHaveRows(old(engine.State()), resolve(index)))
      && (ok ==> (storesOk <==> ClusterStoresHaveRows(old(engine.State()), c, datastores)))
  {
    hide Run, Exec, Completed, KeysUnique, StepOf, Bound, IndexOf, Executes, Known, WellFormed, SameKeys, HasRow;
    hide IsCluster, HostsHaveRows, VmsHaveRows, StoresHaveRows, ClusterStoresHaveRows;
    hide HostsRead, StoresRead, IsClusterRow;
    storesOk := false;
    ghost var before := engine.State();
    ValidIsWellFormed(engine);
    ghost var vmRun, tailRun;
    ok, cluster, index, ids, run := SyncClusterAndHosts(engine, stats, c, hosts);
    if !ok {
      return;
    }
    ghost var mid := engine.State();
    ValidIsWellFormed(engine);
    if KeysUnique(before) {
      SameKeysStayUnique(before, mid);
      SameVms(before, mid, resolve(index));
    }
    ok, vmRun := ReconcileVms(engine, stats, index.Values, resolve(index));
    SameKeysTransitive(before, mid, engine.State());
    if !ok {
      if KeysUnique(before) {
        BoundBySameKeys(before, mid, engine.State(), hosts, ids);
      }
      return;
    }
    FollowsJoin(before, run, vmRun);
    ghost var later := engine.State();
    ValidIsWellFormed(engine);
    if KeysUnique(before) {
      SameKeysStayUnique(before, later);
      SameStores(before, later, cluster, datastores);
      StoresOfCluster(before, cluster, c, datastores);
    }
    storesOk, tailRun := SyncDatastores(engine, stats, cluster, datastores);
    SameKeysTransitive(before, later, engine.State());
    FollowsJoin(before, run + vmRun, tailRun);
    HostsReadLater(mid, vmRun, cluster, hosts);
    HostsReadLater(later, tailRun, cluster, hosts);
    SameCluster(before, engine.State(), cluster, c);
    ClusterReads(engine.State(), cluster, c);
    BoundLater(before, run, vmRun + tailRun, hosts, ids);
    ExecutesBetween(run, vmRun, tailRun, index.Values, Known(resolve(index)));
    assert run + (vmRun + tailRun) == run + vmRun + tailRun;
    run := run + vmRun + tailRun;
  }

  /** The names under which VMs find hosts. */
  function AllNames(hosts: seq<HostReport>): set<string> {
    set h, n | h in hosts && n in h.names :: n
  }

  lemma IndexedNames(hosts: seq<HostReport>, ids: seq<nat>)
    requires |hosts| == |ids|
    ensures IndexOf(hosts, ids).Keys == AllNames(hosts)
  {
    forall n: string ensures n in IndexOf(hosts, ids) <==> n in AllNames(hosts) {
      IndexIsLast(hosts, ids, n);
    }
  }

  /** The cluster's datastores have rows. */
  ghost predicate ClusterStoresHaveRows(db: Db, c: ClusterReport, stores: seq<StoreReport>) {
    exists id :: IsCluster(db, id, c) && StoresHaveRows(db, id, stores)
  }

  lemma OneClusterRow(db: Db, a: nat, b: nat, c: ClusterReport)
    requires KeysUnique(db) && IsCluster(db, a, c) && IsCluster(db, b, c)
    ensures a == b
  {
    assert Tables.Keyed(db.rows, Part(Cluster), KeyFn(Cluster), Unkeyed, Ref(Cluster, a));
    assert Tables.Keyed(db.rows, Part(Cluster), KeyFn(Cluster), Unkeyed, Ref(Cluster, b));
  }

  lemma StoresOfCluster(db: Db, id: nat, c: ClusterReport, stores: seq<StoreReport>)
    requires KeysUnique(db) && IsCluster(db, id, c)
    ensures ClusterStoresHaveRows(db, c, stores) <==> StoresHaveRows(db, id, stores)
  {
    hide IsCluster, StoresHaveRows, KeysUnique;
    if other :| IsCluster(db, other, c) && StoresHaveRows(db, other, stores) {
      OneClusterRow(db, id, other, c);
    }
  }

  /** The cluster and its hosts have rows. */
  ghost predicate TreeHasRows(db: Db, c: ClusterReport, hosts: seq<HostReport>) {
    HasRow(db, Cluster, ClusterKey(c)) && HostsHaveRows(db, hosts)
  }

  lemma BoundBySameKeys(before: Db, a: Db, b: Db, hosts: seq<HostReport>, ids: seq<nat>)
    requires HostsHaveRows(before, hosts) && SameKeys(before, a) && SameKeys(before, b) && Bound(a, hosts, ids)
    ensures Bound(b, hosts, ids)
  {
    forall i | 0 <= i < |hosts| ensures IsHost(b, ids[i], hosts[i].uuid) {
      var r := Ref(Host, ids[i]);
      assert hosts[i] in hosts && HasRow(before, Host, SingleKey(Text(hosts[i].uuid)));
      assert IsHost(a, ids[i], hosts[i].uuid) && KeyOf(Host, b.rows[r]) == KeyOf(Host, a.rows[r]);
    }
  }

  lemma BoundLater(before: Db, a: seq<Op>, b: seq<Op>, hosts: seq<HostReport>, ids: seq<nat>)
    requires WellFormed(before) && Bound(Run(before, a), hosts, ids)
    ensures Bound(Run(before, a + b), hosts, ids)
  {
    hide Run;
    RunReplays(before, a);
    RunConcat(before, a, b);
    BoundStays(Run(before, a), b, hosts, ids);
  }
}
