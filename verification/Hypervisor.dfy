/** The VM loop that the hypervisor services share: upsert every VM that resolves to a host, remember
    what was seen where, then tombstone what was not seen on each host. */
module Hypervisor {
  import opened Wrappers
  import opened Values
  import opened Store
  import opened Replay
  import opened Keys
  import opened Effects
  import opened Updates
  import opened Reconcile
  import opened Runs
  import opened Engine

  /** What hosts and VMs are described with. */
  datatype Specs = Specs(name: string, cpuCount: Value, ramGb: Value, platformData: Value)

  /** A VM as the service reports it, with the row id of the host it resolved to. */
  datatype Report = Report(id: string, host: Option<nat>, status: string, specs: Specs, at: string)

  /** The dictionary handed to `upsert_vm`; the table declares no `cpu_count`. */
  function VmRow(id: string, status: string, specs: Specs): Row {
    map["name" := Text(specs.name), "platform_vm_id" := Text(id), "status" := Text(status),
        "cpu_count" := specs.cpuCount, "ram_gb" := specs.ramGb, "platform_data" := specs.platformData]
  }

  function ReportData(r: Report): Row {
    VmRow(r.id, r.status, r.specs)
  }

  lemma VmRowOnlyUpdates(host: nat, id: string, status: string, specs: Specs, at: string)
    ensures
      var op := UpsertVm(host, VmRow(id, status, specs), at);
      OnlyUpdates(op) && OpKey(op) == SingleKey(Text(id))
    ensures Get(VmRow(id, status, specs), "platform_vm_id") == Text(id)
  {
    var op := UpsertVm(host, VmRow(id, status, specs), at);
    assert "cpu_count" in DataOf(op) && !Declares(Vm, "cpu_count");
    assert "platform_vm_id" in DataOf(op) && Declares(Vm, "platform_vm_id");
  }

  /** What a VM row reads after it was reported on the host with row id `host`. */
  ghost predicate VmReads(row: Row, host: nat, id: string, status: string, specs: Specs, at: string) {
    && Get(row, "host_id") == Key(host) && Get(row, "platform_vm_id") == Text(id)
    && Get(row, "status") == Text(status) && Get(row, "name") == Text(specs.name)
    && Get(row, "ram_gb") == specs.ramGb && Get(row, "platform_data") == specs.platformData
    && Get(row, "last_seen_at") == Stamp(at) && Get(row, "last_synced_at") == Stamp(at)
  }

  lemma CarriedVmReads(row: Row, host: nat, id: string, status: string, specs: Specs, at: string)
    requires Carries(row, UpsertVm(host, VmRow(id, status, specs), at))
    ensures VmReads(row, host, id, status, specs, at)
  {
    var op := UpsertVm(host, VmRow(id, status, specs), at);
    OwnColumnsStored(op);
    VmColumnsAreStored(op, id, status, specs);
    hide Stored;
  }

  lemma VmColumnsAreStored(op: Op, id: string, status: string, specs: Specs)
    requires op.UpsertVm? && op.data == VmRow(id, status, specs)
    ensures "platform_vm_id" in Stored(op) && Stored(op)["platform_vm_id"] == Text(id)
    ensures "status" in Stored(op) && Stored(op)["status"] == Text(status)
    ensures "name" in Stored(op) && Stored(op)["name"] == Text(specs.name)
    ensures "ram_gb" in Stored(op) && Stored(op)["ram_gb"] == specs.ramGb
    ensures "platform_data" in Stored(op) && Stored(op)["platform_data"] == specs.platformData
  {
  }

  /** After a run that agrees with the reports, the row of a VM that was reported once reads that report. */
  lemma ReportedReads(before: Db, after: Db, swept: set<nat>, known: set<KnownVm>, r: Ref,
                      host: nat, id: string, status: string, specs: Specs, at: string)
    requires Agrees(before, after, swept, known) && HasId(after.rows, r, id) && id != ""
    requires KnownVm(host, id, VmRow(id, status, specs), at) in known
    requires forall k :: k in known && k.id == id ==> k == KnownVm(host, id, VmRow(id, status, specs), at)
    ensures VmReads(after.rows[r], host, id, status, specs, at)
  {
    hide VmRow, Carries, VmReads;
    var row := after.rows[r];
    assert RowAgrees(before, r, row, id, swept, known);
    var k :| k in known && k.id == id && Carries(row, k.Put());
    CarriedVmReads(row, host, id, status, specs, at);
  }

  /** On tables that still have the rows and keys of the beginning, an upsert that can only update
      succeeds exactly when its row was there at the beginning. */
  lemma SucceedsIffRowBefore(before: Db, db: Db, op: Op)
    requires KeysUnique(before) && SameKeys(before, db) && WellFormed(db) && OnlyUpdates(op)
    ensures StepOf(db, op).Done? <==> HasRow(before, KindOf(op), OpKey(op))
  {
    hide StepOf, KeysUnique, SameKeys, WellFormed, OnlyUpdates, HasRow, OpKey, Unique;
    KindIsNotDevice(op);
    SameKeysStayUnique(before, db);
    KeysUniqueParts(db);
    SucceedsIffRow(db, op);
    SameKeysSameRows(before, db, KindOf(op), OpKey(op));
  }

  /** Every VM that resolved to a host has a row. */
  ghost predicate VmsHaveRows(db: Db, reports: seq<Report>) {
    forall r :: r in reports && r.host != None ==> HasRow(db, Vm, SingleKey(Text(r.id)))
  }

  function Known(reports: seq<Report>): set<KnownVm> {
    set r | r in reports && r.host != None :: KnownVm(r.host.value, r.id, ReportData(r), r.at)
  }

  /** The ids reported on one host. */
  function SeenOn(reports: seq<Report>, host: nat): set<string> {
    set r | r in reports && r.host == Some(host) :: r.id
  }

  lemma SeenIsIdsOn(reports: seq<Report>, host: nat)
    ensures SeenOn(reports, host) == IdsOn(Known(reports), host)
  {
    forall r | r in reports && r.host == Some(host) ensures r.id in IdsOn(Known(reports), host) {
      assert KnownVm(host, r.id, ReportData(r), r.at) in Known(reports);
    }
  }

  /** The puts of a prefix of the reports. */
  ghost predicate PutsOf(run: seq<Op>, known: set<KnownVm>) {
    && (forall k :: k in known ==> Get(k.data, "platform_vm_id") == Text(k.id) && k.Put() in run)
    && (forall op :: op in run && op.UpsertVm? ==> exists k :: k in known && op == k.Put())
    && (forall op :: op in run ==> op.UpsertVm?)
  }

  ghost predicate SweepsOf(run: seq<Op>, hosts: set<nat>, known: set<KnownVm>) {
    && (forall h: nat :: h in hosts ==> SweepVms(h, IdsOn(known, h)) in run)
    && (forall op :: op in run ==> op.SweepVms? && op.host in hosts && op.seenIds == IdsOn(known, op.host))
  }

  lemma PutsThenSweeps(puts: seq<Op>, sweeps: seq<Op>, hosts: set<nat>, known: set<KnownVm>)
    requires PutsOf(puts, known) && SweepsOf(sweeps, hosts, known) && (forall k :: k in known ==> k.host in hosts)
    ensures Executes(puts + sweeps, hosts, known)
  {
  }

  lemma KnownOneMore(reports: seq<Report>, r: Report)
    ensures Known(reports + [r]) ==
      Known(reports) + (if r.host == None then {} else {KnownVm(r.host.value, r.id, ReportData(r), r.at)})
    ensures forall h: nat :: SeenOn(reports + [r], h) == SeenOn(reports, h) + (if r.host == Some(h) then {r.id} else {})
  {
  }

  /** What every step of a run through the engine keeps. */
  ghost predicate Follows(engine: SyncEngine, before: Db, ops: seq<Op>, run: seq<Op>)
    reads engine
  {
    && engine.Valid() && engine.ops == ops + run && engine.State() == Run(before, run) && Completed(before, run)
    && SameKeys(before, engine.State())
  }

  lemma FollowsNothing(before: Db)
    ensures Completed(before, []) && Run(before, []) == before && SameKeys(before, before)
  {
  }

  lemma FollowsJoin(before: Db, a: seq<Op>, b: seq<Op>)
    requires Completed(before, a) && Completed(Run(before, a), b)
    ensures Completed(before, a + b) && Run(before, a + b) == Run(Run(before, a), b)
  {
    RunConcat(before, a, b);
    CompletedConcat(before, a, b);
  }

  /** One more operation that did not raise. */
  lemma FollowsStep(before: Db, run: seq<Op>, op: Op)
    requires Completed(before, run) && (op.UpsertVm? ==> StepOf(Run(before, run), op).Done?)
    ensures Completed(before, run + [op]) && Run(before, run + [op]) == Exec(Run(before, run), op)
  {
    CompletedOneMore(before, run, op);
    RunOneMore(before, run, op);
  }

  lemma PutsOneMore(run: seq<Op>, known: set<KnownVm>, k: KnownVm)
    requires PutsOf(run, known) && Get(k.data, "platform_vm_id") == Text(k.id)
    ensures PutsOf(run + [k.Put()], known + {k})
  {
  }

  /** The dictionary of seen ids, one set per host. */
  ghost predicate SeenIs(seen: map<nat, set<string>>, hosts: set<nat>, reports: seq<Report>) {
    seen.Keys == hosts && forall h: nat :: h in hosts ==> seen[h] == SeenOn(reports, h)
  }

  lemma SeenOneMore(seen: map<nat, set<string>>, hosts: set<nat>, reports: seq<Report>, r: Report)
    requires SeenIs(seen, hosts, reports) && (r.host != None ==> r.host.value in hosts)
    ensures SeenIs(if r.host == None then seen
      else seen[r.host.value := seen[r.host.value] + {r.id}], hosts, reports + [r])
  {
    KnownOneMore(reports, r);
  }

  lemma NothingSeen(hosts: set<nat>)
    ensures SeenIs(map h | h in hosts :: {}, hosts, []) && PutsOf([], Known([]))
  {
  }

  /** Upsert one VM on its host, extending the run by one operation. */
  method UpsertOne(engine: SyncEngine, stats: SyncStats, k: KnownVm, ghost before: Db, ghost ops: seq<Op>,
                   ghost run: seq<Op>)
    returns (ok: bool)
    requires Follows(engine, before, ops, run)
    requires OnlyUpdates(k.Put()) && OpKey(k.Put()) == SingleKey(Text(k.id))
    modifies engine, stats`counts
    ensures engine.Valid() && SameKeys(before, engine.State())
    ensures stats.counts.created == old(stats.counts.created)
    ensures ok ==> Follows(engine, before, ops, run + [k.Put()])
    ensures ok ==> stats.counts.Total() == old(stats.counts.Total()) + 1
    ensures KeysUnique(before) ==> (ok <==> HasRow(before, Vm, SingleKey(Text(k.id))))
  {
    hide Exec, StepOf, Run, KeysUnique, SameKeys, OnlyUpdates, HasRow, WellFormed;
    ghost var db := engine.State();
    ValidIsWellFormed(engine);
    if KeysUnique(before) {
      SucceedsIffRowBefore(before, db, k.Put());
    }
    NeverCreates(db, k.Put());
    NeverTalliesCreated(stats.counts, db, k.Put());
    SameKeysTransitive(before, db, Exec(db, k.Put()));
    var ref;
    ok, ref := engine.UpsertVirtualMachine(k.host, k.data, k.at, stats);
    if ok {
      FollowsStep(before, run, k.Put());
    }
  }

  lemma ValidIsWellFormed(engine: SyncEngine)
    requires engine.Valid()
    ensures WellFormed(engine.State())
  {
    RunReplays(engine.origin, engine.ops);
  }

  lemma NeverTalliesCreated(counts: Counts, db: Db, op: Op)
    requires OnlyUpdates(op)
    ensures Tally(counts, StepOf(db, op)).created == counts.created
  {
    hide OnlyUpdates, Creatable, Nulls, Target;
    KindIsNotDevice(op);
    NeverCreatable(op);
    NeverCreates(db, op);
    TargetsOfKind(db, op);
    var s := Put(db, Target(db, op), KindOf(op), DataOf(op));
    if s.Done? {
      OnlyDevicesAreExtended(s.db, s.ref.id, op);
    }
  }

  /** The upsert loop.  A VM without a known host is counted as unchanged and skipped. */
  method UpsertReported(engine: SyncEngine, stats: SyncStats, hosts: set<nat>, reports: seq<Report>)
    returns (ok: bool, seen: map<nat, set<string>>, ghost run: seq<Op>)
    requires engine.Valid()
    requires forall r :: r in reports && r.host != None ==> r.host.value in hosts
    modifies engine, stats`counts
    ensures engine.Valid() && SameKeys(old(engine.State()), engine.State())
    ensures stats.counts.created == old(stats.counts.created)
    ensures ok ==> Follows(engine, old(engine.State()), old(engine.ops), run) && PutsOf(run, Known(reports))
    ensures ok ==> SeenIs(seen, hosts, reports)
    ensures ok ==> stats.counts.Total() == old(stats.counts.Total()) + |reports|
    ensures KeysUnique(old(engine.State())) ==> (ok <==> VmsHaveRows(old(engine.State()), reports))
  {
    hide Run, Exec, Completed, KeysUnique, SameKeys, HasRow, OnlyUpdates, OpKey, VmRow, Known, SeenOn, PutsOf;
    NothingSeen(hosts);
    ok, run := true, [];
    seen := map h | h in hosts :: {};
    FollowsNothing(engine.State());
    ghost var before, ops := engine.State(), engine.ops;
    for i := 0 to |reports|
      invariant Follows(engine, before, ops, run)
      invariant PutsOf(run, Known(reports[..i]))
      invariant SeenIs(seen, hosts, reports[..i])
      invariant stats.counts.created == old(stats.counts.created)
      invariant stats.counts.Total() == old(stats.counts.Total()) + i
      invariant KeysUnique(before) ==> VmsHaveRows(before, reports[..i])
    {
      var r := reports[i];
      assert r in reports;
      assert reports[..i + 1] == reports[..i] + [r];
      KnownOneMore(reports[..i], r);
      SeenOneMore(seen, hosts, reports[..i], r);
      if r.host == None {
        assert Known(reports[..i]) + {} == Known(reports[..i]);
        stats.Count(ItemUnchanged);
      } else {
        var k := KnownVm(r.host.value, r.id, ReportData(r), r.at);
        VmRowOnlyUpdates(k.host, r.id, r.status, r.specs, r.at);
        ok := UpsertOne(engine, stats, k, before, ops, run);
        if !ok {
          return;
        }
        PutsOneMore(run, Known(reports[..i]), k);
        run := run + [k.Put()];
        seen := seen[k.host := seen[k.host] + {r.id}];
      }
    }
    assert reports[..|reports|] == reports;
  }

  /** The tombstone loop over the hosts of this sync. */
  method SweepHosts(engine: SyncEngine, seen: map<nat, set<string>>) returns (ghost run: seq<Op>)
    requires engine.Valid()
    modifies engine
    ensures Follows(engine, old(engine.State()), old(engine.ops), run)
    ensures forall h :: h in seen ==> SweepVms(h, seen[h]) in run
    ensures forall op :: op in run ==> op.SweepVms? && op.host in seen && op.seenIds == seen[op.host]
  {
    hide Run, Exec, Completed, StepOf, SameKeys;
    run := [];
    ghost var before := engine.State();
    FollowsNothing(before);
    var todo := seen.Keys;
    while todo != {}
      invariant todo <= seen.Keys
      invariant Follows(engine, before, old(engine.ops), run)
      invariant forall h :: h in seen && h !in todo ==> SweepVms(h, seen[h]) in run
      invariant forall op :: op in run ==> op.SweepVms? && op.host in seen && op.seenIds == seen[op.host]
      decreases todo
    {
      var h :| h in todo;
      ghost var db := engine.State();
      SweepKeepsKeys(db, SweepVms(h, seen[h]));
      SameKeysTransitive(before, db, Exec(db, SweepVms(h, seen[h])));
      engine.MarkMissingVmsInactive(h, seen[h]);
      FollowsStep(before, run, SweepVms(h, seen[h]));
      run := run + [SweepVms(h, seen[h])];
      todo := todo - {h};
    }
  }

  /** Both loops.  They complete exactly when every VM that resolved has a row; then the run puts exactly
      the reports that resolved and sweeps exactly the given hosts, and counts every report once. */
  method ReconcileVms(engine: SyncEngine, stats: SyncStats, hosts: set<nat>, reports: seq<Report>)
    returns (ok: bool, ghost run: seq<Op>)
    requires engine.Valid()
    requires forall r :: r in reports && r.host != None ==> r.host.value in hosts
    modifies engine, stats`counts
    ensures engine.Valid() && SameKeys(old(engine.State()), engine.State())
    ensures stats.counts.created == old(stats.counts.created)
    ensures ok ==> Follows(engine, old(engine.State()), old(engine.ops), run) && Executes(run, hosts, Known(reports))
    ensures ok ==> forall op :: op in run ==> op.UpsertVm? || op.SweepVms?
    ensures ok ==> stats.counts.Total() == old(stats.counts.Total()) + |reports|
    ensures KeysUnique(old(engine.State())) ==> (ok <==> VmsHaveRows(old(engine.State()), reports))
  {
    hide Run, Exec, Completed, KeysUnique, SameKeys, VmsHaveRows;
    ghost var before, ops := engine.State(), engine.ops;
    var seen;
    ok, seen, run := UpsertReported(engine, stats, hosts, reports);
    if !ok {
      return;
    }
    ghost var mid := engine.State();
    ghost var sweeps := SweepHosts(engine, seen);
    SameKeysTransitive(before, mid, engine.State());
    SweepsFollowSeen(sweeps, seen, hosts, reports);
    PutsThenSweeps(run, sweeps, hosts, Known(reports));
    FollowsJoin(before, run, sweeps);
    run := run + sweeps;
  }

  lemma SweepsFollowSeen(sweeps: seq<Op>, seen: map<nat, set<string>>, hosts: set<nat>, reports: seq<Report>)
    requires SeenIs(seen, hosts, reports)
    requires forall h :: h in seen ==> SweepVms(h, seen[h]) in sweeps
    requires forall op :: op in sweeps ==> op.SweepVms? && op.host in seen && op.seenIds == seen[op.host]
    ensures SweepsOf(sweeps, hosts, Known(reports))
  {
    forall h: nat ensures SeenOn(reports, h) == IdsOn(Known(reports), h) { SeenIsIdsOn(reports, h); }
  }
}
