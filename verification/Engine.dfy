/** The sync engine itself: the tables as mutable fields, and the methods every integration calls. */
module Engine {
  import opened Wrappers
  import opened Values
  import opened Diffs
  import opened Store

  datatype SyncStatus = Success | Partial | Failed

  datatype SyncError = SyncError(entityType: string, entityId: string, message: string)

  /** The three counters of a sync run. */
  datatype Counts = Counts(created: nat, updated: nat, untouched: nat) {
    function Total(): nat { created + updated + untouched }

    function Plus(o: Outcome): Counts {
      match o
      case ItemCreated => this.(created := created + 1)
      case ItemUpdated => this.(updated := updated + 1)
      case ItemUnchanged => this.(untouched := untouched + 1)
    }
  }

  class SyncStats {
    var counts: Counts
    var errors: seq<SyncError>

    constructor ()
      ensures counts == Counts(0, 0, 0) && errors == []
    {
      counts := Counts(0, 0, 0);
      errors := [];
    }

    method Count(o: Outcome)
      modifies this`counts
      ensures counts == old(counts).Plus(o)
      ensures counts.created == old(counts.created) + if o == ItemCreated then 1 else 0
      ensures counts.updated == old(counts.updated) + if o == ItemUpdated then 1 else 0
      ensures counts.untouched == old(counts.untouched) + if o == ItemUnchanged then 1 else 0
    {
      counts := counts.Plus(o);
    }

    method AddError(entityType: string, entityId: string, message: string)
      modifies this`errors
      ensures errors == old(errors) + [SyncError(entityType, entityId, message)]
    {
      errors := errors + [SyncError(entityType, entityId, message)];
    }

    /** A run fails only when it had errors and wrote nothing. */
    function Status(): (s: SyncStatus)
      reads this
      ensures s == Success <==> errors == []
      ensures s == Failed <==> errors != [] && counts.created == 0 && counts.updated == 0
    {
      if errors != [] && counts.created + counts.updated == 0 then Failed
      else if errors != [] then Partial
      else Success
    }
  }

  /** Where an upsert may break for reasons outside the model: a failed query, flush or commit.  The model
      assumes that what the upsert had pending is then rolled back; the counters are not. */
  datatype Fault = NoFault | FailsBeforeCount | FailsAfterCount

  lemma RunOneMore(db: Db, ops: seq<Op>, op: Op)
    ensures Run(db, ops + [op]) == Exec(Run(db, ops), op)
  {
    assert (ops + [op])[..|ops|] == ops;
  }

  /** The merge with the columns of `todo` still to come. */
  function MergeRest(row: Row, data: Row, todo: set<Column>): Row {
    row + map c | c in data && c !in todo && Get(row, c) != data[c] :: data[c]
  }

  lemma MergeEnds(row: Row, data: Row)
    ensures MergeRest(row, data, data.Keys) == row && MergeRest(row, data, {}) == Merge(row, data)
  {
  }

  lemma MergeStep(row: Row, data: Row, todo: set<Column>, c: Column)
    requires c in todo
    ensures Get(MergeRest(row, data, todo), c) == Get(row, c)
    ensures MergeRest(row, data, todo - {c}) ==
      if c in data && Get(row, c) != data[c] then MergeRest(row, data, todo)[c := data[c]]
        else MergeRest(row, data, todo)
  {
  }

  lemma AllDone(row: Row, data: Row, todo: set<Column>)
    requires data.Keys <= todo
    ensures MergeRest(row, data, todo) == row
  {
  }

  lemma SweepNothing(db: Db, status: string, diff: Diff)
    ensures Sweep(db, {}, status, diff) == db
  {
  }

  lemma SweepStep(db: Db, done: set<Ref>, r: Ref, status: string, diff: Diff)
    requires r !in done && r in db.rows
    ensures
      var mid := Sweep(db, done, status, diff);
      r in mid.rows
      && Sweep(db, done + {r}, status, diff) ==
           mid.(rows := mid.rows[r := mid.rows[r]["status" := Text(status)]],
                audit := Append(mid.audit, r, Update(diff)))
  {
  }

  /** The counters after a step, which may have been counted before it raised. */
  function Tally(counts: Counts, s: Step): Counts {
    match s
    case Done(_, _, outcome) => counts.Plus(outcome)
    case Raised(Some(outcome)) => counts.Plus(outcome)
    case Raised(None) => counts
  }

  /** What an upsert method reports about its one step. */
  ghost predicate Stepped(before: Db, op: Op, after: Db, counts: Counts, counts': Counts, ok: bool, ref: Ref)
    requires IsUpsert(op)
  {
    var s := StepOf(before, op);
    && (ok <==> s.Done?)
    && after == Exec(before, op)
    && (ok ==> ref == s.ref)
    && counts' == Tally(counts, s)
  }

  /** Without a column to tell of, an overwrite leaves the alerts alone. */
  lemma NoAlertNeeded(alerts: Alerting, device: nat)
    ensures forall row, diff :: Alertable(diff) == map[] ==> RaiseOverwrite(alerts, device, row, diff) == Some(alerts)
  {
  }

  class SyncEngine {
    var rows: map<Ref, Row>
    var servers: map<nat, Row>
    var networks: map<nat, Row>
    var audit: map<Ref, seq<Entry>>
    var alerts: Alerting
    var nextId: nat

    // The tables this engine started from, and every operation since.
    ghost const origin: Db
    ghost var ops: seq<Op>

    ghost function State(): Db
      reads this
    {
      Db(rows, servers, networks, audit, alerts, nextId)
    }

    /** The tables are what the recorded operations make of the original ones. */
    ghost predicate Valid()
      reads this
    {
      WellFormed(origin) && State() == Run(origin, ops)
    }

    constructor (db: Db)
      requires WellFormed(db)
      ensures Valid() && State() == db && origin == db && ops == []
    {
      rows, servers, networks := db.rows, db.servers, db.networks;
      audit, alerts, nextId := db.audit, db.alerts, db.nextId;
      origin := db;
      ops := [];
    }

    /** `scalar_one_or_none`. */
    method ScalarOneOrNone<T(==, !new)>(sel: set<T>) returns (ok: bool, found: Option<T>)
      ensures ok <==> AtMostOne(sel)
      ensures ok ==> found == if sel == {} then None else Some(One(sel))
    {
      if sel == {} {
        return true, None;
      }
      var x :| x in sel;
      if sel == {x} {
        return true, Some(x);
      }
      return false, None;
    }

    /** The `setattr` loop: assign what differs, and say whether anything did.  An attribute the table does
        not declare is assigned too, and counts, but is never stored. */
    static method SetAttributes(kind: Kind, row: Row, data: Row) returns (row': Row, changed: bool)
      ensures row' == Merge(row, Kept(kind, data))
      ensures changed <==> Changes(row, data)
    {
      hide Declares, Merge, MergeRest;
      MergeEnds(row, Kept(kind, data));
      AllDone(row, Kept(kind, data), data.Keys);
      row', changed := row, false;
      var todo := data.Keys;
      while todo != {}
        invariant todo <= data.Keys
        invariant row' == MergeRest(row, Kept(kind, data), todo)
        invariant changed ==> Changes(row, data)
        invariant !changed ==> forall c :: c in data && c !in todo ==> Get(row, c) == data[c]
        decreases todo
      {
        var c :| c in todo;
        MergeStep(row, Kept(kind, data), todo, c);
        todo := todo - {c};
        if Get(row', c) != data[c] {
          if Declares(kind, c) {
            row' := row'[c := data[c]];
          }
          changed := true;
        }
      }
    }

    /** `_generate_overwrite_alert`: one open alert per device, its message replaced each time. */
    method GenerateOverwriteAlert(device: nat, row: Row, diff: Diff) returns (ok: bool)
      modifies this`alerts
      ensures ok <==> RaiseOverwrite(old(alerts), device, row, diff) != None
      ensures alerts == if ok then RaiseOverwrite(old(alerts), device, row, diff).value else old(alerts)
    {
      var changes := Alertable(diff);
      if changes == map[] {
        return true;
      }
      var message := Overwrote(Get(row, "name"), Get(row, "serial_number"), changes);
      var found;
      ok, found := ScalarOneOrNone(OpenOverwrites(alerts, device));
      if !ok {
        return;
      }
      match found {
        case Some(i) => alerts := alerts[i := Some(alerts[i].value.(message := message))];
        case None =>
          alerts := alerts + [Some(Alert(Some("device"), Some(device), OtherAlert, Warning, message, None))];
      }
    }

    /** The model's constructor takes declared attributes only, and the flush needs the required ones. */
    method InsertRow(kind: Kind, data: Row, stats: SyncStats) returns (ok: bool, ref: Ref)
      modifies this`rows, this`audit, this`nextId, stats`counts
      ensures
        var s := Insert(old(State()), kind, data);
        && (ok <==> s.Done?) && stats.counts == Tally(old(stats.counts), s)
        && (ok ==> State() == s.db && ref == s.ref)
        && (!ok ==> State() == old(State()))
    {
      hide Creatable, WithStatus, ColumnDefaults, SafeDict, Append;
      ref := Ref(kind, nextId);
      var full := WithStatus(kind, data);
      ok := Creatable(kind, full);
      if !ok {
        return;
      }
      rows := rows[ref := ColumnDefaults(kind) + full];
      nextId := nextId + 1;
      audit := Append(audit, ref, Create(SafeDict(full)));
      stats.Count(ItemCreated);
    }

    method UpdateRow(ref: Ref, data: Row, stats: SyncStats) returns (ok: bool)
      requires ref in rows
      modifies this`rows, this`audit, this`alerts, stats`counts
      ensures
        var s := Overwrite(old(State()), ref, data);
        && (ok <==> s.Done?) && stats.counts == Tally(old(stats.counts), s)
        && (ok ==> State() == s.db && ref == s.ref)
        && (!ok ==> State() == old(State()))
    {
      NoAlertNeeded(alerts, ref.id);
      hide Nulls, Changes, Merge, Kept, DiffOf, SafeDict, Alertable, RaiseOverwrite, Append;
      ok := true;
      var row, changed := SetAttributes(ref.kind, rows[ref], data);
      if !changed {
        stats.Count(ItemUnchanged);
        return;
      }
      var diff := ComputeDiff(SafeDict(rows[ref]), SafeDict(row));
      var refused := Nulls(ref.kind, rows[ref], data);
      if ref.kind == Device && Alertable(diff) != map[] && refused {
        return false;         // the alert's query flushes the row
      }
      if ref.kind == Device {
        ok := GenerateOverwriteAlert(ref.id, row, diff);
      }
      if ok {
        stats.Count(ItemUpdated);
        ok := !refused;       // the commit
      }
      if ok {
        rows := rows[ref := row];
        audit := Append(audit, ref, Update(diff));
      }
    }

    /** What all upserts share once their lookup has selected `sel`. */
    method PutRow(sel: set<Ref>, kind: Kind, data: Row, stats: SyncStats) returns (ok: bool, ref: Ref)
      requires sel <= rows.Keys
      modifies this`rows, this`audit, this`alerts, this`nextId, stats`counts
      ensures
        var s := Put(old(State()), sel, kind, data);
        && (ok <==> s.Done?) && stats.counts == Tally(old(stats.counts), s)
        && (ok ==> State() == s.db && ref == s.ref)
        && (!ok ==> State() == old(State()))
    {
      hide Overwrite, Insert;
      ref := Ref(kind, nextId);
      var existing;
      ok, existing := ScalarOneOrNone(sel);
      if !ok {
        return;
      }
      match existing {
        case None => ok, ref := InsertRow(kind, data, stats);
        case Some(r) =>
          ref := r;
          ok := UpdateRow(r, data, stats);
      }
    }

    // ---------- upserts ----------

    /** What the device upserts share: the row, then the extension rows, and a rollback if these fail. */
    method PutDevice(sel: set<Ref>, data: Row, stats: SyncStats, op: Op) returns (ok: bool, ref: Ref)
      requires sel <= rows.Keys && IsUpsert(op)
      modifies this`rows, this`servers, this`networks, this`audit, this`alerts, this`nextId, stats`counts
      ensures
        var s := Put(old(State()), sel, Device, data);
        var fits := s.Done? && ExtensionFits(s.db, s.ref.id, op);
        && (ok <==> fits) && stats.counts == Tally(old(stats.counts), s)
        && (ok ==> ref == s.ref && State() == Extended(s.db, s.ref.id, op))
        && (!ok ==> State() == old(State()))
    {
      hide Put, ServerOf, NetworkOf, ServerColumns, NetworkColumns;
      var rows0, audit0, alerts0, nextId0 := rows, audit, alerts, nextId;
      ok, ref := PutRow(sel, Device, data, stats);
      if !ok {
        return;
      }
      var server, network := ServerOf(op), NetworkOf(op);
      if (server != map[] && !Fits(servers, ref.id, server, ServerColumns()))
         || (network != map[] && !Fits(networks, ref.id, network, NetworkColumns())) {
        rows, audit, alerts, nextId := rows0, audit0, alerts0, nextId0;
        return false, ref;
      }
      if server != map[] {
        servers := Extend(servers, ref.id, server, ServerColumns());
      }
      if network != map[] {
        networks := Extend(networks, ref.id, network, NetworkColumns());
      }
    }

    method UpsertDeviceBySerial(data: Row, server: Row, at: string, stats: SyncStats) returns (ok: bool, ref: Ref)
      requires Valid()
      modifies this, stats`counts
      ensures Valid() && ops == old(ops) + [UpsertBySerial(data, server, at)]
      ensures Stepped(old(State()), UpsertBySerial(data, server, at), State(), old(stats.counts), stats.counts, ok, ref)
    {
      var op := UpsertBySerial(data, server, at);
      RunOneMore(origin, ops, op);
      hide Run, Put, ExtensionFits, Extended;
      var serial := Get(data, "serial_number");
      var sel := WhereTruthy(rows, Device, "serial_number", serial);
      ok, ref := PutDevice(sel, data["last_seen_at" := Stamp(at)], stats, op);
      ops := ops + [op];
    }

    method UpsertDeviceByXclarityUuid(uuid: string, data: Row, server: Row, at: string, stats: SyncStats)
      returns (ok: bool, ref: Ref)
      requires Valid()
      modifies this, stats`counts
      ensures Valid() && ops == old(ops) + [UpsertByUuid(uuid, data, server, at)]
      ensures Stepped(old(State()), UpsertByUuid(uuid, data, server, at), State(), old(stats.counts), stats.counts,
        ok, ref)
    {
      var op := UpsertByUuid(uuid, data, server, at);
      RunOneMore(origin, ops, op);
      hide Run, Put, ExtensionFits, Extended;
      var sel := WhereUuid(Db(rows, servers, networks, audit, alerts, nextId), uuid);
      if sel == {} {
        sel := WhereTruthy(rows, Device, "serial_number", Get(data, "serial_number"));
      }
      ok, ref := PutDevice(sel, data["last_seen_at" := Stamp(at)], stats, op);
      ops := ops + [op];
    }

    /** The same upsert when its extension write or its commit fails: the counter was already
        incremented, and the tables are taken to be rolled back. */
    method FailAfterCounting(uuid: string, data: Row, at: string, stats: SyncStats)
      requires Valid()
      modifies this, stats`counts
      ensures Valid() && ops == old(ops) && State() == old(State())
      ensures old(stats.counts.Total()) <= stats.counts.Total() <= old(stats.counts.Total()) + 1
    {
      var sel := WhereUuid(Db(rows, servers, networks, audit, alerts, nextId), uuid);
      if sel == {} {
        sel := WhereTruthy(rows, Device, "serial_number", Get(data, "serial_number"));
      }
      hide Put, Run;
      var rows0, audit0, alerts0, nextId0 := rows, audit, alerts, nextId;
      var _, _ := PutRow(sel, Device, data["last_seen_at" := Stamp(at)], stats);
      rows, audit, alerts, nextId := rows0, audit0, alerts0, nextId0;
    }

    method UpsertNetworkDevice(field: Column, value: Value, data: Row, network: Row, at: string, stats: SyncStats)
      returns (ok: bool, ref: Ref)
      requires Valid()
      modifies this, stats`counts
      ensures Valid() && ops == old(ops) + [UpsertNetwork(field, value, data, network, at)]
      ensures Stepped(old(State()), UpsertNetwork(field, value, data, network, at), State(), old(stats.counts),
        stats.counts, ok, ref)
    {
      var op := UpsertNetwork(field, value, data, network, at);
      RunOneMore(origin, ops, op);
      hide Run, Put, ExtensionFits, Extended;
      ok, ref := PutDevice(Where(rows, Device, map[field := value]), data["last_seen_at" := Stamp(at)], stats, op);
      ops := ops + [op];
    }

    method UpsertVirtCluster(data: Row, stats: SyncStats) returns (ok: bool, ref: Ref)
      requires Valid()
      modifies this, stats`counts
      ensures Valid() && ops == old(ops) + [UpsertCluster(data)]
      ensures Stepped(old(State()), UpsertCluster(data), State(), old(stats.counts), stats.counts, ok, ref)
    {
      ghost var op := UpsertCluster(data);
      RunOneMore(origin, ops, op);
      hide Run, Put;
      var sel := Where(rows, Cluster, map["name" := Get(data, "name"), "platform" := Get(data, "platform")]);
      ok, ref := PutRow(sel, Cluster, data, stats);
      ops := ops + [op];
    }

    method UpsertVirtHost(cluster: nat, data: Row, at: string, stats: SyncStats) returns (ok: bool, ref: Ref)
      requires Valid()
      modifies this, stats`counts
      ensures Valid() && ops == old(ops) + [UpsertHost(cluster, data, at)]
      ensures Stepped(old(State()), UpsertHost(cluster, data, at), State(), old(stats.counts), stats.counts, ok, ref)
    {
      ghost var op := UpsertHost(cluster, data, at);
      RunOneMore(origin, ops, op);
      hide Run, Put;
      var sel := WhereTruthy(rows, Host, "platform_uuid", Get(data, "platform_uuid"));
      ok, ref := PutRow(sel, Host, data["last_synced_at" := Stamp(at)]["cluster_id" := Key(cluster)], stats);
      ops := ops + [op];
    }

    method UpsertVirtualMachine(host: nat, data: Row, at: string, stats: SyncStats) returns (ok: bool, ref: Ref)
      requires Valid()
      modifies this, stats`counts
      ensures Valid() && ops == old(ops) + [UpsertVm(host, data, at)]
      ensures Stepped(old(State()), UpsertVm(host, data, at), State(), old(stats.counts), stats.counts, ok, ref)
    {
      ghost var op := UpsertVm(host, data, at);
      RunOneMore(origin, ops, op);
      hide Run, Put;
      var sel := WhereTruthy(rows, Vm, "platform_vm_id", Get(data, "platform_vm_id"));
      var full := data["last_seen_at" := Stamp(at)]["last_synced_at" := Stamp(at)]["host_id" := Key(host)];
      ok, ref := PutRow(sel, Vm, full, stats);
      ops := ops + [op];
    }

    method UpsertStore(cluster: nat, data: Row, stats: SyncStats) returns (ok: bool, ref: Ref)
      requires Valid()
      modifies this, stats`counts
      ensures Valid() && ops == old(ops) + [UpsertDatastore(cluster, data)]
      ensures Stepped(old(State()), UpsertDatastore(cluster, data), State(), old(stats.counts), stats.counts, ok, ref)
    {
      ghost var op := UpsertDatastore(cluster, data);
      RunOneMore(origin, ops, op);
      hide Run, Put;
      var sel := Where(rows, Datastore, map["cluster_id" := Key(cluster), "name" := Get(data, "name")]);
      ok, ref := PutRow(sel, Datastore, data["cluster_id" := Key(cluster)], stats);
      ops := ops + [op];
    }

    // ---------- tombstones ----------

    method TombstoneOne(r: Ref, status: string, diff: Diff)
      requires r in rows
      modifies this`rows, this`audit
      ensures State() == old(State()).(rows := old(rows)[r := old(rows)[r]["status" := Text(status)]],
                                       audit := Append(old(audit), r, Update(diff)))
    {
      rows := rows[r := rows[r]["status" := Text(status)]];
      audit := Append(audit, r, Update(diff));
    }

    /** The loop over the stale rows: set the status, write one entry each. */
    method TombstoneAll(stale: set<Ref>, status: string, diff: Diff)
      requires stale <= rows.Keys
      modifies this`rows, this`audit
      ensures State() == Sweep(old(State()), stale, status, diff)
    {
      ghost var before, done := State(), {};
      SweepNothing(before, status, diff);
      var todo := stale;
      while todo != {}
        invariant done !! todo && done + todo == stale
        invariant State() == Sweep(before, done, status, diff)
        decreases todo
      {
        var r :| r in todo;
        SweepStep(before, done, r, status, diff);
        TombstoneOne(r, status, diff);
        todo, done := todo - {r}, done + {r};
      }
      assert done == stale;
    }

    method MarkMissingVmsInactive(host: nat, seen: set<string>)
      requires Valid()
      modifies this
      ensures Valid() && ops == old(ops) + [SweepVms(host, seen)] && State() == Exec(old(State()), SweepVms(host, seen))
    {
      ghost var op := SweepVms(host, seen);
      RunOneMore(origin, ops, op);
      hide Run, Put;
      TombstoneAll(StaleVms(rows, host, seen), "stopped", VmTombstone());
      ops := ops + [op];
    }

    method MarkMissingDevicesInactive(seen: set<string>)
      requires Valid()
      modifies this
      ensures Valid() && ops == old(ops) + [SweepSerials(seen)] && State() == Exec(old(State()), SweepSerials(seen))
    {
      ghost var op := SweepSerials(seen);
      RunOneMore(origin, ops, op);
      hide Run, Put;
      TombstoneAll(StaleSerials(rows, seen), "inactive", DeviceTombstone());
      ops := ops + [op];
    }

    method MarkMissingXclarityDevicesInactive(seen: set<string>)
      requires Valid()
      modifies this
      ensures Valid() && ops == old(ops) + [SweepUuids(seen)] && State() == Exec(old(State()), SweepUuids(seen))
    {
      ghost var op := SweepUuids(seen);
      RunOneMore(origin, ops, op);
      hide Run, Put;
      TombstoneAll(StaleUuids(Db(rows, servers, networks, audit, alerts, nextId), seen), "inactive", DeviceTombstone());
      ops := ops + [op];
    }

    // ---------- the alert API on the same table ----------

    method UpsertAlert(entity: Option<string>, entityId: Option<nat>, alertType: AlertType, severity: Severity,
                       text: string)
      returns (ok: bool)
      requires Valid()
      modifies this
      ensures Valid() && ops == old(ops) + [RaiseAlert(entity, entityId, alertType, severity, text)]
      ensures State() == Exec(old(State()), RaiseAlert(entity, entityId, alertType, severity, text))
      ensures ok <==> AtMostOne(Triples(old(alerts), entity, entityId, alertType))
    {
      ghost var op := RaiseAlert(entity, entityId, alertType, severity, text);
      RunOneMore(origin, ops, op);
      hide Run, Put;
      ops := ops + [op];
      var existing;
      ok, existing := ScalarOneOrNone(Triples(alerts, entity, entityId, alertType));
      if !ok {
        return;
      }
      match existing {
        case Some(i) =>
          var a := alerts[i].value.(severity := severity, message := Plain(text), acknowledgedBy := None);
          alerts := alerts[i := Some(a)];
        case None =>
          alerts := alerts + [Some(Alert(entity, entityId, alertType, severity, Plain(text), None))];
      }
    }

    method AcknowledgeAlert(id: nat, user: string) returns (found: bool)
      requires Valid()
      modifies this
      ensures Valid() && ops == old(ops) + [Acknowledge(id, user)]
      ensures State() == Exec(old(State()), Acknowledge(id, user))
      ensures found <==> HasAlert(old(alerts), id)
    {
      ghost var op := Acknowledge(id, user);
      RunOneMore(origin, ops, op);
      hide Run, Put;
      ops := ops + [op];
      found := HasAlert(alerts, id);
      if found {
        alerts := alerts[id := Some(alerts[id].value.(acknowledgedBy := Some(user)))];
      }
    }

    /** The API's partial update. */
    method UpdateAlert(id: nat, severity: Option<Severity>, text: Option<string>) returns (found: bool)
      requires Valid()
      modifies this
      ensures Valid() && ops == old(ops) + [EditAlert(id, severity, text)]
      ensures State() == Exec(old(State()), EditAlert(id, severity, text))
      ensures found <==> HasAlert(old(alerts), id)
    {
      ghost var op := EditAlert(id, severity, text);
      RunOneMore(origin, ops, op);
      hide Run, Put;
      ops := ops + [op];
      found := HasAlert(alerts, id);
      if !found {
        return;
      }
      var a := alerts[id].value;
      if severity != None {
        a := a.(severity := severity.value);
      }
      if text != None {
        a := a.(message := Plain(text.value));
      }
      alerts := alerts[id := Some(a)];
    }

    /** The API's deletion, for administrators. */
    method RemoveAlert(id: nat) returns (found: bool)
      requires Valid()
      modifies this
      ensures Valid() && ops == old(ops) + [DeleteAlert(id)] && State() == Exec(old(State()), DeleteAlert(id))
      ensures found <==> HasAlert(old(alerts), id)
    {
      ghost var op := DeleteAlert(id);
      RunOneMore(origin, ops, op);
      hide Run, Put;
      ops := ops + [op];
      found := HasAlert(alerts, id);
      if found {
        alerts := alerts[id := None];
      }
    }
  }
}
