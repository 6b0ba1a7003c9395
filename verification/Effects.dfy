/** What each operation does to the tables, read off column by column. */
module Effects {
  import opened Wrappers
  import opened Values
  import opened Diffs
  import opened Store
  import opened Replay
  import opened Keys
  import opened Alerts

  // ---------- which rows a lookup selects ----------

  /** The row is of this kind and holds the text in this column. */
  predicate HasText(db: Db, r: Ref, kind: Kind, c: Column, s: string) {
    r in db.rows && r.kind == kind && c in db.rows[r] && db.rows[r][c] == Text(s)
  }

  /** A server extension bound to the uuid, of an existing device. */
  predicate IsBound(db: Db, r: Ref, uuid: string) {
    && r in db.rows && r.kind == Device && r.id in db.servers
    && "xclarity_uuid" in db.servers[r.id] && db.servers[r.id]["xclarity_uuid"] == Text(uuid)
  }

  lemma OneColumn(row: Row, c: Column, v: Value)
    ensures Matches(row, map[c := v]) <==> Get(row, c) == v
  {
    assert c in map[c := v];
  }

  /** A supplied text selects the rows that hold it; an empty or missing one selects none. */
  lemma TextLookups(db: Db, op: Op, c: Column, s: string, r: Ref)
    requires op.UpsertBySerial? || op.UpsertHost? || op.UpsertVm?
    requires c == if op.UpsertBySerial? then "serial_number"
                  else if op.UpsertHost? then "platform_uuid" else "platform_vm_id"
    ensures c in op.data && op.data[c] == Text(s) && s != "" ==>
      (r in Target(db, op) <==>
        HasText(db, r, if op.UpsertBySerial? then Device else if op.UpsertHost? then Host else Vm, c, s))
    ensures c !in op.data || op.data[c] == Text("") || op.data[c] == Null ==> r !in Target(db, op)
  {
    if r in db.rows {
      OneColumn(db.rows[r], c, Text(s));
    }
  }

  lemma PairLookups(db: Db, op: Op, r: Ref)
    requires op.UpsertCluster? || op.UpsertDatastore?
    ensures op.UpsertCluster? ==>
      (r in Target(db, op) <==>
        && r in db.rows && r.kind == Cluster
        && Get(db.rows[r], "name") == Get(op.data, "name") && Get(db.rows[r], "platform") == Get(op.data, "platform"))
    ensures op.UpsertDatastore? ==>
      (r in Target(db, op) <==>
        && r in db.rows && r.kind == Datastore
        && Get(db.rows[r], "cluster_id") == Key(op.cluster) && Get(db.rows[r], "name") == Get(op.data, "name"))
  {
    PairMatches("name", Get(op.data, "name"), "platform", Get(op.data, "platform"));
    if op.UpsertDatastore? {
      PairMatches("cluster_id", Key(op.cluster), "name", Get(op.data, "name"));
    }
  }

  lemma NetworkLookup(db: Db, op: Op, r: Ref)
    requires op.UpsertNetwork?
    ensures r in Target(db, op) <==> r in db.rows && r.kind == Device && Get(db.rows[r], op.dedupField) == op.dedupValue
  {
  }

  /** The xClarity lookup: by uuid, and only when no device is bound to it, by serial number. */
  lemma UuidLookup(db: Db, op: Op, s: string, r: Ref)
    requires op.UpsertByUuid?
    ensures (exists d :: IsBound(db, d, op.uuid)) ==> (r in Target(db, op) <==> IsBound(db, r, op.uuid))
    ensures (forall d :: !IsBound(db, d, op.uuid)) ==>
      && ("serial_number" in op.data && op.data["serial_number"] == Text(s) && s != "" ==>
            (r in Target(db, op) <==> HasText(db, r, Device, "serial_number", s)))
      && ("serial_number" !in op.data || op.data["serial_number"] in {Null, Text("")} ==> r !in Target(db, op))
  {
    if r in db.rows {
      OneColumn(db.rows[r], "serial_number", Text(s));
    }
    if d :| IsBound(db, d, op.uuid) {
      assert d in WhereUuid(db, op.uuid);
    }
    forall d | d in WhereUuid(db, op.uuid) ensures IsBound(db, d, op.uuid) {
    }
  }

  // ---------- the written row ----------

  /** The columns the upsert sets itself. */
  predicate SetsItself(op: Op, c: Column)
    requires IsUpsert(op)
  {
    match op
    case UpsertHost(_, _, _) => c in {"last_synced_at", "cluster_id"}
    case UpsertVm(_, _, _) => c in {"last_seen_at", "last_synced_at", "host_id"}
    case UpsertDatastore(_, _) => c == "cluster_id"
    case UpsertCluster(_) => false
    case _ => c == "last_seen_at"
  }

  /** What a created row reads where nothing was supplied. */
  function Fresh(kind: Kind, c: Column): Value {
    if c == "status" && kind == Device then Text("active")
    else if c == "status" && kind == Vm then Text("stopped")
    else if c == "ha_enabled" && kind == Cluster then Flag(false)
    else if c == "drs_enabled" && kind == Cluster then Flag(false)
    else if c == "is_in_maintenance" && kind == Host then Flag(false)
    else if c == "is_template" && kind == Vm then Flag(false)
    else Null
  }

  lemma FreshReads(kind: Kind, data: Row, c: Column)
    ensures Get(ColumnDefaults(kind) + WithStatus(kind, data), c) == if c in data then data[c] else Fresh(kind, c)
  {
  }

  lemma StoredReads(op: Op, c: Column)
    requires IsUpsert(op)
    ensures c in Stored(op) <==> c in DataOf(op) && Declares(KindOf(op), c)
    ensures c in Stored(op) ==> Stored(op)[c] == DataOf(op)[c]
    ensures c in DataOf(op) <==> c in op.data || SetsItself(op, c)
    ensures !SetsItself(op, c) && c in op.data ==> DataOf(op)[c] == op.data[c]
  {
    hide Declares;
  }

  /** The row an upsert leaves: each supplied column its table declares reads the supplied value, its own
      columns the time, cluster or host of the call, and every other column what it read before, or what a
      new row starts with.  No other row changes. */
  lemma UpsertStores(db: Db, op: Op, c: Column)
    requires IsUpsert(op) && StepOf(db, op).Done?
    ensures
      var s, kind := StepOf(db, op), KindOf(op);
      && s.ref in s.db.rows && s.db.rows == db.rows[s.ref := s.db.rows[s.ref]]
      && (c in op.data && !SetsItself(op, c) && Declares(kind, c) ==> Get(s.db.rows[s.ref], c) == op.data[c])
      && (c !in op.data && !SetsItself(op, c) ==>
            Get(s.db.rows[s.ref], c) == if s.ref in db.rows && s.outcome != ItemCreated then Get(db.rows[s.ref], c)
                                        else Fresh(kind, c))
      && (s.outcome == ItemCreated <==> Target(db, op) == {})
      && (s.outcome != ItemCreated ==> s.ref in Target(db, op) && s.ref in db.rows)
      && (s.outcome == ItemCreated ==> s.ref == Ref(kind, db.nextId))
  {
    hide StepOf, Exec, Target, Declares, Merge, WithStatus, ColumnDefaults, Stored, SetsItself, DataOf, Fresh;
    UpsertWritesOne(db, op);
    StoredReads(op, c);
    if Target(db, op) == {} {
      FreshReads(KindOf(op), Stored(op), c);
    } else {
      MergeReads(db.rows[One(Target(db, op))], Stored(op), c);
    }
  }

  /** The row a step wrote. */
  ghost function RowAfter(s: Step): Row
    requires s.Done?
  {
    if s.ref in s.db.rows then s.db.rows[s.ref] else map[]
  }

  /** The columns an upsert sets itself are declared, and read as follows. */
  lemma OwnColumnsRead(db: Db, op: Op)
    requires IsUpsert(op) && StepOf(db, op).Done?
    ensures
      var row := RowAfter(StepOf(db, op));
      && (KindOf(op) == Device ==> Get(row, "last_seen_at") == Stamp(op.at))
      && (op.UpsertHost? ==> Get(row, "last_synced_at") == Stamp(op.at) && Get(row, "cluster_id") == Key(op.cluster))
      && (op.UpsertVm? ==>
            && Get(row, "last_seen_at") == Get(row, "last_synced_at") == Stamp(op.at)
            && Get(row, "host_id") == Key(op.host))
      && (op.UpsertDatastore? ==> Get(row, "cluster_id") == Key(op.cluster))
  {
    hide StepOf, Stored, Get, RowAfter;
    OwnColumnsStored(op);
    StoredIsRead(db, op, "last_seen_at");
    StoredIsRead(db, op, "last_synced_at");
    StoredIsRead(db, op, "cluster_id");
    StoredIsRead(db, op, "host_id");
  }

  lemma StoredIsRead(db: Db, op: Op, c: Column)
    requires IsUpsert(op) && StepOf(db, op).Done?
    ensures c in Stored(op) ==> Get(RowAfter(StepOf(db, op)), c) == Stored(op)[c]
  {
    hide StepOf, Exec, Target, Merge, WithStatus, ColumnDefaults, Stored;
    UpsertWritesOne(db, op);
    if Target(db, op) == {} {
      FreshReads(KindOf(op), Stored(op), c);
    } else {
      MergeReads(db.rows[One(Target(db, op))], Stored(op), c);
    }
  }

  lemma OwnColumnsStored(op: Op)
    requires IsUpsert(op)
    ensures KindOf(op) == Device ==> "last_seen_at" in Stored(op) && Stored(op)["last_seen_at"] == Stamp(op.at)
    ensures op.UpsertHost? ==>
      && "last_synced_at" in Stored(op) && Stored(op)["last_synced_at"] == Stamp(op.at)
      && "cluster_id" in Stored(op) && Stored(op)["cluster_id"] == Key(op.cluster)
    ensures op.UpsertVm? ==>
      && "last_seen_at" in Stored(op) && Stored(op)["last_seen_at"] == Stamp(op.at)
      && "last_synced_at" in Stored(op) && Stored(op)["last_synced_at"] == Stamp(op.at)
      && "host_id" in Stored(op) && Stored(op)["host_id"] == Key(op.host)
    ensures op.UpsertDatastore? ==> "cluster_id" in Stored(op) && Stored(op)["cluster_id"] == Key(op.cluster)
  {
  }

  // ---------- extension rows ----------

  /** The other extension rows are the same. */
  ghost predicate OthersSame(before: map<nat, Row>, after: map<nat, Row>, id: nat) {
    forall d: nat :: d != id ==> (d in after <==> d in before) && (d in before ==> after[d] == before[d])
  }

  /** What an extension row reads after `ext` was written to it. */
  lemma ExtendReads(table: map<nat, Row>, id: nat, ext: Row, declared: set<Column>, c: Column)
    ensures
      var after := Extend(table, id, ext, declared);
      && id in after && OthersSame(table, after, id)
      && (c in ext && c in declared ==> Get(after[id], c) == ext[c])
      && (c !in ext || c !in declared ==> Get(after[id], c) == if id in table then Get(table[id], c) else Null)
  {
  }

  /** The server extension after an upsert: every supplied declared column reads the supplied value, the
      xClarity upsert's uuid column the uuid, every other column what it read before; and no other device's
      extension changes.  Without server data nothing does. */
  lemma ServersRead(db: Db, op: Op, c: Column)
    requires IsUpsert(op) && StepOf(db, op).Done?
    ensures
      var s := StepOf(db, op);
      var id := s.ref.id;
      && OthersSame(db.servers, s.db.servers, id)
      && (op.UpsertByUuid? || (op.UpsertBySerial? && op.server != map[]) ==>
            && id in s.db.servers
            && (op.UpsertByUuid? ==> Get(s.db.servers[id], "xclarity_uuid") == Text(op.uuid))
            && (!(op.UpsertByUuid? && c == "xclarity_uuid") ==>
                  Get(s.db.servers[id], c) ==
                    if c in op.server && c in ServerColumns() then op.server[c]
                    else if id in db.servers then Get(db.servers[id], c) else Null))
      && (!op.UpsertByUuid? && !(op.UpsertBySerial? && op.server != map[]) ==> s.db.servers == db.servers)
  {
    hide StepOf, Exec, Target, Stored, WrittenRow, Extend, ServerColumns;
    UpsertWritesOne(db, op);
    ExtendReads(db.servers, StepOf(db, op).ref.id, ServerOf(op), ServerColumns(), c);
    if op.UpsertByUuid? {
      UuidIsExtended(db.servers, StepOf(db, op).ref.id, op);
    }
  }

  /** The same for the network extension. */
  lemma NetworksRead(db: Db, op: Op, c: Column)
    requires IsUpsert(op) && StepOf(db, op).Done?
    ensures
      var s := StepOf(db, op);
      var id := s.ref.id;
      && OthersSame(db.networks, s.db.networks, id)
      && (op.UpsertNetwork? && op.network != map[] ==>
            && id in s.db.networks
            && (c in op.network && c in NetworkColumns() ==> Get(s.db.networks[id], c) == op.network[c])
            && (c !in op.network || c !in NetworkColumns() ==>
                  Get(s.db.networks[id], c) == if id in db.networks then Get(db.networks[id], c) else Null))
      && (!op.UpsertNetwork? || op.network == map[] ==> s.db.networks == db.networks)
  {
    hide StepOf, Exec, Target, Stored, WrittenRow, Extend, NetworkColumns;
    UpsertWritesOne(db, op);
    ExtendReads(db.networks, StepOf(db, op).ref.id, NetworkOf(op), NetworkColumns(), c);
  }

  // ---------- the audit log ----------

  /** A column name ends in one of the four sensitive suffixes. */
  predicate Secret(c: Column) {
    || (|c| >= 4 && (c[|c| - 4..] == "_enc" || c[|c| - 4..] == "_key"))
    || (|c| >= 9 && c[|c| - 9..] == "_password")
    || (|c| >= 7 && c[|c| - 7..] == "_secret")
  }

  /** The entry of an update tells of a visible column, with its old and its new value, exactly when the two
      differ, wherever both are of one type. */
  ghost predicate Tells(d: Diff, before: Row, after: Row) {
    && (forall c :: c in d ==>
          !Secret(c) && d[c].before == JsonSafe(Get(before, c)) && d[c].after == JsonSafe(Get(after, c)))
    && (forall c :: !Secret(c) && SameType(Get(before, c), Get(after, c)) ==>
          (c in d <==> Get(before, c) != Get(after, c)))
    && (forall c :: !Secret(c) && Get(before, c).Null? && IsNumeric(JsonSafe(Get(after, c))) ==> c in d)
  }

  lemma SecretIsSensitive(c: Column)
    ensures Secret(c) <==> Sensitive(c)
  {
    VisibleColumns(c);
  }

  lemma SafeDictReads(row: Row, c: Column)
    ensures !Sensitive(c) ==> Get(SafeDict(row), c) == JsonSafe(Get(row, c))
    ensures Sensitive(c) ==> c !in SafeDict(row)
    ensures c in SafeDict(row) ==> c in row
  {
    hide Sensitive;
  }

  lemma DiffTells(before: Row, after: Row)
    ensures Tells(DiffOf(SafeDict(before), SafeDict(after)), before, after)
  {
    hide Sensitive, Secret, SafeStr, JsonSafe, SameType, DiffOf, SafeDict;
    var d := DiffOf(SafeDict(before), SafeDict(after));
    DiffTellsApart(SafeDict(before), SafeDict(after));
    DiffEntries(SafeDict(before), SafeDict(after));
    forall c
      ensures Secret(c) <==> Sensitive(c)
      ensures !Sensitive(c) ==> Get(SafeDict(before), c) == JsonSafe(Get(before, c))
      ensures !Sensitive(c) ==> Get(SafeDict(after), c) == JsonSafe(Get(after, c))
      ensures SameType(Get(before, c), Get(after, c)) ==>
        SameType(JsonSafe(Get(before, c)), JsonSafe(Get(after, c)))
        && (JsonSafe(Get(before, c)) == JsonSafe(Get(after, c)) <==> Get(before, c) == Get(after, c))
      ensures JsonSafe(Get(before, c)).Null? <==> Get(before, c).Null?
    {
      SecretIsSensitive(c);
      SafeDictReads(before, c);
      SafeDictReads(after, c);
      JsonTellsApart(Get(before, c), Get(after, c));
    }
  }

  lemma DiffEntries(before: Row, after: Row)
    ensures forall c :: c in DiffOf(before, after) ==>
      !Sensitive(c) && DiffOf(before, after)[c] == Change(Get(before, c), Get(after, c))
  {
  }

  /** The supplied columns of an upsert: those of its dictionary, those it sets itself, and the status a
      created device or VM is given. */
  predicate Supplies(op: Op, c: Column)
    requires IsUpsert(op)
  {
    c in op.data || SetsItself(op, c)
  }

  /** The entry of a creation: every visible supplied column, and the status a new device or VM is given,
      with the value the new row has. */
  ghost predicate Lists(values: Row, op: Op, row: Row)
    requires IsUpsert(op)
  {
    forall c ::
      && (c in values <==>
            !Secret(c) && (Supplies(op, c) || (c == "status" && (KindOf(op) == Device || KindOf(op) == Vm))))
      && (c in values ==> values[c] == JsonSafe(Get(row, c)))
  }

  /** The audit logs after an upsert: one entry more for a created row, which lists what was supplied, one for
      a changed row, which tells of the change, none for an unchanged row; and all other logs as they were. */
  ghost predicate Audited(db: Db, op: Op, s: Step)
    requires IsUpsert(op) && s.Done? && s.ref in s.db.rows && (s.outcome != ItemCreated ==> s.ref in db.rows)
  {
    && (forall r :: r != s.ref ==> Log(s.db.audit, r) == Log(db.audit, r))
    && match s.outcome
       case ItemCreated =>
         exists values :: Log(s.db.audit, s.ref) == Log(db.audit, s.ref) + [Create(values)]
                          && Lists(values, op, s.db.rows[s.ref])
       case ItemUpdated =>
         exists d :: Log(s.db.audit, s.ref) == Log(db.audit, s.ref) + [Update(d)]
                     && Tells(d, db.rows[s.ref], s.db.rows[s.ref])
       case ItemUnchanged => Log(s.db.audit, s.ref) == Log(db.audit, s.ref)
  }

  /** Changed means that some supplied value differs from what the row read; unchanged that none does. */
  ghost predicate Differs(before: Row, op: Op)
    requires IsUpsert(op)
  {
    exists c :: c in DataOf(op) && Get(before, c) != DataOf(op)[c]
  }

  lemma StepIsPut(db: Db, op: Op)
    requires IsUpsert(op) && StepOf(db, op).Done?
    ensures Target(db, op) <= db.rows.Keys
    ensures
      var s, p := StepOf(db, op), Put(db, Target(db, op), KindOf(op), DataOf(op));
      && p.Done? && s.ref == p.ref && s.outcome == p.outcome
      && s.db.rows == p.db.rows && s.db.audit == p.db.audit && s.db.alerts == p.db.alerts
  {
    hide Put, ExtensionFits, Target;
    TargetsOfKind(db, op);
  }

  lemma UpsertAudits(db: Db, op: Op)
    requires IsUpsert(op) && StepOf(db, op).Done?
    ensures
      var s := StepOf(db, op);
      && s.ref in s.db.rows && (s.outcome != ItemCreated ==> s.ref in db.rows)
      && Audited(db, op, s)
      && (s.outcome == ItemUpdated ==> Differs(db.rows[s.ref], op))
      && (s.outcome == ItemUnchanged ==> !Differs(db.rows[s.ref], op) && s.db.rows == db.rows)
  {
    hide Target, Audited, Differs, StepOf, Exec, Put, DataOf;
    StepIsPut(db, op);
    if Target(db, op) == {} {
      CreationAudits(db, op);
    } else {
      OverwriteAudits(db, op);
    }
  }

  lemma CreationAudits(db: Db, op: Op)
    requires IsUpsert(op) && StepOf(db, op).Done? && Target(db, op) == {}
    ensures
      var s := StepOf(db, op);
      s.outcome == ItemCreated && s.ref in s.db.rows && Audited(db, op, s)
  {
    hide Target, SafeDict, Lists, Creatable, DataOf, WithStatus, ColumnDefaults, StepOf, Exec;
    StepIsPut(db, op);
    CreationLists(op);
    var s, full := StepOf(db, op), WithStatus(KindOf(op), DataOf(op));
    assert Log(s.db.audit, s.ref) == Log(db.audit, s.ref) + [Create(SafeDict(full))];
  }

  lemma OverwriteAudits(db: Db, op: Op)
    requires IsUpsert(op) && StepOf(db, op).Done? && Target(db, op) != {}
    ensures
      var s := StepOf(db, op);
      && s.ref in s.db.rows && s.ref in db.rows && s.outcome != ItemCreated && Audited(db, op, s)
      && (s.outcome == ItemUpdated ==> Differs(db.rows[s.ref], op))
      && (s.outcome == ItemUnchanged ==> !Differs(db.rows[s.ref], op) && s.db.rows == db.rows)
  {
    hide Target, DiffOf, SafeDict, Lists, Tells, RaiseOverwrite, Merge, Nulls, DataOf, Kept, StepOf, Exec;
    TargetsOfKind(db, op);
    StepIsPut(db, op);
    var s := StepOf(db, op);
    var before := db.rows[One(Target(db, op))];
    var after := Merge(before, Kept(KindOf(op), DataOf(op)));
    DiffTells(before, after);
    if s.outcome == ItemUpdated {
      assert s.db.rows[s.ref] == after;
      assert Log(s.db.audit, s.ref) == Log(db.audit, s.ref) + [Update(DiffOf(SafeDict(before), SafeDict(after)))];
    }
  }

  lemma CreationLists(op: Op)
    requires IsUpsert(op)
    ensures
      var full := WithStatus(KindOf(op), DataOf(op));
      Lists(SafeDict(full), op, ColumnDefaults(KindOf(op)) + full)
  {
    hide Sensitive, Secret, JsonSafe, DataOf, ColumnDefaults, SetsItself;
    var full := WithStatus(KindOf(op), DataOf(op));
    forall c
      ensures Secret(c) <==> Sensitive(c)
      ensures c in DataOf(op) <==> c in op.data || SetsItself(op, c)
    {
      SecretIsSensitive(c);
      StoredReads(op, c);
    }
  }

  // ---------- alerts ----------

  /** The columns operators fill in by hand. */
  predicate OperatorColumn(c: Column) {
    || c == "name" || c == "device_type" || c == "manufacturer" || c == "model" || c == "part_number"
    || c == "serial_number" || c == "asset_tag" || c == "rack_id" || c == "rack_unit_start" || c == "rack_unit_size"
    || c == "management_ip" || c == "management_protocol" || c == "snmp_version" || c == "purchase_date"
    || c == "warranty_expiry" || c == "end_of_support_date" || c == "end_of_life_date" || c == "notes"
    || c == "custom_fields"
  }

  /** An open alert of type `other` about the device. */
  predicate IsOpen(a: Option<Alert>, device: nat) {
    && a.Some? && a.value.entity == Some("device") && a.value.entityId == Some(device) && a.value.kind == OtherAlert
    && a.value.acknowledgedBy == None
  }

  /** The alerts after an overwrite: untouched when no operator's column is told of; else the open alert of the
      device has a new message and is otherwise as it was, or there is a new warning. */
  ghost predicate Alerted(before: Alerting, after: Alerting, device: nat, row: Row, diff: Diff) {
    var told := map c | c in diff && OperatorColumn(c) :: diff[c];
    var message := Overwrote(Get(row, "name"), Get(row, "serial_number"), told);
    if told == map[] then after == before
    else if exists i :: 0 <= i < |before| && IsOpen(before[i], device) then
      exists i :: 0 <= i < |before| && IsOpen(before[i], device)
                  && after == before[i := Some(before[i].value.(message := message))]
    else after == before + [Some(Alert(Some("device"), Some(device), OtherAlert, Warning, message, None))]
  }

  lemma OverwriteAlerts(alerts: Alerting, device: nat, row: Row, diff: Diff)
    ensures
      var r := RaiseOverwrite(alerts, device, row, diff);
      r != None ==> Alerted(alerts, r.value, device, row, diff)
  {
    OperatorColumns(diff);
    hide OperatorColumn, OperatorField;
    if i :| 0 <= i < |alerts| && IsOpen(alerts[i], device) {
      assert i in OpenOverwrites(alerts, device);
    }
    forall i | i in OpenOverwrites(alerts, device) ensures IsOpen(alerts[i], device) {
    }
  }

  lemma OperatorColumns(diff: Diff)
    ensures Alertable(diff) == map c | c in diff && OperatorColumn(c) :: diff[c]
  {
  }

  /** Only an update of a device touches the alerts, and it raises what its own change calls for. */
  lemma UpsertAlerts(db: Db, op: Op)
    requires IsUpsert(op) && StepOf(db, op).Done?
    ensures
      var s := StepOf(db, op);
      && (KindOf(op) != Device || s.outcome != ItemUpdated ==> s.db.alerts == db.alerts)
      && (KindOf(op) == Device && s.outcome == ItemUpdated ==>
            && s.ref in db.rows && s.ref in s.db.rows
            && exists diff :: Tells(diff, db.rows[s.ref], s.db.rows[s.ref])
                              && Alerted(db.alerts, s.db.alerts, s.ref.id, s.db.rows[s.ref], diff))
  {
    hide Target, DiffOf, SafeDict, Tells, RaiseOverwrite, Alerted, ExtensionFits, Merge, Creatable, Nulls;
    hide DataOf, WithStatus, ColumnDefaults, Kept, StepOf, Exec;
    TargetsOfKind(db, op);
    StepIsPut(db, op);
    var s, sel := StepOf(db, op), Target(db, op);
    if sel != {} {
      var before := db.rows[One(sel)];
      var after := Merge(before, Kept(KindOf(op), DataOf(op)));
      DiffTells(before, after);
      OverwriteAlerts(db.alerts, One(sel).id, after, DiffOf(SafeDict(before), SafeDict(after)));
    }
  }

  /** The API upsert: the one alert of the triple is given severity and message and is open again, or there is
      a new open one; and no other alert changes. */
  lemma RaiseReads(db: Db, op: Op)
    requires op.RaiseAlert? && Attempt(db, op) != None
    ensures
      var after := Exec(db, op).alerts;
      var raised := Some(Alert(op.entity, op.entityId, op.alertType, op.severity, Plain(op.text), None));
      || (exists i :: 0 <= i < |db.alerts| && db.alerts[i].Some?
            && db.alerts[i].value.entity == op.entity && db.alerts[i].value.entityId == op.entityId
            && db.alerts[i].value.kind == op.alertType
            && after == db.alerts[i := raised])
      || ((forall i :: 0 <= i < |db.alerts| && db.alerts[i].Some? ==>
             db.alerts[i].value.entity != op.entity || db.alerts[i].value.entityId != op.entityId
             || db.alerts[i].value.kind != op.alertType)
          && after == db.alerts + [raised])
    ensures Exec(db, op) == db.(alerts := Exec(db, op).alerts)
  {
    var found := Triples(db.alerts, op.entity, op.entityId, op.alertType);
    if found == {} {
      forall i | 0 <= i < |db.alerts| && db.alerts[i].Some?
        ensures db.alerts[i].value.entity != op.entity || db.alerts[i].value.entityId != op.entityId
                || db.alerts[i].value.kind != op.alertType
      {
        assert i !in found;
      }
    } else {
      var i := One(found);
      assert db.alerts[i].Some?;
    }
  }

  /** The other writes of the alert API: exactly the named alert changes, and only if it exists. */
  lemma AlertWritesRead(db: Db, op: Op)
    requires op.Acknowledge? || op.EditAlert? || op.DeleteAlert?
    ensures Exec(db, op) == db.(alerts := Exec(db, op).alerts)
    ensures op.alert >= |db.alerts| || db.alerts[op.alert] == None ==> Exec(db, op).alerts == db.alerts
    ensures op.alert < |db.alerts| && db.alerts[op.alert] != None ==>
      var a := db.alerts[op.alert].value;
      Exec(db, op).alerts == db.alerts[op.alert :=
        match op
        case Acknowledge(_, user) => Some(Alert(a.entity, a.entityId, a.kind, a.severity, a.message, Some(user)))
        case EditAlert(_, severity, text) =>
          Some(Alert(a.entity, a.entityId, a.kind, if severity == None then a.severity else severity.value,
                     if text == None then a.message else Plain(text.value), a.acknowledgedBy))
        case _ => None]
  {
  }

  // ---------- sweeps ----------

  /** The rows a sweep tombstones. */
  predicate Swept(db: Db, op: Op, r: Ref)
    requires IsSweep(op) && r in db.rows
  {
    var row := db.rows[r];
    match op
    case SweepVms(host, seen) =>
      && r.kind == Vm && Get(row, "host_id") == Key(host) && Get(row, "status") != Text("stopped")
      && Get(row, "platform_vm_id") != Null && forall s :: s in seen ==> Get(row, "platform_vm_id") != Text(s)
    case SweepSerials(seen) =>
      && r.kind == Device && Get(row, "status") == Text("active")
      && Get(row, "serial_number") != Null && forall s :: s in seen ==> Get(row, "serial_number") != Text(s)
    case SweepUuids(seen) =>
      && r.kind == Device && Get(row, "status") == Text("active") && r.id in db.servers
      && Get(db.servers[r.id], "xclarity_uuid") != Null
      && forall s :: s in seen ==> Get(db.servers[r.id], "xclarity_uuid") != Text(s)
  }

  /** A sweep sets the status of exactly these rows, stopped for VMs and inactive for devices, writes one entry
      for each, and changes nothing else. */
  lemma SweepReads(db: Db, op: Op, r: Ref)
    requires IsSweep(op) && r in db.rows
    ensures
      var db' := Exec(db, op);
      var status := if op.SweepVms? then "stopped" else "inactive";
      && db'.rows.Keys == db.rows.Keys
      && db'.servers == db.servers && db'.networks == db.networks && db'.alerts == db.alerts && db'.nextId == db.nextId
      && (Swept(db, op, r) ==>
            && db'.rows[r] == db.rows[r]["status" := Text(status)]
            && Log(db'.audit, r) == Log(db.audit, r)
                 + [Update(map["status" := Change(Text(if op.SweepVms? then "stopped" else "active"), Text(status))])])
      && (!Swept(db, op, r) ==> db'.rows[r] == db.rows[r] && Log(db'.audit, r) == Log(db.audit, r))
  {
    assert Swept(db, op, r) <==> r in Stale(db, op);
  }

  // ---------- when an upsert succeeds ----------

  /** The columns that may not be NULL, with or without a default. */
  predicate Mandatory(kind: Kind, c: Column) {
    match kind
    case Device => c == "name" || c == "device_type" || c == "status"
    case Cluster => c == "name" || c == "platform" || c == "ha_enabled" || c == "drs_enabled"
    case Host => c == "cluster_id" || c == "is_in_maintenance"
    case Vm => c == "name" || c == "host_id" || c == "status" || c == "is_template"
    case Datastore => c == "name" || c == "cluster_id" || c == "datastore_type"
  }

  /** A row can be created: only declared columns are supplied, and every column that may not be NULL and has
      no default is supplied; none of these is supplied as NULL. */
  ghost predicate CanCreate(op: Op)
    requires IsUpsert(op)
  {
    var kind := KindOf(op);
    forall c :: !SetsItself(op, c) ==>
      && (c in op.data ==> Declares(kind, c) && (Mandatory(kind, c) ==> op.data[c] != Null))
      && (Mandatory(kind, c) && Fresh(kind, c) == Null ==> c in op.data)
  }

  /** The row can be overwritten: no value becomes NULL that may not. */
  predicate CanOverwrite(op: Op, row: Row)
    requires IsUpsert(op)
  {
    forall c :: c in op.data && !SetsItself(op, c) && Mandatory(KindOf(op), c) && op.data[c] == Null ==>
      Get(row, c) == Null
  }

  /** The extension row exists already, or only declared columns are supplied for it. */
  predicate CanExtend(db: Db, op: Op, id: nat) {
    && (op.UpsertBySerial? || op.UpsertByUuid? ==>
          id in db.servers || forall c :: c in op.server ==> c in ServerColumns())
    && (op.UpsertNetwork? ==> id in db.networks || forall c :: c in op.network ==> c in NetworkColumns())
  }

  lemma OwnColumnsAreSet(op: Op, c: Column)
    requires IsUpsert(op) && SetsItself(op, c)
    ensures c in DataOf(op) && DataOf(op)[c] != Null && Declares(KindOf(op), c)
  {
  }

  lemma MandatoryIsRequired(kind: Kind, c: Column)
    ensures Mandatory(kind, c) <==> NotNull(kind, c)
    ensures c in Required(kind) <==> Mandatory(kind, c) && Fresh(kind, c) == Null
  {
  }

  lemma StatusIsOptional(kind: Kind, data: Row)
    ensures Creatable(kind, WithStatus(kind, data)) <==> Creatable(kind, data)
  {
    var full := WithStatus(kind, data);
    assert Declares(Device, "status") && Declares(Vm, "status");
    assert forall c :: c != "status" ==> (c in full <==> c in data) && (c in data ==> full[c] == data[c]);
    assert "status" !in data && "status" in full ==> full["status"] != Null && (kind == Device || kind == Vm);
    assert "status" !in Required(kind);
  }

  lemma CreatableIffCan(op: Op)
    requires IsUpsert(op)
    ensures Creatable(KindOf(op), WithStatus(KindOf(op), DataOf(op))) <==> CanCreate(op)
  {
    hide Declares, Required, NotNull, Mandatory, Fresh, SetsItself, DataOf, WithStatus, Stored;
    var kind, data := KindOf(op), DataOf(op);
    StatusIsOptional(kind, data);
    forall c
      ensures (c in Required(kind) <==> Mandatory(kind, c) && Fresh(kind, c) == Null)
              && (Mandatory(kind, c) <==> NotNull(kind, c))
              && (c in data <==> c in op.data || SetsItself(op, c))
              && (c in op.data && !SetsItself(op, c) ==> data[c] == op.data[c])
              && (SetsItself(op, c) ==> data[c] != Null && Declares(kind, c))
    {
      MandatoryIsRequired(kind, c);
      StoredReads(op, c);
      if SetsItself(op, c) {
        OwnColumnsAreSet(op, c);
      }
    }
  }

  lemma NullsIffCannot(op: Op, row: Row)
    requires IsUpsert(op)
    ensures Nulls(KindOf(op), row, DataOf(op)) <==> !CanOverwrite(op, row)
  {
    hide Declares, Required, NotNull, Mandatory, SetsItself, DataOf, Stored;
    forall c
      ensures (Mandatory(KindOf(op), c) <==> NotNull(KindOf(op), c))
              && (c in DataOf(op) <==> c in op.data || SetsItself(op, c))
              && (c in op.data && !SetsItself(op, c) ==> DataOf(op)[c] == op.data[c])
              && (SetsItself(op, c) ==> DataOf(op)[c] != Null)
    {
      MandatoryIsRequired(KindOf(op), c);
      StoredReads(op, c);
      if SetsItself(op, c) {
        OwnColumnsAreSet(op, c);
      }
    }
  }

  lemma FitsIffCan(db: Db, op: Op, id: nat)
    ensures ExtensionFits(db, id, op) <==> CanExtend(db, op, id)
  {
    hide NetworkColumns;
    assert "xclarity_uuid" in ServerColumns();
    hide ServerColumns;
    if op.UpsertByUuid? {
      assert ServerOf(op).Keys == op.server.Keys + {"xclarity_uuid"};
      UuidIsExtended(db.servers, id, op);
    }
    assert op.UpsertBySerial? && op.server == map[] ==> forall c :: c !in op.server;
    assert op.UpsertNetwork? && op.network == map[] ==> forall c :: c !in op.network;
    assert op.UpsertBySerial? || op.UpsertByUuid? ==> NetworkOf(op) == map[];
    assert op.UpsertNetwork? ==> ServerOf(op) == map[];
  }

  /** While at most one alert per device is open, an upsert of any kind succeeds exactly when its lookup finds
      one row that it can overwrite, or none and it can create one, and it can write the extension row. */
  lemma SucceedsIff(db: Db, op: Op)
    requires IsUpsert(op) && OneOpen(db.alerts)
    ensures Target(db, op) == {} ==>
      (StepOf(db, op).Done? <==> CanCreate(op) && CanExtend(db, op, db.nextId))
    ensures forall r :: Target(db, op) == {r} ==>
      r in db.rows && (StepOf(db, op).Done? <==> CanOverwrite(op, db.rows[r]) && CanExtend(db, op, r.id))
    ensures (exists r1, r2 :: r1 != r2 && r1 in Target(db, op) && r2 in Target(db, op)) ==> StepOf(db, op).Raised?
  {
    hide StepOf, Target, OneOpen, Creatable, Nulls, ExtensionFits, CanCreate, CanOverwrite, CanExtend;
    RaisesIffUnacceptable(db, op);
    if Target(db, op) == {} {
      CreatableIffCan(op);
      FitsIffCan(db, op, db.nextId);
    }
    forall r | Target(db, op) == {r}
      ensures r in db.rows && (StepOf(db, op).Done? <==> CanOverwrite(op, db.rows[r]) && CanExtend(db, op, r.id))
    {
      assert r in Target(db, op) && One({r}) == r;
      NullsIffCannot(op, db.rows[r]);
      FitsIffCan(db, op, r.id);
    }
  }

  // ---------- whole runs ----------

  /** The entries after the first `n` hold no secret column. */
  ghost predicate Clean(log: seq<Entry>, n: nat) {
    forall i, c :: n <= i < |log| && c in Columns(log[i]) ==> !Secret(c)
  }

  lemma UpsertIsClean(db: Db, op: Op, r: Ref, n: nat)
    requires IsUpsert(op) && Clean(Log(db.audit, r), n)
    ensures Clean(Log(Exec(db, op).audit, r), n)
  {
    hide StepOf, Exec, Target, Secret, WrittenRow, Stored, Extend, Differs;
    UpsertWritesOne(db, op);
    if StepOf(db, op).Done? {
      UpsertAudits(db, op);
    }
  }

  lemma SweepIsClean(db: Db, op: Op, r: Ref, n: nat)
    requires IsSweep(op) && Clean(Log(db.audit, r), n) && WellFormedSweep(db, op)
    ensures Clean(Log(Exec(db, op).audit, r), n)
  {
    hide Exec;
    assert !Secret("status");
    if r in db.rows {
      SweepReads(db, op, r);
    } else {
      OtherLogsStay(db, op, r);
    }
  }

  ghost predicate WellFormedSweep(db: Db, op: Op)
    requires IsSweep(op)
  {
    Stale(db, op) <= db.rows.Keys
  }

  lemma OtherLogsStay(db: Db, op: Op, r: Ref)
    requires IsSweep(op) && r !in Stale(db, op)
    ensures Log(Exec(db, op).audit, r) == Log(db.audit, r)
  {
  }

  /** No run ever writes a secret column into the audit log. */
  lemma {:induction false} RunIsClean(origin: Db, ops: seq<Op>, r: Ref)
    ensures Clean(Log(Run(origin, ops).audit, r), |Log(origin.audit, r)|)
  {
    if ops != [] {
      hide Run, Exec, Clean;
      var init, op := ops[..|ops| - 1], ops[|ops| - 1];
      RunLast(origin, ops);
      RunIsClean(origin, init, r);
      var db := Run(origin, init);
      if IsUpsert(op) {
        UpsertIsClean(db, op, r, |Log(origin.audit, r)|);
      } else if IsSweep(op) {
        SweepIsClean(db, op, r, |Log(origin.audit, r)|) by {
          assert forall x :: x in Stale(db, op) ==> x in db.rows;
        }
      } else {
        AlertOpsKeepLogs(db, op);
      }
    } else {
      NothingIsClean(origin, ops, r);
    }
  }

  lemma NothingIsClean(origin: Db, ops: seq<Op>, r: Ref)
    requires ops == []
    ensures Clean(Log(Run(origin, ops).audit, r), |Log(origin.audit, r)|)
  {
  }

  lemma AlertOpsKeepLogs(db: Db, op: Op)
    requires !IsUpsert(op) && !IsSweep(op)
    ensures Exec(db, op).audit == db.audit
  {
    hide RaiseTriple;
  }

  /** The replayed value of a column after a run: the audit entries the run added, on top of the row it found. */
  ghost function Replayed(origin: Db, db: Db, r: Ref, c: Column): Value
    requires Log(origin.audit, r) <= Log(db.audit, r)
  {
    Get(Fold(Start(origin, r), Log(db.audit, r)[|Log(origin.audit, r)|..]), c)
  }

  /** Replaying gives the very value wherever it has the type of the row's: the number, the flag, the text, and
      for a datetime or an id its text. */
  lemma RunReplaysValues(origin: Db, ops: seq<Op>, r: Ref, c: Column)
    requires WellFormed(origin) && r in Run(origin, ops).rows && !Secret(c)
    ensures Log(origin.audit, r) <= Log(Run(origin, ops).audit, r)
    ensures
      var db := Run(origin, ops);
      var replayed, value := Replayed(origin, db, r, c), JsonSafe(Get(db.rows[r], c));
      (SameType(replayed, value) ==> replayed == value) && (IsNumeric(value) ==> !replayed.Null?)
  {
    hide Run, Fold, SafeStr, JsonSafe, Secret, Sensitive;
    RunReplays(origin, ops);
    var db := Run(origin, ops);
    SecretIsSensitive(c);
    assert ReplaysAt(origin, db, r);
    var replayed, value := Replayed(origin, db, r, c), JsonSafe(Get(db.rows[r], c));
    PrintsApart(replayed, value);
    PrintsApart(value, replayed);
  }
}
