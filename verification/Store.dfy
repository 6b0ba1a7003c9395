/** The tables the sync engine writes, and what each of its operations does to them.
    Every operation is one atomic step: it either happens as a whole or raises and changes nothing. */
module Store {
  import opened Wrappers
  import opened Values
  import opened Diffs

  datatype Kind = Device | Cluster | Host | Vm | Datastore

  datatype Ref = Ref(kind: Kind, id: nat)

  datatype Entry = Create(values: Row) | Update(diff: Diff)

  datatype AlertType =
    | DeviceEol | DeviceEos | LicenseExpiry | WarrantyExpiry | PowerCapacity
    | SyncFailure | DeviceUnreachable | OtherAlert

  datatype Severity = Critical | Warning | Info

  datatype Message =
    | Overwrote(device: Value, serial: Value, changes: Diff)
    | Plain(text: string)

  datatype Alert = Alert(
    entity: Option<string>, entityId: Option<nat>, kind: AlertType,
    severity: Severity, message: Message, acknowledgedBy: Option<string>)

  /** Alerts by id: an alert's id is its index, and a deleted one leaves None behind. */
  type Alerting = seq<Option<Alert>>

  /** `servers` and `networks` are the extension tables, keyed by device id.  `audit` holds the
      entries of each entity in the order they were written. */
  datatype Db = Db(
    rows: map<Ref, Row>,
    servers: map<nat, Row>,
    networks: map<nat, Row>,
    audit: map<Ref, seq<Entry>>,
    alerts: Alerting,
    nextId: nat)

  datatype Outcome = ItemCreated | ItemUpdated | ItemUnchanged

  /** A step that raises changes no table; `counted` is the outcome it had already counted by then. */
  datatype Step = Raised(counted: Option<Outcome>) | Done(db: Db, ref: Ref, outcome: Outcome)

  // ---------- columns ----------

  /** The columns of each table, as its model declares them. */
  function ColumnsOf(kind: Kind): set<Column> {
    match kind
    case Device => {
      "id", "rack_id", "name", "device_type", "manufacturer", "model", "part_number", "serial_number",
      "asset_tag", "rack_unit_start", "rack_unit_size", "face", "power_rated_w", "power_actual_w",
      "weight_kg", "status", "management_ip", "management_protocol", "snmp_community_enc", "snmp_version",
      "ssh_username", "ssh_password_enc", "ssh_key_enc", "purchase_date", "warranty_expiry",
      "end_of_support_date", "end_of_life_date", "last_synced_at", "last_seen_at", "notes",
      "custom_fields", "created_at", "updated_at" }
    case Cluster => {
      "id", "name", "platform", "management_url", "management_username", "management_password_enc",
      "platform_config", "ha_enabled", "drs_enabled", "total_vcpu", "total_ram_gb", "total_storage_tb",
      "notes", "created_at", "updated_at" }
    case Host => {
      "id", "device_id", "cluster_id", "platform_version", "platform_uuid", "platform_data",
      "vcpu_allocated", "ram_allocated_gb", "is_in_maintenance", "last_synced_at" }
    case Vm => {
      "id", "host_id", "name", "platform_vm_id", "status", "os_type", "os_version", "vcpu_count", "ram_gb",
      "storage_gb", "tools_version", "is_template", "snapshot_count", "platform_data", "last_seen_at",
      "last_synced_at", "notes" }
    case Datastore => {
      "id", "cluster_id", "name", "datastore_type", "total_gb", "free_gb", "san_fabric_id",
      "platform_name", "notes" }
  }

  predicate Declares(kind: Kind, c: Column) {
    c in ColumnsOf(kind)
  }

  /** Columns that may not be NULL and have no default. */
  function Required(kind: Kind): set<Column> {
    match kind
    case Device => {"name", "device_type"}
    case Cluster => {"name", "platform"}
    case Host => {"cluster_id"}
    case Vm => {"host_id", "name"}
    case Datastore => {"cluster_id", "name", "datastore_type"}
  }

  predicate NotNull(kind: Kind, c: Column) {
    c in Required(kind) || c in ColumnDefaults(kind)
  }

  /** The columns of the server and the network extension. */
  function ServerColumns(): set<Column> {
    { "form_factor", "blade_chassis_id", "blade_slot", "cpu_model", "cpu_socket_count",
      "cpu_cores_per_socket", "cpu_threads_per_core", "ram_gb", "ram_max_gb", "ram_slots_total",
      "ram_slots_used", "storage_drives", "nic_count", "hba_count", "bios_version",
      "bmc_firmware_version", "xclarity_uuid", "total_blade_slots", "ethernet_switch_modules",
      "fc_switch_modules" }
  }

  function NetworkColumns(): set<Column> {
    { "os_type", "os_version", "port_count", "uplink_port_count", "management_vlan",
      "spanning_tree_mode", "spanning_tree_priority", "stacking_enabled", "stack_member_id",
      "snmp_sysoid" }
  }

  /** What a table keeps of a dictionary: attributes it does not declare are set on the loaded object and
      never stored. */
  function Kept(kind: Kind, data: Row): Row {
    map c | c in data && Declares(kind, c) :: data[c]
  }

  /** The data a row can be created from: every key is declared, the required columns are there, and no
      column that may not be NULL is NULL. */
  predicate Creatable(kind: Kind, data: Row) {
    && (forall c :: c in data ==> Declares(kind, c))
    && (forall c :: c in Required(kind) ==> c in data)
    && (forall c :: c in data && NotNull(kind, c) ==> data[c] != Null)
  }

  // ---------- selection ----------

  /** Python truthiness of a column value. */
  predicate Truthy(v: Value) {
    match v
    case Null => false
    case Text(s) => s != ""
    case Num(n) => n != 0
    case Flag(b) => b
    case _ => true
  }

  predicate Matches(row: Row, key: Row) {
    forall c | c in key :: Get(row, c) == key[c]
  }

  /** `select(kind).where(...)` over equalities. */
  function Where(rows: map<Ref, Row>, kind: Kind, key: Row): set<Ref> {
    set r | r in rows && r.kind == kind && Matches(rows[r], key)
  }

  /** The key column's rows, or nothing when the supplied key is falsy. */
  function WhereTruthy(rows: map<Ref, Row>, kind: Kind, c: Column, v: Value): set<Ref> {
    if Truthy(v) then Where(rows, kind, map[c := v]) else {}
  }

  /** Devices joined with their server extension, filtered by `xclarity_uuid`. */
  function WhereUuid(db: Db, uuid: string): set<Ref> {
    set r | r in db.rows && r.kind == Device && r.id in db.servers
            && Get(db.servers[r.id], "xclarity_uuid") == Text(uuid)
  }

  /** `scalar_one_or_none` raises unless this holds of the selected rows. */
  ghost predicate AtMostOne<T>(s: set<T>) {
    s == {} || s == {One(s)}
  }

  ghost function One<T>(s: set<T>): (x: T)
    requires s != {}
    ensures x in s
  {
    var x :| x in s; x
  }

  // ---------- audit ----------

  function Log(audit: map<Ref, seq<Entry>>, ref: Ref): seq<Entry> {
    if ref in audit then audit[ref] else []
  }

  function Append(audit: map<Ref, seq<Entry>>, ref: Ref, e: Entry): map<Ref, seq<Entry>> {
    audit[ref := Log(audit, ref) + [e]]
  }

  // ---------- overwrite alerts ----------

  /** `_OVERWRITE_ALERT_FIELDS`: columns operators commonly fill in by hand. */
  predicate OperatorField(c: Column) {
    c in {
      "name", "device_type", "manufacturer", "model", "part_number", "serial_number", "asset_tag",
      "rack_id", "rack_unit_start", "rack_unit_size", "management_ip", "management_protocol",
      "snmp_version", "purchase_date", "warranty_expiry", "end_of_support_date", "end_of_life_date",
      "notes", "custom_fields"
    }
  }

  predicate IsTriple(a: Option<Alert>, entity: Option<string>, entityId: Option<nat>, kind: AlertType) {
    a.Some? && a.value.entity == entity && a.value.entityId == entityId && a.value.kind == kind
  }

  predicate IsOpenOverwrite(a: Option<Alert>, device: nat) {
    IsTriple(a, Some("device"), Some(device), OtherAlert) && a.value.acknowledgedBy == None
  }

  function OpenOverwrites(alerts: Alerting, device: nat): set<nat> {
    set i: nat | i < |alerts| && IsOpenOverwrite(alerts[i], device)
  }

  function Triples(alerts: Alerting, entity: Option<string>, entityId: Option<nat>, kind: AlertType): set<nat> {
    set i: nat | i < |alerts| && IsTriple(alerts[i], entity, entityId, kind)
  }

  function Alertable(diff: Diff): Diff {
    map c | c in diff && OperatorField(c) :: diff[c]
  }

  /** `_generate_overwrite_alert`; None when the query for the open alert finds several. */
  ghost function RaiseOverwrite(alerts: Alerting, device: nat, row: Row, diff: Diff): Option<Alerting> {
    var message := Overwrote(Get(row, "name"), Get(row, "serial_number"), Alertable(diff));
    var open := OpenOverwrites(alerts, device);
    if Alertable(diff) == map[] then Some(alerts)
    else if !AtMostOne(open) then None
    else if open == {} then
      Some(alerts + [Some(Alert(Some("device"), Some(device), OtherAlert, Warning, message, None))])
    else
      Some(alerts[One(open) := Some(alerts[One(open)].value.(message := message))])
  }

  // ---------- writing one row ----------

  /** What a new row's columns hold before the supplied data. */
  function ColumnDefaults(kind: Kind): Row {
    match kind
    case Device => map["status" := Text("active")]
    case Cluster => map["ha_enabled" := Flag(false), "drs_enabled" := Flag(false)]
    case Host => map["is_in_maintenance" := Flag(false)]
    case Vm => map["status" := Text("stopped"), "is_template" := Flag(false)]
    case Datastore => map[]
  }

  /** `data.setdefault("status", ...)` on the create branch. */
  function WithStatus(kind: Kind, data: Row): Row {
    if "status" in data then data
    else match kind
      case Device => data["status" := Text("active")]
      case Vm => data["status" := Text("stopped")]
      case _ => data
  }

  predicate Changes(row: Row, data: Row) {
    exists c :: c in data && Get(row, c) != data[c]
  }

  /** The row after the `setattr` loop, which assigns only the columns that differ. */
  function Merge(row: Row, data: Row): Row {
    row + map c | c in data && Get(row, c) != data[c] :: data[c]
  }

  lemma MergeReads(row: Row, data: Row, c: Column)
    ensures Get(Merge(row, data), c) == if c in data then data[c] else Get(row, c)
  {
  }

  /** The row would have a NULL where it may not. */
  predicate Nulls(kind: Kind, row: Row, data: Row) {
    exists c :: c in data && NotNull(kind, c) && data[c] == Null && Get(row, c) != Null
  }

  function Insert(db: Db, kind: Kind, data: Row): Step {
    var ref := Ref(kind, db.nextId);
    var full := WithStatus(kind, data);
    if !Creatable(kind, full) then Raised(None)
    else Done(db.(rows := db.rows[ref := ColumnDefaults(kind) + full],
             audit := Append(db.audit, ref, Create(SafeDict(full))),
             nextId := db.nextId + 1),
         ref, ItemCreated)
  }

  ghost function Overwrite(db: Db, ref: Ref, data: Row): Step
    requires ref in db.rows
  {
    var before := db.rows[ref];
    var after := Merge(before, Kept(ref.kind, data));
    var diff := DiffOf(SafeDict(before), SafeDict(after));
    var alerts := if ref.kind == Device then RaiseOverwrite(db.alerts, ref.id, after, diff) else Some(db.alerts);
    if !Changes(before, data) then Done(db, ref, ItemUnchanged)
    else if alerts == None then Raised(None)
    else if Nulls(ref.kind, before, data) then
      // the flush fails: at the alert's query if there is one, else at the commit after counting
      Raised(if ref.kind == Device && Alertable(diff) != map[] then None else Some(ItemUpdated))
    else Done(db.(rows := db.rows[ref := after],
                  audit := Append(db.audit, ref, Update(diff)),
                  alerts := alerts.value),
              ref, ItemUpdated)
  }

  /** The part every upsert shares, given the rows its lookup selected. */
  ghost function Put(db: Db, sel: set<Ref>, kind: Kind, data: Row): Step
    requires sel <= db.rows.Keys
  {
    if !AtMostOne(sel) then Raised(None)
    else if sel == {} then Insert(db, kind, data)
    else Overwrite(db, One(sel), data)
  }

  /** Tombstone every row of `stale`, one audit entry each. */
  function Sweep(db: Db, stale: set<Ref>, status: string, diff: Diff): Db {
    db.(rows := map r | r in db.rows :: if r in stale then db.rows[r]["status" := Text(status)] else db.rows[r],
        audit := map r | r in db.audit.Keys + stale
                   :: if r in stale then Log(db.audit, r) + [Update(diff)] else db.audit[r])
  }

  // ---------- the operations ----------

  datatype Op =
    | UpsertBySerial(data: Row, server: Row, at: string)
    | UpsertByUuid(uuid: string, data: Row, server: Row, at: string)
    | UpsertNetwork(dedupField: Column, dedupValue: Value, data: Row, network: Row, at: string)
    | UpsertCluster(data: Row)
    | UpsertHost(cluster: nat, data: Row, at: string)
    | UpsertVm(host: nat, data: Row, at: string)
    | UpsertDatastore(cluster: nat, data: Row)
    | SweepVms(host: nat, seenIds: set<string>)
    | SweepSerials(seenSerials: set<string>)
    | SweepUuids(seenUuids: set<string>)
    | RaiseAlert(entity: Option<string>, entityId: Option<nat>, alertType: AlertType, severity: Severity, text: string)
    | Acknowledge(alert: nat, user: string)
    | EditAlert(alert: nat, newSeverity: Option<Severity>, newText: Option<string>)
    | DeleteAlert(alert: nat)

  predicate IsUpsert(op: Op) {
    op.UpsertBySerial? || op.UpsertByUuid? || op.UpsertNetwork? || op.UpsertCluster?
    || op.UpsertHost? || op.UpsertVm? || op.UpsertDatastore?
  }

  function KindOf(op: Op): Kind
    requires IsUpsert(op)
  {
    match op
    case UpsertBySerial(_, _, _) | UpsertByUuid(_, _, _, _) | UpsertNetwork(_, _, _, _, _) => Device
    case UpsertCluster(_) => Cluster
    case UpsertHost(_, _, _) => Host
    case UpsertVm(_, _, _) => Vm
    case UpsertDatastore(_, _) => Datastore
  }

  /** The data dictionary once the upsert has put its own columns into it. */
  function DataOf(op: Op): Row
    requires IsUpsert(op)
  {
    match op
    case UpsertBySerial(_, _, _) | UpsertByUuid(_, _, _, _) | UpsertNetwork(_, _, _, _, _) =>
      op.data["last_seen_at" := Stamp(op.at)]
    case UpsertCluster(data) => data
    case UpsertHost(cluster, data, at) =>
      data["last_synced_at" := Stamp(at)]["cluster_id" := Key(cluster)]
    case UpsertVm(host, data, at) =>
      data["last_seen_at" := Stamp(at)]["last_synced_at" := Stamp(at)]["host_id" := Key(host)]
    case UpsertDatastore(cluster, data) => data["cluster_id" := Key(cluster)]
  }

  /** What the upsert supplies for the columns its table declares. */
  function Stored(op: Op): Row
    requires IsUpsert(op)
  {
    Kept(KindOf(op), DataOf(op))
  }

  /** The row holds everything the upsert supplied and its table declares. */
  ghost predicate Carries(row: Row, op: Op)
    requires IsUpsert(op)
  {
    forall c :: c in Stored(op) ==> Get(row, c) == Stored(op)[c]
  }

  /** The rows the upsert's lookup selects. */
  function Target(db: Db, op: Op): set<Ref>
    requires IsUpsert(op)
  {
    match op
    case UpsertBySerial(data, _, _) => WhereTruthy(db.rows, Device, "serial_number", Get(data, "serial_number"))
    case UpsertByUuid(uuid, data, _, _) =>
      if WhereUuid(db, uuid) != {} then WhereUuid(db, uuid)
      else WhereTruthy(db.rows, Device, "serial_number", Get(data, "serial_number"))
    case UpsertNetwork(field, value, _, _, _) => Where(db.rows, Device, map[field := value])
    case UpsertCluster(data) =>
      Where(db.rows, Cluster, map["name" := Get(data, "name"), "platform" := Get(data, "platform")])
    case UpsertHost(_, data, _) => WhereTruthy(db.rows, Host, "platform_uuid", Get(data, "platform_uuid"))
    case UpsertVm(_, data, _) => WhereTruthy(db.rows, Vm, "platform_vm_id", Get(data, "platform_vm_id"))
    case UpsertDatastore(cluster, data) =>
      Where(db.rows, Datastore, map["cluster_id" := Key(cluster), "name" := Get(data, "name")])
  }

  lemma TargetsOfKind(db: Db, op: Op)
    requires IsUpsert(op)
    ensures forall r :: r in Target(db, op) ==> r in db.rows && r.kind == KindOf(op)
  {
  }

  /** Extension data fits when there is a row to set it on, or every key is declared. */
  predicate Fits(table: map<nat, Row>, id: nat, ext: Row, declared: set<Column>) {
    id in table || ext.Keys <= declared
  }

  function Extend(table: map<nat, Row>, id: nat, ext: Row, declared: set<Column>): map<nat, Row> {
    table[id := (if id in table then table[id] else map[]) + map c | c in ext && c in declared :: ext[c]]
  }

  /** The server extension an upsert writes after the device row; empty when it writes none. */
  function ServerOf(op: Op): Row {
    match op
    case UpsertBySerial(_, server, _) => server
    case UpsertByUuid(uuid, _, server, _) => server["xclarity_uuid" := Text(uuid)]
    case _ => map[]
  }

  function NetworkOf(op: Op): Row {
    if op.UpsertNetwork? then op.network else map[]
  }

  predicate ExtensionFits(db: Db, id: nat, op: Op) {
    && (ServerOf(op) != map[] ==> Fits(db.servers, id, ServerOf(op), ServerColumns()))
    && (NetworkOf(op) != map[] ==> Fits(db.networks, id, NetworkOf(op), NetworkColumns()))
  }

  function Extended(db: Db, id: nat, op: Op): Db {
    db.(servers := if ServerOf(op) == map[] then db.servers else Extend(db.servers, id, ServerOf(op), ServerColumns()),
        networks := if NetworkOf(op) == map[] then db.networks
                    else Extend(db.networks, id, NetworkOf(op), NetworkColumns()))
  }

  ghost function StepOf(db: Db, op: Op): Step
    requires IsUpsert(op)
  {
    var s := Put(db, Target(db, op), KindOf(op), DataOf(op));
    if s.Raised? then s
    else if !ExtensionFits(s.db, s.ref.id, op) then Raised(Some(s.outcome))
    else s.(db := Extended(s.db, s.ref.id, op))
  }

  /** SQL `col NOT IN (seen)` for a non-null text column. */
  predicate Unseen(v: Value, seen: set<string>) {
    v != Null && !(v.Text? && v.s in seen)
  }

  function StaleVms(rows: map<Ref, Row>, host: nat, seen: set<string>): set<Ref> {
    set r | r in rows && r.kind == Vm && Get(rows[r], "host_id") == Key(host)
            && Unseen(Get(rows[r], "platform_vm_id"), seen) && Get(rows[r], "status") != Text("stopped")
  }

  function StaleSerials(rows: map<Ref, Row>, seen: set<string>): set<Ref> {
    set r | r in rows && r.kind == Device && Unseen(Get(rows[r], "serial_number"), seen)
            && Get(rows[r], "status") == Text("active")
  }

  function StaleUuids(db: Db, seen: set<string>): set<Ref> {
    set r | r in db.rows && r.kind == Device && r.id in db.servers
            && Unseen(Get(db.servers[r.id], "xclarity_uuid"), seen)
            && Get(db.rows[r], "status") == Text("active")
  }

  /** The status is assigned before this diff is built, so "before" already reads stopped. */
  function VmTombstone(): Diff {
    map["status" := Change(Text("stopped"), Text("stopped"))]
  }

  function DeviceTombstone(): Diff {
    map["status" := Change(Text("active"), Text("inactive"))]
  }

  predicate IsSweep(op: Op) {
    op.SweepVms? || op.SweepSerials? || op.SweepUuids?
  }

  function Stale(db: Db, op: Op): set<Ref>
    requires IsSweep(op)
  {
    match op
    case SweepVms(host, seen) => StaleVms(db.rows, host, seen)
    case SweepSerials(seen) => StaleSerials(db.rows, seen)
    case SweepUuids(seen) => StaleUuids(db, seen)
  }

  function TombStatus(op: Op): string
    requires IsSweep(op)
  {
    if op.SweepVms? then "stopped" else "inactive"
  }

  function Tombstone(op: Op): Diff
    requires IsSweep(op)
  {
    if op.SweepVms? then VmTombstone() else DeviceTombstone()
  }

  /** `CRUDAlert.upsert`; None when its query finds several rows. */
  ghost function RaiseTriple(alerts: Alerting, entity: Option<string>, entityId: Option<nat>, kind: AlertType,
                             severity: Severity, text: string): Option<Alerting>
  {
    var found := Triples(alerts, entity, entityId, kind);
    if !AtMostOne(found) then None
    else if found == {} then Some(alerts + [Some(Alert(entity, entityId, kind, severity, Plain(text), None))])
    else
      var i := One(found);
      Some(alerts[i := Some(alerts[i].value.(severity := severity, message := Plain(text), acknowledgedBy := None))])
  }

  /** There is an alert with this id. */
  predicate HasAlert(alerts: Alerting, i: nat) {
    i < |alerts| && alerts[i].Some?
  }

  function AcknowledgeAt(alerts: Alerting, i: nat, user: string): Alerting {
    if HasAlert(alerts, i) then alerts[i := Some(alerts[i].value.(acknowledgedBy := Some(user)))] else alerts
  }

  /** The API's partial update, which cannot touch the triple or the acknowledgement. */
  function EditAt(alerts: Alerting, i: nat, severity: Option<Severity>, text: Option<string>): Alerting {
    if !HasAlert(alerts, i) then alerts
    else
      var a := alerts[i].value;
      alerts[i := Some(a.(severity := if severity == None then a.severity else severity.value,
                          message := if text == None then a.message else Plain(text.value)))]
  }

  function DeleteAt(alerts: Alerting, i: nat): Alerting {
    if HasAlert(alerts, i) then alerts[i := None] else alerts
  }

  /** One operation; None when it raises. */
  ghost function Attempt(db: Db, op: Op): Option<Db> {
    if IsUpsert(op) then
      var s := StepOf(db, op);
      if s.Raised? then None else Some(s.db)
    else if IsSweep(op) then
      Some(Sweep(db, Stale(db, op), TombStatus(op), Tombstone(op)))
    else if op.RaiseAlert? then
      var a := RaiseTriple(db.alerts, op.entity, op.entityId, op.alertType, op.severity, op.text);
      if a == None then None else Some(db.(alerts := a.value))
    else if op.Acknowledge? then
      Some(db.(alerts := AcknowledgeAt(db.alerts, op.alert, op.user)))
    else if op.EditAlert? then
      Some(db.(alerts := EditAt(db.alerts, op.alert, op.newSeverity, op.newText)))
    else
      Some(db.(alerts := DeleteAt(db.alerts, op.alert)))
  }

  ghost function Exec(db: Db, op: Op): Db {
    var r := Attempt(db, op);
    if r == None then db else r.value
  }

  /** Any interleaving of syncs and of the alert API's writes. */
  ghost function Run(db: Db, ops: seq<Op>): Db {
    if ops == [] then db else Exec(Run(db, ops[..|ops| - 1]), ops[|ops| - 1])
  }

  /** Ids are handed out once, rows hold declared columns only, and every extension row has its device. */
  ghost predicate WellFormed(db: Db) {
    && (forall r, c :: r in db.rows && c in db.rows[r] ==> Declares(r.kind, c))
    && (forall r :: r in db.rows ==> r.id < db.nextId)
    && (forall r :: r in db.audit ==> r.id < db.nextId)
    && (forall d: nat :: d in db.servers ==> Ref(Device, d) in db.rows)
    && (forall d: nat :: d in db.networks ==> Ref(Device, d) in db.rows)
  }
}
