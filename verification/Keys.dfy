/** Dedup keys: every keyed upsert is an update of a finite map from key to row, and no run of
    operations makes a key ambiguous. */
module Keys {
  import opened Values
  import opened Diffs
  import opened Store
  import opened Replay
  import opened Alerts
  import Tables

  /** A dedup key is one column or a pair of columns; a falsy single-column key is no key. */
  datatype DedupKey = Unkeyed | Single(v: Value) | Pair(v: Value, w: Value)

  function SingleKey(v: Value): DedupKey {
    if Truthy(v) then Single(v) else Unkeyed
  }

  function KeyOf(kind: Kind, row: Row): DedupKey {
    match kind
    case Host => SingleKey(Get(row, "platform_uuid"))
    case Vm => SingleKey(Get(row, "platform_vm_id"))
    case Cluster => Pair(Get(row, "name"), Get(row, "platform"))
    case Datastore => Pair(Get(row, "cluster_id"), Get(row, "name"))
    case Device => Unkeyed
  }

  ghost function KeyFn(kind: Kind): Row -> DedupKey {
    (row: Row) => KeyOf(kind, row)
  }

  ghost function Part(kind: Kind): Ref -> bool {
    (r: Ref) => r.kind == kind
  }

  ghost predicate Unique(rows: map<Ref, Row>, kind: Kind) {
    Tables.Unique(rows, Part(kind), KeyFn(kind), Unkeyed)
  }

  /** The finite map an upsert refines: from dedup key to the row that carries it. */
  ghost function KeyTable(rows: map<Ref, Row>, kind: Kind): map<DedupKey, Row>
    requires Unique(rows, kind)
  {
    Tables.KeyTable(rows, Part(kind), KeyFn(kind), Unkeyed)
  }

  /** What the key of `data` maps to after the upsert. */
  function Upserted(table: map<DedupKey, Row>, kind: Kind, k: DedupKey, data: Row): Row {
    if k in table then Merge(table[k], data) else ColumnDefaults(kind) + WithStatus(kind, data)
  }

  /** The lookup of a keyed upsert selects exactly the rows that carry the key of its data. */
  lemma TargetIsKeyed(db: Db, op: Op, r: Ref)
    requires IsUpsert(op) && KindOf(op) != Device
    ensures r in Target(db, op) <==>
      (r in db.rows && r.kind == KindOf(op) && KeyOf(KindOf(op), Stored(op)) != Unkeyed
       && KeyOf(r.kind, db.rows[r]) == KeyOf(KindOf(op), Stored(op)))
  {
    hide Stored;
    StoredKey(op);
    if op.UpsertCluster? {
      PairMatches("name", Get(op.data, "name"), "platform", Get(op.data, "platform"));
    } else if op.UpsertDatastore? {
      PairMatches("cluster_id", Key(op.cluster), "name", Get(op.data, "name"));
    }
  }

  /** The key columns are declared, so their values are stored. */
  lemma StoredKey(op: Op)
    requires IsUpsert(op) && KindOf(op) != Device
    ensures KeyOf(KindOf(op), Stored(op)) ==
      match op
      case UpsertCluster(data) => Pair(Get(data, "name"), Get(data, "platform"))
      case UpsertHost(_, data, _) => SingleKey(Get(data, "platform_uuid"))
      case UpsertVm(_, data, _) => SingleKey(Get(data, "platform_vm_id"))
      case UpsertDatastore(cluster, data) => Pair(Key(cluster), Get(data, "name"))
      case _ => Unkeyed
  {
  }

  lemma PairMatches(c: Column, v: Value, d: Column, w: Value)
    requires c != d
    ensures forall row: Row :: Matches(row, map[c := v, d := w]) <==> Get(row, c) == v && Get(row, d) == w
  {
  }

  lemma KeyAfterMerge(op: Op, row: Row)
    requires IsUpsert(op) && KindOf(op) != Device && KeyOf(KindOf(op), row) == KeyOf(KindOf(op), Stored(op))
    ensures KeyOf(KindOf(op), Merge(row, Stored(op))) == KeyOf(KindOf(op), Stored(op))
  {
  }

  lemma KeyAfterInsert(op: Op)
    requires IsUpsert(op) && KindOf(op) != Device
    ensures KeyOf(KindOf(op), ColumnDefaults(KindOf(op)) + WithStatus(KindOf(op), Stored(op))) ==
      KeyOf(KindOf(op), Stored(op))
  {
  }

  /** With unique keys the lookup never finds several rows. */
  lemma TargetIsSingle(db: Db, op: Op)
    requires IsUpsert(op) && KindOf(op) != Device && Unique(db.rows, KindOf(op))
    ensures AtMostOne(Target(db, op))
  {
    var sel := Target(db, op);
    if sel != {} {
      forall r | r in sel ensures r == One(sel) {
        TargetIsKeyed(db, op, r);
        TargetIsKeyed(db, op, One(sel));
      }
    }
  }

  /** The row an upsert writes, and where. */
  ghost function WrittenRef(db: Db, sel: set<Ref>, kind: Kind): Ref {
    if sel == {} then Ref(kind, db.nextId) else One(sel)
  }

  ghost function WrittenRow(db: Db, sel: set<Ref>, kind: Kind, data: Row): Row
    requires sel <= db.rows.Keys
  {
    if sel == {} then ColumnDefaults(kind) + WithStatus(kind, data) else Merge(db.rows[One(sel)], data)
  }

  lemma PutWrites(db: Db, sel: set<Ref>, kind: Kind, data: Row)
    requires sel <= db.rows.Keys && (forall r :: r in sel ==> r.kind == kind)
    ensures Put(db, sel, kind, data).Done? ==> AtMostOne(sel)
    ensures kind != Device ==> (Put(db, sel, kind, data).Raised? <==> !Writable(db, sel, kind, data))
    ensures
      var s := Put(db, sel, kind, data);
      s.Done? ==>
        && s.ref == WrittenRef(db, sel, kind) && s.ref.kind == kind
        && s.db.rows == db.rows[s.ref := WrittenRow(db, sel, kind, Kept(kind, data))]
        && s.db.servers == db.servers && s.db.networks == db.networks
        && (s.outcome == ItemCreated <==> sel == {})
  {
    hide DiffOf, SafeDict, Alertable, RaiseOverwrite, Declares, Creatable, Append;
    if sel == {} {
      CreatableIsKept(kind, data);
    } else if !Changes(db.rows[One(sel)], data) {
      assert Merge(db.rows[One(sel)], Kept(kind, data)) == db.rows[One(sel)];
    }
  }

  lemma CreatableIsKept(kind: Kind, data: Row)
    ensures Creatable(kind, WithStatus(kind, data)) ==> Kept(kind, data) == data
  {
    hide Declares;
    assert forall c :: c in data ==> c in WithStatus(kind, data);
  }

  /** Before the call: the lookup is not ambiguous, a row that has to be created can be, and no column that
      may not be NULL is set to NULL. */
  ghost predicate Writable(db: Db, sel: set<Ref>, kind: Kind, data: Row)
    requires sel <= db.rows.Keys
  {
    && AtMostOne(sel)
    && if sel == {} then Creatable(kind, WithStatus(kind, data)) else !Nulls(kind, db.rows[One(sel)], data)
  }

  /** The same for an upsert, together with its extension row. */
  ghost predicate Acceptable(db: Db, op: Op)
    requires IsUpsert(op) && Target(db, op) <= db.rows.Keys
  {
    && Writable(db, Target(db, op), KindOf(op), DataOf(op))
    && ExtensionFits(db, WrittenRef(db, Target(db, op), KindOf(op)).id, op)
  }

  /** An upsert of any kind writes at most one row, and of its own kind. */
  lemma UpsertWritesOne(db: Db, op: Op)
    requires IsUpsert(op)
    ensures Target(db, op) <= db.rows.Keys
    ensures StepOf(db, op).Raised? ==> Exec(db, op) == db
    ensures
      var s, sel, kind := StepOf(db, op), Target(db, op), KindOf(op);
      s.Done? ==>
        && AtMostOne(sel)
        && s.ref == WrittenRef(db, sel, kind) && s.ref.kind == kind
        && s.db.rows == db.rows[s.ref := WrittenRow(db, sel, kind, Stored(op))]
        && Exec(db, op) == s.db
        && (ServerOf(op) != map[] ==> s.db.servers == Extend(db.servers, s.ref.id, ServerOf(op), ServerColumns()))
        && (ServerOf(op) == map[] ==> s.db.servers == db.servers)
        && (NetworkOf(op) != map[] ==>
              s.db.networks == Extend(db.networks, s.ref.id, NetworkOf(op), NetworkColumns()))
        && (NetworkOf(op) == map[] ==> s.db.networks == db.networks)
        && (s.outcome == ItemCreated <==> sel == {})
  {
    hide ServerOf, NetworkOf, ExtensionFits, Put, Declares, Target, WrittenRow;
    TargetsOfKind(db, op);
    PutWrites(db, Target(db, op), KindOf(op), DataOf(op));
  }

  /** The row a keyed upsert stores is the one `Upserted` names. */
  lemma StoresUpserted(db: Db, op: Op, sel: set<Ref>, kind: Kind, key: DedupKey)
    requires IsUpsert(op) && KindOf(op) == kind != Device && Target(db, op) == sel
    requires KeyOf(kind, Stored(op)) == key != Unkeyed
    requires sel <= db.rows.Keys && Unique(db.rows, kind)
    ensures Upserted(KeyTable(db.rows, kind), kind, key, Stored(op)) == WrittenRow(db, sel, kind, Stored(op))
  {
    hide Target, Stored, KeyOf;
    if sel != {} {
      TargetIsKeyed(db, op, One(sel));
      Tables.EntryOf(db.rows, Part(kind), KeyFn(kind), Unkeyed, One(sel));
    } else if key in KeyTable(db.rows, kind) {
      var r := Tables.RowOf(db.rows, Part(kind), KeyFn(kind), Unkeyed, key);
      TargetIsKeyed(db, op, r);
    }
  }

  /** The upsert keeps its row's key, and no other row carries it. */
  lemma UpsertIsInPlace(db: Db, op: Op, ref: Ref, row: Row)
    requires IsUpsert(op) && KindOf(op) != Device && WellFormed(db) && AtMostOne(Target(db, op))
    requires Target(db, op) <= db.rows.Keys
    requires ref == WrittenRef(db, Target(db, op), KindOf(op))
    requires row == WrittenRow(db, Target(db, op), KindOf(op), Stored(op))
    ensures KeyOf(KindOf(op), row) == KeyOf(KindOf(op), Stored(op))
    ensures Tables.Keyed(db.rows, Part(KindOf(op)), KeyFn(KindOf(op)), Unkeyed, ref)
      ==> KeyFn(KindOf(op))(row) == KeyFn(KindOf(op))(db.rows[ref])
    ensures Tables.Free(db.rows, Part(KindOf(op)), KeyFn(KindOf(op)), Unkeyed, ref, row)
  {
    var sel, kind := Target(db, op), KindOf(op);
    if sel == {} {
      KeyAfterInsert(op);
    } else {
      TargetIsKeyed(db, op, ref);
      KeyAfterMerge(op, db.rows[ref]);
    }
    forall r | Tables.Keyed(db.rows, Part(kind), KeyFn(kind), Unkeyed, r) && KeyFn(kind)(db.rows[r]) == KeyFn(kind)(row)
      ensures r == ref
    {
      TargetIsKeyed(db, op, r);
    }
  }

  /** From unique keys a keyed upsert succeeds exactly when the row of its key can take the data or, where
      there is none, a row can be created from it.  It then writes one row, and on the key table it is one
      finite-map update; without a usable key it adds a row and leaves the table alone. */
  lemma UpsertRefinesMap(db: Db, op: Op)
    requires IsUpsert(op) && KindOf(op) != Device && WellFormed(db) && Unique(db.rows, KindOf(op))
    ensures
      var kind, table, key := KindOf(op), KeyTable(db.rows, KindOf(op)), KeyOf(KindOf(op), Stored(op));
      StepOf(db, op).Done? <==>
        if key in table then !Nulls(kind, table[key], DataOf(op)) else Creatable(kind, WithStatus(kind, DataOf(op)))
    ensures
      var s, kind, key := StepOf(db, op), KindOf(op), KeyOf(KindOf(op), Stored(op));
      s.Done? ==>
      && s.ref in s.db.rows && s.ref.kind == kind
      && s.db.rows == db.rows[s.ref := s.db.rows[s.ref]]
      && Unique(s.db.rows, kind)
      && KeyTable(s.db.rows, kind) ==
           (if key == Unkeyed then KeyTable(db.rows, kind)
            else KeyTable(db.rows, kind)[key := Upserted(KeyTable(db.rows, kind), kind, key, Stored(op))])
  {
    hide StepOf, Exec, Unique, KeyTable, Target, WrittenRow, Upserted, Creatable, Nulls;
    var sel, kind := Target(db, op), KindOf(op);
    TargetIsSingle(db, op);
    UpsertWritesOne(db, op);
    KeyedUpsertRaises(db, op);
    KeyedRowFound(db, op);
    if StepOf(db, op).Done? {
      KeyTableAfter(db, op);
    }
  }

  lemma KeyedUpsertRaises(db: Db, op: Op)
    requires IsUpsert(op) && KindOf(op) != Device
    ensures Target(db, op) <= db.rows.Keys
    ensures StepOf(db, op).Raised? <==> !Writable(db, Target(db, op), KindOf(op), DataOf(op))
  {
    hide Put, Writable, Target, ExtensionFits, Extended;
    TargetsOfKind(db, op);
    PutWrites(db, Target(db, op), KindOf(op), DataOf(op));
    var s := Put(db, Target(db, op), KindOf(op), DataOf(op));
    if s.Done? {
      OnlyDevicesAreExtended(s.db, s.ref.id, op);
    }
  }

  lemma KeyedRowFound(db: Db, op: Op)
    requires IsUpsert(op) && KindOf(op) != Device && Unique(db.rows, KindOf(op)) && Target(db, op) <= db.rows.Keys
    ensures
      var table, key := KeyTable(db.rows, KindOf(op)), KeyOf(KindOf(op), Stored(op));
      && (key in table <==> Target(db, op) != {})
      && (key in table ==> table[key] == db.rows[One(Target(db, op))])
  {
    hide Target, Stored, KeyOf;
    var kind, key := KindOf(op), KeyOf(KindOf(op), Stored(op));
    if Target(db, op) != {} {
      TargetIsKeyed(db, op, One(Target(db, op)));
      Tables.EntryOf(db.rows, Part(kind), KeyFn(kind), Unkeyed, One(Target(db, op)));
    } else if key in KeyTable(db.rows, kind) {
      var r := Tables.RowOf(db.rows, Part(kind), KeyFn(kind), Unkeyed, key);
      TargetIsKeyed(db, op, r);
    }
  }

  lemma KeyTableAfter(db: Db, op: Op)
    requires IsUpsert(op) && KindOf(op) != Device && WellFormed(db) && Unique(db.rows, KindOf(op))
    requires StepOf(db, op).Done?
    ensures
      var s, kind, key := StepOf(db, op), KindOf(op), KeyOf(KindOf(op), Stored(op));
      && Unique(s.db.rows, kind)
      && KeyTable(s.db.rows, kind) ==
           (if key == Unkeyed then KeyTable(db.rows, kind)
            else KeyTable(db.rows, kind)[key := Upserted(KeyTable(db.rows, kind), kind, key, Stored(op))])
  {
    hide StepOf, Target, WrittenRow, Upserted, Stored;
    UpsertWritesOne(db, op);
    var s, sel, kind := StepOf(db, op), Target(db, op), KindOf(op);
    UpsertIsInPlace(db, op, s.ref, s.db.rows[s.ref]);
    Tables.WriteInPlace(db.rows, Part(kind), KeyFn(kind), Unkeyed, s.ref, s.db.rows[s.ref]);
    if KeyOf(kind, Stored(op)) != Unkeyed {
      StoresUpserted(db, op, sel, kind, KeyOf(kind, Stored(op)));
    }
  }

  // ---------- whole runs ----------

  lemma OtherKindKeepsUnique(rows: map<Ref, Row>, kind: Kind, ref: Ref, row: Row)
    requires Unique(rows, kind) && ref.kind != kind
    ensures Unique(rows[ref := row], kind)
  {
    var rows' := rows[ref := row];
    forall r1, r2 | Tables.Keyed(rows', Part(kind), KeyFn(kind), Unkeyed, r1)
                    && Tables.Keyed(rows', Part(kind), KeyFn(kind), Unkeyed, r2)
                    && KeyFn(kind)(rows'[r1]) == KeyFn(kind)(rows'[r2])
      ensures r1 == r2
    {
      assert Tables.Keyed(rows, Part(kind), KeyFn(kind), Unkeyed, r1);
      assert Tables.Keyed(rows, Part(kind), KeyFn(kind), Unkeyed, r2);
    }
  }

  lemma StatusIsNoKey(kind: Kind, row: Row, status: Value)
    ensures KeyOf(kind, row["status" := status]) == KeyOf(kind, row)
  {
  }

  lemma SweepKeepsUnique(db: Db, stale: set<Ref>, status: string, diff: Diff, kind: Kind)
    requires Unique(db.rows, kind)
    ensures Unique(Sweep(db, stale, status, diff).rows, kind)
  {
    var rows' := Sweep(db, stale, status, diff).rows;
    forall r | r in rows' ensures KeyFn(kind)(rows'[r]) == KeyFn(kind)(db.rows[r]) {
      StatusIsNoKey(kind, db.rows[r], Text(status));
    }
    forall r1, r2 | Tables.Keyed(rows', Part(kind), KeyFn(kind), Unkeyed, r1)
                    && Tables.Keyed(rows', Part(kind), KeyFn(kind), Unkeyed, r2)
                    && KeyFn(kind)(rows'[r1]) == KeyFn(kind)(rows'[r2])
      ensures r1 == r2
    {
      assert Tables.Keyed(db.rows, Part(kind), KeyFn(kind), Unkeyed, r1);
      assert Tables.Keyed(db.rows, Part(kind), KeyFn(kind), Unkeyed, r2);
    }
  }

  lemma ExecKeepsUnique(db: Db, op: Op, kind: Kind)
    requires kind != Device && WellFormed(db) && Unique(db.rows, kind)
    ensures Unique(Exec(db, op).rows, kind)
  {
    if IsUpsert(op) {
      UpsertWritesOne(db, op);
      if KindOf(op) == kind {
        UpsertRefinesMap(db, op);
      } else if StepOf(db, op).Done? {
        var s := StepOf(db, op);
        OtherKindKeepsUnique(db.rows, kind, s.ref, s.db.rows[s.ref]);
      }
    } else if IsSweep(op) {
      SweepKeepsUnique(db, Stale(db, op), TombStatus(op), Tombstone(op), kind);
    }
  }

  /** No run makes a cluster, host, VM or datastore key ambiguous, so no lookup in it finds two rows. */
  lemma {:induction false} RunKeepsUnique(origin: Db, ops: seq<Op>, kind: Kind)
    requires kind != Device && WellFormed(origin) && Unique(origin.rows, kind)
    ensures Unique(Run(origin, ops).rows, kind)
    ensures forall op :: IsUpsert(op) && KindOf(op) == kind ==> AtMostOne(Target(Run(origin, ops), op))
  {
    hide Exec, Target, AtMostOne;
    if ops != [] {
      RunKeepsUnique(origin, ops[..|ops| - 1], kind);
      RunReplays(origin, ops[..|ops| - 1]);
      ExecKeepsUnique(Run(origin, ops[..|ops| - 1]), ops[|ops| - 1], kind);
    }
    forall op | IsUpsert(op) && KindOf(op) == kind ensures AtMostOne(Target(Run(origin, ops), op)) {
      TargetIsSingle(Run(origin, ops), op);
    }
  }

  /** Every key but the devices' is unambiguous. */
  ghost predicate KeysUnique(db: Db) {
    WellFormed(db) && Unique(db.rows, Cluster) && Unique(db.rows, Host) && Unique(db.rows, Vm)
      && Unique(db.rows, Datastore)
  }

  lemma KeysStayUnique(origin: Db, ops: seq<Op>)
    requires KeysUnique(origin)
    ensures KeysUnique(Run(origin, ops))
  {
    RunReplays(origin, ops);
    RunKeepsUnique(origin, ops, Cluster);
    RunKeepsUnique(origin, ops, Host);
    RunKeepsUnique(origin, ops, Vm);
    RunKeepsUnique(origin, ops, Datastore);
  }

  /** The platform id column of hosts and VMs. */
  function IdColumn(kind: Kind): Column {
    if kind == Host then "platform_uuid" else "platform_vm_id"
  }

  lemma KeyIsId(kind: Kind, a: Row, b: Row)
    requires (kind == Host || kind == Vm) && KeyOf(kind, a) == KeyOf(kind, b) != Unkeyed
    ensures Get(a, IdColumn(kind)) == Get(b, IdColumn(kind))
  {
  }

  lemma IdFixed(db: Db, op: Op, r: Ref)
    requires WellFormed(db) && r in db.rows && (r.kind == Host || r.kind == Vm)
    ensures r in Exec(db, op).rows && Get(Exec(db, op).rows[r], IdColumn(r.kind)) == Get(db.rows[r], IdColumn(r.kind))
  {
    if IsUpsert(op) {
      UpsertFixesId(db, op, r);
    }
  }

  lemma UpsertFixesId(db: Db, op: Op, r: Ref)
    requires IsUpsert(op) && WellFormed(db) && r in db.rows && (r.kind == Host || r.kind == Vm)
    ensures r in Exec(db, op).rows && Get(Exec(db, op).rows[r], IdColumn(r.kind)) == Get(db.rows[r], IdColumn(r.kind))
  {
    hide StepOf, Exec, Target, Stored, KeyOf, Merge;
    UpsertWritesOne(db, op);
    var sel := Target(db, op);
    if StepOf(db, op).Done? && r == WrittenRef(db, sel, KindOf(op)) {
      TargetIsKeyed(db, op, r);
      KeyAfterMerge(op, db.rows[r]);
      KeyIsId(r.kind, db.rows[r], Exec(db, op).rows[r]);
    }
  }

  /** A host or VM row keeps its platform id for ever. */
  lemma {:induction false} RunKeepsId(db: Db, ops: seq<Op>, r: Ref)
    requires WellFormed(db) && r in db.rows && (r.kind == Host || r.kind == Vm)
    ensures r in Run(db, ops).rows && Get(Run(db, ops).rows[r], IdColumn(r.kind)) == Get(db.rows[r], IdColumn(r.kind))
  {
    if ops != [] {
      RunKeepsId(db, ops[..|ops| - 1], r);
      RunReplays(db, ops[..|ops| - 1]);
      IdFixed(Run(db, ops[..|ops| - 1]), ops[|ops| - 1], r);
    }
  }

  /** After a host upsert the returned row carries the reported uuid. */
  lemma HostUpsertBinds(db: Db, op: Op)
    requires op.UpsertHost? && "platform_uuid" in op.data && StepOf(db, op).Done?
    ensures
      var s := StepOf(db, op);
      s.ref in s.db.rows && s.ref.kind == Host && Get(s.db.rows[s.ref], "platform_uuid") == op.data["platform_uuid"]
  {
    hide StepOf, Exec, Target, Merge, Stored;
    var sel := Target(db, op);
    UpsertWritesOne(db, op);
    UuidIsStored(op);
    if sel != {} {
      MergeReads(db.rows[One(sel)], Stored(op), "platform_uuid");
    }
  }

  lemma UuidIsStored(op: Op)
    requires op.UpsertHost? && "platform_uuid" in op.data
    ensures "platform_uuid" in Stored(op) && Stored(op)["platform_uuid"] == op.data["platform_uuid"]
  {
    assert Declares(Host, "platform_uuid");
  }

  // ---------- devices: three keys on one table ----------

  /** The device columns that serve as dedup keys. */
  predicate DeviceKey(c: Column) {
    c == "serial_number" || c == "management_ip"
  }

  ghost function ColumnFn(c: Column): Row -> DedupKey {
    (row: Row) => SingleKey(Get(row, c))
  }

  /** No two devices share a usable value of column `c`. */
  ghost predicate UniqueOn(rows: map<Ref, Row>, c: Column) {
    Tables.Unique(rows, Part(Device), ColumnFn(c), Unkeyed)
  }

  /** The finite map from the usable values of column `c` to the device that carries them. */
  ghost function DeviceTable(rows: map<Ref, Row>, c: Column): map<DedupKey, Row>
    requires UniqueOn(rows, c)
  {
    Tables.KeyTable(rows, Part(Device), ColumnFn(c), Unkeyed)
  }

  /** Before the call: the upsert can be carried out, and the supplied data claims a value that a device
      outside its lookup already has. */
  ghost predicate Clash(db: Db, op: Op, c: Column)
    requires IsUpsert(op) && KindOf(op) == Device
  {
    && Target(db, op) <= db.rows.Keys && Acceptable(db, op) && c in op.data && Truthy(op.data[c])
    && exists r :: r in db.rows && r.kind == Device && r !in Target(db, op) && Get(db.rows[r], c) == op.data[c]
  }

  /** What a device upsert leaves in a key column of the row it writes. */
  lemma DeviceRowReads(db: Db, op: Op, sel: set<Ref>, c: Column)
    requires IsUpsert(op) && KindOf(op) == Device && DeviceKey(c) && sel <= db.rows.Keys
    ensures Get(WrittenRow(db, sel, Device, Stored(op)), c) ==
      if c in op.data then op.data[c] else if sel == {} then Null else Get(db.rows[One(sel)], c)
  {
    if sel != {} {
      MergeReads(db.rows[One(sel)], Stored(op), c);
    }
  }

  /** While at most one alert per device is open, an upsert of any kind raises exactly when its lookup is
      ambiguous, a row has to be created and cannot be, a required column is set to NULL, or an extension
      row has to be created from undeclared columns. */
  lemma RaisesIffUnacceptable(db: Db, op: Op)
    requires IsUpsert(op) && OneOpen(db.alerts)
    ensures Target(db, op) <= db.rows.Keys
    ensures StepOf(db, op).Raised? <==> !Acceptable(db, op)
  {
    hide Put, OneOpen, Creatable, Nulls, Target, Fits;
    TargetsOfKind(db, op);
    PutAlerts(db, Target(db, op), KindOf(op), DataOf(op));
    PutWrites(db, Target(db, op), KindOf(op), DataOf(op));
  }

  lemma WriteUniqueOn(rows: map<Ref, Row>, c: Column, ref: Ref, row: Row)
    requires UniqueOn(rows, c) && ref.kind == Device
    ensures UniqueOn(rows[ref := row], c) <==>
      !(Truthy(Get(row, c)) && exists r :: r in rows && r.kind == Device && r != ref && Get(rows[r], c) == Get(row, c))
  {
    var rows' := rows[ref := row];
    if r :| r in rows && r.kind == Device && r != ref && Get(rows[r], c) == Get(row, c) && Truthy(Get(row, c)) {
      assert Tables.Keyed(rows', Part(Device), ColumnFn(c), Unkeyed, r);
      assert Tables.Keyed(rows', Part(Device), ColumnFn(c), Unkeyed, ref);
    } else {
      FreeOfDevice(rows, c, ref, row);
      Tables.WriteKeepsUnique(rows, Part(Device), ColumnFn(c), Unkeyed, ref, row);
    }
  }

  lemma FreeOfDevice(rows: map<Ref, Row>, c: Column, ref: Ref, row: Row)
    requires ref.kind == Device
    requires !(Truthy(Get(row, c))
        && exists r :: r in rows && r.kind == Device && r != ref && Get(rows[r], c) == Get(row, c))
    ensures Tables.Free(rows, Part(Device), ColumnFn(c), Unkeyed, ref, row)
  {
  }

  /** The written row claims another device's value exactly when the upsert clashes. */
  lemma ClashIsOnWrittenRow(db: Db, op: Op, c: Column)
    requires IsUpsert(op) && KindOf(op) == Device && DeviceKey(c)
    requires WellFormed(db) && UniqueOn(db.rows, c) && Target(db, op) <= db.rows.Keys && Acceptable(db, op)
    ensures
      var ref, row := WrittenRef(db, Target(db, op), Device), WrittenRow(db, Target(db, op), Device, Stored(op));
      Clash(db, op, c) <==>
        Truthy(Get(row, c))
        && exists r :: r in db.rows && r.kind == Device && r != ref && Get(db.rows[r], c) == Get(row, c)
  {
    hide Target, Stored, Creatable, Nulls, ExtensionFits;
    var sel := Target(db, op);
    TargetsOfKind(db, op);
    var ref, row := WrittenRef(db, sel, Device), WrittenRow(db, sel, Device, Stored(op));
    DeviceRowReads(db, op, sel, c);
    forall r | r in db.rows ensures r in sel <==> sel != {} && r == ref {
    }
    if c !in op.data && sel != {} && Truthy(Get(row, c)) {
      forall r | r in db.rows && r.kind == Device && Get(db.rows[r], c) == Get(row, c) ensures r == ref {
        assert Tables.Keyed(db.rows, Part(Device), ColumnFn(c), Unkeyed, r);
        assert Tables.Keyed(db.rows, Part(Device), ColumnFn(c), Unkeyed, ref);
      }
    }
  }

  /** A device upsert of any kind keeps a key column unique exactly when it does not claim a value of a
      device it did not look up. */
  lemma DeviceUpsertUnique(db: Db, op: Op, c: Column)
    requires IsUpsert(op) && KindOf(op) == Device && DeviceKey(c)
    requires WellFormed(db) && OneOpen(db.alerts) && UniqueOn(db.rows, c)
    ensures UniqueOn(Exec(db, op).rows, c) <==> !Clash(db, op, c)
  {
    hide StepOf, Exec, Target, UniqueOn, Acceptable, Stored;
    RaisesIffUnacceptable(db, op);
    UpsertWritesOne(db, op);
    if Acceptable(db, op) {
      ClashIsOnWrittenRow(db, op, c);
      WriteUniqueOn(db.rows, c, StepOf(db, op).ref, WrittenRow(db, Target(db, op), Device, Stored(op)));
    }
  }

  /** On the map from key to device, a device upsert that does not clash moves one entry: the written
      row leaves its old key and is found under its new one. */
  lemma DeviceUpsertRefinesMap(db: Db, op: Op, c: Column)
    requires IsUpsert(op) && KindOf(op) == Device && DeviceKey(c)
    requires WellFormed(db) && OneOpen(db.alerts) && UniqueOn(db.rows, c)
    requires Target(db, op) <= db.rows.Keys && Acceptable(db, op) && !Clash(db, op, c)
    ensures StepOf(db, op).Done? && UniqueOn(StepOf(db, op).db.rows, c)
    ensures
      var s, row := StepOf(db, op), WrittenRow(db, Target(db, op), Device, Stored(op));
      var rest := Tables.Without(db.rows, Part(Device), ColumnFn(c), Unkeyed, s.ref);
      && s.ref == WrittenRef(db, Target(db, op), Device)
      && s.db.rows == db.rows[s.ref := row]
      && DeviceTable(s.db.rows, c) == if Truthy(Get(row, c)) then rest[Single(Get(row, c)) := row] else rest
  {
    hide StepOf, Exec, Target, UniqueOn, WrittenRow, Acceptable, Stored;
    RaisesIffUnacceptable(db, op);
    var s, row := StepOf(db, op), WrittenRow(db, Target(db, op), Device, Stored(op));
    DeviceUpsertUnique(db, op, c);
    UpsertWritesOne(db, op);
    ClashIsOnWrittenRow(db, op, c);
    FreeOfDevice(db.rows, c, s.ref, row);
    TableAfterWrite(db.rows, c, s.ref, row);
  }

  lemma TableAfterWrite(rows: map<Ref, Row>, c: Column, ref: Ref, row: Row)
    requires UniqueOn(rows, c) && Tables.Free(rows, Part(Device), ColumnFn(c), Unkeyed, ref, row)
    ensures UniqueOn(rows[ref := row], c)
    ensures
      var rest := Tables.Without(rows, Part(Device), ColumnFn(c), Unkeyed, ref);
      DeviceTable(rows[ref := row], c) == if Truthy(Get(row, c)) then rest[Single(Get(row, c)) := row] else rest
  {
    Tables.WriteOne(rows, Part(Device), ColumnFn(c), Unkeyed, ref, row);
  }

  /** The looked-up key column of a serial or network upsert, and the value it looks for. */
  function OwnKey(op: Op): (Column, Value)
    requires op.UpsertBySerial? || op.UpsertNetwork?
  {
    if op.UpsertBySerial? then ("serial_number", Get(op.data, "serial_number")) else (op.dedupField, op.dedupValue)
  }

  /** The upsert looks devices up by key column `c`, and its data carries the looked-up value there. */
  predicate OwnsKey(op: Op, c: Column) {
    DeviceKey(c) && (op.UpsertBySerial? || op.UpsertNetwork?) && OwnKey(op) == (c, Get(op.data, c))
  }

  lemma OwnKeySelects(db: Db, op: Op, r: Ref)
    requires (op.UpsertBySerial? || op.UpsertNetwork?) && Truthy(OwnKey(op).1)
    ensures r in Target(db, op) <==> r in db.rows && r.kind == Device && Get(db.rows[r], OwnKey(op).0) == OwnKey(op).1
  {
  }

  lemma OwnKeyNeverClashes(db: Db, op: Op, c: Column)
    requires OwnsKey(op, c)
    ensures !Clash(db, op, c)
  {
    if Clash(db, op, c) {
      var r :| r in db.rows && r.kind == Device && r !in Target(db, op) && Get(db.rows[r], c) == op.data[c];
      OwnKeySelects(db, op, r);
    }
  }

  lemma OwnKeyIsSingle(db: Db, op: Op, c: Column)
    requires OwnsKey(op, c) && UniqueOn(db.rows, c) && (op.UpsertBySerial? || Truthy(op.dedupValue))
    ensures AtMostOne(Target(db, op))
  {
    var sel := Target(db, op);
    if sel != {} {
      forall r | r in sel ensures r == One(sel) {
        assert Tables.Keyed(db.rows, Part(Device), ColumnFn(c), Unkeyed, r);
        assert Tables.Keyed(db.rows, Part(Device), ColumnFn(c), Unkeyed, One(sel));
      }
    }
  }

  /** The serial upsert always, and the network upsert whenever its data carries the value it looks up,
      refines the update of a finite map from dedup key to device: from unique keys it succeeds exactly
      when the device found can take the data or, where there is none, one can be created from it, and the
      map changes at its own key only.  A falsy serial adds a row and leaves the map alone. */
  lemma OwnKeyRefinesMap(db: Db, op: Op, c: Column)
    requires OwnsKey(op, c) && WellFormed(db) && OneOpen(db.alerts) && UniqueOn(db.rows, c)
    ensures op.UpsertBySerial? || Truthy(op.dedupValue) ==>
      var table, key := DeviceTable(db.rows, c), SingleKey(Get(op.data, c));
      StepOf(db, op).Done? <==>
        && (if key in table then !Nulls(Device, table[key], DataOf(op))
            else Creatable(Device, WithStatus(Device, DataOf(op))))
        && ExtensionFits(db, WrittenRef(db, Target(db, op), Device).id, op)
    ensures
      var s, key := StepOf(db, op), SingleKey(Get(op.data, c));
      s.Done? ==>
        && UniqueOn(s.db.rows, c)
        && DeviceTable(s.db.rows, c) ==
             if key == Unkeyed then DeviceTable(db.rows, c)
             else DeviceTable(db.rows, c)[key := Upserted(DeviceTable(db.rows, c), Device, key, Stored(op))]
  {
    hide StepOf, UniqueOn, Exec, Target, Nulls, Creatable, ExtensionFits, Upserted, WrittenRow, Stored;
    RaisesIffUnacceptable(db, op);
    if op.UpsertBySerial? || Truthy(op.dedupValue) {
      OwnKeyIsSingle(db, op, c);
      DeviceFound(db, op, c);
    }
    if StepOf(db, op).Done? {
      OwnKeyNeverClashes(db, op, c);
      DeviceUpsertRefinesMap(db, op, c);
      OwnKeyStays(db, op, c);
    }
  }

  lemma DeviceFound(db: Db, op: Op, c: Column)
    requires OwnsKey(op, c) && UniqueOn(db.rows, c) && Target(db, op) <= db.rows.Keys && AtMostOne(Target(db, op))
    requires op.UpsertBySerial? || Truthy(op.dedupValue)
    ensures
      var table, key := DeviceTable(db.rows, c), SingleKey(Get(op.data, c));
      && (key in table <==> Target(db, op) != {})
      && (key in table ==> table[key] == db.rows[One(Target(db, op))])
  {
    hide Target;
    var sel, key := Target(db, op), SingleKey(Get(op.data, c));
    TargetsOfKind(db, op);
    OwnKeyMatches(db, op, c);
    if sel != {} {
      Tables.EntryOf(db.rows, Part(Device), ColumnFn(c), Unkeyed, One(sel));
    } else if key in DeviceTable(db.rows, c) {
      var r := Tables.RowOf(db.rows, Part(Device), ColumnFn(c), Unkeyed, key);
      OwnKeySelects(db, op, r);
    }
  }

  /** The entry the map update writes, and that the row's old key is the same one or none. */
  lemma OwnKeyStays(db: Db, op: Op, c: Column)
    requires OwnsKey(op, c) && WellFormed(db) && UniqueOn(db.rows, c) && AtMostOne(Target(db, op))
    ensures
      var sel, key, table := Target(db, op), SingleKey(Get(op.data, c)), DeviceTable(db.rows, c);
      var row, rest := WrittenRow(db, sel, Device, Stored(op)),
                       Tables.Without(db.rows, Part(Device), ColumnFn(c), Unkeyed, WrittenRef(db, sel, Device));
      && SingleKey(Get(row, c)) == key
      && (key == Unkeyed ==> rest == table)
      && (key != Unkeyed ==> rest[key := row] == table[key := Upserted(table, Device, key, Stored(op))])
  {
    hide Stored, Upserted, WrittenRow, UniqueOn, Target, ColumnFn, DeviceTable;
    var sel, key := Target(db, op), SingleKey(Get(op.data, c));
    TargetsOfKind(db, op);
    DeviceRowReads(db, op, sel, c);
    OwnKeyMatches(db, op, c);
    WithoutSameKey(db.rows, c, WrittenRef(db, sel, Device), key, WrittenRow(db, sel, Device, Stored(op)));
    if key != Unkeyed {
      StoresDevice(db, op, c);
    }
  }

  lemma WithoutSameKey(rows: map<Ref, Row>, c: Column, ref: Ref, key: DedupKey, row: Row)
    requires UniqueOn(rows, c) && (ref in rows ==> SingleKey(Get(rows[ref], c)) == key)
    ensures
      var table, rest := DeviceTable(rows, c), Tables.Without(rows, Part(Device), ColumnFn(c), Unkeyed, ref);
      && (key == Unkeyed ==> rest == table)
      && (key != Unkeyed ==> rest[key := row] == table[key := row])
  {
    hide UniqueOn;
  }

  lemma OwnKeyMatches(db: Db, op: Op, c: Column)
    requires OwnsKey(op, c)
    ensures forall r :: r in Target(db, op) ==> r in db.rows && Get(db.rows[r], c) == Get(op.data, c)
    ensures op.UpsertBySerial? && !Truthy(Get(op.data, c)) ==> Target(db, op) == {}
  {
  }

  lemma StoresDevice(db: Db, op: Op, c: Column)
    requires OwnsKey(op, c) && UniqueOn(db.rows, c) && Truthy(Get(op.data, c))
    ensures Upserted(DeviceTable(db.rows, c), Device, Single(Get(op.data, c)), Stored(op))
         == WrittenRow(db, Target(db, op), Device, Stored(op))
  {
    hide Target, Stored;
    var sel, key := Target(db, op), Single(Get(op.data, c));
    TargetsOfKind(db, op);
    if sel != {} {
      OwnKeySelects(db, op, One(sel));
      Tables.EntryOf(db.rows, Part(Device), ColumnFn(c), Unkeyed, One(sel));
    } else if key in DeviceTable(db.rows, c) {
      var r := Tables.RowOf(db.rows, Part(Device), ColumnFn(c), Unkeyed, key);
      OwnKeySelects(db, op, r);
    }
  }

  /** What the SSH collector meets at an address without a device, unless its target names one: there is no
      name to create a device with. */
  lemma UnnamedDeviceRaises(db: Db, op: Op)
    requires op.UpsertNetwork? && Target(db, op) == {}
    ensures "name" !in op.data ==> StepOf(db, op).Raised?
  {
    if "name" !in op.data {
      assert "name" in Required(Device) && "name" !in WithStatus(Device, DataOf(op));
    }
  }

  lemma SameColumnKeepsUniqueOn(rows: map<Ref, Row>, rows': map<Ref, Row>, c: Column)
    requires UniqueOn(rows, c)
    requires forall r: Ref :: r in rows' && r.kind == Device ==> r in rows && Get(rows'[r], c) == Get(rows[r], c)
    ensures UniqueOn(rows', c)
  {
    forall r1, r2 | Tables.Keyed(rows', Part(Device), ColumnFn(c), Unkeyed, r1)
                    && Tables.Keyed(rows', Part(Device), ColumnFn(c), Unkeyed, r2)
                    && ColumnFn(c)(rows'[r1]) == ColumnFn(c)(rows'[r2])
      ensures r1 == r2
    {
      assert Tables.Keyed(rows, Part(Device), ColumnFn(c), Unkeyed, r1);
      assert Tables.Keyed(rows, Part(Device), ColumnFn(c), Unkeyed, r2);
    }
  }

  /** The operations that make a device key ambiguous are exactly the clashing device upserts. */
  lemma ExecUniqueOn(db: Db, op: Op, c: Column)
    requires DeviceKey(c) && WellFormed(db) && OneOpen(db.alerts) && UniqueOn(db.rows, c)
    ensures UniqueOn(Exec(db, op).rows, c) <==> !(IsUpsert(op) && KindOf(op) == Device && Clash(db, op, c))
  {
    hide Exec, UniqueOn, Clash, Stored, Target;
    if IsUpsert(op) {
      hide StepOf;
      if KindOf(op) == Device {
        DeviceUpsertUnique(db, op, c);
      } else {
        UpsertWritesOne(db, op);
        SameColumnKeepsUniqueOn(db.rows, Exec(db, op).rows, c);
      }
    } else {
      OthersKeepColumn(db, op, c);
      SameColumnKeepsUniqueOn(db.rows, Exec(db, op).rows, c);
    }
  }

  lemma OthersKeepColumn(db: Db, op: Op, c: Column)
    requires !IsUpsert(op) && DeviceKey(c)
    ensures forall r: Ref :: r in Exec(db, op).rows ==>
      r in db.rows && Get(Exec(db, op).rows[r], c) == Get(db.rows[r], c)
  {
    hide RaiseTriple, Stale, Tombstone;
  }

  ghost predicate NeverClashes(origin: Db, ops: seq<Op>, c: Column) {
    forall i :: 0 <= i < |ops| && IsUpsert(ops[i]) && KindOf(ops[i]) == Device ==>
      !Clash(Run(origin, ops[..i]), ops[i], c)
  }

  ghost predicate AlwaysUnique(origin: Db, ops: seq<Op>, c: Column) {
    forall k :: 0 <= k <= |ops| ==> UniqueOn(Run(origin, ops[..k]).rows, c)
  }

  lemma NeverClashesOneMore(origin: Db, ops: seq<Op>, op: Op, c: Column)
    ensures NeverClashes(origin, ops + [op], c) <==>
      NeverClashes(origin, ops, c) && !(IsUpsert(op) && KindOf(op) == Device && Clash(Run(origin, ops), op, c))
  {
    hide Clash, Run;
    var all := ops + [op];
    assert all[..|ops|] == ops && all[|ops|] == op;
    forall i | 0 <= i < |ops| ensures all[..i] == ops[..i] && all[i] == ops[i] {
    }
  }

  lemma AlwaysUniqueOneMore(origin: Db, ops: seq<Op>, op: Op, c: Column)
    ensures AlwaysUnique(origin, ops + [op], c) <==>
      AlwaysUnique(origin, ops, c) && UniqueOn(Run(origin, ops + [op]).rows, c)
    ensures AlwaysUnique(origin, ops, c) ==> UniqueOn(Run(origin, ops).rows, c)
  {
    hide UniqueOn, Run;
    var all := ops + [op];
    assert ops[..|ops|] == ops && all[..|all|] == all;
    forall k | 0 <= k <= |ops| ensures all[..k] == ops[..k] {
    }
  }

  /** Over whole runs: a device key is unique in every state exactly when no device upsert of the run
      clashes. */
  lemma {:induction false} RunUniqueOn(origin: Db, ops: seq<Op>, c: Column)
    requires DeviceKey(c) && WellFormed(origin) && OneOpen(origin.alerts) && UniqueOn(origin.rows, c)
    ensures AlwaysUnique(origin, ops, c) <==> NeverClashes(origin, ops, c)
  {
    if ops != [] {
      hide UniqueOn, Clash, Run, Exec, AlwaysUnique, NeverClashes, RaiseOverwrite, Grows, Replays, WellFormed;
      var init, op := ops[..|ops| - 1], ops[|ops| - 1];
      assert ops == init + [op];
      RunUniqueOn(origin, init, c);
      AlwaysUniqueOneMore(origin, init, op, c);
      NeverClashesOneMore(origin, init, op, c);
      RunReplays(origin, init);
      RunKeepsOneOpen(origin, init);
      RunLast(origin, ops);
      if AlwaysUnique(origin, init, c) {
        ExecUniqueOn(Run(origin, init), op, c);
      }
    }
  }

  lemma RunLast(origin: Db, ops: seq<Op>)
    requires ops != []
    ensures Run(origin, ops) == Exec(Run(origin, ops[..|ops| - 1]), ops[|ops| - 1])
  {
  }

  /** A condition on the operations alone: every device upsert of the run either looks up by `c` what it
      writes there, or does not supply `c`.  Then `c` stays unique, and no lookup by it ever finds two rows. */
  lemma OwnersKeepKey(origin: Db, ops: seq<Op>, c: Column)
    requires DeviceKey(c) && WellFormed(origin) && OneOpen(origin.alerts) && UniqueOn(origin.rows, c)
    requires forall op :: op in ops && IsUpsert(op) && KindOf(op) == Device ==> OwnsKey(op, c) || c !in op.data
    ensures UniqueOn(Run(origin, ops).rows, c)
    ensures forall op :: OwnsKey(op, c) && (op.UpsertBySerial? || Truthy(op.dedupValue)) ==>
      AtMostOne(Target(Run(origin, ops), op))
  {
    hide UniqueOn, Clash, Run, Target, AtMostOne;
    forall i | 0 <= i < |ops| && IsUpsert(ops[i]) && KindOf(ops[i]) == Device
      ensures !Clash(Run(origin, ops[..i]), ops[i], c)
    {
      assert ops[i] in ops;
      if OwnsKey(ops[i], c) {
        OwnKeyNeverClashes(Run(origin, ops[..i]), ops[i], c);
      } else {
        OmittedNeverClashes(Run(origin, ops[..i]), ops[i], c);
      }
    }
    RunUniqueOn(origin, ops, c);
    assert ops[..|ops|] == ops;
    forall op | OwnsKey(op, c) && (op.UpsertBySerial? || Truthy(op.dedupValue))
      ensures AtMostOne(Target(Run(origin, ops), op))
    {
      OwnKeyIsSingle(Run(origin, ops), op, c);
    }
  }

  lemma OmittedNeverClashes(db: Db, op: Op, c: Column)
    requires IsUpsert(op) && KindOf(op) == Device && c !in op.data
    ensures !Clash(db, op, c)
  {
  }

  /** The xClarity upsert breaks serial uniqueness when the device found by uuid is given the serial
      number of another device. */
  lemma RebindDuplicatesSerial(db: Db, op: Op, a: Ref, b: Ref)
    requires op.UpsertByUuid? && WellFormed(db) && OneOpen(db.alerts) && UniqueOn(db.rows, "serial_number")
    requires WhereUuid(db, op.uuid) == {a} && b in db.rows && b.kind == Device && a != b
    requires "serial_number" in op.data && Truthy(op.data["serial_number"]) && !Nulls(Device, db.rows[a], DataOf(op))
    requires Get(db.rows[b], "serial_number") == op.data["serial_number"] && a.id in db.servers
    ensures StepOf(db, op).Done? && !UniqueOn(Exec(db, op).rows, "serial_number")
  {
    hide StepOf, Exec, UniqueOn, Nulls;
    assert One({a}) == a && Target(db, op) == {a};
    RaisesIffUnacceptable(db, op);
    DeviceUpsertUnique(db, op, "serial_number");
  }

  /** Such tables exist: two devices A and B, the first bound to the uuid that now reports serial B. */
  lemma UuidUpsertCanDuplicateSerial(at: string) returns (db: Db, op: Op)
    ensures WellFormed(db) && UniqueOn(db.rows, "serial_number") && op.UpsertByUuid? && op.at == at
    ensures StepOf(db, op).Done? && !UniqueOn(Exec(db, op).rows, "serial_number")
  {
    hide WellFormed, UniqueOn, StepOf, Exec, OneOpen;
    var a, b;
    db, a, b := TwoDevices();
    op := UpsertByUuid("u", map["serial_number" := Text("B")], map[], at);
    RebindDuplicatesSerial(db, op, a, b);
  }

  lemma TwoDevices() returns (db: Db, a: Ref, b: Ref)
    ensures WellFormed(db) && UniqueOn(db.rows, "serial_number") && OneOpen(db.alerts)
    ensures WhereUuid(db, "u") == {a} && a in db.rows && a.id in db.servers && a != b
    ensures b in db.rows && b.kind == Device && Get(db.rows[b], "serial_number") == Text("B")
  {
    a, b := Ref(Device, 0), Ref(Device, 1);
    var rows: map<Ref, Row> := map[a := map["serial_number" := Text("A")], b := map["serial_number" := Text("B")]];
    db := Db(rows, map[0 := map["xclarity_uuid" := Text("u")]], map[], map[], [], 2);
    assert Declares(Device, "serial_number");
    assert a in WhereUuid(db, "u");
  }

  // ---------- xclarity_uuid ----------

  /** Distinct server extensions never carry the same xClarity uuid. */
  ghost predicate UniqueUuid(servers: map<nat, Row>) {
    forall a: nat, b: nat :: a in servers && b in servers && Get(servers[a], "xclarity_uuid") != Null
      ==> Get(servers[a], "xclarity_uuid") == Get(servers[b], "xclarity_uuid") ==> a == b
  }

  /** Only the xClarity upsert supplies the uuid column of a server extension. */
  predicate UuidOnlyFromXClarity(op: Op) {
    op.UpsertBySerial? ==> "xclarity_uuid" !in op.server
  }

  lemma UuidIsExtended(servers: map<nat, Row>, id: nat, op: Op)
    requires op.UpsertByUuid?
    ensures ServerOf(op) != map[]
    ensures Get(Extend(servers, id, ServerOf(op), ServerColumns())[id], "xclarity_uuid") == Text(op.uuid)
  {
    assert "xclarity_uuid" in ServerOf(op);
  }

  lemma UuidUpsertKeepsUuids(db: Db, op: Op)
    requires op.UpsertByUuid? && WellFormed(db) && UniqueUuid(db.servers) && StepOf(db, op).Done?
    ensures UniqueUuid(Exec(db, op).servers)
    ensures WhereUuid(Exec(db, op), op.uuid) == {StepOf(db, op).ref}
  {
    hide StepOf, Exec, WrittenRow, ServerOf, ServerColumns, Stored;
    var s, db' := StepOf(db, op), Exec(db, op);
    UpsertWritesOne(db, op);
    UuidIsExtended(db.servers, s.ref.id, op);
    forall d: nat | d in db.servers && Get(db.servers[d], "xclarity_uuid") == Text(op.uuid)
      ensures s.ref == Ref(Device, d)
    {
      assert Ref(Device, d) in WhereUuid(db, op.uuid);
    }
    assert Get(db'.servers[s.ref.id], "xclarity_uuid") == Text(op.uuid);
    assert s.ref in db'.rows;
  }

  lemma OtherDataKeepsUuids(servers: map<nat, Row>, id: nat, ext: Row, declared: set<Column>)
    requires UniqueUuid(servers) && "xclarity_uuid" !in ext
    ensures UniqueUuid(Extend(servers, id, ext, declared))
  {
    var after := Extend(servers, id, ext, declared);
    forall d: nat | d in after
      ensures Get(after[d], "xclarity_uuid") == if d in servers then Get(servers[d], "xclarity_uuid") else Null
    {
    }
  }

  lemma ExecKeepsUuids(db: Db, op: Op)
    requires WellFormed(db) && UniqueUuid(db.servers) && UuidOnlyFromXClarity(op)
    ensures UniqueUuid(Exec(db, op).servers)
  {
    if IsUpsert(op) {
      hide StepOf, Exec, WrittenRow, Stored, Target, Extend, UniqueUuid, NetworkOf;
      UpsertWritesOne(db, op);
      if !op.UpsertByUuid? && StepOf(db, op).Done? {
        OtherDataKeepsUuids(db.servers, StepOf(db, op).ref.id, ServerOf(op), ServerColumns());
      }
      if op.UpsertByUuid? && StepOf(db, op).Done? {
        UuidUpsertKeepsUuids(db, op);
      }
    }
  }

  /** In every run an xClarity uuid belongs to at most one device, re-binding by serial included. */
  lemma {:induction false} RunKeepsUuids(origin: Db, ops: seq<Op>)
    requires WellFormed(origin) && UniqueUuid(origin.servers)
    requires forall i :: 0 <= i < |ops| ==> UuidOnlyFromXClarity(ops[i])
    ensures UniqueUuid(Run(origin, ops).servers)
  {
    if ops != [] {
      RunKeepsUuids(origin, ops[..|ops| - 1]);
      RunReplays(origin, ops[..|ops| - 1]);
      ExecKeepsUuids(Run(origin, ops[..|ops| - 1]), ops[|ops| - 1]);
    }
  }
}
