/** Upserts that can only update: their dictionaries hold columns their table does not declare, so no row
    can be created from them.  All dictionaries of the hypervisor services are of this kind. */
module Updates {
  import opened Values
  import opened Store
  import opened Keys

  /** The data holds an undeclared column, and no NULL where the table allows none. */
  predicate OnlyUpdates(op: Op) {
    && IsUpsert(op) && KindOf(op) != Device
    && (exists c :: c in DataOf(op) && !Declares(KindOf(op), c))
    && (forall c :: c in DataOf(op) && NotNull(KindOf(op), c) ==> DataOf(op)[c] != Null)
  }

  function OpKey(op: Op): DedupKey
    requires IsUpsert(op)
  {
    KeyOf(KindOf(op), Stored(op))
  }

  /** Some row carries the key. */
  ghost predicate HasRow(db: Db, kind: Kind, key: DedupKey) {
    key != Unkeyed && exists r :: r in db.rows && r.kind == kind && KeyOf(kind, db.rows[r]) == key
  }

  /** The same rows, and each cluster, host, VM and datastore row under its old key. */
  ghost predicate SameKeys(a: Db, b: Db) {
    && a.rows.Keys == b.rows.Keys
    && forall r :: r in a.rows && r.kind != Device ==> KeyOf(r.kind, b.rows[r]) == KeyOf(r.kind, a.rows[r])
  }

  lemma SameKeysTransitive(a: Db, b: Db, c: Db)
    requires SameKeys(a, b) && SameKeys(b, c)
    ensures SameKeys(a, c)
  {
    hide KeyOf;
  }

  lemma SameKeysSameRows(a: Db, b: Db, kind: Kind, key: DedupKey)
    requires SameKeys(a, b) && kind != Device
    ensures HasRow(a, kind, key) <==> HasRow(b, kind, key)
  {
    hide KeyOf;
    if r :| r in b.rows && r.kind == kind && KeyOf(kind, b.rows[r]) == key {
      assert KeyOf(kind, a.rows[r]) == key;
    }
  }

  lemma NeverCreatable(op: Op)
    requires OnlyUpdates(op)
    ensures !Creatable(KindOf(op), WithStatus(KindOf(op), DataOf(op)))
    ensures forall row :: !Nulls(KindOf(op), row, DataOf(op))
  {
    hide Declares, NotNull;
    var c :| c in DataOf(op) && !Declares(KindOf(op), c);
    assert c in WithStatus(KindOf(op), DataOf(op));
  }

  lemma RowIsTarget(db: Db, op: Op)
    requires IsUpsert(op) && KindOf(op) != Device
    ensures HasRow(db, KindOf(op), OpKey(op)) <==> Target(db, op) != {}
  {
    hide Target, Stored, KeyOf;
    if Target(db, op) != {} {
      TargetIsKeyed(db, op, One(Target(db, op)));
    }
    if HasRow(db, KindOf(op), OpKey(op)) {
      var r :| r in db.rows && r.kind == KindOf(op) && KeyOf(KindOf(op), db.rows[r]) == OpKey(op);
      TargetIsKeyed(db, op, r);
    }
  }

  /** From unique keys such an upsert succeeds exactly when its row exists already. */
  lemma SucceedsIffRow(db: Db, op: Op)
    requires OnlyUpdates(op) && Unique(db.rows, KindOf(op))
    ensures StepOf(db, op).Done? <==> HasRow(db, KindOf(op), OpKey(op))
  {
    hide StepOf, Unique, Target, Stored, KeyOf, Creatable, Nulls, OnlyUpdates, HasRow;
    KindIsNotDevice(op);
    TargetIsSingle(db, op);
    KeyedUpsertRaises(db, op);
    NeverCreatable(op);
    RowIsTarget(db, op);
  }

  lemma KindIsNotDevice(op: Op)
    requires OnlyUpdates(op)
    ensures IsUpsert(op) && KindOf(op) != Device
  {
  }

  /** Whatever the keys, it never creates a row and never changes a key. */
  lemma NeverCreates(db: Db, op: Op)
    requires OnlyUpdates(op)
    ensures SameKeys(db, Exec(db, op))
    ensures StepOf(db, op).Done? ==>
      var s := StepOf(db, op);
      && s.outcome != ItemCreated && s.ref in db.rows && s.ref.kind == KindOf(op)
      && KeyOf(KindOf(op), db.rows[s.ref]) == OpKey(op)
  {
    hide StepOf, Exec, Target, Stored, KeyOf, Creatable, Nulls, OnlyUpdates, Merge;
    KindIsNotDevice(op);
    UpsertWritesOne(db, op);
    KeyedUpsertRaises(db, op);
    NeverCreatable(op);
    if StepOf(db, op).Done? {
      var r := StepOf(db, op).ref;
      TargetIsKeyed(db, op, r);
      KeyAfterMerge(op, db.rows[r]);
    }
  }

  lemma SweepKeepsKeys(db: Db, op: Op)
    requires IsSweep(op)
    ensures SameKeys(db, Exec(db, op))
  {
    hide KeyOf;
    var db' := Exec(db, op);
    forall r | r in db.rows && r.kind != Device ensures KeyOf(r.kind, db'.rows[r]) == KeyOf(r.kind, db.rows[r]) {
      StatusIsNoKey(r.kind, db.rows[r], Text(TombStatus(op)));
    }
  }

  lemma SameKeysStayUnique(a: Db, b: Db)
    requires SameKeys(a, b) && KeysUnique(a) && WellFormed(b)
    ensures KeysUnique(b)
  {
    hide KeyOf, WellFormed, KeysUnique, Unique;
    KeysUniqueParts(a);
    forall kind: Kind | kind != Device ensures Unique(b.rows, kind) {
      SameKeysUnique(a, b, kind);
    }
    KeysUniqueFrom(b);
  }

  lemma KeysUniqueParts(db: Db)
    requires KeysUnique(db)
    ensures forall kind :: kind != Device ==> Unique(db.rows, kind)
  {
  }

  lemma KeysUniqueFrom(db: Db)
    requires WellFormed(db) && forall kind :: kind != Device ==> Unique(db.rows, kind)
    ensures KeysUnique(db)
  {
  }

  lemma SameKeysUnique(a: Db, b: Db, kind: Kind)
    requires SameKeys(a, b) && kind != Device
    ensures Unique(a.rows, kind) ==> Unique(b.rows, kind)
  {
    if Unique(a.rows, kind) {
      hide KeyOf;
      forall r1, r2 | Tables.Keyed(b.rows, Part(kind), KeyFn(kind), Unkeyed, r1)
                      && Tables.Keyed(b.rows, Part(kind), KeyFn(kind), Unkeyed, r2)
                      && KeyFn(kind)(b.rows[r1]) == KeyFn(kind)(b.rows[r2])
        ensures r1 == r2
      {
        assert Tables.Keyed(a.rows, Part(kind), KeyFn(kind), Unkeyed, r1);
        assert Tables.Keyed(a.rows, Part(kind), KeyFn(kind), Unkeyed, r2);
      }
    }
  }
}
