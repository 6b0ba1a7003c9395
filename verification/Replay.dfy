/** What every run of operations keeps: no row disappears, and the audit log replays to the row. */
module Replay {
  import opened Wrappers
  import opened Values
  import opened Diffs
  import opened Store

  /** The columns an entry sets: a create entry's values, an update's "after" values. */
  function Columns(e: Entry): Row {
    match e
    case Create(values) => values
    case Update(diff) => Afters(diff)
  }

  /** Apply audit entries in order. */
  ghost function Fold(start: Row, entries: seq<Entry>): Row {
    if entries == [] then start
    else Fold(start, entries[..|entries| - 1]) + Columns(entries[|entries| - 1])
  }

  /** Where the replay of an entity begins: its row when the run began, or the column defaults. */
  ghost function Start(origin: Db, ref: Ref): Row {
    SafeDict(if ref in origin.rows then origin.rows[ref] else ColumnDefaults(ref.kind))
  }

  /** `log` extends `base`, and replaying what was added from `start` describes `row`. */
  ghost predicate ReplaysTo(start: Row, base: seq<Entry>, log: seq<Entry>, row: Row) {
    base <= log && Describes(Fold(start, log[|base|..]), row)
  }

  ghost predicate ReplaysAt(origin: Db, db: Db, ref: Ref)
    requires ref in db.rows
  {
    ReplaysTo(Start(origin, ref), Log(origin.audit, ref), Log(db.audit, ref), db.rows[ref])
  }

  ghost predicate Replays(origin: Db, db: Db) {
    forall r :: r in db.rows ==> ReplaysAt(origin, db, r)
  }

  /** No row is ever deleted: rows keep their ids, audit logs only grow, and a new row or alert has an id
      that was never used before. */
  ghost predicate Grows(origin: Db, db: Db) {
    && origin.nextId <= db.nextId
    && (forall r :: r in origin.rows ==> r in db.rows)
    && (forall r :: r in db.rows && r.id < origin.nextId ==> r in origin.rows)
    && (forall r :: r in origin.audit ==> Log(origin.audit, r) <= Log(db.audit, r))
    && |origin.alerts| <= |db.alerts|
  }

  lemma GrowsTransitive(a: Db, b: Db, c: Db)
    requires Grows(a, b) && Grows(b, c) && WellFormed(a)
    ensures Grows(a, c)
  {
    forall r | r in a.audit ensures Log(a.audit, r) <= Log(c.audit, r) {
      if r in b.audit {
        assert Log(b.audit, r) <= Log(c.audit, r);
      }
    }
  }

  lemma FoldOne(start: Row, entries: seq<Entry>, e: Entry)
    ensures Fold(start, entries + [e]) == Fold(start, entries) + Columns(e)
  {
    assert (entries + [e])[..|entries|] == entries;
  }

  /** One more entry, which takes every description of the old row to one of the new row. */
  lemma ReplayOneMore(start: Row, base: seq<Entry>, log: seq<Entry>, row: Row, e: Entry, row': Row)
    requires ReplaysTo(start, base, log, row)
    requires forall d: Row :: Describes(d, row) ==> Describes(d + Columns(e), row')
    ensures ReplaysTo(start, base, log + [e], row')
  {
    assert (log + [e])[|base|..] == log[|base|..] + [e];
    FoldOne(start, log[|base|..], e);
  }

  lemma DescribesCreate(base: Row, full: Row)
    ensures Describes(SafeDict(base) + SafeDict(full), base + full)
  {
  }

  lemma ReplayCreate(base: Row, full: Row)
    ensures ReplaysTo(SafeDict(base), [], [Create(SafeDict(full))], base + full)
  {
    DescribesCreate(base, full);
    FoldOne(SafeDict(base), [], Create(SafeDict(full)));
    assert [Create(SafeDict(full))] == [] + [Create(SafeDict(full))];
  }

  /** Patching a description of the old row with the diff's "after" values describes the new row. */
  lemma DescribesUpdate(before: Row, after: Row)
    ensures forall d: Row :: Describes(d, before) ==>
      Describes(d + Afters(DiffOf(SafeDict(before), SafeDict(after))), after)
  {
    var diff := DiffOf(SafeDict(before), SafeDict(after));
    forall d: Row, c | Describes(d, before) && !Sensitive(c)
      ensures SafeStr(Get(d + Afters(diff), c)) == SafeStr(JsonSafe(Get(after, c)))
    {
      assert Get(SafeDict(before), c) == JsonSafe(Get(before, c));
      assert Get(SafeDict(after), c) == JsonSafe(Get(after, c));
    }
  }

  lemma InsertGrows(db: Db, kind: Kind, data: Row)
    requires WellFormed(db) && Insert(db, kind, data).Done?
    ensures var s := Insert(db, kind, data); WellFormed(s.db) && Grows(db, s.db)
  {
    DefaultsAreDeclared(kind);
  }

  lemma DefaultsAreDeclared(kind: Kind)
    ensures forall c :: c in ColumnDefaults(kind) ==> Declares(kind, c)
    ensures kind == Device || kind == Vm ==> Declares(kind, "status")
  {
  }

  lemma OverwriteAlertsGrow(alerts: Alerting, device: nat, row: Row, diff: Diff)
    ensures
      var r := RaiseOverwrite(alerts, device, row, diff);
      r != None ==> |alerts| <= |r.value|
  {
  }

  lemma MergeIsDeclared(kind: Kind, row: Row, data: Row)
    requires forall c :: c in row ==> Declares(kind, c)
    ensures forall c :: c in Merge(row, Kept(kind, data)) ==> Declares(kind, c)
  {
    hide Declares;
  }

  lemma OverwriteGrows(db: Db, ref: Ref, data: Row)
    requires WellFormed(db) && ref in db.rows && Overwrite(db, ref, data).Done?
    ensures var s := Overwrite(db, ref, data); WellFormed(s.db) && Grows(db, s.db)
  {
    hide RaiseOverwrite, DiffOf, SafeDict, Nulls, Merge, Kept, Declares, Changes, Grows, Append;
    NothingGrows(db);
    var before := db.rows[ref];
    var after := Merge(before, Kept(ref.kind, data));
    MergeIsDeclared(ref.kind, before, data);
    var diff := DiffOf(SafeDict(before), SafeDict(after));
    OverwriteAlertsGrow(db.alerts, ref.id, after, diff);
    if Overwrite(db, ref, data).outcome == ItemUpdated {
      WriteGrows(db, ref, after, Update(diff), Overwrite(db, ref, data).db.alerts);
    }
  }

  lemma NothingGrows(db: Db)
    ensures Grows(db, db)
  {
  }

  lemma WriteGrows(db: Db, ref: Ref, row: Row, e: Entry, alerts: Alerting)
    requires WellFormed(db) && ref in db.rows && (forall c :: c in row ==> Declares(ref.kind, c))
    requires |db.alerts| <= |alerts|
    ensures
      var db' := db.(rows := db.rows[ref := row], audit := Append(db.audit, ref, e), alerts := alerts);
      WellFormed(db') && Grows(db, db')
  {
    hide Declares;
  }

  lemma PutGrows(db: Db, sel: set<Ref>, kind: Kind, data: Row)
    requires sel <= db.rows.Keys && WellFormed(db) && Put(db, sel, kind, data).Done?
    ensures var s := Put(db, sel, kind, data); WellFormed(s.db) && Grows(db, s.db) && s.ref in s.db.rows
  {
    if sel == {} { InsertGrows(db, kind, data); } else { OverwriteGrows(db, One(sel), data); }
  }

  lemma InsertReplays(origin: Db, db: Db, kind: Kind, data: Row)
    requires WellFormed(origin) && WellFormed(db) && Grows(origin, db) && Replays(origin, db)
    requires Insert(db, kind, data).Done?
    ensures Replays(origin, Insert(db, kind, data).db)
  {
    hide ReplaysTo, SafeDict, WithStatus, ColumnDefaults, Creatable;
    var s := Insert(db, kind, data);
    forall r | r in s.db.rows ensures ReplaysAt(origin, s.db, r) {
      if r == s.ref {
        var full := WithStatus(kind, data);
        ReplayCreate(ColumnDefaults(kind), full);
        assert Log(s.db.audit, r) == [] + [Create(SafeDict(full))] == [Create(SafeDict(full))];
      } else {
        assert ReplaysAt(origin, db, r);
      }
    }
  }

  lemma OverwriteReplays(origin: Db, db: Db, ref: Ref, data: Row)
    requires ref in db.rows && Replays(origin, db) && Overwrite(db, ref, data).Done?
    ensures Replays(origin, Overwrite(db, ref, data).db)
  {
    hide ReplaysTo, RaiseOverwrite, DiffOf, SafeDict, Nulls;
    var s := Overwrite(db, ref, data);
    if s.outcome == ItemUpdated {
      var before, after := db.rows[ref], s.db.rows[ref];
      var diff := DiffOf(SafeDict(before), SafeDict(after));
      forall r | r in s.db.rows ensures ReplaysAt(origin, s.db, r) {
        assert ReplaysAt(origin, db, r);
        if r == ref {
          DescribesUpdate(before, after);
          ReplayOneMore(Start(origin, r), Log(origin.audit, r), Log(db.audit, r), before, Update(diff), after);
        }
      }
    }
  }

  lemma SweepGrows(db: Db, stale: set<Ref>, status: string, diff: Diff)
    requires stale <= db.rows.Keys && WellFormed(db) && forall r :: r in stale ==> Declares(r.kind, "status")
    ensures var db' := Sweep(db, stale, status, diff); WellFormed(db') && Grows(db, db')
  {
  }

  lemma DescribesStatus(row: Row, status: string, e: Entry)
    requires Columns(e) == map["status" := Text(status)]
    ensures forall d: Row :: Describes(d, row) ==> Describes(d + Columns(e), row["status" := Text(status)])
  {
  }

  lemma SweepReplays(origin: Db, db: Db, stale: set<Ref>, status: string, diff: Diff)
    requires stale <= db.rows.Keys && Replays(origin, db)
    requires Afters(diff) == map["status" := Text(status)]
    ensures Replays(origin, Sweep(db, stale, status, diff))
  {
    var db' := Sweep(db, stale, status, diff);
    forall r | r in db'.rows ensures ReplaysAt(origin, db', r) {
      assert ReplaysAt(origin, db, r);
      if r in stale {
        DescribesStatus(db.rows[r], status, Update(diff));
        ReplayOneMore(Start(origin, r), Log(origin.audit, r), Log(db.audit, r), db.rows[r], Update(diff), db'.rows[r]);
      }
    }
  }

  lemma ExtendedGrows(db: Db, mid: Db, id: nat, op: Op)
    requires WellFormed(mid) && Grows(db, mid) && Ref(Device, id) in mid.rows
    ensures WellFormed(Extended(mid, id, op)) && Grows(db, Extended(mid, id, op))
  {
  }

  lemma OnlyDevicesAreExtended(db: Db, id: nat, op: Op)
    requires IsUpsert(op) && KindOf(op) != Device
    ensures Extended(db, id, op) == db && ExtensionFits(db, id, op)
  {
  }

  lemma PutKind(db: Db, sel: set<Ref>, kind: Kind, data: Row)
    requires sel <= db.rows.Keys && Put(db, sel, kind, data).Done?
    requires forall r :: r in sel ==> r.kind == kind
    ensures Put(db, sel, kind, data).ref.kind == kind
  {
  }

  lemma UpsertGrows(db: Db, op: Op)
    requires IsUpsert(op) && WellFormed(db)
    ensures WellFormed(Exec(db, op)) && Grows(db, Exec(db, op))
  {
    hide Put, ExtensionFits, Target, Grows, WellFormed, Extended, DataOf;
    TargetsOfKind(db, op);
    var s := Put(db, Target(db, op), KindOf(op), DataOf(op));
    if StepOf(db, op).Done? {
      PutGrows(db, Target(db, op), KindOf(op), DataOf(op));
      if KindOf(op) == Device {
        PutKind(db, Target(db, op), KindOf(op), DataOf(op));
        ExtendedGrows(db, s.db, s.ref.id, op);
      } else {
        OnlyDevicesAreExtended(s.db, s.ref.id, op);
      }
    } else {
      NothingGrows(db);
    }
  }

  lemma ExecGrows(db: Db, op: Op)
    requires WellFormed(db)
    ensures WellFormed(Exec(db, op)) && Grows(db, Exec(db, op))
  {
    hide WellFormed, Grows;
    if IsUpsert(op) {
      UpsertGrows(db, op);
    } else if IsSweep(op) {
      DefaultsAreDeclared(Device);
      DefaultsAreDeclared(Vm);
      SweepGrows(db, Stale(db, op), TombStatus(op), Tombstone(op));
    } else {
      AlertWritesGrow(db, op);
    }
  }

  lemma AlertWritesGrow(db: Db, op: Op)
    requires WellFormed(db) && !IsUpsert(op) && !IsSweep(op)
    ensures WellFormed(Exec(db, op)) && Grows(db, Exec(db, op))
  {
  }

  lemma SameRowsReplay(origin: Db, db: Db, db': Db)
    requires Replays(origin, db) && db'.rows == db.rows && db'.audit == db.audit
    ensures Replays(origin, db')
  {
    forall r | r in db'.rows ensures ReplaysAt(origin, db', r) { assert ReplaysAt(origin, db, r); }
  }

  lemma PutReplays(origin: Db, db: Db, sel: set<Ref>, kind: Kind, data: Row)
    requires sel <= db.rows.Keys && Put(db, sel, kind, data).Done?
    requires WellFormed(origin) && WellFormed(db) && Grows(origin, db) && Replays(origin, db)
    ensures Replays(origin, Put(db, sel, kind, data).db)
  {
    if sel == {} { InsertReplays(origin, db, kind, data); } else { OverwriteReplays(origin, db, One(sel), data); }
  }

  /** Apart from the extension tables an upsert does exactly what `Put` does. */
  lemma UpsertIsPut(db: Db, op: Op)
    requires IsUpsert(op)
    ensures var s, db' := Put(db, Target(db, op), KindOf(op), DataOf(op)), Exec(db, op);
      if StepOf(db, op).Raised? then db' == db
      else
        && s.Done? && StepOf(db, op).ref == s.ref
        && db'.rows == s.db.rows && db'.audit == s.db.audit && db'.alerts == s.db.alerts && db'.nextId == s.db.nextId
  {
  }

  lemma UpsertReplays(origin: Db, db: Db, op: Op)
    requires IsUpsert(op) && WellFormed(origin) && WellFormed(db) && Grows(origin, db) && Replays(origin, db)
    ensures Replays(origin, Exec(db, op))
  {
    var s := Put(db, Target(db, op), KindOf(op), DataOf(op));
    UpsertIsPut(db, op);
    if StepOf(db, op).Done? {
      PutReplays(origin, db, Target(db, op), KindOf(op), DataOf(op));
      SameRowsReplay(origin, s.db, Exec(db, op));
    }
  }

  lemma TombstoneSetsStatus(op: Op)
    requires IsSweep(op)
    ensures Afters(Tombstone(op)) == map["status" := Text(TombStatus(op))]
  {
  }

  lemma ExecReplays(origin: Db, db: Db, op: Op)
    requires WellFormed(origin) && WellFormed(db) && Grows(origin, db) && Replays(origin, db)
    ensures Replays(origin, Exec(db, op))
  {
    hide Replays, Sweep, StepOf, Grows;
    if IsUpsert(op) {
      UpsertReplays(origin, db, op);
    } else if IsSweep(op) {
      TombstoneSetsStatus(op);
      SweepReplays(origin, db, Stale(db, op), TombStatus(op), Tombstone(op));
    } else {
      SameRowsReplay(origin, db, Exec(db, op));
    }
  }

  /** Every run, from any tables: rows and log entries are never lost, and for every entity the
      entries the run added rebuild its current row. */
  lemma {:induction false} RunReplays(origin: Db, ops: seq<Op>)
    requires WellFormed(origin)
    ensures WellFormed(Run(origin, ops)) && Grows(origin, Run(origin, ops)) && Replays(origin, Run(origin, ops))
  {
    if ops == [] {
      forall r | r in origin.rows ensures ReplaysAt(origin, origin, r) {
        assert Log(origin.audit, r)[|Log(origin.audit, r)|..] == [];
      }
    } else {
      var db := Run(origin, ops[..|ops| - 1]);
      RunReplays(origin, ops[..|ops| - 1]);
      ExecGrows(db, ops[|ops| - 1]);
      GrowsTransitive(origin, db, Run(origin, ops));
      ExecReplays(origin, db, ops[|ops| - 1]);
    }
  }
}
