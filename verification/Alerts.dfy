/** The alert table under any interleaving of sync overwrites and of the API's upserts, edits,
    acknowledgements and deletions. */
module Alerts {
  import opened Wrappers
  import opened Values
  import opened Diffs
  import opened Store
  import opened Replay

  /** A device has at most one open alert of type `other`. */
  ghost predicate OneOpen(alerts: Alerting) {
    forall device: nat, i, j ::
      0 <= i < j < |alerts| && IsOpenOverwrite(alerts[i], device) ==> !IsOpenOverwrite(alerts[j], device)
  }

  /** Alerts never change what they are about, and a deleted one never comes back. */
  ghost predicate Keeps(before: Alerting, after: Alerting) {
    && |before| <= |after|
    && forall i :: 0 <= i < |before| && after[i].Some? ==>
         before[i].Some? && IsTriple(after[i], before[i].value.entity, before[i].value.entityId, before[i].value.kind)
  }

  /** No alert was deleted. */
  ghost predicate NoneDeleted(before: Alerting, after: Alerting) {
    |before| <= |after| && forall i :: 0 <= i < |before| && before[i].Some? ==> after[i].Some?
  }

  lemma OneOpenIsSingle(alerts: Alerting, device: nat)
    requires OneOpen(alerts)
    ensures AtMostOne(OpenOverwrites(alerts, device))
  {
    var open := OpenOverwrites(alerts, device);
    if open != {} {
      var i := One(open);
      forall j | j in open ensures j == i {}
      assert open == {i};
    }
  }

  /** The sync side never trips over its own query, and keeps the invariant. */
  lemma OverwriteKeepsOneOpen(alerts: Alerting, device: nat, row: Row, diff: Diff)
    requires OneOpen(alerts)
    ensures
      var r := RaiseOverwrite(alerts, device, row, diff);
      r != None && OneOpen(r.value) && Keeps(alerts, r.value) && NoneDeleted(alerts, r.value)
  {
    OneOpenIsSingle(alerts, device);
    var alerts' := RaiseOverwrite(alerts, device, row, diff).value;
    var open := OpenOverwrites(alerts, device);
    forall d: nat, i, j | 0 <= i < j < |alerts'| && IsOpenOverwrite(alerts'[i], d)
      ensures !IsOpenOverwrite(alerts'[j], d)
    {
      assert i < |alerts| ==> IsOpenOverwrite(alerts[i], d);
      assert open == {} && d == device ==> i !in open;
    }
  }

  /** `CRUDAlert.upsert` succeeds exactly when at most one row matches its triple; it may re-open that
      row, which is then the only one. */
  lemma TripleKeepsOneOpen(alerts: Alerting, entity: Option<string>, entityId: Option<nat>, kind: AlertType,
                           severity: Severity, text: string)
    requires OneOpen(alerts)
    ensures
      var r := RaiseTriple(alerts, entity, entityId, kind, severity, text);
      && (r != None <==> AtMostOne(Triples(alerts, entity, entityId, kind)))
      && (r != None ==> OneOpen(r.value) && Keeps(alerts, r.value) && NoneDeleted(alerts, r.value))
  {
    var found := Triples(alerts, entity, entityId, kind);
    var r := RaiseTriple(alerts, entity, entityId, kind, severity, text);
    if r != None {
      var alerts' := r.value;
      forall d: nat, i, j | 0 <= i < j < |alerts'| && IsOpenOverwrite(alerts'[i], d)
        ensures !IsOpenOverwrite(alerts'[j], d)
      {
        assert i < |alerts| && IsTriple(alerts'[i], entity, entityId, kind) ==> i in found;
        assert j < |alerts| && IsTriple(alerts'[j], entity, entityId, kind) ==> j in found;
      }
    }
  }

  lemma AcknowledgeKeepsOneOpen(alerts: Alerting, i: nat, user: string)
    requires OneOpen(alerts)
    ensures OneOpen(AcknowledgeAt(alerts, i, user)) && Keeps(alerts, AcknowledgeAt(alerts, i, user))
    ensures NoneDeleted(alerts, AcknowledgeAt(alerts, i, user))
  {
    var alerts' := AcknowledgeAt(alerts, i, user);
    forall d: nat, a, b | 0 <= a < b < |alerts'| && IsOpenOverwrite(alerts'[a], d)
      ensures !IsOpenOverwrite(alerts'[b], d)
    {
      assert IsOpenOverwrite(alerts[a], d);
    }
  }

  lemma EditKeepsOneOpen(alerts: Alerting, i: nat, severity: Option<Severity>, text: Option<string>)
    requires OneOpen(alerts)
    ensures
      var r := EditAt(alerts, i, severity, text);
      OneOpen(r) && Keeps(alerts, r) && NoneDeleted(alerts, r)
  {
    var alerts' := EditAt(alerts, i, severity, text);
    forall d: nat, a, b | 0 <= a < b < |alerts'| && IsOpenOverwrite(alerts'[a], d)
      ensures !IsOpenOverwrite(alerts'[b], d)
    {
      assert IsOpenOverwrite(alerts[a], d);
    }
  }

  /** Deleting an alert takes away that one and no other. */
  lemma DeleteKeepsOneOpen(alerts: Alerting, i: nat)
    requires OneOpen(alerts)
    ensures
      var r := DeleteAt(alerts, i);
      && OneOpen(r) && Keeps(alerts, r)
      && forall entity, entityId, kind :: Triples(r, entity, entityId, kind) ==
           Triples(alerts, entity, entityId, kind) - {i}
  {
    var alerts' := DeleteAt(alerts, i);
    forall d: nat, a, b | 0 <= a < b < |alerts'| && IsOpenOverwrite(alerts'[a], d)
      ensures !IsOpenOverwrite(alerts'[b], d)
    {
      assert IsOpenOverwrite(alerts[a], d);
    }
  }

  lemma AlertsStay(alerts: Alerting)
    ensures Keeps(alerts, alerts) && NoneDeleted(alerts, alerts)
  {
  }

  lemma PutAlerts(db: Db, sel: set<Ref>, kind: Kind, data: Row)
    requires sel <= db.rows.Keys && OneOpen(db.alerts) && (forall r :: r in sel ==> r.kind == kind)
    ensures Put(db, sel, kind, data).Raised? <==>
      || !AtMostOne(sel)
      || (sel == {} && !Creatable(kind, WithStatus(kind, data)))
      || (sel != {} && Nulls(kind, db.rows[One(sel)], data))
    ensures Put(db, sel, kind, data).Done? ==>
      var alerts := Put(db, sel, kind, data).db.alerts;
      OneOpen(alerts) && Keeps(db.alerts, alerts) && NoneDeleted(db.alerts, alerts)
  {
    hide RaiseOverwrite, Creatable, OneOpen, Keeps, NoneDeleted, DiffOf, SafeDict, Merge, Kept, Append;
    AlertsStay(db.alerts);
    if AtMostOne(sel) && sel != {} {
      var before := db.rows[One(sel)];
      var after := Merge(before, Kept(kind, data));
      OverwriteKeepsOneOpen(db.alerts, One(sel).id, after, DiffOf(SafeDict(before), SafeDict(after)));
    }
  }

  lemma ExecKeepsOneOpen(db: Db, op: Op)
    requires OneOpen(db.alerts)
    ensures OneOpen(Exec(db, op).alerts) && Keeps(db.alerts, Exec(db, op).alerts)
    ensures !op.DeleteAlert? ==> NoneDeleted(db.alerts, Exec(db, op).alerts)
  {
    hide StepOf, RaiseTriple;
    if IsUpsert(op) {
      TargetsOfKind(db, op);
      PutAlerts(db, Target(db, op), KindOf(op), DataOf(op));
      UpsertIsPut(db, op);
    } else if op.RaiseAlert? {
      TripleKeepsOneOpen(db.alerts, op.entity, op.entityId, op.alertType, op.severity, op.text);
    } else if op.Acknowledge? {
      AcknowledgeKeepsOneOpen(db.alerts, op.alert, op.user);
    } else if op.EditAlert? {
      EditKeepsOneOpen(db.alerts, op.alert, op.newSeverity, op.newText);
    } else if op.DeleteAlert? {
      DeleteKeepsOneOpen(db.alerts, op.alert);
    }
  }

  lemma KeepsTransitive(a: Alerting, b: Alerting, c: Alerting)
    requires Keeps(a, b) && Keeps(b, c)
    ensures Keeps(a, c)
  {
  }

  /** In every interleaving a device has at most one open alert of type `other`; hence no upsert ever
      raises because of an alert. */
  lemma {:induction false} RunKeepsOneOpen(origin: Db, ops: seq<Op>)
    requires OneOpen(origin.alerts)
    ensures OneOpen(Run(origin, ops).alerts) && Keeps(origin.alerts, Run(origin, ops).alerts)
    ensures forall device: nat, row, diff :: RaiseOverwrite(Run(origin, ops).alerts, device, row, diff) != None
  {
    hide RaiseOverwrite, Exec;
    var db := Run(origin, ops);
    if ops != [] {
      var mid := Run(origin, ops[..|ops| - 1]);
      RunKeepsOneOpen(origin, ops[..|ops| - 1]);
      ExecKeepsOneOpen(mid, ops[|ops| - 1]);
      KeepsTransitive(origin.alerts, mid.alerts, db.alerts);
    }
    forall device: nat, row, diff ensures RaiseOverwrite(db.alerts, device, row, diff) != None {
      OverwriteKeepsOneOpen(db.alerts, device, row, diff);
    }
  }

  lemma SubsetOfSingle<T>(s: set<T>, t: set<T>)
    requires s <= t
    ensures AtMostOne(t) ==> AtMostOne(s)
  {
    if AtMostOne(t) && s != {} {
      forall x | x in s ensures x == One(s) { assert x in t && One(s) in t; }
      assert s == {One(s)};
    }
  }

  // ---------- blocked triples ----------

  /** Two rows match the triple, so the API upsert of it fails. */
  ghost predicate Blocked(alerts: Alerting, entity: Option<string>, entityId: Option<nat>, kind: AlertType) {
    !AtMostOne(Triples(alerts, entity, entityId, kind))
  }

  /** The API upsert fails exactly when its triple is blocked. */
  lemma FailsIffBlocked(db: Db, op: Op)
    requires op.RaiseAlert?
    ensures Attempt(db, op) == None <==> Blocked(db.alerts, op.entity, op.entityId, op.alertType)
  {
  }

  lemma TriplesNeverShrink(a: Alerting, b: Alerting, entity: Option<string>, entityId: Option<nat>, kind: AlertType)
    requires Keeps(a, b) && NoneDeleted(a, b)
    ensures Triples(a, entity, entityId, kind) <= Triples(b, entity, entityId, kind)
    ensures |a| == |b| ==> Triples(a, entity, entityId, kind) == Triples(b, entity, entityId, kind)
  {
  }

  /** Only the deletion of one of exactly two rows unblocks a triple. */
  lemma UnblockedOnlyByDeletion(db: Db, op: Op, entity: Option<string>, entityId: Option<nat>, kind: AlertType)
    requires OneOpen(db.alerts) && Blocked(db.alerts, entity, entityId, kind)
    ensures
      var rows := Triples(db.alerts, entity, entityId, kind);
      !Blocked(Exec(db, op).alerts, entity, entityId, kind)
      <==> op.DeleteAlert? && op.alert in rows && AtMostOne(rows - {op.alert})
  {
    hide Exec, OneOpen, Keeps, NoneDeleted, AtMostOne;
    var rows, rows' := Triples(db.alerts, entity, entityId, kind), Triples(Exec(db, op).alerts, entity, entityId, kind);
    ExecKeepsOneOpen(db, op);
    if op.DeleteAlert? {
      DeleteKeepsOneOpen(db.alerts, op.alert);
      DeleteExec(db, op);
      if op.alert !in rows {
        assert rows - {op.alert} == rows;
      }
    } else {
      TriplesNeverShrink(db.alerts, Exec(db, op).alerts, entity, entityId, kind);
      SubsetOfSingle(rows, rows');
    }
  }

  lemma DeleteExec(db: Db, op: Op)
    requires op.DeleteAlert?
    ensures Exec(db, op).alerts == DeleteAt(db.alerts, op.alert)
  {
  }

  /** The alerts that the run deletes. */
  function Deleted(ops: seq<Op>): set<nat> {
    set op | op in ops && op.DeleteAlert? :: op.alert
  }

  /** Over a run a row of a triple stays one exactly unless it is deleted, and no other old row becomes one;
      so the rows are those the triple had, less the deleted ones, plus rows with new ids. */
  lemma {:induction false} RunKeepsTriples(origin: Db, ops: seq<Op>, entity: Option<string>, entityId: Option<nat>,
                                           kind: AlertType, i: nat)
    requires OneOpen(origin.alerts) && i < |origin.alerts|
    ensures i in Triples(Run(origin, ops).alerts, entity, entityId, kind)
      <==> i in Triples(origin.alerts, entity, entityId, kind) && i !in Deleted(ops)
  {
    if ops != [] {
      hide Exec, OneOpen, Run, RaiseOverwrite, Triples, Deleted;
      var init, op := ops[..|ops| - 1], ops[|ops| - 1];
      RunUnfolds(origin, ops);
      DeletedOneMore(ops);
      RunKeepsTriples(origin, init, entity, entityId, kind, i);
      RunKeepsOneOpen(origin, init);
      StepKeepsTriples(Run(origin, init), op, entity, entityId, kind, i);
    }
  }

  lemma DeletedOneMore(ops: seq<Op>)
    requires ops != []
    ensures
      var op := ops[|ops| - 1];
      Deleted(ops) == Deleted(ops[..|ops| - 1]) + (if op.DeleteAlert? then {op.alert} else {})
  {
    assert ops == ops[..|ops| - 1] + [ops[|ops| - 1]];
  }

  lemma StepKeepsTriples(db: Db, op: Op, entity: Option<string>, entityId: Option<nat>, kind: AlertType, i: nat)
    requires OneOpen(db.alerts) && i < |db.alerts|
    ensures i in Triples(Exec(db, op).alerts, entity, entityId, kind)
      <==> i in Triples(db.alerts, entity, entityId, kind) && !(op.DeleteAlert? && i == op.alert)
  {
    hide Exec, OneOpen, Triples, Keeps, NoneDeleted;
    ExecKeepsOneOpen(db, op);
    if op.DeleteAlert? {
      DeleteExec(db, op);
      DeleteKeepsOneOpen(db.alerts, op.alert);
    } else {
      OldTriplesStay(db.alerts, Exec(db, op).alerts, entity, entityId, kind);
    }
  }

  lemma RunUnfolds(origin: Db, ops: seq<Op>)
    requires ops != []
    ensures Run(origin, ops) == Exec(Run(origin, ops[..|ops| - 1]), ops[|ops| - 1])
  {
  }

  lemma OldTriplesStay(a: Alerting, b: Alerting, entity: Option<string>, entityId: Option<nat>, kind: AlertType)
    requires Keeps(a, b) && NoneDeleted(a, b)
    ensures forall i: nat :: i < |a| ==> (i in Triples(b, entity, entityId, kind) <==>
      i in Triples(a, entity, entityId, kind))
  {
  }

  /** A blocked triple stays blocked, in every run, until deletions have left at most one of its rows:
      while two rows it had are not deleted, every API upsert of it fails. */
  lemma BlockedUntilDeleted(origin: Db, ops: seq<Op>, op: Op)
    requires OneOpen(origin.alerts) && op.RaiseAlert?
    requires !AtMostOne(Triples(origin.alerts, op.entity, op.entityId, op.alertType) - Deleted(ops))
    ensures Attempt(Run(origin, ops), op) == None
  {
    hide AtMostOne, Attempt, Run, OneOpen, Deleted;
    var left := Triples(origin.alerts, op.entity, op.entityId, op.alertType) - Deleted(ops);
    var rows := Triples(Run(origin, ops).alerts, op.entity, op.entityId, op.alertType);
    forall i: nat | i < |origin.alerts|
      ensures i in Triples(Run(origin, ops).alerts, op.entity, op.entityId, op.alertType)
        <==> i in Triples(origin.alerts, op.entity, op.entityId, op.alertType) && i !in Deleted(ops)
    {
      RunKeepsTriples(origin, ops, op.entity, op.entityId, op.alertType, i);
    }
    assert left <= rows;
    SubsetOfSingle(left, rows);
    FailsIffBlocked(Run(origin, ops), op);
  }

  /** Exactly when a triple is blocked after a run that added no row of it: when two of its rows were not
      deleted. */
  lemma BlockedIffTwoLeft(origin: Db, ops: seq<Op>, op: Op)
    requires OneOpen(origin.alerts) && op.RaiseAlert?
    requires forall i :: i in Triples(Run(origin, ops).alerts, op.entity, op.entityId, op.alertType) ==>
      i < |origin.alerts|
    ensures Attempt(Run(origin, ops), op) == None
      <==> !AtMostOne(Triples(origin.alerts, op.entity, op.entityId, op.alertType) - Deleted(ops))
  {
    hide AtMostOne, Attempt, Run, OneOpen, Deleted;
    forall i: nat | i < |origin.alerts|
      ensures i in Triples(Run(origin, ops).alerts, op.entity, op.entityId, op.alertType)
        <==> i in Triples(origin.alerts, op.entity, op.entityId, op.alertType) && i !in Deleted(ops)
    {
      RunKeepsTriples(origin, ops, op.entity, op.entityId, op.alertType, i);
    }
    assert Triples(Run(origin, ops).alerts, op.entity, op.entityId, op.alertType)
        == Triples(origin.alerts, op.entity, op.entityId, op.alertType) - Deleted(ops);
    FailsIffBlocked(Run(origin, ops), op);
  }

  /** An overwrite of an operator's field leaves two rows for the device exactly when there were two
      before, or there were some and all are acknowledged. */
  lemma OverwriteAfterAcknowledge(alerts: Alerting, device: nat, row: Row, diff: Diff)
    requires OneOpen(alerts) && Alertable(diff) != map[]
    ensures
      var before := Triples(alerts, Some("device"), Some(device), OtherAlert);
      var after := Triples(RaiseOverwrite(alerts, device, row, diff).value, Some("device"), Some(device), OtherAlert);
      !AtMostOne(after) <==> !AtMostOne(before) || (before != {} && OpenOverwrites(alerts, device) == {})
  {
    OverwriteKeepsOneOpen(alerts, device, row, diff);
    var alerts' := RaiseOverwrite(alerts, device, row, diff).value;
    var before := Triples(alerts, Some("device"), Some(device), OtherAlert);
    var after := Triples(alerts', Some("device"), Some(device), OtherAlert);
    if OpenOverwrites(alerts, device) == {} {
      assert after == before + {|alerts|};
      if before != {} {
        assert One(before) in after && |alerts| in after;
      } else {
        IsSingle(after, |alerts|);
      }
    } else {
      assert after == before;
    }
  }

  lemma IsSingle<T>(s: set<T>, x: T)
    requires s == {x}
    ensures AtMostOne(s)
  {
    assert One(s) == x;
  }

  /** Only so does a second row appear: the operation is a device upsert, its device has rows, and all of
      them are acknowledged. */
  lemma SecondRowOnlySo(db: Db, op: Op, device: nat)
    requires OneOpen(db.alerts)
    requires AtMostOne(Triples(db.alerts, Some("device"), Some(device), OtherAlert))
    requires !AtMostOne(Triples(Exec(db, op).alerts, Some("device"), Some(device), OtherAlert))
    ensures IsUpsert(op) && KindOf(op) == Device && StepOf(db, op).Done? && StepOf(db, op).ref == Ref(Device, device)
    ensures Triples(db.alerts, Some("device"), Some(device), OtherAlert) != {}
    ensures OpenOverwrites(db.alerts, device) == {}
  {
    hide StepOf, Put, OneOpen, Keeps, AtMostOne, RaiseTriple, Target;
    var before := Triples(db.alerts, Some("device"), Some(device), OtherAlert);
    ExecKeepsOneOpen(db, op);
    if IsUpsert(op) {
      TargetsOfKind(db, op);
      UpsertIsPut(db, op);
      PutAddsRow(db, Target(db, op), KindOf(op), DataOf(op), device);
    } else if op.RaiseAlert? {
      RaiseAddsNoSecond(db.alerts, op, device);
    } else if op.DeleteAlert? {
      DeleteKeepsOneOpen(db.alerts, op.alert);
      SubsetOfSingle(before - {op.alert}, before);
    } else if !IsSweep(op) {
      TriplesNeverShrink(db.alerts, Exec(db, op).alerts, Some("device"), Some(device), OtherAlert);
    }
  }

  lemma RaiseAddsNoSecond(alerts: Alerting, op: Op, device: nat)
    requires op.RaiseAlert? && OneOpen(alerts)
    requires AtMostOne(Triples(alerts, Some("device"), Some(device), OtherAlert))
    ensures
      var r := RaiseTriple(alerts, op.entity, op.entityId, op.alertType, op.severity, op.text);
      r != None ==> AtMostOne(Triples(r.value, Some("device"), Some(device), OtherAlert))
  {
    var r := RaiseTriple(alerts, op.entity, op.entityId, op.alertType, op.severity, op.text);
    var before := Triples(alerts, Some("device"), Some(device), OtherAlert);
    TripleKeepsOneOpen(alerts, op.entity, op.entityId, op.alertType, op.severity, op.text);
    if r != None {
      var after := Triples(r.value, Some("device"), Some(device), OtherAlert);
      TriplesNeverShrink(alerts, r.value, Some("device"), Some(device), OtherAlert);
      if |r.value| > |alerts| {
        if op.entity == Some("device") && op.entityId == Some(device) && op.alertType == OtherAlert {
          assert after == {|alerts|};
          IsSingle(after, |alerts|);
        } else {
          assert after == before;
        }
      }
    }
  }

  /** The alert table after an upsert: unchanged, or with an overwrite alert of the written device. */
  lemma PutAlertsAre(db: Db, sel: set<Ref>, kind: Kind, data: Row) returns (row: Row, diff: Diff)
    requires sel <= db.rows.Keys && Put(db, sel, kind, data).Done?
    requires forall r :: r in sel ==> r.kind == kind
    ensures
      var s := Put(db, sel, kind, data);
      s.db.alerts == db.alerts
      || (kind == Device && s.ref.kind == Device && RaiseOverwrite(db.alerts, s.ref.id, row, diff) == Some(s.db.alerts))
  {
    hide RaiseOverwrite, DiffOf, SafeDict;
    row, diff := map[], map[];
    if sel != {} {
      var before := db.rows[One(sel)];
      row := Merge(before, Kept(kind, data));
      diff := DiffOf(SafeDict(before), SafeDict(row));
    }
  }

  lemma PutAddsRow(db: Db, sel: set<Ref>, kind: Kind, data: Row, device: nat)
    requires sel <= db.rows.Keys && OneOpen(db.alerts) && Put(db, sel, kind, data).Done?
    requires forall r :: r in sel ==> r.kind == kind
    requires AtMostOne(Triples(db.alerts, Some("device"), Some(device), OtherAlert))
    requires !AtMostOne(Triples(Put(db, sel, kind, data).db.alerts, Some("device"), Some(device), OtherAlert))
    ensures kind == Device && Put(db, sel, kind, data).ref == Ref(Device, device)
    ensures Triples(db.alerts, Some("device"), Some(device), OtherAlert) != {}
    ensures OpenOverwrites(db.alerts, device) == {}
  {
    var row, diff := PutAlertsAre(db, sel, kind, data);
    hide Put, AtMostOne, OneOpen, Triples, OpenOverwrites;
    var id := Put(db, sel, kind, data).ref.id;
    if id != device {
      OtherDeviceKeepsRows(db.alerts, id, row, diff, device);
    } else if Alertable(diff) != map[] {
      OverwriteAfterAcknowledge(db.alerts, device, row, diff);
    }
  }

  lemma OtherDeviceKeepsRows(alerts: Alerting, device: nat, row: Row, diff: Diff, other: nat)
    requires OneOpen(alerts) && other != device
    ensures Triples(RaiseOverwrite(alerts, device, row, diff).value, Some("device"), Some(other), OtherAlert)
         == Triples(alerts, Some("device"), Some(other), OtherAlert)
  {
    OverwriteKeepsOneOpen(alerts, device, row, diff);
  }

  lemma RenamedColumns()
    ensures Declares(Device, "name") && Declares(Device, "serial_number")
  {
  }

  lemma RenameIsAlertable(before: Row, after: Row)
    requires Get(before, "name").Text? && Get(after, "name").Text? && Get(before, "name") != Get(after, "name")
    ensures "name" in Alertable(DiffOf(SafeDict(before), SafeDict(after)))
  {
    assert !Sensitive("name");
    assert SafeDict(before)["name"] == before["name"] && SafeDict(after)["name"] == after["name"];
    assert OperatorField("name");
  }

  /** A serial upsert of device "s" under some name. */
  function Rename(name: string): Op {
    UpsertBySerial(map["serial_number" := Text("s"), "name" := Text(name)], map[], "t")
  }

  /** The only device has serial number "s" and this name. */
  ghost predicate Lone(db: Db, a: Ref, name: string) {
    db.rows.Keys == {a} && a.kind == Device
    && Get(db.rows[a], "serial_number") == Text("s") && Get(db.rows[a], "name") == Text(name)
  }

  /** Renaming it raises its overwrite alert. */
  lemma RenameOverwrites(db: Db, a: Ref, from: string, name: string) returns (row: Row, diff: Diff)
    requires Lone(db, a, from) && from != name && OneOpen(db.alerts)
    ensures Attempt(db, Rename(name)) != None
    ensures Alertable(diff) != map[]
    ensures RaiseOverwrite(db.alerts, a.id, row, diff) == Some(Exec(db, Rename(name)).alerts)
    ensures Lone(Exec(db, Rename(name)), a, name)
  {
    hide RaiseOverwrite, DiffOf, SafeDict, Merge, Alertable, Target, OneOpen, ColumnsOf, Append;
    var op, before := Rename(name), db.rows[a];
    RenameTargets(db, a, from, name);
    var data := DataOf(op);
    row := Merge(before, Kept(Device, data));
    diff := DiffOf(SafeDict(before), SafeDict(row));
    assert data["name"] == Text(name) && data["serial_number"] == Text("s");
    RenamedColumns();
    MergeReads(before, Kept(Device, data), "name");
    MergeReads(before, Kept(Device, data), "serial_number");
    RenameIsAlertable(before, row);
    OverwriteKeepsOneOpen(db.alerts, a.id, row, diff);
    assert Put(db, {a}, Device, data) == Overwrite(db, a, data);
    UpsertIsPut(db, op);
  }

  lemma RenameTargets(db: Db, a: Ref, from: string, name: string)
    requires Lone(db, a, from)
    ensures Target(db, Rename(name)) == {a} && One({a}) == a
  {
    assert a in Target(db, Rename(name));
  }

  /** A concrete run: one device and no alert; an overwrite, its acknowledgement and another overwrite all
      succeed, and from then on the API upsert of that alert fails. */
  lemma OverwriteAcknowledgeOverwrite() returns (db: Db, ops: seq<Op>, op: Op)
    ensures WellFormed(db) && db.alerts == [] && |db.rows| == 1
    ensures ops == [Rename("b"), Acknowledge(0, "admin"), Rename("c")]
    ensures forall i :: 0 <= i < |ops| ==> Attempt(Run(db, ops[..i]), ops[i]) != None
    ensures op.RaiseAlert? && Attempt(Run(db, ops), op) == None
  {
    hide Attempt, Exec, RaiseOverwrite, Alertable, Run, Rename, OneOpen, Triples, OpenOverwrites, AtMostOne;
    hide WellFormed;
    var a;
    db, a := LoneDevice();
    ops := [Rename("b"), Acknowledge(0, "admin"), Rename("c")];
    op := RaiseAlert(Some("device"), Some(0), OtherAlert, Info, "x");
    var row1, diff1 := RenameOverwrites(db, a, "a", "b");
    var db1 := Exec(db, ops[0]);
    FirstAlert(row1, diff1, db1.alerts);
    Acknowledged(db1);
    var db2 := Exec(db1, ops[1]);
    var row3, diff3 := RenameOverwrites(db2, a, "b", "c");
    OverwriteAfterAcknowledge(db2.alerts, 0, row3, diff3);
    ThreeSteps(db, ops);
    TripleFails(Exec(db2, ops[2]), op);
  }

  lemma LoneDevice() returns (db: Db, a: Ref)
    ensures WellFormed(db) && OneOpen(db.alerts) && db.alerts == [] && |db.rows| == 1
    ensures Lone(db, a, "a") && a == Ref(Device, 0)
  {
    a := Ref(Device, 0);
    var rows: map<Ref, Row> := map[a := map["serial_number" := Text("s"), "name" := Text("a")]];
    db := Db(rows, map[], map[], map[], [], 1);
    assert Declares(Device, "serial_number") && Declares(Device, "name");
  }

  lemma FirstAlert(row: Row, diff: Diff, alerts: Alerting)
    requires Alertable(diff) != map[] && RaiseOverwrite([], 0, row, diff) == Some(alerts)
    ensures |alerts| == 1 && IsOpenOverwrite(alerts[0], 0) && OneOpen(alerts)
  {
  }

  lemma Acknowledged(db: Db)
    requires |db.alerts| == 1 && IsOpenOverwrite(db.alerts[0], 0)
    ensures Attempt(db, Acknowledge(0, "admin")) != None
    ensures
      var db' := Exec(db, Acknowledge(0, "admin"));
      && db'.rows == db.rows && OneOpen(db'.alerts) && OpenOverwrites(db'.alerts, 0) == {}
      && Triples(db'.alerts, Some("device"), Some(0), OtherAlert) != {}
  {
    var db' := Exec(db, Acknowledge(0, "admin"));
    assert 0 in Triples(db'.alerts, Some("device"), Some(0), OtherAlert);
  }

  lemma ThreeSteps(db: Db, ops: seq<Op>)
    requires |ops| == 3
    ensures ops[..0] == [] && Run(db, ops[..0]) == db
    ensures Run(db, ops[..1]) == Exec(db, ops[0]) && Run(db, ops[..2]) == Exec(Exec(db, ops[0]), ops[1])
    ensures Run(db, ops) == Exec(Exec(Exec(db, ops[0]), ops[1]), ops[2])
  {
    hide Exec;
    assert ops[..1][..0] == [] && ops[..2][..1] == ops[..1];
  }

  lemma TripleFails(db: Db, op: Op)
    requires op.RaiseAlert? && !AtMostOne(Triples(db.alerts, op.entity, op.entityId, op.alertType))
    ensures Attempt(db, op) == None
  {
  }
}
