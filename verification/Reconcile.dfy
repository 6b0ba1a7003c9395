/** What any run of VM upserts and per-host sweeps leaves in the VM table, whatever the order in
    which the inventory listed its clusters, hosts and VMs.  Every hypervisor service is an instance. */
module Reconcile {
  import opened Wrappers
  import opened Values
  import opened Store
  import opened Replay
  import opened Keys

  /** `op` upserts the VM with platform id `v`. */
  predicate PutsVm(op: Op, v: string) {
    op.UpsertVm? && Get(op.data, "platform_vm_id") == Text(v)
  }

  /** The last upsert of VM `v`, if there was one. */
  function LastPut(ops: seq<Op>, v: string): (put: Option<Op>)
    ensures put != None ==> put.value in ops && PutsVm(put.value, v)
  {
    if ops == [] then None
    else if PutsVm(ops[|ops| - 1], v) then Some(ops[|ops| - 1])
    else LastPut(ops[..|ops| - 1], v)
  }

  predicate SweepsHost(op: Op, host: Value) {
    op.SweepVms? && Key(op.host) == host
  }

  ghost predicate Swept(ops: seq<Op>, host: Value) {
    exists i :: 0 <= i < |ops| && SweepsHost(ops[i], host)
  }

  /** The seen set of every sweep is exactly the VMs the whole run puts on that host. */
  ghost predicate Consistent(ops: seq<Op>) {
    forall i :: 0 <= i < |ops| && ops[i].SweepVms? ==>
      forall v: string :: v in ops[i].seenIds <==>
        exists j :: 0 <= j < |ops| && PutsVm(ops[j], v) && ops[j].host == ops[i].host
  }

  /** No upsert of VM `v` supplies column `c`. */
  ghost predicate NeverSupplied(ops: seq<Op>, v: string, c: Column) {
    forall i :: 0 <= i < |ops| && PutsVm(ops[i], v) ==> c !in Stored(ops[i])
  }

  predicate HasId(rows: map<Ref, Row>, r: Ref, v: string) {
    r in rows && r.kind == Vm && Get(rows[r], "platform_vm_id") == Text(v)
  }

  /** The row before the run, or the column defaults of a new one. */
  function Base(origin: Db, r: Ref): Row {
    if r in origin.rows then origin.rows[r] else ColumnDefaults(r.kind)
  }

  /** The state of one VM row after the operations `done` of the run `all`. */
  ghost predicate RowSettled(origin: Db, all: seq<Op>, done: seq<Op>, r: Ref, row: Row, v: string) {
    && (LastPut(done, v) != None ==> Carries(row, LastPut(done, v).value))
    && (LastPut(done, v) == None ==> r in origin.rows)
    && (forall c :: c != "status" && NeverSupplied(done, v, c) ==> Get(row, c) == Get(Base(origin, r), c))
    && (LastPut(all, v) == None ==>
          Get(row, "status") ==
            if Swept(done, Get(row, "host_id")) then Text("stopped") else Get(Base(origin, r), "status"))
  }

  ghost predicate Settled(origin: Db, all: seq<Op>, done: seq<Op>, db: Db) {
    forall r, v :: v != "" && HasId(db.rows, r, v) ==> RowSettled(origin, all, done, r, db.rows[r], v)
  }

  function IdRows(rows: map<Ref, Row>, v: string): set<Ref> {
    set r | r in rows && HasId(rows, r, v)
  }

  /** Every VM that was put has exactly one row. */
  ghost predicate PutsHaveRows(done: seq<Op>, db: Db) {
    forall v :: v != "" && LastPut(done, v) != None ==> IdRows(db.rows, v) != {} && AtMostOne(IdRows(db.rows, v))
  }

  lemma TargetIsIdRows(db: Db, op: Op, v: string)
    requires PutsVm(op, v) && v != ""
    ensures Target(db, op) == IdRows(db.rows, v)
  {
  }

  // ---------- lists of operations ----------

  lemma LastPutOneMore(ops: seq<Op>, op: Op, v: string)
    ensures LastPut(ops + [op], v) == if PutsVm(op, v) then Some(op) else LastPut(ops, v)
  {
    assert (ops + [op])[..|ops|] == ops;
  }

  lemma SweptOneMore(ops: seq<Op>, op: Op, host: Value)
    ensures Swept(ops + [op], host) <==> Swept(ops, host) || SweepsHost(op, host)
  {
    if Swept(ops, host) {
      var i :| 0 <= i < |ops| && SweepsHost(ops[i], host);
      assert (ops + [op])[i] == ops[i];
    }
    if SweepsHost(op, host) {
      assert (ops + [op])[|ops|] == op;
    }
  }

  lemma NeverSuppliedOneMore(ops: seq<Op>, op: Op, v: string, c: Column)
    ensures NeverSupplied(ops + [op], v, c) <==> NeverSupplied(ops, v, c) && (PutsVm(op, v) ==> c !in Stored(op))
  {
    if NeverSupplied(ops + [op], v, c) {
      forall i | 0 <= i < |ops| && PutsVm(ops[i], v) ensures c !in Stored(ops[i]) {
        assert (ops + [op])[i] == ops[i];
      }
      assert (ops + [op])[|ops|] == op;
    }
  }

  lemma {:induction false} LastPutIsPut(ops: seq<Op>, v: string)
    ensures LastPut(ops, v) == None <==> forall i :: 0 <= i < |ops| ==> !PutsVm(ops[i], v)
  {
    if ops != [] {
      LastPutIsPut(ops[..|ops| - 1], v);
    }
  }

  // ---------- one operation ----------

  /** What an operation that leaves a VM row alone leaves true of it. */
  lemma RowUntouched(origin: Db, all: seq<Op>, done: seq<Op>, op: Op, r: Ref, row: Row, v: string)
    requires RowSettled(origin, all, done, r, row, v) && !PutsVm(op, v)
    requires LastPut(all, v) == None && SweepsHost(op, Get(row, "host_id")) ==> Get(row, "status") == Text("stopped")
    ensures RowSettled(origin, all, done + [op], r, row, v)
  {
    LastPutOneMore(done, op, v);
    SweptOneMore(done, op, Get(row, "host_id"));
    forall c | c != "status" && NeverSupplied(done + [op], v, c) ensures Get(row, c) == Get(Base(origin, r), c) {
      NeverSuppliedOneMore(done, op, v, c);
    }
  }

  lemma RowStopped(origin: Db, all: seq<Op>, done: seq<Op>, op: Op, r: Ref, row: Row, v: string)
    requires RowSettled(origin, all, done, r, row, v) && SweepsHost(op, Get(row, "host_id")) && LastPut(done, v) == None
    ensures RowSettled(origin, all, done + [op], r, row["status" := Text("stopped")], v)
  {
    var row' := row["status" := Text("stopped")];
    LastPutOneMore(done, op, v);
    SweptOneMore(done, op, Get(row, "host_id"));
    forall c | c != "status" && NeverSupplied(done + [op], v, c) ensures Get(row', c) == Get(Base(origin, r), c) {
      NeverSuppliedOneMore(done, op, v, c);
    }
  }

  /** A sweep never stops a VM the run has already put, because its seen set lists it. */
  lemma PutVmsAreSeen(all: seq<Op>, done: seq<Op>, op: Op, row: Row, v: string)
    requires Consistent(all) && op in all && op.SweepVms? && done <= all
    requires LastPut(done, v) != None && Carries(row, LastPut(done, v).value)
    requires Get(row, "host_id") == Key(op.host)
    ensures v in op.seenIds
  {
    LastPutIsPut(done, v);
    var put := LastPut(done, v).value;
    assert Stored(put)["host_id"] == Key(put.host);
    var i :| 0 <= i < |all| && all[i] == op;
    var j :| 0 <= j < |done| && done[j] == put;
    assert all[j] == put;
  }

  /** A VM the run never puts is in no seen set. */
  lemma UnputVmsAreUnseen(all: seq<Op>, op: Op, v: string)
    requires Consistent(all) && op in all && op.SweepVms? && LastPut(all, v) == None
    ensures v !in op.seenIds
  {
    LastPutIsPut(all, v);
    var i :| 0 <= i < |all| && all[i] == op;
  }

  lemma SweepSettles(origin: Db, all: seq<Op>, done: seq<Op>, db: Db, op: Op)
    requires op.SweepVms? && Consistent(all) && op in all && done <= all
    requires Settled(origin, all, done, db)
    ensures Settled(origin, all, done + [op], Exec(db, op))
  {
    var stale := StaleVms(db.rows, op.host, op.seenIds);
    var db' := Exec(db, op);
    forall r, v | v != "" && HasId(db'.rows, r, v)
      ensures RowSettled(origin, all, done + [op], r, db'.rows[r], v)
    {
      var row := db.rows[r];
      assert HasId(db.rows, r, v);
      if r in stale {
        if LastPut(done, v) != None {
          PutVmsAreSeen(all, done, op, row, v);
        } else {
          RowStopped(origin, all, done, op, r, row, v);
        }
      } else {
        if LastPut(all, v) == None {
          UnputVmsAreUnseen(all, op, v);
        }
        RowUntouched(origin, all, done, op, r, row, v);
      }
    }
  }

  lemma SweepKeepsIds(db: Db, done: seq<Op>, op: Op)
    requires IsSweep(op) && PutsHaveRows(done, db)
    ensures PutsHaveRows(done + [op], Exec(db, op))
  {
    var db' := Exec(db, op);
    forall r, v ensures HasId(db'.rows, r, v) <==> HasId(db.rows, r, v) {}
    forall v | v != "" && LastPut(done + [op], v) != None
      ensures IdRows(db'.rows, v) == IdRows(db.rows, v) && LastPut(done, v) != None
    {
      LastPutOneMore(done, op, v);
    }
  }

  /** What the row written by a VM upsert reads. */
  lemma WrittenReads(db: Db, op: Op, sel: set<Ref>, c: Column)
    requires op.UpsertVm? && sel <= db.rows.Keys
    ensures Get(WrittenRow(db, sel, Vm, Stored(op)), c) ==
      if c in Stored(op) then Stored(op)[c]
      else if sel == {} then Get(ColumnDefaults(Vm), c) else Get(db.rows[One(sel)], c)
  {
    if sel != {} {
      MergeReads(db.rows[One(sel)], Stored(op), c);
    }
  }

  lemma WrittenSettles(origin: Db, all: seq<Op>, done: seq<Op>, db: Db, op: Op, v: string)
    requires WellFormed(db) && Grows(origin, db)
    requires PutsVm(op, v) && v != "" && LastPut(all, v) != None && AtMostOne(Target(db, op))
    requires Settled(origin, all, done, db)
    ensures
      var sel := Target(db, op);
      RowSettled(origin, all, done + [op], WrittenRef(db, sel, Vm), WrittenRow(db, sel, Vm, Stored(op)), v)
  {
    var sel := Target(db, op);
    var ref, row := WrittenRef(db, sel, Vm), WrittenRow(db, sel, Vm, Stored(op));
    LastPutOneMore(done, op, v);
    forall c | c in Stored(op) ensures Get(row, c) == Stored(op)[c] {
      WrittenReads(db, op, sel, c);
    }
    if sel != {} {
      assert HasId(db.rows, ref, v);
    }
    forall c | c != "status" && NeverSupplied(done + [op], v, c) ensures Get(row, c) == Get(Base(origin, ref), c) {
      NeverSuppliedOneMore(done, op, v, c);
      WrittenReads(db, op, sel, c);
    }
  }

  lemma OnlyTargetIsPut(db: Db, op: Op, r: Ref, v: string)
    requires op.UpsertVm? && AtMostOne(Target(db, op)) && HasId(db.rows, r, v) && v != ""
    ensures PutsVm(op, v) ==> r == WrittenRef(db, Target(db, op), Vm)
  {
    if PutsVm(op, v) {
      TargetIsIdRows(db, op, v);
      assert r in IdRows(db.rows, v);
    }
  }

  /** An upsert of VM `v` settles its row and leaves every other VM row alone. */
  lemma PutSettles(origin: Db, all: seq<Op>, done: seq<Op>, db: Db, op: Op)
    requires op.UpsertVm? && op in all && StepOf(db, op).Done?
    requires WellFormed(db) && Grows(origin, db) && Settled(origin, all, done, db)
    ensures Settled(origin, all, done + [op], Exec(db, op))
  {
    var sel, db' := Target(db, op), Exec(db, op);
    UpsertWritesOne(db, op);
    var ref := WrittenRef(db, sel, Vm);
    forall r, v | v != "" && HasId(db'.rows, r, v)
      ensures RowSettled(origin, all, done + [op], r, db'.rows[r], v)
    {
      if r == ref {
        WrittenIdIsSupplied(db, op, v);
        LastPutIsPut(all, v);
        WrittenSettles(origin, all, done, db, op, v);
      } else {
        OnlyTargetIsPut(db, op, r, v);
        RowUntouched(origin, all, done, op, r, db.rows[r], v);
      }
    }
  }

  /** The id of the written row is the supplied one. */
  lemma WrittenIdIsSupplied(db: Db, op: Op, v: string)
    requires op.UpsertVm? && v != ""
    requires Get(WrittenRow(db, Target(db, op), Vm, Stored(op)), "platform_vm_id") == Text(v)
    ensures PutsVm(op, v)
  {
    var sel := Target(db, op);
    WrittenReads(db, op, sel, "platform_vm_id");
  }

  /** An upsert of another VM neither adds nor removes a row of `v`. */
  lemma OldIdsStay(db: Db, op: Op, v: string)
    requires op.UpsertVm? && v != "" && !PutsVm(op, v) && StepOf(db, op).Done? && WellFormed(db)
    ensures IdRows(Exec(db, op).rows, v) == IdRows(db.rows, v)
  {
    hide StepOf, Exec;
    var sel, db' := Target(db, op), Exec(db, op);
    UpsertWritesOne(db, op);
    var ref, row := WrittenRef(db, sel, Vm), WrittenRow(db, sel, Vm, Stored(op));
    if Get(row, "platform_vm_id") == Text(v) {
      WrittenIdIsSupplied(db, op, v);
    }
    WrittenReads(db, op, sel, "platform_vm_id");
    forall r ensures HasId(db'.rows, r, v) <==> HasId(db.rows, r, v) {}
  }

  lemma PutKeepsIds(db: Db, done: seq<Op>, op: Op)
    requires op.UpsertVm? && StepOf(db, op).Done? && WellFormed(db) && PutsHaveRows(done, db)
    ensures PutsHaveRows(done + [op], Exec(db, op))
  {
    hide Exec, StepOf, Target, WellFormed, WrittenRow, LastPut;
    TargetsOfKind(db, op);
    var sel, db' := Target(db, op), Exec(db, op);
    UpsertWritesOne(db, op);
    var ref, row := WrittenRef(db, sel, Vm), WrittenRow(db, sel, Vm, Stored(op));
    forall v | v != "" && LastPut(done + [op], v) != None
      ensures IdRows(db'.rows, v) != {} && AtMostOne(IdRows(db'.rows, v))
    {
      LastPutOneMore(done, op, v);
      WrittenReads(db, op, sel, "platform_vm_id");
      if PutsVm(op, v) {
        TargetIsIdRows(db, op, v);
        assert IdRows(db'.rows, v) == {ref};
      } else {
        OldIdsStay(db, op, v);
        assert IdRows(db'.rows, v) == IdRows(db.rows, v);
      }
    }
  }

  /** Operations of other kinds never touch a VM row. */
  lemma OtherOpsKeepVms(db: Db, op: Op)
    requires !op.UpsertVm? && !op.SweepVms? && WellFormed(db)
    ensures forall r: Ref :: r.kind == Vm ==> (r in Exec(db, op).rows <==> r in db.rows)
    ensures forall r: Ref :: r.kind == Vm && r in db.rows ==> Exec(db, op).rows[r] == db.rows[r]
  {
    if IsUpsert(op) {
      hide Exec, StepOf, WrittenRow, Stored;
      UpsertWritesOne(db, op);
    } else if IsSweep(op) {
      OtherSweepsKeepVms(db, op);
    }
  }

  lemma OtherSweepsKeepVms(db: Db, op: Op)
    requires IsSweep(op) && !op.SweepVms?
    ensures forall r: Ref :: r.kind == Vm ==> (r in Exec(db, op).rows <==> r in db.rows)
    ensures forall r: Ref :: r.kind == Vm && r in db.rows ==> Exec(db, op).rows[r] == db.rows[r]
  {
    assert forall r :: r in Stale(db, op) ==> r.kind == Device;
  }

  lemma OtherSettles(origin: Db, all: seq<Op>, done: seq<Op>, db: Db, op: Op)
    requires !op.UpsertVm? && !op.SweepVms? && WellFormed(db)
    requires Settled(origin, all, done, db) && PutsHaveRows(done, db)
    ensures Settled(origin, all, done + [op], Exec(db, op)) && PutsHaveRows(done + [op], Exec(db, op))
  {
    var db' := Exec(db, op);
    OtherOpsKeepVms(db, op);
    forall r, v | v != "" && HasId(db'.rows, r, v)
      ensures RowSettled(origin, all, done + [op], r, db'.rows[r], v)
    {
      assert HasId(db.rows, r, v);
      RowUntouched(origin, all, done, op, r, db.rows[r], v);
    }
    forall v | v != "" && LastPut(done + [op], v) != None
      ensures IdRows(db'.rows, v) == IdRows(db.rows, v) && LastPut(done, v) != None
    {
      LastPutOneMore(done, op, v);
    }
  }

  // ---------- whole runs ----------

  /** No VM upsert of the run raised. */
  ghost predicate Completed(origin: Db, ops: seq<Op>) {
    forall i :: 0 <= i < |ops| && ops[i].UpsertVm? ==> StepOf(Run(origin, ops[..i]), ops[i]).Done?
  }

  lemma NothingSettles(origin: Db, all: seq<Op>)
    ensures Settled(origin, all, [], origin) && PutsHaveRows([], origin)
  {
  }

  lemma {:induction false} PrefixSettles(origin: Db, all: seq<Op>, n: nat)
    requires n <= |all| && WellFormed(origin) && Consistent(all) && Completed(origin, all)
    ensures Settled(origin, all, all[..n], Run(origin, all[..n])) && PutsHaveRows(all[..n], Run(origin, all[..n]))
  {
    hide Exec, Settled, PutsHaveRows, StepOf, Consistent, Grows, Replays, WellFormed;
    if n == 0 {
      assert all[..0] == [];
      NothingSettles(origin, all);
    } else {
      var done, op := all[..n - 1], all[n - 1];
      var db := Run(origin, done);
      assert all[..n] == done + [op] && all[..n][..n - 1] == done;
      PrefixSettles(origin, all, n - 1);
      RunReplays(origin, done);
      if op.UpsertVm? {
        PutSettles(origin, all, done, db, op);
        PutKeepsIds(db, done, op);
      } else if op.SweepVms? {
        SweepSettles(origin, all, done, db, op);
        SweepKeepsIds(db, done, op);
      } else {
        OtherSettles(origin, all, done, db, op);
      }
    }
  }

  /** After a completed consistent run: a VM that was put has exactly one row, which holds the last
      upsert's data and was not tombstoned; a VM that was not put keeps its row, stopped if its host
      was swept; and no column changes that no upsert supplied. */
  lemma RunSettles(origin: Db, ops: seq<Op>)
    requires WellFormed(origin) && Consistent(ops) && Completed(origin, ops)
    ensures Settled(origin, ops, ops, Run(origin, ops)) && PutsHaveRows(ops, Run(origin, ops))
  {
    assert ops[..|ops|] == ops;
    PrefixSettles(origin, ops, |ops|);
  }
}
