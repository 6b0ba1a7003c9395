/** The xClarity sync: upsert every managed node by uuid, then deactivate what was not upserted. */
module XClarity {
  import opened Values
  import opened Store
  import opened Keys
  import opened Replay
  import opened Alerts
  import opened Engine
  import opened Effects

  /** A node with its normalised data; `uuid` is empty when the node reports none.  `fault` says where
      its upsert breaks for outside reasons, if it does. */
  datatype XNode = XNode(uuid: string, data: Row, server: Row, at: string, fault: Fault) {
    function Put(): Op { UpsertByUuid(uuid, data, server, at) }
  }

  function Uuid(servers: map<nat, Row>, r: Ref): Value {
    if r.id in servers then Get(servers[r.id], "xclarity_uuid") else Null
  }

  /** The device and its server extension hold what node `n` reported, column by column, and the extension is
      bound to its uuid. */
  ghost predicate Holds(db: Db, r: Ref, n: XNode) {
    && r in db.rows && r.kind == Device && r.id in db.servers
    && (forall c :: c in n.data && c != "last_seen_at" && Declares(Device, c) ==> Get(db.rows[r], c) == n.data[c])
    && Get(db.rows[r], "last_seen_at") == Stamp(n.at)
    && (forall c :: c in n.server && c != "xclarity_uuid" && c in ServerColumns() ==>
          Get(db.servers[r.id], c) == n.server[c])
    && Get(db.servers[r.id], "xclarity_uuid") == Text(n.uuid)
  }

  /** The extension row of the device is the same in both. */
  ghost predicate SameServer(a: Db, b: Db, id: nat) {
    (id in a.servers <==> id in b.servers) && (id in a.servers ==> a.servers[id] == b.servers[id])
  }

  /** The device is bound to a uuid that none of these nodes has. */
  ghost predicate Unreported(db: Db, r: Ref, nodes: seq<XNode>) {
    && r.id in db.servers && Get(db.servers[r.id], "xclarity_uuid") != Null
    && forall i :: 0 <= i < |nodes| ==> Get(db.servers[r.id], "xclarity_uuid") != Text(nodes[i].uuid)
  }

  lemma UnreportedIsUnseen(db: Db, r: Ref, nodes: seq<XNode>)
    ensures Unreported(db, r, nodes) <==> Unseen(Uuid(db.servers, r), Uuids(nodes))
  {
    if Unseen(Uuid(db.servers, r), Uuids(nodes)) {
      forall i | 0 <= i < |nodes| ensures Get(db.servers[r.id], "xclarity_uuid") != Text(nodes[i].uuid) {
        assert nodes[i].uuid in Uuids(nodes);
      }
    }
  }

  /** The keys of the dictionaries built for a node. */
  predicate IsNodeData(data: Row) {
    && data.Keys == {"name", "device_type", "manufacturer", "model", "serial_number", "status", "management_ip",
                     "management_protocol"}
    && data["name"] != Null && data["device_type"] != Null && data["status"] != Null
  }

  predicate IsServerData(server: Row) {
    server.Keys <= {"cpu_model", "cpu_socket_count", "cpu_cores_per_socket", "bios_version", "bmc_firmware_version",
                    "form_factor", "ram_gb"}
  }

  /** A node's dictionaries hold declared columns only, so all of them are stored, and a device can be created
      from them and updated with them; the upsert fails only over an ambiguous lookup. */
  lemma NodeDataIsStored(db: Db, n: XNode)
    requires IsNodeData(n.data) && IsServerData(n.server)
    ensures forall c :: c in n.data ==> Declares(Device, c)
    ensures n.server.Keys <= ServerColumns()
    ensures OneOpen(db.alerts) ==> (StepOf(db, n.Put()).Raised? <==> !AtMostOne(Target(db, n.Put())))
  {
    var op := n.Put();
    NodeColumns(n);
    hide StepOf, Target, ColumnsOf, ServerColumns, OneOpen;
    if OneOpen(db.alerts) {
      RaisesIffUnacceptable(db, op);
    }
  }

  lemma NodeColumns(n: XNode)
    requires IsNodeData(n.data) && IsServerData(n.server)
    ensures forall c :: c in n.data ==> Declares(Device, c)
    ensures n.server.Keys <= ServerColumns() && ServerOf(n.Put()).Keys <= ServerColumns()
    ensures Creatable(Device, WithStatus(Device, DataOf(n.Put())))
    ensures forall row :: !Nulls(Device, row, DataOf(n.Put()))
  {
    assert Declares(Device, "last_seen_at");
    assert forall c :: c in DataOf(n.Put()) && NotNull(Device, c) ==> DataOf(n.Put())[c] != Null;
  }

  // ---------- which nodes succeed, and what they leave ----------

  function Puts(done: seq<XNode>): seq<Op> {
    if done == [] then [] else Puts(done[..|done| - 1]) + [done[|done| - 1].Put()]
  }

  /** The tables after these nodes were upserted. */
  ghost function After(before: Db, done: seq<XNode>): Db {
    Run(before, Puts(done))
  }

  ghost predicate Succeeds(db: Db, n: XNode) {
    n.uuid != "" && n.fault == NoFault && StepOf(db, n.Put()).Done?
  }

  /** The nodes whose upsert succeeds, in order. */
  ghost function Succeeded(before: Db, nodes: seq<XNode>): seq<XNode> {
    if nodes == [] then []
    else
      var done, n := Succeeded(before, nodes[..|nodes| - 1]), nodes[|nodes| - 1];
      if Succeeds(After(before, done), n) then done + [n] else done
  }

  function ErrorOf(n: XNode): SyncError {
    SyncError("device", n.uuid, "upsert failed")
  }

  /** The errors of the nodes whose upsert fails, in order. */
  ghost function Failures(before: Db, nodes: seq<XNode>): seq<SyncError> {
    if nodes == [] then []
    else
      var init, n := nodes[..|nodes| - 1], nodes[|nodes| - 1];
      Failures(before, init) +
        if n.uuid == "" || Succeeds(After(before, Succeeded(before, init)), n) then [] else [ErrorOf(n)]
  }

  function WithUuid(nodes: seq<XNode>): nat {
    if nodes == [] then 0 else WithUuid(nodes[..|nodes| - 1]) + if nodes[|nodes| - 1].uuid != "" then 1 else 0
  }

  /** Every node with a uuid either succeeds or is among the errors, and these are all the errors. */
  lemma {:induction false} EveryNodeAccounted(before: Db, nodes: seq<XNode>)
    ensures |Succeeded(before, nodes)| + |Failures(before, nodes)| == WithUuid(nodes)
    ensures forall n :: n in Succeeded(before, nodes) ==> n in nodes && n.uuid != ""
    ensures forall n :: n in nodes && n.uuid != "" ==>
      n in Succeeded(before, nodes) || ErrorOf(n) in Failures(before, nodes)
    ensures forall e :: e in Failures(before, nodes) ==> exists n :: n in nodes && n.uuid != "" && e == ErrorOf(n)
  {
    hide After, Succeeds;
    if nodes != [] {
      var init, last := nodes[..|nodes| - 1], nodes[|nodes| - 1];
      EveryNodeAccounted(before, init);
      if last.uuid == "" {
        NoUuidNoSuccess(After(before, Succeeded(before, init)), last);
      }
      assert forall n :: n in nodes <==> n in init || n == last;
    }
  }

  /** Each node succeeded on the tables the ones before it left. */
  ghost predicate AllSucceed(before: Db, done: seq<XNode>) {
    forall i :: 0 <= i < |done| ==> Succeeds(After(before, done[..i]), done[i])
  }

  lemma AfterOneMore(before: Db, done: seq<XNode>, n: XNode)
    ensures After(before, done + [n]) == Exec(After(before, done), n.Put())
  {
    assert (done + [n])[..|done|] == done;
    RunOneMore(before, Puts(done), n.Put());
  }

  lemma AllSucceedOneMore(before: Db, done: seq<XNode>, n: XNode)
    ensures AllSucceed(before, done + [n]) <==> AllSucceed(before, done) && Succeeds(After(before, done), n)
  {
    var all := done + [n];
    assert all[..|done|] == done && all[|done|] == n;
    forall i | 0 <= i < |done| ensures all[..i] == done[..i] && all[i] == done[i] {
    }
  }

  lemma {:induction false} SucceededSucceed(before: Db, nodes: seq<XNode>)
    ensures AllSucceed(before, Succeeded(before, nodes))
  {
    hide AllSucceed, After, Succeeds;
    if nodes == [] {
      assert AllSucceed(before, []) by { NothingSucceeds(before); }
    } else {
      var init, n := nodes[..|nodes| - 1], nodes[|nodes| - 1];
      SucceededSucceed(before, init);
      AllSucceedOneMore(before, Succeeded(before, init), n);
    }
  }

  lemma NothingSucceeds(before: Db)
    ensures AllSucceed(before, [])
  {
  }

  /** The device that the i-th successful node was written to. */
  ghost function Written(before: Db, done: seq<XNode>, i: nat): Ref
    requires i < |done|
  {
    var db := After(before, done[..i]);
    WrittenRef(db, Target(db, done[i].Put()), Device)
  }

  function Uuids(done: seq<XNode>): set<string> {
    set n | n in done :: n.uuid
  }

  /** `i` is the last successful node written to its device. */
  ghost predicate LastWriter(before: Db, done: seq<XNode>, i: nat)
    requires i < |done|
  {
    forall j :: i < j < |done| ==> Written(before, done, j) != Written(before, done, i)
  }

  ghost predicate Touched(before: Db, done: seq<XNode>, r: Ref) {
    exists i: nat :: i < |done| && Written(before, done, i) == r
  }

  /** A touched device holds the last node written to it; the others are as before. */
  ghost predicate NodesHold(before: Db, db: Db, done: seq<XNode>) {
    && (forall i: nat :: i < |done| && LastWriter(before, done, i) ==> Holds(db, Written(before, done, i), done[i]))
    && (forall r :: r in db.rows && r.kind == Device && !Touched(before, done, r) ==>
          r in before.rows && db.rows[r] == before.rows[r] && SameServer(db, before, r.id))
  }

  /** The device table after the sync. */
  ghost predicate Agrees(before: Db, after: Db, done: seq<XNode>) {
    && (forall i: nat :: i < |done| && LastWriter(before, done, i) ==> Holds(after, Written(before, done, i), done[i]))
    && (forall r :: r in after.rows && r.kind == Device && !Touched(before, done, r) ==>
          && r in before.rows
          && SameServer(after, before, r.id)
          && after.rows[r] ==
               if Unreported(before, r, done) && Get(before.rows[r], "status") == Text("active")
               then before.rows[r]["status" := Text("inactive")] else before.rows[r])
  }

  lemma UpsertHolds(db: Db, n: XNode)
    requires WellFormed(db) && StepOf(db, n.Put()).Done?
    ensures
      var s := StepOf(db, n.Put());
      && Holds(s.db, s.ref, n)
      && Exec(db, n.Put()) == s.db
      && s.db.rows == db.rows[s.ref := s.db.rows[s.ref]]
      && (forall r: Ref :: r.kind == Device && r != s.ref ==> SameServer(s.db, db, r.id))
  {
    hide StepOf, Exec, WellFormed, Target, Stored, WrittenRow, Extend, ServerColumns, Declares;
    var op := n.Put();
    var s := StepOf(db, op);
    UpsertWritesOne(db, op);
    OwnColumnsRead(db, op);
    forall c
      ensures c in n.data && c != "last_seen_at" && Declares(Device, c) ==> Get(s.db.rows[s.ref], c) == n.data[c]
    {
      UpsertStores(db, op, c);
    }
    forall c
      ensures s.ref.id in s.db.servers && OthersSame(db.servers, s.db.servers, s.ref.id)
      ensures Get(s.db.servers[s.ref.id], "xclarity_uuid") == Text(n.uuid)
      ensures c in n.server && c != "xclarity_uuid" && c in ServerColumns() ==>
        Get(s.db.servers[s.ref.id], c) == n.server[c]
    {
      ServersRead(db, op, "");
      ServersRead(db, op, c);
    }
  }

  lemma WrittenOneMore(before: Db, done: seq<XNode>, n: XNode)
    ensures forall i: nat :: i < |done| ==> Written(before, done + [n], i) == Written(before, done, i)
    ensures Written(before, done + [n], |done|) ==
      WrittenRef(After(before, done), Target(After(before, done), n.Put()), Device)
  {
    var all := done + [n];
    assert all[..|done|] == done;
    forall i: nat | i < |done| ensures Written(before, all, i) == Written(before, done, i) {
      assert all[..i] == done[..i] && all[i] == done[i];
    }
  }

  lemma UpsertOneMore(before: Db, done: seq<XNode>, n: XNode)
    requires WellFormed(After(before, done)) && NodesHold(before, After(before, done), done)
    requires Succeeds(After(before, done), n)
    ensures NodesHold(before, After(before, done + [n]), done + [n])
  {
    hide StepOf, Exec, Holds, WellFormed, After, Written, Target;
    var db, all := After(before, done), done + [n];
    AfterOneMore(before, done, n);
    WrittenOneMore(before, done, n);
    UpsertHolds(db, n);
    UpsertWritesOne(db, n.Put());
    var ref, db' := StepOf(db, n.Put()).ref, After(before, all);
    assert Written(before, all, |done|) == ref && all[|done|] == n;
    forall i: nat | i < |all| && LastWriter(before, all, i) ensures Holds(db', Written(before, all, i), all[i]) {
      if i < |done| {
        forall j | i < j < |done| ensures Written(before, done, j) != Written(before, done, i) {
          assert Written(before, all, j) != Written(before, all, i);
        }
        assert LastWriter(before, done, i) && all[i] == done[i];
        assert Holds(db, Written(before, done, i), done[i]);
        assert Written(before, all, |done|) != Written(before, all, i);
        HeldIsDevice(db, Written(before, done, i), done[i]);
        HoldStays(db, db', Written(before, done, i), done[i]);
      }
    }
    forall r | r in db'.rows && r.kind == Device && !Touched(before, all, r)
      ensures r in before.rows && db'.rows[r] == before.rows[r] && SameServer(db', before, r.id)
    {
      assert r != ref;
      TouchedStays(before, done, n, r);
    }
  }

  lemma HeldIsDevice(db: Db, r: Ref, n: XNode)
    requires Holds(db, r, n)
    ensures r in db.rows && r.kind == Device
  {
  }

  lemma HoldStays(db: Db, db': Db, r: Ref, n: XNode)
    requires Holds(db, r, n) && r in db'.rows && db'.rows[r] == db.rows[r] && SameServer(db', db, r.id)
    ensures Holds(db', r, n)
  {
    hide Declares, ServerColumns;
  }

  lemma TouchedStays(before: Db, done: seq<XNode>, n: XNode, r: Ref)
    ensures Touched(before, done, r) ==> Touched(before, done + [n], r)
  {
    hide Written;
    WrittenOneMore(before, done, n);
    if Touched(before, done, r) {
      var i: nat :| i < |done| && Written(before, done, i) == r;
      assert Written(before, done + [n], i) == r;
    }
  }

  lemma AfterIsWellFormed(before: Db, done: seq<XNode>)
    requires WellFormed(before)
    ensures WellFormed(After(before, done))
  {
    RunReplays(before, Puts(done));
  }

  lemma NothingHolds(before: Db, done: seq<XNode>)
    requires done == []
    ensures NodesHold(before, After(before, done), done)
  {
  }

  /** Touched devices hold their last node, all others are as they were. */
  lemma {:induction false} UpsertsHold(before: Db, done: seq<XNode>)
    requires WellFormed(before) && AllSucceed(before, done)
    ensures NodesHold(before, After(before, done), done)
  {
    hide WellFormed, AllSucceed, NodesHold, After, Succeeds;
    if done == [] {
      NothingHolds(before, done);
    } else {
      var init, n := done[..|done| - 1], done[|done| - 1];
      assert done == init + [n];
      AllSucceedOneMore(before, init, n);
      UpsertsHold(before, init);
      AfterIsWellFormed(before, init);
      UpsertOneMore(before, init, n);
    }
  }

  /** The sweep leaves upserted devices alone and deactivates exactly the active ones bound to a uuid
      that no successful upsert reported. */
  lemma SweepAgrees(before: Db, db: Db, done: seq<XNode>)
    requires NodesHold(before, db, done) && WellFormed(db)
    ensures Agrees(before, Exec(db, SweepUuids(Uuids(done))), done)
  {
    hide Declares, ServerColumns, WellFormed, Written, Unseen;
    var seen := Uuids(done);
    var after := Exec(db, SweepUuids(seen));
    forall i: nat | i < |done| && LastWriter(before, done, i) ensures Holds(after, Written(before, done, i), done[i]) {
      assert Holds(db, Written(before, done, i), done[i]) && done[i].uuid in seen;
      SeenIsSpared(db, Written(before, done, i), done[i], seen);
    }
    forall r | r in db.rows && r.kind == Device && !Touched(before, done, r)
      ensures r in StaleUuids(db, seen)
        <==> Unreported(before, r, done) && Get(before.rows[r], "status") == Text("active")
    {
      UnreportedIsUnseen(db, r, done);
      NullIsSeen(seen);
    }
  }

  lemma SeenIsSpared(db: Db, r: Ref, n: XNode, seen: set<string>)
    requires Holds(db, r, n) && n.uuid in seen
    ensures r !in StaleUuids(db, seen)
  {
    hide Declares, ServerColumns;
  }

  lemma NullIsSeen(seen: set<string>)
    ensures !Unseen(Null, seen)
  {
  }

  // ---------- which uuid is bound at the end ----------

  /** The fallback's guard: no device is bound to the node's uuid, and `r` has its serial number. */
  ghost predicate Takes(db: Db, n: XNode, r: Ref) {
    && WhereUuid(db, n.uuid) == {} && Truthy(Get(n.data, "serial_number"))
    && r in db.rows && r.kind == Device && Get(db.rows[r], "serial_number") == Get(n.data, "serial_number")
  }

  lemma PutBinds(db: Db, n: XNode)
    requires WellFormed(db) && Succeeds(db, n)
    ensures WhereUuid(Exec(db, n.Put()), n.uuid) == {WrittenRef(db, Target(db, n.Put()), Device)}
    ensures Holds(Exec(db, n.Put()), WrittenRef(db, Target(db, n.Put()), Device), n)
  {
    hide StepOf, Exec, Declares, WellFormed;
    var op := n.Put();
    var db', ref := Exec(db, op), WrittenRef(db, Target(db, op), Device);
    UpsertHolds(db, n);
    UpsertWritesOne(db, op);
    ExecGrows(db, op);
    WhereUuidReads(db, n.uuid);
    WhereUuidReads(db', n.uuid);
  }

  /** Another uuid loses the written device, and nothing else. */
  lemma PutRebinds(db: Db, n: XNode, u: string)
    requires WellFormed(db) && Succeeds(db, n) && n.uuid != u
    ensures WhereUuid(Exec(db, n.Put()), u) == WhereUuid(db, u) - {WrittenRef(db, Target(db, n.Put()), Device)}
  {
    hide StepOf, Exec, Declares, WellFormed, Target, WhereUuid;
    var db' := Exec(db, n.Put());
    UpsertHolds(db, n);
    UpsertWritesOne(db, n.Put());
    ExecGrows(db, n.Put());
    WhereUuidReads(db, u);
    WhereUuidReads(db', u);
  }

  /** A device bound to another uuid is written exactly when it is taken by its serial number. */
  lemma WrittenIffTaken(db: Db, n: XNode, u: string, r: Ref)
    requires WellFormed(db) && Succeeds(db, n) && n.uuid != u && r in WhereUuid(db, u)
    ensures WrittenRef(db, Target(db, n.Put()), Device) == r <==> Takes(db, n, r)
  {
    hide StepOf, Exec, Stored, WrittenRow, ServerOf;
    var sel := Target(db, n.Put());
    UpsertWritesOne(db, n.Put());
    assert r in sel <==> Takes(db, n, r);
    if r in sel {
      assert r == One(sel);
    } else {
      WrittenElsewhere(db, sel, r);
    }
  }

  lemma WrittenElsewhere(db: Db, sel: set<Ref>, r: Ref)
    requires WellFormed(db) && r in db.rows && r !in sel
    ensures WrittenRef(db, sel, Device) != r
  {
  }

  /** An upsert of another uuid unbinds `u` from its device exactly when it takes that device by serial,
      and otherwise leaves the device as it is. */
  lemma PutOfAnother(db: Db, n: XNode, u: string, r: Ref)
    requires WellFormed(db) && Succeeds(db, n) && n.uuid != u && WhereUuid(db, u) <= {r}
    ensures WhereUuid(Exec(db, n.Put()), u) == if Takes(db, n, r) then {} else WhereUuid(db, u)
    ensures WhereUuid(db, u) == {r} && !Takes(db, n, r) ==>
      var db' := Exec(db, n.Put());
      r in db'.rows && db'.rows[r] == db.rows[r] && SameServer(db', db, r.id)
  {
    hide StepOf, Exec, Declares, WellFormed, Target, Takes;
    PutRebinds(db, n, u);
    if r in WhereUuid(db, u) {
      WrittenIffTaken(db, n, u, r);
      UpsertHolds(db, n);
      UpsertWritesOne(db, n.Put());
    }
  }

  lemma WhereUuidReads(db: Db, u: string)
    requires WellFormed(db)
    ensures forall r :: r in WhereUuid(db, u) <==> r in db.rows && r.kind == Device && Uuid(db.servers, r) == Text(u)
  {
  }

  /** A later node with another uuid took the device of node `i` by its serial number. */
  ghost predicate Taken(before: Db, done: seq<XNode>, i: nat)
    requires i < |done|
  {
    exists j :: i < j < |done| && Takes(After(before, done[..j]), done[j], Written(before, done, i))
  }

  /** `i` is the last successful node with its uuid. */
  predicate LastOfUuid(done: seq<XNode>, i: nat)
    requires i < |done|
  {
    forall j :: i < j < |done| ==> done[j].uuid != done[i].uuid
  }

  lemma TakenOneMore(before: Db, done: seq<XNode>, n: XNode, i: nat)
    requires i < |done|
    ensures Taken(before, done + [n], i) <==>
      Taken(before, done, i) || Takes(After(before, done), n, Written(before, done, i))
  {
    hide Takes, After, Written;
    var all, r := done + [n], Written(before, done, i);
    WrittenOneMore(before, done, n);
    assert all[..|done|] == done && all[|done|] == n;
    forall j | i < j < |done| ensures all[..j] == done[..j] && all[j] == done[j] {
    }
    if Taken(before, done, i) {
      var j :| i < j < |done| && Takes(After(before, done[..j]), done[j], r);
      assert Takes(After(before, all[..j]), all[j], r);
    }
    if Takes(After(before, done), n, r) {
      assert Takes(After(before, all[..|done|]), all[|done|], r);
    }
    if Taken(before, all, i) {
      var j :| i < j < |all| && Takes(After(before, all[..j]), all[j], r);
    }
  }

  /** Exactly when an upserted uuid is bound at the end: it is bound to the device its last node was
      written to, unless a later node took that device by serial number; then it is bound to none. */
  lemma {:induction false} BoundUnlessTaken(before: Db, done: seq<XNode>, i: nat)
    requires WellFormed(before) && AllSucceed(before, done) && i < |done| && LastOfUuid(done, i)
    ensures WhereUuid(After(before, done), done[i].uuid) ==
      if Taken(before, done, i) then {} else {Written(before, done, i)}
    ensures !Taken(before, done, i) ==> Holds(After(before, done), Written(before, done, i), done[i])
  {
    hide AllSucceed, Succeeds, After, Written, Takes, WhereUuid, Exec, WellFormed, Declares, Taken;
    var init, n := done[..|done| - 1], done[|done| - 1];
    assert done == init + [n];
    AllSucceedOneMore(before, init, n);
    AfterOneMore(before, init, n);
    AfterIsWellFormed(before, init);
    WrittenOneMore(before, init, n);
    if i == |init| {
      PutBinds(After(before, init), n);
      NotYetTaken(before, done, i);
    } else {
      assert init[i] == done[i] && LastOfUuid(init, i);
      BoundUnlessTaken(before, init, i);
      TakenOneMore(before, init, n, i);
      PutOfAnother(After(before, init), n, done[i].uuid, Written(before, init, i));
    }
  }

  lemma NotYetTaken(before: Db, done: seq<XNode>, i: nat)
    requires i + 1 == |done|
    ensures !Taken(before, done, i)
  {
  }

  lemma SweepKeepsBinding(db: Db, seen: set<string>, u: string)
    ensures WhereUuid(Exec(db, SweepUuids(seen)), u) == WhereUuid(db, u)
  {
  }

  /** Every node with a uuid supplies a serial number, and different uuids have different ones. */
  ghost predicate DistinctSerials(nodes: seq<XNode>) {
    && (forall n :: n in nodes && n.uuid != "" ==> Truthy(Get(n.data, "serial_number")))
    && (forall a, b :: a in nodes && b in nodes && a.uuid != "" && b.uuid != "" && a.uuid != b.uuid ==>
          Get(a.data, "serial_number") != Get(b.data, "serial_number"))
  }

  lemma {:induction false} NeverTaken(before: Db, done: seq<XNode>, i: nat)
    requires WellFormed(before) && AllSucceed(before, done) && i < |done| && LastOfUuid(done, i)
    requires DistinctSerials(done)
    ensures !Taken(before, done, i)
  {
    hide AllSucceed, Succeeds, After, Written, Takes, WhereUuid, WellFormed;
    var init, n := done[..|done| - 1], done[|done| - 1];
    assert done == init + [n];
    AllSucceedOneMore(before, init, n);
    if i == |init| {
      NotYetTaken(before, done, i);
    } else {
      hide Taken;
      assert init[i] == done[i] && LastOfUuid(init, i) && DistinctSerials(init);
      NeverTaken(before, init, i);
      BoundUnlessTaken(before, init, i);
      TakenOneMore(before, init, n, i);
      assert done[i] in done && n in done && done[i].uuid != n.uuid;
      SuccessHasUuid(After(before, init), n);
      UuidOf(before, init, i);
      HeldIsNotTaken(After(before, init), done[i], n, Written(before, init, i));
    }
  }

  lemma SuccessHasUuid(db: Db, n: XNode)
    requires Succeeds(db, n)
    ensures n.uuid != ""
  {
  }

  lemma UuidOf(before: Db, done: seq<XNode>, i: nat)
    requires AllSucceed(before, done) && i < |done|
    ensures done[i].uuid != ""
  {
  }

  lemma HeldIsNotTaken(db: Db, m: XNode, n: XNode, r: Ref)
    requires Holds(db, r, m) && Truthy(Get(m.data, "serial_number"))
    requires Get(m.data, "serial_number") != Get(n.data, "serial_number")
    ensures !Takes(db, n, r)
  {
    assert "serial_number" in Stored(m.Put());
  }

  /** With distinct serial numbers every seen uuid ends bound to one device, which holds the data of the
      last node that was upserted with it, and survives the sweep. */
  lemma DistinctSerialsStayBound(before: Db, nodes: seq<XNode>, i: nat)
    requires WellFormed(before) && DistinctSerials(nodes)
    requires i < |Succeeded(before, nodes)| && LastOfUuid(Succeeded(before, nodes), i)
    ensures
      var done := Succeeded(before, nodes);
      var after, r := Exec(After(before, done), SweepUuids(Uuids(done))), Written(before, done, i);
      WhereUuid(after, done[i].uuid) == {r} && Holds(after, r, done[i])
  {
    hide AllSucceed, After, Written, Taken, WellFormed, Exec, Declares;
    var done := Succeeded(before, nodes);
    SucceededSucceed(before, nodes);
    EveryNodeAccounted(before, nodes);
    assert DistinctSerials(done);
    NeverTaken(before, done, i);
    BoundUnlessTaken(before, done, i);
    SweepKeepsBinding(After(before, done), Uuids(done), done[i].uuid);
    SweepKeepsHeld(After(before, done), Uuids(done), Written(before, done, i), done[i]);
  }

  lemma SweepKeepsHeld(db: Db, seen: set<string>, r: Ref, n: XNode)
    requires Holds(db, r, n) && n.uuid in seen
    ensures Holds(Exec(db, SweepUuids(seen)), r, n)
  {
    hide Declares;
    assert r !in StaleUuids(db, seen);
  }

  /** Every seen uuid has a last node. */
  lemma {:induction false} LastExists(done: seq<XNode>, u: string) returns (i: nat)
    requires u in Uuids(done)
    ensures i < |done| && done[i].uuid == u && LastOfUuid(done, i)
  {
    var n := done[|done| - 1];
    if n.uuid == u {
      i := |done| - 1;
    } else {
      i := LastExists(done[..|done| - 1], u);
    }
  }

  /** Without them a uuid can be seen, free of errors, and yet bound to no device: one device, bound to
      the first uuid, and two nodes that report its serial number. */
  lemma SeenButUnbound() returns (before: Db, nodes: seq<XNode>)
    ensures WellFormed(before) && UniqueUuid(before.servers) && UniqueOn(before.rows, "serial_number")
    ensures |before.rows| == 1
    ensures "u1" in Uuids(Succeeded(before, nodes)) && Failures(before, nodes) == [] && |nodes| == 2
    ensures WhereUuid(before, "u1") != {} && WhereUuid(After(before, Succeeded(before, nodes)), "u1") == {}
  {
    hide UniqueOn, UniqueUuid, WellFormed, OneOpen, WhereUuid, Exec, StepOf, Succeeded, Failures, After, Succeeds;
    hide Holds, Target;
    var a;
    before, a := BoundDevice();
    var n1 := XNode("u1", map["serial_number" := Text("A")], map[], "t", NoFault);
    var n2 := XNode("u2", map["serial_number" := Text("A")], map[], "t", NoFault);
    nodes := [n1, n2];
    TargetIsBound(before, n1, a);
    BoundHasServer(before, "u1", a);
    PutOnOnly(before, n1, a);
    var db := Exec(before, n1.Put());
    TakesOnly(db, n1, n2, a);
    BoundHasServer(db, "u1", a);
    PutOnOnly(db, n2, a);
    PutOfAnother(db, n2, "u1", a);
    TwoSucceed(before, n1, n2);
    assert n1 in nodes;
  }

  lemma BoundDevice() returns (db: Db, a: Ref)
    ensures WellFormed(db) && UniqueUuid(db.servers) && UniqueOn(db.rows, "serial_number") && OneOpen(db.alerts)
    ensures db.rows.Keys == {a} && |db.rows| == 1 && WhereUuid(db, "u1") == {a}
  {
    a := Ref(Device, 0);
    var rows: map<Ref, Row> := map[a := map["serial_number" := Text("A")]];
    db := Db(rows, map[0 := map["xclarity_uuid" := Text("u1")]], map[], map[], [], 1);
    OneDeviceIsUnique(rows, a);
    assert a in WhereUuid(db, "u1");
  }

  lemma TargetIsBound(db: Db, n: XNode, a: Ref)
    requires WhereUuid(db, n.uuid) == {a}
    ensures Target(db, n.Put()) == {a}
  {
  }

  lemma OneDeviceIsUnique(rows: map<Ref, Row>, a: Ref)
    requires rows.Keys == {a}
    ensures UniqueOn(rows, "serial_number")
  {
  }

  lemma TakesOnly(db: Db, m: XNode, n: XNode, a: Ref)
    requires Holds(db, a, m) && db.rows.Keys == {a} && m.uuid != n.uuid
    requires "serial_number" in m.data && Truthy(m.data["serial_number"])
    requires Get(n.data, "serial_number") == m.data["serial_number"]
    ensures Takes(db, n, a) && Target(db, n.Put()) == {a}
  {
    SerialIsHeld(db, m, a);
    OnlyTarget(db, m, n, a);
  }

  lemma SerialIsHeld(db: Db, m: XNode, a: Ref)
    requires Holds(db, a, m) && "serial_number" in m.data
    ensures Get(db.rows[a], "serial_number") == m.data["serial_number"]
  {
    hide ServerColumns;
    assert Declares(Device, "serial_number");
  }

  lemma OnlyTarget(db: Db, m: XNode, n: XNode, a: Ref)
    requires db.rows.Keys == {a} && a.kind == Device && a.id in db.servers && m.uuid != n.uuid
    requires Get(db.servers[a.id], "xclarity_uuid") == Text(m.uuid)
    requires Truthy(Get(n.data, "serial_number")) && Get(db.rows[a], "serial_number") == Get(n.data, "serial_number")
    ensures Takes(db, n, a) && Target(db, n.Put()) == {a}
  {
    OneColumn(db.rows[a], "serial_number", Get(n.data, "serial_number"));
    assert WhereUuid(db, n.uuid) == {};
  }

  /** An upsert that finds the only device succeeds and binds it. */
  lemma PutOnOnly(db: Db, n: XNode, a: Ref)
    requires WellFormed(db) && OneOpen(db.alerts) && db.rows.Keys == {a} && Target(db, n.Put()) == {a}
    requires n.uuid != "" && n.fault == NoFault && a.id in db.servers && (forall c :: c in n.data ==> n.data[c] != Null)
    ensures Succeeds(db, n)
    ensures
      var db' := Exec(db, n.Put());
      WellFormed(db') && OneOpen(db'.alerts) && db'.rows.Keys == {a} && WhereUuid(db', n.uuid) ==
        {a} && Holds(db', a, n)
  {
    hide Exec, StepOf, WellFormed, OneOpen, Target, WhereUuid;
    assert One({a}) == a;
    RaisesIffUnacceptable(db, n.Put());
    PutBinds(db, n);
    ExecGrows(db, n.Put());
    ExecKeepsOneOpen(db, n.Put());
    UpsertWritesOne(db, n.Put());
  }

  lemma BoundHasServer(db: Db, u: string, a: Ref)
    requires WhereUuid(db, u) == {a}
    ensures a.id in db.servers
  {
    assert a in WhereUuid(db, u);
  }

  lemma TwoSucceed(before: Db, n1: XNode, n2: XNode)
    requires Succeeds(before, n1) && Succeeds(Exec(before, n1.Put()), n2)
    ensures Succeeded(before, [n1, n2]) == [n1, n2] && Failures(before, [n1, n2]) == []
    ensures After(before, [n1, n2]) == Exec(Exec(before, n1.Put()), n2.Put())
  {
    hide Exec, Succeeds, After;
    AfterNothing(before);
    AfterOneMore(before, [], n1);
    AfterOneMore(before, [n1], n2);
    assert [] + [n1] == [n1] && [n1] + [n2] == [n1, n2] && [n1, n2][..1] == [n1] && [n1][..0] == [];
    assert Succeeded(before, []) == [] && Failures(before, []) == [];
    assert Succeeded(before, [n1]) == [n1];
    assert Failures(before, [n1]) == Failures(before, []) + [];
  }

  // ---------- the loop ----------

  /** One node's upsert with its error handling. */
  method SyncNode(engine: SyncEngine, stats: SyncStats, n: XNode) returns (ok: bool)
    requires engine.Valid() && n.uuid != ""
    modifies engine, stats
    ensures engine.Valid()
    ensures ok <==> Succeeds(old(engine.State()), n)
    ensures engine.State() == if ok then Exec(old(engine.State()), n.Put()) else old(engine.State())
    ensures stats.errors == if ok then old(stats.errors) else old(stats.errors) + [ErrorOf(n)]
    ensures ok ==> stats.counts.Total() == old(stats.counts.Total()) + 1
    ensures !ok ==> old(stats.counts.Total()) <= stats.counts.Total() <= old(stats.counts.Total()) + 1
  {
    hide StepOf, Exec, Run;
    ghost var before := engine.State();
    RunReplays(engine.origin, engine.ops);
    ok := false;
    match n.fault {
      case NoFault =>
        var ref;
        ok, ref := engine.UpsertDeviceByXclarityUuid(n.uuid, n.data, n.server, n.at, stats);
        if !ok {
          RaisedChangesNothing(before, n.Put());
        }
      case FailsBeforeCount =>
      case FailsAfterCount =>
        engine.FailAfterCounting(n.uuid, n.data, n.at, stats);
    }
    if !ok {
      stats.AddError("device", n.uuid, "upsert failed");
    }
  }

  lemma RaisedChangesNothing(db: Db, op: Op)
    requires IsUpsert(op) && StepOf(db, op).Raised?
    ensures Exec(db, op) == db
  {
  }

  /** `sync_all`.  The nodes that succeed leave their devices behind in order, the failing ones leave
      errors only, and the sweep deactivates exactly the other active devices bound to a uuid.  Every
      successful node is counted once, every failing one at most once. */
  method SyncAll(engine: SyncEngine, stats: SyncStats, nodes: seq<XNode>) returns (seen: set<string>)
    requires engine.Valid()
    modifies engine, stats
    ensures engine.Valid()
    ensures
      var before := old(engine.State());
      var done := Succeeded(before, nodes);
      && seen == Uuids(done)
      && engine.State() == Exec(After(before, done), SweepUuids(seen))
      && Agrees(before, engine.State(), done)
      && stats.errors == old(stats.errors) + Failures(before, nodes)
      && |done| <= stats.counts.Total() - old(stats.counts.Total()) <= WithUuid(nodes)
    ensures UniqueUuid(old(engine.servers)) ==> UniqueUuid(engine.servers)
  {
    hide StepOf, Exec, Run, NodesHold, Agrees, UniqueUuid, WellFormed, Succeeds, After, AllSucceed;
    seen := {};
    ghost var before := engine.State();
    RunReplays(engine.origin, engine.ops);
    assert After(before, []) == before by { AfterNothing(before); }
    for i := 0 to |nodes|
      invariant engine.Valid()
      invariant seen == Uuids(Succeeded(before, nodes[..i]))
      invariant engine.State() == After(before, Succeeded(before, nodes[..i]))
      invariant stats.errors == old(stats.errors) + Failures(before, nodes[..i])
      invariant |Succeeded(before,
        nodes[..i])| <= stats.counts.Total() - old(stats.counts.Total()) <= WithUuid(nodes[..i])
    {
      var n := nodes[i];
      assert nodes[..i + 1][..i] == nodes[..i];
      if n.uuid == "" {
        NoUuidNoSuccess(engine.State(), n);
        continue;
      }
      AfterOneMore(before, Succeeded(before, nodes[..i]), n);
      UuidsOneMore(Succeeded(before, nodes[..i]), n);
      var ok := SyncNode(engine, stats, n);
      if ok {
        seen := seen + {n.uuid};
      }
    }
    assert nodes[..|nodes|] == nodes;
    ghost var done := Succeeded(before, nodes);
    SucceededSucceed(before, nodes);
    UpsertsHold(before, done);
    AfterIsWellFormed(before, done);
    SweepAgrees(before, engine.State(), done);
    SyncKeepsUuids(before, done, seen);
    engine.MarkMissingXclarityDevicesInactive(seen);
  }

  lemma NoUuidNoSuccess(db: Db, n: XNode)
    requires n.uuid == ""
    ensures !Succeeds(db, n)
  {
  }

  lemma AfterNothing(before: Db)
    ensures After(before, []) == before
  {
  }

  lemma UuidsOneMore(done: seq<XNode>, n: XNode)
    ensures Uuids(done + [n]) == Uuids(done) + {n.uuid}
  {
  }

  lemma {:induction false} PutsAreXClarity(done: seq<XNode>)
    ensures forall op :: op in Puts(done) ==> op.UpsertByUuid?
  {
    if done != [] {
      PutsAreXClarity(done[..|done| - 1]);
    }
  }

  lemma SyncKeepsUuids(before: Db, done: seq<XNode>, seen: set<string>)
    requires WellFormed(before)
    ensures UniqueUuid(before.servers) ==> UniqueUuid(Exec(After(before, done), SweepUuids(seen)).servers)
  {
    hide UniqueUuid;
    if UniqueUuid(before.servers) {
      PutsAreXClarity(done);
      forall i | 0 <= i < |Puts(done)| ensures UuidOnlyFromXClarity(Puts(done)[i]) {
        assert Puts(done)[i] in Puts(done);
      }
      RunKeepsUuids(before, Puts(done));
    }
  }
}
