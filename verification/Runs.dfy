/** A sync run as the list of operations it performed, and the theorem all hypervisor syncs share:
    what the VM table looks like afterwards depends only on what was reported where. */
module Runs {
  import opened Wrappers
  import opened Values
  import opened Store
  import opened Reconcile

  /** One VM reported on a host the run knows, with that host's row id. */
  datatype KnownVm = KnownVm(host: nat, id: string, data: Row, at: string) {
    function Put(): Op { UpsertVm(host, data, at) }
  }

  function IdsOn(known: set<KnownVm>, host: nat): set<string> {
    set k | k in known && k.host == host :: k.id
  }

  /** The VM operations of `run` are one upsert for every element of `known` and sweeps of exactly the
      hosts in `swept`, each with the ids reported on that host. */
  ghost predicate Executes(run: seq<Op>, swept: set<nat>, known: set<KnownVm>) {
    && (forall k :: k in known ==> k.host in swept && Get(k.data, "platform_vm_id") == Text(k.id) && k.Put() in run)
    && (forall op :: op in run && op.UpsertVm? ==> exists k :: k in known && op == k.Put())
    && (forall h: nat :: h in swept ==> SweepVms(h, IdsOn(known, h)) in run)
    && (forall op :: op in run && op.SweepVms? ==> op.host in swept && op.seenIds == IdsOn(known, op.host))
  }

  /** The VM table after a run, column by column. */
  ghost predicate Agrees(before: Db, after: Db, swept: set<nat>, known: set<KnownVm>) {
    && (forall v :: v != "" && (exists k :: k in known && k.id == v) ==>
          IdRows(after.rows, v) != {} && AtMostOne(IdRows(after.rows, v)))
    && (forall r, v :: v != "" && HasId(after.rows, r, v) ==> RowAgrees(before, r, after.rows[r], v, swept, known))
  }

  ghost predicate RowAgrees(before: Db, r: Ref, row: Row, v: string, swept: set<nat>, known: set<KnownVm>) {
    // reported on a known host: the row is what the source reported, never a tombstone
    && ((exists k :: k in known && k.id == v) ==> exists k :: k in known && k.id == v && Carries(row, k.Put()))
    // not reported: the row is the old one, stopped when its host was swept
    && ((forall k :: k in known ==> k.id != v) ==>
          && r in before.rows
          && (forall c :: c != "status" ==> Get(row, c) == Get(before.rows[r], c))
          && Get(row, "status") ==
               if exists h: nat :: h in swept && Get(row, "host_id") == Key(h) then Text("stopped")
               else Get(before.rows[r], "status"))
    // nothing but the supplied columns ever changes
    && (forall c :: c != "status" && (forall k :: k in known && k.id == v ==> c !in Stored(k.Put())) ==>
          Get(row, c) == Get(Base(before, r), c))
  }

  // ---------- runs as lists ----------

  lemma {:induction false} RunConcat(db: Db, a: seq<Op>, b: seq<Op>)
    ensures Run(db, a + b) == Run(Run(db, a), b)
    decreases |b|
  {
    if b == [] {
      assert a + b == a;
    } else {
      assert (a + b)[..|a + b| - 1] == a + b[..|b| - 1];
      RunConcat(db, a, b[..|b| - 1]);
    }
  }

  lemma CompletedOneMore(before: Db, run: seq<Op>, op: Op)
    requires Completed(before, run) && (op.UpsertVm? ==> StepOf(Run(before, run), op).Done?)
    ensures Completed(before, run + [op])
  {
    forall i | 0 <= i < |run + [op]| && (run + [op])[i].UpsertVm?
      ensures StepOf(Run(before, (run + [op])[..i]), (run + [op])[i]).Done?
    {
      if i < |run| {
        assert (run + [op])[..i] == run[..i];
      } else {
        assert (run + [op])[..i] == run;
      }
    }
  }

  lemma CompletedConcat(before: Db, a: seq<Op>, b: seq<Op>)
    requires Completed(before, a) && Completed(Run(before, a), b)
    ensures Completed(before, a + b)
  {
    forall i | 0 <= i < |a + b| && (a + b)[i].UpsertVm? ensures StepOf(Run(before, (a + b)[..i]), (a + b)[i]).Done? {
      if i < |a| {
        assert (a + b)[..i] == a[..i];
      } else {
        assert (a + b)[..i] == a + b[..i - |a|];
        RunConcat(before, a, b[..i - |a|]);
      }
    }
  }

  // ---------- from operations to the table ----------

  lemma PutsAreKnown(run: seq<Op>, swept: set<nat>, known: set<KnownVm>, v: string)
    requires Executes(run, swept, known)
    ensures LastPut(run, v) == None <==> forall k :: k in known ==> k.id != v
    ensures LastPut(run, v) != None ==> exists k :: k in known && k.id == v && LastPut(run, v) == Some(k.Put())
  {
    LastPutIsPut(run, v);
    if LastPut(run, v) == None {
      forall k | k in known ensures k.id != v {
        var i :| 0 <= i < |run| && run[i] == k.Put();
      }
    }
  }

  lemma ExecutesIsConsistent(run: seq<Op>, swept: set<nat>, known: set<KnownVm>)
    requires Executes(run, swept, known)
    ensures Consistent(run)
  {
    forall i, v: string | 0 <= i < |run| && run[i].SweepVms?
      ensures v in run[i].seenIds <==> exists j :: 0 <= j < |run| && PutsVm(run[j], v) && run[j].host == run[i].host
    {
      if v in run[i].seenIds {
        var k :| k in known && k.host == run[i].host && k.id == v;
        var j :| 0 <= j < |run| && run[j] == k.Put();
        assert PutsVm(run[j], v) && run[j].host == run[i].host;
      }
      if j :| 0 <= j < |run| && PutsVm(run[j], v) && run[j].host == run[i].host {
        assert run[j] in run;
      }
    }
  }

  lemma SweptIsSwept(run: seq<Op>, swept: set<nat>, known: set<KnownVm>, host: Value)
    requires Executes(run, swept, known)
    ensures Swept(run, host) <==> exists h: nat :: h in swept && host == Key(h)
  {
    if i :| 0 <= i < |run| && SweepsHost(run[i], host) {
      assert run[i] in run;
    }
    if h: nat :| h in swept && host == Key(h) {
      var i :| 0 <= i < |run| && run[i] == SweepVms(h, IdsOn(known, h));
      assert SweepsHost(run[i], host);
    }
  }

  lemma NeverSuppliedByKnown(run: seq<Op>, swept: set<nat>, known: set<KnownVm>, v: string, c: Column)
    requires Executes(run, swept, known)
    requires forall k :: k in known && k.id == v ==> c !in Stored(k.Put())
    ensures NeverSupplied(run, v, c)
  {
    forall i | 0 <= i < |run| && PutsVm(run[i], v) ensures c !in Stored(run[i]) {
      var k :| k in known && run[i] == k.Put();
    }
  }

  /** The theorem: a completed run leaves exactly the reported table. */
  lemma RunReconciles(before: Db, run: seq<Op>, swept: set<nat>, known: set<KnownVm>)
    requires WellFormed(before) && Completed(before, run) && Executes(run, swept, known)
    ensures Agrees(before, Run(before, run), swept, known)
  {
    var after := Run(before, run);
    ExecutesIsConsistent(run, swept, known);
    RunSettles(before, run);
    forall v | v != "" && (exists k :: k in known && k.id == v)
      ensures IdRows(after.rows, v) != {} && AtMostOne(IdRows(after.rows, v))
    {
      PutsAreKnown(run, swept, known, v);
    }
    forall r, v | v != "" && HasId(after.rows, r, v)
      ensures RowAgrees(before, r, after.rows[r], v, swept, known)
    {
      RowReconciles(before, run, swept, known, r, after.rows[r], v);
    }
  }

  lemma RowReconciles(before: Db, run: seq<Op>, swept: set<nat>, known: set<KnownVm>, r: Ref, row: Row, v: string)
    requires Executes(run, swept, known) && RowSettled(before, run, run, r, row, v)
    ensures RowAgrees(before, r, row, v, swept, known)
  {
    PutsAreKnown(run, swept, known, v);
    SweptIsSwept(run, swept, known, Get(row, "host_id"));
    forall c | c != "status" && (forall k :: k in known && k.id == v ==> c !in Stored(k.Put()))
      ensures Get(row, c) == Get(Base(before, r), c)
    {
      NeverSuppliedByKnown(run, swept, known, v, c);
    }
  }

  // ---------- putting runs together ----------

  /** Two runs over different hosts. */
  lemma ExecutesConcat(a: seq<Op>, sweptA: set<nat>, knownA: set<KnownVm>, b: seq<Op>, sweptB: set<nat>,
                       knownB: set<KnownVm>)
    requires Executes(a, sweptA, knownA) && Executes(b, sweptB, knownB) && sweptA !! sweptB
    ensures Executes(a + b, sweptA + sweptB, knownA + knownB)
  {
    forall h: nat | h in sweptA + sweptB
      ensures h in sweptA ==> IdsOn(knownA + knownB, h) == IdsOn(knownA, h)
      ensures h in sweptB ==> IdsOn(knownA + knownB, h) == IdsOn(knownB, h)
    {
    }
  }
}
