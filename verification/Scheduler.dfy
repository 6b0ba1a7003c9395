/** The scheduler's job table, which mirrors the enabled integrations. */
module Scheduler {
  import opened Wrappers

  datatype Integration = Integration(id: string, name: string, interval: Option<int>, enabled: bool)

  datatype Job = Sync(integration: string, name: string, seconds: int) | Cleanup(name: string, hour: nat, minute: nat)

  type Jobs = map<string, Job>

  /** `str(uuid)` has 36 characters. */
  predicate UuidText(id: string) {
    |id| == 36
  }

  /** `max(polling_interval_sec or 3600, 60)`. */
  function Seconds(interval: Option<int>): int {
    var s := if interval == None || interval.value == 0 then 3600 else interval.value;
    if s > 60 then s else 60
  }

  function JobOf(i: Integration): Job {
    Sync(i.id, "sync:" + i.name, Seconds(i.interval))
  }

  function CleanupJobs(): Jobs {
    map["cleanup_token_revocations" := Cleanup("cleanup:token_revocations", 3, 0),
        "cleanup_power_readings" := Cleanup("cleanup:power_readings", 3, 15),
        "cleanup_sync_logs" := Cleanup("cleanup:sync_logs", 3, 30)]
  }

  /** The integrations table, keyed by id. */
  ghost predicate Stored(table: map<string, Integration>) {
    forall id :: id in table ==> UuidText(id) && table[id].id == id
  }

  function Enabled(table: map<string, Integration>): Jobs {
    map id | id in table && table[id].enabled :: JobOf(table[id])
  }

  /** The jobs are the three cleanup jobs and one job for each enabled integration, nothing else. */
  ghost predicate Mirrors(jobs: Jobs, table: map<string, Integration>) {
    jobs == CleanupJobs() + Enabled(table)
  }

  /** API calls, each of which tells the scheduler. */
  datatype Event = Put(i: Integration) | Delete(id: string)

  function NextTable(table: map<string, Integration>, e: Event): map<string, Integration> {
    match e
    case Put(i) => table[i.id := i]
    case Delete(id) => table - {id}
  }

  function NextJobs(jobs: Jobs, e: Event): Jobs {
    match e
    case Put(i) => if i.enabled then jobs[i.id := JobOf(i)] else jobs - {i.id}
    case Delete(id) => jobs - {id}
  }

  function RunTable(table: map<string, Integration>, events: seq<Event>): map<string, Integration> {
    if events == [] then table else NextTable(RunTable(table, events[..|events| - 1]), events[|events| - 1])
  }

  function RunJobs(jobs: Jobs, events: seq<Event>): Jobs {
    if events == [] then jobs else NextJobs(RunJobs(jobs, events[..|events| - 1]), events[|events| - 1])
  }

  predicate KeyOk(e: Event) {
    UuidText(match e case Put(i) => i.id case Delete(id) => id)
  }

  lemma CleanupIdsAreNoUuids()
    ensures forall id :: id in CleanupJobs() ==> !UuidText(id)
  {
  }

  /** The enabled integrations change as the jobs do. */
  lemma EnabledStep(table: map<string, Integration>, e: Event)
    ensures Enabled(NextTable(table, e)) == NextJobs(Enabled(table), e)
  {
  }

  lemma StepMirrors(jobs: Jobs, table: map<string, Integration>, e: Event)
    requires Mirrors(jobs, table) && Stored(table) && KeyOk(e)
    ensures Mirrors(NextJobs(jobs, e), NextTable(table, e)) && Stored(NextTable(table, e))
  {
    CleanupIdsAreNoUuids();
    EnabledStep(table, e);
    hide CleanupJobs, JobOf, UuidText, Enabled;
    assert NextJobs(jobs, e) == CleanupJobs() + NextJobs(Enabled(table), e);
  }

  /** After startup and any sequence of creates, updates and deletes the job table mirrors the
      integrations; in particular the cleanup jobs are never displaced. */
  lemma {:induction false} RunMirrors(jobs: Jobs, table: map<string, Integration>, events: seq<Event>)
    requires Mirrors(jobs, table) && Stored(table) && forall i :: 0 <= i < |events| ==> KeyOk(events[i])
    ensures Mirrors(RunJobs(jobs, events), RunTable(table, events)) && Stored(RunTable(table, events))
    ensures forall id :: id in CleanupJobs() ==>
      id in RunJobs(jobs, events) && RunJobs(jobs, events)[id] == CleanupJobs()[id]
  {
    if events != [] {
      RunMirrors(jobs, table, events[..|events| - 1]);
      StepMirrors(RunJobs(jobs, events[..|events| - 1]), RunTable(table, events[..|events| - 1]), events[|events| - 1]);
    }
    CleanupIdsAreNoUuids();
    hide CleanupJobs;
  }

  /** The interval of a job: an hour when none is set, and a minute at least. */
  lemma SecondsRead(interval: Option<int>)
    ensures interval == None || interval == Some(0) ==> Seconds(interval) == 3600
    ensures interval != None && interval.value >= 60 ==> Seconds(interval) == interval.value
    ensures interval != None && interval.value < 60 && interval.value != 0 ==> Seconds(interval) == 60
  {
  }

  /** Integration by integration: there is a job under an integration's id exactly when it is enabled, with its
      name and its interval, and every other job is one of the three cleanup jobs, which run nightly at 3:00, 3:15
      and 3:30. */
  lemma JobsRead(jobs: Jobs, table: map<string, Integration>, events: seq<Event>, id: string)
    requires Mirrors(jobs, table) && Stored(table) && forall i :: 0 <= i < |events| ==> KeyOk(events[i])
    ensures
      var after, list := RunJobs(jobs, events), RunTable(table, events);
      && (id in list ==> (id in after <==> list[id].enabled))
      && (id in list && list[id].enabled ==>
            after[id].Sync? && after[id].integration == id && after[id].name == "sync:" + list[id].name
            && after[id].seconds >= 60
            && (list[id].interval == None ==> after[id].seconds == 3600)
            && (list[id].interval != None && list[id].interval.value >= 60 ==>
                  after[id].seconds == list[id].interval.value))
      && (id in after && id !in list ==>
            id in {"cleanup_token_revocations", "cleanup_power_readings", "cleanup_sync_logs"})
      && (id in {"cleanup_token_revocations", "cleanup_power_readings", "cleanup_sync_logs"} ==>
            id in after && after[id].Cleanup? && after[id].hour == 3
            && after[id].minute == if id == "cleanup_token_revocations" then 0
                                   else if id == "cleanup_power_readings" then 15 else 30)
  {
    RunMirrors(jobs, table, events);
    CleanupIdsAreNoUuids();
  }

  class JobScheduler {
    var jobs: Jobs

    constructor ()
      ensures jobs == map[]
    {
      jobs := map[];
    }

    method ScheduleOne(i: Integration)
      modifies this
      ensures jobs == old(jobs)[i.id := JobOf(i)]
    {
      if i.id in jobs {
        jobs := jobs - {i.id};
      }
      jobs := jobs[i.id := JobOf(i)];
    }

    method Unschedule(id: string)
      modifies this
      ensures jobs == old(jobs) - {id}
    {
      if id in jobs {
        jobs := jobs - {id};
      }
    }

    method Schedule(i: Integration)
      modifies this
      ensures jobs == NextJobs(old(jobs), Put(i))
    {
      if !i.enabled {
        Unschedule(i.id);
        return;
      }
      ScheduleOne(i);
    }

    /** Startup: every enabled integration, then the cleanup jobs. */
    method LoadAndScheduleAll(table: map<string, Integration>)
      requires jobs == map[] && Stored(table)
      modifies this
      ensures Mirrors(jobs, table)
    {
      ScheduleEnabled(table);
      ghost var synced := jobs;
      CleanupIdsAreNoUuids();
      jobs := jobs["cleanup_token_revocations" := Cleanup("cleanup:token_revocations", 3, 0)];
      jobs := jobs["cleanup_power_readings" := Cleanup("cleanup:power_readings", 3, 15)];
      jobs := jobs["cleanup_sync_logs" := Cleanup("cleanup:sync_logs", 3, 30)];
      assert jobs == synced + CleanupJobs();
      DisjointJobs(table);
    }

    method ScheduleEnabled(table: map<string, Integration>)
      requires jobs == map[] && Stored(table)
      modifies this
      ensures jobs == Enabled(table)
    {
      var todo := table.Keys;
      while todo != {}
        invariant todo <= table.Keys
        invariant jobs == Enabled(table - todo)
        decreases todo
      {
        var id :| id in todo;
        EnableOne(table, todo, id);
        if table[id].enabled {
          ScheduleOne(table[id]);
        }
        todo := todo - {id};
      }
      assert table - todo == table;
    }
  }

  lemma EnableOne(table: map<string, Integration>, todo: set<string>, id: string)
    requires id in todo && id in table
    ensures Enabled(table - (todo - {id})) ==
      if table[id].enabled then Enabled(table - todo)[id := JobOf(table[id])] else Enabled(table - todo)
  {
  }

  lemma DisjointJobs(table: map<string, Integration>)
    requires Stored(table)
    ensures Enabled(table) + CleanupJobs() == CleanupJobs() + Enabled(table)
  {
    CleanupIdsAreNoUuids();
    hide CleanupJobs;
  }
}
