/** The topology cache under concurrency: link writes, their `mark_dirty` calls and the two halves of a
    rebuild (the query, then the assignment with the flag clear) in any interleaving. */
module TopologyCache {
  import opened Wrappers
  import opened Graph
  import opened Topology

  /** The graph a rebuild makes of the rows it queried. */
  function Build(db: Db, links: seq<Link>): Graph<Edge> {
    if links == [] then map[]
    else
      var g, l := Build(db, links[..|links| - 1]), links[|links| - 1];
      if l.status == Inactive || l.source !in db.devices || l.target !in db.devices
         || db.devices[l.source] == db.devices[l.target]
      then g
      else AddEdge(g, db.devices[l.source], db.devices[l.target], EdgeOf(l))
  }

  /** It is the graph the service holds after rebuilding from the same tables. */
  lemma {:induction false} BuildRepresents(db: Db, links: seq<Link>)
    ensures Represents(Build(db, links), db, links)
  {
    hide LastJoin, Represents, AddEdge;
    if links == [] {
      assert Represents(Build(db, links), db, links) by { RepresentsNothing(db); }
    } else {
      var rest, l := links[..|links| - 1], links[|links| - 1];
      assert links == rest + [l];
      BuildRepresents(db, rest);
      if l.status == Inactive || l.source !in db.devices || l.target !in db.devices
         || db.devices[l.source] == db.devices[l.target] {
        RepresentsSkipped(Build(db, rest), db, rest, l);
      } else {
        RepresentsOneMore(Build(db, rest), db, rest, l);
      }
    }
  }

  lemma RepresentsNothing(db: Db)
    ensures Represents(map[], db, [])
  {
  }

  /** A graph the service holds is the built one. */
  lemma ServiceGraphIsBuilt(g: Graph<Edge>, db: Db)
    ensures Represents(g, db, db.links) <==> g == GraphOf(db)
  {
    BuildRepresents(db, db.links);
    if Represents(g, db, db.links) {
      RepresentsIsUnique(g, GraphOf(db), db);
    }
  }

  function GraphOf(db: Db): Graph<Edge> {
    Build(db, db.links)
  }

  /** The lock allows one rebuild at a time; between its query and its assignment it holds the rows. */
  datatype Phase = Idle | Queried(rows: Db)

  /** `pending` counts link writes that are committed but have not called `mark_dirty` yet. */
  datatype Cache = Cache(db: Db, pending: nat, graph: Graph<Edge>, dirty: bool, phase: Phase, built: bool)

  datatype Event =
    | Write(to: Db)     // a link endpoint commits
    | Mark              // and then marks the cache dirty
    | Cascade(after: Db)  // links change as a side effect, with no call of mark_dirty
    | Query             // a reader finds the flag set and runs the rebuild query
    | Assign            // the rebuild stores its graph and clears the flag

  ghost predicate Starts(c: Cache) {
    c.pending == 0 && c.graph == map[] && c.dirty && c.phase == Idle && !c.built
  }

  predicate Enabled(c: Cache, e: Event) {
    match e
    case Write(_) | Cascade(_) => true
    case Mark => c.pending > 0
    case Query => c.dirty && c.phase == Idle
    case Assign => c.phase != Idle
  }

  function Next(c: Cache, e: Event): Cache
    requires Enabled(c, e)
  {
    match e
    case Write(db) => c.(db := db, pending := c.pending + 1)
    case Cascade(db) => c.(db := db)
    case Mark => c.(pending := c.pending - 1, dirty := true)
    case Query => c.(phase := Queried(c.db))
    case Assign => c.(graph := GraphOf(c.phase.rows), dirty := false, phase := Idle, built := true)
  }

  /** The states of a run, first to last. */
  ghost predicate Behaviour(states: seq<Cache>, events: seq<Event>) {
    && |states| == |events| + 1 && Starts(states[0])
    && forall i :: 0 <= i < |events| ==> Enabled(states[i], events[i]) && states[i + 1] == Next(states[i], events[i])
  }

  /** The cached graph is the graph of a table that existed at some point of the run. */
  ghost predicate Existed(states: seq<Cache>, n: nat, g: Graph<Edge>) {
    exists j :: 0 <= j <= n && j < |states| && g == GraphOf(states[j].db)
  }

  /** In every state of every run: before the first rebuild the flag is set, and after it the cached graph
      is the graph of a link table that really existed. */
  lemma {:induction false} GraphReallyExisted(states: seq<Cache>, events: seq<Event>, n: nat)
    requires Behaviour(states, events) && n < |states|
    ensures !states[n].built ==> states[n].dirty
    ensures states[n].phase != Idle ==>
      states[n].dirty && exists j :: 0 <= j <= n && states[n].phase.rows == states[j].db
    ensures states[n].built ==> Existed(states, n, states[n].graph)
  {
    if n > 0 {
      GraphReallyExisted(states, events, n - 1);
      assert states[n - 1 + 1] == Next(states[n - 1], events[n - 1]);
      if events[n - 1] == Query {
        assert states[n].phase.rows == states[n].db;
      } else if states[n].phase != Idle {
        var j :| 0 <= j <= n - 1 && states[n - 1].phase.rows == states[j].db;
        assert states[n].phase.rows == states[j].db;
      }
      if events[n - 1] == Assign {
        var j :| 0 <= j <= n - 1 && states[n - 1].phase.rows == states[j].db;
        assert states[n].graph == GraphOf(states[j].db);
      } else if states[n].built {
        var j :| 0 <= j <= n - 1 && j < |states| && states[n - 1].graph == GraphOf(states[j].db);
        assert states[n].graph == GraphOf(states[j].db);
      }
    }
  }

  /** What readers rely on: a clear flag, with no write still to mark it, means a current graph. */
  ghost predicate FreshWhenClean(c: Cache) {
    !c.dirty && c.pending == 0 ==> c.graph == GraphOf(c.db)
  }

  // ---------- schedules ----------

  /** An event without its tables. */
  datatype Action = DoWrite | DoMark | DoCascade | DoQuery | DoAssign

  function ActionOf(e: Event): Action {
    match e
    case Write(_) => DoWrite
    case Mark => DoMark
    case Cascade(_) => DoCascade
    case Query => DoQuery
    case Assign => DoAssign
  }

  /** The event that does `a`, leaving the link table `db` if it changes links. */
  function EventOf(a: Action, db: Db): Event {
    match a
    case DoWrite => Write(db)
    case DoMark => Mark
    case DoCascade => Cascade(db)
    case DoQuery => Query
    case DoAssign => Assign
  }

  /** What a schedule alone determines: the marks still owed, the flag, whether a rebuild is between its
      two halves, and whether links changed since its query. */
  datatype Control = Control(pending: nat, dirty: bool, rebuilding: bool, overtaken: bool)

  predicate May(c: Control, a: Action) {
    match a
    case DoWrite | DoCascade => true
    case DoMark => c.pending > 0
    case DoQuery => c.dirty && !c.rebuilding
    case DoAssign => c.rebuilding
  }

  function Do(c: Control, a: Action): Control {
    match a
    case DoWrite => c.(pending := c.pending + 1, overtaken := true)
    case DoCascade => c.(overtaken := true)
    case DoMark => c.(pending := if c.pending > 0 then c.pending - 1 else 0, dirty := true)
    case DoQuery => c.(rebuilding := true, overtaken := false)
    case DoAssign => c.(dirty := false, rebuilding := false)
  }

  function ControlAfter(schedule: seq<Action>): Control {
    if schedule == [] then Control(0, true, false, false)
    else Do(ControlAfter(schedule[..|schedule| - 1]), schedule[|schedule| - 1])
  }

  /** Some run follows the schedule. */
  predicate Possible(schedule: seq<Action>) {
    forall i :: 0 <= i < |schedule| ==> May(ControlAfter(schedule[..i]), schedule[i])
  }

  ghost predicate Follows(events: seq<Event>, schedule: seq<Action>) {
    |events| == |schedule| && forall i :: 0 <= i < |events| ==> ActionOf(events[i]) == schedule[i]
  }

  /** Whatever tables the schedule is run with, every state is fresh when clean. */
  ghost predicate AlwaysFresh(schedule: seq<Action>) {
    forall states, events :: Behaviour(states, events) && Follows(events, schedule) ==>
      forall i :: 0 <= i < |states| ==> FreshWhenClean(states[i])
  }

  /** The two steps of a schedule that lose a change: a rebuild that clears the flag after links changed
      behind its query, with no mark still owed; and a silent change while the flag is clear, with no mark
      still owed. */
  predicate Harmless(c: Control, a: Action) {
    && (a == DoAssign && c.pending == 0 ==> !c.overtaken)
    && (a == DoCascade ==> c.dirty || c.pending > 0)
  }

  predicate Undisturbed(schedule: seq<Action>) {
    forall i :: 0 <= i < |schedule| ==> Harmless(ControlAfter(schedule[..i]), schedule[i])
  }

  /** The state has the control part `k`, and the rows of a rebuild are current unless overtaken. */
  ghost predicate Tracks(c: Cache, k: Control) {
    && c.pending == k.pending && c.dirty == k.dirty && (c.phase != Idle <==> k.rebuilding)
    && (c.phase != Idle ==> c.dirty)
    && (c.phase != Idle && !k.overtaken ==> c.phase.rows == c.db)
  }

  lemma StepTracks(c: Cache, e: Event, k: Control)
    requires Enabled(c, e) && Tracks(c, k)
    ensures May(k, ActionOf(e)) && Tracks(Next(c, e), Do(k, ActionOf(e)))
    ensures FreshWhenClean(c) && Harmless(k, ActionOf(e)) ==> FreshWhenClean(Next(c, e))
  {
    hide GraphOf;
  }

  lemma ControlOneMore(schedule: seq<Action>, n: nat)
    requires n < |schedule|
    ensures ControlAfter(schedule[..n + 1]) == Do(ControlAfter(schedule[..n]), schedule[n])
  {
    assert schedule[..n + 1][..n] == schedule[..n];
  }

  /** The control part of every run is the schedule's; and harmless steps keep it fresh. */
  lemma {:induction false} RunTracks(states: seq<Cache>, events: seq<Event>, schedule: seq<Action>, n: nat)
    requires Behaviour(states, events) && Follows(events, schedule) && n < |states|
    ensures Tracks(states[n], ControlAfter(schedule[..n]))
    ensures Undisturbed(schedule) ==> FreshWhenClean(states[n])
  {
    hide ControlAfter, FreshWhenClean, Tracks;
    if n == 0 {
      StartTracks(states[0], schedule[..0]);
    } else {
      RunTracks(states, events, schedule, n - 1);
      assert states[n - 1 + 1] == Next(states[n - 1], events[n - 1]);
      ControlOneMore(schedule, n - 1);
      StepTracks(states[n - 1], events[n - 1], ControlAfter(schedule[..n - 1]));
    }
  }

  lemma StartTracks(c: Cache, nothing: seq<Action>)
    requires Starts(c) && nothing == []
    ensures Tracks(c, ControlAfter(nothing)) && FreshWhenClean(c)
  {
  }

  // ---------- a run for every schedule ----------

  /** Links are `before` until the n-th event, and `after` from then on. */
  function TableAt(before: Db, after: Db, cut: nat, i: nat): Db {
    if i < cut then before else after
  }

  function EventsOf(schedule: seq<Action>, before: Db, after: Db, cut: nat): seq<Event> {
    seq(|schedule|, i requires 0 <= i < |schedule| => EventOf(schedule[i], TableAt(before, after, cut, i)))
  }

  /** The run that follows a possible schedule with these tables. */
  lemma {:induction false} RunOf(schedule: seq<Action>, before: Db, after: Db, cut: nat) returns (states: seq<Cache>)
    requires Possible(schedule)
    ensures Behaviour(states, EventsOf(schedule, before, after, cut)) && states[0].db == before
    ensures Follows(EventsOf(schedule, before, after, cut), schedule)
  {
    hide GraphOf, ControlAfter, TableAt, Tracks;
    if schedule == [] {
      states := [Cache(before, 0, map[], true, Idle, false)];
    } else {
      var n := |schedule| - 1;
      var init := schedule[..n];
      assert forall i :: 0 <= i < n ==> init[..i] == schedule[..i];
      var some := RunOf(init, before, after, cut);
      var events, firsts := EventsOf(schedule, before, after, cut), EventsOf(init, before, after, cut);
      assert forall i :: 0 <= i < n ==> events[i] == firsts[i];
      RunTracks(some, firsts, init, n);
      assert init[..n] == init == schedule[..n];
      MayIsEnabled(some[n], ControlAfter(init), events[n]);
      states := some + [Next(some[n], events[n])];
      forall i | 0 <= i < |events|
        ensures Enabled(states[i], events[i]) && states[i + 1] == Next(states[i], events[i])
      {
        if i < n {
          assert states[i] == some[i] && states[i + 1] == some[i + 1];
        }
      }
    }
  }

  lemma MayIsEnabled(c: Cache, k: Control, e: Event)
    requires Tracks(c, k) && May(k, ActionOf(e))
    ensures Enabled(c, e)
  {
  }

  /** Until the cut every state, and every rebuild's rows and graph, shows the first table. */
  ghost predicate Shows(c: Cache, db: Db) {
    c.db == db && (c.phase != Idle ==> c.phase.rows == db) && (c.built ==>
      c.graph == GraphOf(db)) && (!c.dirty ==> c.built)
  }

  lemma {:induction false} ShowsFirst(states: seq<Cache>, schedule: seq<Action>, before: Db, after: Db, cut: nat,
                                      n: nat)
    requires Behaviour(states, EventsOf(schedule, before, after, cut)) && states[0].db == before
    requires n <= cut && n < |states|
    ensures Shows(states[n], before)
  {
    hide GraphOf;
    if n > 0 {
      ShowsFirst(states, schedule, before, after, cut, n - 1);
      assert states[n - 1 + 1] == Next(states[n - 1], EventsOf(schedule, before, after, cut)[n - 1]);
    }
  }

  /** From the cut on, a rebuild that was overtaken holds the first table's rows over the second table. */
  ghost predicate Overtaken(c: Cache, before: Db, after: Db) {
    c.phase == Queried(before) && c.db == after
  }

  /** The last position before `i` where links changed with no query since. */
  lemma {:induction false} OvertakenWhere(schedule: seq<Action>, i: nat) returns (w: nat)
    requires Possible(schedule) && i <= |schedule|
    requires ControlAfter(schedule[..i]).overtaken && ControlAfter(schedule[..i]).rebuilding
    ensures w < i && (schedule[w] == DoWrite || schedule[w] == DoCascade)
    ensures ControlAfter(schedule[..w]).rebuilding
    ensures forall k :: w <= k < i ==> schedule[k] != DoQuery && schedule[k] != DoAssign
  {
    hide Possible, ControlAfter;
    NotRebuildingAtStart(schedule[..i]);
    ControlOneMore(schedule, i - 1);
    var a, k := schedule[i - 1], ControlAfter(schedule[..i - 1]);
    if (a == DoWrite || a == DoCascade) && !(k.overtaken && k.rebuilding) {
      w := i - 1;
    } else {
      w := OvertakenWhere(schedule, i - 1);
    }
  }

  lemma NotRebuildingAtStart(schedule: seq<Action>)
    ensures schedule == [] ==> !ControlAfter(schedule).rebuilding
  {
  }

  lemma {:induction false} StaysOvertaken(states: seq<Cache>, schedule: seq<Action>, before: Db, after: Db, w: nat,
                                          n: nat)
    requires Behaviour(states, EventsOf(schedule, before, after, w)) && w < n < |states|
    requires schedule[w] == DoWrite || schedule[w] == DoCascade
    requires states[w].phase == Queried(before)
    requires forall k :: w <= k < n ==> schedule[k] != DoQuery && schedule[k] != DoAssign
    ensures Overtaken(states[n], before, after)
  {
    hide GraphOf;
    if n > w + 1 {
      StaysOvertaken(states, schedule, before, after, w, n - 1);
    }
    assert states[n - 1 + 1] == Next(states[n - 1], EventsOf(schedule, before, after, w)[n - 1]);
  }

  /** A harmful step of a possible schedule is a stale answer for some tables. */
  lemma HarmShows(schedule: seq<Action>, i: nat, before: Db, after: Db)
    returns (states: seq<Cache>, events: seq<Event>)
    requires Possible(schedule) && i < |schedule| && !Harmless(ControlAfter(schedule[..i]), schedule[i])
    requires GraphOf(before) != GraphOf(after)
    ensures Behaviour(states, events) && Follows(events, schedule) && !FreshWhenClean(states[i + 1])
  {
    hide GraphOf, ControlAfter;
    var cut := i;
    if schedule[i] == DoAssign {
      cut := OvertakenWhere(schedule, i);
    }
    states := RunOf(schedule, before, after, cut);
    events := EventsOf(schedule, before, after, cut);
    RunTracks(states, events, schedule, i);
    RunTracks(states, events, schedule, cut);
    ShowsFirst(states, schedule, before, after, cut, cut);
    assert states[i + 1] == Next(states[i], events[i]);
    if schedule[i] == DoAssign {
      StaysOvertaken(states, schedule, before, after, cut, i);
    }
  }

  /** Exactly which schedules serve current graphs, whatever the tables: those in which no rebuild clears
      the flag over a change that owes no mark, and no link changes silently under a clear flag. */
  lemma FreshIffUndisturbed(schedule: seq<Action>)
    requires Possible(schedule)
    ensures AlwaysFresh(schedule) <==> Undisturbed(schedule)
  {
    hide FreshWhenClean, ControlAfter, Harmless;
    if Undisturbed(schedule) {
      forall states, events | Behaviour(states, events) && Follows(events, schedule)
        ensures forall i :: 0 <= i < |states| ==> FreshWhenClean(states[i])
      {
        forall i | 0 <= i < |states| ensures FreshWhenClean(states[i]) {
          RunTracks(states, events, schedule, i);
        }
      }
    } else {
      var i :| 0 <= i < |schedule| && !Harmless(ControlAfter(schedule[..i]), schedule[i]);
      var before, after := TablesDiffer();
      var states, events := HarmShows(schedule, i, before, after);
      assert 0 <= i + 1 < |states| && !FreshWhenClean(states[i + 1]);
    }
  }

  // ---------- several processes ----------

  /** What the events of all processes are to the cache of process `q`: its own count as they are; of the
      others only the changes of links reach it, and silently, for they mark their own cache. */
  function View(q: nat, events: seq<(nat, Action)>): seq<Action> {
    if events == [] then []
    else
      var (p, a) := events[|events| - 1];
      View(q, events[..|events| - 1])
      + (if p == q then [a] else if a == DoWrite || a == DoCascade then [DoCascade] else [])
  }

  /** A link written through another process, while this one's flag is clear and it owes no mark, leaves
      this one with an old graph for some tables, although the writer marks its own cache. */
  lemma WriteElsewhereIsLost(events: seq<(nat, Action)>, q: nat, p: nat)
    requires p != q && Possible(View(q, events))
    requires !ControlAfter(View(q, events)).dirty && ControlAfter(View(q, events)).pending == 0
    ensures !AlwaysFresh(View(q, events + [(p, DoWrite), (p, DoMark)]))
  {
    hide AlwaysFresh, ControlAfter;
    var before := View(q, events);
    var after := before + [DoCascade];
    ViewOneMore(q, events, (p, DoWrite));
    ViewOneMore(q, events + [(p, DoWrite)], (p, DoMark));
    assert events + [(p, DoWrite)] + [(p, DoMark)] == events + [(p, DoWrite), (p, DoMark)];
    assert View(q, events + [(p, DoWrite), (p, DoMark)]) == after;
    forall i | 0 <= i < |before| ensures after[..i] == before[..i] && after[i] == before[i] {
    }
    assert after[..|before|] == before && after[|before|] == DoCascade;
    assert Possible(after);
    FreshIffUndisturbed(after);
    assert !Harmless(ControlAfter(after[..|before|]), after[|before|]);
  }

  lemma ViewOneMore(q: nat, events: seq<(nat, Action)>, e: (nat, Action))
    ensures View(q, events + [e]) == View(q, events)
      + (if e.0 == q then [e.1] else if e.1 == DoWrite || e.1 == DoCascade then [DoCascade] else [])
  {
    assert (events + [e])[..|events|] == events;
  }

  /** No link changes during a rebuild and none silently; marks may fall anywhere. */
  predicate Quiet(schedule: seq<Action>) {
    forall i :: 0 <= i < |schedule| ==>
      schedule[i] != DoCascade && (schedule[i] == DoWrite ==> !ControlAfter(schedule[..i]).rebuilding)
  }

  lemma {:induction false} QuietIsNotOvertaken(schedule: seq<Action>, n: nat)
    requires Possible(schedule) && Quiet(schedule) && n <= |schedule|
    ensures ControlAfter(schedule[..n]).rebuilding ==> !ControlAfter(schedule[..n]).overtaken
  {
    if n > 0 {
      QuietIsNotOvertaken(schedule, n - 1);
      ControlOneMore(schedule, n - 1);
    }
  }

  lemma QuietSchedulesAreFresh(schedule: seq<Action>)
    requires Possible(schedule) && Quiet(schedule)
    ensures AlwaysFresh(schedule)
  {
    forall i | 0 <= i < |schedule| ensures Harmless(ControlAfter(schedule[..i]), schedule[i]) {
      QuietIsNotOvertaken(schedule, i);
    }
    FreshIffUndisturbed(schedule);
  }

  /** The mark that is lost: a write that commits and marks while a rebuild is between its query and its
      assignment leaves the flag clear over the old graph. */
  lemma MarkIsLost(before: Db, after: Db) returns (states: seq<Cache>, events: seq<Event>)
    requires GraphOf(before) != GraphOf(after)
    ensures Behaviour(states, events) && Follows(events, [DoQuery, DoWrite, DoMark, DoAssign])
    ensures !states[4].dirty && states[4].pending == 0 && states[4].db == after && states[4].graph == GraphOf(before)
    ensures !FreshWhenClean(states[4])
  {
    hide GraphOf;
    events := [Query, Write(after), Mark, Assign];
    var c0 := Cache(before, 0, map[], true, Idle, false);
    var c1 := Next(c0, Query);
    var c2 := Next(c1, Write(after));
    var c3 := Next(c2, Mark);
    states := [c0, c1, c2, c3, Next(c3, Assign)];
  }

  /** Such tables exist: no links, and then one between two devices. */
  lemma TablesDiffer() returns (before: Db, after: Db)
    ensures GraphOf(before) != GraphOf(after)
  {
    var devices: map<nat, Node> := map[0 := "a", 1 := "b"];
    var l := Link("l", 0, 1, "ethernet", None, Active);
    before, after := Db([], devices), Db([l], devices);
    assert Joins(after, l, "a", "b");
    assert after.links[0] == l;
    assert LastJoin(after, after.links, "a", "b") != None;
    BuildRepresents(before, before.links);
    BuildRepresents(after, after.links);
    assert HasEdge(GraphOf(after), "a", "b") && !HasEdge(GraphOf(before), "a", "b");
  }
}
