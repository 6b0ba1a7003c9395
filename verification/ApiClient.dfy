/** The browser's API client: one token refresh at a time, shared by every request that needs it. */
module ApiClient {
  import opened Wrappers

  type Token = string

  /** `Waiting(r)` is suspended on refresh number `r`. */
  datatype Status = New | InFlight | Waiting(refresh: nat) | Succeeded | Rejected

  /** `retry` is the `_retry` mark, `waited` the refresh it was suspended on, `auth` the bearer header. */
  datatype Request = Request(url: string, status: Status, retry: bool, sends: nat, auth: Option<Token>,
    waited: Option<nat>)

  /** Refresh calls are numbered from 0; `results` holds what the settled ones returned, and
      `promise` is the one in flight. */
  datatype Client = Client(
    requests: seq<Request>, promise: Option<nat>, started: nat, results: map<nat, Option<Token>>, token: Option<Token>)

  datatype Event =
    | Send(id: nat)
    | Respond(id: nat, code: Option<int>)     // None: no response at all
    | Settle(outcome: Option<Token>)          // the refresh call succeeds or fails
    | Resume(id: nat)                         // a suspended request continues

  /** The refresh this request is suspended on has settled. */
  predicate Resumable(c: Client, r: Request) {
    r.status.Waiting? && r.status.refresh in c.results
  }

  /** Continuations of a settled promise run before the next browser event. */
  predicate Drained(c: Client) {
    forall i | 0 <= i < |c.requests| :: !Resumable(c, c.requests[i])
  }

  predicate Enabled(c: Client, e: Event) {
    match e
    case Send(i) => Drained(c) && i < |c.requests| && c.requests[i].status == New
    case Respond(i, _) => Drained(c) && i < |c.requests| && c.requests[i].status == InFlight
    case Settle(_) => Drained(c) && c.promise != None
    case Resume(i) => i < |c.requests| && Resumable(c, c.requests[i])
  }

  predicate Ok(code: Option<int>) {
    code != None && 200 <= code.value < 300
  }

  predicate NeedsRefresh(r: Request, code: Option<int>) {
    code == Some(401) && !r.retry && r.url != "/auth/refresh" && r.url != "/auth/login"
  }

  function Next(c: Client, e: Event): Client
    requires Enabled(c, e)
  {
    match e
    case Send(i) =>
      c.(requests := c.requests[i := c.requests[i].(status := InFlight, sends := 1, auth := c.token)])
    case Respond(i, code) =>
      var r := c.requests[i];
      if Ok(code) then c.(requests := c.requests[i := r.(status := Succeeded)])
      else if NeedsRefresh(r, code) then
        var n := if c.promise == None then c.started else c.promise.value;
        c.(requests := c.requests[i := r.(status := Waiting(n), retry := true, waited := Some(n))],
           promise := Some(n), started := if c.promise == None then c.started + 1 else c.started)
      else c.(requests := c.requests[i := r.(status := Rejected)])
    case Settle(outcome) =>
      c.(promise := None, results := c.results[c.promise.value := outcome], token := outcome)
    case Resume(i) =>
      var r := c.requests[i];
      match c.results[r.status.refresh]
      case None => c.(requests := c.requests[i := r.(status := Rejected)])
      // the request interceptor runs again and prefers the stored token
      case Some(t) =>
        c.(requests := c.requests[i := r.(status := InFlight, sends := 2,
          auth := if c.token != None then c.token else Some(t))])
  }

  ghost predicate Starts(c: Client) {
    && c.promise == None && c.started == 0 && c.results == map[]
    && forall i :: 0 <= i < |c.requests| ==>
         c.requests[i].status == New && !c.requests[i].retry && c.requests[i].sends == 0 && c.requests[i].waited == None
  }

  ghost predicate Behaviour(states: seq<Client>, events: seq<Event>) {
    && |states| == |events| + 1 && Starts(states[0])
    && forall i :: 0 <= i < |events| ==> Enabled(states[i], events[i]) && states[i + 1] == Next(states[i], events[i])
  }

  // ---------- what every state satisfies ----------

  ghost predicate RequestOk(c: Client, r: Request) {
    && r.sends <= 2
    && (r.status == New ==> r.sends == 0 && !r.retry)
    && (r.status == InFlight ==> r.sends == if r.retry then 2 else 1)
    && (r.retry <==> r.waited != None)
    && (r.sends == 2 ==> r.retry)
    && (r.waited != None ==> r.waited.value < c.started)
    // a suspended request waits for the refresh in flight or for one that has settled
    && (r.status.Waiting? ==> r.waited == Some(r.status.refresh) && r.sends == 1)
    && (r.status.Waiting? ==>
         c.promise == Some(r.status.refresh) || (Resumable(c, r) && c.results[r.status.refresh] == c.token))
    // a request sent again carries the token of the refresh it waited for
    && (r.sends == 2 ==>
         && r.waited.value in c.results && c.results[r.waited.value] != None
         && r.auth == c.results[r.waited.value])
    // one that was not sent again failed with it
    && (r.retry && r.sends == 1 && r.status == Rejected ==>
         r.waited.value in c.results && c.results[r.waited.value] == None)
    && (r.status == Succeeded && r.sends == 1 ==> !r.retry)
  }

  /** All refreshes but the newest have settled, so at most one is in flight. */
  ghost predicate SingleFlight(c: Client) {
    && (c.promise != None ==> c.started > 0 && c.promise.value == c.started - 1)
    && (forall n: nat :: n in c.results <==> n < c.started && c.promise != Some(n))
  }

  ghost predicate Inv(c: Client) {
    SingleFlight(c) && forall i :: 0 <= i < |c.requests| ==> RequestOk(c, c.requests[i])
  }

  lemma NextKeepsInv(c: Client, e: Event)
    requires Inv(c) && Enabled(c, e)
    ensures Inv(Next(c, e))
  {
    var c' := Next(c, e);
    forall i | 0 <= i < |c'.requests| ensures RequestOk(c', c'.requests[i]) {
      assert RequestOk(c, c.requests[i]);
    }
  }

  lemma {:induction false} AlwaysInv(states: seq<Client>, events: seq<Event>, n: nat)
    requires Behaviour(states, events) && n < |states|
    ensures Inv(states[n])
  {
    if n > 0 {
      AlwaysInv(states, events, n - 1);
      assert states[n - 1 + 1] == Next(states[n - 1], events[n - 1]);
      NextKeepsInv(states[n - 1], events[n - 1]);
    }
  }

  /** In every state of every run: one refresh at most is in flight; between browser events a request is
      suspended only while its refresh is; nobody is sent more than twice; and two requests that waited
      for the same refresh are sent again with the same token or are both rejected. */
  lemma WaitersShareTheirRefresh(states: seq<Client>, events: seq<Event>, n: nat, i: nat, j: nat)
    requires Behaviour(states, events) && n < |states|
    requires i < |states[n].requests| && j < |states[n].requests|
    ensures
      var c := states[n];
      var r, s := c.requests[i], c.requests[j];
      && |c.results| <= c.started <= |c.results| + 1
      && r.sends <= 2
      && (r.status.Waiting? && Drained(c) ==> c.promise == Some(r.status.refresh))
      && (r.waited == s.waited != None && r.sends == 2 && s.sends == 2 ==> r.auth == s.auth != None)
      && (r.waited == s.waited != None && r.sends == 2 && s.sends == 1 ==> s.status.Waiting?)
  {
    AlwaysInv(states, events, n);
    var c := states[n];
    assert RequestOk(c, c.requests[i]) && RequestOk(c, c.requests[j]);
    CountResults(c);
  }

  lemma CountResults(c: Client)
    requires SingleFlight(c)
    ensures |c.results| <= c.started <= |c.results| + 1
  {
    if c.promise == None {
      assert c.results.Keys == Below(c.started);
    } else {
      assert c.results.Keys == Below(c.started) - {c.promise.value};
    }
  }

  ghost function Below(n: nat): (s: set<nat>)
    ensures forall k: nat :: k in s <==> k < n
    ensures |s| == n
  {
    if n == 0 then {} else Below(n - 1) + {n - 1}
  }

  // ---------- which response does what ----------

  /** A request is answered 401 for the first time, and is not itself a refresh or a login. */
  ghost predicate FirstUnauthorized(c: Client, e: Event) {
    && e.Respond? && e.id < |c.requests| && e.code != None && e.code.value == 401
    && !c.requests[e.id].retry
    && c.requests[e.id].url != "/auth/refresh" && c.requests[e.id].url != "/auth/login"
  }

  /** In every run a refresh starts exactly when such a response finds none in flight, and a request is
      suspended exactly by such a response. */
  lemma RefreshStartsExactly(states: seq<Client>, events: seq<Event>, k: nat, i: nat)
    requires Behaviour(states, events) && k < |events| && i < |states[k].requests|
    ensures |states[k + 1].requests| == |states[k].requests|
    ensures states[k + 1].started ==
      states[k].started + if FirstUnauthorized(states[k], events[k]) && states[k].promise == None then 1 else 0
    ensures states[k + 1].requests[i].status.Waiting? && !states[k].requests[i].status.Waiting?
      <==> FirstUnauthorized(states[k], events[k]) && events[k].id == i
    ensures states[k + 1].requests[i].status == Succeeded && states[k].requests[i].status != Succeeded
      <==> events[k].Respond? && events[k].id == i && events[k].code != None && 200 <= events[k].code.value <= 299
  {
    var c, c', e := states[k], states[k + 1], events[k];
    assert Enabled(c, e) && c' == Next(c, e);
  }

  // ---------- every run ends, and ends well ----------

  function Weight(r: Request): nat {
    match r.status
    case New => 5
    case InFlight => if r.retry then 1 else 4
    case Waiting(_) => 2
    case Succeeded | Rejected => 0
  }

  function TotalWeight(requests: seq<Request>): nat {
    if requests == [] then 0 else TotalWeight(requests[..|requests| - 1]) + Weight(requests[|requests| - 1])
  }

  function Measure(c: Client): nat {
    TotalWeight(c.requests) + if c.promise == None then 0 else 1
  }

  lemma {:induction false} WeightOfUpdate(requests: seq<Request>, i: nat, r: Request)
    requires i < |requests|
    ensures TotalWeight(requests[i := r]) == TotalWeight(requests) - Weight(requests[i]) + Weight(r)
  {
    var n := |requests| - 1;
    if i == n {
      assert requests[i := r][..n] == requests[..n];
    } else {
      assert requests[i := r][..n] == requests[..n][i := r];
      WeightOfUpdate(requests[..n], i, r);
    }
  }

  lemma NextDecreases(c: Client, e: Event)
    requires Inv(c) && Enabled(c, e)
    ensures Measure(Next(c, e)) < Measure(c)
  {
    if !e.Settle? {
      assert RequestOk(c, c.requests[e.id]);
      WeightOfUpdate(c.requests, e.id, Next(c, e).requests[e.id]);
    }
  }

  lemma {:induction false} RunsAreShort(states: seq<Client>, events: seq<Event>, n: nat)
    requires Behaviour(states, events) && n < |states|
    ensures n + Measure(states[n]) <= Measure(states[0])
  {
    hide Next, Enabled, Starts, Inv;
    if n > 0 {
      RunsAreShort(states, events, n - 1);
      AlwaysInv(states, events, n - 1);
      assert states[n - 1 + 1] == Next(states[n - 1], events[n - 1]);
      NextDecreases(states[n - 1], events[n - 1]);
    }
  }

  lemma {:induction false} InitialWeight(requests: seq<Request>)
    requires forall i :: 0 <= i < |requests| ==> requests[i].status == New
    ensures TotalWeight(requests) == 5 * |requests|
  {
    if requests != [] {
      InitialWeight(requests[..|requests| - 1]);
    }
  }

  /** Any run over n requests has at most 5 n events. */
  lemma RunsTerminate(states: seq<Client>, events: seq<Event>)
    requires Behaviour(states, events)
    ensures |events| <= 5 * |states[0].requests|
  {
    RunsAreShort(states, events, |events|);
    InitialWeight(states[0].requests);
  }

  /** No request is left hanging: while one is unfinished, some event is possible. */
  lemma NothingHangs(states: seq<Client>, events: seq<Event>, n: nat, i: nat)
    requires Behaviour(states, events) && n < |states| && i < |states[n].requests|
    requires states[n].requests[i].status != Succeeded && states[n].requests[i].status != Rejected
    ensures exists e :: Enabled(states[n], e)
  {
    AlwaysInv(states, events, n);
    var c := states[n];
    assert RequestOk(c, c.requests[i]);
    if j :| 0 <= j < |c.requests| && Resumable(c, c.requests[j]) {
      assert Enabled(c, Resume(j));
    } else {
      assert Enabled(c, Send(i)) || Enabled(c, Respond(i, None)) || Enabled(c, Settle(None));
    }
  }

  // ---------- the module itself ----------

  /** The module variable `refreshPromise`, the auth store and the requests, changed in place. */
  class Api {
    var requests: seq<Request>
    var refreshPromise: Option<nat>
    var started: nat
    var results: map<nat, Option<Token>>
    var accessToken: Option<Token>

    ghost function State(): Client
      reads this
    {
      Client(requests, refreshPromise, started, results, accessToken)
    }

    constructor (urls: seq<string>, token: Option<Token>)
      ensures Starts(State()) && |requests| == |urls|
    {
      requests := seq(|urls|, i requires 0 <= i < |urls| => Request(urls[i], New, false, 0, None, None));
      refreshPromise, started, results, accessToken := None, 0, map[], token;
    }

    method SendRequest(i: nat)
      requires Enabled(State(), Send(i))
      modifies this
      ensures State() == Next(old(State()), Send(i))
      ensures i < |old(requests)|
      ensures requests == old(requests)[i := old(requests)[i].(status := InFlight, sends := 1, auth := accessToken)]
      ensures accessToken == old(accessToken) && started == old(started) && refreshPromise == old(refreshPromise)
    {
      requests := requests[i := requests[i].(status := InFlight, sends := 1, auth := accessToken)];
    }

    /** `doRefresh`: join the refresh in flight or start one. */
    method DoRefresh() returns (n: nat)
      modifies this`refreshPromise, this`started
      ensures n == if old(refreshPromise) == None then old(started) else old(refreshPromise).value
      ensures refreshPromise == Some(n)
      ensures started == if old(refreshPromise) == None then old(started) + 1 else old(started)
    {
      if refreshPromise != None {
        return refreshPromise.value;
      }
      n := started;
      refreshPromise := Some(n);
      started := started + 1;
    }

    /** The response interceptor.  A response from 200 to 299 completes the request.  A 401 that the request
        meets for the first time, unless it is itself a refresh or a login, suspends it on the refresh in
        flight, and starts one if there is none.  Every other response, or none at all, rejects it. */
    method OnResponse(i: nat, code: Option<int>)
      requires Enabled(State(), Respond(i, code))
      modifies this
      ensures State() == Next(old(State()), Respond(i, code))
      ensures i < |old(requests)| && accessToken == old(accessToken) && results == old(results)
      ensures
        var r, status := old(requests)[i], if code == None then 0 else code.value;
        if 200 <= status <= 299 then
          && requests == old(requests)[i := r.(status := Succeeded)]
          && refreshPromise == old(refreshPromise) && started == old(started)
        else if status == 401 && !r.retry && r.url != "/auth/refresh" && r.url != "/auth/login" then
          && refreshPromise == (if old(refreshPromise) == None then Some(old(started)) else old(refreshPromise))
          && started == (if old(refreshPromise) == None then old(started) + 1 else old(started))
          && requests == old(requests)[i := r.(status := Waiting(refreshPromise.value), retry := true,
                                              waited := refreshPromise)]
        else
          && requests == old(requests)[i := r.(status := Rejected)]
          && refreshPromise == old(refreshPromise) && started == old(started)
    {
      var r := requests[i];
      if Ok(code) {
        requests := requests[i := r.(status := Succeeded)];
      } else if NeedsRefresh(r, code) {
        var n := DoRefresh();
        requests := requests[i := r.(status := Waiting(n), retry := true, waited := Some(n))];
      } else {
        requests := requests[i := r.(status := Rejected)];
      }
    }

    /** The refresh call returns; the promise is cleared before anyone resumes. */
    method OnRefreshed(outcome: Option<Token>)
      requires Enabled(State(), Settle(outcome))
      modifies this
      ensures State() == Next(old(State()), Settle(outcome))
      ensures refreshPromise == None && accessToken == outcome && requests == old(requests) && started == old(started)
      ensures old(refreshPromise) != None && results == old(results)[old(refreshPromise).value := outcome]
    {
      accessToken := outcome;
      results := results[refreshPromise.value := outcome];
      refreshPromise := None;
    }

    /** A suspended request continues: it is sent a second time with the token, or rejected without one. */
    method OnResume(i: nat)
      requires Enabled(State(), Resume(i))
      modifies this
      ensures State() == Next(old(State()), Resume(i))
      ensures i < |old(requests)| && old(requests)[i].status.Waiting? && old(requests)[i].status.refresh in results
      ensures
        var r := old(requests)[i];
        var token := results[r.status.refresh];
        requests == old(requests)[i :=
          if token == None then r.(status := Rejected)
          else r.(status := InFlight, sends := 2, auth := if accessToken != None then accessToken else token)]
      ensures refreshPromise == old(refreshPromise) && started == old(started)
      ensures results == old(results) && accessToken == old(accessToken)
    {
      var r := requests[i];
      match results[r.status.refresh] {
        case None => requests := requests[i := r.(status := Rejected)];
        case Some(t) =>
          var auth := if accessToken != None then accessToken else Some(t);
          requests := requests[i := r.(status := InFlight, sends := 2, auth := auth)];
      }
    }
  }
}
