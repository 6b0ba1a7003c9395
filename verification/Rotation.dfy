/** Rotating one refresh token under concurrent requests: each decodes the token, looks it up in the
    denylist, inserts it there, and only then issues a new pair.  The cleanup job may run in between. */
module Rotation {
  import opened Tokens

  /** Where a request stands: `Decoded` and `Passed` have not reached the insert yet. */
  datatype Phase = Waiting | Decoded | Passed | Issued | Refused

  /** `listed`: the token's row is in the denylist. */
  datatype State = State(listed: bool, now: int, requests: seq<Phase>)

  datatype Step = Decode(i: nat) | Check(i: nat) | Insert(i: nat) | Pass(elapsed: nat) | Cleanup

  predicate Enabled(s: State, e: Step) {
    match e
    case Decode(i) => i < |s.requests| && s.requests[i] == Waiting
    case Check(i) => i < |s.requests| && s.requests[i] == Decoded
    case Insert(i) => i < |s.requests| && s.requests[i] == Passed
    case Pass(_) | Cleanup => true
  }

  /** One step, for a token that expires at `exp`.  The insert fails on the primary key. */
  function After(s: State, e: Step, exp: int, live: ClockRule): State
    requires Enabled(s, e)
  {
    match e
    case Decode(i) => s.(requests := s.requests[i := if live(s.now, exp) then Decoded else Refused])
    case Check(i) => s.(requests := s.requests[i := if s.listed then Refused else Passed])
    case Insert(i) => s.(listed := true, requests := s.requests[i := if s.listed then Refused else Issued])
    case Pass(elapsed) => s.(now := s.now + elapsed)
    case Cleanup => s.(listed := s.listed && !(exp < s.now))
  }

  ghost predicate Behaviour(states: seq<State>, steps: seq<Step>, exp: int, live: ClockRule) {
    && |states| == |steps| + 1
    && !states[0].listed && (forall p :: p in states[0].requests ==> p == Waiting)
    && forall k :: 0 <= k < |steps| ==>
         Enabled(states[k], steps[k]) && states[k + 1] == After(states[k], steps[k], exp, live)
  }

  predicate InFlight(p: Phase) {
    p == Decoded || p == Passed
  }

  /** The cleanup job deletes the row while a request is between its decoding and its insert. */
  ghost predicate Straddles(s: State, e: Step, exp: int) {
    e == Cleanup && s.listed && exp < s.now && exists p :: p in s.requests && InFlight(p)
  }

  /** At most one request got a new pair. */
  ghost predicate IssuedOnce(s: State) {
    forall i, j :: 0 <= i < j < |s.requests| && s.requests[i] == Issued ==> s.requests[j] != Issued
  }

  /** After the token was used, either it is listed, or it is expired and nobody is on the way. */
  ghost predicate Inv(s: State, exp: int) {
    && IssuedOnce(s)
    && (forall i, j :: 0 <= i < |s.requests| && 0 <= j < |s.requests| && s.requests[i] == Issued && !s.listed ==>
          exp < s.now && !InFlight(s.requests[j]))
  }

  lemma StepKeepsInv(s: State, e: Step, exp: int, live: ClockRule)
    requires Enabled(s, e) && Inv(s, exp) && NeverDecodesLate(live) && !Straddles(s, e, exp)
    ensures Inv(After(s, e, exp, live), exp)
  {
    if e == Cleanup && s.listed && exp < s.now {
      assert forall j :: 0 <= j < |s.requests| ==> s.requests[j] in s.requests;
    }
  }

  /** A refresh token is exchanged at most once, however many requests present it at the same time, when
      no token decodes late and no cleanup deletes its row under a request on its way. */
  lemma {:induction false} ExchangedOnce(states: seq<State>, steps: seq<Step>, exp: int, live: ClockRule, n: nat)
    requires Behaviour(states, steps, exp, live) && NeverDecodesLate(live) && n < |states|
    requires forall k :: 0 <= k < |steps| ==> !Straddles(states[k], steps[k], exp)
    ensures Inv(states[n], exp)
  {
    if n > 0 {
      ExchangedOnce(states, steps, exp, live, n - 1);
      assert states[n - 1 + 1] == After(states[n - 1], steps[n - 1], exp, live);
      StepKeepsInv(states[n - 1], steps[n - 1], exp, live);
    } else {
      assert forall i :: 0 <= i < |states[0].requests| ==> states[0].requests[i] in states[0].requests;
    }
  }

  /** The condition is needed: two requests pass the lookup, the first is served, the token expires, the
      cleanup deletes its row, and the second is served as well. */
  lemma ExchangedTwice(exp: int, live: ClockRule) returns (states: seq<State>, steps: seq<Step>)
    requires live(exp, exp)
    ensures Behaviour(states, steps, exp, live) && !IssuedOnce(states[|states| - 1])
    ensures exists k :: 0 <= k < |steps| && Straddles(states[k], steps[k], exp)
  {
    steps := [Decode(0), Check(0), Decode(1), Check(1), Insert(0), Pass(1), Cleanup, Insert(1)];
    var s0 := State(false, exp, [Waiting, Waiting]);
    var s1 := After(s0, steps[0], exp, live);
    var s2 := After(s1, steps[1], exp, live);
    var s3 := After(s2, steps[2], exp, live);
    var s4 := After(s3, steps[3], exp, live);
    var s5 := After(s4, steps[4], exp, live);
    var s6 := After(s5, steps[5], exp, live);
    var s7 := After(s6, steps[6], exp, live);
    var s8 := After(s7, steps[7], exp, live);
    states := [s0, s1, s2, s3, s4, s5, s6, s7, s8];
    assert s6.requests[1] == Passed && s6.requests[1] in s6.requests;
    assert Straddles(states[6], steps[6], exp);
    assert s8.requests[0] == Issued && s8.requests[1] == Issued;
  }

  /** The token is used up: it is listed, or expired with nobody on the way; and this request has not got past
      the lookup. */
  ghost predicate UsedUp(s: State, i: nat, exp: int) {
    && i < |s.requests| && s.requests[i] != Passed && s.requests[i] != Issued
    && (s.listed || (exp < s.now && forall p :: p in s.requests ==> !InFlight(p)))
  }

  lemma StepKeepsUsedUp(s: State, e: Step, i: nat, exp: int, live: ClockRule)
    requires Enabled(s, e) && UsedUp(s, i, exp) && NeverDecodesLate(live) && !Straddles(s, e, exp)
    ensures UsedUp(After(s, e, exp, live), i, exp)
  {
    var s' := After(s, e, exp, live);
    assert s.requests[i] in s.requests;
    if !s.listed {
      forall p | p in s'.requests ensures !InFlight(p) {
        var j :| 0 <= j < |s'.requests| && s'.requests[j] == p;
        assert s.requests[j] in s.requests;
      }
    }
  }

  /** A request that comes after the exchange, or has decoded but not looked up the token by then, is refused at
      the lookup or before: it never passes, and never gets a new pair. */
  lemma {:induction false} LateRequestRefused(states: seq<State>, steps: seq<Step>, exp: int, live: ClockRule,
                                              k: nat, n: nat, i: nat)
    requires Behaviour(states, steps, exp, live) && NeverDecodesLate(live) && k <= n < |states|
    requires forall j :: 0 <= j < |steps| ==> !Straddles(states[j], steps[j], exp)
    requires states[k].listed && i < |states[k].requests|
    requires states[k].requests[i] == Waiting || states[k].requests[i] == Decoded
    ensures UsedUp(states[n], i, exp)
  {
    if n > k {
      LateRequestRefused(states, steps, exp, live, k, n - 1, i);
      assert states[n - 1 + 1] == After(states[n - 1], steps[n - 1], exp, live);
      StepKeepsUsedUp(states[n - 1], steps[n - 1], i, exp, live);
    }
  }
}
