/** Token checks against the revocation denylist, and why purging expired rows goes unnoticed. */
module Tokens {
  import opened Wrappers

  datatype TokenType = Access | Refresh

  /** A decoded token; `subject` is None when it is not a UUID, `jti` may be empty. */
  datatype Token = Token(subject: Option<nat>, kind: TokenType, jti: string, exp: int)

  datatype AuthError = Missing | InvalidOrExpired | WrongType | Revoked | MalformedSubject | UnknownUser

  datatype Auth = Accepted(user: nat) | Denied(error: AuthError)

  /** The decoder's expiry rule: whether a token that expires at the second time decodes at the first. */
  type ClockRule = (int, int) -> bool

  /** The denylist: jti to `expires_at`. */
  type Denylist = map<string, int>

  /** `get_current_user`, check by check. */
  function CurrentUser(credentials: Option<Token>, rows: Denylist, now: int, live: ClockRule, users: map<nat,
                       bool>): Auth {
    match credentials
    case None => Denied(Missing)
    case Some(t) =>
      if !live(now, t.exp) then Denied(InvalidOrExpired)
      else if t.kind != Access then Denied(WrongType)
      else if t.jti != "" && t.jti in rows then Denied(Revoked)
      else if t.subject == None then Denied(MalformedSubject)
      else if t.subject.value !in users || !users[t.subject.value] then Denied(UnknownUser)
      else Accepted(t.subject.value)
  }

  /** Who is let in: the bearer of an access token that decodes, is not in the denylist, and names an active
      user; and why anyone else is not, the first failing check deciding. */
  lemma AcceptedIff(credentials: Option<Token>, rows: Denylist, now: int, live: ClockRule, users: map<nat, bool>)
    ensures
      var auth := CurrentUser(credentials, rows, now, live, users);
      && (forall user :: auth == Accepted(user) <==>
            && credentials.Some? && live(now, credentials.value.exp)
            && credentials.value.kind == Access && !(credentials.value.jti != "" && credentials.value.jti in rows)
            && credentials.value.subject == Some(user) && user in users && users[user])
      && (auth == Denied(Missing) <==> credentials.None?)
      && (auth == Denied(InvalidOrExpired) <==> credentials.Some? && !live(now, credentials.value.exp))
      && (auth == Denied(WrongType) <==>
            credentials.Some? && live(now, credentials.value.exp) && credentials.value.kind == Refresh)
      && (auth == Denied(Revoked) <==>
            && credentials.Some? && live(now, credentials.value.exp) && credentials.value.kind == Access
            && credentials.value.jti != "" && credentials.value.jti in rows)
  {
  }

  /** What happens to the denylist: a decoded token is revoked, time passes, the cleanup job runs. */
  datatype Event = Revoke(t: Token) | Tick(elapsed: nat) | Purge

  datatype System = System(rows: Denylist, now: int)

  /** `jti` is the primary key, so revoking twice fails and changes nothing. */
  function WithRevoked(rows: Denylist, t: Token): Denylist {
    if t.jti == "" || t.jti in rows then rows else rows[t.jti := t.exp]
  }

  function Purged(rows: Denylist, now: int): Denylist {
    map j | j in rows && !(rows[j] < now) :: rows[j]
  }

  /** The jtis whose expiry has passed. */
  function Expired(rows: Denylist, now: int): set<string> {
    set j | j in rows && rows[j] < now
  }

  /** `purging` says whether the cleanup job does its work. */
  function Next(s: System, e: Event, purging: bool): System {
    match e
    case Revoke(t) => s.(rows := WithRevoked(s.rows, t))
    case Tick(elapsed) => s.(now := s.now + elapsed)
    case Purge => if purging then s.(rows := Purged(s.rows, s.now)) else s
  }

  function Run(s: System, events: seq<Event>, purging: bool): System {
    if events == [] then s else Next(Run(s, events[..|events| - 1], purging), events[|events| - 1], purging)
  }

  /** Every token with this jti expires when `expOf` says: a jti is a fresh UUID of one issued token. */
  predicate Genuine(t: Token, expOf: string -> int) {
    t.jti != "" ==> t.exp == expOf(t.jti)
  }

  /** Tokens are revoked only after they decode, and carry the expiry they were issued with. */
  ghost predicate Legal(s: System, events: seq<Event>, live: ClockRule, expOf: string -> int) {
    forall i :: 0 <= i < |events| && events[i].Revoke? ==>
      Genuine(events[i].t, expOf) && live(Run(s, events[..i], true).now, events[i].t.exp)
  }

  ghost predicate HoldsExpiries(rows: Denylist, expOf: string -> int) {
    forall j :: j in rows ==> j != "" && rows[j] == expOf(j)
  }

  /** A purged denylist lacks only rows of tokens that have expired. */
  ghost predicate Covers(purged: Denylist, full: Denylist, now: int, expOf: string -> int) {
    && HoldsExpiries(purged, expOf) && HoldsExpiries(full, expOf)
    && (forall j :: j in purged ==> j in full)
    && (forall j :: j in full && j !in purged ==> expOf(j) < now)
  }

  lemma {:induction false} PurgingCovers(s: System, events: seq<Event>, live: ClockRule, expOf: string -> int)
    requires HoldsExpiries(s.rows, expOf) && Legal(s, events, live, expOf)
    ensures Run(s, events, true).now == Run(s, events, false).now
    ensures Covers(Run(s, events, true).rows, Run(s, events, false).rows, Run(s, events, true).now, expOf)
  {
    if events != [] {
      var rest := events[..|events| - 1];
      forall i | 0 <= i < |rest| && rest[i].Revoke?
        ensures Genuine(rest[i].t, expOf) && live(Run(s, rest[..i], true).now, rest[i].t.exp)
      {
        assert rest[..i] == events[..i] && rest[i] == events[i];
      }
      PurgingCovers(s, rest, live, expOf);
    }
  }

  /** No token decodes after the moment the cleanup job treats as its expiry. */
  ghost predicate NeverDecodesLate(live: ClockRule) {
    forall now: int, exp: int :: live(now, exp) ==> now <= exp
  }

  /** Purging is invisible: every check gives the same answer, error included, in every run. */
  ghost predicate Invisible(live: ClockRule) {
    forall s: System, events: seq<Event>, expOf: string -> int, t: Token, users: map<nat, bool> ::
      HoldsExpiries(s.rows, expOf) && Legal(s, events, live, expOf) && Genuine(t, expOf) ==>
        CurrentUser(Some(t), Run(s, events, true).rows, Run(s, events, true).now, live, users)
        == CurrentUser(Some(t), Run(s, events, false).rows, Run(s, events, false).now, live, users)
  }

  /** Exactly for the decoders that reject every token after its `exp`, as section 4.1.4 of RFC 7519
      demands, the purge is invisible. */
  lemma InvisibleIffNeverLate(live: ClockRule)
    ensures Invisible(live) <==> NeverDecodesLate(live)
  {
    if NeverDecodesLate(live) {
      forall s: System, events: seq<Event>, expOf: string -> int, t: Token, users: map<nat, bool>
        | HoldsExpiries(s.rows, expOf) && Legal(s, events, live, expOf) && Genuine(t, expOf)
        ensures CurrentUser(Some(t), Run(s, events, true).rows, Run(s, events, true).now, live, users)
             == CurrentUser(Some(t), Run(s, events, false).rows, Run(s, events, false).now, live, users)
      {
        PurgingCovers(s, events, live, expOf);
      }
    } else {
      var now: int, exp: int :| live(now, exp) && now > exp;
      LateTokenComesBack(live, now, exp);
    }
  }

  /** A decoder that accepts a token after its `exp` lets a revoked one back in once the row is purged. */
  lemma LateTokenComesBack(live: ClockRule, now: int, exp: int)
    requires live(now, exp) && now > exp
    ensures !Invisible(live)
  {
    var t := Token(Some(0), Access, "j", exp);
    var expOf := (j: string) => exp;
    var s := System(map[], now);
    var events := [Revoke(t), Purge];
    var users: map<nat, bool> := map[0 := true];
    assert events[..1] == [Revoke(t)] && events[..0] == [] && [Revoke(t)][..0] == [];
    assert Run(s, [], true) == s == Run(s, [], false);
    assert WithRevoked(s.rows, t) == map["j" := exp];
    assert Run(s, [Revoke(t)], true) == System(map["j" := exp], now) == Run(s, [Revoke(t)], false);
    assert Run(s, events, true).rows == map[];
    assert Run(s, events, false).rows == map["j" := exp];
    assert Legal(s, events, live, expOf);
    assert CurrentUser(Some(t), Run(s, events, true).rows, now, live, users) == Accepted(0);
    assert CurrentUser(Some(t), Run(s, events, false).rows, now, live, users) == Denied(Revoked);
  }

  /** A decoder whose clock is cut to whole seconds of `k` ticks each. */
  function WholeSeconds(k: nat): ClockRule
    requires k > 0
  {
    (now: int, exp: int) => now - now % k <= exp
  }

  /** Such a decoder decodes late unless a tick is a whole second: the purge, which compares finer, may then
      come before the rejection. */
  lemma WholeSecondsDecodeLate(k: nat)
    requires k > 0
    ensures Invisible(WholeSeconds(k)) <==> k == 1
  {
    hide Invisible;
    InvisibleIffNeverLate(WholeSeconds(k));
    if k > 1 {
      OneModulo(k);
      assert WholeSeconds(k)(1, 0);
    } else {
      forall now: int ensures now % k == 0 {}
    }
  }

  lemma OneModulo(k: nat)
    requires k > 1
    ensures 1 % k == 1
  {
  }

  /** Without the cleanup job a revocation is final: the token is never accepted again. */
  lemma {:induction false} RevocationIsFinal(s: System, events: seq<Event>, t: Token, live: ClockRule,
                                             users: map<nat, bool>)
    requires t.jti != "" && t.jti in s.rows
    ensures t.jti in Run(s, events, false).rows
    ensures !CurrentUser(Some(t), Run(s, events, false).rows, Run(s, events, false).now, live, users).Accepted?
  {
    if events != [] {
      RevocationIsFinal(s, events[..|events| - 1], t, live, users);
    }
  }

  /** With such a decoder a revocation is final with the cleanup job as well. */
  lemma RevocationSurvivesPurging(s: System, events: seq<Event>, t: Token, live: ClockRule, expOf: string -> int,
                                  users: map<nat, bool>)
    requires NeverDecodesLate(live) && HoldsExpiries(s.rows, expOf) && Legal(s, events, live, expOf)
    requires Genuine(t, expOf)
    requires t.jti != "" && t.jti in s.rows
    ensures !CurrentUser(Some(t), Run(s, events, true).rows, Run(s, events, true).now, live, users).Accepted?
  {
    RevocationIsFinal(s, events, t, live, users);
    PurgingCovers(s, events, live, expOf);
  }

  /** The `token_revocations` table. */
  class TokenRevocations {
    var rows: Denylist

    constructor ()
      ensures rows == map[]
    {
      rows := map[];
    }

    method IsRevoked(jti: string) returns (revoked: bool)
      ensures revoked <==> jti in rows
    {
      revoked := jti in rows;
    }

    /** Fails on a second insert of the same primary key. */
    method RevokeToken(jti: string, expiresAt: int) returns (ok: bool)
      requires jti != ""
      modifies this
      ensures ok <==> jti !in old(rows)
      ensures forall t: Token :: t.jti == jti && t.exp == expiresAt ==> rows == WithRevoked(old(rows), t)
    {
      ok := jti !in rows;
      if ok {
        rows := rows[jti := expiresAt];
      }
    }

    /** Exactly the rows whose expiry has passed go, the others keep theirs, and the result says how many
        went. */
    method PurgeExpired(now: int) returns (deleted: nat)
      modifies this
      ensures forall j :: j in rows <==> j in old(rows) && j !in Expired(old(rows), now)
      ensures forall j :: j in rows ==> rows[j] == old(rows)[j]
      ensures deleted == |Expired(old(rows), now)|
      ensures rows == Purged(old(rows), now)
    {
      deleted := 0;
      ghost var gone: set<string> := {};
      var todo := rows.Keys;
      while todo != {}
        invariant todo <= old(rows).Keys
        invariant rows == old(rows) - gone
        invariant gone == Expired(old(rows), now) - todo
        invariant deleted == |gone|
        decreases todo
      {
        var j :| j in todo;
        assert j in rows;
        todo := todo - {j};
        if rows[j] < now {
          rows := rows - {j};
          gone := gone + {j};
          deleted := deleted + 1;
        }
      }
      assert gone == Expired(old(rows), now);
      PurgedLacksExpired(old(rows), now);
    }
  }

  lemma PurgedLacksExpired(rows: Denylist, now: int)
    ensures Purged(rows, now) == rows - Expired(rows, now)
  {
  }
}
