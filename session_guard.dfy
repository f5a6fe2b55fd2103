/** Short-lived session tokens with a time-to-live and a cap on live sessions. */
module SessionGuard {
  import opened Types

  const SESSION_TTL: real := 300.0
  const MAX_SESSIONS: nat := 200

  /** A session issued at `issuedAt` has expired at `now` once it is strictly older than SESSION_TTL. */
  predicate Expired(issuedAt: real, now: real)
  {
    now - issuedAt > SESSION_TTL
  }

  /** The sessions that survive a sweep at `now`, each with its issue time. */
  function Live(sessions: map<string, real>, now: real): (live: map<string, real>)
    ensures forall tok :: tok in live <==> tok in sessions && !Expired(sessions[tok], now)
    ensures forall tok :: tok in live ==> live[tok] == sessions[tok]
    ensures |live| <= |sessions|
  {
    var live := map tok | tok in sessions && !Expired(sessions[tok], now) :: sessions[tok];
    assert live.Keys <= sessions.Keys;
    SubsetCard(live.Keys, sessions.Keys);
    live
  }

  lemma SubsetCard(a: set<string>, b: set<string>)
    requires a <= b
    ensures |a| <= |b|
  {
    assert b == a + (b - a);
  }

  class Guard {
    /** The module-level `_sessions` dictionary: token to the time it was issued. */
    var sessions: map<string, real>

    constructor ()
      ensures sessions == map[]
    {
      sessions := map[];
    }

    /** `cleanup_sessions()`: deletes every expired token, one at a time. */
    method CleanupSessions(now: real)
      modifies this
      ensures sessions == Live(old(sessions), now)
    {
      var expired := set tok | tok in sessions && Expired(sessions[tok], now);
      while expired != {}
        invariant expired <= sessions.Keys
        invariant forall tok :: tok in sessions <==> tok in old(sessions) && (tok in expired || !Expired(old(sessions)[tok], now))
        invariant forall tok :: tok in sessions ==> sessions[tok] == old(sessions)[tok]
        decreases expired
      {
        var tok :| tok in expired;
        sessions := map t | t in sessions && t != tok :: sessions[t];
        expired := expired - {tok};
      }
    }

    /**
     * `create_session()`. `token` is the fresh random token, absent from the
     * table; the two clock reads of the source are taken as the one instant `now`.
     */
    method CreateSession(now: real, token: string) returns (r: Result<string>)
      requires token !in sessions
      modifies this
      ensures |Live(old(sessions), now)| >= MAX_SESSIONS ==>
        r == Raised("Too many active sessions") && sessions == Live(old(sessions), now)
      ensures |Live(old(sessions), now)| < MAX_SESSIONS ==>
        r == Ok(token) && sessions == Live(old(sessions), now)[token := now]
      ensures r.Ok? ==> |sessions| <= MAX_SESSIONS && token in sessions
    {
      CleanupSessions(now);
      if |sessions| >= MAX_SESSIONS {
        return Raised("Too many active sessions");
      }
      CapacityAfterCreate(old(sessions), now, token);
      sessions := sessions[token := now];
      return Ok(token);
    }

    /** `validate_session(token)`: sweeps, then looks the token up without consuming it. */
    method ValidateSession(token: string, now: real) returns (valid: bool)
      modifies this
      ensures sessions == Live(old(sessions), now)
      ensures valid <==> token in old(sessions) && !Expired(old(sessions)[token], now)
    {
      CleanupSessions(now);
      return token in sessions;
    }
  }

  /** Inserting into a table whose sweep is below capacity keeps it within MAX_SESSIONS. */
  lemma CapacityAfterCreate(sessions: map<string, real>, now: real, token: string)
    requires token !in sessions
    requires |Live(sessions, now)| < MAX_SESSIONS
    ensures |Live(sessions, now)[token := now]| <= MAX_SESSIONS
    ensures |Live(sessions, now)[token := now]| == |Live(sessions, now)| + 1
  {
    var live := Live(sessions, now);
    assert token !in live.Keys;
    assert live[token := now].Keys == live.Keys + {token};
  }

  /**
   * A token created at `t0` validates at a later instant `t` exactly when it is
   * at most SESSION_TTL old then; otherwise validation sweeps it out.
   */
  lemma CreatedTokenLifetime(sessions: map<string, real>, t0: real, token: string, t: real)
    requires token !in sessions
    requires |Live(sessions, t0)| < MAX_SESSIONS
    ensures var created := Live(sessions, t0)[token := t0];
      (token in Live(created, t) <==> t - t0 <= SESSION_TTL)
  {
  }

  /** Validation does not consume a token: a second check, no later than its expiry, succeeds again. */
  lemma RepeatedValidation(sessions: map<string, real>, token: string, t1: real, t2: real)
    requires token in Live(sessions, t1)
    requires !Expired(sessions[token], t2)
    ensures token in Live(Live(sessions, t1), t2)
  {
  }

  /** A sweep of an already-swept table at the same instant removes nothing. */
  lemma SweepIdempotent(sessions: map<string, real>, now: real)
    ensures Live(Live(sessions, now), now) == Live(sessions, now)
  {
  }
}
