/** Per-client sliding-window admission control. */
module RateLimit {

  const WINDOW: real := 10.0
  const MAX_REQUESTS: nat := 5

  /** The timestamps of `history` that are still inside the window at `now`, in their order and with their repeats. */
  function Prune(history: seq<real>, now: real): (recent: seq<real>)
    ensures |recent| <= |history|
    ensures forall t :: t in recent <==> t in history && now - t < WINDOW
    ensures IsSubsequence(recent, history)
    ensures forall t :: multiset(recent)[t] == if now - t < WINDOW then multiset(history)[t] else 0
  {
    if history == [] then []
    else
      assert history == [history[0]] + history[1..];
      if now - history[0] < WINDOW then [history[0]] + Prune(history[1..], now)
      else Prune(history[1..], now)
  }

  /** `s` can be obtained from `t` by deleting elements. */
  ghost predicate IsSubsequence(s: seq<real>, t: seq<real>)
    decreases |t|
  {
    s == [] || (t != [] && ((s[0] == t[0] && IsSubsequence(s[1..], t[1..])) || IsSubsequence(s, t[1..])))
  }

  /** The history a client has on record: none counts as empty. */
  function History(requests: map<string, seq<real>>, clientId: string): seq<real>
  {
    if clientId in requests then requests[clientId] else []
  }

  /** Whether a request at `now` is admitted, given the client's recorded history. */
  predicate Admits(history: seq<real>, now: real)
  {
    |Prune(history, now)| < MAX_REQUESTS
  }

  class RateLimiter {
    /** The module-level `_requests` dictionary: client id to its request timestamps. */
    var requests: map<string, seq<real>>

    constructor ()
      ensures requests == map[]
    {
      requests := map[];
    }

    /** `rate_limit(client_id)`, with the current time passed in as `now`. */
    method RateLimit(clientId: string, now: real) returns (admitted: bool)
      modifies this
      ensures admitted == Admits(History(old(requests), clientId), now)
      ensures admitted ==> requests == old(requests)[clientId := Prune(History(old(requests), clientId), now) + [now]]
      ensures !admitted ==> requests == old(requests)
      ensures admitted ==> |requests[clientId]| <= MAX_REQUESTS
      ensures forall c :: c != clientId ==> History(requests, c) == History(old(requests), c)
    {
      var history := if clientId in requests then requests[clientId] else [];
      history := Prune(history, now);
      if |history| >= MAX_REQUESTS {
        return false;
      }
      history := history + [now];
      requests := requests[clientId := history];
      return true;
    }
  }

  /** A client with no recorded history is admitted, and its history becomes `[now]`. */
  lemma NewClientAdmitted(requests: map<string, seq<real>>, clientId: string, now: real)
    requires clientId !in requests
    ensures Admits(History(requests, clientId), now)
    ensures Prune(History(requests, clientId), now) + [now] == [now]
  {
  }

  /** When every recorded timestamp is inside the window, pruning keeps the whole history. */
  lemma {:induction false} PruneKeepsRecent(history: seq<real>, now: real)
    requires forall i :: 0 <= i < |history| ==> now - history[i] < WINDOW
    ensures Prune(history, now) == history
  {
    if history != [] {
      PruneKeepsRecent(history[1..], now);
    }
  }

  /** Once MAX_REQUESTS requests lie inside the window, the next one is refused. */
  lemma BurstRefused(history: seq<real>, now: real)
    requires |history| >= MAX_REQUESTS
    requires forall i :: 0 <= i < |history| ==> now - history[i] < WINDOW
    ensures !Admits(history, now)
  {
    PruneKeepsRecent(history, now);
  }

  /** Once every recorded request is at least WINDOW old, the history prunes to empty and the client is admitted again. */
  lemma {:induction false} AdmittedAfterWindow(history: seq<real>, now: real)
    requires forall i :: 0 <= i < |history| ==> now - history[i] >= WINDOW
    ensures Prune(history, now) == []
    ensures Admits(history, now)
  {
    if history != [] {
      AdmittedAfterWindow(history[1..], now);
    }
  }
}
