/** The two-boolean verdict rule. */
module DecisionEngine {
  import opened Types

  /** `decide(live, duplicate)`: liveness is checked before duplication. */
  function Decide(live: bool, duplicate: bool): (d: Response)
    ensures d.status == "approved" <==> live && !duplicate
    ensures !live ==> d == Reply("rejected", "liveness failed")
    ensures live && duplicate ==> d == Reply("rejected", "duplicate identity")
    ensures d.status == "approved" || d.status == "rejected"
    ensures d.reason.Some? <==> d.status == "rejected"
    ensures d.metrics == map[]
  {
    if !live then Reply("rejected", "liveness failed")
    else if duplicate then Reply("rejected", "duplicate identity")
    else Response("approved", None, map[])
  }
}
