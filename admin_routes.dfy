/** The admin read-outs of the attempt log. */
module AdminRoutes {
  import opened Types
  import opened AttemptLogger

  /** GET /admin/attempts: the stored log, `[]` when there is none; an unparseable file makes `json.load` raise. */
  function GetAttempts(f: LogFile): (r: Result<seq<Entry>>)
    ensures f.Missing? ==> r == Ok([])
    ensures f.Records? ==> r == Ok(f.entries)
    ensures f.Unreadable? ==> r.Raised?
  {
    match f
    case Missing => Ok([])
    case Unreadable => Raised("JSONDecodeError")
    case Records(entries) => Ok(entries)
  }

  /** The two body shapes of GET /admin/stats. */
  datatype StatsBody = NoLog(total: nat) | Counts(totalAttempts: nat, approved: nat, rejected: nat)

  /** Every entry has the "status" key that `l["status"]` looks up. */
  predicate AllHaveStatus(logs: seq<Entry>)
  {
    forall i :: 0 <= i < |logs| ==> "status" in logs[i]
  }

  /** The number of entries whose status is `status`. */
  function CountStatus(logs: seq<Entry>, status: string): (n: nat)
    requires AllHaveStatus(logs)
    ensures n <= |logs|
  {
    if logs == [] then 0
    else CountStatus(logs[..|logs| - 1], status) + (if logs[|logs| - 1]["status"] == Str(status) then 1 else 0)
  }

  /** GET /admin/stats. A missing "status" key raises KeyError, an unparseable file JSONDecodeError. */
  function GetStats(f: LogFile): (r: Result<StatsBody>)
    ensures f.Missing? ==> r == Ok(NoLog(0))
    ensures f.Unreadable? ==> r.Raised?
    ensures f.Records? && !AllHaveStatus(f.entries) ==> r.Raised?
    ensures f.Records? && AllHaveStatus(f.entries) ==> r.Ok? && r.value.Counts?
    ensures r.Ok? && r.value.Counts? ==> f.Records? && r.value.totalAttempts == |f.entries|
    ensures r.Ok? && r.value.Counts? ==> f.Records? && AllHaveStatus(f.entries)
    ensures r.Ok? && r.value.Counts? && f.Records? && AllHaveStatus(f.entries) ==> r.value.approved == CountStatus(f.entries, "approved")
    ensures r.Ok? && r.value.Counts? && f.Records? && AllHaveStatus(f.entries) ==> r.value.rejected == CountStatus(f.entries, "rejected")
    ensures r.Ok? && r.value.Counts? ==> r.value.approved + r.value.rejected <= r.value.totalAttempts
  {
    match f
    case Missing => Ok(NoLog(0))
    case Unreadable => Raised("JSONDecodeError")
    case Records(logs) =>
      if !AllHaveStatus(logs) then Raised("KeyError: 'status'")
      else
        ApprovedPlusRejected(logs);
        Ok(Counts(|logs|, CountStatus(logs, "approved"), CountStatus(logs, "rejected")))
  }

  /** Counts split over concatenation. */
  lemma {:induction false} CountAppend(a: seq<Entry>, b: seq<Entry>, status: string)
    requires AllHaveStatus(a) && AllHaveStatus(b)
    ensures AllHaveStatus(a + b)
    ensures CountStatus(a + b, status) == CountStatus(a, status) + CountStatus(b, status)
    decreases |b|
  {
    assert AllHaveStatus(a + b) by {
      forall i | 0 <= i < |a + b| ensures "status" in (a + b)[i] {
        if i < |a| { assert (a + b)[i] == a[i]; } else { assert (a + b)[i] == b[i - |a|]; }
      }
    }
    if b == [] {
      assert a + b == a;
    } else {
      var b' := b[..|b| - 1];
      assert AllHaveStatus(b') by {
        forall i | 0 <= i < |b'| ensures "status" in b'[i] { assert b'[i] == b[i]; }
      }
      CountAppend(a, b', status);
      assert (a + b)[..|a + b| - 1] == a + b';
    }
  }

  /** No entry is counted both approved and rejected, so the two counts never exceed the total; "error" entries are in neither. */
  lemma {:induction false} ApprovedPlusRejected(logs: seq<Entry>)
    requires AllHaveStatus(logs)
    ensures CountStatus(logs, "approved") + CountStatus(logs, "rejected") <= |logs|
  {
    if logs != [] {
      var init := logs[..|logs| - 1];
      assert AllHaveStatus(init) by {
        forall i | 0 <= i < |init| ensures "status" in init[i] { assert init[i] == logs[i]; }
      }
      ApprovedPlusRejected(init);
    }
  }

  /** One more entry, with a "status" key, adds one to the count of its own status and nothing to the others. */
  lemma CountPush(logs: seq<Entry>, e: Entry, status: string)
    requires AllHaveStatus(logs) && "status" in e
    ensures AllHaveStatus(logs + [e])
    ensures CountStatus(logs + [e], status) == CountStatus(logs, status) + (if e["status"] == Str(status) then 1 else 0)
  {
    var l := logs + [e];
    forall i | 0 <= i < |l| ensures "status" in l[i] {
      if i < |logs| { assert l[i] == logs[i]; }
    }
    assert l[..|logs|] == logs;
  }

  /** Logging an attempt whose data carries status `s` raises the total by one and the count of `s` by one. */
  lemma LoggedAttemptCounted(logs: seq<Entry>, data: Entry, timestamp: string, s: string)
    requires AllHaveStatus(logs)
    requires "status" in data && data["status"] == Str(s)
    ensures var stats := GetStats(Records(logs + [NewEntry(data, timestamp)]));
      stats.Ok? && stats.value.Counts? && stats.value.totalAttempts == |logs| + 1 &&
      stats.value.approved == CountStatus(logs, "approved") + (if s == "approved" then 1 else 0) &&
      stats.value.rejected == CountStatus(logs, "rejected") + (if s == "rejected" then 1 else 0)
  {
    var e := NewEntry(data, timestamp);
    assert "status" in e && e["status"] == Str(s);
    CountPush(logs, e, "approved");
    CountPush(logs, e, "rejected");
  }
}
