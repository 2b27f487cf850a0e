/** The server's side of one sync: the freshness it reports and the cursors it
    refuses, from b2b_learner_records/routers/organizations.py. */
module SyncServer {
  import opened Common
  import opened ChangeLog

  /** `_as_of`: the staler view, or nothing while any view has no refresh. */
  method AsOf(refreshed: seq<Option<Time>>) returns (asOf: Option<Time>)
    requires refreshed != []
    ensures asOf == Stalest(refreshed)
  {
    var i := 0;
    while i < |refreshed| && refreshed[i].Some?
      invariant 0 <= i <= |refreshed|
      invariant forall j | 0 <= j < i :: refreshed[j].Some?
    {
      i := i + 1;
    }
    if i < |refreshed| {
      StalestIsLeast(refreshed);
      return None;
    }
    var least := refreshed[0].value;
    for j := 1 to |refreshed|
      invariant exists m :: 0 <= m < j && refreshed[m] == Some(least)
      invariant forall m | 0 <= m < j :: least <= refreshed[m].value
    {
      if refreshed[j].value < least {
        least := refreshed[j].value;
      }
    }
    StalestIsLeast(refreshed);
    return Some(least);
  }

  function Stalest(refreshed: seq<Option<Time>>): Option<Time>
    requires refreshed != []
  {
    if |refreshed| == 1 then refreshed[0]
    else
      var rest := Stalest(refreshed[1..]);
      if refreshed[0].None? || rest.None? then None
      else if refreshed[0].value < rest.value then refreshed[0] else rest
  }

  lemma {:induction false} StalestIsLeast(refreshed: seq<Option<Time>>)
    requires refreshed != []
    ensures Stalest(refreshed) == None <==> None in refreshed
    ensures Stalest(refreshed).Some? ==>
              Stalest(refreshed) in refreshed && forall r | r in refreshed :: Stalest(refreshed).value <= r.value
  {
    if |refreshed| > 1 {
      StalestIsLeast(refreshed[1..]);
      assert forall r :: r in refreshed <==> r == refreshed[0] || r in refreshed[1..];
    }
  }

  datatype Refusal = OlderThanRetention | NoRecordsYet | BeforeTracking

  /** `_within_retention`. */
  function WithinRetention(since: Time, now: Time): bool {
    since >= now - RETENTION
  }

  ghost predicate Covered(starts: seq<Option<Time>>, since: Time) {
    forall start | start in starts :: start.Some? && start.value <= since
  }

  /** `_require_change_log_coverage`, given where each log starts. The compared
      start is not truncated, and neither is the cursor. */
  method RequireCoverage(starts: seq<Option<Time>>, since: Option<Time>) returns (refusal: Option<Refusal>)
    ensures refusal == None <==> since.None? || Covered(starts, since.value)
  {
    if since.None? {
      return None;
    }
    for i := 0 to |starts|
      invariant forall j | 0 <= j < i :: starts[j].Some? && starts[j].value <= since.value
    {
      if starts[i].None? {
        assert starts[i] in starts;
        return Some(NoRecordsYet);
      } else if since.value < starts[i].value {
        assert starts[i] in starts;
        return Some(BeforeTracking);
      }
    }
    return None;
  }

  /** The earliest change time in a view's log. */
  ghost function LogStart(log: Log, s: Source): Option<Time> {
    MinOf(set k | k in log && SourceOf(k) == s :: log[k].changedOn)
  }

  /** Both gates on a cursor, given what the process has cached of each log. */
  ghost predicate Accepts(starts: seq<Option<Time>>, since: Time, now: Time) {
    WithinRetention(since, now) && Covered(starts, since)
  }
}
