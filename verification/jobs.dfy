/** The failed-job filter of the daily report: a job is reported as failed
    when its last result is not "Success" and its last run lies within one
    day of the current time, on either side. */
module Jobs {
  import opened Wrappers

  /** Half-width of the failure window, in seconds (one day). */
  const DaySeconds: int := 86400

  /** The only job result that is never reported as a failure. */
  const SuccessResult: string := "Success"

  /** A job as returned by the job-states endpoint. `lastRun` is the parsed
      timestamp of the last run in seconds, `None` when it is missing or
      cannot be parsed; `message` is `None` when the field is absent. */
  datatype Job = Job(name: string, lastResult: string, lastRun: Option<int>, message: Option<string>)

  /** The closed window [now - 1 day, now + 1 day]. */
  predicate InWindow(now: int, t: int) {
    now - DaySeconds <= t <= now + DaySeconds
  }

  /** The per-job decision of the filter. */
  predicate IsFailed(job: Job, now: int) {
    && job.lastRun.Some?
    && job.lastResult != SuccessResult
    && InWindow(now, job.lastRun.value)
  }

  /** The failed jobs of `jobs`, in input order, each one unmodified. */
  function FailedJobs(jobs: seq<Job>, now: int): (r: seq<Job>)
    ensures |r| <= |jobs|
    ensures forall j :: j in r ==> j in jobs && IsFailed(j, now)
    ensures forall j :: j in jobs ==> (j in r <==> IsFailed(j, now))
  {
    if |jobs| == 0 then []
    else
      var prefix := jobs[..|jobs| - 1];
      var last := jobs[|jobs| - 1];
      assert jobs == prefix + [last];
      FailedJobs(prefix, now) + (if IsFailed(last, now) then [last] else [])
  }

  /** The positions of the input whose job is failed (`IsFailed`), in increasing
      order: an independent reference for what the filter keeps. */
  function FailedPositions(jobs: seq<Job>, now: int): (idx: seq<nat>)
    ensures forall k :: 0 <= k < |idx| ==> idx[k] < |jobs|
    ensures forall k, l :: 0 <= k < l < |idx| ==> idx[k] < idx[l]
    ensures forall i :: 0 <= i < |jobs| ==> (i in idx <==> IsFailed(jobs[i], now))
  {
    if |jobs| == 0 then []
    else
      var prefix := jobs[..|jobs| - 1];
      var pre := FailedPositions(prefix, now);
      assert forall i :: 0 <= i < |prefix| ==> jobs[i] == prefix[i];
      pre + (if IsFailed(jobs[|jobs| - 1], now) then [|prefix|] else [])
  }

  /** The filter keeps one job per failing position. */
  lemma {:induction false} FailedCountMatchesPositions(jobs: seq<Job>, now: int)
    ensures |FailedJobs(jobs, now)| == |FailedPositions(jobs, now)|
  {
    if |jobs| > 0 {
      FailedCountMatchesPositions(jobs[..|jobs| - 1], now);
    }
  }

  /** The k-th failed job is the input job at the k-th failing position,
      unmodified: the failed list is an order-preserving subsequence of the
      input that leaves out exactly the jobs that are not failed (`IsFailed`). */
  lemma {:induction false} FailedJobAtFailedPosition(jobs: seq<Job>, now: int, k: nat)
    requires k < |FailedPositions(jobs, now)|
    ensures k < |FailedJobs(jobs, now)|
    ensures FailedJobs(jobs, now)[k] == jobs[FailedPositions(jobs, now)[k]]
  {
    var prefix := jobs[..|jobs| - 1];
    var pre := FailedPositions(prefix, now);
    FailedCountMatchesPositions(prefix, now);
    if k < |pre| {
      FailedJobAtFailedPosition(prefix, now, k);
      assert jobs[pre[k]] == prefix[pre[k]];
    }
  }

  /** The filter as the source writes it: one pass over the jobs, appending
      each failed job to the result. */
  method CollectFailedJobs(jobs: seq<Job>, now: int) returns (failed: seq<Job>)
    ensures failed == FailedJobs(jobs, now)
    ensures forall j :: j in jobs ==> (j in failed <==> IsFailed(j, now))
  {
    failed := [];
    var i := 0;
    while i < |jobs|
      invariant 0 <= i <= |jobs|
      invariant failed == FailedJobs(jobs[..i], now)
    {
      var job := jobs[i];
      assert jobs[..i + 1][..i] == jobs[..i];
      // a missing or unparsable timestamp skips the job
      if job.lastRun.Some? {
        var lastRun := job.lastRun.value;
        if job.lastResult != SuccessResult && now - DaySeconds <= lastRun <= now + DaySeconds {
          failed := failed + [job];
        }
      }
      i := i + 1;
    }
    assert jobs[..i] == jobs;
  }
}
