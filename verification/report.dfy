/** The job part of the daily report: total job count, counts per result,
    failed count, and the optional "Failed Jobs Details" section. Text
    layout, dates and number formatting are not modelled. */
module Report {
  import opened Wrappers
  import opened Jobs
  import opened StatusTally

  /** Shown for a failed job that carries no message. */
  const NoDetails: string := "No details available"

  /** One entry of the "Failed Jobs Details" section. */
  datatype FailedDetail = FailedDetail(name: string, message: string)

  /** The figures of the job report. `details` is `None` when the
      "Failed Jobs Details" section is not added to the text. */
  datatype JobSummary = JobSummary(
    total: nat,
    counts: map<string, nat>,
    failedCount: nat,
    details: Option<seq<FailedDetail>>)

  /** The result of every job, in input order. */
  function Results(jobs: seq<Job>): (r: seq<string>)
    ensures |r| == |jobs|
    ensures forall i :: 0 <= i < |jobs| ==> r[i] == jobs[i].lastResult
  {
    seq(|jobs|, i requires 0 <= i < |jobs| => jobs[i].lastResult)
  }

  function Detail(job: Job): FailedDetail {
    FailedDetail(job.name, job.message.GetOr(NoDetails))
  }

  function SummarizeJobs(jobs: seq<Job>, now: int): (s: JobSummary)
    ensures s.total == |jobs|
    ensures s.failedCount == |FailedJobs(jobs, now)| <= s.total
    ensures forall st :: st in s.counts <==> exists i :: 0 <= i < |jobs| && jobs[i].lastResult == st
    ensures forall st :: st in s.counts ==> s.counts[st] == multiset(Results(jobs))[st]
    ensures s.details.Some? <==> s.failedCount != 0
    ensures s.details.Some? ==>
      && |s.details.value| == s.failedCount
      && forall k :: 0 <= k < s.failedCount ==>
           && s.details.value[k].name == FailedJobs(jobs, now)[k].name
           && (FailedJobs(jobs, now)[k].message.None? ==> s.details.value[k].message == NoDetails)
           && (FailedJobs(jobs, now)[k].message.Some? ==>
                 s.details.value[k].message == FailedJobs(jobs, now)[k].message.value)
  {
    var results := Results(jobs);
    var failed := FailedJobs(jobs, now);
    assert forall st :: st in results <==> exists i :: 0 <= i < |jobs| && jobs[i].lastResult == st by {
      forall st | st in results
        ensures exists i :: 0 <= i < |jobs| && jobs[i].lastResult == st
      {
        var i :| 0 <= i < |results| && results[i] == st;
      }
    }
    JobSummary(
      |jobs|,
      Tally(results),
      |failed|,
      if |failed| != 0 then Some(seq(|failed|, k requires 0 <= k < |failed| => Detail(failed[k]))) else None)
  }

  /** The per-result counts of the report add up to the total job count. */
  lemma CountsSumToTotal(jobs: seq<Job>, now: int)
    ensures SumValues(SummarizeJobs(jobs, now).counts) == SummarizeJobs(jobs, now).total
  {
    TallySum(Results(jobs));
  }

  /** A single successful job is never reported as failed, whatever its
      timestamp, and the details section is then left out. */
  lemma SingleSuccessfulJob(name: string, lastRun: Option<int>, message: Option<string>, now: int)
    ensures var s := SummarizeJobs([Job(name, SuccessResult, lastRun, message)], now);
      s.total == 1 && s.failedCount == 0 && s.details.None? && s.counts == map[SuccessResult := 1]
  {
  }
}
