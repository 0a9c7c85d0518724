# Veeam daily backup report: verified model of its decision rules

The report script polls a backup server's REST API for job states and
repository states. It builds a job summary and a storage summary and posts
both to a group chat. Under the HTTP, file and chart plumbing sit a few pure
rules. This project models those rules in Dafny and proves their properties:

- **Jobs** (`jobs.dfy`): the failed-job filter. A job is failed when its
  `lastResult` is not `"Success"` and its `lastRun` lies in the closed window
  [now − 86400 s, now + 86400 s]. A job whose `lastRun` is missing or cannot
  be parsed (`None`) is skipped.
- **StatusTally** (`status_tally.dfy`): the count of jobs per distinct
  `lastResult`, as a map with no ordering. The counts add up to the number of
  jobs.
- **Report** (`report.dfy`): the job part of the report. It holds the total,
  the per-result counts, the failed count, and the "Failed Jobs Details"
  section, which is present iff the failed count is non-zero.
- **Repositories** (`repositories.dfy`): the derived `usedSpaceGB =
  capacityGB − freeGB`, where a missing field reads as 0. It also models the
  report figures (total TB, used TB, utilisation %), which are all 0 when the
  capacity is 0 or absent. Sizes are exact `real`s.
- **Tokens** (`tokens.dfy`): the token cache `(access, refresh, expiry)`.
  A refresh happens iff there is no access token or `now > expiry` (strict).
  A 200 answer replaces the whole triple and writes it to the token file.
  Any other answer leaves the cache unchanged and writes nothing. The request
  then proceeds with whatever non-empty token is still cached. The module
  also covers the JSON token file's save/load round trip.

The wall clock is a parameter `now` (integer seconds). The authorization
endpoint's answer is an input value `Exchange(status, accessToken,
refreshToken, expiresIn)`. The token file's existence and contents are an
input `Option<map<string, Json>>`.

After a failed re-acquisition the request still goes out with the expired
token (`docs/veeambackup_wtoken3.py:90-92`); see
`Tokens.StaleTokenUsedAfterFailedRefresh`.

## Model

| member | source | states |
|---|---|---|
| Jobs.FailedJobs | docs/veeambackup_wtoken3.py:159-169 | The failed list is no longer than the input and holds only input jobs. A job of the input is in it iff its `lastRun` parsed, its result is not "Success", and the run lies in the closed ±1-day window. So no "Success" job and no job with a missing or unparsable `lastRun` ever appears. |
| Jobs.FailedPositions | docs/veeambackup_wtoken3.py:162-168 | The positions are valid input positions in strictly increasing order, and a position is listed iff the job there is failed (`IsFailed`). |
| Jobs.FailedCountMatchesPositions | docs/veeambackup_wtoken3.py:160-169 | The failed list has exactly one entry per failing position of the input. |
| Jobs.FailedJobAtFailedPosition | docs/veeambackup_wtoken3.py:160-169 | The k-th failed job is the input job at the k-th failing position, unmodified. So the failed list is an order-preserving subsequence of the input that leaves out exactly the jobs that are not failed (`IsFailed`). |
| Jobs.CollectFailedJobs | docs/veeambackup_wtoken3.py:159-169 | The one-pass loop that appends each failed job computes exactly the failed list. A job of the input ends up in it iff it is failed (`IsFailed`). |
| StatusTally.Tally | docs/veeambackup_wtoken3.py:174 | The keys of the count map are exactly the results that occur. Each count is positive and equals the number of occurrences of its result. |
| StatusTally.TallySum | docs/veeambackup_wtoken3.py:173-174 | The counts add up to the number of results counted, whatever order the keys are taken in. |
| Report.Results | docs/veeambackup_wtoken3.py:174 | The list of results has one entry per job, and entry i is job i's `lastResult`, in input order. |
| Report.SummarizeJobs | docs/veeambackup_wtoken3.py:173-202 | The total is the number of jobs, and the failed count is the length of the failed list, at most the total. The counts have one key per result that occurs, with its number of occurrences. The details section exists iff the failed count is non-zero. It then lists every failed job in order, by name, with its message or "No details available" when it has none. |
| Report.CountsSumToTotal | docs/veeambackup_wtoken3.py:173-176 | The per-result counts of the report add up to its total job count. |
| Report.SingleSuccessfulJob | docs/veeambackup_wtoken3.py:167-176 | One "Success" job gives total 1, counts {Success: 1}, failed count 0 and no details section, whatever its timestamp. |
| Repositories.DeriveUsedSpace | docs/veeambackup_wtoken3.py:241 | The derived used space plus the free space equals the capacity, with missing fields read as 0. Name, path, capacity and free space are unchanged. |
| Repositories.DeriveAll | docs/veeambackup_wtoken3.py:238-241 | Every repository of the response gets a derived used space with used + free = capacity. Nothing else changes, and the count and order stay the same. |
| Repositories.DeriveExample | docs/veeambackup_wtoken3.py:241 | Capacity 1024 GB with 512 GB free derives 512 GB used. |
| Repositories.RepoFigures | docs/veeambackup_wtoken3.py:182-186 | With capacity 0 or absent, total TB, used TB and utilisation are all 0, so nothing is divided by zero. Otherwise total TB × 1024 = capacity, used TB × 1024 = used space, and utilisation × capacity = used × 100. |
| Repositories.RepoReport | docs/veeambackup_wtoken3.py:181-193 | There is one set of figures per repository, in order. A zero-capacity repository gets all zeros. For any other, total TB × 1024 = capacity, used TB × 1024 = used space, and utilisation × capacity = used × 100. |
| Repositories.DerivedUtilisationIsPercentage | docs/veeambackup_wtoken3.py:182-186 | For a derived repository with 0 ≤ free ≤ capacity and capacity > 0, utilisation lies in [0, 100] and adds up to 100 with the free share. |
| Tokens.AcquireToken | docs/veeambackup_wtoken3.py:59-86 | A file write happens iff the status is 200, and what is written is the whole new cache. On 200, the new cache holds the answer's tokens with expiry = now + `expires_in` (default 3600), and the access token is returned. On any other status the cache is unchanged and no token is returned. A cache with an expiry beside its access token keeps that shape. |
| Tokens.FreshTokenLifetime | docs/veeambackup_wtoken3.py:76-90 | A token obtained at `now` is considered stale at a later time iff that time is strictly past now + lifetime. So it is reused exactly at its expiry. |
| Tokens.Bearer | docs/veeambackup_wtoken3.py:92-94 | A request carries a bearer token iff the cached access token is present and non-empty, and then it carries exactly that token. |
| Tokens.PrepareRequest | docs/veeambackup_wtoken3.py:88-92 | A refresh is attempted iff the cache has no access token or `now > expiry`. When it is attempted, the new cache and the file write are exactly those of the exchange: on 200, the whole triple is replaced and saved; otherwise the cache is unchanged and nothing is written. Without a refresh the cache is unchanged and nothing is written. The request goes out iff the resulting cache holds a non-empty access token, and it goes out with that token. |
| Tokens.StaleTokenUsedAfterFailedRefresh | docs/veeambackup_wtoken3.py:88-92 | With an expired non-empty token and a refused exchange, a refresh is attempted and nothing is written. The request still goes out with the expired token. |
| Tokens.SecondRequestReusesToken | docs/veeambackup_wtoken3.py:235-237 | When the jobs request obtains a non-empty token, the repositories request made before that token expires reuses it without contacting the endpoint. |
| Tokens.SaveTokens | docs/veeambackup_wtoken3.py:30-36 | The file always holds all three keys, and reading it back gives exactly the saved triple, whatever the cache held before. |
| Tokens.LoadTokens | docs/veeambackup_wtoken3.py:38-47 | With no file the cache keeps its state. With a file, all three fields are replaced whatever the cache held. A present string access or refresh token, or a present numeric expiry, is read as that value; a missing key or a value of another type reads as unset. |
| Tokens.SavedTokenSurvivesRestart | docs/veeambackup_wtoken3.py:30-47 | A token saved after a successful exchange is reloaded identically at the next start. Until its expiry it is reused without a refresh or a write. |
| Tokens.RefusedExchangeWritesNothing | docs/veeambackup_wtoken3.py:80-86 | A non-200 answer (for example 401) returns no token, leaves the cache as it was and writes no token file. |

## Left out

- HTTP calls to the authorization, resource and chat-relay endpoints, TLS settings, logging and printing. The exchange answer is an input. The resource GET, the report delivery and the chart images are not modelled.
- The wall clock. `time.time()` and `datetime.now()` become the parameter `now`.
- ISO-8601 parsing. A job's `lastRun` is an already-parsed integer, or `None` when it is missing or unparsable. Mixing naive and timezone-aware datetimes raises a `TypeError` outside the `try`. That case is not modelled: all parsed timestamps are taken as comparable.
- Jobs.FailedJobs: a `lastResult` of JSON `null` is not modelled. The source counts such a job as failed at line 167, because `None != 'Success'`.
- Report.SummarizeJobs: a `lastResult` of JSON `null` is not modelled. `value_counts` at line 174 drops nulls, so in the source the counts would then add up to less than the total. Likewise a `message` of JSON `null` prints as "None" at line 199, not as "No details available"; the model treats a message as either a string or absent.
- Report.SummarizeJobs: a job without a `lastResult` key makes `j['lastResult']` at line 174 raise before the filter runs; every modelled job carries a result string.
- Report.SummarizeJobs: a failed job without a `name` key makes `j['name']` at line 199 raise a `KeyError`, so no report is produced; a `name` of JSON `null` prints as "None". Every modelled job carries a name string.
- Tokens.AcquireToken: an `expires_in` of JSON `null` is read as absent, so the default 3600 applies. In the source, `data.get("expires_in", 3600)` returns `None` there. The addition at line 76 then raises a `TypeError` after the access and refresh tokens were already reassigned, a partial update the model does not promise.
- Float arithmetic and formatting. Sizes are exact reals and timestamps are integers, so no rounding, `:.2f` output or float expiry is claimed.
- Report text templating, the report date, and pandas `value_counts` ordering. The counts are an unordered map.
- The two charts (pie and bar) and the unused `combine_results`.
- The fallback at line 243 for a `usedSpaceGB` that cannot be computed. With numeric fields the subtraction always succeeds.
- `delete_tokens`: it is never called in the run, and it only removes the file.
- Tokens.IsStale: treats an access token with no expiry as stale. The source's comparison raises a `TypeError` there. Such a state arises only from a hand-edited token file; `Tokens.AcquireToken` and `Tokens.PrepareRequest` preserve `WellFormed`, which excludes it.
- Tokens.LoadTokens: a JSON value of an unexpected type (for example, a string where the expiry should be) reads as absent. The source keeps a non-string token as is. For the expiry, a numeric string is converted with `float` at line 47; a non-numeric string makes `float` raise a `ValueError` there, and since `load_tokens` at line 235 has no `try` the run stops. An empty-string expiry is kept as `""`. When the file also holds an access token, the comparison at line 90 then raises a `TypeError`. With no access token, line 90 short-circuits and a refresh is attempted, as in the model.
- Repositories.Repo: `name` and `path` are plain strings. The report's default of `''` for an absent field is not modelled.
