# Verified model of the scholarship agent

The agent takes a discovered web page and works out whether the scholarships on it are real: it claims a job from a
table shared by any number of workers, reads the page, splits it into candidates, looks for each award's official page,
compares what the two pages say, decides an outcome by a fixed policy, and hands the result back to the product. This
project models that system in Dafny and proves what it keeps: over every interleaving of workers and sweepers, every
behaviour of the network, every answer a model or a search engine may give, and every way an attempt may fail and be
resumed.

`dafny verify dfyconfig.toml` checks the whole project.

## How it is laid out

| files | what they hold |
|---|---|
| `Retries`, `JobTable`, `LeaseProtocol`, `LeaseTheorems`, `GraphRunner` | the job table, the lease protocol as a timed step system, its safety and its bounds, and the worker, its heartbeat and the sweeper as runs of that protocol among everybody else's steps |
| `Budget`, `Throttle`, `Urls`, `Retrieval` | the vendor budget, per-host pacing, URL identity and the outbound guard, the fetchers |
| `Normalization`, `FactMatching`, `Extraction`, `OfficialSource` | identity keys, reading and comparing amounts, the funding grammar and its scanner, choosing an official page |
| `Candidates`, `Policies`, `Comparison`, `Dedupe`, `Nodes`, `Graph` | the workflow's data, policy, set comparison, deduplication, nodes and control flow |
| `Resume`, `RunNotes`, `ResumeLimits`, `ResumeExamples` | attempts that fail and resume from the checkpoint, the notes a run leaves, what a loss can and cannot change, two concrete jobs |
| `Submission`, `EndToEnd` | writing back to the product, and ids that find their own candidate |
| `Strings`, `Wrappers` | shared helpers |

Code that changes things step by step is a class or a method with loops, proved against a specification function;
theorems are then lemmas about those functions. Protocols (workers, coroutines, budget callers, failing attempts) are
state machines whose steps are the committed statements of the code, and the theorems are about all their runs.

## What is assumed

* One monotone clock for all workers and the database; time in the lease protocol is counted in microseconds. A sleep
  never ends early.
* Each committed transaction, and each `FOR UPDATE` section, is one atomic step on a map of rows.
* The workflow engine commits one state after each node, and a run invoked with no input continues from the last
  commit.
* Nodes are deterministic: within one job, a page, a search and a model call (by its idempotency key) answer the same
  when asked again.
* Unicode folding, percent-encoding, calendar parsing, the word-boundary test outside ASCII, HTML to text, and the
  list-ordinal pattern are uninterpreted functions. Digits in amounts are ASCII digits.
* The product never echoes one id under two titles (needed only where a theorem says so).

## Where the code and its comments disagree

* `src/app/runtime/graph_runner.py:36-40` says the heartbeat interval leaves time for two missed renewals. That holds
  exactly for leases above 15 seconds that three does not divide (`Heartbeats.TwoMissedBeatsSurvivedIff`). At the
  default of 900 seconds the third beat falls due at the very instant the sweeper may act. One missed renewal is
  survived exactly for leases above 10 seconds. With lateness and a closing window counted in,
  `Heartbeats.HeartbeatBoundIsTight` is the exact bound.
* `src/app/usecases/scholarship_finder/nodes.py:74-79` says losing the table of official page texts on a restart is
  fine because the resumed run re-fetches. It does not: `fetch_official` has already committed, so nothing fills the
  table again (`Resume.NoNodeRunsTwice`, `Resume.RestartForgetsVerdicts`), and a job that an uninterrupted run rejects
  can end asking for more evidence (`ResumeExamples.LosingTheTableIsNotFine`: £5 against £6).
  `ResumeLimits.ResumeSafeIff` says exactly which jobs are unaffected: those whose official pages neither contradict
  nor corroborate any candidate. `Resume.SparedRunsAreClean` says which interruptions are harmless.
* Losing a text does not only weaken a result. The text of the candidate that needs a human review can be the one that
  is lost, and then another candidate's contradiction decides the job: review required becomes reject recommended, and
  the review is never asked for (`ResumeExamples.LostTextHidesReview`). `Resume.OutcomeOfRun` gives the exact outcome
  of every finished run, and `ResumeLimits.RejectionReachableIff` the jobs that can end rejected.
* `apply_transition` (`src/app/infra/jobs.py:195-203`) writes unconditionally. Everything the protocol guarantees
  rests on workers touching their row within a lease; `StaleWorkers.StaleWriteUndoesCompletion` is the run that shows
  it, and `LeaseProtocol.ReclaimableIff` says when a live worker can lose its row.

## Model

| member | source | states |
|---|---|---|
| JobTable.JobStore.EnqueueJob | src/app/infra/jobs.py:31-74 | a key names one job: a second request with the same key gets the first one's row and changes nothing |
| JobTable.JobStore.ClaimJob | src/app/infra/jobs.py:81-104 | a claim succeeds exactly for a row that is due, and then only that row changes: running, one more attempt, leased for one lease from now, no next attempt time |
| JobTable.JobStore.DueJobIds | src/app/infra/jobs.py:107-127 | the lowest-numbered due rows nobody has locked, in order, and as many of them as the limit allows |
| JobTable.RemainingMeansMore | src/app/infra/jobs.py:107-137 | the selection is part of what the count counts; when nobody holds a row and the count is within the limit the selection is all of it, and nothing is selected exactly when the count is zero |
| JobTable.JobStore.ReclaimExpiredLeases | src/app/infra/jobs.py:140-175 | only expired, unlocked running rows are requeued, the lowest-numbered first, up to the limit; attempts and every other row are untouched |
| JobTable.JobStore.RenewLease | src/app/infra/jobs.py:178-192 | moves the lease of a row that is still running and of no other |
| JobTable.JobStore.ApplyTransition | src/app/infra/jobs.py:195-212 | writes whatever it is given over whatever is there; reports whether the row exists |
| JobTable.JobStore.StartAttempt | src/app/infra/jobs.py:215-219 | inserts the attempt row unless that (job, number) exists, in which case nothing changes |
| JobTable.JobStore.FinishAttempt | src/app/infra/jobs.py:222-235 | the state, the finish time, the error class and the error text are recorded on that attempt's row only |
| JobTable.SelectLowest | src/app/infra/jobs.py:117-127 | ascending, from the pool, and nothing left out is lower than anything taken |
| Retries.BackoffShape | src/app/runtime/retries.py:62-66 | the backoff never leaves one minute to six hours and never shrinks as attempts grow |
| Retries.TotalBackoffClosedForm | src/app/runtime/retries.py:62-66 | waiting after n failures sums to 60(2^n - 1) seconds up to nine, and to six hours more for each after that |
| LeaseProtocol.StepKeepsInv | src/app/infra/jobs.py:81-235 | each step of any worker or sweeper keeps: every live worker's row is running on its own attempt and leased for one lease since its last touch, no two live workers share a job, attempt rows are numbered 1 to attempts, keys are unique |
| LeaseProtocol.RunKeepsInv | src/app/runtime/graph_runner.py:43-121 | the same over every timely interleaving of any number of workers, sweeps, crashes and missed beats |
| LeaseProtocol.LeaseSafety | src/app/runtime/graph_runner.py:43-121 | at every moment of every timely run from an empty table: at most one live worker a job, on the row's current attempt with time left on the lease; attempt rows exactly 1 to attempts; and a sweep about to happen takes no live worker's job |
| LeaseProtocol.ReclaimableIff | src/app/infra/jobs.py:140-175 | a sweep may take a live worker's row if and only if a whole lease has passed since that worker touched it |
| LeaseProtocol.NoLiveWorkerReclaimed | src/app/infra/jobs.py:140-175 | under the timing hypothesis no sweep takes a live worker's job |
| LeaseProtocol.ClaimNeverClashes | src/app/infra/jobs.py:215-219 | the unique (job, attempt number) constraint never refuses a claim |
| LeaseProtocol.TerminalForever | src/app/runtime/retries.py:36-38 | a row that reached a terminal state is that same row after any timely continuation |
| Heartbeats.HeartbeatKeepsJobsSafe | src/app/runtime/graph_runner.py:36-121 | if the beats that may be missed, their lateness and the window after the heartbeat is cancelled fit inside one lease, every run is timely, and so safe |
| Heartbeats.HeartbeatBoundIsTight | src/app/runtime/graph_runner.py:36-121 | that bound is exact: where it does not hold, some punctual run lets a sweep take a live worker's job |
| Heartbeats.OneMissedBeatSurvivedIff | src/app/runtime/graph_runner.py:36-53 | one missed renewal always leaves time exactly for leases above ten seconds |
| Heartbeats.TwoMissedBeatsSurvivedIff | src/app/runtime/graph_runner.py:36-53 | two leave time exactly for leases above fifteen seconds that three does not divide; the default of 900 is not one |
| StaleWorkers.StaleWriteUndoesCompletion | src/app/infra/jobs.py:195-212 | a concrete run outside the hypothesis: a late failure written by a worker that outlived its lease takes a completed job back to waiting, with an attempt number already used |
| RetryBounds.ClaimsBounded | src/app/runtime/retries.py:93-152 | claims equal attempts and never exceed max(1, cap) plus the number of reclaims, one fewer while the job waits |
| RetryBounds.SpentJobsLeaveTheQueue | src/app/runtime/retries.py:128-152 | a job that used up that bound is running, completed or parked for a human: it cannot be claimed again without a reclaim |
| RetryBounds.FailureParksIff | src/app/runtime/retries.py:128-152 | a failure parks the job exactly when it is permanent or the cap is reached; otherwise the job waits, and is due from exactly one backoff of its attempt count later |
| RetryBounds.ReadyAtOnce | src/app/infra/jobs.py:31-175 | a job just enqueued may be claimed at once, and so may every job a sweep requeued, with its attempts unchanged and the reason noted |
| RetrySpacing.AttemptsSpaced | src/app/runtime/retries.py:62-113 | in every timely run consecutive attempts start a backoff apart, or a lease apart when the first was lost |
| RetrySpacing.RetrySchedule | src/app/runtime/retries.py:62-152 | without reclaims attempt n + 1 starts at least 60(2^n - 1) seconds after the first for n up to nine, and six hours more for each after that |
| RetrySpacing.FinalWritesAreOwn | src/app/runtime/graph_runner.py:97-121 | in every timely run a final write falls on a row still running on the writer's own attempt, whose attempt row is still open; both then end alike, completed exactly for a success, and no other attempt row changes |
| GraphRunner.Runtime.BeginAttempt | src/app/runtime/graph_runner.py:78-103 | claim and attempt row land together or not at all; it is the protocol's claim step |
| GraphRunner.Runtime.HeartbeatTurn | src/app/runtime/graph_runner.py:43-65 | a heartbeat that wakes renews the lease or only fails to, and sleeps again: the protocol's beat, or its missed beat |
| GraphRunner.Runtime.RecordOutcome | src/app/runtime/graph_runner.py:108-114 | transition and attempt outcome in one step, which is the protocol's final write |
| GraphRunner.Runtime.Perform | src/app/infra/jobs.py:31-235 | every step of the protocol, whoever takes it, is what the table's own operations do |
| GraphRunner.Runtime.RunGraph | src/app/runtime/graph_runner.py:43-65 | while the graph runs, others act and time passes; the worker's own steps are its beats, and its row and attempt stay its own to finish |
| GraphRunner.Runtime.Conclude | src/app/runtime/graph_runner.py:97-121 | success is written after the heartbeat is cancelled, with others' steps in between; failure is written before. Row, attempt row and reported state end as the verdict and the cap say |
| GraphRunner.Runtime.ExecuteJob | src/app/runtime/graph_runner.py:68-121 | one execution, among any steps of others, is a run of the protocol in which the worker claims, beats and ends, and nothing else; a job that is not due is left alone and its state reported; one that is ends completed, waiting or parked on the attempt claimed |
| GraphRunner.FinalWriteIsOwn | src/app/runtime/graph_runner.py:43-121 | when beats and closing windows fit the lease and everyone is punctual, such an execution is timely, and just before its last write the row is still running on its attempt |
| GraphRunner.Runtime.RunBatch | src/app/runtime/sweeper.py:45-63 | every picked job is executed, in the order picked, whatever the others did; each execution and its result is tied to its job, and the counters count exactly the results that completed and those that raised, were parked or cancelled |
| GraphRunner.Runtime.SweepOnce | src/app/runtime/sweeper.py:28-75 | a pass is a run of the protocol: it reclaims the lowest expired rows up to the limit, then, after any steps of others, executes the lowest rows due by then; what it reports left is the number still due |
| Budget.UsageTable.ReserveCall | src/app/tools/budget.py:31-67 | granted exactly while the month's count is below a positive limit; a grant adds one, a refusal changes nothing |
| Budget.RunCounts | src/app/tools/budget.py:31-67 | over any interleaving and any deaths the counter moves by exactly the grants, and calls never exceed grants |
| Budget.CallsWithinBudget | src/app/tools/retrieval.py:84-115 | reader and search calls in a month never exceed the recorded count, which equals the grants and never exceeds the largest limit presented |
| Budget.GrantsExactly | src/app/tools/budget.py:31-67 | with one limit the grants are exactly the smaller of requests and max(0, limit): never over, never under |
| Throttle.HostSlot.TakeTurn | src/app/tools/throttle.py:43-62 | it waits until one interval after the last exit and no longer: not at all when that has passed; the stamp is not touched |
| Throttle.HostSlot.LeaveTurn | src/app/tools/throttle.py:62-75 | the exit is stamped and the lock freed however the body ended |
| Throttle.Registry.Slot | src/app/tools/throttle.py:34-40 | a host has one slot for the life of the process |
| Throttle.Registry.Pace | src/app/tools/throttle.py:43-75 | one paced use of a host: the body starts at the later of now and one interval after the last exit, and its exit is stamped; one cancelled while asleep leaves the stamp; no host or no interval paces nothing; other hosts are untouched |
| Throttle.SectionsExclusive | src/app/tools/throttle.py:43-75 | in every interleaving, failing and cancelled bodies included, at most one coroutine is in a host's section |
| Throttle.SectionsSpaced | src/app/tools/throttle.py:43-75 | each section of a host starts at least the interval after the previous one's exit |
| Throttle.RateBound | src/app/tools/throttle.py:43-75 | k sections span at least k - 1 intervals |
| Throttle.WaitIsLeast | src/app/tools/throttle.py:43-62 | in every interleaving, a coroutine that takes its host's lock may enter as soon as one interval past the host's last exit has come, and no sooner |
| Throttle.OtherHostsUntouched | src/app/tools/throttle.py:30-40 | a coroutine's step never changes another host's lock, stamp or history |
| Urls.ValidateSourceUrl | src/app/tools/direct_fetch.py:77-101 | a URL is let through exactly when it is an http or https address whose host resolves to public addresses only and, unless any public domain was asked for, is an approved domain or ends with a dot and one; the host is never changed |
| Urls.CanonicalIs | src/app/tools/urls.py:20-46 | identity drops a zero or default port, trailing slashes and tracking parameters, and nothing else: every other parameter is kept, in order |
| Urls.ValidationStableIff | src/app/tools/direct_fetch.py:77-135 | validating a validated URL changes nothing if and only if its path was not two or more slashes and nothing else; then it settles the second time |
| Urls.CanonicalStableIff | src/app/tools/urls.py:20-46 | the identity form is stable under exactly that condition |
| Urls.TrailingSlash | src/app/tools/direct_fetch.py:104-135 | a trailing slash never changes a page's identity and always survives into the fetched URL |
| Retrieval.ReadBounded | src/app/tools/direct_fetch.py:207-225 | the body is all its chunks joined, or refused at the first chunk that takes it over the limit; nothing after that chunk is read |
| Retrieval.Session.Validate | src/app/tools/direct_fetch.py:77-101 | one guard decision, recorded; allowed URLs are validated ones |
| Retrieval.Session.GetOnce | src/app/tools/direct_fetch.py:192-204 | a GET goes out only on a URL allowed by the step right before it; a refusal sends nothing |
| Retrieval.Session.FetchSource | src/app/tools/direct_fetch.py:138-189 | which GETs are made and what comes of them, for every answer of resolver and network: the guard is asked before each, the first goes to the URL's own validated form, a redirect is followed once, to where it points if the guard allows it; otherwise the last reply's page, or its error |
| Retrieval.Session.SecondHop | src/app/tools/direct_fetch.py:167-189 | the redirect's target passes the guard like any URL, and a second redirect is not followed |
| Retrieval.Session.TryJina | src/app/tools/retrieval.py:84-115 | the reader is called exactly when it is configured, enabled and granted, once, on the given URL, after its own grant; the count rises by the grants |
| Retrieval.Session.FetchPage | src/app/tools/retrieval.py:149-206 | a refusal ends the fetch; otherwise the direct route is what its GETs got, and unless that is a usable 200 the reader is asked exactly when configured, enabled and granted; a failed or non-200 direct fetch gives way to any reader page, a thin one only to a longer text |
| Retrieval.RefusalAsksNobody | src/app/tools/retrieval.py:172-177 | a fetch the guard refuses, at whatever step, asks no vendor and spends no budget |
| Retrieval.Session.FetchOfficialPage | src/app/tools/retrieval.py:209-249 | the guard runs first; the reader is asked exactly when configured, enabled and granted, and its page, if usable, is returned with no GET at all; otherwise the direct route is what its GETs got, and its page below status 400 is returned, else an error |
| Retrieval.Session.SearchWeb | src/app/tools/search.py:29-67 | the one vendor call is made exactly when search is configured, enabled and granted, after its grant from the same budget; a granted search returns what the vendor answered, and everything else no results |
| Retrieval.CallsCoveredByGrants | src/app/tools/retrieval.py:84-115 | at every point of any disciplined trace, so for any crash, vendor calls so far are covered by grants so far |
| Normalization.SortedCanonical | src/app/usecases/scholarship_finder/normalization.py:70-75 | sorting and deduplicating two word lists gives the same list exactly when they hold the same words |
| Normalization.JoinInjective | src/app/usecases/scholarship_finder/normalization.py:70-75 | joined keys determine the words joined |
| Normalization.KeysEqualIff | src/app/usecases/scholarship_finder/normalization.py:70-75 | two titles have one key exactly when their sets of maximal letter-digit runs are equal |
| Normalization.TokenIff | src/app/usecases/scholarship_finder/normalization.py:70-75 | the words of a title are exactly its maximal runs of letters and digits |
| Normalization.KeyIgnoresArrangement | src/app/usecases/scholarship_finder/normalization.py:70-75 | order, repetition, punctuation and spacing never change a key |
| FactMatching.DecimalsEqualIff | src/app/usecases/scholarship_finder/fact_matching.py:35-64 | two decimals are equal exactly when their digits are, leading zeros before and trailing zeros after the point aside |
| FactMatching.DropCommasKeeps | src/app/usecases/scholarship_finder/fact_matching.py:35-47 | reading a figure drops its commas and keeps every other character, in order |
| Extraction.EveryMentionReadable | src/app/usecases/scholarship_finder/extraction.py:29-38 | everything the funding grammar can say is read, at its exact value and canonical currency |
| Extraction.AgreeIff | src/app/usecases/scholarship_finder/fact_matching.py:50-64 | two mentions always get a verdict, and agree exactly when they are one currency, by symbol or code, and the same digits, commas and outer zeros aside |
| Extraction.MatchSound | src/app/usecases/scholarship_finder/extraction.py:33-38 | what the pattern matches at a place is the text at that place, and is in the grammar |
| Extraction.MentionsSound | src/app/usecases/scholarship_finder/extraction.py:67-91 | every mention extracted occurs in the text and can be read |
| Extraction.MatchFound | src/app/usecases/scholarship_finder/extraction.py:33-38 | where a string of the grammar stands within its boundaries the pattern matches, at least that much |
| Extraction.MentionsComplete | src/app/usecases/scholarship_finder/extraction.py:67-91 | so a string of the grammar that stands clear of earlier matches is extracted, whole, possibly as part of a longer amount |
| OfficialSource.NamesMatchSymmetric | src/app/usecases/scholarship_finder/official_source.py:170-179 | matching is symmetric, and nothing shorter than four characters ever matches |
| OfficialSource.PickNoneIff | src/app/usecases/scholarship_finder/official_source.py:192-250 | nothing is picked exactly when no result suits: a web page off the excluded hosts, sharing no naming label with the source, one of whose labels and one of the title's distinctive words are four letters or more and begin with one another |
| OfficialSource.PickIs | src/app/usecases/scholarship_finder/official_source.py:192-250 | the pick is the first usable result that carries the name or, when a public body is ranked above it, the earliest such public body |
| OfficialSource.PickRank | src/app/usecases/scholarship_finder/official_source.py:192-250 | among all results as ranked, the pick is the first that suits, or the earliest stranger's public body ranked above it |
| OfficialSource.PublicBodyOfThree | src/app/usecases/scholarship_finder/official_source.py:129-136 | a host of three labels is a public body exactly when its middle or last label says so or it is a European institution's |
| OfficialSource.SamePageIff | src/app/usecases/scholarship_finder/nodes.py:467-485 | two URLs are one page exactly when host, path and query agree, a leading "www." and slashes at the end aside |
| OfficialSource.UnusableIgnored | src/app/usecases/scholarship_finder/official_source.py:216-226 | unusable results never change the pick, wherever they are ranked |
| OfficialSource.LaterResultsIrrelevant | src/app/usecases/scholarship_finder/official_source.py:226-250 | once there is a pick, results ranked after them all cannot change it |
| OfficialSource.WwwInvisible | src/app/usecases/scholarship_finder/official_source.py:139-153 | a host's labels do not see a leading "www." |
| OfficialSource.PickIsNeverTheSource | src/app/usecases/scholarship_finder/official_source.py:216-226 | whatever the search returns, the pick is not the source page under another spelling |
| Nodes.FindNeverPicksSource | src/app/usecases/scholarship_finder/nodes.py:488-593 | no self-corroboration: whatever links and search results say, an official URL this step sets is never the source page |
| Nodes.Workflow.FindOfficialSource | src/app/usecases/scholarship_finder/nodes.py:488-593 | every candidate gets the page found for it: its own link exactly when that has a host, is not the source page and leaves the source's domain or the source is graded A or B; otherwise, unless the link has no host, the search's pick if there is one; with the reasons of each refusal |
| Nodes.RegistrableIff | src/app/usecases/scholarship_finder/nodes.py:456-458 | two hosts are on one domain exactly when their last two labels agree |
| Nodes.Workflow.FetchOfficial | src/app/usecases/scholarship_finder/nodes.py:596-647 | each candidate's fetch stands alone; the table gains the texts of the pages fetched and nothing else |
| Nodes.Workflow.CompareEvidence | src/app/usecases/scholarship_finder/nodes.py:659-718 | candidates in order, each taking its own entry out of the table |
| Nodes.Workflow.Settle | src/app/usecases/scholarship_finder/nodes.py:673-718 | both verdicts, on what was read: contradicted exactly when each side states one value and they are read as different, agreed exactly when some stated pair is read alike, the model's two quotes deciding only where neither holds; only flags, reasons, evidence and verdicts change |
| Nodes.EvidenceRests | src/app/usecases/scholarship_finder/nodes.py:773-799 | evidence for a claim carries the official URL and a value the page states, read as a reported one is; or, marked as the model's, its official quote, read as its reported one is |
| Nodes.Workflow.Decide | src/app/usecases/scholarship_finder/nodes.py:942-1003 | an unread page, then a page of the wrong type, settle every candidate and the job; otherwise each candidate gets the policy's outcome and the job their roll-up |
| Nodes.PutTextsGives | src/app/usecases/scholarship_finder/nodes.py:639-646 | after fetching, a candidate's key holds its own page's text, because keys are distinct |
| Nodes.ComparePassIs | src/app/usecases/scholarship_finder/nodes.py:668-673 | with distinct keys each official text is compared with its own candidate and no other |
| Comparison.CollectValues | src/app/usecases/scholarship_finder/nodes.py:802-811 | the loop computes the distinct non-empty mentions in order of first occurrence |
| Comparison.ValuesFacts | src/app/usecases/scholarship_finder/nodes.py:802-811 | no repetition, nothing empty, nothing lost |
| Comparison.CompareSets | src/app/usecases/scholarship_finder/nodes.py:814-843 | the nested loops compute the three-valued verdict and the value it rests on |
| Comparison.VerdictIff | src/app/usecases/scholarship_finder/nodes.py:814-843 | agreement exactly when some pair matches; contradiction exactly when both sides are single and the comparator calls them different |
| Comparison.FirstMatchIsFirst | src/app/usecases/scholarship_finder/nodes.py:830-838 | the value returned is the first match in reported-major order |
| Comparison.VerdictIgnoresOrder | src/app/usecases/scholarship_finder/nodes.py:814-843 | permuting either side never changes the verdict |
| Comparison.MoreMentions | src/app/usecases/scholarship_finder/nodes.py:814-843 | more mentions never undo an agreement, nor create a contradiction where both sides already spoke |
| Comparison.SettledFacts | src/app/usecases/scholarship_finder/nodes.py:745-799 | a claim is contradicted exactly by one reading on each side that differ, and agrees exactly when some pair matches or, where those gave no verdict, when the model's located pair does; an agreement always carries its value |
| Comparison.SettledReadings | src/app/usecases/scholarship_finder/nodes.py:745-843 | the same in terms of readings, whatever comparator only looks at those: spelling decides nothing |
| Comparison.DifferenceNeedsTwoReadings | src/app/usecases/scholarship_finder/fact_matching.py:50-84 | both comparators are symmetric and report a difference only between two values they could read |
| Comparison.SettledIsCovered | src/app/usecases/scholarship_finder/nodes.py:773-799 | after settling, evidence covers a claim exactly when its verdict is agreement |
| Dedupe.DedupeCandidates | src/app/usecases/scholarship_finder/nodes.py:389-411 | the dictionary scan yields keys in order of first occurrence, each represented by its first candidate with a link, else its first; output plus duplicates equals input |
| Dedupe.DedupedFacts | src/app/usecases/scholarship_finder/nodes.py:389-411 | keys are distinct and exactly the input's; survivors are input candidates, and one lacks a link only if no candidate of its key had one |
| Dedupe.SurvivorIs | src/app/usecases/scholarship_finder/nodes.py:389-411 | the survivor of a key is its first candidate with a link, or its first one when none has a link |
| Dedupe.FirstKeysInOrder | src/app/usecases/scholarship_finder/nodes.py:389-411 | survivors stand in the order in which their keys first occur |
| Dedupe.DedupeIdempotent | src/app/usecases/scholarship_finder/nodes.py:389-411 | deduplicating again changes nothing |
| Dedupe.TitlesDistinct | src/app/usecases/scholarship_finder/nodes.py:253-261 | keys being a function of titles, surviving titles are distinct |
| Policies.DecisionTable | src/app/usecases/scholarship_finder/policies.py:20-101 | on candidates whose evidence and verdicts are in step, which are all that can arise, the policy is a table of the two verdicts, and its last step is never reached |
| Policies.ReasonsExplain | src/app/usecases/scholarship_finder/policies.py:20-101 | every outcome is explained, and by exactly the claims that differ, the claims without evidence, the page that was not found or not read, the missing rules, or what the model flagged |
| Policies.RollUpIff | src/app/usecases/scholarship_finder/policies.py:116-135 | a job is automatic exactly when it has candidates and all are; in review exactly when one is; rejected exactly when one is and none is in review |
| Graph.SuccessorsAdvance | src/app/usecases/scholarship_finder/graph.py:60-104 | the graph has no cycle |
| Graph.PathAdvances | src/app/usecases/scholarship_finder/graph.py:33-57 | the routes taken are those the page's usability and type dictate, whatever was lost on the way |
| Graph.StartsFrom | src/app/usecases/scholarship_finder/nodes.py:223-386 | only a page classified as a list is split, into the titled entries among its first fifty, in order, with their links and excerpts; every other page examined, one that could not be classified among them, is one candidate: the discovery itself |
| Graph.NoAwardTwice | src/app/usecases/scholarship_finder/nodes.py:389-411 | no two candidates found are titled with the same words, and no award started from is lost |
| Graph.FoundIs | src/app/usecases/scholarship_finder/nodes.py:389-550 | a candidate found is the survivor it was, with the mentions of its own title and excerpt and the official page its link or the search gives |
| Graph.FoundFacts | src/app/usecases/scholarship_finder/nodes.py:389-593 | in every run the candidates that reach the fetch have distinct keys and titles, no verdict yet, and no official URL that is the source |
| Graph.ComparedIsCoupled | src/app/usecases/scholarship_finder/nodes.py:659-799 | whatever text the comparison is given, or none, evidence covers a claim exactly when its verdict is agreement, a verdict implies a fetched page, and a negative verdict is exactly a contradiction by that text |
| Graph.JudgedFacts | src/app/usecases/scholarship_finder/nodes.py:596-911 | every candidate at the decision says what its own official page says: fetched exactly when that could be read, contradicted or agreed exactly as its mentions and the page's are read; and when it agrees, the model's flags and the rules are that page's |
| Graph.JudgedOutcome | src/app/usecases/scholarship_finder/policies.py:20-101 | so every candidate's outcome is decided by what the pages say: rejected exactly when its page contradicts it, reviewed exactly when its page corroborates both claims but it is flagged or has no rules, automatic exactly when neither holds it back |
| Graph.FinalWith | src/app/usecases/scholarship_finder/nodes.py:942-1003 | what any finished run holds, candidate by candidate, with its outcome and the decision's note last |
| Graph.RejectIff | src/app/usecases/scholarship_finder/graph.py:33-104 | in terms of the classification and the pages alone: a job is rejected exactly when a usable page was classified as no scholarship, or some candidate is contradicted by its own official page and none is corroborated but in need of review; an unusable page always asks for more evidence |
| Graph.AutoCheckIff | src/app/usecases/scholarship_finder/policies.py:65-135 | automatic checking is recommended exactly when a usable page not classified as no scholarship gave some candidates and each is corroborated on both claims by its own page, unflagged, with eligibility rules |
| Graph.SpellingNeverContradicts | src/app/usecases/scholarship_finder/fact_matching.py:18-64 | when a candidate and its official page each mention one sum of money, however each writes it, the amount agrees |
| Resume.StepKeepsInv | src/app/runtime/graph_runner.py:138-153 | each commit, and each interruption that leaves any part of the page texts behind, keeps the checkpoint equal to the closed form for what was lost |
| Resume.RunKeepsInv | src/app/runtime/graph_runner.py:138-153 | the same over every pattern of failures and resumptions |
| Resume.NoNodeRunsTwice | src/app/runtime/graph_runner.py:138-153 | no node commits twice, and those that commit are the ones an uninterrupted run takes, in order |
| Resume.ResumeRefines | src/app/usecases/scholarship_finder/nodes.py:639-673 | each candidate of a finished run ends exactly as in the uninterrupted run, or, where its text was gone when it was to be compared, asking for more evidence; with nothing lost the whole state is the same |
| RunNotes.NotesOnce | src/app/runtime/task_state.py:13-20 | however a run was interrupted, its notes are those of the route it took, once each and in order, and the last names its own outcome; runs that examine nothing included |
| Resume.OutcomeOfRun | src/app/usecases/scholarship_finder/nodes.py:942-1003 | what every finished run decides, in terms of the pages and of what was lost: rejection and review look only at the candidates whose text was kept; automatic checking needs every one of them, and then nothing in the state differs from the uninterrupted run |
| Resume.SparedRunsAreClean | src/app/usecases/scholarship_finder/nodes.py:74-79 | unless an interruption falls while the comparison is pending, the run ends in the very state of the uninterrupted one |
| Resume.RestartForgetsVerdicts | src/app/usecases/scholarship_finder/nodes.py:74-79 | a restart while the comparison is pending leaves every candidate and the job asking for more evidence, whatever the pages said |
| ResumeLimits.Finish | src/app/runtime/graph_runner.py:138-153 | an interrupted job can always be finished by attempts that do not fail |
| ResumeLimits.AnyLossHappens | src/app/usecases/scholarship_finder/nodes.py:639-673 | any set of fetched texts can be what an interruption loses |
| ResumeLimits.FinalStatesIff | src/app/usecases/scholarship_finder/nodes.py:639-673 | so the states an examined job can end in are exactly those that some loss of fetched texts gives |
| ResumeLimits.ResumeSafeIff | src/app/usecases/scholarship_finder/nodes.py:74-79 | every run agrees with the uninterrupted one on all outcomes exactly when no candidate was examined, or no official page contradicts or corroborates its candidate |
| ResumeLimits.RejectionReachableIff | src/app/usecases/scholarship_finder/nodes.py:942-1003 | some run ends in rejection exactly when the page is usable and classified as no scholarship, or some candidate is contradicted: a review elsewhere can always be lost |
| ResumeExamples.LosingTheTableIsNotFine | src/app/usecases/scholarship_finder/nodes.py:74-79 | a concrete job, £5 on the source against £6 on the official page, that the uninterrupted run rejects and a restarted one does not, for any word test and any date reading |
| ResumeExamples.LostTextHidesReview | src/app/usecases/scholarship_finder/nodes.py:666-718 | a concrete job of two candidates that the uninterrupted run sends to review and one that loses the first text recommends to reject |
| Submission.ByTitle | src/app/usecases/scholarship_finder/submission.py:184-187 | the dictionary answers each title with the last id echoed for it |
| Submission.FillIn | src/app/usecases/scholarship_finder/submission.py:188-189 | filling in the pending objects fills in the candidates themselves, and only those without an id |
| Submission.SubmitCandidates | src/app/usecases/scholarship_finder/submission.py:150-194 | one call, naming exactly the titled candidates without an id, or none; a refusal leaves every id as it was; the notes say which it was |
| Submission.Attach | src/app/usecases/scholarship_finder/submission.py:197-214 | one call with the candidate's evidence, or none; it counts only when accepted, and a refusal is noted |
| Submission.RequestReviewOf | src/app/usecases/scholarship_finder/submission.py:266-276 | one call exactly when review is required outside shadow mode; a refusal or a task opened is noted |
| Submission.SubmitOne | src/app/usecases/scholarship_finder/submission.py:121-127 | a candidate without an id causes no call; otherwise evidence, run and review request in that order, whatever was refused |
| Submission.CallMadeIffDue | src/app/usecases/scholarship_finder/submission.py:117-128 | a call for a candidate is made exactly when it is due: evidence if there is any, the run if there is an outcome, a review request if that calls for one outside shadow mode, each under the candidate's own id |
| Submission.CallsInTurn | src/app/usecases/scholarship_finder/submission.py:117-128 | each candidate's calls stand together, evidence before run before review, none twice, right behind those of the candidates before it |
| Submission.PendingAre | src/app/usecases/scholarship_finder/submission.py:150-170 | the titles sent for creation are those of the titled candidates without an id, in order |
| Submission.IdForIsLast | src/app/usecases/scholarship_finder/submission.py:184-189 | the id taken for a title is the last one the reply gives for it |
| Submission.SubmitToProduct | src/app/usecases/scholarship_finder/submission.py:90-147 | the whole trace: creation unless in shadow mode, then exactly the calls due for the candidates, and always the parent's own run last, asking for more evidence when the job has no outcome; the evidence counted is that of the accepted attachments and the notes are those of exactly these calls; without a product nothing is tried, and that is noted |
| Submission.FailureNotedIff | src/app/usecases/scholarship_finder/submission.py:150-276 | a refused call leaves its line and no other call does |
| EndToEnd.OwnTitleOnly | src/app/usecases/scholarship_finder/submission.py:182-189 | a candidate with an id is untouched; one without gets only an id echoed for its own title, and gets one whenever there is one |
| EndToEnd.IdsDifferIff | src/app/usecases/scholarship_finder/submission.py:182-189 | two candidates given ids are given different ones exactly when their titles differ |
| EndToEnd.ResubmitIsStable | src/app/usecases/scholarship_finder/submission.py:182-189 | submitting again with the same reply changes no id |
| EndToEnd.TitlesStayDistinct | src/app/usecases/scholarship_finder/nodes.py:389-411 | no finished run, interrupted or not, holds two candidates with one title |
| EndToEnd.IdsNeverCross | src/app/usecases/scholarship_finder/submission.py:150-194 | so when any finished run is submitted, no two of its candidates are ever given the same id |

## Left out

- JobTable.JobStore.ClaimJob: row locks and transactions are one atomic step; lock waiting and deadlock are not
  modelled.
- GraphRunner.Runtime.ExecuteJob: the output row a success adds and the log lines are not modelled, nor is a heartbeat
  that is still inside a renewal when it is cancelled; others may act in the window after the cancellation instead.
- Retrieval.Session.FetchSource: timeouts, headers and content decoding are one reply of the environment; pacing is
  proved on its own in Throttle and not threaded through the fetcher.
- Urls.ValidateSourceUrl: the address classes behind "public" are one verdict of the environment. A URL here is
  already split, so bracketed IPv6 hosts, which the code's normal form writes back without their brackets, cannot be
  expressed.
- Throttle.HostSlot.TakeTurn: lock fairness; the machine lets any waiting coroutine go next.
- Nodes.Workflow.FetchOfficial: the fetch itself is one answer of the environment by URL; Retrieval says what a fetch
  does.
- Resume.ResumeRefines: nodes are deterministic on repetition; a page that changes between attempts is not modelled.
- Submission.SubmitToProduct: the wording of notes (a line names its call), the reason added without a product, and
  the payloads beyond titles, evidence and outcomes.
- Graph.FinalWith: the last node leaves the state as it is, as in shadow mode when every call is accepted.
- Extraction.MentionsComplete: dates, study levels and eligibility phrases; dates are an uninterpreted list per text.
- Normalization.KeysEqualIff: the folding before it (compatibility forms, invisible characters, case) is
  uninterpreted.
- HTTP clients, token signing, the web API, settings, migrations, metrics and scripts: no algorithm to prove.
- Prompts, provenance fields, eligibility rule shaping and the audit record: easy members only.
- `await_review` and `cancel`: nothing calls them, so those states are never reached.
- Error classification: an input of the protocol, either class at any time.
