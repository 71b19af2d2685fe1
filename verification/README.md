# Models of Douyin_TikTok_Download_API

The repository serves short-video platforms: a browser service signs requests from warm pages, a
downloader stores media on a volume, a transcriber works through a queue, and an API in front
holds a pool of identities, an audit log and admission limits. These modules model the parts that
keep state under interleaving or do exact arithmetic, and prove what they keep.

Each concurrent component is written three times over. A class holds the fields the program
updates, and each method's contract equates the new state with a function of the old. Those
functions are the steps of a system whose runs are arbitrary sequences of enabled steps, one step
per critical section. The theorems are about every such run.

| component | modules |
|---|---|
| warm signing pages | `BindingKey`, `WarmPool`, `FakePage`, `SigningService`, `SigningProofs`, `SigningTheorems`, `SigningPages` |
| download jobs | `JobIntake`, `JobQueue`, `JobSystem`, `JobProofs`, `JobTheorems`, `JobStops`, `JobItems`, `JobUniqueness`, `JobWitness` |
| resumable transfer | `Transfer`, `TransferTheorems` |
| transcription jobs | `Transcriber`, `TranscriberSystem`, `TranscriberProofs`, `TranscriberTheorems`, `TranscriberOutcomes` |
| identities | `IdentityLife`, `IdentityStore`, `CookieJar`, `CookieImport`, `CookieFormats` |
| audit paging | `AuditPaging` |
| media volume | `MediaTree`, `MediaStore`, `MediaTheorems`, `MediaScan` |
| counts | `CountFormat`, `CountText` |
| admission | `BodyLimit`, `RateLimit` |
| shared | `Options`, `Lists`, `Text`, `Dicts`, `Hands` |

`dafny verify dfyconfig.toml` checks everything.

## Where the code and its promises part

- `submit` in `docker/downloader/queue.go` deletes by id when the channel is full. Another job can
  have that id by then: `JobWitness.RefusalCanForgetAQueuedJob` is such a run. Runs forget a live
  job exactly when a refusal does that (`JobUniqueness.RunsForgetExactlyWhenUnsafe`), and callers
  prevent it by not overlapping submissions of one id (`JobUniqueness.ApartRunsForgetNothing`).
- A byte ceiling of the largest 64-bit integer wraps the reader's limit, so every body reads as
  empty (`TransferTheorems.CeilingOfMaxInt64RefusesEverything`). A file that is complete when its
  connection breaks is refused, on the first body or on a continuation
  (`TransferTheorems.CompleteButCutIsRefused`, `TransferTheorems.CutFileLandsIffFewEnoughCuts`).
- `record_outcome` in `src/dtk/identity/pool.py` does not look at `RETIRED`: one late risk answer
  brings a retired row back, with the empty jar retirement left it
  (`IdentityLife.RetirementLastsUntilRisk`, `IdentityLife.RetiredCanReturnEmpty`). Nor is
  `DEGRADED` only reached from `COOLING`, as a comment there says: a first hit can reach it
  (`IdentityLife.DegradedExactlyAtCeiling`).
- `retire_burned` called with a threshold below the pool's own can empty a usable pool, and only
  then (`IdentityStore.SafeExactlyFromThePoolsThreshold`); its only caller clamps the threshold.
- The binding key is ambiguous for names with `=` or values with newlines
  (`BindingKey.AmbiguousTexts`); the theorems about answers exclude them.
- A jar made by the line-by-line fallback need not survive storage
  (`CookieImport.FallbackCanLoseAName`); it does exactly when none of its cookies holds a `;` or a
  value ending in a blank (`CookieImport.PlainImportSurvivesExactlyWhenIntact`). JSON and Netscape
  imports survive exactly when clean (`CookieImport.ImportSurvivesExactlyWhenClean`).
- A single cookie pasted behind `Cookie:` keeps the label in its name
  (`CookieFormats.LabelledSingleCookieKeepsItsLabel`), and the HttpOnly lines of a cookie file are
  read as comments (`CookieFormats.HttpOnlyLinesAreLost`). An object of cookies that has both a
  `name` and a `value` imports as one cookie (`CookieFormats.JsonObjectImports`).
- An application that sends from one task while it receives in another can get its response on
  the wire after a refusal (`BodyLimit.ConcurrentCanGetTwoAnswers`). One that receives in two tasks
  can have its client refused twice (`BodyLimit.OverlappingReceivesCanRefuseTwice`): `answered` is
  looked at before the await and not after it.

## Model

| member | source | states |
|---|---|---|
| SigningTheorems.EveryAnswerIsFromOwnPage | docker/browser_rpc/service.py:329-426 | over every run of `sign` calls: an answered call arrived with a request; the page behind its answer was opened with exactly that request's cookies, through the request's own proxy or else the configured one, and the answer is that page's signature of that request's plan |
| SigningTheorems.VerifyFpIsOwnVisitor | docker/browser_rpc/backends/fake.py:95-112 | over every run: an answer carries `verifyFp` exactly when the platform is Douyin and the cookies of the request it answers have a non-empty `s_v_web_id`, and then it is that value |
| SigningTheorems.HeldPagesAreOpenAndExclusive | docker/browser_rpc/service.py:374-426 | over every run: a held page is open, not idle, and held by one caller only |
| SigningTheorems.CreditsAreConserved | docker/browser_rpc/service.py:109-122 | in every reachable state `live` is the idle pages plus the calls owning a credit, and lies between 0 and the capacity |
| SigningTheorems.CallsBalance | docker/browser_rpc/service.py:374-426 | the steps of one call, summed over a run, net zero credits by the time it ends, however it ends |
| SigningTheorems.TimesOutOnlyWhenNothingAvailable | docker/browser_rpc/service.py:443-479 | a pass of `_acquire_slot` gets a credit exactly when one is available; otherwise it sleeps before its deadline and gives up at it |
| SigningTheorems.NoReleaseIsLost | docker/browser_rpc/service.py:203-211 | no lost wakeup over any run: while a caller sleeps, available credits do not exceed pending wakeups, and if one is available some woken caller can take it |
| SigningPages.ServedPagesAreYoung | docker/browser_rpc/service.py:443-483 | over every run: a page opened at some moment is signed on from the shelf only within the refresh age of that moment, and one replaced instead is past it or was opened for somebody else |
| SigningPages.FailedPagesNeverServeAgain | docker/browser_rpc/service.py:394-422 | over every run: after a failed signature its page is never again on the shelf nor under a signing call |
| SigningPages.FailsExactlyAfterTwoBadEnds | docker/browser_rpc/service.py:374-426 | over every run: a call fails if and only if two of its attempts ended badly, and there is never a third |
| SigningPages.EachAttemptHasItsOwnDeadline | docker/browser_rpc/service.py:374-450 | an attempt starts with the whole waiting time ahead of it, and its deadline never moves |
| SigningPages.NoCallIsStuck | docker/browser_rpc/service.py:374-483 | over every run: a call that has not ended can take its next step, with either outcome where the browser decides; a sleeper is known to the pool and can always look again |
| SigningPages.ShutdownClosesTheShelf | docker/browser_rpc/service.py:203-211 | shutting down closes exactly the idle pages and wakes everyone |
| SigningProofs.StepKeepsInv | docker/browser_rpc/service.py:428-522 | every critical section keeps the pool invariant: credits, wakeups, pages and each call's own record |
| WarmPool.TakeSpendsOne | docker/browser_rpc/service.py:443-479 | the decision under the lock spends exactly one available credit, or finds none |
| WarmPool.TakePrefersOwn | docker/browser_rpc/service.py:443-479 | a caller's own warm page, the earliest, is taken exactly when there is one, and served as it is exactly while younger than the refresh age; another's is evicted only when the pool is full, the oldest; nothing else leaves the shelf |
| WarmPool.PlatformPool.TakeSlot | docker/browser_rpc/service.py:443-479 | in place: hit, stale refresh, evict and rebind, new credit, or nothing, as the decision function says |
| WarmPool.PlatformPool.NotifyOne | docker/browser_rpc/service.py:511-522 | `notify` wakes the longest sleeper, if any |
| WarmPool.PlatformPool.ReleaseSlot | docker/browser_rpc/service.py:511-515 | the slot goes to the back of the shelf and one sleeper is woken |
| WarmPool.PlatformPool.ReturnCredit | docker/browser_rpc/service.py:517-522 | the credit goes back before the page is closed, and one sleeper is woken |
| WarmPool.PlatformPool.Drain | docker/browser_rpc/service.py:203-211 | shutdown takes every idle page, drops their credits and wakes everyone |
| WarmPool.PlatformPool.Wait | docker/browser_rpc/service.py:458-479 | a caller that found nothing joins the end of the sleepers |
| BindingKey.SameKeyIffSameIdentity | docker/browser_rpc/service.py:62-81 | two requests share a key if and only if their jars are the same mapping and their exits the same |
| BindingKey.KeyTextIsInjective | docker/browser_rpc/service.py:78-81 | the hashed text determines the sorted jar and the exit, for jars without newlines, names without `=`, exits without NUL |
| BindingKey.AmbiguousTexts | docker/browser_rpc/service.py:78-81 | each of the three exclusions is needed: three pairs of different identities with one text |
| BindingKey.AscendingIsUnique | docker/browser_rpc/service.py:79 | sorting by name gives one list per mapping, so insertion order cannot matter |
| FakePage.NamesOwnVisitor | docker/browser_rpc/backends/fake.py:95-112 | a signature names the visitor of the jar the page was opened with, on the platform that sends one |
| FakePage.SignatureCovers | docker/browser_rpc/backends/fake.py:95-112 | a signature field by field: each platform's own field over query, user agent and body, a token over the URL, and nothing else |
| FakePage.FakeSigningContext.Sign | docker/browser_rpc/backends/fake.py:95-112 | a closed page refuses; an open one signs from its frozen jar |
| JobTheorems.TableStaysConsistent | docker/downloader/queue.go:165-188 | over every run: map and order list hold the same ids without repeats, and a finish time is set exactly when the state is terminal |
| JobTheorems.StepsGoForward | docker/downloader/queue.go:283-326 | every step moves a job's state forward or not at all |
| JobTheorems.OverIsForever | docker/downloader/queue.go:398-413 | over every run a terminal state never changes |
| JobTheorems.RunsAtMostOnce | docker/downloader/queue.go:283-300 | over every run each job starts at most once |
| JobTheorems.OutcomesMeanWhatTheySay | docker/downloader/queue.go:372-396 | over every run, item order and cancel: done means every file is stored, partial some and not all, failed none, and the byte total is the sum over stored files |
| JobStops.CancelledWhileTransferring | docker/downloader/queue.go:224-241 | over every run: a job cancelled while its files transfer is cancelled from then on, and its worker goes from the join to finishing it as cancelled, never to counting its items |
| JobStops.CancelStopsLiveJobs | docker/downloader/queue.go:224-241 | a queued or running job becomes cancelled, stamped and signalled if it can be; a job that is over, and everything else, stays as it was |
| JobStops.UnstoppedJobsEndAsTheirItems | docker/downloader/queue.go:349-396 | over every run while the service is open: a job nobody cancelled ends done if and only if every file was stored, failed if and only if none was, and partial otherwise |
| JobStops.SettleConcludes | docker/downloader/queue.go:372-396 | the worker concludes done, failed or partial as the items are, with an error exactly for failed |
| JobStops.NoWorkerIsStuck | docker/downloader/queue.go:283-349 | over every run: a worker with a job can go on, each pending file ending either way, and one without takes the next job or stops when closing |
| JobStops.NoSubmitterIsStuck | docker/downloader/queue.go:165-241 | over every run: a submission can begin, and one begun can always send or be refused |
| JobItems.ItemsAreWhatWasReported | docker/downloader/queue.go:328-365 | over every run: a file counted as stored at some size, or as missed, was reported so by the worker that had the job |
| JobUniqueness.RunsForgetExactlyWhenUnsafe | docker/downloader/queue.go:165-188 | a run from an empty table never makes a live job unreachable if and only if no refused `submit` in it deletes an id naming another live job |
| JobUniqueness.RefusalForgetsExactlyWhenUnsafe | docker/downloader/queue.go:179-187 | in every reachable state that has forgotten nothing, the refused half of `submit` keeps every live job reachable if and only if its id names no other live job |
| JobUniqueness.ApartRunsForgetNothing | docker/downloader/queue.go:165-188 | over every run in which no two submissions of one id overlap, or in which submissions are undivided, every refusal is safe and no live job is ever forgotten |
| JobUniqueness.UndividedSubmitIsSafe | docker/downloader/queue.go:165-188 | a refused `submit` with nothing between its halves deletes its own job only |
| JobUniqueness.SafeRunsForgetNoLive | docker/downloader/queue.go:257-300 | along a run whose refusals are safe the table invariant and the reachability of every live job are kept, eviction included |
| JobUniqueness.StepKeepsLiveInHand | docker/downloader/queue.go:165-188 | every step keeps each reachable live job in the queue, with a submitter or with a worker |
| JobUniqueness.OneLiveJobPerId | docker/downloader/queue.go:165-188 | over every run without overlapping submissions of one id - undivided ones in particular - at most one job per id is queued or running, and its id finds it |
| JobWitness.RefusalCanForgetAQueuedJob | docker/downloader/queue.go:165-188 | a concrete run in which a refused `submit` makes another caller's queued job unreachable |
| JobProofs.StepKeepsInv | docker/downloader/queue.go:137-188 | every critical section and channel operation keeps the table invariant |
| JobQueue.EvictForgetsPrefix | docker/downloader/queue.go:257-271 | eviction forgets exactly an oldest-first prefix, none of it in flight, and moves nothing else |
| JobQueue.EvictStopsAtLive | docker/downloader/queue.go:257-271 | eviction ends within the history or at a live head |
| JobQueue.CountStoredMeans | docker/downloader/queue.go:372-396 | the settled count is all or none exactly when every file or no file is stored |
| JobQueue.VerdictMeans | docker/downloader/queue.go:372-396 | the verdict is done, failed or partial if and only if every file, no file, or some but not every file is stored |
| JobQueue.BytesAreTheStored | docker/downloader/queue.go:372-384 | recording a file changes the byte total by what it counts for: its size if stored and nothing otherwise |
| JobQueue.Manager.EvictLocked | docker/downloader/queue.go:257-271 | the loop in place is the eviction function |
| JobQueue.Manager.Register | docker/downloader/queue.go:165-178 | a repeated id is accepted without effect; a new one is stored and the history trimmed |
| JobQueue.Manager.TrySend | docker/downloader/queue.go:179-183 | the channel takes the job exactly when it has room |
| JobQueue.Manager.DropOrderLocked | docker/downloader/queue.go:273-281 | the order list loses the first entry of the id and keeps its order |
| JobQueue.Manager.Refuse | docker/downloader/queue.go:184-187 | the id is taken out of map and order list, whatever it names |
| JobQueue.Manager.Cancel | docker/downloader/queue.go:224-241 | a queued or running job becomes cancelled with its finish time, and is signalled if it can be, its other fields unchanged; any other is left alone |
| JobQueue.Manager.Start | docker/downloader/queue.go:283-300 | a job cancelled while queued is skipped untouched; any other runs from now, and can be cancelled |
| JobQueue.Manager.RecordItem | docker/downloader/queue.go:357-365 | one file's record changes and nothing else |
| JobQueue.Manager.Count | docker/downloader/queue.go:372-396 | the counting loop returns the verdict and stores the byte total |
| JobQueue.Manager.FinishJobObject | docker/downloader/queue.go:398-413 | a cancelled job is not overwritten by another outcome; otherwise state, error and finish time are stored, the rest kept, and the history trimmed |
| JobIntake.BuildJob | docker/downloader/api.go:208-258 | a submission is accepted exactly when every check passes; it carries the submission's fields, user agent and referer included; its directory reads back as its own three segments; a refusal names the first failing check |
| JobIntake.UsableExactlyWhenComplete | docker/downloader/api.go:208-245 | the checks pass if and only if every name is one plain path component, there are domains and items, and each item has mirrors, types and a positive ceiling |
| JobIntake.FaultsMeanWhatTheySay | docker/downloader/api.go:208-245 | each refusal is given if and only if its check fails and those before it pass |
| TransferTheorems.CommittedIsTheFile | docker/downloader/download.go:346-415 | from a mirror whose bodies are the file from where it was asked, whatever lands is the file, however often and wherever it was cut |
| TransferTheorems.CutFileLandsIffFewEnoughCuts | docker/downloader/download.go:346-415 | a file cut at given points lands, byte for byte as if uncut, if and only if its last body ended properly - neither broke off after the last byte nor was abandoned - and the cuts are at most the resume budget |
| TransferTheorems.AnyMirrorIsBounded | docker/downloader/download.go:279-296 | for any mirror: at most 13 requests, and a committed file has between 1 and `MaxBytes` bytes |
| TransferTheorems.CommitMeansEveryCheckPassed | docker/downloader/download.go:167-214 | for any mirror: nothing is committed unless the host was allowed and answered 200 with an accepted type, not declared over the ceiling, and the file system did all it was asked |
| Transfer.AsksPatiently | docker/downloader/download.go:279-320 | for any mirror, the whole of asking for the rest: one to four requests, all but the last answered by a 5xx, a 429 or nothing and not interrupted; the last brought exactly the rest, or was final, interrupted or the fourth |
| TransferTheorems.LimitsAreSoundBelowMaxInt64 | docker/downloader/download.go:355-372 | every limit handed to a reader is non-negative and every length at most `MaxBytes + 1` if and only if `MaxBytes` is below the largest 64-bit integer |
| TransferTheorems.CeilingOfMaxInt64RefusesEverything | docker/downloader/download.go:355-372 | at that one ceiling the limit wraps and nothing ever lands |
| TransferTheorems.CompleteButCutIsRefused | docker/downloader/download.go:374-392 | for any mirror, a first body of at least the declared length, or with none declared, whose connection then breaks is refused and not asked again; a continuation that does so is covered by the row on cut files |
| Transfer.Spool.Write | docker/downloader/progress.go:67-78 | one write keeps file, digest and told progress in step, or the disk is full |
| Transfer.Spool.Copy | docker/downloader/download.go:355-372 | a copy through a limited reader writes the delivered bytes for every split into reads, and ends as the reader does |
| Transfer.Spool.AskForRest | docker/downloader/download.go:279-296 | continuations are asked for at exactly the file's length, up to the patience allowed |
| Transfer.Spool.Continue | docker/downloader/download.go:374-392 | a cut is continued only while the file is known to go on and the budget lasts |
| Transfer.Spool.Pump | docker/downloader/download.go:355-392 | the splicing loop: on success file, digest, `written` and the last progress agree and are the gathered content |
| Transfer.Spool.Run | docker/downloader/download.go:346-415 | the destination appears exactly on commit; a rejection leaves it as it was and no `.part`, unless the directory or file could not be created |
| Transfer.Spool.FetchOne | docker/downloader/download.go:167-214 | only a 200 of an accepted type from an allowed host, not declared over the ceiling, is committed; any other first response is refused, asking for nothing and leaving part file and destination as they were |
| Transfer.Spool.Fetch | docker/downloader/download.go:149-165 | mirrors are tried in order until one commits, which then passed every check of its first response, or until the job is cancelled |
| TranscriberTheorems.IndexIsExact | docker/transcriber/app.py:325-339 | at every await point the terminal index is exactly the ids whose job is over, each once, within its size |
| TranscriberTheorems.LiveJobsAreNeverForgotten | docker/transcriber/app.py:426-500 | over every run a queued or running job is found under its id and is in the queue or with a worker, whatever happened to earlier jobs of that id |
| TranscriberTheorems.OverIsForever | docker/transcriber/app.py:426-500 | over every run a terminal state never changes |
| TranscriberOutcomes.AnswersAreWhatWasBrought | docker/transcriber/app.py:393-480 | over every run: a done job's text, or a failed job's error, is what the backend first brought for it, with no error and no text respectively; a cancelled job was deleted; only a job still going shows partial text, exactly the segments heard |
| TranscriberOutcomes.RevisionTellsOfChanges | docker/transcriber/app.py:393-480 | each step keeps a job's revision or adds one, and keeps it exactly when nothing changed but the start of the work |
| TranscriberOutcomes.NoWorkerIsStuck | docker/transcriber/app.py:341-500 | over every run: a worker can take its next step, with either answer of the backend, and submissions and deletions are always possible |
| TranscriberTheorems.TableIsBounded | docker/transcriber/app.py:563-603 | the table never exceeds history plus queue plus workers |
| TranscriberTheorems.RememberKeepsTheRecent | docker/transcriber/app.py:331-339 | ending a job forgets only those that ended longest ago, never itself nor a live job |
| TranscriberProofs.StepKeepsInv | docker/transcriber/app.py:341-500 | every section between two awaits keeps the table invariant |
| TranscriberProofs.ForgetIfSameKeeps | docker/transcriber/app.py:325-329 | the identity check: forgetting a cancelled job never takes the job that has its id now |
| Transcriber.JobTable.ForgetJob | docker/transcriber/app.py:325-329 | an id is forgotten from table and index, or nothing happens when it names another job |
| Transcriber.JobTable.RememberTerminal | docker/transcriber/app.py:331-339 | the loop in place is the expiry function |
| Transcriber.JobTable.SubmitJob | docker/transcriber/app.py:563-603 | a repeated id is answered from the table; a full queue leaves no trace; otherwise, and only then, stored and queued |
| Transcriber.JobTable.DeleteJob | docker/transcriber/app.py:620-640 | a live job becomes cancelled with one revision more and no partial text; one that is over is forgotten; an unknown id changes nothing |
| Transcriber.JobTable.TakeJob | docker/transcriber/app.py:341-351 | a worker skips and forgets a job cancelled in the queue, by identity |
| Transcriber.JobTable.CompleteJob | docker/transcriber/app.py:426-490 | after a cancellation nothing changes; otherwise success gives done with the text, failure gives failed with the message, either way with one revision more and no partial text |
| Transcriber.JobObject.RecordSegment | docker/transcriber/app.py:359-398 | a cancelled job stops its backend and keeps its partial text; any other gains the segment, and a revision when there is text |
| Transcriber.JobTable.CloseJob | docker/transcriber/app.py:490-500 | a cancelled job is forgotten by identity when its worker lets go |
| CountFormat.DisplayIsClose | src/dtk/i18n/format.py:170-199 | the displayed value is within 1/200 of the magnitude, exact without a unit, and a carry shows exactly one of the next unit and needs no second carry |
| CountFormat.DisplayIsMonotone | src/dtk/i18n/format.py:170-199 | a larger count never shows as a smaller one, across signs, units and carries |
| CountFormat.CarryLandsOnOne | src/dtk/i18n/format.py:183-191 | when rounding reaches the next unit the value there is exactly 1 |
| CountFormat.RoundIsClose | src/dtk/i18n/format.py:159-167 | three significant digits, half up, are within 1/200 |
| CountText.FormatCount | src/dtk/i18n/format.py:170-199 | the text begins with a minus sign exactly for a negative count; a plain decimal follows that reads as the hundredths shown, then separator and suffix of the unit shown and nothing else; where units can be told apart, reading it back gives what is displayed, within 1/200 of the count |
| CountText.TextReadsBack | src/dtk/i18n/format.py:170-199 | any sign, decimal and unit of such a locale read back as what the display stands for |
| CountFormat.DisplayIsHalfUp | src/dtk/i18n/format.py:159-199 | a count is shown in the first unit it reaches, rounded half up to three digits, unless that rounding is worth one of the next unit, and then in that one |
| CountFormat.DisplayIsExactBelowUnits | src/dtk/i18n/format.py:185-199 | a count is written in full exactly when it is below every unit |
| CountFormat.ParsedScaleIsAScale | src/dtk/i18n/format.py:90-105 | any locale file yields a descending positive scale holding each readable entry with a positive threshold as often as the file does, and nothing else |
| CountText.StrippedIsShortest | src/dtk/i18n/format.py:152-156 | taking zeros and then a point off a fixed-place text gives the shortest text of its value, for every number of places it was written with |
| CountText.ShortestReadsBack | src/dtk/i18n/format.py:152-156 | that text reads back as the value shown |
| IdentityLife.StreakCountsFailures | src/dtk/identity/pool.py:430-495 | over any history of a live identity the streak is the network and risk failures since the last success or reset |
| IdentityLife.BusinessErrorsChangeNothing | src/dtk/identity/pool.py:430-495 | deleting every business error from any history changes nothing but when the identity was last used |
| IdentityLife.ActiveMeansNoCooldown | src/dtk/identity/pool.py:430-601 | over any history: active means no cooldown, cooling or degraded means one |
| IdentityLife.RecoversAtDeadline | src/dtk/identity/pool.py:326-393 | a waiting identity becomes active exactly at a promotion at or after its deadline, a reset, or a success while cooling |
| IdentityLife.BackoffIsMonotone | src/dtk/scheduler/health.py:64-79 | a longer streak never waits less, and never more than the maximum |
| IdentityLife.BackoffDoubles | src/dtk/scheduler/health.py:64-76 | before its ceiling the backoff is base times weight, doubled by each further failure up to a streak of thirty-three |
| IdentityLife.CoolingWaitsItsBackoff | src/dtk/identity/pool.py:465-480 | a risk hit below the ceiling cools for the whole seconds of that backoff |
| IdentityLife.LastUsedByLastRequest | src/dtk/identity/pool.py:430-455 | over any history an identity was last used when its last request was recorded, of whatever outcome |
| IdentityLife.DegradedExactlyAtCeiling | src/dtk/identity/pool.py:465-480 | a risk hit degrades exactly when the uncapped backoff reached the ceiling, on the first hit if the base alone does |
| IdentityLife.CeilingIsSticky | src/dtk/identity/pool.py:465-480 | once at the ceiling, every later risk hit without a success or reset between degrades again |
| IdentityLife.RetirementLastsUntilRisk | src/dtk/identity/pool.py:430-495 | a retired row stays retired throughout a history if and only if no late risk answer is folded into it |
| IdentityLife.RetiredCanReturnEmpty | src/dtk/identity/pool.py:579-601 | a retired identity can come back active with an empty jar: three events |
| IdentityStore.Store.RecordOutcome | src/dtk/identity/pool.py:430-495 | one row changes as its outcome says; an unknown identity reads as retired |
| IdentityStore.Store.PromoteRecovered | src/dtk/identity/pool.py:326-393 | exactly the platform's elapsed rows become active, and none of it still waits past its deadline |
| IdentityStore.Store.CoolAllOnProxy | src/dtk/identity/pool.py:497-523 | exactly the proxy's active and degraded rows start cooling |
| IdentityStore.Store.RetireOne | src/dtk/identity/pool.py:579-601 | the row is retired and its jar emptied |
| IdentityStore.Store.SelectBurned | src/dtk/identity/pool.py:630-650 | the query's answer: distinct burned rows, highest streaks first, up to the limit, none passed over |
| IdentityStore.Store.RetireBurned | src/dtk/identity/pool.py:603-666 | nothing while the threshold is off or no identity is usable; otherwise exactly the selected rows are retired, with time, reason and an empty jar, and every other row is untouched |
| IdentityStore.WhoIsRetired | src/dtk/identity/pool.py:631-654 | row by row: chosen are only minted, never signed-in, active, cooling or degraded guests of the platform with at least that many failures, all of them unless the limit was reached; nobody when off or when no row is usable |
| IdentityStore.MaintenanceRetiresTheRefused | src/dtk/worker/maintenance.py:406-426 | beside a healthy identity the job retires exactly the guests that failed at least once, as often as its setting and as often as the pool's |
| IdentityStore.BurnedNeverEmptiesThePool | src/dtk/identity/pool.py:603-666 | whomever `retire_burned` chooses at or above the pool's streak threshold, the usable identities stay exactly the same, and no imported, signed-in or other-platform identity is touched |
| IdentityStore.SafeExactlyFromThePoolsThreshold | src/dtk/identity/pool.py:603-666 | for any positive threshold and limit: retiring the burned leaves the usable identities of every table unchanged if and only if the threshold is at or above the pool's own |
| IdentityStore.BelowThresholdCanEmptyThePool | src/dtk/identity/pool.py:603-666 | below it a pool of one usable guest is emptied |
| IdentityStore.MaintenanceNeverEmptiesThePool | src/dtk/worker/maintenance.py:406-426 | the maintenance job clamps its threshold, so whatever the settings every usable identity stays usable |
| AuditPaging.PagesAreTheListing | src/dtk/db/repositories.py:750-782 | following the last row's cursor to an empty page shows every matching row once in descending order, whatever arrives above the cursor |
| AuditPaging.GrowingLogLosesNothing | src/dtk/db/repositories.py:750-782 | if rows are only ever added, even below the cursor, no row of the first table is lost or repeated and nothing is out of order |
| AuditPaging.PageSplitsListing | src/dtk/db/repositories.py:767-774 | a page is the first rows of the listing and the rest is what lies below its last row |
| AuditPaging.PageIsTheNewestMatching | src/dtk/db/repositories.py:750-782 | one request: only rows that the action, user and cursor let through, newest first, at most as many as asked; any such row left out is older than all shown, on a full page |
| AuditPaging.DescendingIsTheSet | src/dtk/db/repositories.py:767 | the ordering by `(ts, id)` lists each row exactly once, newest first |
| AuditPaging.TimestampAloneLosesTies | src/dtk/db/repositories.py:775-776 | paging on the timestamp alone loses exactly the unshown rows of the last row's timestamp |
| MediaStore.FreedIsWhatLeft | docker/downloader/store.go:135-163 | the bytes reported freed are exactly what the total went down by, duplicates included, on success and on refusal |
| MediaTheorems.OnlyNamedDirectoriesGo | docker/downloader/store.go:135-180 | after any sweep a content directory, anything in one, or any file is gone exactly when a reported name covers it; pruning takes only empty folders |
| MediaTheorems.ReportIsThePrefixDone | docker/downloader/store.go:135-163 | the report is the candidates up to the first refusal, each of three safe segments |
| MediaTheorems.RepeatingASweepIsHarmless | docker/downloader/store.go:147-152 | asking again for what was reported removed frees nothing, changes nothing and is no error |
| MediaTheorems.SweepsLeaveNothingEmpty | docker/downloader/store.go:135-180 | after any sweep, an empty folder the file system would let go of was empty before it |
| MediaTheorems.RemovalLeavesNoEmptyFolder | docker/downloader/store.go:167-180 | the author and platform of a directory a sweep removed do not stay behind empty, unless that very folder is held |
| MediaTheorems.OtherFoldersStay | docker/downloader/store.go:167-180 | after any sweep a folder stays when no reported directory was in it, and when the file system holds on to it |
| MediaStore.RefusesExactlyTheseNames | docker/downloader/store.go:138-146 | a name is refused exactly when it is not three segments or some segment is not one plain component; a held directory is never removed |
| MediaStore.SafeSegmentsAreNames | docker/downloader/safety.go:112-124 | a segment is safe if and only if it is 1 to 128 letters, digits, dots, underscores and hyphens, begins with a letter or digit, and nowhere has two dots in a row |
| MediaStore.MediaVolume.RemoveAll | docker/downloader/store.go:135-163 | the loop in place is the sweep function: totals, report and refusal |
| MediaStore.MediaVolume.Remove | docker/downloader/store.go:138-161 | one candidate: refused, already gone, or removed with its bytes |
| MediaStore.MediaVolume.PruneEmpty | docker/downloader/store.go:167-180 | parents are removed upwards while empty, never the root |
| MediaStore.Measure | docker/downloader/store.go:105-125 | files, bytes and newest time of one directory, sub-directories skipped |
| MediaStore.NamedPathsAreRead | docker/downloader/safety.go:120-144 | a path joined from safe segments is read back as those segments |
| MediaStore.SurroundingsAreDropped | docker/downloader/store.go:138-142 | blanks around a named path, and slashes within those, are not part of it |
| MediaScan.Scan | docker/downloader/store.go:51-98 | the nested walk reports the total of all content directories and lists them oldest first |
| MediaScan.EveryDirectoryIsReported | docker/downloader/store.go:51-98 | a directory is in the report if and only if it lies exactly three levels down, with its own measurement |
| MediaScan.ReportedIsWhatRemovalFrees | docker/downloader/store.go:51-163 | removing a reported directory with usable segments frees the bytes its report said |
| CookieJar.JarSurvivesExactlyWhenClean | src/dtk/identity/pool.py:252-257 | a jar comes back from storage as the same mapping if and only if names and values are trimmed and free of `;` and names free of `=` |
| CookieJar.CleanJarsReadBack | src/dtk/identity/importing.py:446-447 | a clean jar reads back exactly, order included |
| CookieJar.HeaderTextsSurvive | src/dtk/identity/importing.py:208-215 | for every text, storing and loading what the header parser made gives it back |
| CookieImport.ImportSurvivesExactlyWhenClean | src/dtk/identity/importing.py:260-271 | for every pasted text, in every format, the imported jar comes back from storage if and only if it is clean |
| CookieImport.PlainImportSurvivesExactlyWhenIntact | src/dtk/identity/importing.py:260-271 | text taken as a header or line by line survives if and only if no imported cookie holds a `;` or a value ending in a blank |
| CookieImport.ImportedTextSurvives | src/dtk/identity/importing.py:260-271 | it always does when the detected header or line parser took it, so only the fallback can fail |
| CookieImport.FallbackCanLoseAName | src/dtk/identity/importing.py:260-271 | a text imported through the fallback whose jar storage does not give back |
| CookieFormats.HeaderImports | src/dtk/identity/importing.py:208-215 | several cookies written as a header, with or without `Cookie:` before them, import as themselves |
| CookieFormats.LinesImport | src/dtk/identity/importing.py:243-249 | the same cookies one to a line import as themselves |
| CookieFormats.NetscapeImports | src/dtk/identity/importing.py:232-240 | a cookie file imports as the names in its sixth column with the values in its seventh |
| CookieFormats.JsonListImports | src/dtk/identity/importing.py:225-229 | a list of exported cookie objects imports as their names and values, in order |
| CookieFormats.JsonObjectImports | src/dtk/identity/importing.py:218-224 | an object from names to values imports as itself, unless it has both a `name` and a `value`: then as one cookie |
| CookieFormats.LabelledSingleCookieKeepsItsLabel | src/dtk/identity/importing.py:197-205 | a single cookie behind `Cookie:` is imported with the label in its name |
| CookieFormats.HttpOnlyLinesAreLost | src/dtk/identity/importing.py:234-236 | a cookie-file line behind a `#`, as HttpOnly cookies are written, holds nothing |
| CookieJar.Load | src/dtk/identity/pool.py:252-257 | the loading loop computes the loaded jar |
| CookieJar.ParseHeader | src/dtk/identity/importing.py:208-215 | the header loop computes the parsed jar |
| CookieImport.ParseLoose | src/dtk/identity/importing.py:243-249 | the line loop computes the parsed jar |
| CookieImport.ParseNetscape | src/dtk/identity/importing.py:232-240 | the tab-separated loop computes the parsed jar |
| CookieImport.ParseJson | src/dtk/identity/importing.py:218-229 | a dictionary, one cookie object or a list of them becomes the parsed jar; undecodable text none |
| CookieImport.ParseCookies | src/dtk/identity/importing.py:197-271 | detection of the four formats, the parser for each and the fallback; kept are exactly the cookies with a name and a value |
| BodyLimit.NeverMoreThanTheLimit | src/dtk/api/middleware.py:284-298 | over every run, sequential or not, the application is given at most the limit |
| BodyLimit.MixedExactlyWhenTalkedOver | src/dtk/api/middleware.py:284-305 | the client is sent both a refusal and an application response if and only if the application sends while a refusal is on its way out |
| BodyLimit.SequentialGetsOneAnswer | src/dtk/api/middleware.py:263-305 | a sequential application's client never gets both, and at most one refusal |
| BodyLimit.ConcurrentCanGetTwoAnswers | src/dtk/api/middleware.py:293-305 | a run of a concurrent application with both on the wire |
| BodyLimit.RefusedTwiceExactlyWhenLate | src/dtk/api/middleware.py:284-298 | the client is refused more than once if and only if a part of the body arrives at a `receive` still waiting when a refusal has begun and no response has |
| BodyLimit.RefusalsAreCounted | src/dtk/api/middleware.py:284-298 | over every run the refusals are the first one and one for each such late arrival |
| BodyLimit.OverlappingReceivesCanRefuseTwice | src/dtk/api/middleware.py:284-298 | two overlapping calls of `receive` with two refusals on the wire, the second for an empty part |
| BodyLimit.OneReaderIsRefusedOnce | src/dtk/api/middleware.py:284-298 | an application that never overlaps calls of `receive` is refused at most once, whatever it sends meanwhile |
| BodyLimit.FittingBodiesPassUntouched | src/dtk/api/middleware.py:284-305 | a body within the limit arrives whole and the response is unchanged |
| BodyLimit.OversizedBodyIsRefused | src/dtk/api/middleware.py:293-305 | a body over the limit before the response began gets a refusal; after it no body is delivered and nothing is sent but a refusal per late arrival, of which there are at most as many as other receives waiting |
| BodyLimit.CountedBody.Call | src/dtk/api/middleware.py:284-287 | `receive` up to its await: a disconnect once answered, otherwise it waits |
| BodyLimit.CountedBody.Arrive | src/dtk/api/middleware.py:287-298 | `receive` from the arrival: pass, count, begin a refusal, or disconnect, without looking at `answered` again |
| BodyLimit.CountedBody.RefusalSent | src/dtk/api/middleware.py:293-298 | the refusal is out: answered, and a disconnect for the application |
| BodyLimit.CountedBody.Send | src/dtk/api/middleware.py:300-305 | one call in place: dropped after a refusal, sent otherwise |
| RateLimit.AnyMinuteAdmitsAtMostTwice | src/dtk/api/deps.py:301-322 | over any run a subject gets at most twice its limit through in any 60 consecutive seconds |
| RateLimit.TwiceIsReached | src/dtk/api/deps.py:301-322 | twice is reached, for every limit |
| RateLimit.LetThroughExactlyBelowTheLimit | src/dtk/api/deps.py:301-322 | a request passes if and only if fewer than the limit came before it in its window; the remaining count told is right, and zero for a refused one; the reset time told is the end of its minute |
| RateLimit.CountersAreTallies | src/dtk/api/deps.py:306-308 | the 120-second lifetime never cuts a window short and ends within two minutes of it: a stored counter is exactly the tally |
| RateLimit.RetryReachesTheNextWindow | src/dtk/api/deps.py:310-318 | waiting as told ends exactly at the reset time told, in the next window and not a later one |
| RateLimit.Limiter.Enforce | src/dtk/api/deps.py:301-322 | one request in place: unmetered, within, or limited, with the limit, remaining count and reset time told either way, and the counter after it |

## Left out

- Task cancellation inside `sign`: `except Exception` does not return the credit on a cancelled task, so runs of the signing model contain none.
- Prewarming is part of the initial state, and shutdown drains the pool and closes its idle pages as one step.
- Physical pages: a discarded slot returns its credit before its page is closed, so credits are bounded and not open browser pages.
- Hashing: SHA-256 cut to 16 digits and the fake page's digest are function parameters; the binding theorems ask that they tell apart the texts in play.
- Browser driving, minting and the real page: only the fake page's signatures are modelled.
- `place` in the job and transcriber systems is bookkeeping of who holds a pointer to a job; the programs have no such field, and its agreement with queue, workers and submitters is proved.
- Item transfers inside a job: which files are stored and how large is the environment's choice, and the limit on concurrent item workers is not modelled.
- The downloader's HTTP client, redirects, address checks and content types: a mirror is its answers, with the Content-Range already parsed into three numbers.
- TransferTheorems.CutFileLandsIffFewEnoughCuts: is about mirrors that declare the file's length and files that fit the ceiling and the disk; other mirrors are covered by the bounds.
- TransferTheorems.CommittedIsTheFile: assumes bodies that are the file from the offset asked for, since nothing rechecks the length written against the length declared after a clean end.
- Transfer.Spool.Run: a stale `.part` left by an earlier process survives when the directory or the file cannot be opened, as in the code.
- Transcription, heartbeats and the progress and stage reports of the backend's thread, which raise the revision too; a reported segment is one step, its check for a cancellation included.
- CookieFormats.HeaderImports: like the other three formats it speaks of cookies that hold no separator of any format; for others the survival theorems say what is kept.
- Process shutdown in the transcriber, and HTTP envelopes and authorization everywhere.
- The events the identity pool appends to its log, leases, health scores and the choice of candidates.
- Decimal's 28-digit context in `format_count`: the arithmetic is exact.
- Which suffixes and separators a locale has, and the other number and duration formats.
- The audit log's database: a table is a finite set of rows with unique ids, and one page reads one table.
- Symbolic links, permissions inside the media volume, and files that vanish between listing and measuring: file operations are atomic and each directory can be listed.
- The prefix check of `safeJoin` for a media root of `/` or `.`; paths are segment lists below the root.
- JSON decoding and Python's `str` of a decoded value: both are function parameters of the cookie import.
- The declared Content-Length check, and what becomes of an exception the application raises after a refusal.
- The rate limiter's choice of subject and limit for a request; its store answers as one counter per key on the same clock, which never runs backwards.
