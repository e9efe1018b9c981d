# Verification of the Unraid MCP server's core

A Dafny model of the stateful and algorithmic layer of the Unraid MCP server, with
proofs of what it promises. `dafny verify dfyconfig.toml` checks everything.

JavaScript runs a call until its next real `await`, so each concurrent part is a
transition system whose atomic steps are the stretches between awaits. Its properties
are invariants over every run, and the class beside it performs one step per method.
Loops and records the source updates in place are methods and classes proved against
specification functions; expressions are functions. Clocks, network outcomes, the
host's answers and jitter are parameters or nondeterministic steps.

| module | models |
|---|---|
| `SshExecutor` | one shared SSH connection, four channel slots, FIFO hand-off, idle timer |
| `MetricsHistory`, `MetricsRows` | the ring of aggregates against an unbounded log, and the rows folded from it |
| `RateLimit`, `UnraidClient` | the token bucket, the retry loop, and any number of calls over one bucket |
| `SnapshotCache` | the TTL cache with clear-on-mutation and fetches in flight |
| `HttpSessions` | the session store and its streams |
| `LiveResources`, `LiveStore` | upstream subscriptions per URI, and the docker-stats aggregate |
| `IntelStream` | the brace scanner against a JSON stream printer |
| `Json`, `TruncateOutput` | JSON string escaping, flat objects, and the truncation envelope |
| `Redact`, `Strings` | literal secret replacement; split, join and replace-all |
| `RedactJson` | the same replacement over printed JSON |
| `QuoteShell` | shell quoting against POSIX word splitting |
| `FormEncoding`, `ShareCfg`, `Share`, `ShareWrite`, `ShareDelete` | share forms, cfg files, the write and delete flows |
| `Autostart`, `StableSort` | the merge-safe autostart snapshot |
| `Decimal`, `Wrappers` | decimal digits; the optional value |

## Where code and comments disagree

The model follows the code; each of these is an if-and-only-if or a concrete run.

- An idle executor's connection is not always closed: a connect that completes after its
  last caller's deadline leaves it open with no timer
  (`SshExecutor.IdleDisconnectIsCompleteIff`, `OrphanedConnectTrace`).
- `MetricRingBuffer.window` includes the bucket that contains `sinceMs`, and `gaps` can be
  one short (`MetricsHistory.WindowStartsWithTheBucketContainingSince`,
  `GapsAreOffByAtMostOne`).
- The limiter is meant to stay under 100 requests per 10 s and permits 180; it can pass 100
  exactly when it holds at least 11 tokens (`UnraidClient.DefaultsPermit180`, `HundredIsPassedIff`).
- A read after a mutation can be served data fetched before it, when a fetch straddles the
  clear (`SnapshotCache.MutationIsVisibleIffNoFetchStraddles`).
- `streaming` is a boolean, so closing one of two streams exposes the other to sweep
  (`HttpSessions.OpenStreamsAreExemptIff`); a throwing first request loses its pair
  (`NothingLeaksIffNoInitializeThrows`).
- A dead subscription does block revival when its error is raised inside `subscribe`, or when
  the server completes it, which the feed ignores (`LiveResources.BooksAreKeptIff`,
  `ErrorInsideSubscribeBlocksRevival`, `CompletionBlocksRevival`).
- The brace scanner overwrites `escaped` before testing it
  (`IntelStream.ScannerIsRightIffNoEscapedQuote`, `ObjectIsSlicedIff`, `OddlyEscapedObjectIsLost`).
- The delete tool promises to refuse while a share holds data, but ignores the exit code of
  `find` (`ShareDelete.DataIsSafeIffFindReports`, `SilentFindLosesTheCfg`).
- A secret that can be laid over the marker can survive redaction (`Redact.CompleteIffNoOverlap`).
- Redacting the structured channel "stays parseable" for some secrets only: it redacts the
  string values themselves exactly for secrets that are printed unescaped and meet no escape
  sequence (`RedactJson.CommutesIff`, `ControlSecretsSurvive`, `OneLetterBreaksTheText`).
- A comment with a double quote is stored but cannot be verified (`ShareWrite.VerifiedIffQuoteFree`).

## Model

| member | source | states |
|---|---|---|
| SshExecutor.StepKeepsInv | src/shell/executor.ts:108-191 | Every step a call or an event can take keeps the slot count equal to the holders and at most 4, the queue FIFO without duplicates and empty unless all slots are taken, one connect at most, and no timer pending but the one the field names, and that only with no slot held |
| SshExecutor.ReachableIsSafe | src/shell/executor.ts:118-191 | In every interleaving of calls, completions, failures, deadlines, closes and timers from a fresh executor: `activeChannels` is the number of calls holding a slot and at most 4, a non-empty queue forces exactly 4, at most one connect is outstanding and none while a connection is live, at most one idle timer is pending and then no slot is held and nobody waits |
| SshExecutor.RunsAreSafe | src/shell/executor.ts:108-191 | The same invariant carried over any run from any state that has it |
| SshExecutor.IdleTimerEndsOnlyUnusedConnections | src/shell/executor.ts:173-184 | When the idle timer fires nobody is queued and no call holds or is about to use a connection |
| SshExecutor.OnlyTheLiveConnectionIsForgotten | src/shell/executor.ts:139-144 | A stale close changes nothing at all; a close of the live connection forgets just it |
| SshExecutor.StepGivesTheCurrentConnection | src/shell/executor.ts:109-136 | At every step, a connection a call holds is the one it held before or the one that is current now; and it keeps it until it ends |
| SshExecutor.CallsRunOnTheConnectionTheyGot | src/shell/executor.ts:108-136 | Over every run: whatever connection a call holds, queues or runs on was the current one when the call got it |
| SshExecutor.ForgottenForGood | src/shell/executor.ts:118-144 | A connection that closed or was ended never becomes current again: the next one is new |
| SshExecutor.OnlyTheIdleTimerEnds | src/shell/executor.ts:181-184 | The executor ends a connection exactly when the idle timer fires while it is current, and forgets it |
| SshExecutor.CallsEndIff | src/shell/executor.ts:108-116 | A call ends exactly by its own command, its own deadline, or the failure of the connect it waits for |
| SshExecutor.CommandsRunIff | src/shell/executor.ts:110-116 | A command runs exactly from the resumption with a slot to the release of that slot |
| SshExecutor.AskingDecides | src/shell/executor.ts:151-158 | A call gets a slot at once exactly when fewer than four calls hold one, and otherwise the end of the queue; no idle timer stays armed |
| SshExecutor.PhasesAdvance | src/shell/executor.ts:108-116 | No run ever moves a call back to an earlier phase |
| SshExecutor.QueueIsFifo | src/shell/executor.ts:151-171 | After any run with r releases, the caller at position k is at position k-r if r <= k, and otherwise has left the queue for good: no arrival overtakes it |
| SshExecutor.WokenByItsOwnRelease | src/shell/executor.ts:161-171 | The caller at queue position k is handed its slot by exactly the (k+1)-th later release, the counter staying at 4 |
| SshExecutor.IdleCloseIsLostOnlyByOrphanedConnects | src/shell/executor.ts:109-144 | A step leaves an open connection that nothing will close if and only if it is a connect completing after every caller has given up |
| SshExecutor.IdleDisconnectIsCompleteIff | src/shell/executor.ts:60-66 | Over whole runs: every open connection always has an owner or an armed timer if and only if no connect is orphaned |
| SshExecutor.OrphanedConnectTrace | src/shell/executor.ts:109 | The three-step run (call, deadline, connect) after which an unused connection stays open |
| SshExecutor.SshShellExecutor.constructor | src/shell/executor.ts:71-75 | A new executor is the initial state and satisfies the invariant |
| SshExecutor.SshShellExecutor.AcquireConnection | src/shell/executor.ts:119-129 | The synchronous start of a call is exactly the call step: reuse, join or begin the one connect |
| SshExecutor.SshShellExecutor.OpenConnection | src/shell/executor.ts:132-137 | A settled connect is installed and wakes every waiting call with it |
| SshExecutor.SshShellExecutor.FailConnection | src/shell/executor.ts:123-128 | A failed connect fails every waiting call and allows the next one |
| SshExecutor.SshShellExecutor.DropConnection | src/shell/executor.ts:140-144 | A close forgets the connection only if it is the current one |
| SshExecutor.SshShellExecutor.AcquireChannel | src/shell/executor.ts:151-158 | Takes a free slot or joins the end of the queue, and disarms the timer |
| SshExecutor.SshShellExecutor.ReleaseChannel | src/shell/executor.ts:161-171 | Hands the slot to the first waiter, or frees it and arms the timer when it was the last |
| SshExecutor.SshShellExecutor.ScheduleIdleDisconnect | src/shell/executor.ts:174-191 | Clears the timer the field names, if pending, and leaves exactly one new timer pending |
| SshExecutor.SshShellExecutor.DisconnectIdle | src/shell/executor.ts:181-184 | Ends and forgets the current connection and nothing else |
| MetricsHistory.RingRefinesLog | src/graphql/metrics-history.ts:39-90 | For every log of non-decreasing times, slot p holds exactly the summary of all samples of the greatest sampled bucket congruent to p modulo 2880, and is empty if there is none |
| MetricsHistory.FoldSummarizes | src/graphql/metrics-history.ts:39-49 | Folding one more value keeps min, max, sum and count those of the whole list |
| MetricsHistory.WindowSlotsAre | src/graphql/metrics-history.ts:98-104 | A window is strictly ascending and consists of exactly the sampled buckets from the start on that no later bucket displaced |
| MetricsHistory.WindowAgreesIffNothingOverwritten | src/graphql/metrics-history.ts:98-104 | The window is the list an unbounded log would give if and only if none of its buckets lost its slot; always so when it starts fewer than 2880 buckets before the last sample |
| MetricsHistory.PointsDescribeTheLog | src/graphql/metrics-history.ts:51-57 | Every point shows exactly the series sampled in its bucket, with the min, max, average and count of all their raw values |
| MetricsHistory.WindowShowsTheLog | src/graphql/metrics-history.ts:98-104 | A window holds one point per sampled bucket from the start on that kept its slot, oldest first, each describing the raw samples |
| MetricsHistory.WindowStartsWithTheBucketContainingSince | src/graphql/metrics-history.ts:92-104 | The doc comment's "starts at or after" holds if and only if the start is a bucket boundary or its own bucket has no point; otherwise the bucket containing it is reported too |
| MetricsHistory.EveryBucketIsSampledOrNot | src/graphql/metrics-history.ts:195-201 | Sampled and sampleless buckets of a range add up to its length |
| MetricsHistory.ExpectedIsTrueCountOrOneLess | src/graphql/metrics-history.ts:199 | `expectedBuckets` is the true number of buckets meeting the window or one less, and exactly when it is less |
| MetricsHistory.ExpectedCoversSpan | src/graphql/metrics-history.ts:199 | `expectedBuckets` is the least positive number of 30-second buckets that covers the span |
| MetricsHistory.GapsAreOffByAtMostOne | src/graphql/metrics-history.ts:195-201 | `gaps` is the true number M of sampleless buckets or M-1, for every alignment, with the exact condition for M-1 |
| MetricsHistory.GapsUndercountExample | src/graphql/metrics-history.ts:199-200 | A concrete alignment where `gaps` is M-1 |
| MetricsHistory.OnlyTheFirstBucketCanBeLost | src/graphql/metrics-history.ts:81-104 | A window of at most 24 hours can lose only its first bucket, and only to the bucket of the current time |
| MetricsHistory.LostBucketsAreBounded | src/graphql/metrics-history.ts:81-104 | A window of any length misses at most the buckets by which it exceeds 2880 |
| MetricsHistory.GapsOverAnyWindow | src/graphql/metrics-history.ts:195-201 | For windows of any length `gaps` is at least M-1 and at most M plus the buckets beyond 2880 |
| MetricsHistory.ToolWindowsAreCovered | src/graphql/metrics-history.ts:195-201 | Every window the tool accepts, the clock being read twice: no sampled bucket but the first is overwritten and `gaps` is M or M-1, unless the second reading is over 24 hours past the start; then the general bounds hold |
| MetricsHistory.FoldValues | src/graphql/metrics-history.ts:86-88 | The loop over a sample's values, in whatever order, equals the fold of the whole sample |
| MetricsHistory.MetricRingBuffer.Add | src/graphql/metrics-history.ts:81-90 | Writing one sample in place gives the ring of the specification |
| MetricsHistory.MetricRingBuffer.Record | src/graphql/metrics-history.ts:81-90 | A ring that is the ring of a log becomes the ring of the longer log |
| MetricsHistory.MetricRingBuffer.PointsSince | src/graphql/metrics-history.ts:98-104 | Of a ring that holds a log: one point per sampled bucket from the start on that kept its slot, oldest first, each with the statistics of all its raw samples |
| MetricsHistory.MetricsHistoryRecorder.Start | src/graphql/metrics-history.ts:150-162 | The first start opens one subscription per topic and keeps each one's unsubscribe function; starting again changes nothing |
| MetricsHistory.MetricsHistoryRecorder.Dispose | src/graphql/metrics-history.ts:172-177 | Every subscription ever opened has then been ended exactly once; the buffer keeps its samples |
| MetricsHistory.MetricsHistoryRecorder.WindowOf | src/graphql/metrics-history.ts:195-201 | The window starts the minutes asked for ago, or at the start of the recording when that is later; the points show exactly what the log says from there; `expectedBuckets` is the least positive number of half minutes that covers it, `gaps` what it lacks, within the bounds for windows of any length |
| MetricsRows.MergeIsOneFold | src/tools/metrics/metrics-history.ts:48-66 | Merging points that describe raw samples gives, per series, the same statistics as one fold over the concatenated raw samples |
| MetricsRows.RowsPartitionThePoints | src/tools/metrics/metrics-history.ts:69-76 | The rows are merges of consecutive, covering, non-overlapping groups, all but the last full, at most 24 of them, each starting where its group does, and conserve every series' total count |
| MetricsRows.GroupsCover | src/tools/metrics/metrics-history.ts:72-74 | The groups concatenated are the points, each non-empty and of at most the row size |
| MetricsRows.GroupsAreFull | src/tools/metrics/metrics-history.ts:70-74 | Every group but the last has exactly the row size |
| MetricsRows.GroupsAreFew | src/tools/metrics/metrics-history.ts:70-74 | All groups but one, at the full row size, hold fewer points than there are |
| MetricsRows.RowsAreFinest | src/tools/metrics/metrics-history.ts:70-71 | The rows are as fine as 24 allow: any smaller row size gives more than 24 rows |
| MetricsRows.RowsConserveCount | src/tools/metrics/metrics-history.ts:48-76 | Total count per series is the same before and after folding into rows |
| MetricsRows.RowsDescribeTheLog | src/tools/metrics/metrics-history.ts:48-66 | End to end: a merged row over ring points has the min, max, average and count of every raw value of those buckets |
| MetricsRows.AbsorbPoint | src/tools/metrics/metrics-history.ts:51-59 | The inner loop equals absorbing the whole point, in whatever series order |
| MetricsRows.MergePoints | src/tools/metrics/metrics-history.ts:48-66 | The two loops compute the merged point of the specification |
| MetricsRows.FoldRows | src/tools/metrics/metrics-history.ts:69-76 | The loop computes the rows of the specification |
| RateLimit.LevelGrowsWithTime | src/graphql/rate-limit.ts:80-85 | Between two readings the level never falls and rises by at most rate times time |
| RateLimit.GrantsAreCharged | src/graphql/rate-limit.ts:62-77 | The token count stays in [0, capacity]; a grant costs exactly one token unless the clamp forgives the missing part |
| RateLimit.WaitIsLeast | src/graphql/rate-limit.ts:88-90 | The computed wait is the least whole number of milliseconds after which a whole token is there |
| RateLimit.GrantIff | src/graphql/rate-limit.ts:62-74 | `acquire` grants if and only if a whole token is there, and refuses if and only if none will be there after the longest allowed wait; the wait it reports is the least that would do |
| RateLimit.DefaultsNeverRefuse | src/graphql/rate-limit.ts:62-74 | With the defaults no call is ever refused, and none is told to sleep longer than 112 ms |
| RateLimit.WaitYieldsAFullToken | src/graphql/rate-limit.ts:75-90 | An undisturbed sleeper finds a whole token, so that the clamp does nothing, if and only if it wakes no earlier than told |
| RateLimit.TokenBucket.DoRefill | src/graphql/rate-limit.ts:80-85 | In-place refill gives the refilled bucket of the specification |
| RateLimit.TokenBucket.BeginAcquire | src/graphql/rate-limit.ts:62-74 | `acquire` up to its await: the grant, the wait or the refusal, and the new bucket |
| RateLimit.TokenBucket.FinishAcquire | src/graphql/rate-limit.ts:75-76 | `acquire` after its sleep |
| UnraidClient.Execute | src/graphql/client.ts:123-153 | The attempt loop, by outcomes alone: every request was admitted by the limiter first; a query is sent again exactly after its first two requests, and only when they end in 429, a status of at least 500 or a transport error; a mutation exactly after its first, when that ends in 429; the waits are 1000 ms after a 429, else 250 and 500 ms times the jitter |
| UnraidClient.RetriesAfterIff | src/graphql/client.ts:70-94 | The policy and the error tests retry exactly those outcomes |
| UnraidClient.WaitsByValue | src/graphql/client.ts:139-153 | The delays are those values |
| UnraidClient.AcquireDecides | src/graphql/rate-limit.ts:62-74 | A call is sent at once exactly when a token is there, ends exactly when none will be there within the longest wait, and otherwise sleeps until the first millisecond at which one is |
| UnraidClient.SettleDecides | src/graphql/client.ts:128-153 | In the system of all calls: a settled request is followed by another attempt exactly after those outcomes, after that wait, which is within 125 to 375 ms or 250 to 750 ms unless it is a second |
| UnraidClient.StepCharges | src/graphql/rate-limit.ts:62-85 | At every step of any number of concurrent calls, level plus requests sent grows by no more than the forgiven tokens, at most one per sleeping wake |
| UnraidClient.RequestsInAnyInterval | src/graphql/rate-limit.ts:28-34 | From any reachable moment, requests including retries number at most capacity + rate * time plus the forgiven wakes, of which there is at most one per sleeping wake |
| UnraidClient.NonOverlappingNeverClamps | src/graphql/rate-limit.ts:74-76 | Acquirers that do not overlap never reach the clamp: nothing is forgiven |
| UnraidClient.OverlappingSleepersGetAFreeToken | src/graphql/rate-limit.ts:32-33 | A run of three overlapping calls that sends more than capacity plus refill, by exactly one forgiven token |
| UnraidClient.NonOverlappingRate | src/graphql/rate-limit.ts:62-90 | From any moment of a run of non-overlapping acquirers, requests number at most capacity + rate * time |
| UnraidClient.DefaultsSendAtMost180 | src/graphql/rate-limit.ts:3-10 | With the defaults, any ten seconds of non-overlapping acquirers, at any moment of the process, send at most 180 requests |
| UnraidClient.DefaultsPermit180 | src/graphql/rate-limit.ts:3-10 | A run with the defaults that sends 180 requests in ten seconds, not the 100 the comment aims at |
| UnraidClient.CanSendIff | src/graphql/rate-limit.ts:3-10 | From any moment with nobody asleep, ten seconds of non-overlapping acquirers can send n requests if and only if n is at most 90 more than the whole tokens held then |
| UnraidClient.HundredIsPassedIff | src/graphql/rate-limit.ts:3-10 | So at such a moment of any run, more than the 100 the comment aims at can be sent if and only if the level is at least 11 |
| UnraidClient.ResendsAreBounded | src/graphql/client.ts:70-94 | In every run a query is sent at most three times and a mutation at most twice, and every request but the last ended in an outcome that is sent again |
| UnraidClient.RunKeepsCallsSound | src/graphql/client.ts:123-153 | Over every run each call's attempts, requests and outcomes stay in step with its retry policy |
| SnapshotCache.KeysAreExact | src/graphql/snapshot-cache.ts:130-137 | Two calls share a cache entry if and only if they name the same document object and the same serialized variables |
| SnapshotCache.EveryServeIsRightAndRecent | src/graphql/snapshot-cache.ts:88-105 | Over every run each read gets data fetched for its own document and variables, from the cache only within the TTL of its store time |
| SnapshotCache.ServesAreRight | src/graphql/snapshot-cache.ts:88-105 | The same for every single serve of every run of a fresh executor; and every recorded age is how long the payload had been stored when a read of it was stamped |
| SnapshotCache.EntriesAreTheLastStored | src/graphql/snapshot-cache.ts:95-127 | After any run the entry of a document and variables is the payload of the last fetch for them that settled after the last mutation returned, or none |
| SnapshotCache.CacheHitsIffRecentlyStored | src/graphql/snapshot-cache.ts:95-105 | Over every run: a hot read is served from the cache, and with that payload, if and only if it was stored within the TTL; otherwise it fetches |
| SnapshotCache.StepsStartAndEnd | src/graphql/snapshot-cache.ts:101-127 | A fetch is in flight from its miss until it settles or fails, a mutation from its start until it returns |
| SnapshotCache.WriteIsVisibleIffNoFetchStraddles | src/graphql/snapshot-cache.ts:107-127 | For any write up to the moment a mutation returns: no read started later ever gets older data, if and only if no hot fetch in flight then holds an answer from before that write |
| SnapshotCache.MutationIsVisibleIffNoFetchStraddles | src/graphql/snapshot-cache.ts:107-127 | At any moment a mutation may return, in any run with other writes and mutations about: later reads show its own write, if and only if no hot fetch answered before that write is still unsettled |
| SnapshotCache.StraddlingFetchIsServed | src/graphql/snapshot-cache.ts:101-104 | Whenever such a fetch is in flight, the two steps after which a new read is served its old answer |
| SnapshotCache.StaleReadIsReachable | src/graphql/snapshot-cache.ts:101-127 | A run from a fresh process after which a mutation's own write is not visible to later reads |
| SnapshotCache.CachingExecutor.KeyFor | src/graphql/snapshot-cache.ts:130-137 | A document seen first gets the next id; the key is that id and the variables text |
| SnapshotCache.CachingExecutor.Execute | src/graphql/snapshot-cache.ts:95-101 | A hit returns the stored data, records the serve and stamps its age at the second clock reading; a miss starts a fetch |
| SnapshotCache.CachingExecutor.Store | src/graphql/snapshot-cache.ts:101-104 | A settled fetch stores its own data under its own key, stamped with the store time |
| SnapshotCache.CachingExecutor.StartUncached | src/graphql/snapshot-cache.ts:112-121 | A mutation is in flight from its start; the cache is untouched |
| SnapshotCache.CachingExecutor.AfterUncached | src/graphql/snapshot-cache.ts:120-126 | A mutation, however it ends, clears every entry; other operations clear none |
| HttpSessions.StepConserves | src/transport/http-sessions.ts:126-220 | Every step keeps each connected pair in exactly one of initializing, stored, closed or thrown away, and closes none twice |
| HttpSessions.PairsAreConserved | src/transport/http-sessions.ts:126-220 | Over every run, DELETE racing sweep included, each pair is in exactly one place and closed at most once; the leaked ones are exactly those whose first request threw |
| HttpSessions.NothingLeaksIffNoInitializeThrows | src/transport/http-sessions.ts:174-196 | No pair is ever lost if and only if no initializing `handleRequest` throws |
| HttpSessions.FlagSurvivesIffSingleStream | src/transport/http-sessions.ts:162-171 | Of every record, stored or not: a step keeps "streaming flag = some stream open" if and only if it is not the close of one of several streams |
| HttpSessions.ExemptionSurvivesIff | src/transport/http-sessions.ts:157-171 | A step keeps every stored session with an open stream flagged if and only if it does not close one of several streams of a stored session |
| HttpSessions.OpenStreamsAreExemptIff | src/transport/http-sessions.ts:157-171 | Over whole runs: every stored session with an open stream is exempt from sweep at every moment if and only if no stream of a stored session is ever closed while another of that session is open |
| HttpSessions.ExemptMeansNeverSwept | src/transport/http-sessions.ts:127-133 | Being exempt is exactly that no sweep, whenever it comes, removes a session with an open stream |
| HttpSessions.SweepIsExact | src/transport/http-sessions.ts:127-133 | `sweep` removes exactly the sessions that are neither streaming nor seen in the last 300 s, and closes their pairs |
| HttpSessions.SweepRemovesIffUntouched | src/transport/http-sessions.ts:127-167 | Over every run, from the run alone: a sweep removes a stored session if and only if its start, its last request of any kind and its last stream close are over 300 s ago and no GET has come since its start or last stream close |
| HttpSessions.TouchedIsKept | src/transport/http-sessions.ts:127-167 | Whatever touches a session, no sweep within 300 s removes it |
| HttpSessions.StreamsAreCounted | src/transport/http-sessions.ts:148-171 | A session's open streams are its GETs less their closes |
| HttpSessions.SessionsLeaveIff | src/transport/http-sessions.ts:126-220 | A session leaves the store exactly by a sweep that finds it expired or when a DELETE of it has been handled, and is then closed once |
| HttpSessions.DeletesAreRequested | src/transport/http-sessions.ts:136-154 | A DELETE is being handled exactly when one was received for a stored session and has neither returned nor thrown |
| HttpSessions.SecondStreamExposesTheFirst | src/transport/http-sessions.ts:162-171 | The run in which closing a second stream lets sweep close a session whose first stream is open |
| HttpSessions.SessionStore.OnInitialized | src/transport/http-sessions.ts:183-187 | Initialization moves the pair into the store |
| HttpSessions.SessionStore.CloseUninitialized | src/transport/http-sessions.ts:191-195 | A pair that never initialized is closed |
| HttpSessions.SessionStore.HandleExisting | src/transport/http-sessions.ts:136-151 | Touches the session, marks a GET as streaming, reports an unknown session |
| HttpSessions.SessionStore.OnStreamClose | src/transport/http-sessions.ts:164-167 | Clears the flag and restarts the idle clock |
| HttpSessions.SessionStore.RemoveSession | src/transport/http-sessions.ts:213-220 | Forgets and closes one session; a second removal does nothing |
| HttpSessions.SessionStore.FinishDelete | src/transport/http-sessions.ts:152-154 | The DELETE half after its await |
| HttpSessions.SessionStore.DoSweep | src/transport/http-sessions.ts:127-133 | The loop removes exactly the expired sessions of the specification |
| LiveResources.TopicsNeverCollide | src/resources/live-resources.ts:30-156 | Two different resources never feed the same store topic |
| LiveResources.SubscribableIff | src/resources/live-resources.ts:30-156 | Exactly the six static resources and every log with a readable path can be subscribed to; a log is its own topic and metrics have four |
| LiveResources.SubscribeKeepsInvIff | src/resources/live-resources.ts:241-272 | Subscribing keeps the books if and only if the feed starts every spec or throws before any has started |
| LiveResources.StepKeepsInvIff | src/resources/live-resources.ts:204-272 | A step keeps the books if and only if it does not fail half way into a list and is not the completion of a live subscription |
| LiveResources.BooksAreKeptIff | src/resources/live-resources.ts:204-272 | Over every run of subscribes, unsubscribes, errors of any generation, completions and closes: at every moment the live subscriptions are the disjoint union of the spec lists of the active URIs and each stop has run at most once, if and only if every step is of that kind |
| LiveResources.ListsNeverShare | src/resources/live-resources.ts:241-272 | Whatever the feed does, no subscription is ever in two lists or twice in one, so no stop function is held twice |
| LiveResources.SubscriptionsAreConserved | src/resources/live-resources.ts:204-272 | So with a feed that starts every spec and whose subscriptions do not complete, every run keeps the books |
| LiveResources.ActiveIffSubscribed | src/resources/live-resources.ts:204-272 | Over every run, whatever the feed does: a URI is active if and only if it was subscribed to, the feed accepting every spec, and has since neither been unsubscribed, nor had an error, nor has the server closed |
| LiveResources.StopsRunIffDropped | src/resources/live-resources.ts:212-270 | A stop runs exactly when the URI that lists it stops being active, and then once |
| LiveResources.CloseLeavesNothing | src/resources/live-resources.ts:222-232 | After any run that kept the books nothing survives `onclose`, and nothing is stopped twice by it |
| LiveResources.ErrorReenablesSubscribe | src/resources/live-resources.ts:258-264 | Any error, even a late one of an older generation, takes its URI down so that the next subscribe starts the full list afresh |
| LiveResources.ErrorInsideSubscribeBlocksRevival | src/resources/live-resources.ts:249-271 | An error raised inside `subscribe` leaves a dead entry that blocks every later subscribe |
| LiveResources.CompletionBlocksRevival | src/graphql/subscription-feed.ts:70-88 | A completed subscription, which the feed ignores, leaves its URI active and blocks every later subscribe |
| LiveResources.LiveSubscriptions.StartLiveSubscription | src/resources/live-resources.ts:241-272 | The subscribe step; it threw exactly when the URI is not active afterwards |
| LiveResources.LiveSubscriptions.Unsubscribe | src/resources/live-resources.ts:212-216 | Stops the URI's subscriptions once and forgets it |
| LiveResources.LiveSubscriptions.OnError | src/resources/live-resources.ts:258-264 | Forgets the URI, then stops its survivors |
| LiveResources.LiveSubscriptions.OnClose | src/resources/live-resources.ts:224-230 | The loop runs every stop exactly once and forgets everything; with the books kept nothing stays live |
| LiveStore.MergeDockerStatsSample | src/graphql/live-store.ts:38-58 | The loop keeps exactly the entries at most 30 s old and stamps the incoming container, if it has an id |
| LiveStore.AggregateHoldsUnevictedSamples | src/graphql/live-store.ts:38-58 | For any clock: a container is in the aggregate if and only if no event after its newest sample found that sample too old, and then with that sample |
| LiveStore.AggregateIsTheRecentSamples | src/graphql/live-store.ts:22-58 | Under a clock that never goes back: the aggregate is each container's newest sample restricted to those within 30 s of the final event |
| LiveStore.ClockSetBackLosesARecentSample | src/graphql/live-store.ts:48-52 | A run with a clock set back in which a sample recent at the end is missing |
| LiveStore.LiveSnapshotStore.Set | src/graphql/live-store.ts:87-89 | Replaces one topic's sample and no other |
| LiveStore.LiveSnapshotStore.Get | src/graphql/live-store.ts:97-103 | The sample with its age, or none |
| LiveStore.LiveSnapshotStore.OnDockerStats | src/resources/live-resources.ts:251-255 | The feed callback keeps the stored data the aggregate of all events so far |
| IntelStream.BraceScan.Advance | src/tools/system/gpu-metrics.ts:107-131 | One character updates the scan record as specified |
| IntelStream.ParseIntelObjects | src/tools/system/gpu-metrics.ts:139-148 | The loop parses exactly the sliced texts, in order, dropping those that do not parse |
| IntelStream.ScannerInvertsPrinter | src/tools/system/gpu-metrics.ts:133-148 | For objects of any nesting and layout, with quote- and brace-free gaps, a last object cut anywhere, and string literals that hold no escaped quote, or an even number of them and no brace, exactly the complete objects are sliced, in order |
| IntelStream.ObjectWalk | src/tools/system/gpu-metrics.ts:107-131 | A whole object is one slice at the top level and invisible below it |
| IntelStream.CutObjectIsDropped | src/tools/system/gpu-metrics.ts:133-138 | A cut object is never sliced |
| IntelStream.ScannerIsRightIffNoEscapedQuote | src/tools/system/gpu-metrics.ts:107-114 | The scanner follows an RFC 8259 string reader through every prefix of a text if and only if no string literal in it contains an escaped quote |
| IntelStream.StringModeIsQuoteParity | src/tools/system/gpu-metrics.ts:107-118 | The scan is in string mode after exactly the texts with an odd number of quotes, escaped or not |
| IntelStream.OddObjectIsNeverSliced | src/tools/system/gpu-metrics.ts:107-148 | No slice ends where a text with an odd number of quotes ends that began outside string mode |
| IntelStream.OddlyEscapedObjectIsLost | src/tools/system/gpu-metrics.ts:133-148 | An object whose literals hold an odd number of escaped quotes is never sliced whole, whatever stands before it (with quotes in pairs) and after it |
| IntelStream.ObjectIsSlicedIff | src/tools/system/gpu-metrics.ts:107-148 | Whatever its literals hold, and whatever stands before it (leaving the scan outside strings and objects) and after it, an object is sliced whole if and only if its quotes are even in number, the depth of the braces with an even number of quotes before them ends at zero, and none of these braces but the first opens at depth zero |
| IntelStream.EscapedQuoteLosesTheObject | src/tools/system/gpu-metrics.ts:108-112 | The complete object with one escaped quote of which nothing is sliced |
| Json.EscapingGrowsAtMostSixfold | src/tools/_shared/truncate-output.ts:46-47 | String escaping grows arbitrary text at most sixfold |
| Json.SixfoldIsReached | src/tools/_shared/truncate-output.ts:46-47 | Arbitrary text can reach that: NUL characters grow sixfold (no caller passes any) |
| Json.JsonTextAtMostDoubles | src/tools/_shared/truncate-output.ts:46-47 | JSON text, which has no control unit but the line feed and no lone surrogate, at most doubles; a head of it that cuts a pair in half may take four units more |
| Json.DoublingIsReached | src/tools/_shared/truncate-output.ts:46-47 | A text of quotes and backslashes doubles, and is quotes and backslashes again |
| Json.StringifyIsJsonText | src/tools/_shared/respond.ts:51 | Whatever the strings of a flat object hold, its print is JSON text |
| Json.EscapeForms | src/tools/_shared/truncate-output.ts:63-72 | Which form every code unit takes: seven short escapes, six-unit escapes for other controls and lone surrogates, itself otherwise |
| Json.PairsArePrinted | src/tools/_shared/truncate-output.ts:63-72 | Two surrogates are printed as they stand if and only if they form a pair |
| Json.StringRoundTrip | src/tools/_shared/truncate-output.ts:63-72 | Reading an escaped string by section 7 of RFC 8259 gives it back, whatever its units, lone surrogates included |
| Json.ParseUndoesStringify | src/tools/_shared/truncate-output.ts:63-72 | Parsing the two-space-indented print of any flat object gives its members back |
| Json.StringifyIsBounded | src/tools/_shared/truncate-output.ts:63-72 | The printed size is at most that of the escaped values plus six units per key unit and nine per member |
| TruncateOutput.Envelope | src/tools/_shared/truncate-output.ts:61-69 | Number dropped and head length add up to the input length, and the head is a prefix of the input |
| TruncateOutput.EnvelopeReads | src/tools/_shared/truncate-output.ts:61-72 | The four values a client reads under the four names |
| TruncateOutput.EnvelopeIsBounded | src/tools/_shared/truncate-output.ts:61-73 | The envelope takes at most 801 units beyond the escaped head, for every length a string can have |
| TruncateOutput.TruncateJsonPayload | src/tools/_shared/truncate-output.ts:42-55 | At most 30,000 units for every input; short input unchanged; otherwise an envelope in whose parse a client reads the flag, the head of the input, the number of units missing after it and the hint, with the longest of the tried heads that fits, never under 2,500 units, and for JSON text never under 10,000 |
| TruncateOutput.JsonTextKeepsTenThousand | src/tools/_shared/truncate-output.ts:46-53 | On JSON text the 10,000-unit head always fits, so the loop halves at most once |
| TruncateOutput.BackslashesNeedOneHalving | src/tools/_shared/truncate-output.ts:46-53 | On the long print of a string of backslashes exactly the heads up to 10,000 units fit |
| TruncateOutput.NulTextNeedsTheSmallestHead | src/tools/_shared/truncate-output.ts:48-53 | Arbitrary text can run the loop to its end: of long NUL text, which no caller passes, only the 2,500-unit head fits |
| Redact.Registered | src/tools/_shared/redact.ts:24-26 | Exactly the non-empty given values are registered |
| Redact.SecretValues.RegisterSecretValues | src/tools/_shared/redact.ts:24-26 | Replaces the registered list |
| Redact.SecretValues.ClearSecretValues | src/tools/_shared/redact.ts:29-31 | Registers nothing |
| Redact.SecretValues.RedactConfiguredValues | src/tools/_shared/redact.ts:34-40 | The split-and-join loop is replacement of each secret in turn |
| Strings.SplitThenJoinReplaces | src/tools/_shared/redact.ts:37 | Splitting at a text and joining with a marker is left-to-right, non-overlapping replacement |
| Redact.ReplacementCreatesNothing | src/tools/_shared/redact.ts:34-40 | A replacement neither leaves its own secret nor creates another one, unless that secret can be laid over the marker |
| Redact.CompleteIffNoOverlap | src/tools/_shared/redact.ts:34-40 | A secret is absent from every output, for every text and whatever else is registered, if and only if it cannot be laid over the marker so that they agree |
| Redact.PlainSecretsAreRemoved | src/tools/_shared/redact.ts:34-40 | So for every secret without brackets that is not part of "redacted" |
| Redact.RedactionIsComplete | src/tools/_shared/redact.ts:34-40 | With such secrets registered no output contains any of them, and redacting twice is redacting once |
| Redact.EachHypothesisIsNeeded | src/tools/_shared/redact.ts:37 | A part of "redacted", a secret with `]` and one with `[` each survive their own redaction |
| RedactJson.CommutesIff | src/tools/_shared/respond.ts:57-59 | Redacting the print of a string value is printing the redacted value, for every value, if and only if nothing in the secret is escaped and it agrees with no escape sequence wherever it meets one after its backslash |
| RedactJson.PlainSecretsCommute | src/tools/_shared/respond.ts:57-59 | So for every secret without anything to escape whose first character is none of 0-9, a-f, n, r, t, u |
| RedactJson.EscapedSecretIsNotJustTheMarker | src/tools/_shared/respond.ts:57-59 | If anything in the secret is escaped, the print of the value that is the secret does not become the marker, as the value does |
| RedactJson.ControlSecretsSurvive | src/tools/_shared/respond.ts:57-59 | A secret with a control character is found in the print of no value, so every value that holds it keeps it |
| RedactJson.OneLetterBreaksTheText | src/tools/_shared/respond.ts:56-59 | The secret `n` leaves the backslash of an escaped line feed before the marker, and the text is no JSON any more |
| RedactJson.StructureIsKept | src/tools/_shared/respond.ts:56-59 | For any JSON text and secrets that commute and do not stand between its literals: the redacted text is the print of the same structure with every string, key or value, redacted |
| RedactJson.ValuesAreClean | src/tools/_shared/respond.ts:57-59 | No string of that structure contains a registered secret that cannot be laid over the marker |
| QuoteShell.QuotedIsOneWordIffNulFree | src/tools/_shared/quote-shell.ts:12-14 | The shell reads a quoted value as one word equal to it if and only if it contains no NUL |
| QuoteShell.QuotedListRoundTripIffPassable | src/tools/backup/flash-backup.ts:156 | Quoted values joined by spaces come back as the same list if and only if none contains a NUL |
| QuoteShell.RemoveCommandRoundTrip | src/tools/backup/flash-backup.ts:156 | The prune command passes its options and then every victim as one argument |
| QuoteShell.QuotedPair | src/tools/share/_shared.ts:174-176 | A quoted program and a quoted argument are read as those two words |
| FormEncoding.Utf8RoundTrip | src/tools/share/_shared.ts:125 | UTF-8 decoding undoes encoding for every string |
| FormEncoding.ComponentRoundTrip | src/tools/share/_shared.ts:125 | Percent-decoding (section 2.1 of RFC 3986) and UTF-8 decoding undo `encodeURIComponent` for every well-formed string |
| FormEncoding.BodySplits | src/tools/share/_shared.ts:124-126 | Splitting a form body at its ampersands gives one piece per pair |
| FormEncoding.FormRoundTrip | src/tools/share/_shared.ts:124-126 | Splitting at `&` and `=` and decoding returns the original pairs, in order, for all values |
| ShareCfg.ParseShareCfg | src/tools/share/_shared.ts:102-108 | The cfg is what all pattern matches say, a later entry winning |
| ShareCfg.MatchEntry | src/tools/share/_shared.ts:104 | A match has a word key and a value without a quote, and consumes text |
| ShareCfg.OneEntryPerLine | src/tools/share/_shared.ts:104 | Entries count only at line starts: a text without line ends yields at most one |
| ShareCfg.ParsedIsQuoteFree | src/tools/share/_shared.ts:102-108 | No value read from any text contains a quote |
| ShareCfg.FileRoundTrip | src/tools/share/_shared.ts:97-108 | A written cfg file, comment line included, parses back to its entries |
| Share.ChangedFields | src/tools/share/_shared.ts:111-122 | The loop collects exactly the given settings, each under its own cfg key, named literally |
| Share.RequestedByKey | src/tools/share/_shared.ts:60-67 | Which key each of the six settings is stored under, and that there is no other |
| Share.BuildEditQuery | src/tools/share/_shared.ts:135-146 | The loops build the encoded edit form of the specification |
| Share.BuildSmbQuery | src/tools/share/_shared.ts:156-171 | The encoded SMB form, or none when neither SMB setting is given |
| Share.EditFormCarries | src/tools/share/_shared.ts:135-146 | Read at the other end the edit form carries the names, the command by its spelling, and exactly the ten fields in form order |
| Share.SmbFormCarries | src/tools/share/_shared.ts:156-171 | Likewise the SMB form and its four fields; it is never taken for an edit form |
| Share.FormsRoundTrip | src/tools/share/_shared.ts:124-171 | Both forms decode to the pairs they were built from |
| ShareWrite.NothingUnverifiedIffConfirmed | src/tools/share/_shared.ts:236-240 | `unverifiedKeys` is empty if and only if every requested key reads back with its requested value |
| ShareWrite.SubmitToEmhttpd | src/tools/share/write-flow.ts:73-84 | One command is sent; failure is any non-zero exit |
| ShareWrite.ReadShareCfg | src/tools/share/write-flow.ts:33-39 | One command is sent; the cfg is there exactly on exit 0 |
| ShareWrite.ApplyAndVerify | src/tools/share/write-flow.ts:87-116 | The commands sent are a prefix of edit, SMB if needed, read-back, and the whole list unless a form was rejected; outcome and host state are those of the flow |
| ShareWrite.SuccessIsVerified | src/tools/share/write-flow.ts:87-116 | Against any host: success if and only if every exit was 0 and the read-back confirms every requested key |
| ShareWrite.FailuresSayWhy | src/tools/share/write-flow.ts:73-116 | Against any host: a rejection carries the exit code of the first refused form, an unreadable cfg is a failed read-back, and a mismatch names exactly the requested keys that do not read back |
| ShareWrite.QuotedValuesAreNeverVerified | src/tools/share/write-flow.ts:87-116 | Against any host: a request with a double quote in a value is never reported applied |
| ShareWrite.EmcmdReceivesTheForm | src/tools/share/_shared.ts:174-176 | From command string to host: the shell passes emhttpd the query and it decodes to the form |
| ShareWrite.WriteReachesTheFile | src/tools/share/write-flow.ts:87-116 | Against a storing host, quoting, splitting, decoding and storing compose to storing exactly the two forms' fields in the share's file |
| ShareWrite.StoredValue | src/tools/share/_shared.ts:135-171 | Afterwards a submitted key has its merged value and any other key its old one |
| ShareWrite.RequestedKeysAreStored | src/tools/share/_shared.ts:111-171 | Every requested key is stored with its requested value |
| ShareWrite.KeepsTheRestIff | src/tools/share/_shared.ts:135-171 | Every unrequested key keeps its value if and only if the forms repeat what the cfg says of the unrequested keys on them |
| ShareWrite.FreshReadKeepsTheRest | src/tools/share/_shared.ts:135-171 | So it does when the settings passed in are the ones the host has |
| ShareWrite.VerifiedIffQuoteFree | src/tools/share/write-flow.ts:87-116 | On a storing host, success is reported if and only if no requested value contains a double quote |
| ShareWrite.EditOnStoringHost | src/tools/share/share-edit.ts:20-37 | A whole edit past the host-context refusals (the context read and the pool and name checks of lines 28-31 are left out): each given setting is stored under its key, named literally, every other key and every other share unchanged, success exactly when the file can say so |
| ShareWrite.CreateOnStoringHost | src/tools/share/share-create.ts:40-58 | A whole creation past its refusals (the check for an existing share is the hypothesis; the host-context checks are left out): the new cfg holds the given settings and the literal defaults, and no other share changes |
| ShareWrite.CatCommandText | src/tools/share/write-flow.ts:37 | The read command in full, for every valid name |
| ShareWrite.FindCommandText | src/tools/share/share-delete.ts:34-39 | The find command in full, for every valid name |
| ShareWrite.EmcmdCommandText | src/tools/share/_shared.ts:174-176 | The write command in full, for every query without an apostrophe |
| ShareWrite.ValidNamesStayInTheDirectory | src/tools/share/_shared.ts:215-229 | Valid names have 1 to 40 characters and no slash, and are no dot names |
| ShareDelete.DeleteQueryIsThreePairs | src/tools/share/share-delete.ts:77-82 | Whatever the settings, the cut-down form is the encoding of shareName, shareNameOrig and cmdEditShare alone |
| ShareDelete.TrimIsEmptyIffBlank | src/tools/share/share-delete.ts:34-41 | Trimmed output is empty exactly when `find` printed nothing but white space |
| ShareDelete.TrimCutsBothEnds | src/tools/share/share-delete.ts:40 | Trimming takes white space off both ends and nothing else |
| ShareDelete.FirstEntry | src/tools/share/share-delete.ts:34-41 | One command is sent; its trimmed output is the entry |
| ShareDelete.RunDelete | src/tools/share/share-delete.ts:43-74 | The commands sent are the first n of read, find, delete form, read-back, n fixed by the outcome: no form before the cfg was read and the share seen empty |
| ShareDelete.DeletedIsVerified | src/tools/share/share-delete.ts:43-74 | Against any host: the form is sent if and only if the cfg was readable and `find` printed only white space, whatever its exit code; deletion is reported if and only if the cfg was then gone; each failure carries what was found or the exit code |
| ShareDelete.DataIsSafeIffFindReports | src/tools/share/share-delete.ts:34-51 | No form is ever sent for a share that holds data, if and only if `find` prints something for every configured share that does |
| ShareDelete.SilentFindLosesTheCfg | src/tools/share/share-delete.ts:34-41 | On a storing host a configured share full of data is deleted if and only if its `find` fails |
| ShareDelete.DeleteRemovesOnlyTheCfg | src/tools/share/share-delete.ts:55-62 | On a storing host the delete form removes this share's cfg and nothing else |
| Autostart.ValidationIsExact | src/tools/docker/autostart-set.ts:44-57 | Accepted means distinct known ids; a refusal names exactly the repeated ids, or else exactly the unknown ones |
| Autostart.SnapshotIsStableAndComplete | src/tools/docker/autostart-set.ts:87-94 | The snapshot is a permutation of all containers, ascending with unordered ones last, containers of equal order in their old order, each entry saying what its change asks or what the container had |
| Autostart.EveryContainerHasItsEntry | src/tools/docker/autostart-set.ts:87-94 | With distinct container ids each container has exactly one entry, and it is right |
| Autostart.UnlistedContainersAreUntouched | src/tools/docker/autostart-set.ts:86-94 | Next to resubmitting without changes, only listed ids differ, and no entry moves |
| Autostart.OrdersAreConsistent | src/tools/docker/autostart-set.ts:77-85 | The comparator is a consistent total preorder |
| StableSort.SortIsStable | src/tools/docker/autostart-set.ts:92 | Insertion gives a stable sort for every consistent comparator |
| StableSort.StableSortIsUnique | src/tools/docker/autostart-set.ts:92 | There is only one stable sort, so the engine's algorithm does not matter |

## Left out

- Network and process I/O (fetch, ssh2, graphql-ws, node:http, MCP transports): outcomes are steps or parameters.
- Tool registration, schemas, annotations, prompts, summary texts, generated GraphQL types: wiring and wording.
- Floating point: measurements and tokens are reals, so rounding is not modelled.
- Clocks that go back: the executors' times are non-decreasing; only `LiveStore` treats every clock.
- MetricsHistory.MetricsHistoryRecorder.Start: a feed that throws while it is subscribed to; the three topics' buffers are three copies of the one modelled.
- SshExecutor: the remote command and the connect deadline are environment steps; the per-command timeout ends a call like any other completion.
- HttpSessions: a close that fails half way (transport closed, server not) counts as closed, as the code treats it; the random session id is a parameter.
- LiveResources.ResolveSubscriptions: whether a log path decodes is a parameter.
- IntelStream.ParseIntelObjects: `JSON.parse` of one sliced text is a function parameter; field extraction from the parsed objects is left out.
- TruncateOutput.TruncateJsonPayload: requires the ECMAScript bound on string length; the tail-keeping `truncateOutput` is left out.
- Redact: the key-value and JWT patterns that run after the literal replacement.
- RedactJson: lone surrogates; its strings are sequences of characters.
- Json.StringifyIsJsonText: the print of nested payloads, of which only the flat envelope is modelled; nesting adds brackets, commas and indents, which are JSON text too.
- QuoteShell.Words: the shell's expansions, operators, double quotes and comments are refused, not interpreted.
- ShareWrite.Storing: emhttpd is an idealised host that stores the submitted fields and writes one `key="value"` line each; what the real one validates is not part of this model.
- ShareWrite: pool, disk and reserved-name checks against the host context, and the name validator's messages.
- ShareWrite.CreateOnStoringHost: requires a host without a cfg of the empty name, which no tool can create.
- ShareDelete: `find` itself; the storing host answers only the emhttpd client and `cat`.
- Autostart.BuildEntries: the mutation that submits the snapshot, and the summary built from it.
- Confirmation gates, VM and service validators, severity rollup: wiring around the modelled parts.
