# Tokenomics: admission control and accounting, modelled and proved

Tokenomics is a proxy in front of language-model providers. It admits or rejects requests by token, counts what they
use, and keeps records. This project models the parts of it that carry state, loops or interleavings, and proves what
they keep over every run. `dafny verify dfyconfig.toml` checks all of it.

Code that changes things step by step is modelled by classes and loops, each method proved against a function of the
old state; whole runs and interleavings are sequences of calls or steps over those functions, and the main results are
lemmas about all of them. Every lemma switches automatic induction off, so each proof is the one that is written.

| file | what it models |
|---|---|
| Basics | optional values and byte strings |
| RateWindow, WindowCounter | one rate-limit window of one token: counting, recording, pruning in place |
| RateHistory, RateLimiter | the rate limiter over whole runs, and a reference that never forgets |
| RateBounds | how many admissions any stretch of time can hold |
| RateTokens | what a token limit promises over whole runs |
| RateDecisions | what a call is answered and records, from counter, limits and logs, and from the history alone |
| RateThreshold, RateFixedThreshold, RateFixedEverywhere | for exactly which windows the bounds, and the invisibility of the collector, hold |
| ParallelLimit | the parallel-request counters under every interleaving of requests, clock and collector |
| SessionUsage, Budget | the input budget: reserve, commit, give back, and outputs added outside the mutex |
| BudgetProgress | that a reservation that fits is granted, and every request finishes |
| Retry | the retry and fallback loops |
| SseCapture | the response writer that parses server-sent events as they pass |
| MapSums, StreamUsage, StreamMeaning | the output count of a stream, and what it means in terms of the lines |
| Utf8, Sanitizer | UTF-8 (sections 3 and 4 of RFC 3629), and making memory entries readable |
| Rotation, RotatingWriter | memory files with size-based rotation |
| RotationSeconds, RotationSizes | exactly when nothing is lost, and exactly when file sizes are bounded |
| RotationMeaning | what each operation of the writer leaves behind, file by file |
| TokenStore, BoltStore, StoreRaces | the token database and its cache, one operation at a time and interleaved |
| Sync | the additive sync from a remote server |
| Ledger, LedgerMeaning | session summaries and their aggregation, and what their counters count |
| Webhook | the bounded event queue, its worker, and Close |

## What turned out not to hold

Each of these has a lemma that gives a failing run, beside the exact condition under which the code does what its
comments say.

- A sliding window longer than a day (plus one nanosecond) can admit more than its limit: the collector drops the log
  of a token that was idle for a day (`RateThreshold.OverrunAdmitted`, `RateThreshold.SlidingBoundThreshold`).
- A fixed window of N per d can admit more than 2N within d from a day and three nanoseconds on, whatever N is: another
  rule can reject the call that starts a window, which then admits N calls at its end
  (`RateFixedEverywhere.BlockedStart`, `RateFixedEverywhere.FixedBoundEverywhere`). For a token with no other limit it
  takes two days and three nanoseconds if N is one or two, and a day and three nanoseconds if N is three or more
  (`RateFixedThreshold.TwoRestarts`, `RateFixedThreshold.EndAndRestart`, `RateFixedThreshold.FixedBoundThreshold`).
- Tokens recorded late are forgotten if their window, sliding or fixed, and the delay together exceed a day and a
  nanosecond (`RateThreshold.LateTokensDiffer`, `RateThreshold.TokenLagThreshold`).
- A request that sits for more than a day between looking up its bucket and raising the counter raises the counter of a
  bucket that is no longer in use (`ParallelLimit.CounterLost`, `ParallelLimit.ExactWithinADay`).
- `max_parallel` is overrun by up to k - 1 if k requests sit between the check and the counter, and that many is
  reached (`ParallelLimit.CrowdBoundReached`, `ParallelLimit.CrowdBound`).
- A retryable status reaches the client early if an earlier model has the same name as the last one
  (`Retry.EarlyDelivery`, `Retry.RetryableDeliveredLast`).
- The first write alone decides whether a response is parsed, even an empty one
  (`SseCapture.EmptyFirstWrite`, `SseCapture.FaithfulExactlyWhenShown`).
- A usage report without an id that is repeated after the stream's id became known is counted again
  (`StreamUsage.FiledTwice`, `StreamUsage.LaterRepeatAdds`).
- Two rotations of one file within a second overwrite an archive (`Rotation.SameSecondLoses`); nothing is lost on any
  run exactly if no two appends but the first share a second (`Rotation.LosslessExactly`,
  `RotationSeconds.LosslessTimings`).
- An append that straddles midnight looks the limit up for one file and writes to another, so that a file outgrows the
  limit (`RotationSizes.MidnightOutgrows`). One append is safe exactly if three of its four readings of the date give
  one file, whole runs exactly if all four do (`RotationSizes.StepBoundExactly`, `RotationSizes.SizeBoundExactly`).
- A reload that overlaps another can install an older snapshot for good, so that a deleted token is accepted
  (`StoreRaces.DeletedTokenAccepted`, `StoreRaces.ReloadsMustNotOverlap`).
- A second sync never settles at zero while a token without a remote expiry has a local one
  (`Sync.CountNeverSettles`).
- An event accepted after the worker has looked for the last time is never delivered
  (`Webhook.AcceptedNeverDelivered`, `Webhook.DeliveredExactly`).

## Model

| member | source | states |
|---|---|---|
| WindowCounters.WindowCounter.CountRequests | internal/proxy/ratelimit.go:207-212 | the count of a window at an instant, sliding or fixed, and the window as it leaves it: only a fixed window that is over changes |
| WindowCounters.WindowCounter.CountSlidingTokens | internal/proxy/ratelimit.go:232-241 | the sum over exactly the log entries strictly after the cutoff |
| WindowCounters.WindowCounter.CountFixedRequests | internal/proxy/ratelimit.go:243-250 | a fixed window that is over starts again with both counts at zero |
| WindowCounters.WindowCounter.AddRequest | internal/proxy/ratelimit.go:261-276 | the loop that compacts the log in place leaves the recent entries in order and nothing else |
| WindowCounters.WindowCounter.AddTokens | internal/proxy/ratelimit.go:278-298 | the same for token entries; a fixed window may start again first |
| RateWindow.RecentTwice | internal/proxy/ratelimit.go:221-230 | pruning at an earlier cutoff is invisible to every later count |
| RateWindow.AlikeLater | internal/proxy/ratelimit.go:243-298 | two windows no count can tell apart now can be told apart at no later time |
| RateWindow.AllAlikeAllow | internal/proxy/ratelimit.go:136-156 | over all rules of a token, pruned and full logs decide alike, stop at the same failing rule, and stay alike |
| RateLimiters.RateLimiter.CollectStale | internal/proxy/ratelimit.go:96-112 | at most once a minute exactly the idle buckets not seen for a day are dropped; the others are the same objects |
| RateLimiters.RateLimiter.GetBucket | internal/proxy/ratelimit.go:68-94 | the token's own bucket, new or as it was, marked as seen; its parallel counter survives unless it was collected |
| RateLimiters.RateLimiter.Allow | internal/proxy/ratelimit.go:116-159 | answers yes exactly if there is no configuration, or the token's counter is below a positive max_parallel and the requests and tokens each rule's window has logged are below its limits; and updates every window as one step of the run model |
| RateLimiters.RateLimiter.RecordTokens | internal/proxy/ratelimit.go:162-181 | records for every rule that limits tokens, and creates no bucket |
| RateLimiters.RateLimiter.Acquire | internal/proxy/ratelimit.go:184-190 | raises the counter of the token's bucket by one, and changes no window and no counter of another token but for what the collector drops |
| RateLimiters.RateLimiter.Release | internal/proxy/ratelimit.go:193-205 | lowers it by one if there is a bucket, and changes no window, no time stamp and no other counter |
| RateHistory.StaleIsFresh | internal/proxy/ratelimit.go:103-111 | a window of a bucket not seen for over a day cannot be told from a new one, if it is short enough |
| RateHistory.PruningAndCollectionInvisible | internal/proxy/ratelimit.go:68-181 | over every run with a nondecreasing clock, pruning and collecting change no decision about a token whose request windows are at most a day and a nanosecond, and whose token windows are with the lag of recording; other tokens may have any rules |
| RateDecisions.AllowedExactly | internal/proxy/ratelimit.go:116-159 | the same in every state, and so at every point of every run, with the collector's minute and day written out |
| RateDecisions.CrowdRefused | internal/proxy/ratelimit.go:123-129 | over every run a call whose counter reads a positive max_parallel or more is refused, whatever the rules |
| RateDecisions.HistoryDecides | internal/proxy/ratelimit.go:68-181 | over every run a request of a token with sliding rules of at most a day is let through exactly if the counter is below max_parallel and, for each rule, fewer than N requests were let through and fewer than N tokens recorded in the last d of the whole history |
| RateDecisions.RecordsExactly | internal/proxy/ratelimit.go:152-156 | a call that is let through adds one request under every rule that limits requests, a refused one none under any, and neither adds tokens |
| RateDecisions.TokensExactly | internal/proxy/ratelimit.go:162-181 | recorded tokens are added under every rule that limits tokens if there is a bucket, and nowhere else |
| RateDecisions.KnownExactly | internal/proxy/ratelimit.go:170-173 | tokens are kept of a token with rules exactly from its first look-up on |
| RateBounds.SlidingWindowBound | internal/proxy/ratelimit.go:116-159 | under a sliding rule of N per d, d at most a day and a nanosecond, no interval (t, t + d] of any run holds more than N admissions, whatever the other rules of the token and other tokens are |
| RateBounds.FixedWindowBound | internal/proxy/ratelimit.go:243-264 | under a fixed rule of N per d, d at most a day and two nanoseconds, no interval of length d holds more than 2N, whatever made windows start again and whatever other rules there are |
| RateBounds.FixedStartsApart | internal/proxy/ratelimit.go:96-112 | over every stretch of every run the start of a fixed window of any length stays or moves by at least its length, unless the bucket was collected in between after a day without a look-up |
| RateBounds.FixedWindowsCount | internal/proxy/ratelimit.go:243-264 | over every run a fixed window of any length that is not over has counted exactly the admissions since its start, at most N |
| RateTokens.TokenBound | internal/proxy/ratelimit.go:143-148 | in every run a request let through under a rule of N tokens per d found fewer than N tokens recorded, collections included: within d for a sliding rule (d and the lag of recording at most a day and a nanosecond together), since its window's start for a fixed one of any length |
| RateTokens.TokenRun | internal/proxy/ratelimit.go:278-298 | and after every call a sliding log has all recorded tokens that still count, and a fixed window that is over starts after all of them, one that is not has counted exactly those since its start |
| RateThreshold.SlidingBoundThreshold | internal/proxy/ratelimit.go:103-111 | the sliding bound holds on every run if and only if the window is at most a day and a nanosecond |
| RateThreshold.OverrunAdmitted | internal/proxy/ratelimit.go:103-111 | N calls, a pause just over a day, and one more call: all are admitted |
| RateThreshold.TokenLagThreshold | internal/proxy/ratelimit.go:162-181 | for a token whose only limit is one token rule, sliding or fixed: with tokens recorded within a lag of the look-up, whatever the lag, collecting changes no decision in any run if and only if the token window and the lag together are at most a day and a nanosecond |
| RateThreshold.LateTokensDiffer | internal/proxy/ratelimit.go:103-111 | a run of four calls that forgets tokens the window, sliding or fixed, still covers |
| RateFixedEverywhere.FixedBoundEverywhere | internal/proxy/ratelimit.go:96-159 | over all configurations in which a token has this fixed rule of N per d, whatever N and whatever else they hold, every clocked run stays within 2N per d if and only if d is at most a day and two nanoseconds; the same without max_parallel and raised counters |
| RateFixedEverywhere.BlockedStart | internal/proxy/ratelimit.go:136-149 | a run of a token with a second rule: a rejected call starts a window, which admits a call at its end, the next fills at its start and one more a day later, for every N and d from a day and three nanoseconds to two days and two nanoseconds |
| RateFixedThreshold.FixedBoundThreshold | internal/proxy/ratelimit.go:96-112 | for a token with no other limit, a fixed rule of N per d without a token limit keeps every run within 2N per d if and only if d is at most two days and two nanoseconds, for N of one or two, or a day and two nanoseconds, for N of three or more |
| RateFixedThreshold.TwoRestarts | internal/proxy/ratelimit.go:103-111 | three windows a day and a nanosecond apart, for any N |
| RateFixedThreshold.EndAndRestart | internal/proxy/ratelimit.go:243-259 | a window that ends by itself just after an admission, and one that is restarted a day later, for N of three or more |
| ParallelLimit.CounterIsHolders | internal/proxy/ratelimit.go:96-205 | in every interleaving a token's counter is the number of its requests that acquired and have not released, and no bucket with such a request is dropped |
| ParallelLimit.CrowdBound | internal/proxy/ratelimit.go:123-129 | with at most k requests between check and counter, the counter stays at or below max_parallel + k - 1 |
| ParallelLimit.CrowdBoundReached | internal/proxy/ratelimit.go:123-129 | for every limit and k there is a run that reaches that number |
| ParallelLimit.ExactWithinADay | internal/proxy/ratelimit.go:184-190 | the counter is exact in every run if and only if no request sits on a looked-up bucket for more than a day |
| ParallelLimit.CounterLost | internal/proxy/ratelimit.go:96-112 | a run in which a bucket is collected under a request about to raise its counter |
| SessionUsage.MemoryStore.AddUsage | internal/session/memory.go:22-27 | adds to one token's counter, returns the sum, leaves the others |
| SessionUsage.ReserveInputBudget | internal/proxy/handler_chat.go:1271-1288 | grants exactly when usage plus input fits, counts a granted input, and counts nothing when it refuses |
| SessionUsage.ReserveThenRelease | internal/proxy/handler_chat.go:1271-1299 | giving a granted reservation back restores every counter |
| SessionUsage.MemoryStore.Reset | internal/session/memory.go:29-34 | one token's usage is zero again, the others stay |
| SessionUsage.HandleChat | internal/proxy/handler_chat.go:331-354 | through reservation, retry loops and commitment, a budgeted input stays counted if and only if the loops ended with an accepted response |
| Budget.BudgetSafety | internal/proxy/handler_chat.go:331-354 | in every interleaving input reserved or committed stays within the limit, though outputs are added between the read and the add; and usage is always held input plus counted outputs |
| Budget.Settlement | internal/proxy/handler_chat.go:219-221 | a finished request raised and lowered the parallel counter once each; it kept its reservation exactly if its loops ended with an accepted response and gave it back exactly once if not |
| Budget.QuiescentUsage | internal/proxy/handler_chat.go:936-940 | with no request in flight usage is the accepted budgeted inputs plus the counted outputs |
| BudgetProgress.FittingIsGranted | internal/proxy/handler_chat.go:1271-1288 | in every interleaving a reservation is granted exactly if the usage read leaves room for it, and never refused if it fits at the moment of the comparison |
| BudgetProgress.NeverStuck | internal/proxy/handler_chat.go:331-354 | while a request is not done, some request can take a step, waiting for the mutex or not |
| BudgetProgress.RunsEnd | internal/proxy/handler_chat.go:331-354 | a run takes at most twelve steps for each request that arrives, so with the former every request finishes |
| Retry.TryModels | internal/proxy/handler_chat.go:367-376 | call i goes to the model at place i / (1 + max_retries) of the primary followed by the fallbacks; there are at most (1 + fallbacks) * (1 + max_retries) calls, exactly that many if all fail; the loops go on exactly after a failure, or a status on the list that is not the last attempt of a model of the last name; with the retry count and the last status the source reports |
| Retry.StopsAreOutcomes | internal/proxy/handler_chat.go:394-531 | where the loops stop is what configuration and upstream answers say, slot by slot |
| Retry.RetryableExactly | internal/proxy/handler_chat.go:795-809 | a status is retried exactly if retries are configured and it is on the list, which is 429, 500, 502 and 503 if none is given |
| Retry.CallsAreLexicographic | internal/proxy/handler_chat.go:394-397 | the i-th call is the i-th pair of (model, attempt) in lexicographic order, and there are never more than models times attempts |
| Retry.RetryCount | internal/proxy/handler_chat.go:505-531 | calls minus one if a response is accepted; all pairs if none is, which happens only if the very last call failed outright |
| Retry.RetryableDeliveredLast | internal/proxy/handler_chat.go:517-527 | a retryable status reaches the client only after every pair was tried, whatever the upstreams do, if and only if no earlier model has the last one's name |
| Retry.EarlyDelivery | internal/proxy/handler_chat.go:517-517 | with such a name, a retryable status is delivered while pairs are left |
| SseCapture.StreamingResponseWriter.Write | internal/proxy/logging.go:134-161 | one write: mode, capped capture, mark, tally, left-over, and the bytes passed on |
| SseCapture.StreamingResponseWriter.ParseAndAccumulate | internal/proxy/logging.go:164-250 | takes exactly the complete lines out of the buffer, folds them into the tally, and leaves the rest; FoldSays gives the tally's meaning |
| SseCapture.LinesConcat | internal/proxy/logging.go:165-175 | the complete lines and the rest of a stream do not depend on where it was cut |
| SseCapture.CutAtNewlines | internal/proxy/logging.go:167-175 | lines end at newlines and contain no other, and the rest contains none |
| SseCapture.ChunkIndependence | internal/proxy/logging.go:134-250 | once the first write has set streaming mode, text, token counts and left-over are those of the whole stream, however it was cut; lines and left-over are all of it |
| SseCapture.FoldSays | internal/proxy/logging.go:178-249 | over every list of lines, the text gains the pieces of all events in order, and each count becomes the last positive figure in reading order: an event's own, then that of its message_start or message_delta |
| SseCapture.StreamSays | internal/proxy/logging.go:134-250 | for every stream that is parsed, text and counts are those of all its events, 0 if there is no positive figure |
| SseCapture.EventsExactly | internal/proxy/logging.go:178-189 | a line gives an event exactly if, trimmed, it is "data:" followed by something that decodes when trimmed |
| SseCapture.ModeIsFirstWrite | internal/proxy/logging.go:135-138 | the mode is what the first write shows, even an empty one, and never changes |
| SseCapture.FaithfulExactlyWhenShown | internal/proxy/logging.go:135-138 | a stream with something to count is counted right if and only if its first write shows a data line |
| SseCapture.EmptyFirstWrite | internal/proxy/logging.go:135-138 | with an empty first write it never is |
| SseCapture.RawCapture | internal/proxy/logging.go:140-152 | the capture is the first 32 MB; it is marked truncated exactly if the stream is longer or something, perhaps nothing, was written after it was full |
| SseCapture.RawCaptureOfNonEmptyWrites | internal/proxy/logging.go:140-152 | with nonempty writes the mark is exact |
| StreamUsage.HandleStreamingResponse | internal/proxy/handler_chat.go:814-943 | returns the output count, the upstream id, the capped text and its mark, sends on every line, and adds exactly the count to the session |
| StreamUsage.CountResponseTokens | internal/proxy/handler_chat.go:945-992 | returns the reported amount and adds it to the session only if it is positive |
| StreamMeaning.ReportsExactly | internal/proxy/handler_chat.go:904-923 | a report is made exactly if some line's chunk has a usage of that amount, its output_tokens or else its completion_tokens, filed under the chunk's own id or else the stream's so far |
| StreamMeaning.IdExactly | internal/proxy/handler_chat.go:858-865 | the stream's id is the first that is not empty |
| StreamMeaning.CountIsSumOfLargest | internal/proxy/handler_chat.go:929-934 | given a positive report the count is the sum over the messages of the largest amount reported |
| StreamMeaning.CountIsOfDeltas | internal/proxy/handler_chat.go:929-934 | without one it is the count of the deltas |
| StreamMeaning.CompletionCounts | internal/proxy/handler_chat.go:916-921 | a stream whose only positive amount is one line's completion_tokens counts exactly that |
| StreamMeaning.DeltasExactly | internal/proxy/handler_chat.go:868-900 | line by line, the text gains all pieces a chunk carries and the count of deltas what they are worth to the tokenizer |
| StreamMeaning.EchoExactly | internal/proxy/handler_chat.go:838-842 | the client is sent every line, each with a newline |
| StreamUsage.LargestIsMaximum | internal/proxy/handler_chat.go:814-943 | what is kept per message id is reported, and no report of that id is larger |
| StreamUsage.UsageKnown | internal/proxy/handler_chat.go:929-934 | reports replace counted deltas exactly when one of them is positive |
| StreamUsage.OrderAndRepetitionInvisible | internal/proxy/handler_chat.go:814-943 | with labelled reports, one of them positive, any reordering and repetition of the lines leaves the count as it is |
| StreamUsage.ReorderingInvisible | internal/proxy/handler_chat.go:814-943 | with labelled reports any reordering does, also when the count is of deltas |
| StreamUsage.RepeatedLineInvisible | internal/proxy/handler_chat.go:814-943 | a line repeated at once counts once, labelled or not, given a positive report |
| StreamUsage.LaterRepeatAdds | internal/proxy/handler_chat.go:814-943 | a line repeated later adds exactly what its report exceeds the largest of the id it is filed under by then, so nothing if and only if there is no excess |
| StreamUsage.RepeatUnderSameId | internal/proxy/handler_chat.go:814-943 | so nothing if the line has its own id or the stream's id is what it was |
| StreamUsage.FiledTwice | internal/proxy/handler_chat.go:814-943 | a stream of three lines whose count doubles by a repetition |
| Utf8.DecodeIsGrammar | internal/session/memory_writer.go:432-432 | the decoder accepts exactly the characters of the grammar of section 4 of RFC 3629, at their length |
| Utf8.EncodeDecode | internal/session/memory_writer.go:432-442 | a decoded character encodes back to its own bytes |
| Utf8.DecodeEncode | internal/session/memory_writer.go:442-442 | an encoded scalar value decodes to itself whatever follows |
| Sanitizer.NeedsSanitization | internal/session/memory_writer.go:449-461 | true exactly if the text is not readable, and exactly if the rewriting loop would change it |
| Sanitizer.SanitizeMemoryContent | internal/session/memory_writer.go:419-447 | with its fast path and its loop, the sanitized text |
| Sanitizer.SanitizedReadable | internal/session/memory_writer.go:429-446 | well-formed UTF-8 without a disallowed control character, and exactly as long as the input |
| Sanitizer.SanitizedKeeps | internal/session/memory_writer.go:429-446 | a byte changes only to a question mark from 0x80 or more, or to a space from a disallowed control character |
| Sanitizer.BytesExactly | internal/session/memory_writer.go:429-469 | a byte below 0x80 comes out as a space if it is 0 to 8, 11, 12, 14 to 31 or 127, and as itself if not, whatever surrounds it; any other as itself or a question mark |
| Sanitizer.ReadablePartsSurvive | internal/session/memory_writer.go:429-446 | every readable stretch survives in place, whatever stands around it |
| Sanitizer.FixedExactlyWhenReadable | internal/session/memory_writer.go:419-461 | the loop returns its input exactly if that is readable |
| Sanitizer.SanitizeTwice | internal/session/memory_writer.go:419-447 | sanitizing twice is sanitizing once |
| RotatingWriters.RotatingDirMemoryWriter.GetFile | internal/session/memory_writer.go:221-262 | the open file of that name, or a new handle with the file's size after stale handles of the session were closed |
| RotatingWriters.RotatingDirMemoryWriter.Rotate | internal/session/memory_writer.go:265-298 | the live file becomes an archive, over any of that name, perhaps gzipped, and an empty file is opened that does not append |
| RotatingWriters.RotatingDirMemoryWriter.Append | internal/session/memory_writer.go:332-368 | the state after one append with its four readings of the date |
| RotatingWriters.RotatingDirMemoryWriter.Close | internal/session/memory_writer.go:370-384 | closes every file and changes no content |
| Rotation.StepAtEnd | internal/session/memory_writer.go:290-297 | a handle that does not append always stands at the end of its file, so nothing is written over |
| Rotation.LosslessExactly | internal/session/memory_writer.go:221-368 | archives in rotation order and the live file are exactly what was appended if and only if no rotation hit an archive that had something in it |
| Rotation.SecondsApartKeep | internal/session/memory_writer.go:271-280 | appends in different seconds lose nothing, across closing, reopening and restarts |
| RotationSeconds.LosslessTimings | internal/session/memory_writer.go:271-280 | for every choice of the seconds of the appends and of when files are closed: nothing is lost in any run that follows it if and only if no two appends, but for the very first, share a second |
| Rotation.SameSecondLoses | internal/session/memory_writer.go:271-280 | three appends within a second after which archives and live file are not what was appended |
| RotationMeaning.AppendExactly | internal/session/memory_writer.go:332-368 | an append on one date, with all sizes known, adds its entry to the file if that stays within the limit or there is none; if not, what the file held becomes the archive of the stamp and the entry all that the file holds |
| RotationMeaning.ArchivePersists | internal/session/memory_writer.go:265-298 | over every run an archive changes only by a rotation of its own file in its own second |
| RotationMeaning.RotatedExactly | internal/session/memory_writer.go:265-298 | a rotation leaves the live file empty and what it held in the archive of the stamp, plain or packed but not both, and every other file as it was |
| RotationMeaning.OpenedExactly | internal/session/memory_writer.go:221-262 | a file that was open stays open with all others; a new one takes the place of the session's other names |
| RotationMeaning.RotatesExactly | internal/session/memory_writer.go:343-347 | an append rotates exactly if there is a limit and the file of its second reading is open by then and believed to outgrow it with the entry |
| RotationMeaning.ClosedExactly | internal/session/memory_writer.go:370-384 | after Close no file is open and none has changed |
| RotationSizes.SizesKnownExactly | internal/session/memory_writer.go:360-366 | the writer still knows every open file's size after an append if and only if the entry was counted for the file it went to, or was empty |
| RotationSizes.SizeBoundExactly | internal/session/memory_writer.go:343-366 | whatever sessions and readings of the date a program's appends may have, no live file outgrows both the limit and the largest entry in any run if and only if each append's four readings give one file |
| RotationSizes.SizeBound | internal/session/memory_writer.go:343-357 | in every run of appends whose four readings each give one file the writer knows all sizes, and no live file outgrows both the limit and the largest entry |
| RotationSizes.StepBoundExactly | internal/session/memory_writer.go:343-357 | one append, in whatever state all sizes are known, leaves the file it writes within the limit, or within the entry, if and only if the readings that open, check and reopen give one file; the one that counts does not matter |
| RotationSizes.StepBound | internal/session/memory_writer.go:343-357 | an append whose readings that open, check and reopen give one file leaves it within the limit, or within the entry, and no other file changes size |
| RotationSizes.MidnightOutgrows | internal/session/memory_writer.go:343-357 | an append across midnight that takes yesterday's file past both |
| BoltStores.BoltStore.Create | internal/store/bolt.go:122-167 | succeeds exactly if the policy parses, the expiry is empty or parses and the hash is not stored; if not, changes nothing and names the first of the three that fails |
| BoltStores.BoltStore.Update | internal/store/bolt.go:210-270 | succeeds exactly if what is given is good and there is a record of the hash; changes what it is given, "clear" removes the expiry, errors change nothing |
| BoltStores.BoltStore.Delete | internal/store/bolt.go:272-294 | removes a token or reports that there is none |
| BoltStores.BoltStore.Get | internal/store/bolt.go:169-208 | the record as an operator sees it, or why it cannot be read |
| BoltStores.BoltStore.Lookup | internal/store/bolt.go:296-325 | answers from the cache at the first clock reading; drops and reports the entry only if it is expired at the second |
| BoltStores.BoltStore.Reload | internal/store/bolt.go:368-413 | the cache is the projection of every record that reads, decrypts and parses |
| TokenStore.LookupIsCurrent | internal/store/bolt.go:296-413 | over every sequential run with a nondecreasing clock a lookup answers exactly what the database says: stored, readable, unexpired |
| TokenStore.ClockBackward | internal/store/bolt.go:302-311 | a clock that runs backwards makes it false |
| TokenStore.CreatedIsRead | internal/store/bolt.go:96-167 | a created token reads back as given, encrypted or not, and is found exactly until its expiry |
| TokenStore.UpdatedIsRead | internal/store/bolt.go:210-270 | an update reads back as given where it says something and as before where it does not |
| TokenStore.CreatesExactly | internal/store/bolt.go:122-167 | when a creation succeeds, what it stores, and which error it gives if not |
| TokenStore.UpdatesExactly | internal/store/bolt.go:210-270 | when an update succeeds, what it stores field by field, and which error it gives if not |
| TokenStore.RecordKept | internal/store/bolt.go:122-294 | over every run a stored record changes only by an update or a deletion of its own hash |
| TokenStore.ProjectionExactly | internal/store/bolt.go:368-413 | the cache has an entry for exactly those records that can be read and whose policy parses, with the expiry if it parses |
| TokenStore.GetsExactly | internal/store/bolt.go:169-208 | a record is read exactly if it decrypts and its policy parses; nothing is read exactly if there is none |
| TokenStore.AnswersExactly | internal/store/bolt.go:296-325 | a lookup finds an entry exactly if it never expires or expires no earlier than now |
| TokenStore.OthersUntouched | internal/store/bolt.go:122-294 | no change touches another token |
| StoreRaces.LookupsAnswerForAVersion | internal/store/bolt.go:296-413 | in every interleaving a lookup answers what one committed version, the one last installed, says now |
| StoreRaces.ReportedOnce | internal/store/bolt.go:307-320 | each entry ever installed is reported expired at most once |
| StoreRaces.EvictsOnlyExpired | internal/store/bolt.go:307-312 | in every interleaving the entries of the version last installed that are missing from the cache are exactly those reported expired since, and they have expired; the others are as installed |
| StoreRaces.ForwardIsNewest | internal/store/bolt.go:368-413 | if no reload installs an older version over a newer one, then with no reload under way lookups answer for the newest |
| StoreRaces.ReloadsMustNotOverlap | internal/store/bolt.go:368-413 | with at most k reloads between snapshot and installation at a time, every run that ends with none under way answers for the newest database if and only if k is at most one |
| StoreRaces.DeletedTokenAccepted | internal/store/bolt.go:368-413 | a run, quiet at its end, in which a deleted token is accepted |
| Sync.SyncTo | internal/remote/remote.go:333-363 | the store and the count after one pass over the list, errors skipped |
| Sync.ListedMerge | internal/remote/remote.go:341-360 | every listed token ends with the remote policy, and the remote expiry unless that is empty and there was a local one |
| Sync.UnlistedUntouched | internal/remote/remote.go:328-332 | a token not listed keeps its record as it is |
| Sync.CountIsDiffering | internal/remote/remote.go:348-359 | the count is the number of listed tokens that were absent or differed |
| Sync.SyncTwice | internal/remote/remote.go:333-363 | a second pass changes no policy and no expiry |
| Sync.CountNeverSettles | internal/remote/remote.go:354-359 | every later pass counts exactly the tokens whose local expiry an empty remote one cannot take away |
| Ledgers.Ledger.RecordRequest | internal/ledger/ledger.go:185-189 | appends the entry |
| Ledgers.BuildSummary | internal/ledger/ledger.go:277-352 | totals, the three rollups and each token's models, first and last use are what the list of requests says, however it was gone through |
| Ledgers.ModelsExact | internal/ledger/ledger.go:345-347 | a token's models are those of its requests, each once |
| LedgerMeaning.TotalsExactly | internal/ledger/ledger.go:305-336 | the totals count and sum over the requests: an error is a status of 400 or more, a rate limit one of 429, a violation a rule that says fail |
| LedgerMeaning.RollupExactly | internal/ledger/ledger.go:338-348 | a rollup has exactly the keys of its requests, and under each the usage of those requests; tokens keep no details, and no provider has no rollup |
| LedgerMeaning.ModelsInOrder | internal/ledger/ledger.go:345-347 | in the order of their first use |
| LedgerMeaning.FlatExactly | cmd/ledger.go:108-126 | what is aggregated are the requests of all sessions, one after another |
| Ledgers.RollupConcat | internal/ledger/ledger.go:403-416 | the rollup of two lists together is the merge of their rollups |
| Ledgers.TotalsConcat | internal/ledger/ledger.go:305-327 | the totals of two lists together are the sums, in all eleven counters |
| Ledgers.MergeRollups | cmd/ledger.go:316-335 | whatever the order of the keys, the merge of both maps |
| Ledgers.AggregateSessions | cmd/ledger.go:108-126 | the aggregate over the session files is the summary of all their requests together |
| Ledgers.RollupsSumToTotals | internal/ledger/ledger.go:304-348 | rollups by model sum to the totals in seven counters, by token in four, by provider to the requests that name one |
| Webhook.WebhookEmitter.MatchesFilter | internal/events/webhook.go:89-105 | an empty filter, an exact type, or a pattern whose trailing star stands for any ending |
| Webhook.PassesExactly | internal/events/webhook.go:89-105 | an event passes exactly if there is no filter or one of the patterns is its type, or ends in a star and its type starts with what stands before that |
| Webhook.WebhookEmitter.Emit | internal/events/webhook.go:66-77 | a matching event is queued if there is room and dropped if not |
| Webhook.Deliver | internal/events/webhook.go:130-180 | stops at the first status of the two hundreds, or of the four hundreds but 429, or after three attempts, with the pauses of the source |
| Webhook.QueueInOrder | internal/events/webhook.go:66-127 | in every interleaving, what was handed over followed by the queue is what was accepted, in order; at most 256 wait; matching events are accepted or dropped |
| Webhook.DroppedWhenFull | internal/events/webhook.go:71-75 | in every interleaving something was dropped if and only if a matching event came in while 256 waited, so at most 256 matching events lose none |
| Webhook.CloseDelivers | internal/events/webhook.go:80-84 | when Close has returned, every event accepted before it was called was handed over once, in order |
| Webhook.DeliveredExactly | internal/events/webhook.go:114-124 | once the worker is gone, exactly the events accepted before its last look were delivered |
| Webhook.NothingAfterExit | internal/events/webhook.go:108-127 | and nothing is delivered in whatever run follows |
| Webhook.CloseReturns | internal/events/webhook.go:80-127 | once Emits stop, every run is bounded and Close returns |
| Webhook.AcceptedNeverDelivered | internal/events/webhook.go:71-75 | a run in which an accepted event is never delivered |

## Left out

- HTTP plumbing, headers, authentication, compression, the passthrough proxy, TLS, the command line, the daemon, the
  admin pages and configuration loading: operating-system and user-interface code. An upstream call is an arbitrary
  outcome.
- JSON, the tokenizer, encryption, gzip, time parsing and `strings.TrimSpace` are parameters. Only that decrypting undoes
  encrypting, that no cipher text is empty, and that unpacking undoes gzip is assumed, where it is needed.
- The Redis backends: an external service. The budget mutex is one process's, so the budget results are for the
  in-memory store.
- Policy resolution, model and content rules, masking and PII patterns: short case analysis over opaque expressions.
- Usage statistics, OpenClaw analytics, the client registry and the webhook receiver: simpler repeats of the ledger, the
  store and the clock arguments.
- Overflow of 64-bit counters and of `time.Duration` sums: counters are mathematical integers; `time.Time.Sub` does
  saturate in the model.
- RateHistory.PruningAndCollectionInvisible: one clock reading per call, and calls in the order of their readings; in
  the source `Allow` reads the clock in `getBucket` and again before taking the lock, so calls can be recorded slightly
  out of order. The configuration of a token stays as it is, and a rule carries its parsed window. The same holds for
  the bounds and thresholds.
- RateBounds.FixedWindowsCount: assumes, as RateFixedThreshold and, for fixed rules, RateTokens do, a clock at least
  2^63 - 1 nanoseconds after year 1, which any clock since the year 300 is.
- RateLimiters.RateLimiter.Allow: one call at a time; that the bucket it looked up could be collected before it takes the
  lock again is part of ParallelLimit for the counter, not for the windows.
- WindowCounters.WindowCounter.AddRequest: the log is a sequence that is overwritten and cut; the backing array that a
  Go slice shares with its prefix is not modelled.
- ParallelLimit.CounterIsHolders: assumes that a request reads or raises the counter within a day of its look-up, the
  exact condition of ExactWithinADay. The collector's throttle of one sweep a minute is left out there, which only adds
  interleavings.
- StreamUsage.HandleStreamingResponse: takes the lines the scanner delivers; a line beyond the scanner's 32 MB buffer,
  and reports that are not whole numbers, are not modelled.
- Budget.BudgetSafety: a failing usage store is not modelled; the in-memory store cannot fail.
- RotatingWriters.RotatingDirMemoryWriter.Append: takes the formatted entry and assumes no I/O errors. File names are
  modelled by their structure, so that archives of different files never share a name and none is a live file's name.
- TokenStore.LookupIsCurrent: bbolt's own limits on keys, I/O errors, and text that JSON cannot carry unchanged are left
  out.
- Sync.ListedMerge: for a list with unique hashes that the store accepts. The log lines of skipped tokens, which cut the
  hash at eight bytes, are left out.
- Ledgers.BuildSummary: rollups are values in their maps; in the source each is an object reached from one map only.
  Session metadata, git information and communication events are copied, not computed, and left out.
- Webhook.CloseDelivers: Close is called once, as calling it twice panics. The worker hands an event over in the step
  that receives it; what `deliver` does with it is Deliver.
