# Verified models of google-cloud-cpp components

This project models four components of the Google Cloud C++ client libraries and proves
what they promise. `dafny verify dfyconfig.toml` checks all of it.

**Resumable reads from Cloud Bigtable.** `RowReader` streams rows, and when a stream or
the parser fails it narrows the row set to the keys after the last delivered row, lowers
the row limit and asks again. The theorem (`RowReaders.RowReader.ReadAll`) is end to end:
for every table, row set, limit, retry budget, and every behaviour of the service that
carries right rows, the rows delivered are a prefix of the matching rows cut at the limit,
without gap, repetition or reordering, and they are all of them unless the retry policy
refused. Each request continues where the stream before it failed, all rows of every
stream are delivered, and the status is the one the last stream ended with; so an OK status
means all rows, while an error need not mean a missing one
(`RowReaderRuns.ErrorAfterLastRow`). It rests on the interval algebra of row ranges over byte strings
(`RowRanges`, `RowSets`), on the arithmetic of resuming (`RowStreams`), and on the chunk
parser (`ReadRowsParsing`). The parser accepts exactly a language of chunk streams that is
defined without it (`ReadRowsEncoding`): values cut anywhere, repeated names left out, rows
reset; and it takes exactly the encoded rows.

**Futures, promises and continuations.** The shared state of a future is a concurrent
protocol. `SharedStates` and `FutureHandles` are the objects, one method for each critical
section; `FutureSystems` lets any number of threads take such steps in any order, with the
execution of a continuation as separate steps after the lock is released. `FutureObjects`
shows that the objects take exactly these steps. An invariant
(`FutureMeaning`, `FutureLedger`) holds in every reachable state, and `FutureTheorems`
draws the conclusions: functors run once, values are retrieved once unless a `then` threw,
chains and implicit unwrapping give the right outcome in every interleaving, and cascades
end. `FutureHistories` reads results off the actions alone: a promise's future yields what
was set first, and every future is accounted for. `FutureRuns` has the runs in which futures do not do what is documented.

**Firestore field paths.** Splitting, escaping, printing, equality through the printed
form and order through the parts (`FieldPaths`).

**The circular buffer** of the CSV upload example refines a bounded queue, through any
number of wraparounds (`CircularBuffers`).

`ByteStrings` has the order of `std::string`; `Options` and `Sequences` are shared helpers.
Inductions are written out: no lemma uses automatic induction.

## Where the code and its documentation part

- `RowRange::Prefix` is documented to hold the keys starting with a prefix. It holds all
  of them, and others too when the prefix ends in 0xFF after a smaller byte: the range for
  "a\xFF" contains "b" (`PrefixRanges.PrefixRangeCounterexample`). The range is exact if and
  only if the prefix has no such tail (`PrefixRanges.PrefixRangeIsExact`).
- A comment in `future::then_impl` (google/cloud/internal/future_then_impl.h:79-80) says that
  the state has not changed if anything threw. On a satisfied future the functor has run by
  then. If it called `get()` and the future that it returned holds a `broken_promise`, then
  `then` throws and leaves its future valid, and `get()` succeeds a second time, although no
  functor raised anything (`FutureRuns.ValueIsRetrievedTwice`); what it then returns has been
  moved from. The inner promise may even be destroyed by another thread after the call
  (`FutureRuns.ValueIsRetrievedTwiceLate`). In every interleaving, `then` has thrown if and
  only if the functor raised a `future_error`, or returned a future that a functor had kept,
  or one that held a `future_error` before the forwarding continuation could be stored in it;
  what is so at the call stays so, and decides if the returned future is already satisfied or
  has a continuation (`FutureTheorems.ThenThrowsExactly`). A second retrieval
  takes a `then` on the future that has thrown, and if its functors call `get()`, that is
  enough (`FutureTheorems.SecondRetrievalIsExact`).
- A comment in `unwrapping_continuation::execute` says that the returned future cannot
  have a continuation. It can: a functor that returns its own argument. The continuation
  is never removed from the shared state, so attaching the second one throws, and the
  output is never satisfied, whatever happens later
  (`FutureRuns.ReturningTheArgumentBreaksIfAttachedBefore`). It works if and only if the
  future was satisfied when `then` was called (`FutureTheorems.ReturningTheArgumentIsExact`).
- The functor given to `then` is documented to be invoked when the future is ready
  (google/cloud/future_generic.h:88). It is never invoked if it was stored and the promise was
  then destroyed (`FutureRuns.FunctorOfAbandonedPromiseIsNeverCalled`,
  `FutureTheorems.FunctorRunsExactlyOnce`).
- An unwrapping future is documented to become satisfied when both the outer and the inner
  future are (google/cloud/future_generic.h:47-48). It never does if the inner promise was
  destroyed (`FutureRuns.UnwrappingAbandonedIsNeverSatisfied`), or if the inner future holds
  another `future_error`; `FutureTheorems.UnwrappingIsExact` gives the exact condition.
- Two invalid field paths with different parts are equal and ordered at the same time
  (`FieldPaths.InvalidPathsAreNotOrdered`); for all other pairs exactly one of `<`, `==`
  and `>` holds (`FieldPaths.TrichotomyIsExact`).
- The array of characters that `FieldPath::FromString` refuses also holds the NUL that
  terminates the literal.

## Model

| member | source | states |
|---|---|---|
| `ByteStrings.LessIsFirstDifference` | google/cloud/bigtable/row_range.cc:79-84 | strings compare as unsigned byte vectors: the first difference decides, a proper prefix is smaller |
| `ByteStrings.StrictTotalOrder` | google/cloud/bigtable/row_range.cc:79-113 | the comparison behind all range tests is a strict total order |
| `RowRanges.ConsecutiveIsAdjacent` | google/cloud/bigtable/row_range.cc:25-36 | the test for an appended zero byte holds iff a < b with no string between them |
| `RowRanges.ContainsIsExact` | google/cloud/bigtable/row_range.cc:87-113 | membership for all nine kinds of endpoints, by the order of byte strings |
| `RowRanges.IsEmptyIsExact` | google/cloud/bigtable/row_range.cc:40-85 | a range is reported empty iff no byte string is in it, for all nine kinds of endpoints |
| `RowRanges.RowRange.Intersect` | google/cloud/bigtable/row_range.cc:115-187 | the flag is true iff some key is in both ranges, and then the result holds exactly the common keys; for all pairs, empty ones included |
| `RowRanges.Empty` | google/cloud/bigtable/row_range.h:62-70 | no key is in the empty range |
| `RowRanges.RightOpen` | google/cloud/bigtable/row_range.h:85-93 | denotes [begin, end), where an empty end means infinity |
| `RowRanges.OpenRange` | google/cloud/bigtable/row_range.h:105-113 | denotes (begin, end), where an empty end means infinity |
| `PrefixRanges.LastNotFF` | google/cloud/bigtable/internal/prefix_range_end.cc:24-30 | the position found is the last one whose byte is not 0xFF |
| `PrefixRanges.PrefixRangeIsComplete` | google/cloud/bigtable/row_range.h:77-81 | every key with the prefix is in the range |
| `PrefixRanges.PrefixRangeIsExact` | google/cloud/bigtable/internal/prefix_range_end.cc:23-38 | the range holds exactly the prefixed keys iff the prefix has no 0xFF tail after a smaller byte |
| `PrefixRanges.PrefixRangeCounterexample` | google/cloud/bigtable/internal/prefix_range_end.cc:31-37 | the range for "a\xFF" contains "b" |
| `RowSets.RowSet.Intersect` | google/cloud/bigtable/row_set.cc:21-47 | a key is denoted by the result iff the set denotes it and the range contains it, where no entries mean all rows; the result never has no entries |
| `RowSets.RowSet.IsEmpty` | google/cloud/bigtable/row_set.cc:49-61 | true iff the set denotes no key |
| `ReadRowsParsing.ReadRowsParser.HandleChunk` | google/cloud/bigtable/internal/readrowsparser.cc:25-124 | the object goes through the transition `Handle`, whose errors `ReadRowsEncoding.ParserIsExact` fixes |
| `ReadRowsParsing.ReadRowsParser.AbsorbChunk` | google/cloud/bigtable/internal/readrowsparser.cc:44-72 | the fields of the chunk are taken over into the partial cell |
| `ReadRowsParsing.ReadRowsParser.HandleEndOfStream` | google/cloud/bigtable/internal/readrowsparser.cc:126-145 | an unfinished cell or row, or a second call, is an error |
| `ReadRowsParsing.ReadRowsParser.Next` | google/cloud/bigtable/internal/readrowsparser.cc:149-161 | hands out the finished row once |
| `ReadRowsEncoding.ParserInvertsEncoding` | google/cloud/bigtable/internal/readrowsparser.cc:25-161 | for every encoding of rows into chunks, with any cuts, omissions and resets, the parser yields exactly the rows and the stream ends without error |
| `ReadRowsEncoding.AcceptedIsEncoding` | google/cloud/bigtable/internal/readrowsparser.cc:25-145 | whatever stream the parser accepts is an encoding of the rows it delivers: in particular no open cell or row, no key out of order, no family without column |
| `ReadRowsEncoding.ParserIsExact` | google/cloud/bigtable/internal/readrowsparser.cc:25-161 | a stream is accepted and gives these rows iff it encodes them |
| `ReadRowsEncoding.CellRun` | google/cloud/bigtable/internal/readrowsparser.cc:60-99 | the pieces of a cell add up to its value and labels, whatever follows |
| `ReadRowsEncoding.ResetRun` | google/cloud/bigtable/internal/readrowsparser.cc:101-108 | a reset discards a row and leaves the parser between rows, with no names in force |
| `ReadRowsEncoding.RowsAreWellFormed` | google/cloud/bigtable/internal/readrowsparser.cc:38-43 | the rows of any stream, accepted or not, have strictly increasing keys, and their cells have the key of the row |
| `ReadRowsEncoding.RefusalsAreInternal` | google/cloud/bigtable/internal/readrowsparser.cc:27-36 | errors have code 13; a parser refuses chunks while a row waits, and everything after its end |
| `ReadRowsEncoding.RunOfPrefix` | google/cloud/bigtable/internal/readrowsparser.h:29-50 | a stream cut short yields a prefix of the rows of the whole stream |
| `ReadRowsEncoding.ParseOfEncode` | google/cloud/bigtable/internal/readrowsparser.h:29-50 | encoding rows and parsing them is the identity |
| `RetryPolicies.LimitedErrorCountRetryPolicy.OnFailure` | google/cloud/internal/retry_policy.h:40-46 | codes other than 0, 4, 10 and 14 are refused and not counted, these are counted and refused when the count exceeds the maximum |
| `RowStreams.AnswerIsExact` | google/cloud/bigtable/row_reader.cc:159-170 | what a request asks for: the first rows of the table with a denoted key, in key order, all of them or as many as the limit says |
| `RowStreams.MatchingAfter` | google/cloud/bigtable/row_reader.cc:210-214 | the rows after the n-th match are the matches of the narrowed set |
| `RowStreams.ResumedAnswer` | google/cloud/bigtable/row_reader.cc:161-169 | the narrowed set with the lowered limit asks for exactly the rows not delivered yet |
| `RowStreams.NothingLeft` | google/cloud/bigtable/row_reader.cc:216-219 | if the narrowed set denotes no key, everything has been delivered |
| `RowStreams.HonestServerIsLegal` | google/cloud/bigtable/row_reader.cc:175-178 | a server that sends any encoding of the answer in any responses, and breaks off anywhere with an error, satisfies the assumption of the reader |
| `RowReaders.RowReader.constructor` | google/cloud/bigtable/row_reader.cc:100-125 | a new reader has sent no request and delivered nothing |
| `RowReaders.RowReader.MakeRequest` | google/cloud/bigtable/row_reader.cc:152-179 | the request continues after the delivered rows; delivered rows plus requested limit equal the original limit, and a limited read never sends 0 |
| `RowReaders.RowReader.NextChunk` | google/cloud/bigtable/row_reader.cc:181-192 | the parser gets the concatenation of all response chunks, each once and in order, past any number of empty responses |
| `RowReaders.RowReader.PullRow` | google/cloud/bigtable/row_reader.cc:241-265 | yields the next row the stream holds, or the status the stream ends with |
| `RowReaders.RowReader.AdvanceOrFail` | google/cloud/bigtable/row_reader.cc:238-274 | a delivered row extends the prefix of the goal; the end of a stream without error means that all was delivered |
| `RowReaders.RowReader.SkipDeliveredRows` | google/cloud/bigtable/row_reader.cc:210-219 | the row set then denotes the wanted keys after the last delivered row; if it denotes none, all was delivered |
| `RowReaders.RowReader.Recover` | google/cloud/bigtable/row_reader.cc:202-234 | stops only when everything was delivered or the policy refused, and otherwise asks again for the rest |
| `RowReaders.RowReader.Advance` | google/cloud/bigtable/row_reader.cc:194-236 | under any failures delivers the next row of the goal, or stops with the last stream drained and with the status that stream ended with: OK and the whole goal delivered, or an error that means a refusal iff there was more to ask for; a refusal takes a permanent failure or more failed streams than the policy allows; terminates |
| `RowReaders.RowReader.Begin` | google/cloud/bigtable/row_reader.cc:129-144 | sends the first request if needed and reads the first row, or drains the streams as `Advance` does; on a cancelled reader raises, or gives the status CANCELLED and no row |
| `RowReaders.RowReader.Cancel` | google/cloud/bigtable/row_reader.cc:276-289 | marks the reader as cancelled, and drains and closes an open stream |
| `RowReaders.RowReader.ReadAll` | google/cloud/bigtable/internal/rowreaderiterator.cc:24-27 | the rows read are a prefix of the answer, all of it unless refused or cancelled, and always if the status is OK; every stream but the last ended with code 4, 10 or 14 and was drained, the last one too, with `status`; a refusal takes another code at the end of the last stream, or a failure of all streams and more of them than the policy allows, and another code refuses if there is more to ask for; one request if its stream ends OK; an error without refusal means that the limit was reached or no key was left; at most max(m, 0) + 1 requests for a policy with maximum m; every request resumed exactly |
| `RowReaderRuns.ErrorAfterLastRow` | google/cloud/bigtable/row_reader.cc:202-208 | a service, for any policy, after which the one row is delivered, nothing is raised and the status is an error |
| `RowReaderRuns.ReadAfterBreak` | google/cloud/bigtable/rpc_retry_policy.h:33-37 | for every code: after a stream that breaks with 4, 10 or 14 before any row, the row is read with a second request; any other code ends the read at once |
| `RowReaderRuns.ReadAfterCancel` | google/cloud/bigtable/row_reader.cc:129-138 | after `Cancel` no row is read, and the read raises or has status 1 |
| `SharedStates.SharedState.SetException` | google/cloud/internal/future_impl.h:155-159 | satisfies the state once, throws if it is satisfied; hands back the stored continuation with the lock released |
| `SharedStates.SharedState.SetValue` | google/cloud/internal/future_impl.h:355-371 | the same for values |
| `SharedStates.SharedState.NotifyNow` | google/cloud/internal/future_impl.h:209-224 | releases the lock before the continuation is executed |
| `SharedStates.SharedState.AbandonState` | google/cloud/internal/future_impl.h:169-178 | satisfies an unsatisfied state with `broken_promise` and hands back no continuation |
| `SharedStates.SharedState.StoreOrExecute` | google/cloud/internal/future_impl.h:180-194 | throws if there is a continuation, hands it back if the state is ready, stores it otherwise |
| `SharedStates.SharedState.Retrieve` | google/cloud/internal/future_impl.h:241-248 | succeeds once |
| `SharedStates.SharedState.Get` | google/cloud/internal/future_impl.h:328-343 | the stored value or exception |
| `FutureHandles.Future.Get` | google/cloud/future_generic.h:72-77 | invalidates the future and gives the outcome; `no_state` on an invalid future |
| `FutureHandles.Future.AttachContinuation` | google/cloud/internal/future_then_impl.h:76-77 | attaches the continuation and leaves the future as it was |
| `FutureHandles.Future.FinishThen` | google/cloud/internal/future_then_impl.h:79-82 | invalidates the future in exchange for the one of the output |
| `FutureHandles.Promise.constructor` | google/cloud/internal/future_base.h:147 | a promise starts with an unsatisfied shared state |
| `FutureHandles.Promise.GetFuture` | google/cloud/future_generic.h:168-171 | gives a future of the same shared state, once |
| `FutureHandles.Promise.SetResult` | google/cloud/future_generic.h:181-186 | satisfies the shared state; `no_state` without one |
| `FutureHandles.Promise.Destroy` | google/cloud/internal/future_base.h:150-154 | abandons the shared state |
| `FutureHandles.Promise.MoveAssign` | google/cloud/future_generic.h:142-146 | abandons the old state, takes over the other; on itself changes nothing |
| `FutureObjects.Program.NewPromise` | google/cloud/internal/future_base.h:147 | the objects take the step `NewPromise` of the system |
| `FutureObjects.Program.GetFuture` | google/cloud/future_generic.h:168-171 | the objects take the step `GetFuture`, with its exception |
| `FutureObjects.Program.Satisfy` | google/cloud/future_generic.h:181-186 | the objects take the step `Satisfy`: an unsatisfied state then holds the given result, a satisfied one throws and changes nothing; a stored continuation becomes the task of the calling thread |
| `FutureObjects.Program.DestroyPromise` | google/cloud/internal/future_base.h:150-154 | the objects take the step `DestroyPromise`: an unsatisfied state then holds `broken_promise` |
| `FutureObjects.Program.Get` | google/cloud/future_generic.h:72-77 | the objects take the step `Get`; the outcome is that of the system, and for the future of a promise what the first set or destruction in the history says |
| `FutureObjects.Program.Then` | google/cloud/internal/future_then_impl.h:76-82 | the objects take the step `Then`: it throws, returns the new future at once, or becomes a call in progress with the old future still valid |
| `FutureObjects.Program.ExecuteTask` | google/cloud/internal/future_impl.h:644-732 | calling the functor is the step `Resume` of a thread that executes a continuation |
| `FutureObjects.Program.DeliverTask` | google/cloud/internal/future_impl.h:355-371 | satisfying the output is the step `Resume`; a `then` call that ends with it returns the future of its output and gives up the old one |
| `FutureObjects.Program.AttachTask` | google/cloud/internal/future_impl.h:716-731 | attaching to the returned future is the step `Resume`; if it throws, the future that `then` was called on stays valid |
| `FutureSystems.OutcomesAreFinal` | google/cloud/internal/future_impl.h:200-206 | over every run, satisfied states keep their outcome and stored continuations stay |
| `FutureLedger.StepKeepsInvariant` | google/cloud/internal/future_impl.h:555-745 | every step of every thread keeps the invariant: outcomes are explained, outputs have one satisfier, and futures are conserved |
| `FutureLedger.DeliverFindsNotReady` | google/cloud/internal/future_impl.h:357-363 | a continuation never finds its output already satisfied |
| `FutureTheorems.ReachableIsInvariant` | google/cloud/internal/future_impl.h:155-224 | the invariant holds in every state any interleaving reaches |
| `FutureTheorems.FunctorRunsOnceWhenReady` | google/cloud/internal/future_impl.h:180-224 | a functor is called at most once, and never before its input is satisfied |
| `FutureTheorems.FunctorRunsExactlyOnce` | google/cloud/internal/future_impl.h:180-224 | once all threads have returned, it was called exactly once iff its input is satisfied and its promise was not destroyed with the functor stored |
| `FutureLedger.UsableIsKept` | google/cloud/internal/future_impl.h:725-731 | a state with a stored continuation has a usable future only if its functor kept it |
| `FutureTheorems.ValueIsRetrievedAtMostOnce` | google/cloud/future_generic.h:72-77 | unless a `then` on it threw, valid futures, stored or pending continuations and completed gets of a state never exceed one |
| `FutureTheorems.SecondRetrievalNeedsThrow` | google/cloud/internal/future_then_impl.h:76-82 | in every reachable state, more than one consumer takes a satisfied future and a `then` on it that threw, for one of the known reasons |
| `FutureTheorems.ThenThrowsExactly` | google/cloud/internal/future_then_impl.h:76-82 | whatever other threads do, a `then` on a satisfied future has thrown iff its functor raised a `future_error` or returned a future that was kept, or that held a `future_error` with nothing stored in it; if this holds at the call it throws, and if the returned future is satisfied or has a continuation at the call, only then |
| `FutureTheorems.SecondRetrievalIsExact` | google/cloud/internal/future_then_impl.h:76-82 | over every run, a retrieved value can be retrieved again at some moment only if a `then` on it has thrown, and also if, when the functors attached to it call `get()` |
| `FutureTheorems.StoredGetterTakesTheFuture` | google/cloud/internal/future_then_impl.h:76-82 | once a functor that calls `get()` is stored in a state, no run makes a future of that state free for use again |
| `FutureTheorems.LostForEver` | google/cloud/internal/future_impl.h:562-569 | an output whose continuation ended with a `future_error` is not satisfied in any continuation of the run |
| `FutureTheorems.StrandedForEver` | google/cloud/internal/future_impl.h:169-178 | an output whose continuation is stored in an abandoned state is not satisfied in any continuation of the run, and a stored functor is never called |
| `FutureTheorems.ThreadsAreNotBlocked` | google/cloud/internal/future_impl.h:644-656 | inside the library a thread can always go on, except while the future that a functor returns is not there |
| `FutureTheorems.ThenAttachesExactly` | google/cloud/internal/future_impl.h:180-194 | a call of `then` on a valid future attaches its continuation, whatever the state holds, unless a functor had kept that future |
| `FutureTheorems.FutureErrorsAreExact` | google/cloud/internal/future_impl.h:562-569 | the exceptions that are rethrown instead of stored are the `future_error`s, with any code |
| `FutureHistories.PromiseOutcomeIsExact` | google/cloud/internal/future_impl.h:155-206 | over every run, a promise's state is satisfied iff a result was set or the promise destroyed, with what the first of these says |
| `FutureHistories.SatisfiedForEver` | google/cloud/internal/future_impl.h:200-206 | a result set on an unsatisfied promise is what its state holds in every continuation of the run; on a satisfied one nothing changes |
| `FutureHistories.FuturesAreConserved` | google/cloud/internal/future_then_impl.h:76-82 | over every run, the futures free for use, claimed, retrieved, stored, executing, destroyed or wasted are exactly the one that a state has, plus one for each `then` on it that threw; only a `then` that throws or a kept future wastes one |
| `FutureHistories.GetsAreExact` | google/cloud/future_generic.h:72-77 | the completed retrievals are the calls of `get()` by the program and by executed functors |
| `FutureHistories.ThenReturnsItsFuture` | google/cloud/internal/future_then_impl.h:79-82 | in every interleaving, a `then` on a satisfied future that has not thrown has given a future of its output, which is there until something is done with it |
| `FutureTheorems.ResumeLowersRank` | google/cloud/internal/future_impl.h:644-732 | every step of a cascade lowers a rank |
| `FutureTheorems.CascadesEnd` | google/cloud/internal/future_impl.h:644-732 | from any reachable state a cascade has at most `Rank` steps, however it is scheduled |
| `FutureTheorems.ThenIsExact` | google/cloud/internal/future_impl.h:555-745 | once all threads have returned, a future made by `then` is satisfied iff `Fulfilled` holds, and then with the right outcome |
| `FutureTheorems.ChainIsExact` | google/cloud/internal/future_impl.h:555-666 | for chains of any length the last future is satisfied iff the head is, the first functor was not stranded and none raised a `future_error`; its outcome is the composition |
| `FutureTheorems.ExceptionsPropagate` | google/cloud/internal/future_impl.h:562-569 | once all threads have returned, an exception at the head of a chain of any length whose functors let it pass is the outcome of the last future |
| `FutureTheorems.UnwrappingIsExact` | google/cloud/internal/future_impl.h:695-732 | the output gets the exception of the functor, `broken_promise` for an invalid future, or the inner result, the latter iff the inner state is satisfied without `future_error` and was not kept by a functor |
| `FutureTheorems.ResultIsExpected` | google/cloud/internal/future_impl.h:683-745 | if the functor was not stranded and the functors attached to the inner future all call `get()`, whether there is a result and what it is follows from the results of input and inner future alone |
| `FutureTheorems.OrderDoesNotMatter` | google/cloud/internal/future_impl.h:683-745 | two such runs with the same results of input and inner future give the same result, whatever their interleavings, and have one iff the functor raised no `future_error` and the inner future is satisfied without one |
| `FutureTheorems.ReturningTheArgumentIsExact` | google/cloud/internal/future_impl.h:727-731 | a functor that returns its argument works, in every run after the call, iff the future was satisfied when `then` was called |
| `FutureRuns.ReturningTheArgumentBreaksIfAttachedBefore` | google/cloud/internal/future_impl.h:182-184 | a run in which such a functor leaves its output unsatisfied for ever |
| `FutureRuns.FunctorOfAbandonedPromiseIsNeverCalled` | google/cloud/internal/future_impl.h:169-178 | a run after which a future is ready and the functor attached to it is never called, nor its output satisfied |
| `FutureRuns.UnwrappingAbandonedIsNeverSatisfied` | google/cloud/internal/future_impl.h:169-178 | a run after which outer and inner future are ready and the unwrapping future never is |
| `FutureRuns.ValueIsRetrievedTwiceLate` | google/cloud/internal/future_then_impl.h:117-123 | the same when the inner promise is destroyed by another thread after the call, where nothing was wrong at the call |
| `FutureRuns.ValueIsRetrievedTwice` | google/cloud/internal/future_then_impl.h:117-123 | a run that retrieves one value twice although no functor raises anything |
| `FieldPaths.Construct` | google/cloud/firestore/field_path.cc:24-32 | valid iff no part is empty |
| `FieldPaths.Split` | google/cloud/firestore/field_path.cc:149-159 | the loop computes `Pieces` |
| `FieldPaths.PiecesAreExact` | google/cloud/firestore/field_path.cc:149-159 | a text without a dot is one piece, and a dot ends the piece before it, which determines the splitting |
| `FieldPaths.JoinOfPieces` | google/cloud/firestore/field_path.cc:149-159 | joining the pieces with dots gives the string back |
| `FieldPaths.PiecesOfJoin` | google/cloud/firestore/field_path.cc:149-159 | splitting a join of parts without dots gives the parts back |
| `FieldPaths.InvalidCharacters` | google/cloud/firestore/field_path.cc:139-147 | true iff one of the six characters, NUL included, occurs |
| `FieldPaths.InvalidIsExact` | google/cloud/firestore/field_path.cc:139-147 | the characters that are refused are ~ * / [ ] and NUL |
| `FieldPaths.FromString` | google/cloud/firestore/field_path.cc:39-44 | invalid characters give the invalid path, otherwise the path of the pieces |
| `FieldPaths.Append` | google/cloud/firestore/field_path.cc:52-61 | the concatenation of two valid paths, otherwise the invalid path |
| `FieldPaths.AppendString` | google/cloud/firestore/field_path.cc:46-50 | appends the parsed string |
| `FieldPaths.AppendIsParseOfConcat` | google/cloud/firestore/field_path.cc:39-61 | appending b to the path of a is parsing a + "." + b: same validity for all strings, same parts when valid, equal always |
| `FieldPaths.ReplaceAll` | google/cloud/firestore/field_path.cc:161-169 | terminates and equals the left-to-right substitution, for every non-empty search string |
| `FieldPaths.TwoPassesEscape` | google/cloud/firestore/field_path.cc:83-84 | the two escaping passes equal one simultaneous escape of backslash and backtick |
| `FieldPaths.EscapeIsExact` | google/cloud/firestore/field_path.cc:83-84 | a backslash is put before every backslash and backtick, and nothing else changes |
| `FieldPaths.FieldIsExact` | google/cloud/firestore/field_path.cc:64-87 | a part is printed as it is iff it matches [A-Za-z_][A-Za-z_0-9]*, and otherwise escaped between backticks |
| `FieldPaths.PlainTextIsPrinted` | google/cloud/firestore/field_path.cc:63-91 | the path of a text of such names with dots between them is printed as the text |
| `FieldPaths.ToApiRepr` | google/cloud/firestore/field_path.cc:63-91 | prints the fields joined by dots, or nothing for an invalid path |
| `FieldPaths.DecodeOfPrinted` | google/cloud/firestore/field_path.cc:63-91 | a decoder recovers the exact parts from the printed form |
| `FieldPaths.EqualIsExact` | google/cloud/firestore/field_path.cc:93-95 | paths are equal iff their parts are, or both are invalid |
| `FieldPaths.IsBefore` | google/cloud/firestore/field_path.cc:101-120 | the loop decides the dictionary order of the part lists |
| `FieldPaths.BeforeIsFirstDifference` | google/cloud/firestore/field_path.cc:101-120 | a path is before another iff they agree up to a part where the first ends or has the smaller string |
| `FieldPaths.TrichotomyIsExact` | google/cloud/firestore/field_path.cc:93-132 | exactly one of <, == and > holds iff one path is valid or the parts are equal |
| `FieldPaths.ValidPathsAreTotallyOrdered` | google/cloud/firestore/field_path.cc:93-132 | on valid paths the six operators form one total order |
| `FieldPaths.InvalidPathsAreNotOrdered` | google/cloud/firestore/field_path.cc:93-120 | two invalid paths that are equal and ordered |
| `CircularBuffers.StepRefines` | google/cloud/examples/gcs2cbt.cc:41-80 | each operation of the ring waits, changes and returns as the bounded queue does |
| `CircularBuffers.RingRefinesQueue` | google/cloud/examples/gcs2cbt.cc:41-80 | over every sequence of operations, through any wraparounds, ring and queue cannot be told apart |
| `CircularBuffers.BufferDelivers` | google/cloud/examples/gcs2cbt.cc:48-76 | pushed elements are the popped ones followed by the contents, which fit; if no push follows the shutdown, a pop that returned false means all were popped |
| `CircularBuffers.WaitsAreExact` | google/cloud/examples/gcs2cbt.cc:50-67 | a push waits iff the buffer is full, a pop iff it is empty and not shut down |
| `CircularBuffers.PopWaitsExactly` | google/cloud/examples/gcs2cbt.cc:41-63 | after any operations a pop waits iff everything pushed was popped and there was no shutdown, and returns false iff everything was popped |
| `CircularBuffers.GenericCircularBuffer.constructor` | google/cloud/examples/gcs2cbt.cc:38-39 | the buffer starts empty and not shut down |
| `CircularBuffers.GenericCircularBuffer.Push` | google/cloud/examples/gcs2cbt.cc:65-76 | the object takes the step of the ring |
| `CircularBuffers.GenericCircularBuffer.Pop` | google/cloud/examples/gcs2cbt.cc:48-63 | the object takes the step of the ring and returns what it says |
| `CircularBuffers.GenericCircularBuffer.Shutdown` | google/cloud/examples/gcs2cbt.cc:41-46 | the object takes the step of the ring, which sets the flag and nothing else |

## Left out

- The service behind `RowReader` is a parameter: a function from requests and attempt numbers to streams that carry right rows and may break anywhere. Filters are part of the table it serves, and the table does not change during a read.
- The destructor of `RowReader`, contexts, deadlines, metadata and backoff sleeping: I/O and time.
- A reader is used as its iterator does: no call after one that came back without a row.
- The time-based retry policy depends on a clock. Permanent failures may occur at any attempt, so the error-count policy already refuses at any of them.
- The other factories of `RowRange` and its `operator==` and `operator<<` would only add easy members.
- ReadRowsParsing.ReadRowsParser.HandleChunk: error messages are not modelled, and the state after an error is undefined, as the class documents; the two checks of the header come before any field is taken over.
- RowReaders.RowReader.PullRow: the check of the status of `Next` after `HasNext` is left out, because it cannot fail there.
- RowReaders.RowReader.Recover: the lines of `Advance` after a failure are a method of their own.
- FieldPaths.ToApiRepr: requires at least one part, as a comment in the code does; an empty list would make the printer throw. Characters are ASCII letters and digits in the sense of the "C" locale.
- FieldPaths.ReplaceAll: requires a non-empty search string, for which alone the loop ends.
- The weak pointer of a continuation never expires in the model: shared states live as long as anybody may use them, and the `no_state` branch of `execute` is not modelled.
- A future object is not used by others while a `then` call on it is in progress, as for any object without its own locking. While the call executes a functor the object is still valid, so a functor that keeps a reference to it could retrieve the value twice.
- A functor is a function of the outcome of its input, with a flag for whether it calls `get()`; what else it does to promises and futures appears as steps of other threads.
- `future<void>`, `wait`, `wait_for` and `wait_until`: copies of the general case, or timing. Waiting is a step that is taken when the state is ready.
- SharedStates.SharedState.Get: the source moves the value out of the state, so a second `get()` on it returns a moved-from object; the model keeps the value and counts the calls.
- FutureHandles.Future.Get: blocking is modelled by the precondition that the state is ready.
- CircularBuffers.GenericCircularBuffer.Pop: blocking is modelled by the precondition that the wait is over; capacity 0 is excluded, since every push would be out of bounds.
- CSV parsing and the rest of the example, gRPC and HTTP clients, admin classes, storage, IAM, logging and JSON are not part of this model.
