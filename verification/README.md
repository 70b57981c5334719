# Measurement Kit: a verified model

Measurement Kit is a C++ library for network measurements. This project models the parts of
it whose correctness rests on state carried across calls, on interleavings, or on a published
standard, and proves what they are for.

- **UTF-8 codec** (`Rfc3629`, `Utf8Codec`, `CitrusUtf8`, `Utf8Laws`, `Utf8BulkLaws`,
  `EncodingUtf8`, `MachineBits`). `Rfc3629` holds the grammar and the encoding table,
  independent of any decoder. `CitrusUtf8` is the imperative codec over its mutable state and
  buffers, proved against the functions of `Utf8Codec`; the laws connect those functions to
  the grammar, to each other, and to cuts of the input and limits of the output.
  `MachineBits` proves that the masks and shifts over machine words compute them.
- **Thread pool** (`WorkerPool`). Each critical section is a step; the invariant holds over
  every interleaving. The class methods are proved to be those steps.
- **Strided scheduler** (`ParallelOps`). Entering a lane and a callback are the steps, in any
  order; the methods nest callbacks as the source does, and record the run they make.
- **Tasks** (`TaskEngine`). Any number of producers and readers, one semaphore, and the loop
  that drains a task.
- **Settings and event routing** (`JsonValues`, `EventRouter`, `TaskSettings`). `task_run`
  from its arguments to the exact list of events it puts in the queue.
- **Base64, certificate names, percentiles** (`EncodingBase64`, `TlsVerify`, `Percentile`),
  against RFC 4648, RFC 6125 and the order statistics.

Where a function of the source loops over mutable state, the model is a method with a loop,
proved equal to a recursive function; the laws are lemmas about that function.

## Findings

- The bulk round trip loses a trailing cut character
  (src/libmeasurement_kit/common/citrus_utf8.c:240-243). `mk_utf8_mbsnrtowcs` consumes the
  bytes of a character that the input cuts short, so encoding its output does not reproduce
  the bytes consumed. `Utf8BulkLaws.RoundTripOfBytes` gives the exact condition and
  `Utf8BulkLaws.RoundTripLosesCutChar` an input.
- After a completed character the fields `ch` and `lbound` keep their old values
  (src/libmeasurement_kit/common/citrus_utf8.c:135-138, 164), so cut and uncut decoding end
  in states that differ in memory. `CitrusUtf8.ReadTwice` shows for which cuts they do. Cut
  independence is therefore stated on the meaning of the state, which ignores both fields
  while `want` is 0.
- A thread that takes an empty callback leaves without decrementing `active`
  (src/libmeasurement_kit/common/worker.cpp:54-56). Each one costs the pool a place for ever:
  `WorkerPool.QueueHasThread` gives the exact condition for progress and
  `WorkerPool.EmptyCallbackWedgesPool` a run that wedges.
- With a parallelism of 0 tasks are queued and never run
  (src/libmeasurement_kit/common/worker.cpp:34-36), so a concurrency of 0 does not mean that
  all have finished. `WorkerPool.ZeroLimitStrandsTask` is an input, and
  `WorkerPool.ZeroConcurrencyMeansFinished` the exact condition in every run.
- A certificate pattern such as `*.bar.` is accepted
  (src/libmeasurement_kit/ext/tls_verify.c:68-70), although `*.bar` is rejected as too wide:
  the source only looks for a second dot followed by another dot.
  `TlsVerify.TopLevelWildcardMatches` is an input, `TlsVerify.TopLevelWildcardWithDot` the
  family, and `TlsVerify.AllowedLabels` says exactly which accepted domains have two labels.
- When a log level is unknown the failure message lists the levels in small letters
  (src/libmeasurement_kit/engine.cpp:451-459, 1159-1164), but the parser accepts capitals
  only (src/libmeasurement_kit/engine.cpp:164-181): `TaskSettings.AdvertisedLevelsAreRefused`.
  `TaskSettings.LevelDecides` says exactly which levels are accepted.
- With a single element `percentile` is defined for every percent; otherwise its subscripts
  are in bounds exactly for a percent within 0 and 1
  (src/libmeasurement_kit/common/utils.cpp:187-194, `Percentile.InBoundsIff`).

## Model

| member | source | states |
|---|---|---|
| `CitrusUtf8.Utf8State.Mbrtowc` | src/libmeasurement_kit/common/citrus_utf8.c:40-166 | One call decodes at most one character of the automaton from the carried state; a character, an incomplete one and an error leave exactly the promised state; an out-of-range `want` is EINVAL and changes nothing. |
| `CitrusUtf8.Utf8State.Mbsinit` | src/libmeasurement_kit/common/citrus_utf8.c:168-172 | The state is initial exactly when no character is pending. |
| `CitrusUtf8.Utf8State.Mbsnrtowcs` | src/libmeasurement_kit/common/citrus_utf8.c:174-252 | Result, `*src`, final state and every cell of `dst`, from any state: those of the bulk decoder without a fast path while `want` is in range; otherwise only ASCII passes, if `want` is negative, and any other byte is EINVAL. Count mode moves nothing. |
| `CitrusUtf8.Utf8State.CountWide` | src/libmeasurement_kit/common/citrus_utf8.c:184-212 | From any state the counting loop, ASCII fast path included, gives the count and state of a conversion with room for everything. |
| `CitrusUtf8.Utf8State.ConvertWide` | src/libmeasurement_kit/common/citrus_utf8.c:214-251 | From any state the storing loop and its ASCII fast path: stored characters, `*src`, state, and the untouched rest of `dst`. |
| `CitrusUtf8.Utf8State.Wcrtomb` | src/libmeasurement_kit/common/citrus_utf8.c:254-311 | Stores exactly the encoding of a scalar value and no other cell; EINVAL with a pending character, EILSEQ for a surrogate or an out-of-range value, and then nothing is stored. |
| `CitrusUtf8.Utf8State.PutGroups` | src/libmeasurement_kit/common/citrus_utf8.c:298-308 | The loop of 6-bit groups stores the encoding and leaves every other cell alone. |
| `CitrusUtf8.Utf8State.Wcsnrtombs` | src/libmeasurement_kit/common/citrus_utf8.c:313-377 | Result, `*src` and every cell of `dst` are those of the bulk encoder; count mode is the encoder with room for everything. |
| `CitrusUtf8.Utf8State.CountBytes` | src/libmeasurement_kit/common/citrus_utf8.c:329-344 | The counting loop, through a four-byte buffer. |
| `CitrusUtf8.Utf8State.ConvertBytes` | src/libmeasurement_kit/common/citrus_utf8.c:346-376 | The storing loop: whole encodings only, whatever the limit. |
| `CitrusUtf8.Utf8State.PutWide` | src/libmeasurement_kit/common/citrus_utf8.c:356-373 | In place or through the buffer, a character that does not fit leaves `dst` as it was. |
| `CitrusUtf8.PendingIsShort` | src/libmeasurement_kit/common/citrus_utf8.c:71-140 | After a byte at most three more are pending, so the EINVAL guard of mbrtowc is never reached from the initial state. |
| `CitrusUtf8.ReadTwice` | src/libmeasurement_kit/common/citrus_utf8.c:135-138 | A character read in one call and in two ends in states of the same meaning, whose fields are equal iff it was not really cut. |
| `CitrusUtf8.EncodeGroups` | src/libmeasurement_kit/common/citrus_utf8.c:298-310 | The loop of 6-bit groups, least significant last, writes the encoding table of RFC 3629. |
| `MachineBits.MasksAreRanges` | src/libmeasurement_kit/common/citrus_utf8.c:85-123 | The lead and tail masks over machine bytes are the ranges of the model. |
| `MachineBits.LeadBitsAreDifferences` | src/libmeasurement_kit/common/citrus_utf8.c:86-119 | The bits a lead mask leaves have the value the model starts a character with. |
| `MachineBits.AppendBitsIsArithmetic` | src/libmeasurement_kit/common/citrus_utf8.c:131-132 | On every value that can be pending, shift-and-or of a tail is multiplication and addition, without overflow in 32 bits. |
| `MachineBits.FeedWordsIsFeed` | src/libmeasurement_kit/common/citrus_utf8.c:84-164 | On every reachable state one byte does to the 32-bit fields what it does to the model: masks, shifts, bound and range checks together. |
| `MachineBits.ReadWordsIsDecodeOne` | src/libmeasurement_kit/common/citrus_utf8.c:84-165 | From the zeroed state on, decoding over machine words is decoding in the model, for every byte string. |
| `MachineBits.GroupBitsAreDigits` | src/libmeasurement_kit/common/citrus_utf8.c:305-306 | The group expression and the shift are the last base-64 digit with its marker and the quotient. |
| `MachineBits.EncodeWordsIsEncode` | src/libmeasurement_kit/common/citrus_utf8.c:283-310 | The encoder over machine words writes the encoding table of section 3 of RFC 3629, for every scalar value. |
| `MachineBits.CutWordsIsCut` | src/libmeasurement_kit/common/encoding_base64.cpp:46-49 | The masks, shifts and sums of the base64 closure stay within a byte and are the digits of the model. |
| `MachineBits.VerbosityMask` | src/libmeasurement_kit/engine.cpp:1201 | A level passes the mask test iff it is at most 31. |
| `Utf8Laws.PendingDecode` | src/libmeasurement_kit/common/citrus_utf8.c:114-140 | A pending character is completed by exactly `want` tail bytes, fails at the first other byte, and has the value they spell. |
| `Utf8Laws.DecodeOneIsBounded` | src/libmeasurement_kit/common/citrus_utf8.c:84-161 | Whatever is pending has at most as many bits as the bytes read so far carry and wants at most three more; what is complete is at most 0x10FFFF. |
| `Utf8Laws.ReadLead` | src/libmeasurement_kit/common/citrus_utf8.c:71-165 | On a lead byte with its tails the decoder answers by the grammar of section 4 of RFC 3629: the bytes are a UTF8-char iff a character comes out. |
| `Utf8Laws.SpelledInRange` | src/libmeasurement_kit/common/citrus_utf8.c:84-161 | The restricted second bytes of the grammar are equivalent to the lower bound, surrogate and range checks on the value. |
| `Utf8Laws.GrammarIsDecoded` | src/libmeasurement_kit/common/citrus_utf8.c:40-166 | Every UTF8-char is decoded, to its full length. |
| `Utf8Laws.DecodedIsEncoded` | src/libmeasurement_kit/common/citrus_utf8.c:77-83 | Whatever is decoded from the initial state is byte for byte the encoding of a scalar value: only shortest forms are accepted. |
| `Utf8Laws.EncodedIsDecoded` | src/libmeasurement_kit/common/citrus_utf8.c:254-311 | Every scalar value decodes back from its encoding, whatever bytes follow. |
| `Utf8Laws.GrammarIsImage` | src/libmeasurement_kit/common/citrus_utf8.c:77-83 | The grammar is exactly the image of the encoder: the 1-to-1 mapping, both ways. |
| `Utf8BulkLaws.DecodeOneIsCutIndependent` | src/libmeasurement_kit/common/citrus_utf8.c:109-140 | A character is read alike, with the same answer, whether its bytes come in one call or in two with the carried state. |
| `Utf8BulkLaws.RunSplits` | src/libmeasurement_kit/common/citrus_utf8.c:109-140 | The byte automaton on A ++ B is the automaton on A, then on B from the state reached, failing iff one of them does. |
| `Utf8BulkLaws.BulkDecodeIsRun` | src/libmeasurement_kit/common/citrus_utf8.c:219-251 | Given room, on NUL-free input, the bulk decoder with its fast path is the byte automaton: same characters, count, state and failures. |
| `Utf8BulkLaws.BulkDecodeIsCutIndependent` | src/libmeasurement_kit/common/citrus_utf8.c:174-252 | Bulk decoding A then B with the carried state is bulk decoding A ++ B: characters, total count, final state, and failure iff failure. |
| `Utf8BulkLaws.BulkDecodeResumes` | src/libmeasurement_kit/common/citrus_utf8.c:224-251 | A conversion stopped by its output limit and resumed at `*src` is the conversion with the larger limit, errors and NUL included. |
| `Utf8BulkLaws.DecodeCountIsEnough` | src/libmeasurement_kit/common/citrus_utf8.c:184-212 | With the room that count mode answers, a conversion answers the same; with less, it answers its room. |
| `Utf8BulkLaws.DecodeCountFails` | src/libmeasurement_kit/common/citrus_utf8.c:184-239 | When count mode fails, a conversion fails iff it has room left at the invalid byte. |
| `Utf8BulkLaws.RoomTruncates` | src/libmeasurement_kit/common/citrus_utf8.c:224-251 | The output limit only truncates what is stored, and changes the answer only if it is reached first. |
| `Utf8BulkLaws.BulkDecodeStopsAt` | src/libmeasurement_kit/common/citrus_utf8.c:214-251 | The output is the characters whose encodings the input begins with, up to the end, the limit, a NUL, a cut character or a place where the grammar has none; this determines result, output, `*src` and final state. |
| `Utf8BulkLaws.DecodedTextIsConsumed` | src/libmeasurement_kit/common/citrus_utf8.c:174-252 | What a successful bulk decode consumed is the encoding of its result, followed only by one cut character when one stays pending. |
| `Utf8BulkLaws.PendingIff` | src/libmeasurement_kit/common/citrus_utf8.c:240-243 | A character stays pending iff the input ends inside one and the output limit lets the decoder reach it. |
| `Utf8BulkLaws.RoundTripOfBytes` | src/libmeasurement_kit/common/citrus_utf8.c:174-377 | Bulk decode then bulk encode reproduces exactly the bytes consumed iff the input does not end inside a character within reach of the limit; otherwise a proper prefix. |
| `Utf8BulkLaws.RoundTripLosesCutChar` | src/libmeasurement_kit/common/citrus_utf8.c:240-243 | The input on which that round trip fails: a cut U+20AC is consumed and not reproduced. |
| `Utf8BulkLaws.RoundTripOfText` | src/libmeasurement_kit/common/citrus_utf8.c:174-377 | Bulk encode then bulk decode is the identity on every list of non-NUL scalar values. |
| `Utf8BulkLaws.BulkEncodeStopsAt` | src/libmeasurement_kit/common/citrus_utf8.c:346-376 | The output is whole encodings of a prefix and the prefix ends at the end, a NUL, an invalid character, or before one that does not fit; this determines result, output and `*src`. |
| `Utf8BulkLaws.EncodeCountIsEnough` | src/libmeasurement_kit/common/citrus_utf8.c:329-344 | The length count mode answers is what any conversion with that much room answers. |
| `Utf8BulkLaws.EncodeCountFails` | src/libmeasurement_kit/common/citrus_utf8.c:329-344 | Count mode fails iff an invalid character precedes every NUL; a conversion then fails iff it has room left when it gets there. |
| `EncodingUtf8.Utf8Parse` | src/libmeasurement_kit/common/encoding_utf8.cpp:13-41 | NoError iff well-formed NUL-free text; UnexpectedNullByte iff such text and then NUL; Incomplete iff such text and then a cut character; Illegal otherwise. Its two asserts hold. |
| `EncodingUtf8.ClassifyMeaning` | src/libmeasurement_kit/common/encoding_utf8.cpp:13-41 | The byte-at-a-time classification equals the three conditions stated on the grammar alone. |
| `WorkerPool.StepKeepsInv` | src/libmeasurement_kit/common/worker.cpp:27-89 | Every step of every thread and caller keeps the pool invariant: the count of `active`, submission order, work conservation, and one fate per task. |
| `WorkerPool.SubmitKeepsInv` | src/libmeasurement_kit/common/worker.cpp:27-74 | call_in_thread starts a thread below the limit and otherwise only queues, and keeps the invariant. |
| `WorkerPool.DequeueKeepsInv` | src/libmeasurement_kit/common/worker.cpp:40-56 | The critical section of a thread keeps the invariant, and its decrement never goes below zero. |
| `WorkerPool.RunKeepsInv` | src/libmeasurement_kit/common/worker.cpp:27-89 | The invariant holds in every state of every run, with set_parallelism at any time. |
| `WorkerPool.ReachableStates` | src/libmeasurement_kit/common/worker.cpp:27-74 | With fixed parallelism p: `active` is the live threads plus those lost to empty callbacks, is within 0 and p; submitted = dequeued ++ queue; queued tasks outnumber threads about to dequeue only if `active` is p. |
| `WorkerPool.LimitIsReached` | src/libmeasurement_kit/common/worker.cpp:27-74 | For any p callable tasks there is a run in which all of them are being called at once. |
| `WorkerPool.SubmissionsNeedNoThread` | src/libmeasurement_kit/common/worker.cpp:27-36 | Any tasks may be queued up before a thread takes the first. |
| `WorkerPool.LimitTakesEffect` | src/libmeasurement_kit/common/worker.cpp:34-36 | After set_parallelism(p) the next submission starts a thread iff `active` is below p, whatever the limit was. |
| `WorkerPool.QueueHasThread` | src/libmeasurement_kit/common/worker.cpp:34-56 | A non-empty queue has a live thread iff fewer threads were lost to empty callbacks than the limit: the exact condition for progress. |
| `WorkerPool.QueueHasThreadAtLeast` | src/libmeasurement_kit/common/worker.cpp:34-56 | The same, one way, when the parallelism varies, for its least value. |
| `WorkerPool.EmptyCallbackWedgesPool` | src/libmeasurement_kit/common/worker.cpp:54-56 | A concrete run: one empty callback leaves a pool of one thread with a queued task and no step that could dequeue it. |
| `WorkerPool.ZeroConcurrencyMeansFinished` | src/libmeasurement_kit/common/worker.cpp:27-96 | In every run, set_parallelism included: when concurrency() is 0, every task submitted so far has finished iff the last one did not come while the limit was 0 and no thread was counted. |
| `WorkerPool.ZeroConcurrencyAtFixedLimit` | src/libmeasurement_kit/common/worker.cpp:27-96 | With a fixed limit p and concurrency 0: all have finished iff p > 0 or nothing was submitted. |
| `WorkerPool.ZeroLimitStrandsTask` | src/libmeasurement_kit/common/worker.cpp:34-36 | A concrete case: a pool with limit 0 has concurrency 0, a queued task, and no step that could run it. |
| `WorkerPool.StrandedIff` | src/libmeasurement_kit/common/worker.cpp:34-56 | In every run: no thread is counted and tasks are queued iff the last submission met a limit of 0 and no thread. |
| `WorkerPool.ThreadsStop` | src/libmeasurement_kit/common/worker.cpp:40-84 | Without submissions, threads take a bounded number of steps, whatever the interleaving and whatever set_parallelism does meanwhile. |
| `WorkerPool.StoppedMeansDrained` | src/libmeasurement_kit/common/worker.cpp:40-70 | When they can take no more, and fewer threads were lost to empty callbacks than the least limit so far, the queue is empty and every callable task was run to its end. |
| `WorkerPool.Worker.constructor` | src/libmeasurement_kit/common/worker.cpp:23 | The default pool is the initial state with parallelism 3. |
| `WorkerPool.Worker.WithParallelism` | src/libmeasurement_kit/common/worker.cpp:25 | A short is stored as an unsigned short, so a negative one wraps. |
| `WorkerPool.Worker.CallInThread` | src/libmeasurement_kit/common/worker.cpp:27-74 | The method is the submission step of the state machine. |
| `WorkerPool.Worker.TakeNext` | src/libmeasurement_kit/common/worker.cpp:42-53 | The critical section of the thread body is the dequeue step, and hands out the oldest task. |
| `WorkerPool.Worker.ThreadBody` | src/libmeasurement_kit/common/worker.cpp:40-70 | The loop of a thread left alone runs the queued tasks in order up to the first empty callback, finishes each, and gives its place in `active` back iff there is no empty one. |
| `WorkerPool.Worker.ChangeParallelism` | src/libmeasurement_kit/common/worker.cpp:81-84 | Changing the limit is one step, of which LimitTakesEffect says what it decides; threads above the limit are not stopped. |
| `WorkerPool.Worker.Concurrency` | src/libmeasurement_kit/common/worker.cpp:86-89 | The answer is `active`; when it is 0, all tasks have finished iff the queue is empty, which a limit that was never 0 guarantees. |
| `ParallelOps.AtMostParallelismInFlight` | src/libmeasurement_kit/common/parallel.hpp:38-64 | Under the invariant at most one continuation per residue lane, hence at most `parallelism`, is in flight. |
| `ParallelOps.StepKeepsInv` | src/libmeasurement_kit/common/parallel.hpp:14-65 | Entering a lane and a report of any continuation in flight, each with the call it triggers, keep the invariant. |
| `ParallelOps.RunKeepsInv` | src/libmeasurement_kit/common/parallel.hpp:14-65 | The invariant holds in every state of every run: lanes and reports in any order, with any errors. |
| `ParallelOps.InFlightMayReport` | src/libmeasurement_kit/common/parallel.hpp:27 | Whatever is in flight may report next, and its slot of child_errors exists. |
| `ParallelOps.ReachableStates` | src/libmeasurement_kit/common/parallel.hpp:14-65 | In every state of every run: one continuation per lane and at most p in flight, none started twice, no more completed than there are, and the final callback called only if all have, and only once. |
| `ParallelOps.EveryRunEnds` | src/libmeasurement_kit/common/parallel.hpp:14-65 | A run takes at most p + n steps; it can go no further iff all lanes were entered and all have completed; then each was started once and the final callback got, once, a result fixed by the reports and not by their order. |
| `ParallelOps.LanesStartTogether` | src/libmeasurement_kit/common/parallel.hpp:62-64 | The limit is used: with all lanes entered and nothing reported, exactly the first p continuations are in flight. |
| `ParallelOps.LanesNeedNoReport` | src/libmeasurement_kit/common/parallel.hpp:62-64 | Every lane can be entered before any report. |
| `ParallelOps.LaneIsRemainder` | src/libmeasurement_kit/common/parallel.hpp:38 | The lane of a continuation is its index modulo p. |
| `ParallelOps.LaneIsSequential` | src/libmeasurement_kit/common/parallel.hpp:14-41 | A continuation starts only after every earlier one of its lane has reported. |
| `ParallelOps.NothingInFlightMeansDone` | src/libmeasurement_kit/common/parallel.hpp:14-65 | With every lane entered and nothing in flight, each continuation was started exactly once and has reported, and the final callback was called exactly once with the result of the reports. |
| `ParallelOps.FinalMeansAllReported` | src/libmeasurement_kit/common/parallel.hpp:29-32 | The final callback is called only after every continuation reported, and never twice. |
| `ParallelOps.ReportKeepsResult` | src/libmeasurement_kit/common/parallel.hpp:18-27 | The overall error is, after every report, the order-free result of the reports so far: child i is the error of task i, and the code is ParallelOperationError iff some task failed. |
| `ParallelOps.ReportMakesDue` | src/libmeasurement_kit/common/parallel.hpp:18-40 | A report keeps the invariant and makes exactly the next continuation of the lane due. |
| `ParallelOps.LastReport` | src/libmeasurement_kit/common/parallel.hpp:28-32 | After the last report nothing is due, so returning without calling run() skips no continuation. |
| `ParallelOps.Operation.constructor` | src/libmeasurement_kit/common/parallel.hpp:45-54 | The set-up starts with no reports and a parallelism of zero replaced by the input size. |
| `ParallelOps.Operation.Run` | src/libmeasurement_kit/common/parallel.hpp:14-41 | Calls the continuation that is due, once; callbacks made meanwhile by it or by others nest to any depth, and the whole is a run of the step relation. |
| `ParallelOps.Operation.CallBacks` | src/libmeasurement_kit/common/parallel.hpp:18-39 | Any continuations in flight may call back at any point, and the state stays the end of a run. |
| `ParallelOps.Operation.OnReport` | src/libmeasurement_kit/common/parallel.hpp:18-39 | The callback is one report step with all that it triggers; the throw for an unexpected count is not reachable. |
| `ParallelOps.Operation.Launch` | src/libmeasurement_kit/common/parallel.hpp:62-64 | The loop enters every lane, including those beyond the input, with callbacks between any two of them. |
| `ParallelOps.Parallel` | src/libmeasurement_kit/common/parallel.hpp:43-65 | Whenever and in whatever order the continuations call back: a run that never has more than `parallelism` in flight (all of them for 0) and ends with one final callback; its children are the reports, and its code is that of ParallelOperationError iff some report failed. |
| `TaskEngine.StepKeepsInv` | src/libmeasurement_kit/engine.cpp:84-154 | Every step of every task thread and reader keeps the invariant over all tasks. |
| `TaskEngine.RunKeepsInv` | src/libmeasurement_kit/engine.cpp:84-154 | It holds in every state of every run of any number of tasks. |
| `TaskEngine.OneTaskRuns` | src/libmeasurement_kit/engine.cpp:104-115 | At most one task is between acquiring and releasing the semaphore. |
| `TaskEngine.TraceIsWholeBlocks` | src/libmeasurement_kit/engine.cpp:104-118 | Each stream starts with status.queued, and the events of all task_runs are whole per-task blocks in the order of acquisition, of which EveryScheduleIsReachable shows that there may be any number. |
| `TaskEngine.TraceNeverInterleaves` | src/libmeasurement_kit/engine.cpp:111-115 | Between two task_run events of one task there is none of another. |
| `TaskEngine.DoneIsFinal` | src/libmeasurement_kit/engine.cpp:120-126 | is_done() is true only after task_run returned; then it stays true and nothing more is emitted. |
| `TaskEngine.DummyOnlyWhenDone` | src/libmeasurement_kit/engine.cpp:134-154 | In every run task_terminated is returned only when the task is not running and nothing is unread, and only once by a drain loop. |
| `TaskEngine.DrainedMeansEverything` | src/libmeasurement_kit/engine.cpp:120-154 | A reader that left the drain loop received exactly the emitted events in order and at most one dummy. |
| `TaskEngine.StuckMeansAllDone` | src/libmeasurement_kit/engine.cpp:101-154 | No deadlock, in every run: no step but the creation of a task is possible iff every task was released and every reader has read to the end. |
| `TaskEngine.EveryScheduleIsReachable` | src/libmeasurement_kit/engine.cpp:101-117 | Any tasks may run in any order, each with any events: a released semaphore can always be taken again, by any task that waits. |
| `TaskEngine.AnotherMayQueue` | src/libmeasurement_kit/engine.cpp:95-118 | In every reachable state a task can be started and queue up, whatever the others do. |
| `TaskEngine.RunningMayEmit` | src/libmeasurement_kit/engine.cpp:84-93 | In every reachable state the running task may emit any event, whatever is unread. |
| `TaskEngine.UnreadMayBeRead` | src/libmeasurement_kit/engine.cpp:134-145 | In every reachable state an unread event can be read next, whether the task still runs or not. |
| `TaskEngine.TaskImpl.EmitEvent` | src/libmeasurement_kit/engine.cpp:84-93 | emit() appends one event at the end of the queue. |
| `TaskEngine.TaskImpl.IsDone` | src/libmeasurement_kit/engine.cpp:120-126 | At any time: true exactly when the task is not running and nothing is unread. |
| `TaskEngine.TaskImpl.WaitForNextEvent` | src/libmeasurement_kit/engine.cpp:134-154 | For any caller: returns the oldest unread event, and the dummy only when there is none; its assert holds. |
| `TaskEngine.TaskImpl.ThreadStep` | src/libmeasurement_kit/engine.cpp:101-116 | One step of the thread of the task, on its way through queued, running, stopped and released. |
| `TaskEngine.TaskImpl.Advance` | src/libmeasurement_kit/engine.cpp:111-115 | Acquiring, clearing the running flag and releasing happen in this order and emit nothing. |
| `TaskEngine.RunStatic` | include/measurement_kit/nettests/ffi.hpp:270-289 | Against every interleaving the drain loop ends with status.queued and the task_run events in order, then at most one task_terminated. |
| `EventRouter.LevelsRoundTrip` | src/libmeasurement_kit/engine.cpp:164-200 | The two log level tables are inverse to each other, and nothing else has a name. |
| `EventRouter.LogEventNamesLevel` | src/libmeasurement_kit/engine.cpp:202-211 | A queued log event carries its message and a name that the parser of log levels reads back as its level. |
| `EventRouter.KnownEventsAreValid` | src/libmeasurement_kit/engine.cpp:220-246 | The list of event keys and the test of an event key, kept apart in the source, agree. |
| `EventRouter.AdvertisedLevelsAreUnknown` | src/libmeasurement_kit/engine.cpp:451-459 | None of the level names that the failure message advertises is one that the parser knows. |
| `EventRouter.Logger.OnEventEx` | src/libmeasurement_kit/common/logger.cpp:174-178 | A handler is registered under its key and replaces the one before. |
| `EventRouter.Logger.EmitEventEx` | src/libmeasurement_kit/common/logger.cpp:210-232 | One event is queued iff the handler found for the key, or else under "__disabled", is the queueing one. |
| `EventRouter.Logger.Consume` | src/libmeasurement_kit/engine.cpp:1200-1205 | A log line is queued iff "log" is enabled and the level carries no other bits. |
| `EventRouter.Logger.RegisterHandlers` | src/libmeasurement_kit/engine.cpp:1198-1221 | For any enabled set, what reaches the queue is exactly the known, enabled keys other than "log", and log lines iff "log" is enabled. |
| `EventRouter.Logger.Perform` | src/libmeasurement_kit/engine.cpp:1198-1223 | Over a whole sequence of emissions and log lines the queue grows by exactly the routed events, in order. |
| `EventRouter.RoutedAllMeaning` | src/libmeasurement_kit/engine.cpp:1198-1221 | An event is in the stream iff some action emitted just it, with a valid key that is neither disabled nor "log", or logged it with "log" enabled and no other level bits. |
| `EventRouter.RoutedAllAppends` | src/libmeasurement_kit/engine.cpp:1198-1223 | The stream of a sequence of actions is the streams of its parts, in order. |
| `EventRouter.StartAndEnd` | src/libmeasurement_kit/engine.cpp:1223-1249 | Unless disabled, status.started is the first event of a started task and status.end the last. |
| `EventRouter.DisablingFilters` | src/libmeasurement_kit/engine.cpp:1172-1196 | Disabling more events removes those from the stream and changes nothing else. |
| `TaskSettings.TypesOf` | src/libmeasurement_kit/engine.cpp:528-618 | Once shallow validation passes, every known setting that is present has the type its later access needs. |
| `TaskSettings.NoShallowWarnings` | src/libmeasurement_kit/engine.cpp:528-618 | Shallow validation warns iff name is missing or some known setting has the wrong type. |
| `TaskSettings.ValidateKnownSettingsShallow` | src/libmeasurement_kit/engine.cpp:528-618 | True iff name is present and all known settings have their types; emits one warning per fault, in order. |
| `TaskSettings.RemoveUnknownSettingsAndWarn` | src/libmeasurement_kit/engine.cpp:620-647 | Leaves the known settings and emits one warning per unknown one. |
| `TaskSettings.RemovalKeepsKnown` | src/libmeasurement_kit/engine.cpp:620-647 | What is left is exactly the known settings that were present, each with its value. |
| `TaskSettings.OneWarningPerRemoval` | src/libmeasurement_kit/engine.cpp:634-646 | As many warnings as settings removed, one for each of them, and all are warnings. |
| `TaskSettings.ScanOptions` | src/libmeasurement_kit/engine.cpp:683-1075 | Fails iff some option is no string, number or boolean; warns for unmapped and mistyped options up to that one. |
| `TaskSettings.ScanAnnotations` | src/libmeasurement_kit/engine.cpp:1077-1105 | Fails iff some annotation is no string or number. |
| `TaskSettings.CollectStrings` | src/libmeasurement_kit/engine.cpp:1107-1136 | Collects a list of inputs in order, or fails iff an entry is no string. |
| `TaskSettings.MaskEvents` | src/libmeasurement_kit/engine.cpp:1172-1196 | Leaves the known events minus those listed, whatever duplicates and unknown names the list holds; fails iff an entry is no string. |
| `TaskSettings.Configure` | src/libmeasurement_kit/engine.cpp:672-1170 | Succeeds iff the settings pass every check on task name, options, annotations, inputs and log level. |
| `TaskSettings.StartupOnlyWarns` | src/libmeasurement_kit/engine.cpp:651-1196 | Whatever the settings, all that startup emits before its verdict are warnings. |
| `TaskSettings.AcceptsMeaning` | src/libmeasurement_kit/engine.cpp:651-1196 | The condition for a start, written out on the JSON document: each setting with its type, the names, the levels and the entries of every list. |
| `TaskSettings.WellTypedMeaning` | src/libmeasurement_kit/engine.cpp:544-615 | Shallow validation is nine tests of a setting that may be absent. |
| `TaskSettings.LevelDecides` | src/libmeasurement_kit/engine.cpp:1152-1170 | The log_level of accepted settings is one of five names; another of the five keeps them accepted, and any other value makes them refused. |
| `TaskSettings.AdvertisedLevelsAreRefused` | src/libmeasurement_kit/engine.cpp:1155-1165 | Settings with a level that the failure message advertises are refused. |
| `TaskSettings.KnownTasksAreAccepted` | src/libmeasurement_kit/engine.cpp:433-517 | The names that the failure message lists are exactly those that make a nettest. |
| `TaskSettings.StartupEventsMeaning` | src/libmeasurement_kit/engine.cpp:519-526 | A warning is a log event of level WARNING; a failure is a log event of level ERR and then failure.startup with value_error. |
| `TaskSettings.OptionWarningMeaning` | src/libmeasurement_kit/engine.cpp:695-1041 | No warning comes exactly for a mapped option with a value of its type. |
| `TaskSettings.DisabledWarningMeaning` | src/libmeasurement_kit/engine.cpp:1184-1192 | A name in disabled_events is warned of iff it is no event key. |
| `TaskSettings.TaskRun` | src/libmeasurement_kit/engine.cpp:651-1250 | The task starts iff the settings are acceptable by one outside condition; the stream is then warnings and the routed events from status.started to status.end, and otherwise warnings, one ERR log, failure.startup, and nothing after it. |
| `EncodingBase64.TableIsAlphabet` | src/libmeasurement_kit/common/encoding_base64.cpp:38-40 | The lookup table is the alphabet of table 1 of RFC 4648. |
| `EncodingBase64.QuantumIsCut` | src/libmeasurement_kit/common/encoding_base64.cpp:45-53 | The four cut digits are the base-64 digits of the 24-bit group, and pads replace the unused ones. |
| `EncodingBase64.Copy` | src/libmeasurement_kit/common/encoding_base64.cpp:45-53 | The closure appends the quantum of the buffered octets. |
| `EncodingBase64.Base64Encode` | src/libmeasurement_kit/common/encoding_base64.cpp:37-68 | The streaming loop over buffers computes the block definition of section 4 of RFC 4648. |
| `EncodingBase64.TestVectors` | src/libmeasurement_kit/common/encoding_base64.cpp:37-68 | Test vectors of section 10 of RFC 4648, and one with both punctuation symbols. |
| `EncodingBase64.EncodedLength` | src/libmeasurement_kit/common/encoding_base64.cpp:37-68 | The length is 4 * ceil(n / 3). |
| `EncodingBase64.PadsCloseTheText` | src/libmeasurement_kit/common/encoding_base64.cpp:60-65 | A character is a pad iff it is among the last (3 - n mod 3) mod 3. |
| `EncodingBase64.EncodeAppends` | src/libmeasurement_kit/common/encoding_base64.cpp:54-60 | Encodings may be concatenated after a multiple of three octets. |
| `EncodingBase64.EncodeIsDecoded` | src/libmeasurement_kit/common/encoding_base64.cpp:37-68 | A strict decoder recovers the octets; the pad bits are zero (section 3.5). |
| `EncodingBase64.DecodeInvertsEncode` | src/libmeasurement_kit/common/encoding_base64.cpp:37-68 | The strict decoder accepts t as s iff t is the encoding of s: accepted texts and octets are in bijection. |
| `TlsVerify.MatchNameMeaning` | src/libmeasurement_kit/ext/tls_verify.c:36-86 | A name matches iff it is the same but for the case of ASCII letters, or is one non-empty dot-free label followed by the domain of an allowed wildcard, again but for case. |
| `TlsVerify.EqNoCaseMeaning` | src/libmeasurement_kit/ext/tls_verify.c:41 | The comparison overlooks exactly the 32 between the two forms of an ASCII letter, at every index. |
| `TlsVerify.DomainIsAllowed` | src/libmeasurement_kit/ext/tls_verify.c:54-70 | The chain of rejections leaves exactly the domains ".label." and a rest without a leading dot. |
| `TlsVerify.MatchIsCaseBlind` | src/libmeasurement_kit/ext/tls_verify.c:36-86 | Names that differ only in the forms of ASCII letters are interchangeable, on either side. |
| `TlsVerify.MatchKeepsDepth` | src/libmeasurement_kit/ext/tls_verify.c:41-86 | A match never crosses a dot: both names have as many, and at least two for a wildcard. |
| `TlsVerify.MatchKeepsLabels` | src/libmeasurement_kit/ext/tls_verify.c:41-86 | Both names have the same number of non-empty labels; a wildcard match has at least three iff something follows the second dot of its domain. |
| `TlsVerify.AllowedLabels` | src/libmeasurement_kit/ext/tls_verify.c:61-70 | A domain that passes the checks has two non-empty labels iff the character after its second dot is not the terminator. |
| `TlsVerify.TopLevelWildcardIsRejected` | src/libmeasurement_kit/ext/tls_verify.c:64-67 | "*.tld" matches nothing but itself, for every label. |
| `TlsVerify.TopLevelWildcardWithDot` | src/libmeasurement_kit/ext/tls_verify.c:65-70 | "*.tld." matches every name of one more label, for every label: the comment "Reject *.tld" does not cover it. |
| `TlsVerify.TopLevelWildcardMatches` | src/libmeasurement_kit/ext/tls_verify.c:65-70 | A concrete input: "*.bar." matches "foo.bar.". |
| `TlsVerify.CheckSubjectAltName` | src/libmeasurement_kit/ext/tls_verify.c:93-208 | Matches iff some entry matches with no malformed entry of the sought type before it; fails iff some is malformed with no match before; reports whether any DNS or IP entry exists in the whole list despite its early exits. |
| `TlsVerify.ScanComposes` | src/libmeasurement_kit/ext/tls_verify.c:122-204 | On a concatenation the second list counts only if the first decides nothing. |
| `TlsVerify.OtherTypesAreSkipped` | src/libmeasurement_kit/ext/tls_verify.c:128-132 | Entries of another type never change the verdict of the scan. |
| `TlsVerify.CheckCommonName` | src/libmeasurement_kit/ext/tls_verify.c:210-265 | Fails iff the common name holds a NUL; matches an address only exactly and any other name by the wildcard rule. |
| `TlsVerify.CheckName` | src/libmeasurement_kit/ext/tls_verify.c:267-286 | Matched and error, each iff its condition over the certificate. |
| `TlsVerify.HostNameCheck` | src/libmeasurement_kit/ext/tls_verify.c:93-286 | For a host name, match and error each iff a condition on the entries: an IA5 name that matches before any bad one, or, with neither a DNS nor an IP entry, the common name. |
| `TlsVerify.AddressCheck` | src/libmeasurement_kit/ext/tls_verify.c:93-286 | For an address, the same on its exact octets, IPv4 before IPv6, and on the exact text of the common name. |
| `TlsVerify.SubjectIsOnlyAFallback` | src/libmeasurement_kit/ext/tls_verify.c:278-285 | With any DNS or IP entry the subject cannot change the answer (section 6.4.4 of RFC 6125). |
| `TlsVerify.AnswerIsDecided` | src/libmeasurement_kit/ext/tls_verify.c:267-286 | No certificate gives both a match and an error. |
| `TlsVerify.AddressesMatchExactly` | src/libmeasurement_kit/ext/tls_verify.c:198-257 | An address is matched only by its exact octets or its exact text. |
| `Percentile.InBoundsIff` | src/libmeasurement_kit/common/utils.cpp:187-194 | Both subscripts are in bounds iff percent is within 0 and 1 or there is a single element. |
| `Percentile.QuantileInterpolates` | src/libmeasurement_kit/common/utils.cpp:187-195 | At (k + t) / (n - 1) the percentile is (1 - t) times the k-th order statistic plus t times the next. |
| `Percentile.PositionOf` | src/libmeasurement_kit/common/utils.cpp:187-189 | Every percent within 0 and 1 is such a position, so this fixes the percentile everywhere. |
| `Percentile.QuantileOfOne` | src/libmeasurement_kit/common/utils.cpp:187-191 | The percentile of one element is that element. |
| `Percentile.Percentile` | src/libmeasurement_kit/common/utils.cpp:181-196 | Sorts its copy in place and evaluates the percentile; an empty vector is an error. |
| `Percentile.Median` | src/libmeasurement_kit/common/utils.cpp:198-200 | The median is the percentile at 0.5. |
| `Percentile.MedianMeaning` | src/libmeasurement_kit/common/utils.cpp:198-200 | The middle value of an odd number of elements, the mean of the two middle values of an even one. |
| `Percentile.SortedIsUnique` | src/libmeasurement_kit/common/utils.cpp:186 | A sorted permutation is unique, so the sorting algorithm plays no part. |
| `Percentile.AtIsBetween` | src/libmeasurement_kit/common/utils.cpp:188-195 | The result lies between the two neighbouring order statistics. |
| `Percentile.QuantileIsMonotone` | src/libmeasurement_kit/common/utils.cpp:181-196 | A larger percent never gives a smaller result. |
| `Percentile.QuantileIgnoresOrder` | src/libmeasurement_kit/common/utils.cpp:181-196 | Permuting the vector changes nothing. |
| `Percentile.ExtremesAreOrderStatistics` | src/libmeasurement_kit/common/utils.cpp:181-196 | At 0 and 1 the result is the least and the greatest element. |
| `Percentile.SharesOfQuantile` | src/libmeasurement_kit/common/utils.cpp:181-196 | More than percent * (n - 1) elements are at most the result, and more than (1 - percent) * (n - 1) at least it. |
| `Percentile.MedianIsInTheMiddle` | src/libmeasurement_kit/common/utils.cpp:198-200 | At least half of the elements are at most the median and at least half are no less. |

## Left out

- MachineBits.FeedWordsIsFeed: `mk_wchar_t` is taken as an unsigned 32-bit word; where it is signed, no value involved reaches the sign bit. The methods themselves compute on integers.
- WorkerPool.Worker.TakeNext: steps are atomic under the mutex; a callback that throws ends the process and is not modelled, and neither are the logger and the release of captured objects.
- WorkerPool.Worker.ThreadBody: stated for a thread that nobody interrupts; interleavings of its rounds with other threads and callers are the subject of the step and run lemmas.
- WorkerPool.Worker.Concurrency: the sleeping of wait_empty_ is left out, and so is fairness of the thread scheduler; draining is stated as a bound on thread steps.
- ParallelOps.Parallel: each continuation calls back exactly once; one that never does leaves the operation unfinished, and one that calls back twice is not modelled. `size_t` indices are unbounded.
- ParallelOps.Operation.OnReport: callbacks may nest but do not run at the same time in two threads, as the source's own comment demands of its users.
- TaskEngine.RunStatic: wake-up of a waiting reader is left out; waiting is a step enabled when its predicate holds, because the running flag changes and is signalled outside the mutex.
- TaskEngine.TaskImpl.EmitEvent: the debug-only checks of the shape of an event are left out, and events are emitted only by the thread of the task.
- EventRouter.Logger.Consume: the verbosity filter, the rendering of lines, the log file and progress scaling of the logger; a log line stands for one that passed the filter.
- TaskSettings.TaskRun: the wording of a startup failure and the list of names some messages append are left out, so a failure is stated for some reason; the values copied into the nettest, the log file and the output path are left out too.
- TaskSettings.Configure: the value of an option is checked but not stored; the workaround for empty strings is therefore invisible.
- TlsVerify.CheckSubjectAltName: address parsing and the ASN.1 library are inputs; messages and an allocation failure are left out.
- Percentile.Percentile: arithmetic is over real numbers; rounding of doubles and NaN are left out, and std::sort is any in-place sort.
- The nettest itself, the reactor, interruption, data usage and the combination of begin and end errors: a nettest is the list of events and log lines it produces.
- JSON text, `Scalar` and number formatting: JSON is a datatype, and an unsigned integer counts as an integer.
- URL and HTTP parsing, DNS, sockets, file input and output, command line, time and random strings: wrappers around libraries that are not part of this model.
