# GigaAM v3 Runtime: verified models

This project models the parts of the GigaAM v3 speech-recognition runtime whose correctness rests on
arithmetic, ordering or interleaving rather than on configuration, and proves what those parts promise.
`dafny verify dfyconfig.toml` checks all of it.

## What is modelled

**Signal kernels.** `Fft`, `FftKernel` and `Factors` model planning (trial division, twiddle and root
tables) and the in-place mixed-radix Stockham kernel over two swapped buffers. The kernel is proved to
compute one function of its input with its operations in the order the kernel performs them, and
`FftTheorem` proves that function to be the discrete Fourier transform over any commutative semiring with
a system of roots. `RealFft` and `RealFftTheorem` do the same for the packed real transform over complex
numbers with real parts, and `BatchedFft` shows every column of the batched kernels to be the scalar result
with no assumption on the arithmetic at all. `Frontend`, `FrontendBatched`, `NonFinite` and
`FrontendAgreement` carry that through mel-band construction, reflect padding, framing and log-mel
values; `FrontendTheorem` shows the result to be the log-mel spectrogram of the definition over the real
numbers. `Rates`, `Resampling`, `StreamResampling` and `PolyphaseTheorem` model the rational resampler:
the streaming class equals the offline form for every partition of its input, and the polyphase form
equals the full filter on the zero-stuffed input, with exactly the outputs whose instant lies in the input.

**The execution protocol.** `Execution` models the shared atomic state of a request: each method is a
loop of loads and compare-and-exchange steps between which other threads may move the state, and every
loop has a real termination measure. `SchedulerModel` is a transition system in which every critical-section
step, exchange, event send and event receive of callers, worker thread, dropping owner and outside holders
of a control is one action; several jobs may share a control, and timeouts and decoder panics are
nondeterministic. `SchedulerInvariant` is its inductive invariant, `SchedulerSafety` and
`SchedulerProgress` state what follows for every run, and `SchedulerOutcomes` what each result means. `Admission` does the same for two-phase permit
admission, the drain, and the work owner that keeps an HTTP permit until its control is terminal.

**Exact arithmetic.** `Powers`, `Rounding` and `Primitives` model the hand-written IEEE 754 conversions
on bit patterns and relate them to round-to-nearest, ties-to-even (IEEE 754-2008, section 4.3.1) over
scaled integers.

**Decoding and alignment.** `Contracts`, `Words`, `WordTexts`, `Ctc` and `Rnnt` model greedy CTC and RNN-T decoding,
word grouping, the two text projections and the result validator; `Metrics` models the Levenshtein table with backtracking.

**Encoders and parsers.** `Assignment` (the bytes behind a CUDA assignment fingerprint), `WebSocketFrames`
and `WebSocket` (the Python client's RFC 6455 framing), `Interleaved` and `Wav`, over `Bytes`.

`Division`, `Grids`, `Rings`, `Sequences` and `Results` hold shared facts: Euclidean division, row-major indices,
finite sums over a semiring, concatenation, and outcome types.

## Where the code and its documentation or expectations part

- `CtcDecoder::new` accepts a vocabulary longer than the encoder's output dimension, so the first
  standalone `▁` can lie beyond it; then every window is refused. `Ctc.DecodeWindow` states exactly when a
  window is accepted, `Ctc.ConstructionAllowsUnusableSpace` constructs such a decoder and shows it to refuse.
- The scalar frontend refuses a non-finite windowed sample before its transform and the batched one does
  not look. `FrontendBatched.PathsAgree` says what follows from the operations alone;
  `FrontendAgreement.PathsAlwaysAgree` shows that IEEE 754's treatment of infinities and NaNs makes the
  batched path refuse the same inputs.
- `round_shift_right` answers zero for every shift of 64 or more. That is correct rounding except for a shift
  of exactly 64 and a value above half of the divisor, which no caller passes
  (`Primitives.RoundShiftRounds`).
- The texts of the words and the space-separated words of the rendered text are not always the same. Cut the
  pieces into runs at the leading `▁` of each piece: for all pieces, the two agree if and only if every run with
  visible text holds neither `▁` nor a space, the first one starts with a visible character, and every run of
  whitespace after it holds only spaces (`WordTexts.TextsAgreeExactly`). Any `▁` left after the leading ones
  makes them differ (`WordTexts.MarkerSeparates`), and where no whitespace follows the leading `▁` that is the
  only way (`WordTexts.TextsAgree`); `WordTexts.TextsDisagreeOnInnerMarker` is the shortest instance.

## Model

| member | source | states |
|---|---|---|
| Fft.SupportedFactor | crates/audio/src/fft.rs:66-89 | a supported radix divides the length; a refusal names its least factor, which is above 13 |
| Fft.NewPlan | crates/audio/src/fft.rs:100-143 | planning succeeds exactly on nonzero lengths without a prime factor above 13, never overflows, and yields chained stages with the right tables; a refusal names a prime factor above 13 |
| FftKernel.RunStage | crates/audio/src/fft.rs:158-198 | one pass writes every destination position exactly once with its stage value |
| FftKernel.ForwardInPlace | crates/audio/src/fft.rs:146-198 | the transform of the original input is left in the input buffer for either parity of the stage count; only mismatched buffers are refused |
| FftTheorem.StageTransforms | crates/audio/src/fft.rs:158-198 | one stage turns each interleaved sequence of the current length into the shorter transforms the remaining stages complete |
| FftTheorem.StagesTransform | crates/audio/src/fft.rs:158-198 | before a stage with stride s and length m, output q + s*k is the m-point transform of source column q at k |
| FftTheorem.TransformIsDft | crates/audio/src/fft.rs:91-198 | a valid plan computes the discrete Fourier transform of every input |
| FftTheorem.PlanAndRun | crates/audio/src/fft.rs:91-198 | planning and running in place leave the discrete Fourier transform of the buffer in it, on exactly the nonzero 13-smooth lengths |
| RealFft.NewRealPlan | crates/audio/src/fft.rs:306-328 | real planning succeeds exactly on nonzero even lengths whose half is plannable |
| RealFft.ComputePowerSpectrum | crates/audio/src/fft.rs:330-376 | the scalar kernel's result, and refusal exactly on wrong buffers or a non-finite sample |
| RealFftTheorem.PowerSpectrumIsExact | crates/audio/src/fft.rs:306-376 | output k is the squared modulus of the k-th coefficient of the full-length transform, for every even plannable length and k up to half of it |
| RealFftTheorem.PlanAndMeasure | crates/audio/src/fft.rs:306-376 | planning and running leave the power spectrum of the frame in the output, on exactly the even lengths with a 13-smooth half |
| DftProperties.DftSplits | crates/audio/src/fft.rs:330-376 | a transform of even length is the twiddled sum of the transforms of its even and odd samples |
| BatchedFft.ForwardBatched | crates/audio/src/fft.rs:219-295 | each column of the planes is transformed as the scalar kernel transforms it, with uninterpreted arithmetic |
| BatchedFft.ComputePowerSpectrumBatched | crates/audio/src/fft.rs:378-433 | each column of the output is the scalar power spectrum of its frame, with uninterpreted arithmetic |
| Frontend.BuildBand | crates/audio/src/frontend.rs:101-147 | a band is the stretch from the first to the last nonzero weight of its column; none exists exactly when the column is zero |
| Frontend.NewProcessor | crates/audio/src/frontend.rs:52-170 | accepted exactly with a 32-bit nonzero rate, declared and actual dimensions that match, finite weights, an even length with a 13-smooth half, no zero filterbank column, and clamps that narrow to ordered positive finite singles; every column gets its band |
| Frontend.CountedFramesFit | crates/audio/src/frontend.rs:294-315 | every counted frame lies inside the centered input |
| Frontend.CountIsEveryFrame | crates/audio/src/frontend.rs:294-315 | the count is exactly the number of frames that start at a multiple of the hop and lie inside the centered input |
| Frontend.CenteredMirrors | crates/audio/src/frontend.rs:317-351 | the centered input is the samples and, around either end, their mirror image without the end sample repeated |
| Frontend.Center | crates/audio/src/frontend.rs:317-351 | reflect padding on both sides; refused exactly when the input is no longer than the padding |
| Frontend.FrameLogMel | crates/audio/src/frontend.rs:234-282 | one column of log-mel values; refused exactly on wrong buffers or a non-finite sample, windowed sample or result |
| Frontend.LogMelScalar | crates/audio/src/frontend.rs:353-386 | the scalar path's acceptance condition, and a matrix with one row for each band and one column for exactly the frames inside the centered input |
| FrontendBatched.LogMelBatched | crates/audio/src/frontend.rs:388-467 | the batched path's acceptance condition, and the same matrix cell by cell with the scalar operations in the scalar order |
| FrontendBatched.LogMel | crates/audio/src/frontend.rs:284-292 | both modes refuse non-finite input, otherwise answer as their path does, and return a matrix of exactly the frames inside the centered input |
| FrontendBatched.PathsAgree | crates/audio/src/frontend.rs:234-467 | the paths agree bit for bit whenever windowing stays finite, with uninterpreted arithmetic; otherwise the scalar path refuses |
| NonFinite.TransformSpreads | crates/audio/src/fft.rs:158-198 | a bad value at any input reaches every output of its residue class, so every output of the whole transform |
| NonFinite.PowerIsNan | crates/audio/src/fft.rs:330-376 | under IEEE 754's rules one non-finite packed sample makes every power a NaN |
| FrontendAgreement.PathsAlwaysAgree | crates/audio/src/frontend.rs:284-467 | under those rules both paths accept the same inputs and give the same features, on every input and frame count |
| FrontendTheorem.BandIsColumn | crates/audio/src/frontend.rs:101-147 | outside its band a filterbank column is zero, so a band's energy is the weighted sum over the whole column |
| FrontendTheorem.PlanAndExtract | crates/audio/src/frontend.rs:52-467 | over the real numbers planning and extracting in either mode give the definition: every frame of the signal continued by reflection, windowed, its power spectrum under each whole filterbank column; nothing else is refused but short centered signals and sizes that do not fit |
| Rates.NewRatePair | crates/audio/src/resampling.rs:36-87 | the factors are coprime, numerator times input rate equals denominator times output rate, and only factors above the bound are refused |
| Resampling.NewPhases | crates/audio/src/resampling.rs:234-257 | phase p holds coefficients p, p + L, p + 2L and so on, zero past the end, all phases of the least sufficient length |
| Resampling.FilterLengthLeast | crates/audio/src/resampling.rs:182-195 | the filter length is the least odd number that reaches the taps times either factor |
| Resampling.CeilDivLeast | crates/audio/src/resampling.rs:166-178 | the checked ceiling division is the least count reaching the value |
| Resampling.Process | crates/audio/src/resampling.rs:275-330 | the offline form: output n exists exactly when n times the denominator is below the input length times the numerator, identity rates are copied, refused exactly on non-finite input or output |
| Resampling.EmittedWithinCount | crates/audio/src/resampling.rs:275-283 | an output whose newest sample has arrived is below the final count, so the stream's tail never underflows |
| Resampling.ProcessedCount | crates/audio/src/resampling.rs:275-283 | an output exists exactly when its instant lies before the end of the input |
| StreamResampling.StreamResampler.Push | crates/audio/src/resampling.rs:428-484 | emits exactly the settled outputs of everything consumed so far, and keeps every sample a later output needs |
| StreamResampling.StreamResampler.Finish | crates/audio/src/resampling.rs:486-509 | emits the remaining outputs of the offline form |
| StreamResampling.ResampleChunks | crates/audio/src/resampling.rs:377-509 | for every partition of the input, pushes then finish succeed exactly when the offline form does and give its samples, with uninterpreted arithmetic; output n exists exactly when its instant lies before the end of the input |
| PolyphaseTheorem.PolyphaseRefines | crates/audio/src/resampling.rs:285-311 | output n is the full filter applied to the zero-stuffed input at n times the denominator plus half the filter |
| PolyphaseTheorem.PlanAndResample | crates/audio/src/resampling.rs:180-509 | designing phases from any coefficients and resampling chunks gives the textbook result: the full filter around every instant before the end of the zero-stuffed input, and no other |
| Execution.ClimbsIsReachability | crates/recognition/src/execution.rs:83-226 | the rank order is exactly reachability by the exchanges the methods perform |
| Execution.ClimbsIsMonotone | crates/recognition/src/execution.rs:83-137 | rank only rises, terminal states absorb, a requested cancellation ends cancelled |
| Execution.ExecutionControl.RequestCancellation | crates/recognition/src/execution.rs:83-108 | terminates under interference and takes effect at one instant; the result is a requested cancellation or terminal |
| Execution.ExecutionControl.AcknowledgeCancellation | crates/recognition/src/execution.rs:110-137 | turns a requested cancellation into cancelled at one instant and changes nothing else |
| Execution.ExecutionControl.Finish | crates/recognition/src/execution.rs:139-180 | completion and failure always return a terminal state and never revive a cancellation |
| Execution.ExecutionControl.Enqueue | crates/recognition/src/execution.rs:182-203 | accepts exactly a control left Queued or Running, queues a ready one and changes no other |
| Execution.ExecutionControl.Start | crates/recognition/src/execution.rs:205-226 | starts exactly an active control |
| SchedulerInvariant.InvKept | crates/recognition/src/scheduler.rs:102-358 | every step of callers, worker, owner and outsiders keeps the invariant |
| SchedulerInvariant.NeverDisconnected | crates/recognition/src/scheduler.rs:297-358 | a waiting call has its result in the channel or its sender alive |
| SchedulerSafety.ExactlyOneFinished | crates/recognition/src/scheduler.rs:100-162 | in every run an accepted job gets at most one result, exactly one once nobody holds it or the worker has ended, and its caller is handed that result; no call sees a closed channel or a second start |
| SchedulerSafety.StoppedAcceptsNothing | crates/recognition/src/scheduler.rs:214-291 | once stopped, always stopped, and no job is accepted any more |
| SchedulerSafety.PendingExact | crates/recognition/src/scheduler.rs:102-291 | the pending counter is never negative and equals the queued jobs whenever the lock is free |
| SchedulerSafety.TicksBeforeWindows | crates/recognition/src/scheduler.rs:102-126 | each class is taken first in first out, and a window only when every accepted tick has been taken |
| SchedulerSafety.CancellationIsFinal | crates/recognition/src/scheduler.rs:127-150 | the decoder never runs for a job cancelled or terminal before its start, and no result is delivered after a won cancellation |
| SchedulerSafety.TimeoutIsTerminal | crates/recognition/src/scheduler.rs:293-351 | a call that gave up waiting returns after the worker's one result with its control terminal |
| SchedulerSafety.ControlsOnlyClimb | crates/recognition/src/execution.rs:83-226 | in every run every control, shared or not, only climbs |
| SchedulerSafety.CallsProceed | crates/recognition/src/scheduler.rs:297-358 | a call that saw its start waits for its result, one that gave up never returns a result, and one that returned is over |
| SchedulerOutcomes.ResultsMean | crates/recognition/src/scheduler.rs:127-291 | in every run each result means what it says: refused without a decoding and a control that could not start, decoded by a decoding that did not panic, cancelled with the control cancelled, panicked after a panic in its own decoding, stopped for a drained job that was never decoded |
| SchedulerOutcomes.DecodingsAreDelivered | crates/recognition/src/scheduler.rs:138-150 | a finished job that was decoded, did not panic and whose control shows no won cancellation got its decoding |
| SchedulerOutcomes.RefusalsMean | crates/recognition/src/scheduler.rs:277-290 | a call is turned away only with a control that cannot start, or with the queue stopped and its control terminal |
| SchedulerOutcomes.ControlsFollow | crates/recognition/src/scheduler.rs:127-134 | an entered call's control is no longer ready, and a decoded job's control has started |
| SchedulerOutcomes.PanicIsFinal | crates/recognition/src/scheduler.rs:151-160 | after a decoder panic no job is decoded again, and a worker that has ended leaves a stopped queue |
| SchedulerOutcomes.DrainedInOrder | crates/recognition/src/scheduler.rs:229-258 | jobs drained by a panic are answered in order, every tick before any window |
| SchedulerProgress.UnfinishedCanProceed | crates/recognition/src/scheduler.rs:102-291 | no deadlock and no lost wake-up: while an accepted job has no result a serving step is possible |
| SchedulerProgress.EveryAcceptedJobFinishes | crates/recognition/src/scheduler.rs:100-291 | between arrivals a run takes boundedly many serving steps, and wherever it has none left to take every accepted job has its one result |
| SchedulerProgress.ServedToTheEnd | crates/recognition/src/scheduler.rs:100-291 | from every state that keeps the invariant boundedly many serving steps lead to a state where every job accepted so far has its one result |
| Admission.PermitsConserved | crates/service/src/admission.rs:201-303 | in every run free permits and owned permits add up to the capacity of each protocol; all WebSocket permits are back exactly when no session holds any |
| Admission.NoCommitAfterDrain | crates/service/src/admission.rs:201-376 | no request passes the second phase read after the phase became Draining |
| Admission.LateRequestsOwnNothing | crates/service/src/admission.rs:219-259 | a request whose first phase read comes after the drain began is refused without ever owning a permit |
| Admission.ClosedTakesNothing | crates/service/src/admission.rs:201-217 | a closed semaphore stays closed and its permits only come back |
| Admission.RefusalsAreHonest | crates/service/src/admission.rs:201-272 | Overloaded means permits were lacking, Draining that the drain had begun; the drain begins once |
| Admission.DrainBegins | crates/service/src/admission.rs:201-217 | beginning to drain takes effect at once and for good, exactly once, and the semaphores are closed in order |
| Admission.PermitOutlivesRequest | crates/service/src/http.rs:714-777 | an HTTP permit returns from work only with its control terminal, past timeouts and dropped requests; a success is answered only for a completed control |
| Admission.AnswersTellTheWork | crates/service/src/http.rs:714-760 | the answer is a success exactly when the work asked for completion and its control ended Completed |
| Admission.StepBalances | crates/service/src/admission.rs:219-424 | every step, drops included, keeps a protocol's permits balanced |
| Primitives.RoundShiftRounds | crates/primitives/src/lib.rs:51-66 | on every 64-bit value the shift is the division rounded to nearest, ties to even, if and only if the shift is not 64 or the value is at most half of the divisor |
| Primitives.U64ToF32Nearest | crates/primitives/src/lib.rs:92-108 | the nearest single, ties to even, for every 64-bit integer |
| Primitives.U64ToF64Nearest | crates/primitives/src/lib.rs:70-87 | the nearest double, ties to even, for every 64-bit integer |
| Primitives.IntegerMonotone | crates/primitives/src/lib.rs:70-108 | both integer conversions are monotone |
| Primitives.NarrowNearest | crates/primitives/src/lib.rs:140-193 | the nearest single of every finite double: normal, subnormal, carried, or overflowing to infinity |
| Primitives.NarrowClasses | crates/primitives/src/lib.rs:140-193 | sign, infinities and NaNs are kept, and only NaNs become NaNs |
| Primitives.NarrowMonotone | crates/primitives/src/lib.rs:140-193 | narrowing is monotone on magnitudes |
| Primitives.NarrowUndoesWidening | crates/primitives/src/lib.rs:140-193 | narrowing a widened single, finite or infinite, gives it back |
| Primitives.TruncateF64IsFloor | crates/primitives/src/lib.rs:195-221 | the integer part, refused exactly for infinities, NaNs, negative numbers and those from 2^64 on |
| Primitives.TruncateF32TowardZero | crates/primitives/src/lib.rs:225-279 | truncation toward zero, refused exactly for infinities, NaNs and what is outside the unsigned or signed 64-bit range |
| Rounding.NearestUnique | crates/primitives/src/lib.rs:68-193 | the nearest value with ties to even is unique |
| Metrics.FillTable | scripts/metrics.py:41-47 | every cell is the distance of its two prefixes |
| Metrics.EditOps | scripts/metrics.py:38-56 | the alignment lists each side's indices once in order, costs the returned distance, no alignment is cheaper, and the distance is zero exactly for equal sequences; the last branch is always a real insertion |
| Metrics.NoAlignmentIsCheaper | scripts/metrics.py:45-47 | every alignment of the remainders pays for the distance they close |
| Metrics.DistanceIsSymmetric | scripts/metrics.py:45-47 | the distance does not depend on which side is the reference |
| Assignment.Fingerprint | crates/recognition/src/ort_assignment.rs:270-315 | the run-length loop feeds exactly the canonical encoding, and fails only on lengths beyond 64 bits |
| Assignment.EncodingLayout | crates/recognition/src/ort_assignment.rs:270-315 | the hashed bytes are the domain and the record count, then for each run its multiplicity and the four length-prefixed fields in order, every number with its most significant byte first |
| Assignment.GroupsInjective | crates/recognition/src/ort_assignment.rs:277-300 | run-length groups of length-prefixed fields determine the record list |
| Assignment.FingerprintIsCanonical | crates/recognition/src/ort_assignment.rs:57-96 | two record lists hash the same bytes exactly when they are the same multiset |
| Assignment.EvidenceFromRecords | crates/recognition/src/ort_assignment.rs:57-96 | refuses empty lists, the first unsupported provider and lists without CUDA nodes; otherwise the exact counts and the encoding of the sorted records |
| Words.SpansAreWords | crates/recognition/src/ctc.rs:180-209 | spans are ordered, disjoint and in range, each is one word with visible text, and they contain every token with visible text |
| Words.WordTokenSpans | crates/recognition/src/ctc.rs:187-209 | the loop yields those spans |
| Words.TokensToWords | crates/recognition/src/ctc.rs:212-249 | tokens in frame order always become words, one for each span, with its text and times |
| Words.WordTimes | crates/recognition/src/ctc.rs:234-249 | one frame lasts one period of the rate, frame zero starts at zero, and a word in the frame after another begins where that one ends |
| WordTexts.TextsAgreeExactly | crates/recognition/src/ctc.rs:172-233 | for all pieces the word texts are the space-separated words of the rendered text if and only if the runs of pieces are aligned |
| WordTexts.TextsAgree | crates/recognition/src/ctc.rs:172-233 | where no whitespace follows the leading markers, they agree if and only if no piece holds a marker after its leading ones |
| WordTexts.MarkerSeparates | crates/recognition/src/ctc.rs:172-233 | a marker after the leading ones of any piece makes the two projections differ, whatever the other pieces |
| WordTexts.TextsDisagreeOnInnerMarker | crates/recognition/src/ctc.rs:172-233 | one piece with an inner marker is one word and two space-separated words |
| Ctc.RunHeadsAreTheHeads | crates/recognition/src/ctc.rs:90-127 | tokens are exactly the non-blank run heads of the labels, in strictly increasing frames |
| Ctc.GreedyMasked | crates/recognition/src/ctc.rs:80-168 | accepted exactly on well-formed input; each label is the first best entry of its row of the row-major matrix, silence is blank or the boundary token |
| Ctc.NewDecoder | crates/recognition/src/ctc.rs:262-290 | construction succeeds exactly when the dimension is blank + 1 and the vocabulary covers the ids below blank |
| Ctc.DecodeWindow | crates/recognition/src/ctc.rs:317-344 | no later validator refuses: a window is accepted exactly when the matrix is well formed and the space token is inside the output dimension |
| Ctc.ConstructionAllowsUnusableSpace | crates/recognition/src/ctc.rs:262-344 | construction accepts a vocabulary whose space token is outside the output dimension, and the decoder then refuses every window |
| Contracts.AssembleAccepts | crates/recognition/src/contracts.rs:206-266 | a window is accepted exactly when masks and labels have one entry for each frame, tokens lie in the frames, and spans lie in the tokens, each before every later one |
| Rnnt.EmitFrame | crates/recognition/src/rnnt.rs:86-110 | the loop's tokens and states are a trace of the ports on one frame, ending at blank or at the symbol limit; an error is where such a trace fails |
| Rnnt.StampedOk | crates/recognition/src/rnnt.rs:82-113 | tokens come in frame order with ids below blank, and each frame holds exactly what it emitted |
| Rnnt.Greedy | crates/recognition/src/rnnt.rs:74-113 | an output is returned exactly when some sequence of states from the start has each token as the answer of select, each next state as advance of that token, and each frame ending at blank or the limit; an error is the failure such a sequence runs into |
| Rnnt.DecodingIsTrace | crates/recognition/src/rnnt.rs:74-113 | decoding succeeds with an output if and only if some trace of the ports has that output |
| Rnnt.DecodingFails | crates/recognition/src/rnnt.rs:74-113 | decoding fails with an error if and only if the ports fail there: at the start, at a non-finite frame, in select or advance, or at an id beyond blank |
| Rnnt.DecodingOk | crates/recognition/src/rnnt.rs:82-113 | tokens in frame order with ids below blank, at most the symbol limit per frame, silent exactly when nothing was emitted |
| Rnnt.DecodeWindow | crates/recognition/src/ort_rnnt.rs:303-333 | no validator refuses what the greedy loop produced |
| Bytes.BigEndianRoundTrip | clients/python/asr_client.py:170-173 | packing a length and unpacking it is the identity |
| Bytes.BigEndianDigit | clients/python/asr_client.py:170-173 | a packed length has its most significant byte first |
| WebSocketFrames.EncodeIsOnWire | clients/python/asr_client.py:161-176 | a frame is laid out as RFC 6455, sections 5.2 and 5.3, lays it out: bits, shortest length form, key, and each payload bit flipped exactly where the key byte at its position modulo four has that bit set |
| WebSocketFrames.ParseEncode | clients/python/asr_client.py:165-225 | every frame, masked or not and of any length form, parses back to itself whatever follows it |
| WebSocketFrames.MessageReceived | clients/python/asr_client.py:193-248 | a fragmented message with control frames in between arrives whole and leaves exactly what follows it |
| WebSocketFrames.OutOfTurn | clients/python/asr_client.py:227-248 | pongs, unknown opcodes and continuations of nothing are skipped, a new message drops an unfinished one, a close frame ends the exchange |
| WebSocketFrames.ConversationRoundTrip | clients/python/asr_client.py:193-248 | a stream of legal messages is received in order with one pong for each ping and its payload (RFC 6455, sections 5.2 to 5.5) |
| WebSocket.Client.Read | clients/python/asr_client.py:184-191 | the next n bytes of the stream however it is cut up, or nothing when fewer are left |
| WebSocket.Client.Send | clients/python/asr_client.py:161-176 | appends exactly one final frame under a fresh mask, its bytes laid out and masked bit by bit as the standard says |
| WebSocket.Client.Recv | clients/python/asr_client.py:193-248 | the outcome and the pongs depend only on the bytes still to come |
| WebSocket.Exchange | clients/python/asr_client.py:119-128 | for any chunking, a legal exchange delivers its messages in order and answers each ping once |
| Interleaved.FramesByDivision | crates/audio/src/interleaved.rs:89-93 | cutting by division yields the frames and the remainder |
| Interleaved.FrameDecoder.Push | crates/audio/src/interleaved.rs:77-132 | decodes exactly the frames completed so far and keeps the incomplete one |
| Interleaved.FrameDecoder.Finish | crates/audio/src/interleaved.rs:135-144 | succeeds exactly on whole frames |
| Interleaved.DecodeChunks | crates/audio/src/interleaved.rs:62-145 | whatever the partition, the channels are those of the concatenated bytes |
| Interleaved.InterleavedDecodes | crates/audio/src/interleaved.rs:62-145 | channels that were interleaved are decoded back: sample f of channel c is what its own bytes decode to |
| Interleaved.DecodeSamples | crates/audio/src/interleaved.rs:149-168 | one channel, accepted exactly on whole decodable samples |
| Wav.ParseFormat | crates/audio/src/wav.rs:73-155 | an accepted format is supported, has channels and a rate, and its alignment is its frame width |
| Wav.FormatRoundTrip | crates/audio/src/wav.rs:73-155 | every supported format whose alignment and byte rate fit their fields is read back from its plain header, and from its extensible header where it has one, whatever follows |
| Wav.FormatsAreSpelled | crates/audio/src/wav.rs:73-155 | a body is read as a format if and only if it spells that format: its fields, alignment and byte rate, and for the extensible tag the extension size, valid bits and subtype |
| Wav.ChunksRoundTrip | crates/audio/src/wav.rs:224-266 | a serialised chunk list is read back as itself |
| Wav.ChunksAreSerialised | crates/audio/src/wav.rs:224-266 | only serialised chunk lists are read as chunks |
| Wav.ChunkLayout | crates/audio/src/wav.rs:224-266 | a chunk is its identifier, its length with the least significant byte first, its body, and padding to an even size |
| Wav.Traverse | crates/audio/src/wav.rs:224-268 | finds the only format and the only data chunk, or refuses because there is no such pair |
| Wav.ParseWav | crates/audio/src/wav.rs:208-309 | accepts exactly files of the declared size made of whole chunks with one valid format and one decodable nonempty data chunk, and returns its channels |
| Wav.FilesAreSerialised | crates/audio/src/wav.rs:208-309 | nothing is accepted but a serialised chunk list with the right magic numbers and size |
| Wav.FileRoundTrip | crates/audio/src/wav.rs:73-309 | a file of any valid format and any decodable samples is decoded to the rate of its format and, in each channel, the samples of that channel in order |
| Wav.ChunkOrderIsIrrelevant | crates/audio/src/wav.rs:224-309 | reordering chunks and inserting unknown ones changes nothing |

## Left out

- The scheduler and the admission state are transition systems, not classes: each lock-protected step, exchange and
  send is an action, and the mutex, condition variable, channel, semaphore and watch are the state they act on.
- Wall-clock times: the 60-second queue wait, the request deadline and the drain bound are steps that may happen at any
  moment or never.
- Poisoned mutexes, thread start and join failures, and memory-reservation failures.
- StreamResampling.ResampleChunks: positions are unbounded integers, so the errors on `usize` overflow of a position or
  count, in the streaming and the offline form, are not modelled. The FFT planner and the batched kernels keep the bound.
- The values of `cos`, `sin`, the Kaiser window and logarithms: roots are any system with the laws of roots of unity,
  coefficients and log-mel finishing are given.
- Rounding error of floating-point transforms: the FFT and polyphase theorems are over exact arithmetic, the
  scalar-against-batched and stream-against-offline theorems over uninterpreted arithmetic.
- The feature-matrix validator behind the frontend.
- Scored tokens: the log probability of a selected token is not modelled.
- Words.TokensToWords: word times are exact, so rounding of the frame-rate division, and its overflow to infinity for
  a tiny rate, are not modelled.
- Error messages and their wording: errors are kinds.
- Per-sample decoding in `Interleaved` and `Wav` (PCM scaling, G.711 tables, finiteness of IEEE samples) is a parameter
  that maps the bytes of a sample to a value or refuses it.
- UTF-8 decoding, text normalisation and the punctuation and case rates of the metrics script.
- The WebSocket handshake, socket exceptions and timeouts, and messages a peer may not send.
- SHA-256, foreign ONNX Runtime calls, axum routing, multipart reading, telemetry and configuration parsing.
