# Acquisition core: verified model

This project models the parts of the acquisition firmware and of its soak validator whose correctness rests on
long-range reasoning, and proves what they promise.

* **The paired DMA ring** (`FixedWidth`, `RingModel`, `DmaRing`, `RingOwnership`, `RingRuns`, `RingTrack`,
  `RingSettle`, `RingOrder`, `RingHistory`, `RingBeginnings`, `RingTurns`, `RingOvertaking`, `RingErrors`,
  `RingCounters`, `RingEvidence`, `RingStop`, `RingLeases`, `RingDrain`, `RingAnswers`, `RingServices`, `RingReports`,
  `RingTally`, `RingDriver`).
  Two converters fill the same buffer; each completion interrupt names a generation and schedules the one two ahead; a
  buffer becomes readable when both have finished it. `DmaRing.PairCaptureRing` is the class, with its arrays and
  counters, each method proved against a function of the whole ring in `RingModel`. `RingRuns` interleaves those
  functions: every interrupt and every critical section of the foreground is one atomic step, in any order and with any
  arguments, and the two halves of `release` and of a discard round are separate steps. `RingDriver` takes the
  object itself through any such sequence and ends in the state of the run. The other ring modules prove
  properties of every such run, some with a history kept beside it: absolute generation numbers (`RingTrack`), every
  interrupt that named a generation while it was outstanding (`RingEvidence`), the handles given out (`RingLeases`).
  What each call answers is told from the ring before and after it (`RingAnswers`, `RingServices`, `RingReports`), and
  what each counter holds from the steps taken since the last prime (`RingTally`).
* **The wire parser** (`LittleEndian`, `Adler`, `WireFormat`, `FrameScan`, `FrameParsing`, `FrameRules`).
  `FrameScan.Scan` says what a byte stream means one byte at a time; the incremental parser, which jumps to the next
  magic and keeps the longest beginning of one, is proved to compute exactly that, whatever the chunks. `FrameRules`
  says what the rules for headers and payloads amount to: which bytes hold which field, which headers and answers pass,
  that whatever data frame the validator admits is parsed, and what a frame that breaks a rule costs.
* **The stream validator** (`Patterns`, `Continuity`, `StreamValidation`). Wrapped sequence numbers and ticks against
  true frame indices; table slices and one wide mask against the per-item formulas.
* **The acquisition controller** (`ControllerModel`, `ControllerStarts`, `ControllerRounds`, `AcquisitionController`).
  The components are one object that answers its n-th call however an arbitrary oracle says and logs every call; a call
  requires its component to be present, so the proofs also show that no missing component is ever called. Every
  operation states which calls it makes, in which order, and what it makes of the answers; `ControllerStarts` and
  `ControllerRounds` say what those calls amount to.
* **Codecs and layouts of the protocol generator** (`SampleCodecs`, `FieldLayout`, `SchemaEncoding`), with the
  firmware's run-length encoder as the partner of the run-length check.

Constants are the repository's: ring depth 8 and a slot table of 12 (`firmware/src/adc_dma_capture.h`), protocol
version 1 frame sizes and kinds.

Integers of the source that wrap or saturate are written out with their width (`FixedWidth`); Python's integers are
unbounded here too.

## What the proofs found

* *Order of the handles.* Handles of one epoch ascend exactly as long as no completion publishes a buffer behind the
  last handle: an accepted completion of a slot that the other converter has finished, that has a real destination and
  no taint, with the converters at most one apart, the generation two ahead schedulable, and a first pair no later than
  the last handle's (`RingTurns.PublishesExactly`, `RingTurns.HandlesAscend`, `RingTurns.OrderIsExact`). That takes a
  slot exhaustion and 2^32 generations (`RingTurns.OvertakingTakesLong`), and it happens
  (`RingOvertaking.OrderBreaks`): in the run built there, converter 0 passes three generations that have no slot,
  converter 1 finishes them once they are scheduled, and their slots wait beside 2^32 rounds of normal operation until
  the 32-bit counter of converter 0 comes round; the first of them is then published although generation 15 has been
  handed out, and the next handle lies behind that one.
* *STOP tail.* The validator requires fewer than two frames of pairs to be discarded by STOP. The ring's own check
  of the channel progress lets a converter report all pairs of its next buffer as written. When the converter that is
  one generation ahead does so and buffers are a whole frame long, exactly two frames are discarded and the validator's
  bound fails; in every other loss-free case it holds (`RingStop.StopTail`, `RingStop.TailOfTwoBuffersHappens`).
* *Repeated reports.* A converter may report a generation twice, even into another destination: the repeat is refused and
  counted, taints nothing, and the buffer still becomes Ready (`RingEvidence.RepeatedReportIsHarmless`). "Exactly
  once" is therefore true of accepted reports: of all reports, the first in turn and no other is accepted
  (`RingEvidence.ReadyByEvidence`).
* *Draining.* `acquireReady` looks for a pair number strictly below 2^64 - 1, so a Ready buffer whose first pair is
  exactly 2^64 - 1, where the saturating pair counter stays, is never handed out, and the ring never drains again.
  Without such a buffer every way of acquiring, releasing and discarding ends with all buffers Free; with one, none does
  (`RingDrain.EveryDrainEnds`, `RingDrain.DrainsUnlessAtCeiling`, `RingDrain.CeilingIsReachable`).
* *Missing frames.* The tick check extends what the validator counts as missing from 32 to 59 bits, no further: a hole
  of 2^59 frames looks like none (`Continuity.HoleIsMeasured`, `StreamValidation.HoleOfTwo59IsUnseen`).
* *Refused starts.* A START refused before its reservation leaves the controller's own state alone but still stops
  packet production, also while another run is active (`AcquisitionController.Controller.StartRun`).
* *Text fields.* A payload decodes to the values it was made from exactly when no text among them, at any depth, contains
  a NUL (`SchemaEncoding.SchemaDecodes`); the encoder does not refuse one that does.

## Model

| member | source | states |
|---|---|---|
| DmaRing.PairCaptureRing.constructor | firmware/src/adc_dma_capture.h:222-330 | a new ring is stopped, all buffers free, no generation scheduled, the lease counter at 1 |
| DmaRing.PairCaptureRing.FindGeneration | firmware/src/adc_dma_capture.cpp:541-549 | finds the first valid slot of a generation, or none |
| DmaRing.PairCaptureRing.CountInState | firmware/src/adc_dma_capture.cpp:697-705 | the number of buffers in a state |
| DmaRing.PairCaptureRing.AllBuffersFree | firmware/src/adc_dma_capture.cpp:707-714 | true iff every buffer is Free |
| DmaRing.PairCaptureRing.MatchesHandle | firmware/src/adc_dma_capture.cpp:716-727 | a handle matches iff it names this buffer, state, epoch, lease, first pair and pair count |
| DmaRing.PairCaptureRing.Quiescent | firmware/src/adc_dma_capture.cpp:504-509 | stopped with every buffer Free |
| DmaRing.PairCaptureRing.TaintOutstanding | firmware/src/adc_dma_capture.cpp:617-623 | marks every valid slot, and only those, as holding invalid data |
| DmaRing.PairCaptureRing.TaintGeneration | firmware/src/adc_dma_capture.cpp:625-637 | marks one generation and raises its minimum loss, or counts an exhaustion when it has no slot |
| DmaRing.PairCaptureRing.TakeFree | firmware/src/adc_dma_capture.cpp:597-615 | gives the next free buffer in rotation to DMA for this generation; the overflow sink iff none is free |
| DmaRing.PairCaptureRing.ScheduleGeneration | firmware/src/adc_dma_capture.cpp:561-595 | an existing slot is returned as it is; a new one only for the generation next in turn, in the first unused slot |
| DmaRing.PairCaptureRing.Prime | firmware/src/adc_dma_capture.cpp:43-117 | refuses a zero epoch, an illegal pair count, a running or busy ring; otherwise resets everything and schedules two generations |
| DmaRing.PairCaptureRing.ReserveGeneration | firmware/src/adc_dma_capture.cpp:119-146 | schedules a generation for the running epoch and reports its destination |
| DmaRing.PairCaptureRing.OnMajorLoopComplete | firmware/src/adc_dma_capture.cpp:148-243 | the whole effect and result of a completion interrupt: stale, out of order, unscheduled, repeated or accepted |
| DmaRing.PairCaptureRing.FinalizeGeneration | firmware/src/adc_dma_capture.cpp:639-695 | a generation both converters finished is published, discarded or counted as an overrun, and its slot emptied |
| DmaRing.PairCaptureRing.OnAdcEtcError | firmware/src/adc_dma_capture.cpp:245-266 | charges an overwrite to the next generation of each converter named |
| DmaRing.PairCaptureRing.OnDmaError | firmware/src/adc_dma_capture.cpp:268-280 | charges a DMA error to the next generation of its converter |
| DmaRing.PairCaptureRing.TakeLease | firmware/src/adc_dma_capture.cpp:729-738 | hands out the next nonzero 32-bit lease |
| DmaRing.PairCaptureRing.AcquireReady | firmware/src/adc_dma_capture.cpp:282-321 | services discards, then leases the Ready buffer with the lowest pair number |
| DmaRing.PairCaptureRing.Release | firmware/src/adc_dma_capture.cpp:323-348 | frees the buffer a matching handle names; any other handle changes nothing but the cache count |
| DmaRing.PairCaptureRing.BeginRelease | firmware/src/adc_dma_capture.cpp:323-330 | first critical section of release |
| DmaRing.PairCaptureRing.EndRelease | firmware/src/adc_dma_capture.cpp:331-347 | cache discard, recheck and second critical section of release |
| DmaRing.PairCaptureRing.ServiceDiscarded | firmware/src/adc_dma_capture.cpp:350-382 | frees up to a limit of discarded buffers, in buffer order |
| DmaRing.PairCaptureRing.HaltCapture | firmware/src/adc_dma_capture.cpp:384-477 | checks the progress, accounts for every outstanding slot, gives its buffer up, and reports |
| DmaRing.PairCaptureRing.StopCapture | firmware/src/adc_dma_capture.cpp:384-480 | the whole of stop: a running ring is halted and then frees its discarded buffers; a stopped one is left alone |
| RingDriver.TakeStep | firmware/src/adc_dma_capture.cpp:43-479 | any step taken on the object is the step of the model, foreground halves included |
| RingDriver.TakeSteps | firmware/src/adc_dma_capture.cpp:43-479 | any sequence of steps takes a new object through a run of the model, so the theorems about runs are about the object |
| RingOwnership.FinalizeOwns | firmware/src/adc_dma_capture.cpp:639-695 | finalizing never meets a buffer that is not DMA's for that generation, and decides by the taint alone |
| RingOwnership.CompleteOwns | firmware/src/adc_dma_capture.cpp:148-243 | a completion with any arguments keeps buffers and slots matched one to one and moves no CPU buffer |
| RingOwnership.StopOwns | firmware/src/adc_dma_capture.cpp:384-479 | stopping leaves DMA no buffer and never meets a foreign one |
| RingRuns.StepIsSafe | firmware/src/adc_dma_capture.cpp:282-382 | every atomic step keeps ownership, and the second halves of release and discard never fail their recheck |
| RingRuns.EveryRunIsSafe | firmware/src/adc_dma_capture.cpp:282-382 | ownership in every reachable state of every interleaving |
| RingRuns.LeasedIsNeverScheduled | firmware/src/adc_dma_capture.cpp:561-615 | a buffer outside DMA ownership is no slot's destination; a DMA buffer is the destination of exactly one slot, of its epoch and generation |
| RingTurns.PublishesExactly | firmware/src/adc_dma_capture.cpp:148-243 | a completion with any arguments publishes a buffer iff it is accepted, the other converter has finished the slot, its destination is real and named, nothing has tainted it, the converters stay at most one apart and the generation two ahead can be scheduled |
| RingTurns.AcceptedInTurnOrLongPassed | firmware/src/adc_dma_capture.cpp:173-190 | an accepted completion finishes its converter's generation in turn, or, after an exhaustion, one passed at least 2^32 generations ago |
| RingTurns.HandlesAscend | firmware/src/adc_dma_capture.cpp:282-321 | handles of one epoch cover disjoint intervals of rising pair numbers unless a completion of that epoch published a buffer behind the last handle |
| RingTurns.OrderIsExact | firmware/src/adc_dma_capture.cpp:282-321 | the handles ascend throughout a run, whenever the next is taken, iff no completion of the run publishes a buffer behind the last handle |
| RingTurns.OvertakingTakesLong | firmware/src/adc_dma_capture.cpp:173-190 | no such completion without a slot exhaustion, nor in the first 2^32 generations of an epoch |
| RingOvertaking.OrderBreaks | firmware/src/adc_dma_capture.cpp:148-320 | a run of more than 2^32 rounds in which a handle comes after a later one |
| RingTurns.HoleIsLoss | firmware/src/adc_dma_capture.cpp:561-595 | without slot exhaustion, the hole between consecutive handles is exactly the pairs of the generations lost between them |
| RingHistory.WindowIsExact | firmware/src/adc_dma_capture.cpp:148-243 | the valid slots are exactly the generations from the slower converter's next to the last scheduled, at least two past either, across 32-bit wrap |
| RingHistory.InTurnIsAccepted | firmware/src/adc_dma_capture.cpp:119-243 | a completion in turn is always accepted, notes no invariant error, and exhausts the table exactly when the window is full and the look-ahead used up |
| RingErrors.WellFormedRunsAreFaultless | firmware/src/adc_dma_capture.cpp:119-280 | over runs of well-formed interrupts with room in the table, across stops, primes and generation wrap, neither exhaustions nor invariant errors ever rise |
| RingTrack.ScheduleInWindow | firmware/src/adc_dma_capture.cpp:561-595 | within reach of the window, scheduling fails exactly when the table is full |
| RingAnswers.CompletionTellsTheRing | firmware/src/adc_dma_capture.cpp:148-243 | in every run and for any arguments, a completion's answer is what it did: consumed iff its converter's next generation moved on; the mask is the slot's; ready iff a buffer became Ready, lost iff the slot is gone without one; Ok iff it named the slot's destination, the converters are at most one apart and the generation two ahead has a slot; the destination handed out is that slot's, overflow if there is none, and a real one is a buffer DMA owns for that generation |
| RingAnswers.ReservationTellsTheRing | firmware/src/adc_dma_capture.cpp:119-146 | in every run, a reservation is granted iff the ring runs in that epoch and the generation then has a slot, with that slot's destination; what it changed of the ring, refusals included |
| RingAnswers.TakingRotates | firmware/src/adc_dma_capture.cpp:597-615 | the buffer taken is the first free one in rotation, the overflow sink iff none is free |
| RingAnswers.PrimingTellsTheRing | firmware/src/adc_dma_capture.cpp:43-117 | in every run, priming answers the first refusal that applies and changes nothing, or starts the epoch at the first pair given and names the destinations of its two generations |
| RingTally.EveryCounterIsExact | firmware/src/adc_dma_capture.cpp:43-479 | in every run, each of the counters is the number of the things it counts since the last prime, or its ceiling; the high-water mark is the most buffers Ready at once; the flags are all those seen |
| RingEvidence.ReadyByEvidence | firmware/src/adc_dma_capture.cpp:148-280 | of all completions naming an outstanding generation, accepted or refused, each converter's first in turn and no other is accepted; a finished generation became Ready iff its destination was real, both accepted reports named it, and while it was outstanding no overwrite and no DMA error was charged to it, the skew stayed at most one and no scheduling failed |
| RingEvidence.RepeatedReportIsHarmless | firmware/src/adc_dma_capture.cpp:173-178 | a run in which a converter reports a generation twice, the second time into another buffer, and the buffer still becomes Ready |
| RingEvidence.ReadableIsBacked | firmware/src/adc_dma_capture.cpp:655-695 | every buffer the CPU may read was published by such a closing of its own generation |
| RingCounters.EveryRunBalances | firmware/src/adc_dma_capture.cpp:639-695 | conservation of pairs and buffers in every reachable state that no saturation has touched |
| RingCounters.CountersConserve | firmware/src/adc_dma_capture.cpp:310-312 | captured = lost + pairs per buffer x completed; completed = acquired + Ready; delivered = pairs per buffer x acquired; while running, paired loops = completed + overruns + incomplete |
| RingStop.StopTail | firmware/soak/validator.py:2581-2599 | after a loss-free run the validator's STOP-tail conditions hold; its bound of two frames iff not both the converter ahead has written its next buffer to the end and buffers are a whole frame |
| RingStop.TailOfTwoBuffersHappens | firmware/src/adc_dma_capture.cpp:384-470 | a concrete run with buffers of a whole frame and channel progress whose STOP discards exactly two frames of pairs |
| RingLeases.StaleHandleIsRefused | firmware/src/adc_dma_capture.cpp:323-330 | a handle already released is refused and changes nothing until 2^32 - 1 later leases |
| RingLeases.ReleasedAtMostOnce | firmware/src/adc_dma_capture.cpp:323-348 | finishing a release returns a lease that has not been returned before |
| RingServices.AcquiredIsReleasable | firmware/src/adc_dma_capture.cpp:288-348 | in every run, the handle acquired names the Ready buffer of the lowest pair number, on a fresh lease; of all handles for that buffer it alone is accepted back, and frees that buffer only |
| RingServices.ReleaseTellsTheRing | firmware/src/adc_dma_capture.cpp:323-348 | in every run, a release is accepted iff its handle is, field by field, that of a buffer on lease |
| RingServices.DiscardServiceFrees | firmware/src/adc_dma_capture.cpp:350-382 | the discard service frees the first buffers waiting for it, in order, as many as the limit allows, and reports that number |
| RingServices.AcquireReadyTells | firmware/src/adc_dma_capture.cpp:282-321 | an uninterrupted acquireReady leaves nothing waiting to be discarded and hands out the first Ready buffer below the ceiling |
| RingReports.StopTellsTheRing | firmware/src/adc_dma_capture.cpp:384-477 | in every run, stopping empties the table and gives up exactly the buffers DMA owned; the report counts them, the pairs lost, what is Ready and what is being read, and is Ok iff the progress check passed and no channel named an outstanding generation with another destination |
| RingReports.StopCaptureTells | firmware/src/adc_dma_capture.cpp:384-480 | the whole of stop frees what DMA owned or was waiting to be discarded and touches no other buffer |
| RingReports.LostIsWritten | firmware/src/adc_dma_capture.cpp:413-445 | without exhaustion, the pairs lost with a generation are those written by the converter further into it, one at least if an overwrite was charged to it; the imbalance is the difference of what the two have written |
| RingDrain.EveryDrainEnds | firmware/src/adc_dma_capture.cpp:282-382 | from any stopped state, second halves open or not, every sequence of acquires, releases and discards that do something ends within the debt of its start, and can go no further iff every buffer is Free, after exactly as many steps as were owed |
| RingDrain.Drain | firmware/src/adc_dma_capture.cpp:282-382 | such a sequence that frees every buffer |
| RingDrain.DrainsUnlessAtCeiling | firmware/src/adc_dma_capture.cpp:282-321 | a stopped ring can be drained iff no Ready buffer starts at pair number 2^64 - 1 |
| RingDrain.CeilingStaysForever | firmware/src/adc_dma_capture.cpp:288-300 | such a buffer stays Ready through any further run |
| RingDrain.CeilingIsReachable | firmware/src/adc_dma_capture.cpp:43-117 | a concrete run that reaches it |
| RingDrain.DrainedRingPrimes | firmware/src/adc_dma_capture.cpp:43-117 | a stopped ring with every buffer Free primes for any nonzero epoch and legal pair count |
| LittleEndian.UnpackPack | tools/generate_protocol.py:3749-3765 | a packed record of fitting values unpacks to them |
| LittleEndian.PackUnpack | firmware/soak/validator.py:362-362 | unpacked values fit their widths and pack to the same bytes |
| Adler.SumsOfTheStandard | firmware/soak/validator.py:276-277 | the checksum's halves are one plus the sum of the bytes, and the sum of all those running sums, modulo 65521 |
| Adler.NoFactors | firmware/soak/validator.py:276-277 | 65521 divides no product of a byte difference and a smaller number (Euclid's descent) |
| Adler.ChangeMoves | firmware/soak/validator.py:276-277 | what changing one byte adds to the two sums of Adler-32 (section 8.2 of RFC 1950) |
| Adler.TwoBytesDetected | firmware/soak/validator.py:276-277 | changing one or two bytes less than 65521 apart always changes the checksum |
| WireFormat.UnpackPackHeader | tools/generate_protocol.py:3749-3765 | a version 1 header survives packing and unpacking |
| FrameRules.HeaderFieldsLieAt | firmware/soak/validator.py:194-194 | every header field is the little-endian number at its own offset of the 44 bytes |
| FrameRules.DataHeadersAre | firmware/soak/validator.py:451-501 | the data headers accepted are exactly those of whole 4096-byte frames whose items fill the payload and start on an item's tick, of a run and no request, with the epoch flag exactly at the first frame and no overrun without a gap |
| FrameRules.DataHeaderCoversAFrame | firmware/soak/validator.py:451-501 | the items of an accepted data header fill its payload and cover 8096 ticks |
| FrameRules.AdmittedIsAccepted | firmware/soak/validator.py:451-501 | every data frame the validator admits into a tracked stream passes the parser's header and payload rules |
| FrameRules.AdmittedIsParsed | firmware/soak/validator.py:347-424 | so, with its true checksum, it is emitted, and the scan goes on behind it |
| FrameRules.AnswerHeadersAre | firmware/soak/validator.py:503-524 | the other headers accepted are exactly those of answers to a request, each of its own size |
| FrameRules.ErrorAnswers | firmware/soak/validator.py:527-541 | an answer marked as an error is accepted iff it carries the error status and one of twelve codes |
| FrameRules.SuccessPayloadsAre | firmware/soak/validator.py:527-578 | a successful answer's payload is accepted iff status and code are not an error's and every reserved byte is zero |
| FrameRules.HeaderErrorIsCounted | firmware/soak/validator.py:363-368 | bytes whose header breaks a rule cost themselves and one header error, and the frame behind them is found |
| FrameRules.ChecksumErrorIsCounted | firmware/soak/validator.py:377-383 | the same for a wrong checksum |
| FrameRules.PayloadErrorIsCounted | firmware/soak/validator.py:401-406 | the same for a payload that breaks a rule |
| FrameScan.LookIsStable | firmware/soak/validator.py:360-409 | more bytes never change a decision already made |
| FrameScan.ScanSplits | firmware/soak/validator.py:347-424 | scanning a stream in two parts, the second after the first's leftover, is scanning it whole |
| FrameScan.ChunkingIsIrrelevant | firmware/soak/validator.py:347-424 | any split gives the same frames, leftover and counts as the whole stream at once |
| FrameScan.PartialMagicIsKept | firmware/soak/validator.py:581-586 | without a magic, exactly the longest ending that could begin one is retained |
| FrameScan.FirstMagicIsReached | firmware/soak/validator.py:354-359 | jumping to the first magic discards exactly what the scan would byte by byte |
| FrameScan.WholeIsEncoded | firmware/soak/validator.py:360-409 | a frame is emitted at an offset iff a well-formed frame's encoding stands there |
| FrameScan.StreamRoundTrip | tools/generate_protocol.py:3749-3767 | frames with magic-free garbage anywhere before them come back exactly, with exactly the garbage discarded |
| FrameScan.ScanConserves | firmware/soak/validator.py:588-594 | bytes = discarded + framed + left over |
| FrameScan.RestIsShort | firmware/soak/validator.py:411-417 | what is retained is undecidable yet and shorter than one frame |
| FrameScan.CorruptionIsSeen | firmware/soak/validator.py:371-383 | a frame with one or two payload bytes changed is never emitted at its offset |
| FrameParsing.FrameParser.FindMagic | firmware/soak/validator.py:354-354 | the first magic from the scan start, or none |
| FrameParsing.FrameParser.PartialMagicSuffix | firmware/soak/validator.py:581-586 | the longest ending of the buffer that could begin a magic |
| FrameParsing.FrameParser.Feed | firmware/soak/validator.py:347-424 | after any call the state is the scan of everything fed; it raises iff the high-water mark exceeds its bound, and never for chunks within the maximum |
| FrameParsing.ReceivedIsAccountedFor | firmware/soak/validator.py:347-424 | received = discarded + decoded frame lengths + retained, with less than 4096 retained |
| Patterns.BuildAdcPattern | firmware/soak/validator.py:2216-2227 | builds the table of 2048 formula pairs |
| Patterns.CodesCountUp | firmware/soak/validator.py:2216-2227 | the codes of the pattern count up from zero modulo 4096, two to a pair |
| Patterns.SliceIsFormula | firmware/soak/validator.py:2406-2428 | equality with one slice of the doubled table iff every pair equals its formula, for every start index |
| Patterns.GpioSliceIsFormula | firmware/soak/validator.py:2449-2462 | equality with one slice of the expanded table iff every sample equals its index modulo 256 |
| Patterns.MaskIsRange | firmware/soak/validator.py:2429-2434 | one AND over the whole payload is zero iff every little-endian 16-bit code is at most 4095 |
| Continuity.AdmitTracks | firmware/soak/validator.py:2370-2376 | the expectations after an accepted frame are those of frames seen plus frames missing, across both wraps |
| Continuity.HoleIsMeasured | firmware/soak/validator.py:2312-2343 | a frame is continuous iff its true distance modulo 2^59 is at most 2^31 - 1, and that is what is counted missing |
| StreamValidation.StreamValidator.Accept | firmware/soak/validator.py:2288-2397 | counts a frame iff every rule holds; otherwise fails with the first rule in order that does not, and says what is true of the frame; raises after counting only for skew |
| StreamValidation.ValidateAdc | firmware/soak/validator.py:2399-2440 | accepts iff shape and samples meet the rules; names the first differing pair; the trailing raise is unreachable |
| StreamValidation.ValidateGpio | firmware/soak/validator.py:2442-2462 | accepts iff shape and samples meet the rules; names the first differing sample; the trailing raise is unreachable |
| StreamValidation.MissingIsExact | firmware/soak/validator.py:2288-2397 | over an accepted run with holes below 2^59, frames plus missing is the true number of frames, per stream |
| StreamValidation.TotalsAreExact | firmware/soak/validator.py:2345-2376 | over such a run, the frames flagged for a gap are exactly those whose true index lies beyond the next one expected; frames, items and bytes are those of the stream |
| StreamValidation.SkewIsExact | firmware/soak/validator.py:2377-2397 | over such a run, the skew is the true distance of the streams, the largest is recorded, and it stays within one frame unless gaps are expected and the streams announced different numbers of holes |
| StreamValidation.FlagsTellTheStream | firmware/soak/validator.py:2325-2335 | the flags of an admitted frame tell its true place: GAP and OVERRUN iff after a hole, EPOCH_START iff at a multiple of 2^59 frames |
| StreamValidation.StrictRunHasNoGaps | firmware/soak/validator.py:2319-2324 | without expected gaps nothing is missing and the streams stay within one frame |
| StreamValidation.AcceptedPairsFollowTheStream | firmware/soak/validator.py:2406-2428 | an accepted synthetic ADC frame holds the pairs of its place in the stream, however often the ticks have wrapped |
| StreamValidation.AcceptedSamplesFollowTheStream | firmware/soak/validator.py:2449-2462 | the same for GPIO samples |
| AcquisitionController.Controller.InspectStart | firmware/src/acquisition_controller.cpp:145-232 | asks every component of the run that is there, in order, and finds exactly what stands against the start beforehand and what the answers raise; clear iff the run is startable and every answer favourable |
| AcquisitionController.Controller.StartRun | firmware/src/acquisition_controller.cpp:284-462 | makes exactly the calls of the audit, then of the start's plan up to the first that fails; started: active with the given identity, everything included up, a lone GPIO capture started, the rate applied, the trigger armed last; failed past the reservation: exactly that undone, in the way it was brought up, and idle; refused: state unchanged and production stopped; the report tells what was brought up and how undoing it went |
| ControllerStarts.ReservedStart | firmware/src/acquisition_controller.cpp:302-462 | a started GPIO-only run has its capture started; with ADC no capture is ever started by itself and each of the run is prepared before the trigger is armed; questions, rate, packers, captures and trigger follow in that order; the rate is applied where there is a scheduler; the trigger was asked and stood still |
| ControllerStarts.UndoStopsAsBroughtUp | firmware/src/acquisition_controller.cpp:465-510 | a rollback stops every capture in the way it was brought up |
| AcquisitionController.Controller.RollbackStart | firmware/src/acquisition_controller.cpp:465-510 | makes exactly the calls that undo what the report says was brought up, captures first and a running trigger before them, the rate iff it was applied, production last; returns to idle |
| ControllerStarts.PiecesTogether | firmware/src/acquisition_controller.cpp:465-510 | the pieces of a rollback together undo exactly what the attempt achieved |
| AcquisitionController.Controller.StopAdcPath | firmware/src/acquisition_controller.cpp:513-541 | the capture is told of the boundary, then the trigger stopped; stopped iff the trigger confirmed; the capture is stopped after it, and only then; wrong iff some answer was |
| AcquisitionController.Controller.StopCombinedPaths | firmware/src/acquisition_controller.cpp:544-585 | the trigger first; stopped iff it confirmed; GPIO then ADC capture stopped after it, and only then |
| AcquisitionController.Controller.StopRun | firmware/src/acquisition_controller.cpp:588-639 | an active run becomes draining iff stopped, otherwise stop-pending; identity unchanged; exactly the calls of its paths; the report has an error iff an answer was wrong |
| AcquisitionController.Controller.PathDrained | firmware/src/acquisition_controller.cpp:668-710 | samples capture and packer, tells an emptied path's packer to stop, flushes what is left; drained iff the latest snapshots are quiescent |
| AcquisitionController.Controller.ServiceRun | firmware/src/acquisition_controller.cpp:742-818 | the exact calls of a round: checks, stop if due, service, stop if that failed, drain; active before and after: every capture sampled, no fault, no packer error; active before only: such an answer, and the fault reported; a run is given up only, and once draining always, when every enabled capture and packer is quiescent |
| ControllerRounds.RoundFindsFaults | firmware/src/acquisition_controller.cpp:713-818 | a run stays active through a round iff no capture answered a fault and no packer an error, every capture of it having been sampled |
| ControllerRounds.RoundServesEveryPacker | firmware/src/acquisition_controller.cpp:642-666 | unless the trigger will not stop, every packer of the run is serviced, as draining exactly when the run is no longer active by then |
| ControllerRounds.RoundServesOwnership | firmware/src/acquisition_controller.cpp:642-666 | in such a round, the captures of the run that move buffer ownership on are the ADC one and the auxiliary one, and no other |
| ControllerRounds.DrainSettles | firmware/src/acquisition_controller.cpp:668-710 | a draining packer is told to stop production iff its capture answered that it holds nothing more and the packer that it runs, and flushed iff it can be and has stopped with something left |
| ControllerRounds.RoundDrains | firmware/src/acquisition_controller.cpp:668-710 | only the auxiliary capture moves ownership on while draining; a GPIO bank packer that ends stopped with something left has been flushed, and no other packer ever is |
| ControllerRounds.RoundStopsInOrder | firmware/src/acquisition_controller.cpp:742-818 | in every round, whatever is stopped after its triggers is stopped after they have confirmed |
| AcquisitionController.Controller.ClearRunState | firmware/src/acquisition_controller.cpp:728-739 | idle with no identity |
| AcquisitionController.Controller.Perform | firmware/src/acquisition_controller.cpp:284-818 | over any sequence of calls and answers, a run starts only from idle, never returns to a phase it left, and keeps its run ID, epoch, mask and bank mode until idle |
| SampleCodecs.DecodeRle | tools/generate_protocol.py:1647-1674 | accepts iff the bytes are canonical runs of exactly the announced items, fewer bytes than raw; and decodes to those items |
| SampleCodecs.CanonicalIsMaximal | tools/generate_protocol.py:1654-1667 | canonical runs are the maximal runs of what they stand for |
| SampleCodecs.AcceptedIsMaximal | tools/generate_protocol.py:1647-1674 | accepted bytes are exactly the maximal-run encoding of their items |
| SampleCodecs.AcceptedIsUnique | tools/generate_protocol.py:1647-1674 | two accepted encodings of the same bytes are equal |
| SampleCodecs.AcceptedExists | tools/generate_protocol.py:1647-1674 | items have an accepted encoding iff their maximal-run encoding is strictly shorter |
| SampleCodecs.EncodeRle | firmware/src/rle_encoder.cpp:381-412 | the encoder's scan writes exactly the maximal runs |
| SampleCodecs.ParsedAt | tools/generate_protocol.py:1655-1661 | each run stands in the bytes as its little-endian length and then its item |
| SampleCodecs.PackedIsPacking | tools/generate_protocol.py:1640-1646 | every packed payload is the packing of the codes it unpacks to |
| SampleCodecs.PackingUnpacks | tools/generate_protocol.py:1640-1646 | every sequence of pairs of twelve-bit codes unpacks from its packing |
| SampleCodecs.PackedGroupAt | tools/generate_protocol.py:1640-1646 | three packed bytes are one little-endian number: the first code in the low twelve bits, the second above |
| SampleCodecs.SamplesAt | tools/generate_protocol.py:1640-1646 | each group decodes to its two codes as little-endian samples, the first code first |
| SampleCodecs.SamplesTellCodesApart | tools/generate_protocol.py:1640-1646 | different codes decode to different samples |
| FieldLayout.ValidateFields | tools/generate_protocol.py:130-159 | accepts iff names differ, every field lies inside, and every byte belongs to exactly one field; otherwise names the first fault |
| FieldLayout.CoverIsDisjoint | tools/generate_protocol.py:130-159 | fields of an accepted layout share no byte |
| SchemaEncoding.EncodeSchemaPayload | tools/generate_protocol.py:3135-3218 | the encoder computes the recursive specification function, refusals included |
| SchemaEncoding.EncodesIffFieldsDo | tools/generate_protocol.py:3145-3217 | a schema encodes iff every field has an encodable value and nothing else is supplied |
| SchemaEncoding.LeafLayout | tools/generate_protocol.py:3158-3194 | what each kind of leaf accepts, and how it lies in its bytes: numbers little-endian, text in front of zeros, pairs first of each first |
| SchemaEncoding.EveryFieldReadsBack | tools/generate_protocol.py:3135-3218 | in an encoded payload every field, however deep inside repeated records, holds at its offset the encoding of the value supplied or required |
| SchemaEncoding.FieldsDetermine | tools/generate_protocol.py:3135-3218 | the fields leave no byte of a payload open |
| SchemaEncoding.LeafReadsBack | tools/generate_protocol.py:3158-3194 | a field that nests nothing is read back as the value given; a text iff it holds no NUL |
| SchemaEncoding.LeafAtPathReadsBack | tools/generate_protocol.py:3135-3218 | reading the bytes at any path into nested records gives the value supplied or required there; a text iff it holds no NUL |
| SchemaEncoding.SchemaDecodes | tools/generate_protocol.py:3135-3218 | a recursive decoder gives back all supplied values, nested records included, iff no text among them holds a NUL |

## Left out

- HoleIsLoss: stated for runs without slot exhaustion; after one, generations are passed over without being scheduled,
  and pair numbers no longer account for them.
- CountersConserve: stated while the captured-pairs counter is below 2^64 - 1; at the ceiling saturation breaks the sums.
- HaltCapture: the progress check before the critical section reads the ring outside it; in `RingRuns` its verdict is
  therefore an arbitrary input of the atomic stop step, and the discard service that follows is separate steps.
- LostIsWritten: stated for runs without slot exhaustion and for channel progress that agrees with the ring.
- Prime: the cache calls are kept as their counters only; the contents of the sample storage are not modelled.
- Accept: clocks, receive gaps, diagnostic samples, emitted events and the minimum/maximum statistics of the first frame.
- InspectStart: whether a configuration is complete, and whether the pipeline matches the run, are answers from outside;
  the static resource contract, which is a compile-time constant, is not repeated; the three mode setters of the ADC
  capture and the error statistics are not logged.
- StartRun: the caller's report must not yet record a start, as in the runtime, which makes a new one for every loop.
- StopRun: the branch for an active run whose mask is none of the three is not written; `Valid` rules it out.
- ServiceRun: how many buffers a service may move is kept as whether the run drains; the check that the components of the
  run are there cannot fail and is not repeated; results that the source copies from packers and captures into the
  report, and its marks for packers it has told to stop, are kept as the log of calls and answers.
- EncodeSchemaPayload: `rank`, by which nesting is well founded, is a ghost argument; values of a kind Python would coerce
  (a number for a text or a byte field) are refused.
- EncodeRle: the capacity and overlap checks around the scan, and its word-at-a-time fast paths.
- DecodeRle: the fixture's other settings, which are compared with constants.
- Internals of packers, packet pipeline, trigger, GPIO capture and rate scheduler.
- The remaining STATUS equations and `reconcile_final_status`, which are flat arithmetic over counters of those components.
- Serial I/O, deadlines, reports, manifests, and the generator's renderers and constant-only checks.
