/** The paired DMA ring as a value: its records, its operations as functions of the whole ring. */
module RingModel {
  import opened FixedWidth

  const RING_DEPTH: nat := 8
  const SLOT_COUNT: nat := RING_DEPTH + 4
  const CONVERTER_COUNT: nat := 2
  const OVERFLOW_DESTINATION: u8 := RING_DEPTH
  const INVALID_DESTINATION: u8 := 0xFF
  const PAIRS_PER_FRAME: nat := 1012

  datatype BufferState = Free | DmaOwned | Ready | Reading | DiscardPending | Releasing

  datatype BufferRecord = BufferRecord(
    state: BufferState, epoch: u32, generation: u32, firstPair: u64, lease: u32)

  const FREE_RECORD := BufferRecord(Free, 0, 0, 0, 0)

  /** One value for each of the two converters. */
  datatype PerConverter<T> = PerConverter(adc0: T, adc1: T) {
    function At(converter: nat): T
      requires converter < CONVERTER_COUNT
    {
      if converter == 0 then adc0 else adc1
    }

    function With(converter: nat, value: T): PerConverter<T>
      requires converter < CONVERTER_COUNT
    {
      if converter == 0 then PerConverter(value, adc1) else PerConverter(adc0, value)
    }
  }

  /** The bits of a completion mask. */
  type Mask = PerConverter<bool>

  const NO_CONVERTER: Mask := PerConverter(false, false)

  predicate AllConverters(mask: Mask) {
    mask.adc0 && mask.adc1
  }

  datatype GenerationSlot = GenerationSlot(
    firstPair: u64, generation: u32, destination: u8, mask: Mask,
    minimumLost: u32, valid: bool, invalidData: bool)

  const EMPTY_SLOT := GenerationSlot(0, 0, INVALID_DESTINATION, NO_CONVERTER, 0, false, false)

  datatype Progress = Progress(
    majorLoops: PerConverter<u64>,
    results: PerConverter<u64>,
    pairedMajorLoops: u64,
    buffersCompleted: u64,
    buffersAcquired: u64,
    buffersReleased: u64,
    pairsCaptured: u64,
    pairsDelivered: u64,
    pairsLost: u64,
    stopDiscardedPairs: u64,
    incompleteConversions: u64,
    overwrittenConversions: u64,
    ringOverruns: u64,
    incompleteBuffers: u64,
    cacheDmaDiscards: u32,
    cacheCpuInvalidations: u32,
    readyHighWater: nat,
    adcEtcErrorEvents: u32,
    adcEtcErrorFlags: bv32,
    dmaErrorEvents: u32,
    completionMismatches: u32,
    destinationMismatches: u32,
    scheduleExhaustions: u32,
    invariantErrors: u32,
    staleCompletions: u32)

  const NO_PROGRESS := Progress(
    PerConverter(0, 0), PerConverter(0, 0), 0, 0, 0, 0, 0, 0, 0, 0, 0, 0, 0, 0,
    0, 0, 0, 0, 0, 0, 0, 0, 0, 0, 0)

  datatype RingState = RingState(
    records: seq<BufferRecord>,
    slots: seq<GenerationSlot>,
    progress: Progress,
    nextCompletion: PerConverter<u32>,
    nextFirstPair: u64,
    nextSchedule: u32,
    nextLease: u32,
    epoch: u32,
    pairsPerBuffer: u32,
    nextFreeSearch: nat,
    running: bool)

  function NoRecords(): (s: seq<BufferRecord>) {
    seq(RING_DEPTH, _ => FREE_RECORD)
  }

  function NoSlots(): (s: seq<GenerationSlot>) {
    seq(SLOT_COUNT, _ => EMPTY_SLOT)
  }

  const INITIAL: RingState := RingState(
    NoRecords(), NoSlots(), NO_PROGRESS, PerConverter(0, 0), 0, 0, 1, 0, PAIRS_PER_FRAME, 0, false)

  type Ring = r: RingState
    | && |r.records| == RING_DEPTH
      && |r.slots| == SLOT_COUNT
      && r.nextFreeSearch < RING_DEPTH
      && r.nextLease != 0
      && 1 <= r.pairsPerBuffer <= PAIRS_PER_FRAME
    witness INITIAL

  datatype Status =
    | Ok
    | AlreadyRunning
    | NotRunning
    | NotQuiescent
    | InvalidEpoch
    | InvalidConverter
    | InvalidCompletion
    | NoReadyBuffer
    | InvalidHandle
    | InvalidStopProgress
    | InvalidPairCount

  datatype PrimeResult = PrimeResult(
    status: Status, epoch: u32, activeGeneration: u32, queuedGeneration: u32,
    activeDestination: u8, queuedDestination: u8)

  datatype ReservationResult = ReservationResult(
    status: Status, epoch: u32, generation: u32, destination: u8)

  datatype CompletionResult = CompletionResult(
    status: Status, epoch: u32, completedGeneration: u32, futureGeneration: u32,
    converter: u8, completedDestination: u8, futureDestination: u8,
    mask: Mask, consumed: bool, pairReady: bool, pairLost: bool)

  /** The sample array a handle points into: none, or the storage of one buffer. */
  datatype Pointer = Null | Storage(buffer: nat)

  datatype BufferHandle = BufferHandle(
    pairs: Pointer, firstPair: u64, pairCount: u32, epoch: u32, lease: u32, bufferIndex: u8)

  const NO_HANDLE := BufferHandle(Null, 0, 0, 0, 0, INVALID_DESTINATION)

  datatype AcquireResult = AcquireResult(status: Status, handle: BufferHandle)

  datatype ChannelStop = ChannelStop(generation: u32, minorPairs: u32, destination: u8)

  datatype StopReport = StopReport(
    status: Status, pairsDiscarded: u64, buffersDiscarded: nat,
    readyToDrain: nat, readingToRelease: nat)

  predicate IsBufferDestination(destination: u8) {
    destination < RING_DEPTH
  }

  predicate IsDmaDestination(destination: u8) {
    IsBufferDestination(destination) || destination == OVERFLOW_DESTINATION
  }

  // ---------------------------------------------------------------- scans

  predicate Holds(slot: GenerationSlot, generation: u32) {
    slot.valid && slot.generation == generation
  }

  /** The first slot from `from` on that holds `generation`, or the table size. */
  function Find(slots: seq<GenerationSlot>, generation: u32, from: nat := 0): (i: nat)
    requires from <= |slots|
    ensures from <= i <= |slots|
    ensures i < |slots| ==> Holds(slots[i], generation)
    ensures forall j :: from <= j < i ==> !Holds(slots[j], generation)
    decreases |slots| - from
  {
    if from == |slots| || Holds(slots[from], generation) then from
    else Find(slots, generation, from + 1)
  }

  function FirstUnused(slots: seq<GenerationSlot>, from: nat := 0): (i: nat)
    requires from <= |slots|
    ensures from <= i <= |slots|
    ensures i < |slots| ==> !slots[i].valid
    ensures forall j :: from <= j < i ==> slots[j].valid
    decreases |slots| - from
  {
    if from == |slots| || !slots[from].valid then from else FirstUnused(slots, from + 1)
  }

  /** The candidate the rotating free search looks at on its `attempt`-th try. */
  function Candidate(start: nat, attempt: nat): (c: nat)
    requires start < RING_DEPTH && attempt <= RING_DEPTH
    ensures c < RING_DEPTH
    ensures c == if start + attempt < RING_DEPTH then start + attempt
                 else if start + attempt < 2 * RING_DEPTH then start + attempt - RING_DEPTH else 0
  {
    (start + attempt) % RING_DEPTH
  }

  function FreeAttempt(records: seq<BufferRecord>, start: nat, from: nat := 0): (a: nat)
    requires |records| == RING_DEPTH && start < RING_DEPTH && from <= RING_DEPTH
    ensures from <= a <= RING_DEPTH
    ensures a < RING_DEPTH ==> records[Candidate(start, a)].state == Free
    ensures forall b :: from <= b < a ==> records[Candidate(start, b)].state != Free
    decreases RING_DEPTH - from
  {
    if from == RING_DEPTH || records[Candidate(start, from)].state == Free then from
    else FreeAttempt(records, start, from + 1)
  }

  /** The rotating search gives up only when nothing is free. */
  lemma NoAttemptMeansNoneFree(records: seq<BufferRecord>, start: nat)
    requires |records| == RING_DEPTH && start < RING_DEPTH
    requires FreeAttempt(records, start) == RING_DEPTH
    ensures forall d :: 0 <= d < RING_DEPTH ==> records[d].state != Free
  {
    forall d | 0 <= d < RING_DEPTH
      ensures records[d].state != Free
    {
      var b := if d >= start then d - start else d + RING_DEPTH - start;
      assert Candidate(start, b) == d;
    }
  }

  function CountState(records: seq<BufferRecord>, state: BufferState): (n: nat)
    ensures n <= |records|
  {
    if |records| == 0 then 0
    else CountState(records[..|records| - 1], state) + (if records[|records| - 1].state == state then 1 else 0)
  }

  predicate AllFree(records: seq<BufferRecord>) {
    forall d :: 0 <= d < |records| ==> records[d].state == Free
  }

  /** The Ready record with the lowest pair number among the first `n`, below the initial ceiling. */
  function OldestReady(records: seq<BufferRecord>, n: nat): (d: nat)
    requires n <= |records| == RING_DEPTH
    ensures d <= RING_DEPTH
    ensures d < RING_DEPTH ==>
      && d < n && records[d].state == Ready && records[d].firstPair < MAX_64
      && forall j :: 0 <= j < n && records[j].state == Ready ==> records[d].firstPair <= records[j].firstPair
    ensures d == RING_DEPTH ==> forall j :: 0 <= j < n && records[j].state == Ready ==> records[j].firstPair == MAX_64
    ensures d < RING_DEPTH ==>
      forall j :: 0 <= j < d && records[j].state == Ready ==> records[d].firstPair < records[j].firstPair
  {
    if n == 0 then RING_DEPTH
    else
      var best := OldestReady(records, n - 1);
      var oldest := if best < RING_DEPTH then records[best].firstPair else MAX_64;
      if records[n - 1].state == Ready && records[n - 1].firstPair < oldest then n - 1 else best
  }

  function FirstDiscard(records: seq<BufferRecord>, from: nat := 0): (d: nat)
    requires from <= |records|
    ensures from <= d <= |records|
    ensures d < |records| ==> records[d].state == DiscardPending
    ensures forall j :: from <= j < d ==> records[j].state != DiscardPending
    decreases |records| - from
  {
    if from == |records| || records[from].state == DiscardPending then from
    else FirstDiscard(records, from + 1)
  }

  // ------------------------------------------------------- shared operations

  function NoteInvariantError(r: Ring): Ring {
    r.(progress := r.progress.(invariantErrors := SaturatingIncrement32(r.progress.invariantErrors)))
  }

  function Tainted(slot: GenerationSlot): GenerationSlot {
    if slot.valid then slot.(invalidData := true) else slot
  }

  function MarkOutstandingInvalid(r: Ring): Ring {
    r.(slots := seq(SLOT_COUNT, i requires 0 <= i < SLOT_COUNT => Tainted(r.slots[i])))
  }

  function MarkGenerationInvalid(r: Ring, generation: u32, minimumLost: u32): Ring {
    var i := Find(r.slots, generation);
    if i == SLOT_COUNT then
      NoteInvariantError(
        r.(progress := r.progress.(scheduleExhaustions := SaturatingIncrement32(r.progress.scheduleExhaustions))))
    else
      r.(slots := r.slots[i := r.slots[i].(invalidData := true,
                                           minimumLost := Max(r.slots[i].minimumLost, minimumLost))])
  }

  /** Reserves the next free buffer in rotation for `generation`; the overflow sink when none is free. */
  function TakeFreeBuffer(r: Ring, generation: u32, firstPair: u64): (Ring, u8) {
    var attempt := FreeAttempt(r.records, r.nextFreeSearch);
    if attempt == RING_DEPTH then (r, OVERFLOW_DESTINATION)
    else
      var d := Candidate(r.nextFreeSearch, attempt);
      (r.(records := r.records[d := BufferRecord(DmaOwned, r.epoch, generation, firstPair, 0)],
          nextFreeSearch := (d + 1) % RING_DEPTH),
       d)
  }

  /** The ring after scheduling `generation`, and the slot that holds it (the table size when none does). */
  function Schedule(r: Ring, generation: u32): (Ring, nat) {
    var existing := Find(r.slots, generation);
    if existing < SLOT_COUNT then (r, existing)
    else if generation != r.nextSchedule then (NoteInvariantError(r), SLOT_COUNT)
    else
      var unused := FirstUnused(r.slots);
      if unused == SLOT_COUNT then (r, SLOT_COUNT)
      else
        var (taken, destination) := TakeFreeBuffer(r, generation, r.nextFirstPair);
        var slot := GenerationSlot(r.nextFirstPair, generation, destination, NO_CONVERTER, 0, true, false);
        (taken.(slots := r.slots[unused := slot],
                nextSchedule := Wrap32(generation + 1),
                nextFirstPair := SaturatingAdd64(r.nextFirstPair, r.pairsPerBuffer)),
         unused)
  }

  // ------------------------------------------------------------------ prime

  /** The ring just before prime schedules its first generation. */
  function Cleared(r: Ring, epoch: u32, generation: u32, firstPair: u64, pairs: u32): Ring
    requires 1 <= pairs <= PAIRS_PER_FRAME
  {
    r.(progress := NO_PROGRESS, slots := NoSlots(),
       nextCompletion := PerConverter(generation, generation),
       nextFirstPair := firstPair, nextSchedule := generation, nextFreeSearch := 0,
       epoch := epoch, pairsPerBuffer := pairs, running := true)
  }

  function DiscardCache(p: Progress, times: nat): Progress
    decreases times
  {
    if times == 0 then p
    else DiscardCache(p, times - 1).(
      cacheDmaDiscards := SaturatingIncrement32(DiscardCache(p, times - 1).cacheDmaDiscards))
  }

  /** The first two generations scheduled: the ring after them and their slots. */
  function Seeds(r: Ring, generation: u32): (Ring, nat, nat) {
    var (once, active) := Schedule(r, generation);
    var (twice, queued) := Schedule(once, Wrap32(generation + 1));
    (twice, active, queued)
  }

  predicate Usable(r: Ring, active: nat, queued: nat) {
    && active < SLOT_COUNT
    && queued < SLOT_COUNT
    && IsBufferDestination(r.slots[active].destination)
    && IsBufferDestination(r.slots[queued].destination)
    && r.slots[active].destination != r.slots[queued].destination
  }

  function Abandoned(r: Ring): Ring {
    NoteInvariantError(r).(running := false, epoch := 0, slots := NoSlots(), records := NoRecords())
  }

  /** A cleared ring set running on its first two generations, or abandoned. */
  function SeedRun(r: Ring, generation: u32, refused: PrimeResult): (Ring, PrimeResult) {
    var (seeded, active, queued) := Seeds(r, generation);
    if !Usable(seeded, active, queued) then (Abandoned(seeded), refused)
    else
      (seeded.(progress := DiscardCache(seeded.progress, RING_DEPTH + 1)),
       refused.(status := Ok,
                activeDestination := seeded.slots[active].destination,
                queuedDestination := seeded.slots[queued].destination))
  }

  function Prime(r: Ring, epoch: u32, generation: u32, firstPair: u64, pairs: u32): (Ring, PrimeResult) {
    var refused := PrimeResult(NotQuiescent, epoch, generation, Wrap32(generation + 1),
                               INVALID_DESTINATION, INVALID_DESTINATION);
    if epoch == 0 then (r, refused.(status := InvalidEpoch))
    else if pairs == 0 || pairs > PAIRS_PER_FRAME then (r, refused.(status := InvalidPairCount))
    else if r.running then (r, refused.(status := AlreadyRunning))
    else if !AllFree(r.records) then (r, refused)
    else SeedRun(Cleared(r, epoch, generation, firstPair, pairs), generation, refused)
  }

  // ---------------------------------------------------------------- reserve

  function Reserve(r: Ring, epoch: u32, generation: u32): (Ring, ReservationResult) {
    var refused := ReservationResult(NotRunning, epoch, generation, INVALID_DESTINATION);
    if !r.running then (r, refused)
    else if epoch == 0 || epoch != r.epoch then (r, refused.(status := InvalidEpoch))
    else
      var (after, slot) := Schedule(r, generation);
      if slot == SLOT_COUNT then (after, refused.(status := InvalidCompletion))
      else (after, refused.(status := Ok, destination := after.slots[slot].destination))
  }

  // ------------------------------------------------------------- completion

  /** What a completion interrupt turns out to be. */
  datatype Verdict =
    | WhileStopped
    | OtherEpoch
    | UnknownConverter
    | OutOfOrder
    | Unscheduled
    | Repeated
    | Accepted(slot: nat)

  function Judge(r: Ring, converter: u8, epoch: u32, generation: u32): Verdict {
    if !r.running then WhileStopped
    else if epoch == 0 || epoch != r.epoch then OtherEpoch
    else if converter >= CONVERTER_COUNT then UnknownConverter
    else if generation != r.nextCompletion.At(converter) then OutOfOrder
    else
      var i := Find(r.slots, generation);
      if i == SLOT_COUNT then Unscheduled
      else if r.slots[i].mask.At(converter) then Repeated
      else Accepted(i)
  }

  predicate DestinationAgrees(slot: GenerationSlot, destination: u8) {
    destination == slot.destination && IsDmaDestination(destination)
  }

  /** The accepted completion entered into its slot and its converter's totals. */
  function Enter(r: Ring, converter: nat, i: nat, destination: u8): Ring
    requires converter < CONVERTER_COUNT && i < SLOT_COUNT
  {
    var slot := r.slots[i];
    var agrees := DestinationAgrees(slot, destination);
    var p := r.progress;
    r.(slots := r.slots[i := slot.(mask := slot.mask.With(converter, true),
                                   invalidData := slot.invalidData || !agrees)],
       nextCompletion := r.nextCompletion.With(converter, Wrap32(r.nextCompletion.At(converter) + 1)),
       progress := p.(
         destinationMismatches := if agrees then p.destinationMismatches
                                  else SaturatingIncrement32(p.destinationMismatches),
         completionMismatches := if agrees then p.completionMismatches
                                 else SaturatingIncrement32(p.completionMismatches),
         majorLoops := p.majorLoops.With(converter, SaturatingIncrement64(p.majorLoops.At(converter))),
         results := p.results.With(converter, SaturatingAdd64(p.results.At(converter), r.pairsPerBuffer))))
  }

  predicate Skewed(r: Ring) {
    Distance(r.progress.majorLoops.adc0, r.progress.majorLoops.adc1) > 1
  }

  function CheckSkew(r: Ring): Ring {
    if Skewed(r) then
      MarkOutstandingInvalid(
        r.(progress := r.progress.(
             completionMismatches := SaturatingIncrement32(r.progress.completionMismatches))))
    else r
  }

  function NoteExhaustion(r: Ring): Ring {
    r.(progress := r.progress.(scheduleExhaustions := SaturatingIncrement32(r.progress.scheduleExhaustions)))
  }

  /** Schedules the generation two ahead; a failure taints everything outstanding. */
  function Extend(r: Ring, generation: u32): (Ring, nat) {
    var (after, future) := Schedule(r, generation);
    if future == SLOT_COUNT then (MarkOutstandingInvalid(NoteExhaustion(after)), SLOT_COUNT)
    else (after, future)
  }

  predicate OwnershipMatches(r: Ring, slot: GenerationSlot) {
    && IsBufferDestination(slot.destination)
    && r.records[slot.destination].state == DmaOwned
    && r.records[slot.destination].epoch == r.epoch
    && r.records[slot.destination].generation == slot.generation
  }

  datatype Settlement = Settlement(ready: bool, lost: bool)

  /** Both converters have finished slot `i`: publishes, discards or counts the overrun, and empties the slot. */
  function Finalize(r: Ring, i: nat): (Ring, Settlement)
    requires i < SLOT_COUNT
  {
    var slot := r.slots[i];
    var p := r.progress.(
      pairedMajorLoops := SaturatingIncrement64(r.progress.pairedMajorLoops),
      pairsCaptured := SaturatingAdd64(r.progress.pairsCaptured, r.pairsPerBuffer));
    var lostPairs := SaturatingAdd64(p.pairsLost, r.pairsPerBuffer);
    var emptied := r.(slots := r.slots[i := EMPTY_SLOT], progress := p);
    if slot.destination == OVERFLOW_DESTINATION then
      (emptied.(progress := p.(ringOverruns := SaturatingIncrement64(p.ringOverruns), pairsLost := lostPairs)),
       Settlement(false, true))
    else if !IsBufferDestination(slot.destination) then
      (emptied.(progress := p.(invariantErrors := SaturatingIncrement32(p.invariantErrors),
                               incompleteBuffers := SaturatingIncrement64(p.incompleteBuffers),
                               pairsLost := lostPairs)),
       Settlement(false, true))
    else if !OwnershipMatches(r, slot) then
      (emptied.(progress := p.(invariantErrors := SaturatingIncrement32(p.invariantErrors),
                               incompleteBuffers := SaturatingIncrement64(p.incompleteBuffers),
                               pairsLost := lostPairs)),
       Settlement(false, true))
    else if slot.invalidData then
      (emptied.(records := r.records[slot.destination := r.records[slot.destination].(state := DiscardPending)],
                progress := p.(incompleteBuffers := SaturatingIncrement64(p.incompleteBuffers),
                               pairsLost := lostPairs)),
       Settlement(false, true))
    else
      var records := r.records[slot.destination := r.records[slot.destination].(state := Ready)];
      (emptied.(records := records,
                progress := p.(buffersCompleted := SaturatingIncrement64(p.buffersCompleted),
                               readyHighWater := Max(p.readyHighWater, CountState(records, Ready)))),
       Settlement(true, false))
  }

  /** An accepted completion up to the point where its slot may be finalized. */
  function Advance(r: Ring, converter: nat, i: nat, generation: u32, destination: u8): (Ring, nat)
    requires converter < CONVERTER_COUNT && i < SLOT_COUNT
  {
    Extend(CheckSkew(Enter(r, converter, i, destination)), Wrap32(generation + 2))
  }

  function Accept(r: Ring, converter: nat, i: nat, generation: u32, destination: u8): Ring
    requires converter < CONVERTER_COUNT && i < SLOT_COUNT
  {
    var (advanced, _) := Advance(r, converter, i, generation, destination);
    if AllConverters(advanced.slots[i].mask) then Finalize(advanced, i).0 else advanced
  }

  function CountStale(p: Progress): Progress {
    p.(staleCompletions := SaturatingIncrement32(p.staleCompletions))
  }

  function CountMismatch(p: Progress): Progress {
    p.(completionMismatches := SaturatingIncrement32(p.completionMismatches))
  }

  function Complete(r: Ring, converter: u8, epoch: u32, generation: u32, destination: u8): Ring {
    match Judge(r, converter, epoch, generation)
    case WhileStopped => r.(progress := CountStale(r.progress))
    case OtherEpoch => r.(progress := CountStale(r.progress))
    case UnknownConverter => NoteInvariantError(r)
    case OutOfOrder => r.(progress := CountMismatch(CountStale(r.progress)))
    case Unscheduled =>
      NoteInvariantError(NoteExhaustion(r.(
        progress := CountMismatch(r.progress),
        nextCompletion := r.nextCompletion.With(converter, Wrap32(generation + 1)))))
    case Repeated => r.(progress := CountMismatch(CountStale(r.progress)))
    case Accepted(i) => Accept(r, converter, i, generation, destination)
  }

  function CompleteResult(r: Ring, converter: u8, epoch: u32, generation: u32, destination: u8): CompletionResult {
    var base := CompletionResult(InvalidCompletion, epoch, generation, Wrap32(generation + 2), converter,
                                 destination, OVERFLOW_DESTINATION, NO_CONVERTER, false, false, false);
    match Judge(r, converter, epoch, generation)
    case WhileStopped => base.(status := NotRunning)
    case OtherEpoch => base.(status := InvalidEpoch)
    case UnknownConverter => base.(status := InvalidConverter)
    case OutOfOrder => base
    case Unscheduled => base.(consumed := true, pairLost := true)
    case Repeated => base
    case Accepted(i) =>
      var entered := Enter(r, converter, i, destination);
      var (advanced, future) := Advance(r, converter, i, generation, destination);
      var valid := DestinationAgrees(r.slots[i], destination) && !Skewed(entered) && future < SLOT_COUNT;
      var settled :=
        if AllConverters(advanced.slots[i].mask) then Finalize(advanced, i).1 else Settlement(false, false);
      base.(status := if valid then Ok else InvalidCompletion,
            futureDestination := if future < SLOT_COUNT then advanced.slots[future].destination
                                 else OVERFLOW_DESTINATION,
            mask := advanced.slots[i].mask, consumed := true,
            pairReady := settled.ready, pairLost := settled.lost)
  }

  // ----------------------------------------------------------------- errors

  predicate Listening(r: Ring, epoch: u32) {
    r.running && epoch != 0 && epoch == r.epoch
  }

  predicate MaskNames(mask: u8, converter: nat) {
    if converter == 0 then mask % 2 == 1 else (mask / 2) % 2 == 1
  }

  function ChargeOverwrite(r: Ring, mask: u8, converter: nat): Ring
    requires converter < CONVERTER_COUNT
  {
    if !MaskNames(mask, converter) then r
    else
      MarkGenerationInvalid(
        r.(progress := r.progress.(
             overwrittenConversions := SaturatingIncrement64(r.progress.overwrittenConversions))),
        r.nextCompletion.At(converter), 1)
  }

  function NoteEtcEvent(r: Ring, mask: u8, flags: bv32): Ring {
    var noted := if mask % 4 == 0 || mask % 4 != mask then NoteInvariantError(r) else r;
    noted.(progress := noted.progress.(
             adcEtcErrorEvents := SaturatingIncrement32(noted.progress.adcEtcErrorEvents),
             adcEtcErrorFlags := JoinFlags(noted.progress.adcEtcErrorFlags, flags)))
  }

  function RecordAdcEtcError(r: Ring, epoch: u32, mask: u8, flags: bv32): Ring {
    if !Listening(r, epoch) then r
    else ChargeOverwrite(ChargeOverwrite(NoteEtcEvent(r, mask, flags), mask, 0), mask, 1)
  }

  function RecordDmaError(r: Ring, epoch: u32, converter: u8): Ring {
    if !Listening(r, epoch) then r
    else if converter >= CONVERTER_COUNT then NoteInvariantError(r)
    else
      MarkGenerationInvalid(
        r.(progress := r.progress.(dmaErrorEvents := SaturatingIncrement32(r.progress.dmaErrorEvents))),
        r.nextCompletion.At(converter), 0)
  }

  // ----------------------------------------------------------------- leases

  /** The lease handed out, and the counter after it; zero is never handed out and never stored. */
  function AllocateLease(next: u32): (u32, u32) {
    var lease := next;
    var after := Wrap32(next + 1);
    var (given, counter) := if lease == 0 then (after, Wrap32(after + 1)) else (lease, after);
    (given, if counter == 0 then 1 else counter)
  }

  /** The handle that names a buffer in its present record. */
  function HandleOf(r: Ring, d: nat): BufferHandle
    requires d < RING_DEPTH
  {
    BufferHandle(Storage(d), r.records[d].firstPair, r.pairsPerBuffer, r.records[d].epoch, r.records[d].lease, d)
  }

  /** The critical section of acquireReady and the cache invalidation that follows it. */
  function Acquire(r: Ring): (Ring, AcquireResult) {
    var d := OldestReady(r.records, RING_DEPTH);
    if d == RING_DEPTH then (r, AcquireResult(NoReadyBuffer, NO_HANDLE))
    else
      var (lease, next) := AllocateLease(r.nextLease);
      var p := r.progress;
      var after := r.(
        records := r.records[d := r.records[d].(state := Reading, lease := lease)],
        nextLease := next,
        progress := p.(
          buffersAcquired := SaturatingIncrement64(p.buffersAcquired),
          pairsDelivered := SaturatingAdd64(p.pairsDelivered, r.pairsPerBuffer),
          cacheCpuInvalidations := SaturatingIncrement32(p.cacheCpuInvalidations)));
      (after, AcquireResult(Ok, HandleOf(after, d)))
  }

  predicate ValidForPairCount(handle: BufferHandle, pairs: u32) {
    && handle.pairs != Null
    && handle.bufferIndex < RING_DEPTH
    && 0 < pairs <= PAIRS_PER_FRAME
    && handle.pairCount == pairs
    && handle.epoch != 0
    && handle.lease != 0
  }

  predicate HandleMatches(r: Ring, handle: BufferHandle, state: BufferState) {
    && ValidForPairCount(handle, r.pairsPerBuffer)
    && var record := r.records[handle.bufferIndex];
       && record.state == state
       && record.epoch == handle.epoch
       && record.lease == handle.lease
       && record.firstPair == handle.firstPair
       && handle.pairs == Storage(handle.bufferIndex)
  }

  /** First critical section of release. */
  function ReleaseBegin(r: Ring, handle: BufferHandle): (Ring, Status) {
    if !HandleMatches(r, handle, Reading) then (r, InvalidHandle)
    else
      var d := handle.bufferIndex;
      (r.(records := r.records[d := r.records[d].(state := Releasing)]), Ok)
  }

  /** Cache discard and second critical section of release. */
  function ReleaseEnd(r: Ring, handle: BufferHandle): (Ring, Status) {
    var discarded := r.(progress := DiscardCache(r.progress, 1));
    if !HandleMatches(discarded, handle, Releasing) then (NoteInvariantError(discarded), InvalidHandle)
    else
      (discarded.(records := r.records[handle.bufferIndex := FREE_RECORD],
                  progress := discarded.progress.(
                    buffersReleased := SaturatingIncrement64(discarded.progress.buffersReleased))),
       Ok)
  }

  function Release(r: Ring, handle: BufferHandle): (Ring, Status) {
    var (begun, status) := ReleaseBegin(r, handle);
    if status != Ok then (begun, status) else ReleaseEnd(begun, handle)
  }

  /** First critical section of one serviceDiscarded round: the buffer claimed, or the ring depth. */
  function DiscardBegin(r: Ring): (Ring, nat) {
    var d := FirstDiscard(r.records);
    if d == RING_DEPTH then (r, RING_DEPTH)
    else (r.(records := r.records[d := r.records[d].(state := Releasing)]), d)
  }

  /** Cache discard and second critical section of one serviceDiscarded round. */
  function DiscardEnd(r: Ring, d: nat): (Ring, bool)
    requires d < RING_DEPTH
  {
    var discarded := r.(progress := DiscardCache(r.progress, 1));
    if r.records[d].state != Releasing then (NoteInvariantError(discarded), false)
    else (discarded.(records := r.records[d := FREE_RECORD]), true)
  }

  function ServiceDiscarded(r: Ring, limit: nat): (Ring, nat)
    decreases limit
  {
    if limit == 0 then (r, 0)
    else
      var (begun, d) := DiscardBegin(r);
      if d == RING_DEPTH then (begun, 0)
      else
        var (ended, freed) := DiscardEnd(begun, d);
        if !freed then (ended, 0)
        else var (rest, n) := ServiceDiscarded(ended, limit - 1); (rest, n + 1)
  }

  /** acquireReady with nothing in between: the discard service, then the critical section. */
  function AcquireReady(r: Ring): (Ring, AcquireResult) {
    Acquire(ServiceDiscarded(r, RING_DEPTH).0)
  }

  // ------------------------------------------------------------------- stop

  type Channels = PerConverter<ChannelStop>

  predicate ConsistentChannel(r: Ring, channels: Channels, converter: nat)
    requires converter < CONVERTER_COUNT
  {
    var channel := channels.At(converter);
    && channel.minorPairs <= r.pairsPerBuffer
    && IsDmaDestination(channel.destination)
    && channel.generation == r.nextCompletion.At(converter)
  }

  predicate ConsistentProgress(r: Ring, channels: Channels) {
    ConsistentChannel(r, channels, 0) && ConsistentChannel(r, channels, 1)
  }

  predicate Observed(slot: GenerationSlot, channels: Channels, converter: nat)
    requires converter < CONVERTER_COUNT
  {
    !slot.mask.At(converter) && channels.At(converter).generation == slot.generation
  }

  /** The pairs of a slot that one converter has already written. */
  function Contributed(slot: GenerationSlot, channels: Channels, converter: nat, pairs: u32): (n: u32)
    requires converter < CONVERTER_COUNT
    ensures n <= pairs
  {
    if slot.mask.At(converter) then pairs
    else if Observed(slot, channels, converter) then Min(channels.At(converter).minorPairs, pairs)
    else 0
  }

  predicate WrongDestination(slot: GenerationSlot, channels: Channels, converter: nat)
    requires converter < CONVERTER_COUNT
  {
    Observed(slot, channels, converter) && channels.At(converter).destination != slot.destination
  }

  function LostPairs(slot: GenerationSlot, channels: Channels, pairs: u32): u32 {
    Max(Max(Contributed(slot, channels, 0, pairs), Contributed(slot, channels, 1, pairs)), slot.minimumLost)
  }

  function Imbalance(slot: GenerationSlot, channels: Channels, pairs: u32): u32 {
    Distance(Contributed(slot, channels, 0, pairs), Contributed(slot, channels, 1, pairs))
  }

  function CountWrongDestination(p: Progress, slot: GenerationSlot, channels: Channels, converter: nat): Progress
    requires converter < CONVERTER_COUNT
  {
    if WrongDestination(slot, channels, converter) then
      p.(destinationMismatches := SaturatingIncrement32(p.destinationMismatches))
    else p
  }

  function CountStopLoss(p: Progress, slot: GenerationSlot, channels: Channels, pairs: u32): Progress {
    var lost := LostPairs(slot, channels, pairs);
    if lost == 0 then p
    else
      var counted := p.(
        pairsCaptured := SaturatingAdd64(p.pairsCaptured, lost),
        pairsLost := SaturatingAdd64(p.pairsLost, lost),
        stopDiscardedPairs := SaturatingAdd64(p.stopDiscardedPairs, lost));
      if slot.destination == OVERFLOW_DESTINATION then
        counted.(ringOverruns := SaturatingIncrement64(p.ringOverruns))
      else counted.(incompleteBuffers := SaturatingIncrement64(p.incompleteBuffers))
  }

  function CountImbalance(p: Progress, slot: GenerationSlot, channels: Channels, pairs: u32): Progress {
    var difference := Imbalance(slot, channels, pairs);
    if difference == 0 then p
    else p.(incompleteConversions := SaturatingAdd64(p.incompleteConversions, difference),
            completionMismatches := SaturatingIncrement32(p.completionMismatches))
  }

  datatype Halt = Halt(ring: Ring, discarded: u64, buffers: nat, valid: bool)

  /** Accounts for one outstanding slot and gives its buffer up for discarding. */
  function HaltSlot(h: Halt, i: nat, channels: Channels): Halt
    requires i < SLOT_COUNT
  {
    var r := h.ring;
    var slot := r.slots[i];
    if !slot.valid then h
    else
      var wrong := WrongDestination(slot, channels, 0) || WrongDestination(slot, channels, 1);
      var p0 := CountWrongDestination(CountWrongDestination(r.progress, slot, channels, 0), slot, channels, 1);
      var p1 := CountImbalance(CountStopLoss(p0, slot, channels, r.pairsPerBuffer), slot, channels, r.pairsPerBuffer);
      var discarded := SaturatingAdd64(h.discarded, LostPairs(slot, channels, r.pairsPerBuffer));
      var emptied := r.(slots := r.slots[i := EMPTY_SLOT], progress := p1);
      if !IsBufferDestination(slot.destination) then
        Halt(emptied, discarded, h.buffers, h.valid && !wrong)
      else if !OwnershipMatches(r, slot) then
        Halt(NoteInvariantError(emptied), discarded, h.buffers, false)
      else
        Halt(emptied.(records := r.records[slot.destination := r.records[slot.destination].(state := DiscardPending)]),
             discarded, h.buffers + 1, h.valid && !wrong)
  }

  /** The first `n` slots of a stopping ring accounted for. */
  function HaltSlots(h: Halt, n: nat, channels: Channels): Halt
    requires n <= SLOT_COUNT
  {
    if n == 0 then h else HaltSlot(HaltSlots(h, n - 1, channels), n - 1, channels)
  }

  /** The critical section of stop; `consistent` is the verdict of the progress check made before it. */
  function Stop(r: Ring, channels: Channels, consistent: bool): (Ring, StopReport) {
    if !r.running then (r, StopReport(NotRunning, 0, 0, 0, 0))
    else
      var h := HaltSlots(Halt(r.(running := false), 0, 0, consistent), SLOT_COUNT, channels);
      (h.ring,
       StopReport(if h.valid then Ok else InvalidStopProgress, h.discarded, h.buffers,
                  CountState(h.ring.records, Ready), CountState(h.ring.records, Reading)))
  }

  /** stop with nothing in between: the progress check, the critical section, and, if it was running, a full discard
      service. */
  function StopCapture(r: Ring, channels: Channels): (Ring, StopReport) {
    var (halted, report) := Stop(r, channels, ConsistentProgress(r, channels));
    (if r.running then ServiceDiscarded(halted, RING_DEPTH).0 else halted, report)
  }
}
