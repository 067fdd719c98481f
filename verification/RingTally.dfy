/** Every counter of the ring is the number of the things it counts since the last prime, up to its ceiling. */
module RingTally {
  import opened FixedWidth
  import opened RingModel
  import opened RingOwnership
  import opened RingTrack
  import opened RingSettle
  import opened RingRuns
  import opened RingTurns
  import opened RingCounters
  import opened RingAnswers

  /** What one step, or all the steps since the last prime, add to the counters, and the most buffers Ready at once
      after a publication. */
  datatype Tally = Tally(
    loops: PerConverter<nat>, results: PerConverter<nat>,
    paired: nat, completed: nat, acquired: nat, released: nat,
    captured: nat, delivered: nat, lost: nat, stopDiscarded: nat,
    incompleteConversions: nat, overwritten: nat, overruns: nat, incomplete: nat,
    dmaDiscards: nat, cpuInvalidations: nat, etcEvents: nat, dmaEvents: nat,
    mismatches: nat, destinationMismatches: nat, exhaustions: nat, invariantErrors: nat, stale: nat,
    peak: nat)

  const NONE: Tally := Tally(PerConverter(0, 0), PerConverter(0, 0), 0, 0, 0, 0, 0, 0, 0, 0, 0, 0, 0, 0, 0, 0, 0, 0,
                             0, 0, 0, 0, 0, 0)

  function Plus(t: Tally, g: Tally): Tally {
    Tally(PerConverter(t.loops.adc0 + g.loops.adc0, t.loops.adc1 + g.loops.adc1),
          PerConverter(t.results.adc0 + g.results.adc0, t.results.adc1 + g.results.adc1),
          t.paired + g.paired, t.completed + g.completed, t.acquired + g.acquired, t.released + g.released,
          t.captured + g.captured, t.delivered + g.delivered, t.lost + g.lost, t.stopDiscarded + g.stopDiscarded,
          t.incompleteConversions + g.incompleteConversions, t.overwritten + g.overwritten, t.overruns + g.overruns,
          t.incomplete + g.incomplete, t.dmaDiscards + g.dmaDiscards, t.cpuInvalidations + g.cpuInvalidations,
          t.etcEvents + g.etcEvents, t.dmaEvents + g.dmaEvents, t.mismatches + g.mismatches,
          t.destinationMismatches + g.destinationMismatches, t.exhaustions + g.exhaustions,
          t.invariantErrors + g.invariantErrors, t.stale + g.stale,
          Max(t.peak, g.peak))
  }

  function One(b: bool): nat {
    if b then 1 else 0
  }

  function Up64(value: u64, gain: nat): u64 {
    Min(value + gain, MAX_64)
  }

  function Up32(value: u32, gain: nat): u32 {
    Min(value + gain, MAX_32)
  }

  /** `q` is `p` with every gain added, each counter no further than its ceiling; the error flags are the same. */
  predicate Counts(p: Progress, q: Progress, g: Tally) {
    && q.majorLoops == PerConverter(Up64(p.majorLoops.adc0, g.loops.adc0), Up64(p.majorLoops.adc1, g.loops.adc1))
    && q.results == PerConverter(Up64(p.results.adc0, g.results.adc0), Up64(p.results.adc1, g.results.adc1))
    && q.pairedMajorLoops == Up64(p.pairedMajorLoops, g.paired)
    && q.buffersCompleted == Up64(p.buffersCompleted, g.completed)
    && q.buffersAcquired == Up64(p.buffersAcquired, g.acquired)
    && q.buffersReleased == Up64(p.buffersReleased, g.released)
    && q.pairsCaptured == Up64(p.pairsCaptured, g.captured)
    && q.pairsDelivered == Up64(p.pairsDelivered, g.delivered)
    && q.pairsLost == Up64(p.pairsLost, g.lost)
    && q.stopDiscardedPairs == Up64(p.stopDiscardedPairs, g.stopDiscarded)
    && q.incompleteConversions == Up64(p.incompleteConversions, g.incompleteConversions)
    && q.overwrittenConversions == Up64(p.overwrittenConversions, g.overwritten)
    && q.ringOverruns == Up64(p.ringOverruns, g.overruns)
    && q.incompleteBuffers == Up64(p.incompleteBuffers, g.incomplete)
    && q.cacheDmaDiscards == Up32(p.cacheDmaDiscards, g.dmaDiscards)
    && q.cacheCpuInvalidations == Up32(p.cacheCpuInvalidations, g.cpuInvalidations)
    && q.adcEtcErrorEvents == Up32(p.adcEtcErrorEvents, g.etcEvents)
    && q.dmaErrorEvents == Up32(p.dmaErrorEvents, g.dmaEvents)
    && q.completionMismatches == Up32(p.completionMismatches, g.mismatches)
    && q.destinationMismatches == Up32(p.destinationMismatches, g.destinationMismatches)
    && q.scheduleExhaustions == Up32(p.scheduleExhaustions, g.exhaustions)
    && q.invariantErrors == Up32(p.invariantErrors, g.invariantErrors)
    && q.staleCompletions == Up32(p.staleCompletions, g.stale)
    && q.readyHighWater == Max(p.readyHighWater, g.peak)
    && q.adcEtcErrorFlags == p.adcEtcErrorFlags
  }

  lemma CountsTwice(p: Progress, q: Progress, s: Progress, g: Tally, h: Tally)
    requires Counts(p, q, g) && Counts(q, s, h)
    ensures Counts(p, s, Plus(g, h))
  {
  }

  /** Error flags accumulate. */
  function Flagged(p: Progress, flags: bv32): Progress {
    p.(adcEtcErrorFlags := JoinFlags(p.adcEtcErrorFlags, flags))
  }

  // --------------------------------------------------- what each step is worth

  /** Scheduling a generation that has no slot is an invariant error unless it is next in turn. */
  function ReserveGain(r: Ring, generation: u32): Tally {
    NONE.(invariantErrors := One(!HasSlot(r, generation) && generation != r.nextSchedule))
  }

  /** A failed look-ahead is an exhaustion as well. */
  function LookaheadGain(r: Ring, generation: u32): Tally {
    ReserveGain(r, generation).(exhaustions := One(!Schedulable(r, generation)))
  }

  /** A major loop and a buffer of results for the converter; a mismatch for a wrong destination, and one for drifting
      apart. */
  function LoopGain(r: Ring, converter: nat, i: nat, destination: u8): Tally
    requires converter < CONVERTER_COUNT && i < SLOT_COUNT
  {
    var strays := One(destination != r.slots[i].destination);
    NONE.(loops := PerConverter(One(converter == 0), One(converter == 1)),
          results := PerConverter(if converter == 0 then r.pairsPerBuffer else 0,
                                  if converter == 1 then r.pairsPerBuffer else 0),
          mismatches := strays + One(Drifts(r, converter)), destinationMismatches := strays)
  }

  /** The second converter to finish adds a pair of loops and a buffer of pairs: Ready, or lost to the overflow sink or
      with its buffer; `depth` buffers were Ready before. */
  function CloseGain(slot: GenerationSlot, ready: bool, pairs: u32, depth: nat): Tally {
    var overrun := slot.destination == OVERFLOW_DESTINATION;
    NONE.(paired := 1, captured := pairs, completed := One(ready), lost := if ready then 0 else pairs,
          overruns := One(overrun), incomplete := One(!ready && !overrun), peak := if ready then depth + 1 else 0)
  }

  function AcceptGain(r: Ring, converter: nat, i: nat, destination: u8): Tally
    requires converter < CONVERTER_COUNT && i < SLOT_COUNT
  {
    var slot := r.slots[i];
    var both := Plus(LoopGain(r, converter, i, destination), LookaheadGain(r, Wrap32(slot.generation + 2)));
    if !slot.mask.At(1 - converter) then both
    else Plus(both, CloseGain(slot, Publishes(r, converter, i, destination), r.pairsPerBuffer, ReadyDepth(r)))
  }

  /** A completion interrupt. One of the wrong epoch or while stopped is stale; one out of order or repeated is a stale
      mismatch; one whose generation lost its slot is a mismatch, an exhaustion and an invariant error. */
  function CompleteGain(r: Ring, converter: u8, epoch: u32, generation: u32, destination: u8): Tally {
    if !Listening(r, epoch) then NONE.(stale := 1)
    else if converter >= CONVERTER_COUNT then NONE.(invariantErrors := 1)
    else if generation != r.nextCompletion.At(converter) then NONE.(stale := 1, mismatches := 1)
    else if !HasSlot(r, generation) then NONE.(mismatches := 1, exhaustions := 1, invariantErrors := 1)
    else
      var i := Find(r.slots, generation);
      if r.slots[i].mask.At(converter) then NONE.(stale := 1, mismatches := 1)
      else AcceptGain(r, converter, i, destination)
  }

  /** An error charged to a generation that has no slot is an exhaustion and an invariant error. */
  function ChargeGain(r: Ring, converter: nat): Tally
    requires converter < CONVERTER_COUNT
  {
    var missing := One(!HasSlot(r, r.nextCompletion.At(converter)));
    NONE.(exhaustions := missing, invariantErrors := missing)
  }

  function OverwriteGain(r: Ring, named: bool, converter: nat): Tally
    requires converter < CONVERTER_COUNT
  {
    if named then Plus(NONE.(overwritten := 1), ChargeGain(r, converter)) else NONE
  }

  /** The lowest two bits of a mask name the converters. */
  function Named(mask: u8): Mask {
    PerConverter(mask % 2 == 1, mask % 4 >= 2)
  }

  /** An overwrite interrupt; a mask that names no converter, or more than there are, is an invariant error. */
  function EtcGain(r: Ring, mask: u8): Tally {
    var named := Named(mask);
    Plus(Plus(NONE.(etcEvents := 1, invariantErrors := One(!(1 <= mask <= 3))), OverwriteGain(r, named.adc0, 0)),
         OverwriteGain(r, named.adc1, 1))
  }

  /** A channel that writes elsewhere than to the slot's destination. */
  function StrayGain(slot: GenerationSlot, channels: Channels, converter: nat): Tally
    requires converter < CONVERTER_COUNT
  {
    NONE.(destinationMismatches := One(WrongDestination(slot, channels, converter)))
  }

  /** The pairs lost with a slot, and an overrun or an incomplete buffer if there are any. */
  function LossGain(slot: GenerationSlot, channels: Channels, pairs: u32): Tally {
    var lost := LostPairs(slot, channels, pairs);
    var overrun := slot.destination == OVERFLOW_DESTINATION;
    NONE.(captured := lost, lost := lost, stopDiscarded := lost,
          overruns := One(lost > 0 && overrun), incomplete := One(lost > 0 && !overrun))
  }

  /** The conversions by which one converter is behind the other, and a mismatch if it is. */
  function UnevenGain(slot: GenerationSlot, channels: Channels, pairs: u32): Tally {
    var behind := Imbalance(slot, channels, pairs);
    NONE.(incompleteConversions := behind, mismatches := One(behind > 0))
  }

  /** What a stop adds for one slot. */
  function SlotGain(slot: GenerationSlot, channels: Channels, pairs: u32): Tally {
    if !slot.valid then NONE
    else
      Plus(Plus(Plus(StrayGain(slot, channels, 0), StrayGain(slot, channels, 1)), LossGain(slot, channels, pairs)),
           UnevenGain(slot, channels, pairs))
  }

  function StopGain(r: Ring, channels: Channels, n: nat): Tally
    requires n <= SLOT_COUNT
  {
    if n == 0 then NONE else Plus(StopGain(r, channels, n - 1), SlotGain(r.slots[n - 1], channels, r.pairsPerBuffer))
  }

  /** What a step other than a prime adds. */
  function Gain(s: System, e: Event): Tally {
    var r := s.ring;
    match e
    case Prime(_, _, _, _) => NONE
    case Reserve(epoch, generation) => if Listening(r, epoch) then ReserveGain(r, generation) else NONE
    case Complete(converter, epoch, generation, destination) =>
      CompleteGain(r, converter, epoch, generation, destination)
    case AdcEtcError(epoch, mask, _) => if Listening(r, epoch) then EtcGain(r, mask) else NONE
    case DmaError(epoch, converter) =>
      if !Listening(r, epoch) then NONE
      else if converter >= CONVERTER_COUNT then NONE.(invariantErrors := 1)
      else Plus(NONE.(dmaEvents := 1), ChargeGain(r, converter))
    case Acquire =>
      if RingModel.Acquire(r).1.status == Ok then
        NONE.(acquired := 1, delivered := r.pairsPerBuffer, cpuInvalidations := 1)
      else NONE
    case EndRelease(d) =>
      if d in s.flights && s.flights[d].ByHandle? then NONE.(dmaDiscards := 1, released := 1) else NONE
    case EndDiscard(d) => if d in s.flights && s.flights[d].ByService? then NONE.(dmaDiscards := 1) else NONE
    case Stop(channels, _) => if r.running then StopGain(r, channels, SLOT_COUNT) else NONE
    case _ => NONE
  }

  /** The counters before a step, with the flags it brings. */
  function Before(r: Ring, e: Event): Progress {
    if e.AdcEtcError? && Listening(r, e.epoch) then Flagged(r.progress, e.flags) else r.progress
  }

  /** All the error flags since the last prime that succeeded. */
  ghost function FlagsRun(events: seq<Event>): bv32 {
    if events == [] then 0
    else
      var (before, e) := (events[..|events| - 1], events[|events| - 1]);
      if Primes(Run(before).ring, e) then 0
      else if e.AdcEtcError? && Listening(Run(before).ring, e.epoch) then JoinFlags(FlagsRun(before), e.flags)
      else FlagsRun(before)
  }

  /** The gains since the last prime that succeeded; it cleans the cache over every buffer and the overflow sink. */
  ghost function TallyRun(events: seq<Event>): Tally {
    if events == [] then NONE
    else
      var (before, e) := (events[..|events| - 1], events[|events| - 1]);
      if Primes(Run(before).ring, e) then NONE.(dmaDiscards := RING_DEPTH + 1)
      else Plus(TallyRun(before), Gain(Run(before), e))
  }

  // ------------------------------------------------------------- preservation

  lemma SameCounts(p: Progress)
    ensures Counts(p, p, NONE)
  {
  }

  lemma ScheduleCounts(r: Ring, generation: u32)
    ensures Counts(r.progress, Schedule(r, generation).0.progress, ReserveGain(r, generation))
    ensures Schedule(r, generation).1 <= SLOT_COUNT
  {
    hide TakeFreeBuffer;
    ScheduleEffect(r, generation);
    assert TakeFreeBuffer(r, generation, r.nextFirstPair).0.progress == r.progress by {
      TakingCountsNothing(r, generation, r.nextFirstPair);
    }
  }

  lemma TakingCountsNothing(r: Ring, generation: u32, firstPair: u64)
    ensures TakeFreeBuffer(r, generation, firstPair).0.progress == r.progress
  {
  }

  lemma ExtendProgress(r: Ring, generation: u32)
    requires Schedule(r, generation).1 <= SLOT_COUNT
    ensures var (scheduled, k) := Schedule(r, generation);
            Extend(r, generation).0.progress
            == if k < SLOT_COUNT then scheduled.progress else NoteExhaustion(scheduled).progress
  {
    hide Schedule;
  }

  lemma ExtendCounts(r: Ring, generation: u32)
    ensures Counts(r.progress, Extend(r, generation).0.progress, LookaheadGain(r, generation))
  {
    hide Schedule, Schedulable;
    ScheduleCounts(r, generation);
    ScheduleSucceeds(r, generation);
    ExtendProgress(r, generation);
  }

  lemma EnterCounts(r: Ring, converter: nat, i: nat, destination: u8)
    requires converter < CONVERTER_COUNT && i < SLOT_COUNT && SlotOwns(r, i) && r.slots[i].valid
    ensures Counts(r.progress, CheckSkew(Enter(r, converter, i, destination)).progress,
                   LoopGain(r, converter, i, destination))
  {
    assert Skewed(Enter(r, converter, i, destination)) <==> Drifts(r, converter);
  }

  lemma PublishedDepth(a: Ring, i: nat)
    requires i < SLOT_COUNT && SlotOwns(a, i) && a.slots[i].valid
    ensures var (after, settled) := Finalize(a, i);
            settled.ready ==> ReadyDepth(after) == ReadyDepth(a) + 1
  {
    FinalizeEffect(a, i);
    var (after, settled) := Finalize(a, i);
    hide Finalize, CountState;
    if settled.ready {
      CountStateUpdate(a.records, a.slots[i].destination, after.records[a.slots[i].destination], Ready);
    }
  }

  lemma FinalizeCounts(a: Ring, i: nat)
    requires i < SLOT_COUNT && SlotOwns(a, i) && a.slots[i].valid
    ensures var (after, settled) := Finalize(a, i);
            Counts(a.progress, after.progress, CloseGain(a.slots[i], settled.ready, a.pairsPerBuffer, ReadyDepth(a)))
  {
    hide CountState;
    assert Max(a.progress.readyHighWater, 0) == a.progress.readyHighWater;
    hide Max;
    PublishedDepth(a, i);
    FinalizeEffect(a, i);
  }

  /** What an accepted completion marks does not change where its look-ahead lands. */
  lemma LookaheadIgnoresMarks(r: Ring, converter: nat, i: nat, destination: u8, generation: u32)
    requires converter < CONVERTER_COUNT && i < SLOT_COUNT && r.slots[i].valid
    ensures LookaheadGain(CheckSkew(Enter(r, converter, i, destination)), generation) == LookaheadGain(r, generation)
  {
    var c := CheckSkew(Enter(r, converter, i, destination));
    ReviewedIsEntered(r, converter, i, destination);
    hide Enter, CheckSkew, Schedule;
    EnteredKeys(r, c, converter, i);
    SearchByKeys(c.slots, r.slots, generation);
    ScheduleIgnoresMarks(r, c, converter, i, generation);
  }

  lemma AcceptCounts(r: Ring, converter: nat, i: nat, generation: u32, destination: u8)
    requires Owned(r) && converter < CONVERTER_COUNT && i < SLOT_COUNT
    requires Holds(r.slots[i], generation) && !r.slots[i].mask.At(converter)
    ensures Counts(r.progress, Accept(r, converter, i, generation, destination).progress,
                   AcceptGain(r, converter, i, destination))
  {
    hide Enter, CheckSkew, Extend, Finalize, Matched, Counts, Publishes, Schedulable, Drifts, HasSlot, Plus, LoopGain,
      LookaheadGain;
    var c := CheckSkew(Enter(r, converter, i, destination));
    var future := Wrap32(generation + 2);
    var a := Advance(r, converter, i, generation, destination).0;
    SlotIsOwned(r, i);
    EnterCounts(r, converter, i, destination);
    ExtendCounts(c, future);
    LookaheadIgnoresMarks(r, converter, i, destination, future);
    CountsTwice(r.progress, c.progress, a.progress, LoopGain(r, converter, i, destination), LookaheadGain(r, future));
    AdvancedSlots(r, converter, i, generation, destination);
    AdvanceKeepsPairs(r, converter, i, generation, destination);
    AdvanceKeepsDepth(r, converter, i, generation, destination);
    if AllConverters(a.slots[i].mask) {
      SlotIsOwned(a, i);
      FinalizeCounts(a, i);
      FinishedPublishes(r, converter, i, generation, destination);
      CountsTwice(r.progress, a.progress, Finalize(a, i).0.progress,
                  Plus(LoopGain(r, converter, i, destination), LookaheadGain(r, future)),
                  CloseGain(a.slots[i], Finalize(a, i).1.ready, a.pairsPerBuffer, ReadyDepth(a)));
    }
  }

  lemma AdvanceKeepsPairs(r: Ring, converter: nat, i: nat, generation: u32, destination: u8)
    requires converter < CONVERTER_COUNT && i < SLOT_COUNT
    ensures Advance(r, converter, i, generation, destination).0.pairsPerBuffer == r.pairsPerBuffer
  {
    hide Enter, Schedule, Extend;
    var c := CheckSkew(Enter(r, converter, i, destination));
    ReviewedIsEntered(r, converter, i, destination);
    ScheduleKeepsRun(c, Wrap32(generation + 2));
  }

  lemma AdvanceKeepsDepth(r: Ring, converter: nat, i: nat, generation: u32, destination: u8)
    requires Owned(r) && converter < CONVERTER_COUNT && i < SLOT_COUNT && Holds(r.slots[i], generation)
    ensures ReadyDepth(Advance(r, converter, i, generation, destination).0) == ReadyDepth(r)
  {
    hide Advance, Schedule, Matched, CountState;
    var a := Advance(r, converter, i, generation, destination).0;
    AdvanceIsEntered(r, converter, i, generation, destination);
    RingCounters.ScheduleKeepsReady(r, Wrap32(generation + 2));
    CountStateAlike(r.records, a.records, Ready);
  }

  lemma StaleCounts(p: Progress)
    ensures Counts(p, CountStale(p), NONE.(stale := 1))
    ensures Counts(p, CountMismatch(CountStale(p)), NONE.(stale := 1, mismatches := 1))
  {
  }

  lemma UnscheduledCounts(r: Ring)
    ensures Counts(r.progress, NoteInvariantError(NoteExhaustion(r.(progress := CountMismatch(r.progress)))).progress,
                   NONE.(mismatches := 1, exhaustions := 1, invariantErrors := 1))
  {
  }

  lemma RefusedCounts(r: Ring, converter: u8, epoch: u32, generation: u32, destination: u8)
    requires !Judge(r, converter, epoch, generation).Accepted?
    ensures Counts(r.progress, RingModel.Complete(r, converter, epoch, generation, destination).progress,
                   CompleteGain(r, converter, epoch, generation, destination))
  {
    StaleCounts(r.progress);
    UnscheduledCounts(r);
    InvariantErrorCounts(r);
    hide Find, Counts, CountStale, CountMismatch;
  }

  lemma CompleteCounts(r: Ring, converter: u8, epoch: u32, generation: u32, destination: u8)
    requires Owned(r)
    ensures Counts(r.progress, RingModel.Complete(r, converter, epoch, generation, destination).progress,
                   CompleteGain(r, converter, epoch, generation, destination))
  {
    hide Accept, AcceptGain, Matched, Find, Counts;
    var verdict := Judge(r, converter, epoch, generation);
    if verdict.Accepted? {
      AcceptCounts(r, converter, verdict.slot, generation, destination);
    } else {
      RefusedCounts(r, converter, epoch, generation, destination);
    }
  }

  lemma ReserveCounts(r: Ring, epoch: u32, generation: u32)
    ensures Counts(r.progress, RingModel.Reserve(r, epoch, generation).0.progress,
                   if Listening(r, epoch) then ReserveGain(r, generation) else NONE)
  {
    hide Schedule, ReserveGain, Counts;
    ScheduleCounts(r, generation);
    SameCounts(r.progress);
  }

  lemma MarkCounts(r: Ring, converter: nat, minimumLost: u32)
    requires converter < CONVERTER_COUNT
    ensures Counts(r.progress, MarkGenerationInvalid(r, r.nextCompletion.At(converter), minimumLost).progress,
                   ChargeGain(r, converter))
    ensures SameKeys(MarkGenerationInvalid(r, r.nextCompletion.At(converter), minimumLost).slots, r.slots)
    ensures MarkGenerationInvalid(r, r.nextCompletion.At(converter), minimumLost).nextCompletion == r.nextCompletion
  {
  }

  lemma ChargeOverwriteCounts(r: Ring, mask: u8, converter: nat)
    requires converter < CONVERTER_COUNT
    ensures Counts(r.progress, ChargeOverwrite(r, mask, converter).progress,
                   OverwriteGain(r, Named(mask).At(converter), converter))
    ensures SameKeys(ChargeOverwrite(r, mask, converter).slots, r.slots)
    ensures ChargeOverwrite(r, mask, converter).nextCompletion == r.nextCompletion
  {
    hide MarkGenerationInvalid, ChargeGain, Counts, Plus;
    NamingBits(mask);
    SameCounts(r.progress);
    if MaskNames(mask, converter) {
      var counted := r.(progress := r.progress.(
        overwrittenConversions := SaturatingIncrement64(r.progress.overwrittenConversions)));
      MarkCounts(counted, converter, 1);
      SameChargeGain(r, counted, converter);
      OverwriteCounts(r.progress);
      CountsTwice(r.progress, counted.progress, ChargeOverwrite(r, mask, converter).progress,
                  NONE.(overwritten := 1), ChargeGain(r, converter));
    }
  }

  lemma OverwriteCounts(p: Progress)
    ensures Counts(p, p.(overwrittenConversions := SaturatingIncrement64(p.overwrittenConversions)),
                   NONE.(overwritten := 1))
  {
  }

  lemma NamingBits(mask: u8)
    ensures MaskNames(mask, 0) == Named(mask).adc0 && MaskNames(mask, 1) == Named(mask).adc1
  {
  }

  lemma SameChargeGain(r: Ring, q: Ring, converter: nat)
    requires converter < CONVERTER_COUNT && SameKeys(q.slots, r.slots) && q.nextCompletion == r.nextCompletion
    ensures ChargeGain(q, converter) == ChargeGain(r, converter)
  {
    SearchByKeys(q.slots, r.slots, r.nextCompletion.At(converter));
  }

  lemma EtcEventCounts(r: Ring, mask: u8, flags: bv32)
    ensures Counts(Flagged(r.progress, flags), NoteEtcEvent(r, mask, flags).progress,
                   NONE.(etcEvents := 1, invariantErrors := One(!(1 <= mask <= 3))))
    ensures NoteEtcEvent(r, mask, flags).slots == r.slots
    ensures NoteEtcEvent(r, mask, flags).nextCompletion == r.nextCompletion
  {
    hide JoinFlags;
  }

  lemma EtcCounts(r: Ring, mask: u8, flags: bv32)
    ensures Counts(Flagged(r.progress, flags),
                   ChargeOverwrite(ChargeOverwrite(NoteEtcEvent(r, mask, flags), mask, 0), mask, 1).progress,
                   EtcGain(r, mask))
  {
    hide Counts, NoteEtcEvent, ChargeOverwrite, ChargeGain, Plus, Flagged;
    var noted := NoteEtcEvent(r, mask, flags);
    var once := ChargeOverwrite(noted, mask, 0);
    EtcEventCounts(r, mask, flags);
    ChargeOverwriteCounts(noted, mask, 0);
    ChargeOverwriteCounts(once, mask, 1);
    SameChargeGain(r, noted, 0);
    SameChargeGain(r, once, 1);
    var event := NONE.(etcEvents := 1, invariantErrors := One(!(1 <= mask <= 3)));
    var flagged := Flagged(r.progress, flags);
    CountsTwice(flagged, noted.progress, once.progress, event, OverwriteGain(r, Named(mask).adc0, 0));
    CountsTwice(flagged, once.progress, ChargeOverwrite(once, mask, 1).progress,
                Plus(event, OverwriteGain(r, Named(mask).adc0, 0)), OverwriteGain(r, Named(mask).adc1, 1));
  }

  lemma DmaErrorCounts(r: Ring, converter: nat)
    requires converter < CONVERTER_COUNT
    ensures var counted := r.(progress := r.progress.(
              dmaErrorEvents := SaturatingIncrement32(r.progress.dmaErrorEvents)));
            Counts(r.progress, MarkGenerationInvalid(counted, r.nextCompletion.At(converter), 0).progress,
                   Plus(NONE.(dmaEvents := 1), ChargeGain(r, converter)))
  {
    hide MarkGenerationInvalid, ChargeGain, Plus;
    var counted := r.(progress := r.progress.(
      dmaErrorEvents := SaturatingIncrement32(r.progress.dmaErrorEvents)));
    MarkCounts(counted, converter, 0);
    SameChargeGain(r, counted, converter);
    assert Counts(r.progress, counted.progress, NONE.(dmaEvents := 1));
    hide Counts;
    CountsTwice(r.progress, counted.progress,
                MarkGenerationInvalid(counted, r.nextCompletion.At(converter), 0).progress,
                NONE.(dmaEvents := 1), ChargeGain(r, converter));
  }

  lemma ErrorsCount(s: System, e: Event)
    requires e.AdcEtcError? || e.DmaError?
    ensures Counts(Before(s.ring, e), Step(s, e).ring.progress, Gain(s, e))
  {
    var r := s.ring;
    SameCounts(r.progress);
    InvariantErrorCounts(r);
    hide Counts, NoteEtcEvent, ChargeOverwrite, MarkGenerationInvalid, EtcGain, ChargeGain, Plus, NoteInvariantError,
      Flagged;
    if Listening(r, e.epoch) {
      if e.AdcEtcError? {
        EtcCounts(r, e.mask, e.flags);
      } else if e.converter < CONVERTER_COUNT {
        DmaErrorCounts(r, e.converter);
      }
    }
  }

  lemma InvariantErrorCounts(r: Ring)
    ensures Counts(r.progress, NoteInvariantError(r).progress, NONE.(invariantErrors := 1))
  {
  }

  lemma StopLossCounts(p: Progress, slot: GenerationSlot, channels: Channels, pairs: u32)
    ensures Counts(p, CountStopLoss(p, slot, channels, pairs), LossGain(slot, channels, pairs))
  {
    hide LostPairs;
  }

  lemma ImbalanceCounts(p: Progress, slot: GenerationSlot, channels: Channels, pairs: u32)
    ensures Counts(p, CountImbalance(p, slot, channels, pairs), UnevenGain(slot, channels, pairs))
  {
    hide Imbalance;
  }

  lemma WrongDestinationCounts(p: Progress, slot: GenerationSlot, channels: Channels, converter: nat)
    requires converter < CONVERTER_COUNT
    ensures Counts(p, CountWrongDestination(p, slot, channels, converter), StrayGain(slot, channels, converter))
  {
    hide WrongDestination;
  }

  lemma SlotCounts(p: Progress, slot: GenerationSlot, channels: Channels, pairs: u32)
    requires slot.valid
    ensures var sent := CountWrongDestination(CountWrongDestination(p, slot, channels, 0), slot, channels, 1);
            Counts(p, CountImbalance(CountStopLoss(sent, slot, channels, pairs), slot, channels, pairs),
                   SlotGain(slot, channels, pairs))
  {
    hide Counts, Plus, StrayGain, LossGain, UnevenGain, CountWrongDestination, CountStopLoss, CountImbalance;
    var once := CountWrongDestination(p, slot, channels, 0);
    var sent := CountWrongDestination(once, slot, channels, 1);
    var charged := CountStopLoss(sent, slot, channels, pairs);
    var strays := Plus(StrayGain(slot, channels, 0), StrayGain(slot, channels, 1));
    var losses := Plus(strays, LossGain(slot, channels, pairs));
    WrongDestinationCounts(p, slot, channels, 0);
    WrongDestinationCounts(once, slot, channels, 1);
    CountsTwice(p, once, sent, StrayGain(slot, channels, 0), StrayGain(slot, channels, 1));
    StopLossCounts(sent, slot, channels, pairs);
    CountsTwice(p, sent, charged, strays, LossGain(slot, channels, pairs));
    ImbalanceCounts(charged, slot, channels, pairs);
    CountsTwice(p, charged, CountImbalance(charged, slot, channels, pairs), losses,
                UnevenGain(slot, channels, pairs));
  }

  lemma HaltSlotCounts(h: Halt, i: nat, channels: Channels)
    requires i < SLOT_COUNT && SlotOwns(h.ring, i)
    ensures Counts(h.ring.progress, HaltSlot(h, i, channels).ring.progress,
                   SlotGain(h.ring.slots[i], channels, h.ring.pairsPerBuffer))
  {
    SameCounts(h.ring.progress);
    hide Counts, SlotGain, CountWrongDestination, CountStopLoss, CountImbalance, LostPairs, WrongDestination;
    if h.ring.slots[i].valid {
      SlotCounts(h.ring.progress, h.ring.slots[i], channels, h.ring.pairsPerBuffer);
    } else {
      UnusedCountsNothing(h.ring.slots[i], channels, h.ring.pairsPerBuffer);
    }
  }

  lemma UnusedCountsNothing(slot: GenerationSlot, channels: Channels, pairs: u32)
    requires !slot.valid
    ensures SlotGain(slot, channels, pairs) == NONE
  {
  }

  lemma {:induction false} HaltSlotsCount(h: Halt, n: nat, channels: Channels)
    requires n <= SLOT_COUNT && Matched(h.ring)
    ensures Counts(h.ring.progress, HaltSlots(h, n, channels).ring.progress, StopGain(h.ring, channels, n))
  {
    hide Counts, Plus, SlotGain, HaltSlot, Matched;
    if n == 0 {
      SameCounts(h.ring.progress);
    } else {
      HaltSlotsCount(h, n - 1, channels);
      HaltSlotsOwn(h, n - 1, channels);
      var before := HaltSlots(h, n - 1, channels);
      SlotIsOwned(before.ring, n - 1);
      HaltSlotCounts(before, n - 1, channels);
      CountsTwice(h.ring.progress, before.ring.progress, HaltSlots(h, n, channels).ring.progress,
                  StopGain(h.ring, channels, n - 1),
                  SlotGain(h.ring.slots[n - 1], channels, h.ring.pairsPerBuffer));
    }
  }

  lemma StopCounts(r: Ring, channels: Channels, consistent: bool)
    requires Owned(r) && r.running
    ensures Counts(r.progress, RingModel.Stop(r, channels, consistent).0.progress, StopGain(r, channels, SLOT_COUNT))
  {
    hide Counts, HaltSlots, StopGain;
    var start := Halt(r.(running := false), 0, 0, consistent);
    MarksKeepMatch(r, start.ring);
    HaltSlotsCount(start, SLOT_COUNT, channels);
    SameStopGain(r, start.ring, channels, SLOT_COUNT);
  }

  lemma {:induction false} SameStopGain(r: Ring, q: Ring, channels: Channels, n: nat)
    requires n <= SLOT_COUNT && q.slots == r.slots && q.pairsPerBuffer == r.pairsPerBuffer
    ensures StopGain(q, channels, n) == StopGain(r, channels, n)
  {
    if n > 0 {
      SameStopGain(r, q, channels, n - 1);
    }
  }

  lemma AcquireCounts(r: Ring)
    ensures Counts(r.progress, RingModel.Acquire(r).0.progress,
                   if RingModel.Acquire(r).1.status == Ok then
                     NONE.(acquired := 1, delivered := r.pairsPerBuffer, cpuInvalidations := 1)
                   else NONE)
  {
    hide OldestReady, AllocateLease;
  }

  lemma SecondHalfCounts(s: System, e: Event)
    requires Safe(s) && (e.EndRelease? || e.EndDiscard?)
    ensures Counts(s.ring.progress, Step(s, e).ring.progress, Gain(s, e))
  {
    hide Owned;
    SameCounts(s.ring.progress);
    match e {
      case EndRelease(d) =>
        if d in s.flights && s.flights[d].ByHandle? {
          EndReleaseIsSafe(s, d);
        }
      case EndDiscard(d) => DiscardIsSafe(s, d);
    }
  }

  lemma ForegroundCounts(s: System, e: Event)
    requires Safe(s) && (e.Acquire? || e.BeginRelease? || e.EndRelease? || e.BeginDiscard? || e.EndDiscard?)
    ensures Counts(s.ring.progress, Step(s, e).ring.progress, Gain(s, e))
  {
    hide Counts, Owned, RingModel.Acquire, FirstDiscard;
    SameCounts(s.ring.progress);
    match e {
      case Acquire => AcquireCounts(s.ring);
      case EndRelease(_) => SecondHalfCounts(s, e);
      case EndDiscard(_) => SecondHalfCounts(s, e);
      case _ =>
    }
  }

  lemma StepCounts(s: System, e: Event)
    requires Safe(s) && !Primes(s.ring, e)
    ensures Counts(Before(s.ring, e), Step(s, e).ring.progress, Gain(s, e))
  {
    SameCounts(s.ring.progress);
    hide Counts, Owned, RingModel.Complete, RingModel.Reserve, RingModel.Stop, CompleteGain, ReserveGain, StopGain,
      RecordAdcEtcError, RecordDmaError, Flagged;
    match e {
      case Prime(_, _, _, _) =>
      case Reserve(epoch, generation) => ReserveCounts(s.ring, epoch, generation);
      case Complete(converter, epoch, generation, destination) =>
        CompleteCounts(s.ring, converter, epoch, generation, destination);
      case AdcEtcError(_, _, _) => ErrorsCount(s, e);
      case DmaError(_, _) => ErrorsCount(s, e);
      case Stop(channels, consistent) =>
        StoppedStays(s.ring, channels, consistent);
        if s.ring.running {
          StopCounts(s.ring, channels, consistent);
        }
      case _ => ForegroundCounts(s, e);
    }
  }

  lemma StoppedStays(r: Ring, channels: Channels, consistent: bool)
    ensures !r.running ==> RingModel.Stop(r, channels, consistent).0 == r
  {
  }

  lemma PrimedCounts(s: System, e: Event)
    requires Primes(s.ring, e)
    ensures Counts(NO_PROGRESS, Step(s, e).ring.progress, NONE.(dmaDiscards := RING_DEPTH + 1))
  {
    hide RingModel.Prime, HasSlot, DestinationFor, Find;
    PrimeTells(s.ring, e.epoch, e.generation, e.firstPair, e.pairs);
  }

  /** Flags do not disturb counts. */
  lemma CountsFlagged(p: Progress, q: Progress, g: Tally, flags: bv32)
    requires Counts(p, q, g)
    ensures Counts(Flagged(p, flags), Flagged(q, flags), g)
  {
    hide JoinFlags;
  }

  lemma NothingFlagged()
    ensures Flagged(NO_PROGRESS, 0) == NO_PROGRESS
  {
    JoinedFlags(0, 0);
    hide JoinFlags;
  }

  lemma FlaggedTwice(flags: bv32, more: bv32)
    ensures Flagged(Flagged(NO_PROGRESS, flags), more) == Flagged(NO_PROGRESS, JoinFlags(flags, more))
  {
    JoinedFlags(flags, more);
    hide JoinFlags;
  }

  /** In every run, every counter is the number of the things it counts since the last prime, or its ceiling when there
      are more; the high-water mark is the most buffers that were Ready at once; and the flags are all those seen. */
  lemma {:induction false} EveryCounterIsExact(events: seq<Event>)
    ensures Counts(Flagged(NO_PROGRESS, FlagsRun(events)), Run(events).ring.progress, TallyRun(events))
  {
    hide Counts, Plus, Step, Gain, Flagged;
    if events == [] {
      SameCounts(NO_PROGRESS);
      NothingFlagged();
    } else {
      var (before, e) := (events[..|events| - 1], events[|events| - 1]);
      EveryRunIsSafe(before);
      if Primes(Run(before).ring, e) {
        NothingFlagged();
        PrimedCounts(Run(before), e);
      } else {
        EveryCounterIsExact(before);
        StepCounts(Run(before), e);
        var r := Run(before).ring;
        var flags := FlagsRun(before);
        if e.AdcEtcError? && Listening(r, e.epoch) {
          CountsFlagged(Flagged(NO_PROGRESS, flags), r.progress, TallyRun(before), e.flags);
          FlaggedTwice(flags, e.flags);
        }
        CountsTwice(Flagged(NO_PROGRESS, FlagsRun(events)), Before(r, e), Run(events).ring.progress, TallyRun(before),
                    Gain(Run(before), e));
      }
    }
  }
}
