/** What every call of the ring answers, told from the ring before and after the call, in every run. */
module RingAnswers {
  import opened FixedWidth
  import opened RingModel
  import opened RingOwnership
  import opened RingTrack
  import opened RingSettle
  import opened RingRuns
  import opened RingOrder
  import opened RingHistory
  import opened RingTurns

  // ------------------------------------------------------------- completions

  /** Where DMA is told to write a generation: the destination of its slot, or the overflow sink when it has none. */
  function DestinationFor(r: Ring, generation: u32): u8 {
    var i := Find(r.slots, generation);
    if i < SLOT_COUNT then r.slots[i].destination else OVERFLOW_DESTINATION
  }

  predicate HasSlot(r: Ring, generation: u32) {
    Find(r.slots, generation) < SLOT_COUNT
  }

  predicate BecomesReady(r: Ring, after: Ring, d: nat)
    requires d < RING_DEPTH
  {
    r.records[d].state == DmaOwned && after.records[d].state == Ready
  }

  predicate Published(r: Ring, after: Ring) {
    exists d :: 0 <= d < RING_DEPTH && BecomesReady(r, after, d)
  }

  /** The answer to an accepted completion of the generation in slot `i`. */
  ghost predicate TellsAcceptance(r: Ring, after: Ring, answer: CompletionResult, converter: nat, i: nat,
                                  generation: u32, destination: u8)
    requires converter < CONVERTER_COUNT && i < SLOT_COUNT
  {
    && answer.mask == r.slots[i].mask.With(converter, true)
    && (HasSlot(after, generation) <==> !AllConverters(answer.mask))
    && (HasSlot(after, generation) ==> after.slots[Find(after.slots, generation)].mask == answer.mask)
    && answer.futureDestination == DestinationFor(after, Wrap32(generation + 2))
    && (answer.pairReady <==> Published(r, after))
    && (answer.pairLost <==> !HasSlot(after, generation) && !answer.pairReady)
    && (answer.status == Ok <==>
          && destination == r.slots[i].destination
          && Distance(after.progress.majorLoops.adc0, after.progress.majorLoops.adc1) <= 1
          && HasSlot(after, Wrap32(generation + 2)))
    && (answer.status != Ok ==> answer.status == InvalidCompletion)
  }

  lemma UniqueSlot(r: Ring, i: nat, generation: u32)
    requires Matched(r) && i < SLOT_COUNT && Holds(r.slots[i], generation)
    ensures Find(r.slots, generation) == i
    ensures forall j :: 0 <= j < SLOT_COUNT && j != i ==> !Holds(r.slots[j], generation)
  {
    forall j | 0 <= j < SLOT_COUNT && j != i
      ensures !Holds(r.slots[j], generation)
    {
      assert j < i ==> Apart(r.slots[j], r.slots[i]);
      assert i < j ==> Apart(r.slots[i], r.slots[j]);
    }
  }

  /** What scheduling reports is where the generation then is. */
  lemma ScheduledIsFound(r: Ring, generation: u32)
    requires Matched(r)
    ensures Find(Schedule(r, generation).0.slots, generation) == Schedule(r, generation).1
  {
    ScheduleEffect(r, generation);
    ScheduleOwns(r, generation);
    var (after, k) := Schedule(r, generation);
    if k < SLOT_COUNT {
      UniqueSlot(after, k, generation);
    }
  }

  /** Slot `i` of the ring just before an accepted completion may finalize, and where the look-ahead then is. */
  lemma AdvancedSlots(r: Ring, converter: nat, i: nat, generation: u32, destination: u8)
    requires Owned(r) && converter < CONVERTER_COUNT && i < SLOT_COUNT && Holds(r.slots[i], generation)
    ensures var (a, future) := Advance(r, converter, i, generation, destination);
            && Matched(a)
            && Holds(a.slots[i], generation)
            && a.slots[i].mask == r.slots[i].mask.With(converter, true)
            && a.slots[i].destination == r.slots[i].destination
            && future == Find(a.slots, Wrap32(generation + 2))
            && a.nextCompletion == r.nextCompletion.With(converter, Wrap32(r.nextCompletion.At(converter) + 1))
  {
    hide Advance, Schedule, Matched, Find, Parts;
    var g := Wrap32(generation + 2);
    var (b, k) := Schedule(r, g);
    var a := Advance(r, converter, i, generation, destination).0;
    AdvanceIsEntered(r, converter, i, generation, destination);
    AdvanceOwns(r, converter, i, generation, destination);
    ScheduledIsFound(r, g);
    AcceptParts(r, Fresh(0, 0), converter, i, generation, destination);
    ScheduleKeepsSlot(r, Fresh(0, 0), g, i);
    EnteredKeepsSlot(b, a, converter, i);
    EnteredKeys(b, a, converter, i);
    SearchByKeys(a.slots, b.slots, g);
  }

  lemma EnteredKeys(b: Ring, a: Ring, converter: nat, i: nat)
    requires converter < CONVERTER_COUNT && i < SLOT_COUNT && Entered(b, a, converter, i)
    ensures SameKeys(a.slots, b.slots)
  {
    forall j | 0 <= j < SLOT_COUNT
      ensures a.slots[j].valid == b.slots[j].valid && a.slots[j].generation == b.slots[j].generation
    {
      assert a.slots[j].(invalidData := b.slots[j].invalidData)
          == b.slots[j].(mask := if j == i then b.slots[j].mask.With(converter, true) else b.slots[j].mask);
    }
  }

  /** No buffer becomes Ready before the finalizing. */
  lemma AdvancePublishesNothing(r: Ring, converter: nat, i: nat, generation: u32, destination: u8)
    requires Owned(r) && converter < CONVERTER_COUNT && i < SLOT_COUNT && Holds(r.slots[i], generation)
    ensures var a := Advance(r, converter, i, generation, destination).0;
            && !Published(r, a)
            && (IsBufferDestination(r.slots[i].destination) ==>
                  r.records[r.slots[i].destination].state == a.records[r.slots[i].destination].state == DmaOwned)
  {
    hide Advance, Schedule, TakeFreeBuffer, Matched;
    var g := Wrap32(generation + 2);
    AdvanceIsEntered(r, converter, i, generation, destination);
    TakeFreeOwns(r, g, r.nextFirstPair);
    ScheduleEffect(r, g);
    SlotIsOwned(r, i);
  }

  lemma SlotIsOwned(r: Ring, i: nat)
    requires Matched(r) && i < SLOT_COUNT
    ensures SlotOwns(r, i)
  {
  }

  lemma LoopsEntered(r: Ring, converter: nat, i: nat, generation: u32, destination: u8)
    requires converter < CONVERTER_COUNT && i < SLOT_COUNT
    ensures Accept(r, converter, i, generation, destination).progress.majorLoops
         == Enter(r, converter, i, destination).progress.majorLoops
  {
    hide Schedule, Extend, Finalize;
    var c := CheckSkew(Enter(r, converter, i, destination));
    ScheduleKeepsLoops(c, Wrap32(generation + 2));
    FinalizeKeepsLoops(Advance(r, converter, i, generation, destination).0, i);
  }

  lemma FinalizeKeepsLoops(a: Ring, i: nat)
    requires i < SLOT_COUNT
    ensures Finalize(a, i).0.progress.majorLoops == a.progress.majorLoops
    ensures Finalize(a, i).0.nextCompletion == a.nextCompletion
    ensures Finalize(a, i).1.lost == !Finalize(a, i).1.ready
  {
  }

  lemma FinalizedTables(r: Ring, a: Ring, i: nat, generation: u32)
    requires Matched(a) && i < SLOT_COUNT && Holds(a.slots[i], generation)
    requires !Published(r, a)
    requires IsBufferDestination(a.slots[i].destination) ==> r.records[a.slots[i].destination].state == DmaOwned
    ensures var (after, settled) := Finalize(a, i);
            && !HasSlot(after, generation)
            && DestinationFor(after, Wrap32(generation + 2)) == DestinationFor(a, Wrap32(generation + 2))
            && HasSlot(after, Wrap32(generation + 2)) == HasSlot(a, Wrap32(generation + 2))
            && (settled.ready <==> Published(r, after))
  {
    UniqueSlot(a, i, generation);
    SlotIsOwned(a, i);
    FinalizeEffect(a, i);
    var (after, settled) := Finalize(a, i);
    hide Finalize, Matched;
    EmptyingSpares(a, after, i, Wrap32(generation + 2));
    if settled.ready {
      assert BecomesReady(r, after, a.slots[i].destination);
    } else {
      forall d | 0 <= d < RING_DEPTH
        ensures !BecomesReady(r, after, d)
      {
        assert !BecomesReady(r, a, d);
      }
    }
  }

  lemma EmptyingSpares(a: Ring, after: Ring, i: nat, generation: u32)
    requires i < SLOT_COUNT && after.slots == a.slots[i := EMPTY_SLOT] && !Holds(a.slots[i], generation)
    ensures Find(after.slots, generation) == Find(a.slots, generation)
  {
    assert forall j :: 0 <= j < SLOT_COUNT ==> Holds(after.slots[j], generation) == Holds(a.slots[j], generation);
  }

  lemma AcceptedAnswer(r: Ring, converter: nat, i: nat, generation: u32, destination: u8)
    requires Owned(r) && converter < CONVERTER_COUNT && i < SLOT_COUNT
    requires Judge(r, converter, r.epoch, generation) == Accepted(i)
    ensures var after := RingModel.Complete(r, converter, r.epoch, generation, destination);
            var answer := CompleteResult(r, converter, r.epoch, generation, destination);
            && answer.consumed
            && after.nextCompletion == r.nextCompletion.With(converter, Wrap32(r.nextCompletion.At(converter) + 1))
            && TellsAcceptance(r, after, answer, converter, i, generation, destination)
  {
    hide Advance, Finalize, Matched, Schedule, Find, Enter, Published;
    AdvancedSlots(r, converter, i, generation, destination);
    AdvancePublishesNothing(r, converter, i, generation, destination);
    LoopsEntered(r, converter, i, generation, destination);
    SlotIsOwned(r, i);
    var a := Advance(r, converter, i, generation, destination).0;
    FinalizeKeepsLoops(a, i);
    if AllConverters(a.slots[i].mask) {
      FinalizedTables(r, a, i, generation);
    } else {
      UniqueSlot(a, i, generation);
    }
  }

  /** A completion that is not accepted: refused, or its generation has no slot any more and is passed over. */
  ghost predicate TellsNoAcceptance(r: Ring, after: Ring, answer: CompletionResult) {
    && after.records == r.records && after.slots == r.slots
    && answer.futureDestination == OVERFLOW_DESTINATION && answer.mask == NO_CONVERTER
    && answer.status != Ok && !answer.pairReady && (answer.pairLost <==> answer.consumed)
  }

  /** The statuses that do not depend on the generation. */
  predicate TellsAdmission(r: Ring, answer: CompletionResult, converter: u8, epoch: u32) {
    && (answer.status == NotRunning <==> !r.running)
    && (answer.status == InvalidEpoch <==> r.running && !Listening(r, epoch))
    && (answer.status == InvalidConverter <==> Listening(r, epoch) && converter >= CONVERTER_COUNT)
  }

  /** The converter's next generation moves on by one exactly when the answer says that the interrupt was consumed. */
  ghost predicate TellsConsumption(r: Ring, after: Ring, answer: CompletionResult, converter: u8, generation: u32) {
    && (answer.consumed <==> after.nextCompletion != r.nextCompletion)
    && (answer.consumed ==>
          && converter < CONVERTER_COUNT && generation == r.nextCompletion.At(converter)
          && after.nextCompletion == r.nextCompletion.With(converter, Wrap32(generation + 1)))
  }

  lemma UnacceptedAnswer(r: Ring, converter: u8, epoch: u32, generation: u32, destination: u8)
    requires !Judge(r, converter, epoch, generation).Accepted?
    ensures var after := RingModel.Complete(r, converter, epoch, generation, destination);
            var answer := CompleteResult(r, converter, epoch, generation, destination);
            && TellsNoAcceptance(r, after, answer)
            && TellsAdmission(r, answer, converter, epoch)
            && TellsConsumption(r, after, answer, converter, generation)
  {
    RejectedKeepsTables(r, converter, epoch, generation, destination);
  }

  /** In every run, what a completion with any arguments answers is what it did to the ring. Accepted, it names the
      destination of the generation two ahead as the ring then has it, overflow when it has none; a real one is a
      buffer that DMA owns for that generation, so neither Ready nor leased. */
  lemma CompletionTellsTheRing(events: seq<Event>, converter: u8, epoch: u32, generation: u32, destination: u8)
    ensures var (r, e) := (Run(events).ring, Event.Complete(converter, epoch, generation, destination));
            var (after, verdict) := (Run(events + [e]).ring, Judge(r, converter, epoch, generation));
            var answer := CompleteResult(r, converter, epoch, generation, destination);
            && answer.epoch == epoch && answer.converter == converter && answer.completedGeneration == generation
            && answer.completedDestination == destination && answer.futureGeneration == Wrap32(generation + 2)
            && TellsAdmission(r, answer, converter, epoch)
            && TellsConsumption(r, after, answer, converter, generation)
            && (if verdict.Accepted? then
                  && answer.consumed
                  && TellsAcceptance(r, after, answer, converter, verdict.slot, generation, destination)
                else TellsNoAcceptance(r, after, answer))
            && (IsBufferDestination(answer.futureDestination) ==>
                  && after.records[answer.futureDestination].state == DmaOwned
                  && after.records[answer.futureDestination].epoch == epoch
                  && after.records[answer.futureDestination].generation == Wrap32(generation + 2))
  {
    var e := Event.Complete(converter, epoch, generation, destination);
    EveryRunIsSafe(events);
    EveryRunIsSafe(events + [e]);
    TrackSnoc(events, e);
    var (r, after) := (Run(events).ring, Run(events + [e]).ring);
    var verdict := Judge(r, converter, epoch, generation);
    hide Run, RingModel.Complete, CompleteResult, Matched, TellsAcceptance, TellsNoAcceptance;
    CompleteKeepsRun(r, converter, epoch, generation, destination);
    if verdict.Accepted? {
      AcceptedAnswer(r, converter, verdict.slot, generation, destination);
      AcceptedAdmission(r, after, CompleteResult(r, converter, epoch, generation, destination), converter,
                        verdict.slot, generation, destination);
      DestinationIsOwned(after, Wrap32(generation + 2));
    } else {
      UnacceptedAnswer(r, converter, epoch, generation, destination);
      UnacceptedFuture(r, converter, epoch, generation, destination);
    }
    EchoesArguments(r, converter, epoch, generation, destination);
  }

  lemma EchoesArguments(r: Ring, converter: u8, epoch: u32, generation: u32, destination: u8)
    ensures var answer := CompleteResult(r, converter, epoch, generation, destination);
            && answer.epoch == epoch && answer.converter == converter && answer.completedGeneration == generation
            && answer.completedDestination == destination && answer.futureGeneration == Wrap32(generation + 2)
  {
    hide Enter, Advance, Finalize;
  }

  lemma UnacceptedFuture(r: Ring, converter: u8, epoch: u32, generation: u32, destination: u8)
    requires !Judge(r, converter, epoch, generation).Accepted?
    ensures CompleteResult(r, converter, epoch, generation, destination).futureDestination == OVERFLOW_DESTINATION
  {
  }

  lemma AcceptedAdmission(r: Ring, after: Ring, answer: CompletionResult, converter: nat, i: nat, generation: u32,
                          destination: u8)
    requires converter < CONVERTER_COUNT && i < SLOT_COUNT
    requires Judge(r, converter, r.epoch, generation) == Accepted(i)
    requires TellsAcceptance(r, after, answer, converter, i, generation, destination) && answer.consumed
    requires after.nextCompletion == r.nextCompletion.With(converter, Wrap32(r.nextCompletion.At(converter) + 1))
    ensures TellsAdmission(r, answer, converter, r.epoch)
    ensures TellsConsumption(r, after, answer, converter, generation)
    ensures answer.futureDestination == DestinationFor(after, Wrap32(generation + 2))
  {
    hide Find, Published, DestinationFor, HasSlot;
    assert after.nextCompletion.At(converter) != r.nextCompletion.At(converter);
  }

  lemma DestinationIsOwned(r: Ring, generation: u32)
    requires Matched(r)
    ensures var d := DestinationFor(r, generation);
            IsBufferDestination(d) ==>
              && r.records[d].state == DmaOwned && r.records[d].epoch == r.epoch
              && r.records[d].generation == generation
  {
    var i := Find(r.slots, generation);
    if i < SLOT_COUNT {
      SlotIsOwned(r, i);
    }
  }

  // ------------------------------------------------------------- reservations

  /** How many buffers the rotating search passes before it looks at buffer `d`. */
  function Turns(start: nat, d: nat): nat {
    (d - start) % RING_DEPTH
  }

  /** The buffer taken is the first free one in rotation, and the next search starts after it; the overflow sink is
      given out exactly when no buffer is free. */
  ghost predicate TakenInRotation(r: Ring, after: Ring, destination: u8) {
    if (exists e :: 0 <= e < RING_DEPTH && r.records[e].state == Free) then
      && IsBufferDestination(destination) && r.records[destination].state == Free
      && (forall e :: 0 <= e < RING_DEPTH && r.records[e].state == Free ==>
            Turns(r.nextFreeSearch, destination) <= Turns(r.nextFreeSearch, e))
      && after.nextFreeSearch == (destination + 1) % RING_DEPTH
    else destination == OVERFLOW_DESTINATION && after.nextFreeSearch == r.nextFreeSearch
  }

  lemma TakingRotates(r: Ring, generation: u32, firstPair: u64)
    ensures TakenInRotation(r, TakeFreeBuffer(r, generation, firstPair).0, TakeFreeBuffer(r, generation, firstPair).1)
  {
    var attempt := FreeAttempt(r.records, r.nextFreeSearch);
    if attempt == RING_DEPTH {
      NoAttemptMeansNoneFree(r.records, r.nextFreeSearch);
    } else {
      var d := Candidate(r.nextFreeSearch, attempt);
      assert Turns(r.nextFreeSearch, d) == attempt;
      forall e | 0 <= e < RING_DEPTH && r.records[e].state == Free
        ensures attempt <= Turns(r.nextFreeSearch, e)
      {
        assert Candidate(r.nextFreeSearch, Turns(r.nextFreeSearch, e)) == e;
      }
    }
  }

  /** A generation that had no slot and now has one: it was next in turn, starts where the pairs scheduled so far end,
      with nothing finished and nothing against it, in the next free buffer in rotation. */
  ghost predicate NewlyScheduled(r: Ring, after: Ring, generation: u32) {
    var i := Find(after.slots, generation);
    && i < SLOT_COUNT && !r.slots[i].valid
    && generation == r.nextSchedule
    && after.nextSchedule == Wrap32(generation + 1)
    && after.nextFirstPair == SaturatingAdd64(r.nextFirstPair, r.pairsPerBuffer)
    && after.slots[i] == GenerationSlot(r.nextFirstPair, generation, after.slots[i].destination, NO_CONVERTER, 0, true,
                                        false)
    && after.slots == r.slots[i := after.slots[i]]
    && TakenInRotation(r, after, after.slots[i].destination)
  }

  /** Scheduling finds the slot a generation has, makes it one, or leaves both tables alone; out of turn it notes an
      invariant error, and in turn it fails only on a full table. */
  ghost predicate TellsSchedule(r: Ring, after: Ring, generation: u32) {
    if HasSlot(r, generation) then after == r
    else if HasSlot(after, generation) then NewlyScheduled(r, after, generation)
    else if generation != r.nextSchedule then after == NoteInvariantError(r)
    else after == r && forall i :: 0 <= i < SLOT_COUNT ==> r.slots[i].valid
  }

  lemma ScheduleTells(r: Ring, generation: u32)
    requires Matched(r)
    ensures TellsSchedule(r, Schedule(r, generation).0, generation)
  {
    ScheduledIsFound(r, generation);
    ScheduleEffect(r, generation);
    TakingRotates(r, generation, r.nextFirstPair);
    var after := Schedule(r, generation).0;
    if MakesSlot(r, generation) {
      hide TakenInRotation;
      assert after.nextFreeSearch == TakeFreeBuffer(r, generation, r.nextFirstPair).0.nextFreeSearch;
      RotationOnly(r, TakeFreeBuffer(r, generation, r.nextFirstPair).0, after,
                   TakeFreeBuffer(r, generation, r.nextFirstPair).1);
    } else {
      hide TakenInRotation;
    }
  }

  lemma RotationOnly(r: Ring, taken: Ring, after: Ring, destination: u8)
    requires TakenInRotation(r, taken, destination) && after.nextFreeSearch == taken.nextFreeSearch
    ensures TakenInRotation(r, after, destination)
  {
  }

  /** In every run, what a reservation answers is what it did to the ring: granted exactly when the generation then has
      a slot, with that slot's destination; a real one is a buffer that DMA owns for that generation. */
  lemma ReservationTellsTheRing(events: seq<Event>, epoch: u32, generation: u32)
    ensures var (r, e) := (Run(events).ring, Event.Reserve(epoch, generation));
            var (after, answer) := (Run(events + [e]).ring, RingModel.Reserve(r, epoch, generation).1);
            && answer.epoch == epoch && answer.generation == generation
            && (answer.status == NotRunning <==> !r.running)
            && (answer.status == InvalidEpoch <==> r.running && !Listening(r, epoch))
            && (answer.status == InvalidCompletion <==> Listening(r, epoch) && !HasSlot(after, generation))
            && (answer.status == Ok <==> Listening(r, epoch) && HasSlot(after, generation))
            && (if Listening(r, epoch) then TellsSchedule(r, after, generation) else after == r)
            && answer.destination
               == (if answer.status == Ok then DestinationFor(after, generation) else INVALID_DESTINATION)
            && (IsBufferDestination(answer.destination) ==>
                  && after.records[answer.destination].state == DmaOwned
                  && after.records[answer.destination].epoch == epoch
                  && after.records[answer.destination].generation == generation)
  {
    var e := Event.Reserve(epoch, generation);
    EveryRunIsSafe(events);
    EveryRunIsSafe(events + [e]);
    TrackSnoc(events, e);
    var (r, after) := (Run(events).ring, Run(events + [e]).ring);
    hide Run, Schedule, Matched, TellsSchedule;
    if Listening(r, epoch) {
      ScheduleTells(r, generation);
      ScheduledIsFound(r, generation);
      ScheduleKeepsRun(r, generation);
      DestinationIsOwned(after, generation);
    }
  }

  // ------------------------------------------------------------------ priming

  /** A primed ring runs in its epoch with nothing counted but the cache work, on its first two generations, the
      first pair at `firstPair`. */
  ghost predicate TellsPrimed(after: Ring, answer: PrimeResult, epoch: u32, generation: u32, firstPair: u64,
                              pairs: u32) {
    && after.running && after.epoch == epoch && after.pairsPerBuffer == pairs
    && after.progress == NO_PROGRESS.(cacheDmaDiscards := RING_DEPTH + 1)
    && after.nextCompletion == PerConverter(generation, generation)
    && after.nextSchedule == Wrap32(generation + 2)
    && HasSlot(after, generation) && HasSlot(after, Wrap32(generation + 1))
    && after.slots[Find(after.slots, generation)].firstPair == firstPair
    && answer.activeDestination == DestinationFor(after, generation)
    && answer.queuedDestination == DestinationFor(after, Wrap32(generation + 1))
    && IsBufferDestination(answer.activeDestination) && IsBufferDestination(answer.queuedDestination)
    && answer.activeDestination != answer.queuedDestination
  }

  lemma {:induction false} CacheWork(p: Progress, times: nat)
    requires p.cacheDmaDiscards + times < MAX_32
    ensures DiscardCache(p, times) == p.(cacheDmaDiscards := p.cacheDmaDiscards + times)
  {
    if times > 0 {
      CacheWork(p, times - 1);
    }
  }

  lemma SeedingCounts(r: Ring, generation: u32)
    requires Seeds(r, generation).1 < SLOT_COUNT && Seeds(r, generation).2 < SLOT_COUNT
    ensures Seeds(r, generation).0.progress == r.progress
  {
  }

  lemma PrimeTells(r: Ring, epoch: u32, generation: u32, firstPair: u64, pairs: u32)
    requires epoch != 0 && 1 <= pairs <= PAIRS_PER_FRAME && !r.running && AllFree(r.records)
    ensures var (after, answer) := RingModel.Prime(r, epoch, generation, firstPair, pairs);
            answer.status == Ok && TellsPrimed(after, answer, epoch, generation, firstPair, pairs)
  {
    PrimeSeeds(r, epoch, generation, firstPair, pairs);
    PrimedRing(r, epoch, generation, firstPair, pairs);
    PrimedTables(r, epoch, generation, firstPair, pairs);
    var cleared := Cleared(r, epoch, generation, firstPair, pairs);
    SeedingCounts(cleared, generation);
    CacheWork(Seeds(cleared, generation).0.progress, RING_DEPTH + 1);
    var after := RingModel.Prime(r, epoch, generation, firstPair, pairs).0;
    assert after.progress == NO_PROGRESS.(cacheDmaDiscards := RING_DEPTH + 1);
    hide RingModel.Prime, Seeds, Schedule, DiscardCache;
    assert Find(after.slots, generation) == 0;
    assert Find(after.slots, Wrap32(generation + 1)) == 1;
  }

  /** In every run, priming answers the first refusal that applies and then leaves the ring alone, or sets it running
      and names the destinations of its first two generations. */
  lemma PrimingTellsTheRing(events: seq<Event>, epoch: u32, generation: u32, firstPair: u64, pairs: u32)
    ensures var (r, e) := (Run(events).ring, Event.Prime(epoch, generation, firstPair, pairs));
            var (after, answer) := (Run(events + [e]).ring, RingModel.Prime(r, epoch, generation, firstPair, pairs).1);
            var legal := 1 <= pairs <= PAIRS_PER_FRAME;
            && answer.epoch == epoch && answer.activeGeneration == generation
            && answer.queuedGeneration == Wrap32(generation + 1)
            && (answer.status == InvalidEpoch <==> epoch == 0)
            && (answer.status == InvalidPairCount <==> epoch != 0 && !legal)
            && (answer.status == AlreadyRunning <==> epoch != 0 && legal && r.running)
            && (answer.status == NotQuiescent <==> epoch != 0 && legal && !r.running && !AllFree(r.records))
            && (answer.status == Ok <==> epoch != 0 && legal && !r.running && AllFree(r.records))
            && (answer.status == Ok ==> TellsPrimed(after, answer, epoch, generation, firstPair, pairs))
            && (answer.status != Ok ==>
                  && after == r
                  && answer.activeDestination == INVALID_DESTINATION
                  && answer.queuedDestination == INVALID_DESTINATION)
  {
    TrackSnoc(events, Event.Prime(epoch, generation, firstPair, pairs));
    var r := Run(events).ring;
    hide Run, TellsPrimed, SeedRun, Cleared;
    if epoch != 0 && 1 <= pairs <= PAIRS_PER_FRAME && !r.running && AllFree(r.records) {
      PrimeTells(r, epoch, generation, firstPair, pairs);
      PrimeSeeds(r, epoch, generation, firstPair, pairs);
    }
  }
}
