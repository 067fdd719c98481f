/** The paired DMA ring as firmware keeps it: fixed tables updated in place. Every method is proved
    to move `State()` exactly as its function in RingModel moves a ring value. */
module DmaRing {
  import opened FixedWidth
  import opened RingModel

  class PairCaptureRing {
    const records: array<BufferRecord>
    const slots: array<GenerationSlot>
    var progress: Progress
    var nextCompletion: PerConverter<u32>
    var nextFirstPair: u64
    var nextSchedule: u32
    var nextLease: u32
    var epoch: u32
    var pairsPerBuffer: u32
    var nextFreeSearch: nat
    var running: bool

    ghost predicate Valid()
      reads this
    {
      && records.Length == RING_DEPTH
      && slots.Length == SLOT_COUNT
      && nextFreeSearch < RING_DEPTH
      && nextLease != 0
      && 1 <= pairsPerBuffer <= PAIRS_PER_FRAME
    }

    ghost function State(): Ring
      reads this, records, slots
      requires Valid()
    {
      RingState(records[..], slots[..], progress, nextCompletion, nextFirstPair, nextSchedule,
                nextLease, epoch, pairsPerBuffer, nextFreeSearch, running)
    }

    constructor ()
      ensures Valid() && fresh(records) && fresh(slots)
      ensures State() == INITIAL
    {
      records := new BufferRecord[RING_DEPTH](_ => FREE_RECORD);
      slots := new GenerationSlot[SLOT_COUNT](_ => EMPTY_SLOT);
      progress := NO_PROGRESS;
      nextCompletion := PerConverter(0, 0);
      nextFirstPair, nextSchedule, nextLease, epoch := 0, 0, 1, 0;
      pairsPerBuffer := PAIRS_PER_FRAME;
      nextFreeSearch, running := 0, false;
      new;
      assert records[..] == NoRecords();
      assert slots[..] == NoSlots();
    }

    // ------------------------------------------------------------ table scans

    method FindGeneration(generation: u32) returns (i: nat)
      requires Valid()
      ensures i == Find(slots[..], generation)
    {
      i := 0;
      while i < slots.Length
        invariant i <= slots.Length
        invariant Find(slots[..], generation) == Find(slots[..], generation, i)
      {
        if slots[i].valid && slots[i].generation == generation {
          return;
        }
        i := i + 1;
      }
    }

    method CountInState(state: BufferState) returns (count: nat)
      requires Valid()
      ensures count == CountState(records[..], state)
    {
      count := 0;
      var d := 0;
      while d < records.Length
        invariant d <= records.Length
        invariant count == CountState(records[..d], state)
      {
        assert records[..d + 1][..d] == records[..d];
        if records[d].state == state {
          count := count + 1;
        }
        d := d + 1;
      }
      assert records[..records.Length] == records[..];
    }

    method AllBuffersFree() returns (free: bool)
      requires Valid()
      ensures free == AllFree(records[..])
    {
      var d := 0;
      while d < records.Length
        invariant d <= records.Length
        invariant forall j :: 0 <= j < d ==> records[j].state == Free
      {
        if records[d].state != Free {
          return false;
        }
        d := d + 1;
      }
      return true;
    }

    method MatchesHandle(handle: BufferHandle, state: BufferState) returns (matches: bool)
      requires Valid()
      ensures matches == HandleMatches(State(), handle, state)
    {
      if !ValidForPairCount(handle, pairsPerBuffer) {
        return false;
      }
      var record := records[handle.bufferIndex];
      return record.state == state && record.epoch == handle.epoch && record.lease == handle.lease &&
             record.firstPair == handle.firstPair && handle.pairs == Storage(handle.bufferIndex);
    }

    method Quiescent() returns (quiescent: bool)
      requires Valid()
      ensures quiescent == (!State().running && AllFree(State().records))
    {
      var free := AllBuffersFree();
      return !running && free;
    }

    // ------------------------------------------------------- shared operations

    method NoteError()
      requires Valid()
      modifies this`progress
      ensures Valid() && State() == NoteInvariantError(old(State()))
    {
      progress := progress.(invariantErrors := SaturatingIncrement32(progress.invariantErrors));
    }

    method TaintOutstanding()
      requires Valid()
      modifies slots
      ensures Valid() && State() == MarkOutstandingInvalid(old(State()))
    {
      var i := 0;
      while i < slots.Length
        invariant i <= slots.Length
        invariant forall j :: 0 <= j < i ==> slots[j] == Tainted(old(slots[j]))
        invariant forall j :: i <= j < slots.Length ==> slots[j] == old(slots[j])
      {
        if slots[i].valid {
          slots[i] := slots[i].(invalidData := true);
        }
        i := i + 1;
      }
      assert slots[..] == MarkOutstandingInvalid(old(State())).slots;
    }

    method TaintGeneration(generation: u32, minimumLost: u32)
      requires Valid()
      modifies this`progress, slots
      ensures Valid() && State() == MarkGenerationInvalid(old(State()), generation, minimumLost)
    {
      var i := FindGeneration(generation);
      if i == slots.Length {
        progress := progress.(scheduleExhaustions := SaturatingIncrement32(progress.scheduleExhaustions));
        NoteError();
        return;
      }
      slots[i] := slots[i].(invalidData := true);
      if slots[i].minimumLost < minimumLost {
        slots[i] := slots[i].(minimumLost := minimumLost);
      }
      assert slots[..] == MarkGenerationInvalid(old(State()), generation, minimumLost).slots;
    }

    method TakeFree(generation: u32, firstPair: u64) returns (destination: u8)
      requires Valid()
      modifies this`nextFreeSearch, records
      ensures Valid()
      ensures (State(), destination) == TakeFreeBuffer(old(State()), generation, firstPair)
    {
      var attempt := 0;
      while attempt < records.Length
        invariant attempt <= records.Length
        invariant FreeAttempt(records[..], nextFreeSearch) == FreeAttempt(records[..], nextFreeSearch, attempt)
      {
        var candidate := (nextFreeSearch + attempt) % records.Length;
        if records[candidate].state == Free {
          assert attempt == FreeAttempt(records[..], nextFreeSearch);
          records[candidate] := BufferRecord(DmaOwned, epoch, generation, firstPair, 0);
          nextFreeSearch := (candidate + 1) % records.Length;
          assert records[..] == TakeFreeBuffer(old(State()), generation, firstPair).0.records;
          return candidate;
        }
        attempt := attempt + 1;
      }
      return OVERFLOW_DESTINATION;
    }

    method ScheduleGeneration(generation: u32) returns (slot: nat)
      requires Valid()
      modifies this, records, slots
      ensures Valid()
      ensures (State(), slot) == Schedule(old(State()), generation)
    {
      slot := FindGeneration(generation);
      if slot < slots.Length {
        return;
      }
      if generation != nextSchedule {
        NoteError();
        return;
      }
      var i := 0;
      while i < slots.Length && slots[i].valid
        invariant i <= slots.Length
        invariant FirstUnused(slots[..]) == FirstUnused(slots[..], i)
      {
        i := i + 1;
      }
      slot := i;
      if slot == slots.Length {
        return;
      }
      var destination := TakeFree(generation, nextFirstPair);
      slots[slot] := GenerationSlot(nextFirstPair, generation, destination, NO_CONVERTER, 0, true, false);
      nextSchedule := Wrap32(generation + 1);
      nextFirstPair := SaturatingAdd64(nextFirstPair, pairsPerBuffer);
      assert slots[..] == Schedule(old(State()), generation).0.slots;
    }

    // ------------------------------------------------------ prime and reserve

    method Prime(newEpoch: u32, generation: u32, firstPair: u64, pairs: u32) returns (result: PrimeResult)
      requires Valid()
      modifies this, records, slots
      ensures Valid()
      ensures (State(), result) == RingModel.Prime(old(State()), newEpoch, generation, firstPair, pairs)
    {
      result := PrimeResult(NotQuiescent, newEpoch, generation, Wrap32(generation + 1),
                            INVALID_DESTINATION, INVALID_DESTINATION);
      if newEpoch == 0 {
        return result.(status := InvalidEpoch);
      }
      if pairs == 0 || pairs > PAIRS_PER_FRAME {
        return result.(status := InvalidPairCount);
      }
      if running {
        return result.(status := AlreadyRunning);
      }
      var free := AllBuffersFree();
      if !free {
        return;
      }
      ClearForRun(newEpoch, generation, firstPair, pairs);
      result := SeedRun(generation, result);
    }

    method SeedRun(generation: u32, refused: PrimeResult) returns (result: PrimeResult)
      requires Valid()
      modifies this, records, slots
      ensures Valid()
      ensures (State(), result) == RingModel.SeedRun(old(State()), generation, refused)
    {
      var active, queued := ScheduleSeeds(generation);
      if active == slots.Length || queued == slots.Length ||
         !IsBufferDestination(slots[active].destination) ||
         !IsBufferDestination(slots[queued].destination) ||
         slots[active].destination == slots[queued].destination {
        AbandonPrime();
        return refused;
      }
      DiscardAllCaches();
      return refused.(status := Ok, activeDestination := slots[active].destination,
                      queuedDestination := slots[queued].destination);
    }

    method ClearForRun(newEpoch: u32, generation: u32, firstPair: u64, pairs: u32)
      requires Valid() && 1 <= pairs <= PAIRS_PER_FRAME
      modifies this, slots
      ensures Valid() && State() == Cleared(old(State()), newEpoch, generation, firstPair, pairs)
    {
      progress := NO_PROGRESS;
      EmptySlots();
      nextCompletion := PerConverter(generation, generation);
      nextFirstPair, nextSchedule, nextFreeSearch := firstPair, generation, 0;
      epoch, pairsPerBuffer, running := newEpoch, pairs, true;
    }

    method ScheduleSeeds(generation: u32) returns (active: nat, queued: nat)
      requires Valid()
      modifies this, records, slots
      ensures Valid()
      ensures (State(), active, queued) == Seeds(old(State()), generation)
    {
      active := ScheduleGeneration(generation);
      queued := ScheduleGeneration(Wrap32(generation + 1));
    }

    method AbandonPrime()
      requires Valid()
      modifies this, records, slots
      ensures Valid() && State() == Abandoned(old(State()))
    {
      NoteError();
      running, epoch := false, 0;
      EmptySlots();
      FreeRecords();
    }

    /** Every buffer and the overflow sink cross the cache boundary before the first DMA write. */
    method DiscardAllCaches()
      modifies this`progress
      ensures progress == DiscardCache(old(progress), RING_DEPTH + 1)
    {
      var n := 0;
      while n < RING_DEPTH + 1
        invariant n <= RING_DEPTH + 1
        invariant progress == DiscardCache(old(progress), n)
      {
        progress := progress.(cacheDmaDiscards := SaturatingIncrement32(progress.cacheDmaDiscards));
        n := n + 1;
      }
    }

    method EmptySlots()
      requires Valid()
      modifies slots
      ensures slots[..] == NoSlots()
    {
      for i := 0 to slots.Length
        invariant forall j :: 0 <= j < i ==> slots[j] == EMPTY_SLOT
      {
        slots[i] := EMPTY_SLOT;
      }
    }

    method FreeRecords()
      requires Valid()
      modifies records
      ensures records[..] == NoRecords()
    {
      for d := 0 to records.Length
        invariant forall j :: 0 <= j < d ==> records[j] == FREE_RECORD
      {
        records[d] := FREE_RECORD;
      }
    }

    method ReserveGeneration(forEpoch: u32, generation: u32) returns (result: ReservationResult)
      requires Valid()
      modifies this, records, slots
      ensures Valid()
      ensures (State(), result) == Reserve(old(State()), forEpoch, generation)
    {
      result := ReservationResult(NotRunning, forEpoch, generation, INVALID_DESTINATION);
      if !running {
        return;
      }
      if forEpoch == 0 || forEpoch != epoch {
        return result.(status := InvalidEpoch);
      }
      var reserved := ScheduleGeneration(generation);
      if reserved == slots.Length {
        return result.(status := InvalidCompletion);
      }
      return result.(status := Ok, destination := slots[reserved].destination);
    }

    // -------------------------------------------------------------- interrupts

    method OnMajorLoopComplete(converter: u8, forEpoch: u32, generation: u32, destination: u8)
      returns (result: CompletionResult)
      requires Valid()
      modifies this, records, slots
      ensures Valid()
      ensures State() == Complete(old(State()), converter, forEpoch, generation, destination)
      ensures result == CompleteResult(old(State()), converter, forEpoch, generation, destination)
    {
      result := CompletionResult(InvalidCompletion, forEpoch, generation, Wrap32(generation + 2), converter,
                                 destination, OVERFLOW_DESTINATION, NO_CONVERTER, false, false, false);
      if !running {
        progress := CountStale(progress);
        return result.(status := NotRunning);
      }
      if forEpoch == 0 || forEpoch != epoch {
        progress := CountStale(progress);
        return result.(status := InvalidEpoch);
      }
      if converter >= CONVERTER_COUNT {
        NoteError();
        return result.(status := InvalidConverter);
      }
      if generation != nextCompletion.At(converter) {
        progress := CountMismatch(CountStale(progress));
        return;
      }
      var completed := FindGeneration(generation);
      if completed == slots.Length {
        progress := CountMismatch(progress.(
          scheduleExhaustions := SaturatingIncrement32(progress.scheduleExhaustions)));
        NoteError();
        nextCompletion := nextCompletion.With(converter, Wrap32(generation + 1));
        return result.(consumed := true, pairLost := true);
      }
      if slots[completed].mask.At(converter) {
        progress := CountMismatch(CountStale(progress));
        return;
      }
      result := AcceptCompletion(converter, generation, destination, completed, result);
    }

    method AcceptCompletion(converter: nat, generation: u32, destination: u8, completed: nat, blank: CompletionResult)
      returns (result: CompletionResult)
      requires Valid()
      requires converter < CONVERTER_COUNT && completed < SLOT_COUNT
      requires generation == nextCompletion.At(converter)
      requires Judge(State(), converter, epoch, generation) == Accepted(completed)
      requires blank == CompletionResult(InvalidCompletion, epoch, generation, Wrap32(generation + 2), converter,
                                         destination, OVERFLOW_DESTINATION, NO_CONVERTER, false, false, false)
      modifies this, records, slots
      ensures Valid()
      ensures State() == Accept(old(State()), converter, completed, generation, destination)
      ensures result == CompleteResult(old(State()), converter, old(epoch), generation, destination)
    {
      result := blank;
      var agrees := EnterCompletion(converter, generation, destination, completed);
      var balanced := ReviewSkew();
      result := result.(consumed := true);
      var future := ExtendSchedule(Wrap32(generation + 2));
      if future < slots.Length {
        result := result.(futureDestination := slots[future].destination);
      }
      result := result.(mask := slots[completed].mask);
      if AllConverters(slots[completed].mask) {
        var settled := FinalizeGeneration(completed);
        result := result.(pairReady := settled.ready, pairLost := settled.lost);
      }
      result := result.(status := if agrees && balanced && future < slots.Length then Ok else InvalidCompletion);
    }

    method EnterCompletion(converter: nat, generation: u32, destination: u8, completed: nat) returns (agrees: bool)
      requires Valid()
      requires converter < CONVERTER_COUNT && completed < SLOT_COUNT
      requires generation == nextCompletion.At(converter)
      modifies this`progress, this`nextCompletion, slots
      ensures Valid()
      ensures State() == Enter(old(State()), converter, completed, destination)
      ensures agrees == DestinationAgrees(old(slots[completed]), destination)
    {
      agrees := true;
      if destination != slots[completed].destination || !IsDmaDestination(destination) {
        slots[completed] := slots[completed].(invalidData := true);
        agrees := false;
        progress := CountMismatch(progress.(
          destinationMismatches := SaturatingIncrement32(progress.destinationMismatches)));
      }
      slots[completed] := slots[completed].(mask := slots[completed].mask.With(converter, true));
      nextCompletion := nextCompletion.With(converter, Wrap32(generation + 1));
      progress := progress.(
        majorLoops := progress.majorLoops.With(converter, SaturatingIncrement64(progress.majorLoops.At(converter))),
        results := progress.results.With(
          converter, SaturatingAdd64(progress.results.At(converter), pairsPerBuffer)));
      assert slots[..] == Enter(old(State()), converter, completed, destination).slots;
    }

    method ReviewSkew() returns (balanced: bool)
      requires Valid()
      modifies this`progress, slots
      ensures Valid()
      ensures State() == CheckSkew(old(State()))
      ensures balanced == !Skewed(old(State()))
    {
      balanced := Distance(progress.majorLoops.adc0, progress.majorLoops.adc1) <= 1;
      if !balanced {
        progress := CountMismatch(progress);
        TaintOutstanding();
      }
    }

    method ExtendSchedule(generation: u32) returns (future: nat)
      requires Valid()
      modifies this, records, slots
      ensures Valid()
      ensures (State(), future) == Extend(old(State()), generation)
    {
      future := ScheduleGeneration(generation);
      if future == slots.Length {
        progress := progress.(scheduleExhaustions := SaturatingIncrement32(progress.scheduleExhaustions));
        TaintOutstanding();
      }
    }

    method FinalizeGeneration(i: nat) returns (settled: Settlement)
      requires Valid() && i < SLOT_COUNT
      modifies this`progress, records, slots
      ensures Valid()
      ensures (State(), settled) == Finalize(old(State()), i)
    {
      var slot := slots[i];
      settled := Settlement(false, slot.invalidData || slot.destination == OVERFLOW_DESTINATION);
      progress := progress.(
        pairedMajorLoops := SaturatingIncrement64(progress.pairedMajorLoops),
        pairsCaptured := SaturatingAdd64(progress.pairsCaptured, pairsPerBuffer));
      if slot.destination == OVERFLOW_DESTINATION {
        progress := progress.(ringOverruns := SaturatingIncrement64(progress.ringOverruns),
                              pairsLost := SaturatingAdd64(progress.pairsLost, pairsPerBuffer));
      } else if !IsBufferDestination(slot.destination) {
        NoteError();
        progress := progress.(incompleteBuffers := SaturatingIncrement64(progress.incompleteBuffers),
                              pairsLost := SaturatingAdd64(progress.pairsLost, pairsPerBuffer));
        settled := settled.(lost := true);
      } else {
        var record := records[slot.destination];
        var matches := record.state == DmaOwned && record.epoch == epoch && record.generation == slot.generation;
        if !matches {
          NoteError();
          slot := slot.(invalidData := true);
        }
        if slot.invalidData {
          if matches {
            records[slot.destination] := record.(state := DiscardPending);
          }
          progress := progress.(incompleteBuffers := SaturatingIncrement64(progress.incompleteBuffers),
                                pairsLost := SaturatingAdd64(progress.pairsLost, pairsPerBuffer));
          settled := settled.(lost := true);
        } else {
          records[slot.destination] := record.(state := Ready);
          progress := progress.(buffersCompleted := SaturatingIncrement64(progress.buffersCompleted));
          var ready := CountInState(Ready);
          if ready > progress.readyHighWater {
            progress := progress.(readyHighWater := ready);
          }
          settled := settled.(ready := true);
        }
      }
      slots[i] := EMPTY_SLOT;
      ghost var expected := Finalize(old(State()), i).0;
      assert slots[..] == expected.slots;
      assert records[..] == expected.records;
    }

    method OnAdcEtcError(forEpoch: u32, mask: u8, flags: bv32)
      requires Valid()
      modifies this`progress, slots
      ensures Valid() && State() == RecordAdcEtcError(old(State()), forEpoch, mask, flags)
    {
      if !running || forEpoch == 0 || forEpoch != epoch {
        return;
      }
      if mask % 4 == 0 || mask % 4 != mask {
        NoteError();
      }
      progress := progress.(
        adcEtcErrorEvents := SaturatingIncrement32(progress.adcEtcErrorEvents),
        adcEtcErrorFlags := progress.adcEtcErrorFlags | flags);
      ghost var noted := State();
      var converter := 0;
      while converter < CONVERTER_COUNT
        invariant converter <= CONVERTER_COUNT
        invariant Valid()
        invariant State() == if converter == 0 then noted
                             else if converter == 1 then ChargeOverwrite(noted, mask, 0)
                             else ChargeOverwrite(ChargeOverwrite(noted, mask, 0), mask, 1)
      {
        if MaskNames(mask, converter) {
          progress := progress.(
            overwrittenConversions := SaturatingIncrement64(progress.overwrittenConversions));
          TaintGeneration(nextCompletion.At(converter), 1);
        }
        converter := converter + 1;
      }
    }

    method OnDmaError(forEpoch: u32, converter: u8)
      requires Valid()
      modifies this`progress, slots
      ensures Valid() && State() == RecordDmaError(old(State()), forEpoch, converter)
    {
      if !running || forEpoch == 0 || forEpoch != epoch {
        return;
      }
      if converter >= CONVERTER_COUNT {
        NoteError();
        return;
      }
      progress := progress.(dmaErrorEvents := SaturatingIncrement32(progress.dmaErrorEvents));
      TaintGeneration(nextCompletion.At(converter), 0);
    }

    // ------------------------------------------------------------------ leases

    method TakeLease() returns (lease: u32)
      modifies this`nextLease
      ensures (lease, nextLease) == AllocateLease(old(nextLease))
    {
      lease := nextLease;
      var next := Wrap32(nextLease + 1);
      if lease == 0 {
        lease := next;
        next := Wrap32(next + 1);
      }
      nextLease := if next == 0 then 1 else next;
    }

    method AcquireOldest() returns (result: AcquireResult)
      requires Valid()
      modifies this`nextLease, this`progress, records
      ensures Valid()
      ensures (State(), result) == Acquire(old(State()))
    {
      result := AcquireResult(NoReadyBuffer, NO_HANDLE);
      var selected := RING_DEPTH;
      var oldest: u64 := MAX_64;
      var d := 0;
      while d < records.Length
        invariant d <= records.Length
        invariant selected == OldestReady(records[..], d)
        invariant oldest == if selected < RING_DEPTH then records[selected].firstPair else MAX_64
      {
        if records[d].state == Ready && records[d].firstPair < oldest {
          selected, oldest := d, records[d].firstPair;
        }
        d := d + 1;
      }
      if selected == RING_DEPTH {
        return;
      }
      var lease := TakeLease();
      records[selected] := records[selected].(state := Reading, lease := lease);
      var record := records[selected];
      progress := progress.(
        buffersAcquired := SaturatingIncrement64(progress.buffersAcquired),
        pairsDelivered := SaturatingAdd64(progress.pairsDelivered, pairsPerBuffer),
        cacheCpuInvalidations := SaturatingIncrement32(progress.cacheCpuInvalidations));
      assert records[..] == Acquire(old(State())).0.records;
      return AcquireResult(Ok, BufferHandle(Storage(selected), record.firstPair, pairsPerBuffer,
                                            record.epoch, record.lease, selected));
    }

    /** acquireReady: the discard service, then the critical section. */
    method AcquireReady() returns (result: AcquireResult)
      requires Valid()
      modifies this`nextLease, this`progress, records
      ensures Valid()
      ensures (State(), result) == RingModel.AcquireReady(old(State()))
    {
      var _ := ServiceDiscarded(RING_DEPTH);
      result := AcquireOldest();
    }

    method BeginRelease(handle: BufferHandle) returns (status: Status)
      requires Valid()
      modifies records
      ensures Valid() && (State(), status) == ReleaseBegin(old(State()), handle)
    {
      var matches := MatchesHandle(handle, Reading);
      if !matches {
        return InvalidHandle;
      }
      records[handle.bufferIndex] := records[handle.bufferIndex].(state := Releasing);
      assert records[..] == ReleaseBegin(old(State()), handle).0.records;
      return Ok;
    }

    method EndRelease(handle: BufferHandle) returns (status: Status)
      requires Valid()
      modifies this`progress, records
      ensures Valid() && (State(), status) == ReleaseEnd(old(State()), handle)
    {
      progress := progress.(cacheDmaDiscards := SaturatingIncrement32(progress.cacheDmaDiscards));
      assert progress == DiscardCache(old(progress), 1) by {
        assert DiscardCache(old(progress), 0) == old(progress);
      }
      var matches := MatchesHandle(handle, Releasing);
      if !matches {
        NoteError();
        return InvalidHandle;
      }
      records[handle.bufferIndex] := FREE_RECORD;
      progress := progress.(buffersReleased := SaturatingIncrement64(progress.buffersReleased));
      assert records[..] == ReleaseEnd(old(State()), handle).0.records;
      return Ok;
    }

    /** release with no interruption between its two critical sections. */
    method Release(handle: BufferHandle) returns (status: Status)
      requires Valid()
      modifies this`progress, records
      ensures Valid() && (State(), status) == RingModel.Release(old(State()), handle)
    {
      status := BeginRelease(handle);
      if status == Ok {
        status := EndRelease(handle);
      }
    }

    method BeginDiscard() returns (selected: nat)
      requires Valid()
      modifies records
      ensures Valid() && (State(), selected) == DiscardBegin(old(State()))
      ensures selected <= RING_DEPTH
    {
      selected := 0;
      while selected < records.Length && records[selected].state != DiscardPending
        invariant selected <= records.Length
        invariant FirstDiscard(records[..]) == FirstDiscard(records[..], selected)
      {
        selected := selected + 1;
      }
      if selected < records.Length {
        records[selected] := records[selected].(state := Releasing);
        assert records[..] == DiscardBegin(old(State())).0.records;
      }
    }

    method EndDiscard(selected: nat) returns (freed: bool)
      requires Valid() && selected < RING_DEPTH
      modifies this`progress, records
      ensures Valid() && (State(), freed) == DiscardEnd(old(State()), selected)
    {
      progress := progress.(cacheDmaDiscards := SaturatingIncrement32(progress.cacheDmaDiscards));
      assert progress == DiscardCache(old(progress), 1) by {
        assert DiscardCache(old(progress), 0) == old(progress);
      }
      if records[selected].state != Releasing {
        NoteError();
        return false;
      }
      records[selected] := FREE_RECORD;
      assert records[..] == DiscardEnd(old(State()), selected).0.records;
      return true;
    }

    method ServiceDiscarded(limit: nat) returns (serviced: nat)
      requires Valid()
      modifies this`progress, records
      ensures Valid() && (State(), serviced) == RingModel.ServiceDiscarded(old(State()), limit)
    {
      hide DiscardBegin, DiscardEnd;
      serviced := 0;
      while serviced < limit
        invariant Valid() && serviced <= limit
        invariant RingModel.ServiceDiscarded(old(State()), limit)
               == (RingModel.ServiceDiscarded(State(), limit - serviced).0,
                   serviced + RingModel.ServiceDiscarded(State(), limit - serviced).1)
      {
        var selected := BeginDiscard();
        if selected == RING_DEPTH {
          break;
        }
        var freed := EndDiscard(selected);
        if !freed {
          break;
        }
        serviced := serviced + 1;
      }
    }

    // -------------------------------------------------------------------- stop

    /** stop: the progress check, the critical section, and, if it was running, a full discard service. */
    method StopCapture(channels: Channels) returns (report: StopReport)
      requires Valid()
      modifies this, records, slots
      ensures Valid()
      ensures (State(), report) == RingModel.StopCapture(old(State()), channels)
    {
      hide Stop, RingModel.ServiceDiscarded, ConsistentProgress;
      var wasRunning := running;
      report := HaltCapture(channels);
      if wasRunning {
        var serviced := ServiceDiscarded(RING_DEPTH);
      }
    }

    /** stop up to the end of its critical section. */
    method HaltCapture(channels: Channels) returns (report: StopReport)
      requires Valid()
      modifies this, records, slots
      ensures Valid()
      ensures (State(), report) == Stop(old(State()), channels, ConsistentProgress(old(State()), channels))
    {
      report := StopReport(NotRunning, 0, 0, 0, 0);
      var validProgress := true;
      for converter := 0 to CONVERTER_COUNT
        invariant validProgress == ((converter > 0 ==> ConsistentChannel(State(), channels, 0)) &&
                                    (converter > 1 ==> ConsistentChannel(State(), channels, 1)))
      {
        var channel := channels.At(converter);
        if channel.minorPairs > pairsPerBuffer || !IsDmaDestination(channel.destination) ||
           channel.generation != nextCompletion.At(converter) {
          validProgress := false;
        }
      }
      if !running {
        return;
      }
      running := false;
      ghost var start := Halt(State(), 0, 0, validProgress);
      var discarded: u64, buffers := 0, 0;
      var i := 0;
      while i < slots.Length
        invariant i <= slots.Length
        invariant Valid()
        invariant Halt(State(), discarded, buffers, validProgress) == HaltSlots(start, i, channels)
      {
        discarded, buffers, validProgress := HaltGeneration(i, channels, discarded, buffers, validProgress);
        i := i + 1;
      }
      var ready := CountInState(Ready);
      var reading := CountInState(Reading);
      return StopReport(if validProgress then Ok else InvalidStopProgress, discarded, buffers, ready, reading);
    }

    method MeasureContributions(slot: GenerationSlot, channels: Channels, consistent: bool)
      returns (contributed: PerConverter<u32>, consistent': bool)
      requires Valid()
      modifies this`progress
      ensures contributed.adc0 == Contributed(slot, channels, 0, pairsPerBuffer)
      ensures contributed.adc1 == Contributed(slot, channels, 1, pairsPerBuffer)
      ensures consistent'
           == (consistent && !WrongDestination(slot, channels, 0) && !WrongDestination(slot, channels, 1))
      ensures progress
           == CountWrongDestination(CountWrongDestination(old(progress), slot, channels, 0), slot, channels, 1)
    {
      contributed, consistent' := PerConverter(0, 0), consistent;
      for converter := 0 to CONVERTER_COUNT
        invariant contributed.adc0 == if converter > 0 then Contributed(slot, channels, 0, pairsPerBuffer) else 0
        invariant contributed.adc1 == if converter > 1 then Contributed(slot, channels, 1, pairsPerBuffer) else 0
        invariant consistent' == (consistent && (converter > 0 ==> !WrongDestination(slot, channels, 0))
                                             && (converter > 1 ==> !WrongDestination(slot, channels, 1)))
        invariant progress == if converter == 0 then old(progress)
                              else if converter == 1 then CountWrongDestination(old(progress), slot, channels, 0)
                              else CountWrongDestination(
                                     CountWrongDestination(old(progress), slot, channels, 0), slot, channels, 1)
      {
        var channel := channels.At(converter);
        if slot.mask.At(converter) {
          contributed := contributed.With(converter, pairsPerBuffer);
        } else if channel.generation == slot.generation {
          contributed := contributed.With(
            converter, if channel.minorPairs > pairsPerBuffer then pairsPerBuffer else channel.minorPairs);
          if channel.destination != slot.destination {
            progress := progress.(destinationMismatches := SaturatingIncrement32(progress.destinationMismatches));
            consistent' := false;
          }
        }
      }
    }

    method CountHaltLoss(slot: GenerationSlot, channels: Channels, contributed: PerConverter<u32>, discarded: u64)
      returns (discarded': u64)
      requires Valid()
      requires contributed.adc0 == Contributed(slot, channels, 0, pairsPerBuffer)
      requires contributed.adc1 == Contributed(slot, channels, 1, pairsPerBuffer)
      modifies this`progress
      ensures discarded' == SaturatingAdd64(discarded, LostPairs(slot, channels, pairsPerBuffer))
      ensures progress
           == CountImbalance(CountStopLoss(old(progress), slot, channels, pairsPerBuffer), slot, channels,
                             pairsPerBuffer)
    {
      discarded' := discarded;
      var lost := if contributed.adc0 > contributed.adc1 then contributed.adc0 else contributed.adc1;
      if lost < slot.minimumLost {
        lost := slot.minimumLost;
      }
      if lost != 0 {
        progress := progress.(
          pairsCaptured := SaturatingAdd64(progress.pairsCaptured, lost),
          pairsLost := SaturatingAdd64(progress.pairsLost, lost),
          stopDiscardedPairs := SaturatingAdd64(progress.stopDiscardedPairs, lost));
        discarded' := SaturatingAdd64(discarded, lost);
        if slot.destination == OVERFLOW_DESTINATION {
          progress := progress.(ringOverruns := SaturatingIncrement64(progress.ringOverruns));
        } else {
          progress := progress.(incompleteBuffers := SaturatingIncrement64(progress.incompleteBuffers));
        }
      }
      assert progress == CountStopLoss(old(progress), slot, channels, pairsPerBuffer);
      var difference := Distance(contributed.adc0, contributed.adc1);
      if difference != 0 {
        progress := CountMismatch(progress.(
          incompleteConversions := SaturatingAdd64(progress.incompleteConversions, difference)));
      }
    }

    method HaltGeneration(i: nat, channels: Channels, discarded: u64, buffers: nat, consistent: bool)
      returns (discarded': u64, buffers': nat, consistent': bool)
      requires Valid() && i < SLOT_COUNT
      modifies this`progress, records, slots
      ensures Valid()
      ensures Halt(State(), discarded', buffers', consistent')
           == HaltSlot(Halt(old(State()), discarded, buffers, consistent), i, channels)
    {
      discarded', buffers', consistent' := discarded, buffers, consistent;
      var slot := slots[i];
      if !slot.valid {
        return;
      }
      var contributed;
      contributed, consistent' := MeasureContributions(slot, channels, consistent);
      discarded' := CountHaltLoss(slot, channels, contributed, discarded);
      if IsBufferDestination(slot.destination) {
        var record := records[slot.destination];
        if record.state != DmaOwned || record.epoch != epoch || record.generation != slot.generation {
          NoteError();
          consistent' := false;
        } else {
          records[slot.destination] := record.(state := DiscardPending);
          buffers' := buffers + 1;
        }
      }
      slots[i] := EMPTY_SLOT;
      ghost var expected := HaltSlot(Halt(old(State()), discarded, buffers, consistent), i, channels).ring;
      assert slots[..] == expected.slots;
      assert records[..] == expected.records;
      assert State() == expected;
    }
  }
}
