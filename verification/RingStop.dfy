/** What a stop discards after a loss-free run, and the tail conditions the soak validator holds it to. */
module RingStop {
  import opened FixedWidth
  import opened RingModel
  import opened RingOwnership
  import opened RingTrack
  import opened RingSettle
  import opened RingRuns
  import opened RingHistory

  // --------------------------------------------- no overwrite, no minimum loss

  /** Only a recorded overwrite gives a slot a minimum loss. */
  ghost predicate Unforced(r: Ring) {
    r.progress.adcEtcErrorEvents == 0 ==>
      forall i :: 0 <= i < SLOT_COUNT && r.slots[i].valid ==> r.slots[i].minimumLost == 0
  }

  ghost predicate MinimaKept(r: Ring, after: Ring) {
    && (after.progress.adcEtcErrorEvents == 0 ==> r.progress.adcEtcErrorEvents == 0)
    && forall i :: 0 <= i < SLOT_COUNT && after.slots[i].valid ==>
         after.slots[i].minimumLost == 0 || (r.slots[i].valid && after.slots[i].minimumLost == r.slots[i].minimumLost)
  }

  lemma AdvanceKeepsMinima(r: Ring, converter: nat, i: nat, generation: u32, destination: u8)
    requires converter < CONVERTER_COUNT && i < SLOT_COUNT && r.slots[i].valid
    ensures MinimaKept(r, Advance(r, converter, i, generation, destination).0)
  {
    var c := CheckSkew(Enter(r, converter, i, destination));
    assert MinimaKept(r, c);
    assert MinimaKept(c, Extend(c, Wrap32(generation + 2)).0);
    AdvanceIsEntered(r, converter, i, generation, destination);
  }

  lemma MinimaKeepUnforced(r: Ring, after: Ring)
    requires Unforced(r) && MinimaKept(r, after)
    ensures Unforced(after)
  {
  }

  lemma AcceptKeepsMinima(r: Ring, converter: nat, i: nat, generation: u32, destination: u8)
    requires converter < CONVERTER_COUNT && i < SLOT_COUNT && r.slots[i].valid
    ensures MinimaKept(r, Accept(r, converter, i, generation, destination))
  {
    AdvanceKeepsMinima(r, converter, i, generation, destination);
    FinalizeKeepsMinima(Advance(r, converter, i, generation, destination).0, i);
  }

  lemma CompleteKeepsMinima(r: Ring, converter: u8, epoch: u32, generation: u32, destination: u8)
    ensures MinimaKept(r, RingModel.Complete(r, converter, epoch, generation, destination))
  {
    var verdict := Judge(r, converter, epoch, generation);
    if verdict.Accepted? {
      AcceptKeepsMinima(r, converter, verdict.slot, generation, destination);
    } else {
      RejectedKeepsTables(r, converter, epoch, generation, destination);
    }
  }

  lemma DmaErrorKeepsMinima(r: Ring, epoch: u32, converter: u8)
    ensures MinimaKept(r, RecordDmaError(r, epoch, converter))
  {
  }

  lemma ReserveKeepsMinima(r: Ring, epoch: u32, generation: u32)
    ensures MinimaKept(r, RingModel.Reserve(r, epoch, generation).0)
  {
    ScheduleEffect(r, generation);
    ScheduleKeepsEvents(r, generation);
  }

  lemma PrimeUnforced(r: Ring, epoch: u32, generation: u32, firstPair: u64, pairs: u32)
    requires Unforced(r)
    ensures Unforced(RingModel.Prime(r, epoch, generation, firstPair, pairs).0)
  {
    if epoch != 0 && 1 <= pairs <= PAIRS_PER_FRAME && !r.running && AllFree(r.records) {
      PrimeSeeds(r, epoch, generation, firstPair, pairs);
      PrimedTables(r, epoch, generation, firstPair, pairs);
    }
  }

  lemma StepUnforced(s: System, e: Event)
    requires Safe(s) && Unforced(s.ring)
    ensures Unforced(Step(s, e).ring)
  {
    match e {
      case Prime(epoch, generation, firstPair, pairs) => PrimeUnforced(s.ring, epoch, generation, firstPair, pairs);
      case Reserve(epoch, generation) => ReserveKeepsMinima(s.ring, epoch, generation);
      case Complete(converter, epoch, generation, destination) =>
        CompleteKeepsMinima(s.ring, converter, epoch, generation, destination);
        MinimaKeepUnforced(s.ring, Step(s, e).ring);
      case AdcEtcError(epoch, mask, flags) =>
        if Listening(s.ring, epoch) {
          EtcEventIsCounted(s.ring, epoch, mask, flags);
        }
      case DmaError(epoch, converter) =>
        DmaErrorKeepsMinima(s.ring, epoch, converter);
        MinimaKeepUnforced(s.ring, Step(s, e).ring);
      case Stop(channels, consistent) => StopOwns(s.ring, channels, consistent);
      case _ => ForegroundKeepsSlots(s, e);
    }
  }

  lemma ScheduleKeepsEvents(r: Ring, generation: u32)
    ensures Schedule(r, generation).0.progress.adcEtcErrorEvents == r.progress.adcEtcErrorEvents
  {
  }

  lemma FinalizeKeepsMinima(r: Ring, i: nat)
    requires i < SLOT_COUNT
    ensures MinimaKept(r, Finalize(r, i).0)
  {
  }

  lemma EtcEventIsCounted(r: Ring, epoch: u32, mask: u8, flags: bv32)
    requires Listening(r, epoch)
    ensures RecordAdcEtcError(r, epoch, mask, flags).progress.adcEtcErrorEvents > 0
  {
    var noted := NoteEtcEvent(r, mask, flags);
    assert noted.progress.adcEtcErrorEvents > 0;
    assert ChargeOverwrite(noted, mask, 0).progress.adcEtcErrorEvents > 0;
  }

  lemma ForegroundKeepsSlots(s: System, e: Event)
    requires e.Acquire? || e.BeginRelease? || e.EndRelease? || e.BeginDiscard? || e.EndDiscard?
    ensures Step(s, e).ring.slots == s.ring.slots
    ensures Step(s, e).ring.progress.adcEtcErrorEvents == s.ring.progress.adcEtcErrorEvents
  {
  }

  lemma {:induction false} EveryRunUnforced(events: seq<Event>)
    ensures Unforced(Run(events).ring)
  {
    if events == [] {
    } else {
      var before := events[..|events| - 1];
      EveryRunUnforced(before);
      EveryRunIsSafe(before);
      StepUnforced(Run(before), events[|events| - 1]);
    }
  }

  // ------------------------------------------------------------------ the tail

  /** No pair lost and no disagreement counted since prime. */
  predicate LossFree(p: Progress) {
    && p.pairsLost == 0
    && p.stopDiscardedPairs == 0
    && p.incompleteBuffers == 0
    && p.completionMismatches == 0
    && p.incompleteConversions == 0
    && p.adcEtcErrorEvents == 0
    && p.scheduleExhaustions == 0
  }

  /** The converter's next generation is one past the other's. */
  predicate Leads(r: Ring, converter: nat)
    requires converter < CONVERTER_COUNT
  {
    r.nextCompletion.At(converter) == Wrap32(r.nextCompletion.At(1 - converter) + 1)
  }

  /** The converters' next generations are equal or one apart. */
  predicate SkewAtMostOne(r: Ring) {
    || r.nextCompletion.adc0 == r.nextCompletion.adc1
    || Leads(r, 1)
    || Leads(r, 0)
  }

  /** The converter that is one generation ahead has also written every pair of its next buffer. */
  predicate AheadByTwoBuffers(r: Ring, channels: Channels) {
    || (Leads(r, 1) && channels.adc1.minorPairs == r.pairsPerBuffer)
    || (Leads(r, 0) && channels.adc0.minorPairs == r.pairsPerBuffer)
  }

  /** The buffers both converters are writing are real ones. */
  predicate WritingBuffers(r: Ring) {
    forall i :: 0 <= i < SLOT_COUNT && r.slots[i].valid
                && (r.slots[i].generation == r.nextCompletion.adc0 || r.slots[i].generation == r.nextCompletion.adc1)
                ==> IsBufferDestination(r.slots[i].destination)
  }

  /** The conditions the validator puts on the ADC part of a physical STOP tail. */
  predicate TailReconciles(p: Progress) {
    && p.pairsLost == p.stopDiscardedPairs
    && p.incompleteBuffers <= 2
    && p.completionMismatches <= p.incompleteBuffers
    && p.incompleteConversions <= p.stopDiscardedPairs
    && ((p.stopDiscardedPairs == 0) == (p.incompleteBuffers == 0))
  }

  function Tally(r: Ring, channels: Channels, i: nat): u32
    requires i < SLOT_COUNT
  {
    if r.slots[i].valid then LostPairs(r.slots[i], channels, r.pairsPerBuffer) else 0
  }

  function Uneven(r: Ring, channels: Channels, i: nat): u32
    requires i < SLOT_COUNT
  {
    if r.slots[i].valid then Imbalance(r.slots[i], channels, r.pairsPerBuffer) else 0
  }

  function Unit(n: int): nat {
    if n == 0 then 0 else 1
  }

  /** The totals after halting the first `n` slots, when only slots `a` and `b` have anything in them. */
  ghost predicate TailSoFar(r: Ring, channels: Channels, a: nat, b: nat, n: nat, h: Halt)
    requires a < SLOT_COUNT && b < SLOT_COUNT
  {
    var p := h.ring.progress;
    var (la, lb) := (if a < n then Tally(r, channels, a) else 0, if b < n then Tally(r, channels, b) else 0);
    var (ua, ub) := (if a < n then Uneven(r, channels, a) else 0, if b < n then Uneven(r, channels, b) else 0);
    && p.pairsLost == la + lb
    && p.stopDiscardedPairs == la + lb
    && p.incompleteBuffers == Unit(la) + Unit(lb)
    && p.incompleteConversions == ua + ub
    && p.completionMismatches == Unit(ua) + Unit(ub)
    && h.discarded == la + lb
  }

  lemma HaltSlotTail(h: Halt, i: nat, channels: Channels)
    requires i < SLOT_COUNT
    requires h.ring.slots[i].valid && h.ring.slots[i].destination == OVERFLOW_DESTINATION ==>
      Tally(h.ring, channels, i) == 0
    requires h.ring.progress.pairsLost <= 2 * PAIRS_PER_FRAME && h.ring.progress.incompleteBuffers <= 2
    requires h.ring.progress.stopDiscardedPairs <= 2 * PAIRS_PER_FRAME && h.discarded <= 2 * PAIRS_PER_FRAME
    requires h.ring.progress.incompleteConversions <= 2 * PAIRS_PER_FRAME && h.ring.progress.completionMismatches <= 2
    ensures var p := h.ring.progress;
            var h' := HaltSlot(h, i, channels);
            var q := h'.ring.progress;
            var (lost, uneven) := (Tally(h.ring, channels, i), Uneven(h.ring, channels, i));
            && q.pairsLost == p.pairsLost + lost
            && q.stopDiscardedPairs == p.stopDiscardedPairs + lost
            && h'.discarded == h.discarded + lost
            && q.incompleteBuffers == p.incompleteBuffers + Unit(lost)
            && q.incompleteConversions == p.incompleteConversions + uneven
            && q.completionMismatches == p.completionMismatches + Unit(uneven)
  {
    hide CountWrongDestination, CountStopLoss, CountImbalance, LostPairs, Imbalance, OwnershipMatches, WrongDestination;
    var r, slot := h.ring, h.ring.slots[i];
    var p0 := CountWrongDestination(CountWrongDestination(r.progress, slot, channels, 0), slot, channels, 1);
    WrongDestinationTail(r.progress, slot, channels, 0);
    WrongDestinationTail(CountWrongDestination(r.progress, slot, channels, 0), slot, channels, 1);
    if slot.valid {
      StopLossTail(p0, slot, channels, r.pairsPerBuffer);
      ImbalanceTail(CountStopLoss(p0, slot, channels, r.pairsPerBuffer), slot, channels, r.pairsPerBuffer);
    }
  }

  predicate SameTail(p: Progress, q: Progress) {
    && q.pairsLost == p.pairsLost
    && q.stopDiscardedPairs == p.stopDiscardedPairs
    && q.incompleteBuffers == p.incompleteBuffers
    && q.incompleteConversions == p.incompleteConversions
    && q.completionMismatches == p.completionMismatches
  }

  lemma WrongDestinationTail(p: Progress, slot: GenerationSlot, channels: Channels, converter: nat)
    requires converter < CONVERTER_COUNT
    ensures SameTail(p, CountWrongDestination(p, slot, channels, converter))
  {
  }

  lemma StopLossTail(p: Progress, slot: GenerationSlot, channels: Channels, pairs: u32)
    requires p.pairsLost <= 2 * PAIRS_PER_FRAME && p.stopDiscardedPairs <= 2 * PAIRS_PER_FRAME
    requires p.incompleteBuffers <= 2
    requires slot.destination == OVERFLOW_DESTINATION ==> LostPairs(slot, channels, pairs) == 0
    ensures var q := CountStopLoss(p, slot, channels, pairs);
            var lost := LostPairs(slot, channels, pairs);
            && q.pairsLost == p.pairsLost + lost
            && q.stopDiscardedPairs == p.stopDiscardedPairs + lost
            && q.incompleteBuffers == p.incompleteBuffers + Unit(lost)
            && q.incompleteConversions == p.incompleteConversions
            && q.completionMismatches == p.completionMismatches
  {
    hide LostPairs;
  }

  lemma ImbalanceTail(p: Progress, slot: GenerationSlot, channels: Channels, pairs: u32)
    requires p.incompleteConversions <= 2 * PAIRS_PER_FRAME && p.completionMismatches <= 2
    ensures var q := CountImbalance(p, slot, channels, pairs);
            var uneven := Imbalance(slot, channels, pairs);
            && q.pairsLost == p.pairsLost
            && q.stopDiscardedPairs == p.stopDiscardedPairs
            && q.incompleteBuffers == p.incompleteBuffers
            && q.incompleteConversions == p.incompleteConversions + uneven
            && q.completionMismatches == p.completionMismatches + Unit(uneven)
  {
    hide Imbalance;
  }

  /** Only slots `a` and `b` hold pairs; `b` could be `a`'s neighbour or any other slot. */
  ghost predicate OnlyTwoStarted(r: Ring, channels: Channels, a: nat, b: nat)
    requires a < SLOT_COUNT && b < SLOT_COUNT
  {
    && a != b
    && Matched(r)
    && (forall i :: 0 <= i < SLOT_COUNT && i != a && i != b ==>
          Tally(r, channels, i) == 0 && Uneven(r, channels, i) == 0)
    && (forall i :: i == a || i == b ==>
          && Tally(r, channels, i) <= PAIRS_PER_FRAME && Uneven(r, channels, i) <= Tally(r, channels, i)
          && (Tally(r, channels, i) > 0 ==> IsBufferDestination(r.slots[i].destination)))
  }

  lemma SameSlotTallies(h: Ring, r: Ring, channels: Channels, i: nat)
    requires i < SLOT_COUNT && h.slots[i] == r.slots[i] && h.pairsPerBuffer == r.pairsPerBuffer
    ensures Tally(h, channels, i) == Tally(r, channels, i) && Uneven(h, channels, i) == Uneven(r, channels, i)
  {
  }

  lemma TailStep(r: Ring, h: Halt, channels: Channels, a: nat, b: nat, n: nat)
    requires n < SLOT_COUNT && a < SLOT_COUNT && b < SLOT_COUNT
    requires OnlyTwoStarted(r, channels, a, b) && TailSoFar(r, channels, a, b, n, h)
    requires h.ring.slots[n] == r.slots[n] && h.ring.pairsPerBuffer == r.pairsPerBuffer
    ensures TailSoFar(r, channels, a, b, n + 1, HaltSlot(h, n, channels))
  {
    hide HaltSlot, Matched, Tally, Uneven;
    SameSlotTallies(h.ring, r, channels, n);
    assert h.ring.slots[n].valid && h.ring.slots[n].destination == OVERFLOW_DESTINATION ==> Tally(r, channels, n) == 0;
    HaltSlotTail(h, n, channels);
  }

  lemma {:induction false} HaltSlotsTail(r: Ring, start: Halt, channels: Channels, a: nat, b: nat, n: nat)
    requires n <= SLOT_COUNT && a < SLOT_COUNT && b < SLOT_COUNT
    requires OnlyTwoStarted(r, channels, a, b) && LossFree(r.progress)
    requires start.ring == r.(running := false) && start.discarded == 0
    ensures TailSoFar(r, channels, a, b, n, HaltSlots(start, n, channels))
  {
    if n > 0 {
      HaltSlotsTail(r, start, channels, a, b, n - 1);
      MarksKeepMatch(r, start.ring);
      hide HaltSlot, OnlyTwoStarted, TailSoFar, Matched;
      HaltSlotsOwn(start, n - 1, channels);
      TailStep(r, HaltSlots(start, n - 1, channels), channels, a, b, n - 1);
    }
  }

  // ------------------------------------------------- the slots a stop finds started

  /** What slot `i` of a window holds when a stop observes it. */
  lemma ObservedInWindow(r: Ring, t: Track, channels: Channels, i: nat)
    requires Tracked(r, t) && r.running && r.progress.scheduleExhaustions == 0
    requires i < SLOT_COUNT && r.slots[i].valid
    requires channels.adc0.generation == r.nextCompletion.adc0 && channels.adc1.generation == r.nextCompletion.adc1
    ensures Observed(r.slots[i], channels, 0) <==> t.slotIndex[i] == t.done.adc0
    ensures Observed(r.slots[i], channels, 1) <==> t.slotIndex[i] == t.done.adc1
    ensures r.slots[i].mask.adc0 <==> t.slotIndex[i] < t.done.adc0
    ensures r.slots[i].mask.adc1 <==> t.slotIndex[i] < t.done.adc1
    ensures Low(t) <= t.slotIndex[i]
  {
    assert InWindow(r, t, i);
    WindowUnwraps(r, t, i, t.done.adc0);
    WindowUnwraps(r, t, i, t.done.adc1);
  }

  lemma SkewInNumbers(r: Ring, t: Track)
    requires Tracked(r, t) && r.running && r.progress.scheduleExhaustions == 0
    requires SkewAtMostOne(r)
    ensures t.done.adc0 <= Low(t) + 1 && t.done.adc1 <= Low(t) + 1
    ensures Leads(r, 1) <==> t.done.adc1 == t.done.adc0 + 1
    ensures Leads(r, 0) <==> t.done.adc0 == t.done.adc1 + 1
  {
    var (m, n) := (t.done.adc0, t.done.adc1);
    WrapAdd(t.origin, m, 1);
    WrapAdd(t.origin, n, 1);
    if r.nextCompletion.adc0 == r.nextCompletion.adc1 {
      CloseCountersAgree(t.origin, m, n);
    }
    if Leads(r, 1) {
      CloseCountersAgree(t.origin, m + 1, n);
    }
    if Leads(r, 0) {
      CloseCountersAgree(t.origin, m, n + 1);
    }
  }

  lemma NotStarted(r: Ring, t: Track, channels: Channels, i: nat, a: nat, b: nat)
    requires Owned(r) && Tracked(r, t) && r.running && LossFree(r.progress) && Unforced(r)
    requires ConsistentProgress(r, channels) && i < SLOT_COUNT && i != a && i != b
    requires a < SLOT_COUNT && SlotFor(r, t, a, Low(t)) && b < SLOT_COUNT && SlotFor(r, t, b, Low(t) + 1)
    requires t.done.adc0 <= Low(t) + 1 && t.done.adc1 <= Low(t) + 1
    ensures Tally(r, channels, i) == 0 && Uneven(r, channels, i) == 0
  {
    hide Windowed, Find, Wrap32, Placed, Accounted, Matched;
    if r.slots[i].valid {
      ObservedInWindow(r, t, channels, i);
      OneSlotEach(r, t, i, a);
      OneSlotEach(r, t, i, b);
    }
  }

  /** The slots of the slower converter's generation and the one after are the only ones started. */
  lemma StartedSlots(r: Ring, t: Track, channels: Channels) returns (a: nat, b: nat)
    requires Owned(r) && Tracked(r, t) && r.running && LossFree(r.progress) && Unforced(r)
    requires SkewAtMostOne(r) && WritingBuffers(r) && ConsistentProgress(r, channels)
    ensures a < SLOT_COUNT && b < SLOT_COUNT && OnlyTwoStarted(r, channels, a, b)
    ensures Tally(r, channels, a) + Tally(r, channels, b) <= 2 * r.pairsPerBuffer
    ensures Tally(r, channels, a) + Tally(r, channels, b) == 2 * r.pairsPerBuffer <==> AheadByTwoBuffers(r, channels)
  {
    SkewInNumbers(r, t);
    FindInWindow(r, t, Low(t));
    FindInWindow(r, t, Low(t) + 1);
    a := Find(r.slots, Wrap32(t.origin + Low(t)));
    b := Find(r.slots, Wrap32(t.origin + Low(t) + 1));
    hide Matched, Windowed, Find, Wrap32, Placed, Accounted, AheadByTwoBuffers;
    forall i | 0 <= i < SLOT_COUNT && i != a && i != b
      ensures Tally(r, channels, i) == 0 && Uneven(r, channels, i) == 0
    {
      NotStarted(r, t, channels, i, a, b);
    }
    ObservedInWindow(r, t, channels, a);
    ObservedInWindow(r, t, channels, b);
    StartedTotals(r, t, channels, a, b);
  }

  /** Two slots in use never hold the same number. */
  lemma OneSlotEach(r: Ring, t: Track, i: nat, j: nat)
    requires Matched(r) && Indexed(r, t) && i < SLOT_COUNT && j < SLOT_COUNT && i != j
    requires r.slots[i].valid && r.slots[j].valid
    ensures t.slotIndex[i] != t.slotIndex[j]
  {
    assert SlotIndexed(r, t, i) && SlotIndexed(r, t, j);
    assert i < j ==> Apart(r.slots[i], r.slots[j]);
    assert j < i ==> Apart(r.slots[j], r.slots[i]);
  }

  lemma StartedTotals(r: Ring, t: Track, channels: Channels, a: nat, b: nat)
    requires a < SLOT_COUNT && b < SLOT_COUNT && r.slots[a].valid && r.slots[b].valid && Sized(t)
    requires r.slots[a].minimumLost == 0 && r.slots[b].minimumLost == 0
    requires t.slotIndex[a] == Low(t) && t.slotIndex[b] == Low(t) + 1
    requires t.done.adc0 <= Low(t) + 1 && t.done.adc1 <= Low(t) + 1
    requires forall i :: i == a || i == b ==>
      && (Observed(r.slots[i], channels, 0) <==> t.slotIndex[i] == t.done.adc0)
      && (Observed(r.slots[i], channels, 1) <==> t.slotIndex[i] == t.done.adc1)
      && (r.slots[i].mask.adc0 <==> t.slotIndex[i] < t.done.adc0)
      && (r.slots[i].mask.adc1 <==> t.slotIndex[i] < t.done.adc1)
    requires channels.adc0.minorPairs <= r.pairsPerBuffer && channels.adc1.minorPairs <= r.pairsPerBuffer
    ensures forall i :: i == a || i == b ==> Uneven(r, channels, i) <= Tally(r, channels, i) <= r.pairsPerBuffer
    ensures Tally(r, channels, b) ==
      if t.done.adc1 == t.done.adc0 + 1 then channels.adc1.minorPairs
      else if t.done.adc0 == t.done.adc1 + 1 then channels.adc0.minorPairs else 0
    ensures t.done.adc0 != t.done.adc1 ==> Tally(r, channels, a) == r.pairsPerBuffer
  {
  }

  /** Stopping a loss-free run whose converters are at most one generation apart, on real buffers and with channel
      progress that agrees with the ring: every tail condition of the validator holds, except that the tail reaches
      two whole buffers exactly when the converter ahead has written its next buffer to the last pair as well. The
      validator measures with buffers of a whole frame, so its bound fails exactly when the buffers are that long. */
  lemma StopTail(events: seq<Event>, channels: Channels, consistent: bool)
    requires var r := Run(events).ring;
             && r.running && LossFree(r.progress)
             && SkewAtMostOne(r) && WritingBuffers(r) && ConsistentProgress(r, channels)
    ensures var r := Run(events).ring;
            var (after, report) := RingModel.Stop(r, channels, consistent);
            && TailReconciles(after.progress)
            && report.pairsDiscarded == after.progress.stopDiscardedPairs
            && after.progress.stopDiscardedPairs <= 2 * r.pairsPerBuffer
            && (after.progress.stopDiscardedPairs < 2 * r.pairsPerBuffer <==> !AheadByTwoBuffers(r, channels))
            && (after.progress.stopDiscardedPairs < 2 * PAIRS_PER_FRAME
                <==> !(AheadByTwoBuffers(r, channels) && r.pairsPerBuffer == PAIRS_PER_FRAME))
  {
    hide Run, TrackRun;
    EveryRunIsSafe(events);
    EveryRunIsTracked(events);
    EveryRunUnforced(events);
    StopTailHere(Run(events).ring, TrackRun(events), channels, consistent);
  }

  lemma StopTailHere(r: Ring, t: Track, channels: Channels, consistent: bool)
    requires Owned(r) && Tracked(r, t) && r.running && LossFree(r.progress) && Unforced(r)
    requires SkewAtMostOne(r) && WritingBuffers(r) && ConsistentProgress(r, channels)
    ensures var (after, report) := RingModel.Stop(r, channels, consistent);
            && TailReconciles(after.progress)
            && report.pairsDiscarded == after.progress.stopDiscardedPairs
            && after.progress.stopDiscardedPairs <= 2 * r.pairsPerBuffer
            && (after.progress.stopDiscardedPairs < 2 * r.pairsPerBuffer <==> !AheadByTwoBuffers(r, channels))
            && (after.progress.stopDiscardedPairs < 2 * PAIRS_PER_FRAME
                <==> !(AheadByTwoBuffers(r, channels) && r.pairsPerBuffer == PAIRS_PER_FRAME))
  {
    var a, b := StartedSlots(r, t, channels);
    var start := Halt(r.(running := false), 0, 0, consistent);
    HaltSlotsTail(r, start, channels, a, b, SLOT_COUNT);
  }

  // ------------------------------------------------- a tail of two whole buffers

  /** A primed ring on which converter 0 has finished its first buffer. */
  ghost predicate OneReported(r: Ring) {
    && r.running && r.epoch == 1 && r.pairsPerBuffer == PAIRS_PER_FRAME
    && r.nextCompletion == PerConverter(1, 0)
    && LossFree(r.progress) && WritingBuffers(r)
  }

  lemma PrimedProgress(pairs: u32)
    requires 1 <= pairs <= PAIRS_PER_FRAME
    ensures var r := RingModel.Prime(INITIAL, 1, 0, 0, pairs).0;
            r.progress.(cacheDmaDiscards := 0) == NO_PROGRESS
  {
    PrimeSeeds(INITIAL, 1, 0, 0, pairs);
    var cleared := Cleared(INITIAL, 1, 0, 0, pairs);
    SeedingCountsNothing(cleared, 0);
    DiscardKeepsTheRest(Seeds(cleared, 0).0.progress, RING_DEPTH + 1);
  }

  lemma SeedingCountsNothing(r: Ring, generation: u32)
    requires Seeds(r, generation).1 < SLOT_COUNT && Seeds(r, generation).2 < SLOT_COUNT
    requires r.nextSchedule == generation && NoneScheduled(r)
    ensures Seeds(r, generation).0.progress == r.progress
  {
    ScheduleEffect(r, generation);
  }

  lemma OneReportHappens()
    ensures OneReported(Run([Event.Prime(1, 0, 0, PAIRS_PER_FRAME), Event.Complete(0, 1, 0, 0)]).ring)
  {
    var (e0, e1) := (Event.Prime(1, 0, 0, PAIRS_PER_FRAME), Event.Complete(0, 1, 0, 0));
    assert [e0, e1][..1] == [e0] && [e0][..0] == [];
    var r := Step(START, e0).ring;
    assert Run([e0]).ring == r;
    PrimeSeeds(INITIAL, 1, 0, 0, PAIRS_PER_FRAME);
    PrimedRing(INITIAL, 1, 0, 0, PAIRS_PER_FRAME);
    PrimedTables(INITIAL, 1, 0, 0, PAIRS_PER_FRAME);
    PrimedProgress(PAIRS_PER_FRAME);
    FirstReported(r);
  }

  lemma FirstReported(r: Ring)
    requires r.running && r.epoch == 1 && r.pairsPerBuffer == PAIRS_PER_FRAME && r.nextSchedule == 2
    requires r.nextCompletion == PerConverter(0, 0) && r.progress.(cacheDmaDiscards := 0) == NO_PROGRESS
    requires r.slots[0] == GenerationSlot(0, 0, 0, NO_CONVERTER, 0, true, false)
    requires forall i :: 0 <= i < SLOT_COUNT && r.slots[i].valid ==>
      i < 2 && r.slots[i].generation == i && IsBufferDestination(r.slots[i].destination)
    ensures OneReported(RingModel.Complete(r, 0, 1, 0, 0))
  {
    assert Find(r.slots, 0) == 0;
    var e := Enter(r, 0, 0, 0);
    assert !Skewed(e);
    assert forall i :: 0 <= i < SLOT_COUNT ==> !Holds(e.slots[i], 2);
    assert Find(e.slots, 2) == SLOT_COUNT && !e.slots[2].valid && FirstUnused(e.slots) <= 2;
    ScheduleEffect(e, 2);
    assert LossFree(e.progress);
  }

  /** The converter ahead may have written its next buffer to the last pair: then two whole buffers are discarded,
      and the bound the validator puts on the tail, two frames of pairs, does not hold. */
  lemma TailOfTwoBuffersHappens() returns (events: seq<Event>, channels: Channels)
    ensures var r := Run(events).ring;
            && r.running && LossFree(r.progress)
            && SkewAtMostOne(r) && WritingBuffers(r) && ConsistentProgress(r, channels)
            && RingModel.Stop(r, channels, true).0.progress.stopDiscardedPairs == 2 * PAIRS_PER_FRAME
  {
    events := [Event.Prime(1, 0, 0, PAIRS_PER_FRAME), Event.Complete(0, 1, 0, 0)];
    channels := PerConverter(ChannelStop(1, PAIRS_PER_FRAME, 1), ChannelStop(0, 0, 0));
    OneReportHappens();
    var r := Run(events).ring;
    EveryRunIsSafe(events);
    EveryRunIsTracked(events);
    EveryRunUnforced(events);
    hide *;
    StopOneReported(r, TrackRun(events), channels);
  }

  lemma StopOneReported(r: Ring, t: Track, channels: Channels)
    requires Owned(r) && Tracked(r, t) && Unforced(r) && OneReported(r)
    requires channels == PerConverter(ChannelStop(1, PAIRS_PER_FRAME, 1), ChannelStop(0, 0, 0))
    ensures r.running && LossFree(r.progress)
    ensures SkewAtMostOne(r) && WritingBuffers(r) && ConsistentProgress(r, channels)
    ensures RingModel.Stop(r, channels, true).0.progress.stopDiscardedPairs == 2 * PAIRS_PER_FRAME
  {
    hide Owned, Tracked, Unforced, RingModel.Stop, LossFree, WritingBuffers;
    StopTailHere(r, t, channels, true);
  }
}
