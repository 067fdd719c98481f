/** What stopping the ring reports, told from the ring before and after it. */
module RingReports {
  import opened FixedWidth
  import opened RingModel
  import opened RingOwnership
  import opened RingTrack
  import opened RingRuns
  import opened RingHistory
  import opened RingCounters
  import opened RingStop
  import opened RingDrain
  import opened RingAnswers
  import opened RingEvidence
  import opened RingServices

  /** The pairs lost with the outstanding generations of the first `n` slots. */
  function TotalLost(r: Ring, channels: Channels, n: nat): nat
    requires n <= SLOT_COUNT
  {
    if n == 0 then 0
    else
      TotalLost(r, channels, n - 1) +
      (if r.slots[n - 1].valid then LostPairs(r.slots[n - 1], channels, r.pairsPerBuffer) else 0)
  }

  /** The channel names an outstanding generation that its converter has not finished, but another destination. */
  predicate Contradicts(r: Ring, channels: Channels, converter: nat)
    requires converter < CONVERTER_COUNT
  {
    var i := Find(r.slots, channels.At(converter).generation);
    i < SLOT_COUNT && !r.slots[i].mask.At(converter) && channels.At(converter).destination != r.slots[i].destination
  }

  predicate ContradictsUpTo(r: Ring, channels: Channels, n: nat)
    requires n <= SLOT_COUNT
  {
    exists i, converter :: 0 <= i < n && 0 <= converter < CONVERTER_COUNT && r.slots[i].valid &&
                           WrongDestination(r.slots[i], channels, converter)
  }

  /** After the first `n` slots. */
  ghost predicate HaltedSoFar(start: Halt, h: Halt, channels: Channels, n: nat)
    requires n <= SLOT_COUNT
  {
    && h.discarded == Min(TotalLost(start.ring, channels, n), MAX_64)
    && h.buffers + CountState(h.ring.records, DmaOwned) == CountState(start.ring.records, DmaOwned)
    && CountState(h.ring.records, Ready) == CountState(start.ring.records, Ready)
    && CountState(h.ring.records, Reading) == CountState(start.ring.records, Reading)
    && (h.valid <==> start.valid && !ContradictsUpTo(start.ring, channels, n))
  }

  lemma HaltSlotReports(h: Halt, i: nat, channels: Channels)
    requires Matched(h.ring) && i < SLOT_COUNT
    ensures var (slot, after) := (h.ring.slots[i], HaltSlot(h, i, channels));
            && after.discarded == SaturatingAdd64(h.discarded, if slot.valid then
                                    LostPairs(slot, channels, h.ring.pairsPerBuffer) else 0)
            && after.buffers + CountState(after.ring.records, DmaOwned)
               == h.buffers + CountState(h.ring.records, DmaOwned)
            && CountState(after.ring.records, Ready) == CountState(h.ring.records, Ready)
            && CountState(after.ring.records, Reading) == CountState(h.ring.records, Reading)
            && (after.valid <==> h.valid && !(slot.valid && (WrongDestination(slot, channels, 0)
                                                             || WrongDestination(slot, channels, 1))))
  {
    hide Matched, CountState, LostPairs, WrongDestination, CountWrongDestination, CountStopLoss, CountImbalance;
    SlotMatched(h.ring, i);
    var (slot, after) := (h.ring.slots[i], HaltSlot(h, i, channels));
    if slot.valid && IsBufferDestination(slot.destination) {
      var d := slot.destination;
      CountStateUpdate(h.ring.records, d, after.ring.records[d], DmaOwned);
      CountStateUpdate(h.ring.records, d, after.ring.records[d], Ready);
      CountStateUpdate(h.ring.records, d, after.ring.records[d], Reading);
    }
  }

  lemma SlotMatched(r: Ring, i: nat)
    requires Matched(r) && i < SLOT_COUNT
    ensures SlotOwns(r, i)
  {
  }

  lemma HaltStep(start: Halt, h: Halt, channels: Channels, n: nat)
    requires n < SLOT_COUNT && Matched(h.ring) && HaltedSoFar(start, h, channels, n)
    requires h.ring.slots[n] == start.ring.slots[n] && h.ring.pairsPerBuffer == start.ring.pairsPerBuffer
    ensures HaltedSoFar(start, HaltSlot(h, n, channels), channels, n + 1)
  {
    hide Matched, CountState, WrongDestination, LostPairs, HaltSlot;
    HaltSlotReports(h, n, channels);
  }

  lemma {:induction false} HaltSlotsReport(start: Halt, channels: Channels, n: nat)
    requires Matched(start.ring) && n <= SLOT_COUNT && start.discarded == 0 && start.buffers == 0
    ensures HaltedSoFar(start, HaltSlots(start, n, channels), channels, n)
  {
    if n > 0 {
      HaltSlotsReport(start, channels, n - 1);
      hide Matched, HaltSlot, HaltedSoFar;
      HaltSlotsOwn(start, n - 1, channels);
      HaltStep(start, HaltSlots(start, n - 1, channels), channels, n - 1);
    }
  }

  lemma ContradictionIsFound(r: Ring, channels: Channels)
    requires Matched(r)
    ensures ContradictsUpTo(r, channels, SLOT_COUNT) <==> Contradicts(r, channels, 0) || Contradicts(r, channels, 1)
  {
    if ContradictsUpTo(r, channels, SLOT_COUNT) {
      var i, converter :| 0 <= i < SLOT_COUNT && 0 <= converter < CONVERTER_COUNT && r.slots[i].valid &&
                          WrongDestination(r.slots[i], channels, converter);
      UniqueSlot(r, i, channels.At(converter).generation);
      assert Contradicts(r, channels, converter);
    }
    forall converter | 0 <= converter < CONVERTER_COUNT && Contradicts(r, channels, converter)
      ensures ContradictsUpTo(r, channels, SLOT_COUNT)
    {
      assert WrongDestination(r.slots[Find(r.slots, channels.At(converter).generation)], channels, converter);
    }
  }

  /** Whatever DMA owned waits to be discarded; every other buffer is as it was. */
  predicate GivenUp(r: Ring, after: Ring) {
    forall d :: 0 <= d < RING_DEPTH ==>
      after.records[d] == if r.records[d].state == DmaOwned then r.records[d].(state := DiscardPending)
                          else r.records[d]
  }

  lemma HaltGivesUp(r: Ring, after: Ring)
    requires Matched(after) && NoneScheduled(after)
    requires forall d :: 0 <= d < RING_DEPTH ==> Surrendered(r.records[d], after.records[d])
    ensures GivenUp(r, after)
    ensures forall d :: 0 <= d < RING_DEPTH ==> after.records[d].state != DmaOwned
  {
    assert forall i, d :: 0 <= i < SLOT_COUNT && 0 <= d < RING_DEPTH ==> !Claims(after.slots[i], d);
  }

  lemma StopTells(r: Ring, channels: Channels, consistent: bool)
    requires Owned(r) && r.running
    ensures var (after, report) := RingModel.Stop(r, channels, consistent);
            && !after.running && NoneScheduled(after) && GivenUp(r, after)
            && report == StopReport(
                 if consistent && !Contradicts(r, channels, 0) && !Contradicts(r, channels, 1) then Ok
                 else InvalidStopProgress,
                 Min(TotalLost(r, channels, SLOT_COUNT), MAX_64), CountState(r.records, DmaOwned),
                 CountState(r.records, Ready), CountState(r.records, Reading))
  {
    StopOwns(r, channels, consistent);
    var start := Halt(r.(running := false), 0, 0, consistent);
    MarksKeepMatch(r, start.ring);
    HaltSlotsReport(start, channels, SLOT_COUNT);
    HaltSlotsOwn(start, SLOT_COUNT, channels);
    var after := RingModel.Stop(r, channels, consistent).0;
    hide CountState, HaltSlots, TotalLost, ContradictsUpTo, Contradicts, Matched;
    ContradictionIsFound(start.ring, channels);
    SameContradiction(r, start.ring, channels);
    SameLoss(r, start.ring, channels, SLOT_COUNT);
    HaltGivesUp(r, after);
    NoneIn(after.records, DmaOwned);
  }

  lemma SameContradiction(r: Ring, q: Ring, channels: Channels)
    requires q.slots == r.slots
    ensures forall converter :: 0 <= converter < CONVERTER_COUNT ==>
      Contradicts(q, channels, converter) == Contradicts(r, channels, converter)
  {
  }

  lemma {:induction false} SameLoss(r: Ring, q: Ring, channels: Channels, n: nat)
    requires q.slots == r.slots && q.pairsPerBuffer == r.pairsPerBuffer && n <= SLOT_COUNT
    ensures TotalLost(q, channels, n) == TotalLost(r, channels, n)
  {
    if n > 0 {
      SameLoss(r, q, channels, n - 1);
    }
  }

  /** In every run, stopping a stopped ring does nothing and says so; stopping a running one empties the table, gives up
      exactly the buffers DMA owned, and reports how many, how many pairs were lost with them, what is left to read, and
      whether the progress of the channels agreed with the ring. */
  lemma StopTellsTheRing(events: seq<Event>, channels: Channels, consistent: bool)
    ensures var (r, e) := (Run(events).ring, Event.Stop(channels, consistent));
            var (after, report) := (Run(events + [e]).ring, RingModel.Stop(r, channels, consistent).1);
            if !r.running then after == r && report == StopReport(NotRunning, 0, 0, 0, 0)
            else
              && !after.running && NoneScheduled(after) && GivenUp(r, after)
              && report == StopReport(
                   if consistent && !Contradicts(r, channels, 0) && !Contradicts(r, channels, 1) then Ok
                   else InvalidStopProgress,
                   Min(TotalLost(r, channels, SLOT_COUNT), MAX_64), CountState(r.records, DmaOwned),
                   CountState(r.records, Ready), CountState(r.records, Reading))
  {
    EveryRunIsSafe(events);
    RunSnoc(events, Event.Stop(channels, consistent));
    var r := Run(events).ring;
    hide Run, GivenUp, CountState, HaltSlots, TotalLost, Contradicts, Matched;
    if r.running {
      StopTells(r, channels, consistent);
    }
  }

  /** The whole of stop leaves DMA and the discard service nothing: what DMA owned or was waiting to be discarded is
      free, and every other buffer is as it was. */
  lemma StopCaptureTells(r: Ring, channels: Channels)
    requires Owned(r) && r.running
    ensures var (after, report) := RingModel.StopCapture(r, channels);
            && report == RingModel.Stop(r, channels, ConsistentProgress(r, channels)).1
            && !after.running && NoneScheduled(after)
            && forall d :: 0 <= d < RING_DEPTH ==>
                 after.records[d] == if r.records[d].state == DmaOwned || r.records[d].state == DiscardPending
                                     then FREE_RECORD else r.records[d]
  {
    StopTells(r, channels, ConsistentProgress(r, channels));
    var halted := RingModel.Stop(r, channels, ConsistentProgress(r, channels)).0;
    hide RingModel.Stop, RingModel.ServiceDiscarded, CountState, ConsistentProgress, Matched;
    DiscardServiceFrees(halted, RING_DEPTH);
    var after := RingModel.ServiceDiscarded(halted, RING_DEPTH).0;
    forall d | 0 <= d < RING_DEPTH
      ensures after.records[d].state != DiscardPending
    {
      if after.records[d].state == DiscardPending {
        CountOne(after.records, d, DiscardPending);
      }
    }
  }

  lemma {:induction false} CountOne(records: seq<BufferRecord>, d: nat, state: BufferState)
    requires d < |records| && records[d].state == state
    ensures CountState(records, state) > 0
  {
    if d < |records| - 1 {
      CountOne(records[..|records| - 1], d, state);
    }
  }

  /** The pairs of its `n`-th generation that a converter has written when the channels are where the ring has them. */
  ghost function Written(r: Ring, t: Track, channels: Channels, converter: nat, n: nat): nat
    requires converter < CONVERTER_COUNT
  {
    if n < t.done.At(converter) then r.pairsPerBuffer
    else if n == t.done.At(converter) then channels.At(converter).minorPairs
    else 0
  }

  /** In every run without slot exhaustion, and with channel progress that agrees with the ring, a stop loses with an
      outstanding generation the pairs that the converter further into it has written, and one at least if an overwrite
      was charged to it. */
  lemma LostIsWritten(events: seq<Event>, channels: Channels, i: nat)
    requires var r := Run(events).ring;
             && r.running && r.progress.scheduleExhaustions == 0 && ConsistentProgress(r, channels)
             && i < SLOT_COUNT && r.slots[i].valid
    ensures var (r, t, l) := (Run(events).ring, TrackRun(events), LedgerRun(events));
            var (written0, written1) := (Written(r, t, channels, 0, t.slotIndex[i]),
                                         Written(r, t, channels, 1, t.slotIndex[i]));
            && LostPairs(r.slots[i], channels, r.pairsPerBuffer)
               == Max(Max(written0, written1), if l.open[i].overwritten then 1 else 0)
            && Imbalance(r.slots[i], channels, r.pairsPerBuffer) == Distance(written0, written1)
  {
    EveryRunIsTracked(events);
    EveryRunIsAttested(events);
    var (r, t) := (Run(events).ring, TrackRun(events));
    hide Run, TrackRun, LedgerRun, Clean, OnlyFirstAccepted, Heard;
    assert Faithful(r.slots[i], LedgerRun(events).open[i]);
    ObservedInWindow(r, t, channels, i);
  }
}
