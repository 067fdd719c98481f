/** Conservation of pairs and buffers across whole runs in which no counter saturates. */
module RingCounters {
  import opened FixedWidth
  import opened RingModel
  import opened RingOwnership
  import opened RingTrack
  import opened RingSettle
  import opened RingRuns
  import opened RingOrder
  import opened RingHistory

  /** The captured-pairs counter has not reached its ceiling; no other counter of a run reaches its own before it. */
  predicate Exact(p: Progress) {
    p.pairsCaptured < MAX_64
  }

  function ReadyDepth(r: Ring): nat {
    CountState(r.records, Ready)
  }

  /** How many settled generations were lost. */
  ghost function LostCount(settled: seq<Outcome>): nat {
    LostAmong(settled, 0, |settled|)
  }

  /** Everything captured is lost or completed; everything completed is handed out or Ready; and while the ring runs,
      everything finished by both converters has settled one way. */
  ghost predicate Balanced(r: Ring, t: Track) {
    var p := r.progress;
    Exact(p) ==>
      && p.pairsCaptured == p.pairsLost + Times(r.pairsPerBuffer, p.buffersCompleted)
      && p.buffersCompleted == p.buffersAcquired + ReadyDepth(r)
      && p.pairsDelivered == Times(r.pairsPerBuffer, p.buffersAcquired)
      && p.pairsLost == Times(r.pairsPerBuffer, LostCount(t.settled)) + p.stopDiscardedPairs
      && (r.running ==>
            && p.pairedMajorLoops == p.buffersCompleted + p.ringOverruns + p.incompleteBuffers
            && p.pairedMajorLoops == |t.settled|
            && p.pairsCaptured == Times(r.pairsPerBuffer, p.pairedMajorLoops)
            && p.stopDiscardedPairs == 0)
  }

  predicate SameTotals(p: Progress, q: Progress) {
    && q.pairsCaptured == p.pairsCaptured
    && q.pairsLost == p.pairsLost
    && q.pairsDelivered == p.pairsDelivered
    && q.buffersCompleted == p.buffersCompleted
    && q.buffersAcquired == p.buffersAcquired
    && q.stopDiscardedPairs == p.stopDiscardedPairs
    && q.pairedMajorLoops == p.pairedMajorLoops
    && q.ringOverruns == p.ringOverruns
    && q.incompleteBuffers == p.incompleteBuffers
  }

  // --------------------------------------------------------------- arithmetic

  lemma {:induction false} TimesMonotone(pairs: nat, m: nat, n: nat)
    requires m <= n
    ensures Times(pairs, m) <= Times(pairs, n)
  {
    if m < n {
      TimesMonotone(pairs, m, n - 1);
    }
  }

  lemma {:induction false} CountStateUpdate(records: seq<BufferRecord>, d: nat, record: BufferRecord,
                                            state: BufferState)
    requires d < |records|
    ensures CountState(records[d := record], state)
         == CountState(records, state) - (if records[d].state == state then 1 else 0)
            + (if record.state == state then 1 else 0)
  {
    var n := |records| - 1;
    if d == n {
      assert records[d := record][..n] == records[..n];
    } else {
      assert records[d := record][..n] == records[..n][d := record];
      CountStateUpdate(records[..n], d, record, state);
    }
  }

  lemma {:induction false} CountStateAlike(a: seq<BufferRecord>, b: seq<BufferRecord>, state: BufferState)
    requires |a| == |b| && forall d :: 0 <= d < |a| ==> (a[d].state == state) == (b[d].state == state)
    ensures CountState(a, state) == CountState(b, state)
  {
    if |a| > 0 {
      CountStateAlike(a[..|a| - 1], b[..|b| - 1], state);
    }
  }

  lemma {:induction false} LostPrefix(settled: seq<Outcome>, last: Outcome, n: nat)
    requires n <= |settled|
    ensures LostAmong(settled + [last], 0, n) == LostAmong(settled, 0, n)
  {
    if n > 0 {
      LostPrefix(settled, last, n - 1);
    }
  }

  lemma LostAppend(settled: seq<Outcome>, last: Outcome)
    ensures LostCount(settled + [last]) == LostCount(settled) + (if last.ready then 0 else 1)
  {
    LostPrefix(settled, last, |settled|);
  }

  // ------------------------------------------------------------- preservation

  /** Steps that touch no total and no Ready buffer. */
  lemma TotalsKeepBalance(r: Ring, after: Ring, t: Track, t': Track)
    requires Balanced(r, t) && t'.settled == t.settled
    requires SameTotals(r.progress, after.progress)
    requires after.pairsPerBuffer == r.pairsPerBuffer && (after.running ==> r.running)
    requires forall d :: 0 <= d < RING_DEPTH ==> (after.records[d].state == Ready) == (r.records[d].state == Ready)
    ensures Balanced(after, t')
  {
    CountStateAlike(r.records, after.records, Ready);
  }

  lemma ScheduleKeepsTotals(r: Ring, generation: u32)
    ensures SameTotals(r.progress, Extend(r, generation).0.progress)
    ensures SameTotals(r.progress, Schedule(r, generation).0.progress)
  {
  }

  lemma AdvanceKeepsTotals(r: Ring, converter: nat, i: nat, generation: u32, destination: u8)
    requires converter < CONVERTER_COUNT && i < SLOT_COUNT
    ensures SameTotals(r.progress, Advance(r, converter, i, generation, destination).0.progress)
  {
    var c := CheckSkew(Enter(r, converter, i, destination));
    assert SameTotals(r.progress, c.progress);
    ScheduleKeepsTotals(c, Wrap32(generation + 2));
  }

  lemma ScheduleKeepsReady(r: Ring, generation: u32)
    requires Matched(r)
    ensures forall d :: 0 <= d < RING_DEPTH ==>
      (Schedule(r, generation).0.records[d].state == Ready) == (r.records[d].state == Ready)
  {
    ScheduleEffect(r, generation);
    TakeFreeOwns(r, generation, r.nextFirstPair);
  }

  /** Finalizing adds one buffer of pairs to the captured total and to exactly one side of it. */
  lemma FinalizeBalances(a: Ring, t: Track, i: nat, n: nat)
    requires i < SLOT_COUNT && a.slots[i].valid && SlotOwns(a, i) && a.running
    requires Balanced(a, t)
    ensures Balanced(Finalize(a, i).0, Settle(t, n, Finalize(a, i).1.ready))
  {
    var (after, outcome) := Finalize(a, i);
    FinalizeEffect(a, i);
    FinalizeKeepsRun(a, i);
    LostAppend(t.settled, Outcome(n, outcome.ready));
    hide LostCount;
    if IsBufferDestination(a.slots[i].destination) {
      CountStateUpdate(a.records, a.slots[i].destination, after.records[a.slots[i].destination], Ready);
    }
    if Exact(after.progress) {
      FinalizeTotals(a, i);
      hide Finalize;
    }
  }

  lemma FinalizeTotals(a: Ring, i: nat)
    requires i < SLOT_COUNT && a.slots[i].valid && SlotOwns(a, i)
    requires Exact(Finalize(a, i).0.progress)
    requires a.progress.pairsLost <= a.progress.pairsCaptured
    requires a.progress.buffersCompleted + a.progress.ringOverruns + a.progress.incompleteBuffers
          == a.progress.pairedMajorLoops <= a.progress.pairsCaptured
    ensures var p := a.progress;
            var (after, outcome) := Finalize(a, i);
            var q := after.progress;
            && q.pairsCaptured == p.pairsCaptured + a.pairsPerBuffer
            && q.pairedMajorLoops == p.pairedMajorLoops + 1
            && q.pairsLost == p.pairsLost + (if outcome.ready then 0 else a.pairsPerBuffer)
            && q.buffersCompleted == p.buffersCompleted + (if outcome.ready then 1 else 0)
            && q.ringOverruns + q.incompleteBuffers
               == p.ringOverruns + p.incompleteBuffers + (if outcome.ready then 0 else 1)
            && q.pairsDelivered == p.pairsDelivered && q.buffersAcquired == p.buffersAcquired
            && q.stopDiscardedPairs == p.stopDiscardedPairs
  {
  }

  lemma AcceptBalances(r: Ring, t: Track, converter: nat, i: nat, generation: u32, destination: u8)
    requires converter < CONVERTER_COUNT && i < SLOT_COUNT && r.slots[i].valid && r.running
    requires Owned(r) && Sized(t) && Balanced(r, t)
    ensures Balanced(Accept(r, converter, i, generation, destination),
                     TrackAccept(t, r, converter, i, generation, destination))
  {
    hide Advance, Accept, TrackAccept, Schedule, TrackSchedule, Balanced, Placed;
    var g := Wrap32(generation + 2);
    var b, a := Schedule(r, g).0, Advance(r, converter, i, generation, destination).0;
    AcceptParts(r, t, converter, i, generation, destination);
    AdvanceKeepsTotals(r, converter, i, generation, destination);
    ScheduleKeepsReady(r, g);
    var ta := CountDone(TrackSchedule(t, r, g), converter);
    TotalsKeepBalance(r, a, t, ta);
    if AllConverters(a.slots[i].mask) {
      assert a.slots[i].(invalidData := b.slots[i].invalidData)
          == b.slots[i].(mask := b.slots[i].mask.With(converter, true));
      assert SlotOwns(a, i);
      FinalizeBalances(a, ta, i, t.slotIndex[i]);
    }
  }

  lemma CompleteBalances(r: Ring, t: Track, converter: u8, epoch: u32, generation: u32, destination: u8)
    requires Owned(r) && Sized(t) && Balanced(r, t)
    ensures Balanced(RingModel.Complete(r, converter, epoch, generation, destination),
                     TrackComplete(t, r, converter, epoch, generation, destination))
  {
    var verdict := Judge(r, converter, epoch, generation);
    if verdict.Accepted? {
      AcceptBalances(r, t, converter, verdict.slot, generation, destination);
    } else {
      RejectedKeepsTables(r, converter, epoch, generation, destination);
      TotalsKeepBalance(r, RingModel.Complete(r, converter, epoch, generation, destination), t,
                        TrackComplete(t, r, converter, epoch, generation, destination));
    }
  }

  lemma AcquireBalances(r: Ring, t: Track)
    requires Sized(t) && Balanced(r, t)
    ensures Balanced(RingModel.Acquire(r).0, TrackAcquire(t, r))
  {
    var d := OldestReady(r.records, RING_DEPTH);
    if d < RING_DEPTH && Exact(r.progress) {
      var after := RingModel.Acquire(r).0;
      CountStateUpdate(r.records, d, after.records[d], Ready);
      TimesMonotone(r.pairsPerBuffer, r.progress.buffersAcquired + 1, r.progress.buffersCompleted);
      assert after.records == r.records[d := after.records[d]];
    }
  }

  lemma HaltSlotBalances(h: Halt, i: nat, channels: Channels, t: Track)
    requires i < SLOT_COUNT && Matched(h.ring) && !h.ring.running
    requires Balanced(h.ring, t)
    ensures Balanced(HaltSlot(h, i, channels).ring, t)
  {
    HaltSlotOwns(h, i, channels);
    var after := HaltSlot(h, i, channels).ring;
    forall d | 0 <= d < RING_DEPTH
      ensures (after.records[d].state == Ready) == (h.ring.records[d].state == Ready)
    {
      assert Surrendered(h.ring.records[d], after.records[d]);
    }
    CountStateAlike(h.ring.records, after.records, Ready);
    HaltSlotTotals(h, i, channels);
  }

  lemma HaltSlotTotals(h: Halt, i: nat, channels: Channels)
    requires i < SLOT_COUNT
    ensures var p := h.ring.progress;
            var q := HaltSlot(h, i, channels).ring.progress;
            var lost :=
              if h.ring.slots[i].valid then LostPairs(h.ring.slots[i], channels, h.ring.pairsPerBuffer) else 0;
            && q.pairsCaptured == SaturatingAdd64(p.pairsCaptured, lost)
            && q.pairsLost == SaturatingAdd64(p.pairsLost, lost)
            && q.stopDiscardedPairs == SaturatingAdd64(p.stopDiscardedPairs, lost)
            && q.buffersCompleted == p.buffersCompleted && q.buffersAcquired == p.buffersAcquired
            && q.pairsDelivered == p.pairsDelivered
  {
    hide CountWrongDestination, CountStopLoss, CountImbalance, LostPairs, OwnershipMatches, WrongDestination;
    var r, slot := h.ring, h.ring.slots[i];
    var p := r.progress;
    var once := CountWrongDestination(p, slot, channels, 0);
    var twice := CountWrongDestination(once, slot, channels, 1);
    WrongDestinationTotals(p, slot, channels, 0);
    WrongDestinationTotals(once, slot, channels, 1);
    StopLossTotals(twice, slot, channels, r.pairsPerBuffer);
    ImbalanceTotals(CountStopLoss(twice, slot, channels, r.pairsPerBuffer), slot, channels, r.pairsPerBuffer);
  }

  lemma WrongDestinationTotals(p: Progress, slot: GenerationSlot, channels: Channels, converter: nat)
    requires converter < CONVERTER_COUNT
    ensures SameTotals(p, CountWrongDestination(p, slot, channels, converter))
  {
  }

  lemma ImbalanceTotals(p: Progress, slot: GenerationSlot, channels: Channels, pairs: u32)
    ensures SameTotals(p, CountImbalance(p, slot, channels, pairs))
  {
  }

  lemma StopLossTotals(p: Progress, slot: GenerationSlot, channels: Channels, pairs: u32)
    ensures var q := CountStopLoss(p, slot, channels, pairs);
            var lost := LostPairs(slot, channels, pairs);
            && q.pairsCaptured == SaturatingAdd64(p.pairsCaptured, lost)
            && q.pairsLost == SaturatingAdd64(p.pairsLost, lost)
            && q.stopDiscardedPairs == SaturatingAdd64(p.stopDiscardedPairs, lost)
            && q.buffersCompleted == p.buffersCompleted && q.buffersAcquired == p.buffersAcquired
            && q.pairsDelivered == p.pairsDelivered
  {
    hide LostPairs;
  }

  lemma {:induction false} HaltSlotsBalance(h: Halt, n: nat, channels: Channels, t: Track)
    requires n <= SLOT_COUNT && Matched(h.ring) && !h.ring.running
    requires Balanced(h.ring, t)
    ensures Balanced(HaltSlots(h, n, channels).ring, t)
  {
    if n > 0 {
      HaltSlotsBalance(h, n - 1, channels, t);
      HaltSlotsOwn(h, n - 1, channels);
      HaltSlotBalances(HaltSlots(h, n - 1, channels), n - 1, channels, t);
    }
  }

  lemma StopBalances(r: Ring, t: Track, channels: Channels, consistent: bool)
    requires Owned(r) && Balanced(r, t)
    ensures Balanced(RingModel.Stop(r, channels, consistent).0, t)
  {
    if r.running {
      var start := Halt(r.(running := false), 0, 0, consistent);
      MarksKeepMatch(r, start.ring);
      HaltSlotsBalance(start, SLOT_COUNT, channels, t);
    }
  }

  lemma PrimeBalances(r: Ring, t: Track, epoch: u32, generation: u32, firstPair: u64, pairs: u32)
    requires Balanced(r, t)
    ensures Balanced(RingModel.Prime(r, epoch, generation, firstPair, pairs).0,
                     TrackPrime(t, r, epoch, generation, firstPair, pairs))
  {
    if epoch != 0 && 1 <= pairs <= PAIRS_PER_FRAME && !r.running && AllFree(r.records) {
      PrimeSeeds(r, epoch, generation, firstPair, pairs);
      PrimeTrackIsSeeded(r, t, epoch, generation, firstPair, pairs);
      PrimedRing(r, epoch, generation, firstPair, pairs);
      PrimedTables(r, epoch, generation, firstPair, pairs);
      PrimedTotals(r, epoch, generation, firstPair, pairs);
      var after := RingModel.Prime(r, epoch, generation, firstPair, pairs).0;
      NoneReady(after.records);
    }
  }

  lemma {:induction false} NoneReady(records: seq<BufferRecord>)
    requires forall d :: 0 <= d < |records| ==> records[d].state != Ready
    ensures CountState(records, Ready) == 0
  {
    if |records| > 0 {
      NoneReady(records[..|records| - 1]);
    }
  }

  lemma PrimedTotals(r: Ring, epoch: u32, generation: u32, firstPair: u64, pairs: u32)
    requires epoch != 0 && 1 <= pairs <= PAIRS_PER_FRAME && !r.running && AllFree(r.records)
    ensures SameTotals(NO_PROGRESS, RingModel.Prime(r, epoch, generation, firstPair, pairs).0.progress)
  {
    PrimeSeeds(r, epoch, generation, firstPair, pairs);
    var cleared := Cleared(r, epoch, generation, firstPair, pairs);
    ScheduleKeepsTotals(cleared, generation);
    ScheduleKeepsTotals(Schedule(cleared, generation).0, Wrap32(generation + 1));
    DiscardKeepsTheRest(Seeds(cleared, generation).0.progress, RING_DEPTH + 1);
  }

  lemma ReserveBalances(r: Ring, t: Track, epoch: u32, generation: u32)
    requires Owned(r) && Sized(t) && Balanced(r, t)
    ensures Balanced(RingModel.Reserve(r, epoch, generation).0, TrackReserve(t, r, epoch, generation))
  {
    ScheduleKeepsTotals(r, generation);
    ScheduleKeepsReady(r, generation);
    ScheduleKeepsRun(r, generation);
    TotalsKeepBalance(r, RingModel.Reserve(r, epoch, generation).0, t, TrackReserve(t, r, epoch, generation));
  }

  lemma ErrorsBalance(r: Ring, t: Track, epoch: u32, mask: u8, flags: bv32, converter: u8)
    requires Balanced(r, t)
    ensures Balanced(RecordAdcEtcError(r, epoch, mask, flags), t)
    ensures Balanced(RecordDmaError(r, epoch, converter), t)
  {
    ErrorsKeepTotals(r, epoch, mask, flags, converter);
    ErrorsKeepRun(r, epoch, mask, flags, converter);
    hide RecordAdcEtcError, RecordDmaError;
    TotalsKeepBalance(r, RecordAdcEtcError(r, epoch, mask, flags), t, t);
    TotalsKeepBalance(r, RecordDmaError(r, epoch, converter), t, t);
  }

  lemma ErrorsKeepTotals(r: Ring, epoch: u32, mask: u8, flags: bv32, converter: u8)
    ensures SameTotals(r.progress, RecordAdcEtcError(r, epoch, mask, flags).progress)
    ensures SameTotals(r.progress, RecordDmaError(r, epoch, converter).progress)
    ensures RecordAdcEtcError(r, epoch, mask, flags).records == r.records
    ensures RecordDmaError(r, epoch, converter).records == r.records
  {
    var noted := NoteEtcEvent(r, mask, flags);
    hide ChargeOverwrite;
    ChargeKeepsTotals(noted, mask, 0);
    ChargeKeepsTotals(ChargeOverwrite(noted, mask, 0), mask, 1);
  }

  lemma ChargeKeepsTotals(r: Ring, mask: u8, converter: nat)
    requires converter < CONVERTER_COUNT
    ensures SameTotals(r.progress, ChargeOverwrite(r, mask, converter).progress)
    ensures ChargeOverwrite(r, mask, converter).records == r.records
  {
  }

  /** A foreground half changes no total. */
  lemma HalfBalances(s: System, t: Track, e: Event)
    requires Safe(s) && Balanced(s.ring, t)
    requires e.BeginRelease? || e.EndRelease? || e.BeginDiscard? || e.EndDiscard?
    ensures Balanced(Step(s, e).ring, t)
  {
    hide Balanced, Owned;
    match e {
      case EndRelease(d) =>
        if d in s.flights && s.flights[d].ByHandle? {
          EndReleaseIsSafe(s, d);
        }
      case EndDiscard(d) => DiscardIsSafe(s, d);
      case _ =>
    }
    TotalsKeepBalance(s.ring, Step(s, e).ring, t, t);
  }

  lemma StepBalances(s: System, t: Track, e: Event)
    requires Safe(s) && Sized(t) && Balanced(s.ring, t)
    ensures Balanced(Step(s, e).ring, TrackStep(t, s.ring, e))
  {
    hide Balanced, Owned, TrackPrime, TrackReserve, TrackComplete, TrackAcquire, RingModel.Prime, RingModel.Complete,
      RecordAdcEtcError, RecordDmaError, RingModel.Acquire, RingModel.Stop;
    match e {
      case Prime(epoch, generation, firstPair, pairs) =>
        PrimeBalances(s.ring, t, epoch, generation, firstPair, pairs);
      case Reserve(epoch, generation) =>
        ReserveBalances(s.ring, t, epoch, generation);
      case Complete(converter, epoch, generation, destination) =>
        CompleteBalances(s.ring, t, converter, epoch, generation, destination);
      case AdcEtcError(epoch, mask, flags) => ErrorsBalance(s.ring, t, epoch, mask, flags, 0);
      case DmaError(epoch, converter) => ErrorsBalance(s.ring, t, epoch, 0, 0, converter);
      case Acquire => AcquireBalances(s.ring, t);
      case Stop(channels, consistent) => StopBalances(s.ring, t, channels, consistent);
      case _ => HalfBalances(s, t, e);
    }
  }

  /** Conservation in every reachable state, running or stopped, that no saturation has touched. */
  lemma {:induction false} EveryRunBalances(events: seq<Event>)
    ensures Balanced(Run(events).ring, TrackRun(events))
  {
    if events == [] {
      NoneReady(INITIAL.records);
    } else {
      var before := events[..|events| - 1];
      EveryRunBalances(before);
      EveryRunIsSafe(before);
      StepBalances(Run(before), TrackRun(before), events[|events| - 1]);
    }
  }

  /** The equations a status report is checked against, over every run. */
  lemma CountersConserve(events: seq<Event>)
    requires Exact(Run(events).ring.progress)
    ensures var r := Run(events).ring;
            var p := r.progress;
            && p.pairsCaptured == p.pairsLost + r.pairsPerBuffer * p.buffersCompleted
            && p.buffersCompleted == p.buffersAcquired + ReadyDepth(r)
            && p.pairsDelivered == r.pairsPerBuffer * p.buffersAcquired
            && (r.running ==>
                  && p.pairedMajorLoops == p.buffersCompleted + p.ringOverruns + p.incompleteBuffers
                  && p.pairsLost == r.pairsPerBuffer * (p.ringOverruns + p.incompleteBuffers))
  {
    hide Run, TrackRun;
    EveryRunBalances(events);
    BalanceInProducts(Run(events).ring, TrackRun(events));
  }

  lemma BalanceInProducts(r: Ring, t: Track)
    requires Balanced(r, t) && Exact(r.progress)
    ensures var p := r.progress;
            && p.pairsCaptured == p.pairsLost + r.pairsPerBuffer * p.buffersCompleted
            && p.pairsDelivered == r.pairsPerBuffer * p.buffersAcquired
            && (r.running ==> p.pairsLost == r.pairsPerBuffer * (p.ringOverruns + p.incompleteBuffers))
  {
    var p := r.progress;
    TimesIsProduct(r.pairsPerBuffer, p.buffersCompleted);
    TimesIsProduct(r.pairsPerBuffer, p.buffersAcquired);
    if r.running {
      TimesSplits(r.pairsPerBuffer, p.buffersCompleted, p.ringOverruns + p.incompleteBuffers);
      TimesIsProduct(r.pairsPerBuffer, p.ringOverruns + p.incompleteBuffers);
      assert p.buffersCompleted + (p.ringOverruns + p.incompleteBuffers) == p.pairedMajorLoops;
    }
  }

  lemma {:induction false} TimesSplits(pairs: nat, m: nat, n: nat)
    ensures Times(pairs, m + n) == Times(pairs, m) + Times(pairs, n)
  {
    if n > 0 {
      TimesSplits(pairs, m, n - 1);
    }
  }
}
