/** The absolute history of every run, and what it says about order, holes and the scheduling window. */
module RingHistory {
  import opened FixedWidth
  import opened RingModel
  import opened RingOwnership
  import opened RingTrack
  import opened RingSettle
  import opened RingRuns
  import opened RingOrder

  ghost function TrackStep(t: Track, r: Ring, e: Event): (next: Track)
    requires Sized(t)
    ensures Sized(next)
  {
    match e
    case Prime(epoch, generation, firstPair, pairs) => TrackPrime(t, r, epoch, generation, firstPair, pairs)
    case Reserve(epoch, generation) => TrackReserve(t, r, epoch, generation)
    case Complete(converter, epoch, generation, destination) =>
      TrackComplete(t, r, converter, epoch, generation, destination)
    case Acquire => TrackAcquire(t, r)
    case _ => t
  }

  ghost function TrackRun(events: seq<Event>): (t: Track)
    ensures Sized(t)
  {
    if events == [] then Fresh(0, 0)
    else
      hide TrackStep;
      var before := events[..|events| - 1];
      TrackStep(TrackRun(before), Run(before).ring, events[|events| - 1])
  }

  // ------------------------------------------------------------- preservation

  /** Foreground halves move no Ready buffer, and a stop empties the table. */
  lemma CpuKeepsTrack(r: Ring, after: Ring, t: Track)
    requires Tracked(r, t)
    requires after.pairsPerBuffer == r.pairsPerBuffer
    requires after.progress.scheduleExhaustions == r.progress.scheduleExhaustions
    requires forall d :: 0 <= d < RING_DEPTH && (after.records[d].state == Ready || r.records[d].state == Ready) ==>
      after.records[d] == r.records[d]
    requires
      || (!after.running && NoneScheduled(after))
      || (after.slots == r.slots && after.running == r.running && after.nextCompletion == r.nextCompletion
          && after.nextSchedule == r.nextSchedule && after.nextFirstPair == r.nextFirstPair)
    ensures Tracked(after, t)
  {
    forall i | 0 <= i < SLOT_COUNT
      ensures SlotIndexed(after, t, i)
    {
      assert SlotIndexed(r, t, i);
    }
    if after.progress.scheduleExhaustions == 0 {
      forall k | 0 <= k < |t.settled| && t.settled[k].ready && k !in t.handed
        ensures exists d :: 0 <= d < RING_DEPTH && Waiting(after, t, d, k)
      {
        var d :| 0 <= d < RING_DEPTH && Waiting(r, t, d, k);
        assert Waiting(after, t, d, k);
      }
      if after.running {
        WindowIgnoresRecords(r, after, t, t);
      }
    }
  }

  lemma {:induction false} NoneUsed(n: nat)
    ensures CountUsed(seq(n, _ => EMPTY_SLOT)) == 0
  {
    if n > 0 {
      assert seq(n, _ => EMPTY_SLOT)[..n - 1] == seq(n - 1, _ => EMPTY_SLOT);
      NoneUsed(n - 1);
    }
  }

  lemma DiscardKeepsTheRest(p: Progress, times: nat)
    ensures DiscardCache(p, times).(cacheDmaDiscards := p.cacheDmaDiscards) == p
  {
  }

  ghost function Seeded(generation: u32, firstPair: u64): Track {
    Fresh(generation, firstPair).(
      scheduled := 2,
      slotIndex := Fresh(generation, firstPair).slotIndex[0 := 0][1 := 1],
      bufferIndex := Fresh(generation, firstPair).bufferIndex[0 := 0][1 := 1])
  }

  lemma PrimeTrackIsSeeded(r: Ring, t: Track, epoch: u32, generation: u32, firstPair: u64, pairs: u32)
    requires epoch != 0 && 1 <= pairs <= PAIRS_PER_FRAME && !r.running && AllFree(r.records)
    ensures TrackPrime(t, r, epoch, generation, firstPair, pairs) == Seeded(generation, firstPair)
  {
    PrimeSeeds(r, epoch, generation, firstPair, pairs);
    var cleared := Cleared(r, epoch, generation, firstPair, pairs);
    var once := Schedule(cleared, generation).0;
    var t0 := Fresh(generation, firstPair);
    var t1 := TrackSchedule(t0, cleared, generation);
    assert FirstUnused(cleared.slots) == 0 && Find(cleared.slots, generation) == SLOT_COUNT;
    assert FreeAttempt(cleared.records, 0) == 0;
    assert t1 == t0.(scheduled := 1, slotIndex := t0.slotIndex[0 := 0], bufferIndex := t0.bufferIndex[0 := 0]);
    assert once.nextSchedule == Wrap32(generation + 1) && once.nextFreeSearch == 1;
    assert once.slots[0].valid && !once.slots[1].valid;
    assert FirstUnused(once.slots) == 1;
    assert Find(once.slots, Wrap32(generation + 1)) == SLOT_COUNT;
    assert FreeAttempt(once.records, 1) == 0;
  }

  /** The rest of a primed ring. */
  lemma PrimedRing(r: Ring, epoch: u32, generation: u32, firstPair: u64, pairs: u32)
    requires epoch != 0 && 1 <= pairs <= PAIRS_PER_FRAME && !r.running && AllFree(r.records)
    ensures var after := RingModel.Prime(r, epoch, generation, firstPair, pairs).0;
            && after.running && after.pairsPerBuffer == pairs && after.epoch == epoch
            && after.nextSchedule == Wrap32(generation + 2)
            && after.nextFirstPair == PairAt(firstPair, pairs, 2)
            && after.nextCompletion == PerConverter(generation, generation)
            && after.nextLease == r.nextLease
  {
    PrimeSeeds(r, epoch, generation, firstPair, pairs);
    var cleared := Cleared(r, epoch, generation, firstPair, pairs);
    var once := Schedule(cleared, generation).0;
    assert FirstUnused(cleared.slots) == 0 && Find(cleared.slots, generation) == SLOT_COUNT;
    assert once.nextSchedule == Wrap32(generation + 1) && once.nextFreeSearch == 1;
    assert once.slots[0].valid && !once.slots[1].valid;
    assert FirstUnused(once.slots) == 1;
    assert Find(once.slots, Wrap32(generation + 1)) == SLOT_COUNT;
    WrapAdd(generation, 1, 1);
    assert PairAt(firstPair, pairs, 0) == firstPair;
    assert PairAt(firstPair, pairs, 1) == SaturatingAdd64(firstPair, pairs);
    DiscardKeepsTheRest(Seeds(cleared, generation).0.progress, RING_DEPTH + 1);
  }

  lemma SeededTracked(r: Ring, t: Track, epoch: u32, generation: u32, firstPair: u64, pairs: u32)
    requires epoch != 0 && 1 <= pairs <= PAIRS_PER_FRAME && !r.running && AllFree(r.records)
    ensures Tracked(RingModel.Prime(r, epoch, generation, firstPair, pairs).0,
                    TrackPrime(t, r, epoch, generation, firstPair, pairs))
  {
    PrimeSeeds(r, epoch, generation, firstPair, pairs);
    PrimedRing(r, epoch, generation, firstPair, pairs);
    PrimeTrackIsSeeded(r, t, epoch, generation, firstPair, pairs);
    PrimedTables(r, epoch, generation, firstPair, pairs);
    TwoSlotsTracked(RingModel.Prime(r, epoch, generation, firstPair, pairs).0, generation, firstPair, pairs);
  }

  lemma PrimedTables(r: Ring, epoch: u32, generation: u32, firstPair: u64, pairs: u32)
    requires epoch != 0 && 1 <= pairs <= PAIRS_PER_FRAME && !r.running && AllFree(r.records)
    ensures var (after, seeded) := (RingModel.Prime(r, epoch, generation, firstPair, pairs).0,
                                    Seeds(Cleared(r, epoch, generation, firstPair, pairs), generation).0);
            && after.slots == seeded.slots && after.records == seeded.records
            && after.progress.scheduleExhaustions == 0
  {
    PrimeSeeds(r, epoch, generation, firstPair, pairs);
    var cleared := Cleared(r, epoch, generation, firstPair, pairs);
    ScheduleEffect(cleared, generation);
    ScheduleEffect(Schedule(cleared, generation).0, Wrap32(generation + 1));
    DiscardKeepsTheRest(Seeds(cleared, generation).0.progress, RING_DEPTH + 1);
  }

  lemma ScheduleKeepsLoops(r: Ring, generation: u32)
    ensures Schedule(r, generation).0.progress.majorLoops == r.progress.majorLoops
    ensures Extend(r, generation).0.progress.majorLoops == r.progress.majorLoops
  {
  }

  lemma PrimedLoops(r: Ring, epoch: u32, generation: u32, firstPair: u64, pairs: u32)
    requires epoch != 0 && 1 <= pairs <= PAIRS_PER_FRAME && !r.running && AllFree(r.records)
    ensures RingModel.Prime(r, epoch, generation, firstPair, pairs).0.progress.majorLoops == PerConverter(0, 0)
  {
    PrimeSeeds(r, epoch, generation, firstPair, pairs);
    var cleared := Cleared(r, epoch, generation, firstPair, pairs);
    ScheduleKeepsLoops(cleared, generation);
    ScheduleKeepsLoops(Schedule(cleared, generation).0, Wrap32(generation + 1));
    DiscardKeepsTheRest(Seeds(cleared, generation).0.progress, RING_DEPTH + 1);
  }

  lemma TwoSlotsUsed(first: GenerationSlot, second: GenerationSlot)
    requires first.valid && second.valid
    ensures CountUsed(NoSlots()[0 := first][1 := second]) == 2
  {
    NoneUsed(SLOT_COUNT);
    CountUpdate(NoSlots(), 0, first);
    CountUpdate(NoSlots()[0 := first], 1, second);
  }

  /** A ring with just its two seed generations. */
  lemma TwoSlotsTracked(after: Ring, generation: u32, firstPair: u64, pairs: u32)
    requires after.slots[0] == GenerationSlot(firstPair, generation, 0, NO_CONVERTER, 0, true, false)
    requires after.slots[1] == GenerationSlot(SaturatingAdd64(firstPair, pairs), Wrap32(generation + 1), 1,
                                              NO_CONVERTER, 0, true, false)
    requires forall i :: 2 <= i < SLOT_COUNT ==> after.slots[i] == EMPTY_SLOT
    requires forall d :: 0 <= d < RING_DEPTH ==> after.records[d].state != Ready
    requires after.running && after.pairsPerBuffer == pairs
    requires after.nextSchedule == Wrap32(generation + 2) && after.nextFirstPair == PairAt(firstPair, pairs, 2)
    requires after.nextCompletion == PerConverter(generation, generation)
    requires after.progress.scheduleExhaustions == 0
    ensures Tracked(after, Seeded(generation, firstPair))
  {
    var t := Seeded(generation, firstPair);
    SeededFields(generation, firstPair);
    hide Seeded, PairAt, Windowed, Indexed, Placed, Accounted;
    TwoSlotsWindowed(after, t);
    TwoSlotsIndexed(after, t);
    NothingSettledYet(after, t);
  }

  lemma SeededFields(generation: u32, firstPair: u64)
    ensures var t := Seeded(generation, firstPair);
            && Sized(t) && t.origin == generation && t.base == firstPair
            && t.done == PerConverter(0, 0) && t.scheduled == 2
            && t.slotIndex[0] == t.bufferIndex[0] == 0 && t.slotIndex[1] == t.bufferIndex[1] == 1
            && t.settled == [] && t.handed == [] && t.handles == []
  {
  }

  lemma {:induction false} UnmarkedAreOpen(slots: seq<GenerationSlot>, converter: nat)
    requires converter < CONVERTER_COUNT
    requires forall i :: 0 <= i < |slots| && slots[i].valid ==> !slots[i].mask.At(converter)
    ensures CountOpen(slots, converter) == CountUsed(slots)
  {
    if |slots| > 0 {
      UnmarkedAreOpen(slots[..|slots| - 1], converter);
    }
  }

  lemma NothingSettledYet(r: Ring, t: Track)
    requires Sized(t) && t.done == PerConverter(0, 0) && t.settled == [] && t.handed == []
    requires CountUsed(r.slots) == t.scheduled
    requires forall i :: 0 <= i < SLOT_COUNT && r.slots[i].valid ==> r.slots[i].mask == NO_CONVERTER
    requires forall d :: 0 <= d < RING_DEPTH ==> r.records[d].state != Ready
    ensures Placed(r, t) && Accounted(r, t)
  {
    hide CountOpen, CountUsed;
    UnmarkedAreOpen(r.slots, 0);
    UnmarkedAreOpen(r.slots, 1);
  }

  lemma TwoSlotsIndexed(r: Ring, t: Track)
    requires Sized(t) && t.done == PerConverter(0, 0) && t.scheduled == 2 && t.handles == []
    requires t.slotIndex[0] == t.bufferIndex[0] == 0 && t.slotIndex[1] == t.bufferIndex[1] == 1
    requires r.slots[0] == GenerationSlot(t.base, t.origin, 0, NO_CONVERTER, 0, true, false)
    requires r.slots[1] == GenerationSlot(SaturatingAdd64(t.base, r.pairsPerBuffer), Wrap32(t.origin + 1), 1,
                                          NO_CONVERTER, 0, true, false)
    requires forall i :: 2 <= i < SLOT_COUNT ==> !r.slots[i].valid
    requires forall d :: 0 <= d < RING_DEPTH ==> r.records[d].state != Ready
    requires r.nextSchedule == Wrap32(t.origin + 2) && r.nextFirstPair == PairAt(t.base, r.pairsPerBuffer, 2)
    requires r.nextCompletion == PerConverter(t.origin, t.origin)
    ensures Indexed(r, t)
  {
    assert Wrap32(t.origin + 0) == t.origin;
    assert PairAt(t.base, r.pairsPerBuffer, 0) == t.base;
    assert PairAt(t.base, r.pairsPerBuffer, 1) == SaturatingAdd64(t.base, r.pairsPerBuffer);
    forall i | 0 <= i < SLOT_COUNT
      ensures SlotIndexed(r, t, i)
    {
    }
  }

  lemma TwoSlotsWindowed(r: Ring, t: Track)
    requires Sized(t) && t.done == PerConverter(0, 0) && t.scheduled == 2 && t.slotIndex[0] == 0 && t.slotIndex[1] == 1
    requires forall i :: 0 <= i < 2 ==> r.slots[i].valid && r.slots[i].mask == NO_CONVERTER
    requires forall i :: 2 <= i < SLOT_COUNT ==> r.slots[i] == EMPTY_SLOT
    ensures Windowed(r, t) && CountUsed(r.slots) == t.scheduled
  {
    assert r.slots == NoSlots()[0 := r.slots[0]][1 := r.slots[1]];
    TwoSlotsUsed(r.slots[0], r.slots[1]);
    hide CountUsed;
    assert SlotFor(r, t, 0, 0) && SlotFor(r, t, 1, 1);
    forall n | 0 <= n < 2
      ensures Held(r, t, n)
    {
      assert n == 0 || n == 1;
    }
  }

  lemma StopTracked(r: Ring, t: Track, channels: Channels, consistent: bool)
    requires Owned(r) && Tracked(r, t)
    ensures Tracked(RingModel.Stop(r, channels, consistent).0, t)
  {
    StopOwns(r, channels, consistent);
    var after := RingModel.Stop(r, channels, consistent).0;
    if r.running {
      HaltKeepsExhaustions(Halt(r.(running := false), 0, 0, consistent), SLOT_COUNT, channels);
      forall d | 0 <= d < RING_DEPTH && (after.records[d].state == Ready || r.records[d].state == Ready)
        ensures after.records[d] == r.records[d]
      {
        assert Surrendered(r.records[d], after.records[d]);
      }
      CpuKeepsTrack(r, after, t);
    }
  }

  lemma {:induction false} HaltKeepsExhaustions(h: Halt, n: nat, channels: Channels)
    requires n <= SLOT_COUNT
    ensures HaltSlots(h, n, channels).ring.progress.scheduleExhaustions == h.ring.progress.scheduleExhaustions
  {
    if n > 0 {
      HaltKeepsExhaustions(h, n - 1, channels);
    }
  }

  lemma HalfTracked(s: System, t: Track, e: Event)
    requires Safe(s) && Tracked(s.ring, t)
    requires e.BeginRelease? || e.EndRelease? || e.BeginDiscard? || e.EndDiscard?
    ensures Tracked(Step(s, e).ring, t)
  {
    hide Tracked, Owned;
    match e {
      case EndRelease(d) =>
        if d in s.flights && s.flights[d].ByHandle? {
          EndReleaseIsSafe(s, d);
        }
      case EndDiscard(d) => DiscardIsSafe(s, d);
      case _ =>
    }
    CpuKeepsTrack(s.ring, Step(s, e).ring, t);
  }

  lemma StepTracked(s: System, t: Track, e: Event)
    requires Safe(s) && Tracked(s.ring, t)
    ensures Tracked(Step(s, e).ring, TrackStep(t, s.ring, e))
  {
    hide Tracked, Owned, TrackReserve, TrackComplete, TrackAcquire, RingModel.Complete, RecordAdcEtcError,
      RecordDmaError, RingModel.Acquire, RingModel.Stop, RingModel.Reserve;
    match e {
      case Prime(epoch, generation, firstPair, pairs) =>
        if epoch != 0 && 1 <= pairs <= PAIRS_PER_FRAME && !s.ring.running && AllFree(s.ring.records) {
          SeededTracked(s.ring, t, epoch, generation, firstPair, pairs);
        }
      case Reserve(epoch, generation) => ReserveTracked(s.ring, t, epoch, generation);
      case Complete(converter, epoch, generation, destination) =>
        CompleteTracked(s.ring, t, converter, epoch, generation, destination);
      case AdcEtcError(epoch, mask, flags) => ErrorsTracked(s.ring, t, epoch, mask, flags, 0);
      case DmaError(epoch, converter) => ErrorsTracked(s.ring, t, epoch, 0, 0, converter);
      case Acquire => AcquireTracked(s.ring, t);
      case Stop(channels, consistent) => StopTracked(s.ring, t, channels, consistent);
      case _ => HalfTracked(s, t, e);
    }
  }

  lemma {:induction false} EveryRunIsTracked(events: seq<Event>)
    ensures Tracked(Run(events).ring, TrackRun(events))
  {
    if events == [] {
    } else {
      var before := events[..|events| - 1];
      EveryRunIsTracked(before);
      EveryRunIsSafe(before);
      StepTracked(Run(before), TrackRun(before), events[|events| - 1]);
    }
  }

  // ------------------------------------------------------------ handles and losses

  /** The handles given out since the ring was last primed, oldest first. */
  ghost function Handles(events: seq<Event>): seq<BufferHandle> {
    TrackRun(events).handles
  }

  /** The generations numbered from `a` up to `b` that settled as lost. */
  ghost function LostAmong(settled: seq<Outcome>, a: nat, b: nat): nat
    requires a <= b <= |settled|
    decreases b - a
  {
    if a == b then 0 else LostAmong(settled, a, b - 1) + (if settled[b - 1].ready then 0 else 1)
  }

  lemma {:induction false} AllLost(settled: seq<Outcome>, a: nat, b: nat)
    requires a <= b <= |settled|
    requires forall k :: a <= k < b ==> !settled[k].ready
    ensures LostAmong(settled, a, b) == b - a
    decreases b - a
  {
    if a < b {
      AllLost(settled, a, b - 1);
    }
  }

  // --------------------------------------------------------------- the window

  predicate Numbers(t: Track, n: nat, generation: u32) {
    generation == Wrap32(t.origin + n)
  }

  lemma WindowExplained(r: Ring, t: Track, generation: u32)
    requires Tracked(r, t) && r.running && r.progress.scheduleExhaustions == 0
    ensures t.scheduled - Low(t) <= SLOT_COUNT
    ensures Find(r.slots, generation) < SLOT_COUNT <==>
              exists n :: Low(t) <= n < t.scheduled && Numbers(t, n, generation)
  {
    var i := Find(r.slots, generation);
    if i < SLOT_COUNT {
      assert SlotIndexed(r, t, i) && InWindow(r, t, i);
      assert Numbers(t, t.slotIndex[i], generation);
    }
    forall n | Low(t) <= n < t.scheduled && Numbers(t, n, generation)
      ensures i < SLOT_COUNT
    {
      FindInWindow(r, t, n);
    }
  }

  /** In every running state without slot exhaustion, the slots in use hold exactly the generations from the
      slower converter's next completion up to the last one scheduled, at least two past either converter. */
  lemma WindowIsExact(events: seq<Event>, generation: u32)
    requires Run(events).ring.running && Run(events).ring.progress.scheduleExhaustions == 0
    ensures var r := Run(events).ring;
            var t := TrackRun(events);
            && Numbers(t, t.done.adc0, r.nextCompletion.adc0)
            && Numbers(t, t.done.adc1, r.nextCompletion.adc1)
            && t.done.adc0 + 2 <= t.scheduled && t.done.adc1 + 2 <= t.scheduled
            && t.scheduled - Low(t) <= SLOT_COUNT
            && (Find(r.slots, generation) < SLOT_COUNT <==>
                  exists n :: Low(t) <= n < t.scheduled && Numbers(t, n, generation))
  {
    hide Run, TrackRun;
    EveryRunIsTracked(events);
    WindowExplained(Run(events).ring, TrackRun(events), generation);
  }

  /** A completion in turn, however the generations wrap, is always accepted; it exhausts the schedule exactly when
      its converter has used up the look-ahead and the window already fills the table. */
  lemma InTurnIsAccepted(events: seq<Event>, converter: nat, destination: u8)
    requires converter < CONVERTER_COUNT
    requires Run(events).ring.running && Run(events).ring.progress.scheduleExhaustions == 0
    ensures var r := Run(events).ring;
            var t := TrackRun(events);
            var generation := r.nextCompletion.At(converter);
            var after := RingModel.Complete(r, converter, r.epoch, generation, destination);
            && Judge(r, converter, r.epoch, generation).Accepted?
            && (after.progress.scheduleExhaustions == 0 <==>
                  !(t.done.At(converter) + 2 == t.scheduled && t.scheduled - Low(t) == SLOT_COUNT))
            && after.progress.invariantErrors == r.progress.invariantErrors
  {
    hide Run, TrackRun, RingModel.Complete, Judge;
    EveryRunIsTracked(events);
    EveryRunIsSafe(events);
    InTurnTracked(Run(events).ring, TrackRun(events), converter, destination);
  }

  /** The window reaches past both converters, and no slot is marked by a converter not yet past it. */
  lemma InWindowUnmarked(r: Ring, t: Track, converter: nat)
    requires converter < CONVERTER_COUNT && Sized(t) && Windowed(r, t)
    ensures Low(t) <= t.done.At(converter) && t.done.At(converter) + 2 <= t.scheduled
    ensures forall i :: 0 <= i < SLOT_COUNT && SlotFor(r, t, i, t.done.At(converter)) ==> !r.slots[i].mask.At(converter)
  {
    forall i | 0 <= i < SLOT_COUNT && SlotFor(r, t, i, t.done.At(converter))
      ensures !r.slots[i].mask.At(converter)
    {
      assert InWindow(r, t, i);
    }
  }

  lemma InTurnTracked(r: Ring, t: Track, converter: nat, destination: u8)
    requires converter < CONVERTER_COUNT
    requires Owned(r) && Tracked(r, t) && r.running && r.progress.scheduleExhaustions == 0
    ensures var generation := r.nextCompletion.At(converter);
            var after := RingModel.Complete(r, converter, r.epoch, generation, destination);
            && Judge(r, converter, r.epoch, generation).Accepted?
            && (after.progress.scheduleExhaustions == 0 <==>
                  !(t.done.At(converter) + 2 == t.scheduled && t.scheduled - Low(t) == SLOT_COUNT))
            && after.progress.invariantErrors == r.progress.invariantErrors
  {
    hide Schedule, Windowed, Placed, Accounted, Matched, TrackSchedule, Accept;
    var generation: u32 := r.nextCompletion.At(converter);
    InWindowUnmarked(r, t, converter);
    FindInWindow(r, t, t.done.At(converter));
    var i := Find(r.slots, generation);
    AcceptExhaustions(r, converter, i, generation, destination);
    WrapAdd(t.origin, t.done.At(converter), 2);
    ScheduleInWindow(r, t, t.done.At(converter) + 2);
    ScheduleEffect(r, Wrap32(generation + 2));
    AcceptKeepsErrors(r, t, converter, i, generation, destination);
  }

  lemma AcceptKeepsErrors(r: Ring, t: Track, converter: nat, i: nat, generation: u32, destination: u8)
    requires converter < CONVERTER_COUNT && i < SLOT_COUNT && r.slots[i].valid && Matched(r)
    requires Schedule(r, Wrap32(generation + 2)).0.progress == r.progress
    ensures Accept(r, converter, i, generation, destination).progress.invariantErrors == r.progress.invariantErrors
  {
    var c := CheckSkew(Enter(r, converter, i, destination));
    ReviewedIsEntered(r, converter, i, destination);
    ScheduleErrors(r, c, converter, i, Wrap32(generation + 2));
    AdvanceOwns(r, converter, i, generation, destination);
    var a := Advance(r, converter, i, generation, destination).0;
    AdvanceIsEntered(r, converter, i, generation, destination);
    ScheduleKeepsSlot(r, Fresh(0, 0), Wrap32(generation + 2), i);
    if AllConverters(a.slots[i].mask) {
      FinalizeOwns(a, i);
    }
  }

  /** Scheduling notes an error on the marked ring exactly when it does on the ring before the marks. */
  lemma ScheduleErrors(r: Ring, c: Ring, converter: nat, i: nat, generation: u32)
    requires converter < CONVERTER_COUNT && i < SLOT_COUNT && r.slots[i].valid
    requires Entered(r, c, converter, i) && c.nextFreeSearch == r.nextFreeSearch
    requires Schedule(r, generation).0.progress == r.progress
    requires c.progress.invariantErrors == r.progress.invariantErrors
    ensures Schedule(c, generation).0.progress.invariantErrors == c.progress.invariantErrors
  {
    SearchByKeys(r.slots, c.slots, generation);
  }
}
