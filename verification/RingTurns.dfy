/** When a completion publishes its buffer, and exactly when that puts the handles out of order. */
module RingTurns {
  import opened FixedWidth
  import opened RingModel
  import opened RingOwnership
  import opened RingTrack
  import opened RingSettle
  import opened RingRuns
  import opened RingOrder
  import opened RingHistory

  // ------------------------------------------------------ publishing a buffer

  /** One more major loop takes the converters more than one apart. */
  predicate Drifts(r: Ring, converter: nat)
    requires converter < CONVERTER_COUNT
  {
    Distance(SaturatingIncrement64(r.progress.majorLoops.At(converter)), r.progress.majorLoops.At(1 - converter)) > 1
  }

  /** The generation has a slot, or is the next in turn and an unused slot is left for it. */
  predicate Schedulable(r: Ring, generation: u32) {
    Find(r.slots, generation) < SLOT_COUNT || MakesSlot(r, generation)
  }

  /** What must hold before an accepted completion of slot `i` for it to publish the buffer. */
  predicate Publishes(r: Ring, converter: nat, i: nat, destination: u8)
    requires converter < CONVERTER_COUNT && i < SLOT_COUNT
  {
    var slot := r.slots[i];
    && slot.mask.At(1 - converter)
    && IsBufferDestination(slot.destination)
    && destination == slot.destination
    && !slot.invalidData
    && !Drifts(r, converter)
    && Schedulable(r, Wrap32(slot.generation + 2))
  }

  lemma ScheduleSucceeds(r: Ring, generation: u32)
    ensures Schedule(r, generation).1 < SLOT_COUNT <==> Schedulable(r, generation)
  {
    ScheduleEffect(r, generation);
  }

  lemma ScheduleSpares(c: Ring, generation: u32, j: nat)
    requires j < SLOT_COUNT && c.slots[j].valid
    ensures Extend(c, generation).0.slots[j].invalidData <==>
              c.slots[j].invalidData || Schedule(c, generation).1 == SLOT_COUNT
  {
  }

  /** What taints a slot in use while a converter finishes slot `i`. */
  lemma AdvanceTaints(r: Ring, converter: nat, i: nat, generation: u32, destination: u8, j: nat)
    requires converter < CONVERTER_COUNT && i < SLOT_COUNT && r.slots[i].valid && j < SLOT_COUNT && r.slots[j].valid
    ensures Advance(r, converter, i, generation, destination).0.slots[j].invalidData <==>
              || r.slots[j].invalidData
              || (j == i && !DestinationAgrees(r.slots[i], destination))
              || Drifts(r, converter)
              || !Schedulable(r, Wrap32(generation + 2))
  {
    var e := Enter(r, converter, i, destination);
    var c := CheckSkew(e);
    assert Skewed(e) <==> Drifts(r, converter);
    assert c.slots[j].invalidData <==> e.slots[j].invalidData || Skewed(e);
    ScheduleSpares(c, Wrap32(generation + 2), j);
    ReviewedIsEntered(r, converter, i, destination);
    ScheduleIgnoresMarks(r, c, converter, i, Wrap32(generation + 2));
    ScheduleSucceeds(r, Wrap32(generation + 2));
  }

  lemma FinishedPublishes(r: Ring, converter: nat, i: nat, generation: u32, destination: u8)
    requires converter < CONVERTER_COUNT && i < SLOT_COUNT && Holds(r.slots[i], generation) && Matched(r)
    ensures var a := Advance(r, converter, i, generation, destination).0;
            AllConverters(a.slots[i].mask) && Finalize(a, i).1.ready <==> Publishes(r, converter, i, destination)
  {
    hide Advance, Schedule, Schedulable, Drifts, Matched, Finalize, Wrap32;
    var b := Schedule(r, Wrap32(generation + 2)).0;
    var a := Advance(r, converter, i, generation, destination).0;
    AdvanceTaints(r, converter, i, generation, destination, i);
    AdvanceIsEntered(r, converter, i, generation, destination);
    ScheduleKeepsSlot(r, Fresh(0, 0), Wrap32(generation + 2), i);
    AdvanceOwns(r, converter, i, generation, destination);
    assert a.slots[i].(invalidData := b.slots[i].invalidData)
        == b.slots[i].(mask := b.slots[i].mask.With(converter, true));
    FinalizeOwns(a, i);
  }

  /** In every run, a completion, whatever its arguments, publishes a buffer exactly when it is accepted, the other
      converter has finished the slot, and nothing has tainted it or does so now. */
  lemma PublishesExactly(events: seq<Event>, converter: u8, epoch: u32, generation: u32, destination: u8)
    ensures var r := Run(events).ring;
            var verdict := Judge(r, converter, epoch, generation);
            CompleteResult(r, converter, epoch, generation, destination).pairReady
            <==> verdict.Accepted? && Publishes(r, converter, verdict.slot, destination)
  {
    EveryRunIsSafe(events);
    var r := Run(events).ring;
    hide Run;
    var verdict := Judge(r, converter, epoch, generation);
    if verdict.Accepted? {
      FinishedPublishes(r, converter, verdict.slot, generation, destination);
    }
  }

  // --------------------------------------------------- publishing behind a handle

  /** The slot's pairs come no later than those of the last handle given out. */
  predicate Behind(r: Ring, handles: seq<BufferHandle>, i: nat)
    requires i < SLOT_COUNT
  {
    |handles| > 0 && r.slots[i].firstPair <= handles[|handles| - 1].firstPair
  }

  /** The step is a completion that publishes a buffer behind the last handle. */
  predicate Overtakes(r: Ring, handles: seq<BufferHandle>, e: Event) {
    && e.Complete?
    && var verdict := Judge(r, e.converter, e.epoch, e.generation);
       && verdict.Accepted?
       && Publishes(r, e.converter, verdict.slot, e.destination)
       && Behind(r, handles, verdict.slot)
  }

  /** Some completion since the last prime has published a buffer behind the last handle. */
  ghost predicate Overtaken(events: seq<Event>) {
    events != []
    && var (before, e) := (events[..|events| - 1], events[|events| - 1]);
       && !Primes(Run(before).ring, e)
       && (Overtaken(before) || Overtakes(Run(before).ring, Handles(before), e))
  }

  predicate Primes(r: Ring, e: Event) {
    e.Prime? && e.epoch != 0 && 1 <= e.pairs <= PAIRS_PER_FRAME && !r.running && AllFree(r.records)
  }

  lemma LastHandle(r: Ring, t: Track)
    requires Indexed(r, t) && |t.handles| > 0
    ensures |t.handed| == |t.handles|
    ensures t.handles[|t.handles| - 1].firstPair == PairAt(t.base, r.pairsPerBuffer, t.handed[|t.handed| - 1]) < MAX_64
  {
  }

  /** A slot is behind the last handle exactly when its number is no higher. */
  lemma BehindInNumbers(r: Ring, t: Track, i: nat)
    requires i < SLOT_COUNT && r.slots[i].valid && Indexed(r, t)
    ensures Behind(r, t.handles, i) <==> |t.handed| > 0 && t.slotIndex[i] <= t.handed[|t.handed| - 1]
  {
    assert SlotIndexed(r, t, i);
    if |t.handles| > 0 {
      LastHandle(r, t);
      var (n, last) := (t.slotIndex[i], t.handed[|t.handed| - 1]);
      PairOrder(t.base, r.pairsPerBuffer, n, last);
      if PairAt(t.base, r.pairsPerBuffer, n) < MAX_64 {
        PairOrder(t.base, r.pairsPerBuffer, last, n);
      }
    }
  }

  lemma OvertakingSlot(r: Ring, t: Track, converter: nat, i: nat)
    requires converter < CONVERTER_COUNT && i < SLOT_COUNT && r.running && Tracked(r, t)
    requires Holds(r.slots[i], r.nextCompletion.At(converter))
    requires r.slots[i].mask.At(1 - converter) && Behind(r, t.handles, i)
    ensures t.slotIndex[i] + TWO_32 <= t.done.At(converter)
    ensures r.progress.scheduleExhaustions > 0
  {
    FoundIsPast(r, t, converter, i);
    BehindInNumbers(r, t, i);
    assert t.handed[|t.handed| - 1] < Low(t);
    if r.progress.scheduleExhaustions == 0 {
      AcceptedIsCurrent(r, t, converter, i);
    }
  }

  /** In every run, an accepted completion finishes its converter's generation in turn, or, after an exhaustion, one
      the converter passed at least 2^32 generations ago. */
  lemma AcceptedInTurnOrLongPassed(events: seq<Event>, converter: u8, epoch: u32, generation: u32)
    requires Judge(Run(events).ring, converter, epoch, generation).Accepted?
    ensures var (r, t) := (Run(events).ring, TrackRun(events));
            var n := t.slotIndex[Judge(r, converter, epoch, generation).slot];
            || n == t.done.At(converter)
            || (n + TWO_32 <= t.done.At(converter) && r.progress.scheduleExhaustions > 0)
  {
    hide Run, TrackRun;
    EveryRunIsTracked(events);
    var (r, t) := (Run(events).ring, TrackRun(events));
    var i := Judge(r, converter, epoch, generation).slot;
    FoundIsPast(r, t, converter, i);
    if r.progress.scheduleExhaustions == 0 {
      AcceptedIsCurrent(r, t, converter, i);
    }
  }

  /** In every run, only a generation its converter passed at least 2^32 generations ago can be published behind a
      handle, and only after a slot exhaustion. */
  lemma OvertakingIsOutOfTurn(events: seq<Event>, e: Event)
    requires Overtakes(Run(events).ring, Handles(events), e)
    ensures var (r, t) := (Run(events).ring, TrackRun(events));
            && t.slotIndex[Judge(r, e.converter, e.epoch, e.generation).slot] + TWO_32 <= t.done.At(e.converter)
            && r.progress.scheduleExhaustions > 0
  {
    hide Run, TrackRun;
    EveryRunIsTracked(events);
    var r := Run(events).ring;
    OvertakingSlot(r, TrackRun(events), e.converter, Judge(r, e.converter, e.epoch, e.generation).slot);
  }

  // ------------------------------------------------------------- keeping the order

  /** The handles were given out in the order of their numbers, and whatever waits comes after the last. */
  ghost predicate InOrder(r: Ring, t: Track)
    requires Sized(t)
  {
    && Increasing(t.handed)
    && (|t.handed| > 0 ==>
          forall d :: 0 <= d < RING_DEPTH && r.records[d].state == Ready ==>
            t.handed[|t.handed| - 1] < t.bufferIndex[d])
  }

  /** Buffer `d` waits to be read as it did before. */
  predicate WaitsAsBefore(r: Ring, t: Track, t': Track, d: nat)
    requires d < RING_DEPTH && |t.bufferIndex| == |t'.bufferIndex| == RING_DEPTH
  {
    r.records[d].state == Ready && t'.bufferIndex[d] == t.bufferIndex[d]
  }

  lemma ScheduleKeepsReady(r: Ring, t: Track, generation: u32)
    requires Matched(r) && Sized(t)
    ensures var (after, t') := (Schedule(r, generation).0, TrackSchedule(t, r, generation));
            && Sized(t') && t'.handed == t.handed
            && (forall d :: 0 <= d < RING_DEPTH && after.records[d].state == Ready ==> WaitsAsBefore(r, t, t', d))
            && (forall d :: 0 <= d < RING_DEPTH && r.records[d].state == DmaOwned ==>
                  after.records[d] == r.records[d] && t'.bufferIndex[d] == t.bufferIndex[d])
  {
    TakeFreeOwns(r, generation, r.nextFirstPair);
    ScheduleEffect(r, generation);
    hide Schedule, TakeFreeBuffer, Matched;
  }

  lemma AcceptReady(r: Ring, t: Track, converter: nat, i: nat, generation: u32, destination: u8)
    requires converter < CONVERTER_COUNT && i < SLOT_COUNT && Holds(r.slots[i], generation)
    requires Owned(r) && Indexed(r, t)
    ensures var after := Accept(r, converter, i, generation, destination);
            var t' := TrackAccept(t, r, converter, i, generation, destination);
            && Sized(t') && t'.handed == t.handed
            && (forall d :: 0 <= d < RING_DEPTH && after.records[d].state == Ready ==>
                  || WaitsAsBefore(r, t, t', d)
                  || (Publishes(r, converter, i, destination) && t'.bufferIndex[d] == t.slotIndex[i]))
            && (Publishes(r, converter, i, destination) ==>
                  after.records[r.slots[i].destination] == r.records[r.slots[i].destination].(state := Ready))
  {
    var a := Advance(r, converter, i, generation, destination).0;
    var b := Schedule(r, Wrap32(generation + 2)).0;
    AcceptParts(r, t, converter, i, generation, destination);
    ScheduleKeepsReady(r, t, Wrap32(generation + 2));
    FinishedPublishes(r, converter, i, generation, destination);
    assert SlotOwns(r, i) && SlotIndexed(r, t, i);
    assert SlotOwns(b, i) && SlotOwns(a, i);
    assert a.slots[i].(invalidData := b.slots[i].invalidData)
        == b.slots[i].(mask := b.slots[i].mask.With(converter, true));
    FinalizeEffect(a, i);
    hide Advance, Accept, TrackAccept, Schedule, TrackSchedule, Finalize, Matched, Publishes;
  }

  lemma CompleteInOrder(r: Ring, t: Track, e: Event)
    requires e.Complete? && Owned(r) && Tracked(r, t) && InOrder(r, t) && !Overtakes(r, t.handles, e)
    ensures InOrder(RingModel.Complete(r, e.converter, e.epoch, e.generation, e.destination),
                    TrackComplete(t, r, e.converter, e.epoch, e.generation, e.destination))
  {
    var verdict := Judge(r, e.converter, e.epoch, e.generation);
    if verdict.Accepted? {
      AcceptReady(r, t, e.converter, verdict.slot, e.generation, e.destination);
      BehindInNumbers(r, t, verdict.slot);
      hide Accept, TrackAccept, Increasing, Publishes;
    } else {
      RejectedKeepsTables(r, e.converter, e.epoch, e.generation, e.destination);
    }
  }

  /** The oldest Ready buffer by pair number is the oldest by generation. */
  lemma OldestIsFirst(r: Ring, t: Track, d: nat, e: nat)
    requires Indexed(r, t) && Placed(r, t)
    requires d == OldestReady(r.records, RING_DEPTH) < RING_DEPTH
    requires e < RING_DEPTH && e != d && r.records[e].state == Ready
    ensures t.bufferIndex[d] < t.bufferIndex[e]
  {
    if t.bufferIndex[e] < t.bufferIndex[d] {
      PairOrder(t.base, r.pairsPerBuffer, t.bufferIndex[e], t.bufferIndex[d]);
    }
  }

  lemma AcquireInOrder(r: Ring, t: Track)
    requires Tracked(r, t) && InOrder(r, t)
    ensures InOrder(RingModel.Acquire(r).0, TrackAcquire(t, r))
  {
    var d := OldestReady(r.records, RING_DEPTH);
    if d < RING_DEPTH {
      forall e | 0 <= e < RING_DEPTH && e != d && r.records[e].state == Ready
        ensures t.bufferIndex[d] < t.bufferIndex[e]
      {
        OldestIsFirst(r, t, d, e);
      }
      hide OldestReady, Indexed, Placed, Windowed, Accounted;
    }
  }

  lemma StillReady(s: System, e: Event)
    requires Safe(s) && !e.Prime? && !e.Reserve? && !e.Complete? && !e.Acquire?
    ensures forall d :: 0 <= d < RING_DEPTH && Step(s, e).ring.records[d].state == Ready ==>
      s.ring.records[d].state == Ready
  {
    match e {
      case AdcEtcError(epoch, mask, flags) => ErrorsOwn(s.ring, epoch, mask, flags, 0);
      case DmaError(epoch, converter) => ErrorsOwn(s.ring, epoch, 0, 0, converter);
      case Stop(channels, consistent) =>
        StopOwns(s.ring, channels, consistent);
        if s.ring.running {
          forall d | 0 <= d < RING_DEPTH
            ensures Surrendered(s.ring.records[d], Step(s, e).ring.records[d])
          {
          }
        }
      case EndRelease(d) =>
        if d in s.flights && s.flights[d].ByHandle? {
          EndReleaseIsSafe(s, d);
        }
      case EndDiscard(d) => DiscardIsSafe(s, d);
      case _ =>
    }
  }

  lemma StepInOrder(s: System, t: Track, e: Event)
    requires Safe(s) && Tracked(s.ring, t)
    requires Primes(s.ring, e) || (InOrder(s.ring, t) && !Overtakes(s.ring, t.handles, e))
    ensures InOrder(Step(s, e).ring, TrackStep(t, s.ring, e))
  {
    hide Tracked, Owned, TrackReserve, TrackComplete, TrackAcquire, RingModel.Complete, RingModel.Acquire,
      RingModel.Stop, RecordAdcEtcError, RecordDmaError;
    match e {
      case Prime(epoch, generation, firstPair, pairs) =>
        if Primes(s.ring, e) {
          PrimeTrackIsSeeded(s.ring, t, epoch, generation, firstPair, pairs);
        }
      case Reserve(epoch, generation) => ReserveInOrder(s.ring, t, epoch, generation);
      case Complete(_, _, _, _) => CompleteInOrder(s.ring, t, e);
      case Acquire => AcquireInOrder(s.ring, t);
      case _ => StillReady(s, e);
    }
  }

  lemma ReserveInOrder(r: Ring, t: Track, epoch: u32, generation: u32)
    requires Owned(r) && Tracked(r, t) && InOrder(r, t)
    ensures InOrder(RingModel.Reserve(r, epoch, generation).0, TrackReserve(t, r, epoch, generation))
  {
    ScheduleKeepsReady(r, t, generation);
    hide Schedule, TrackSchedule, Matched;
  }

  lemma {:induction false} EveryRunInOrder(events: seq<Event>)
    requires !Overtaken(events)
    ensures InOrder(Run(events).ring, TrackRun(events))
  {
    if events == [] {
    } else {
      var (before, e) := (events[..|events| - 1], events[|events| - 1]);
      EveryRunIsSafe(before);
      EveryRunIsTracked(before);
      if !Primes(Run(before).ring, e) {
        EveryRunInOrder(before);
      }
      StepInOrder(Run(before), TrackRun(before), e);
    }
  }

  // ------------------------------------------------------- order of the handles

  /** The handles cover disjoint intervals of strictly rising pair numbers. */
  predicate Ascending(handles: seq<BufferHandle>) {
    forall j, k :: 0 <= j < k < |handles| ==> handles[j].firstPair + handles[j].pairCount <= handles[k].firstPair
  }

  /** In every run, the handles given out within one epoch ascend, unless a completion of that epoch has published a
      buffer behind the last handle. */
  lemma HandlesAscend(events: seq<Event>)
    requires !Overtaken(events)
    ensures Ascending(Handles(events))
  {
    EveryRunIsTracked(events);
    EveryRunInOrder(events);
    var (r, t) := (Run(events).ring, TrackRun(events));
    hide Run, TrackRun, Overtaken;
    forall j, k | 0 <= j < k < |t.handles|
      ensures t.handles[j].firstPair + t.handles[j].pairCount <= t.handles[k].firstPair
    {
      PairOrder(t.base, r.pairsPerBuffer, t.handed[j], t.handed[k]);
    }
  }

  lemma PublishedIsPicked(r: Ring, t: Track, e: Event)
    requires Owned(r) && Tracked(r, t) && Overtakes(r, t.handles, e)
    ensures var after := RingModel.Complete(r, e.converter, e.epoch, e.generation, e.destination);
            && TrackComplete(t, r, e.converter, e.epoch, e.generation, e.destination).handles == t.handles
            && OldestReady(after.records, RING_DEPTH) < RING_DEPTH
            && RingModel.Acquire(after).1.handle.firstPair <= t.handles[|t.handles| - 1].firstPair
  {
    var i := Judge(r, e.converter, e.epoch, e.generation).slot;
    AcceptReady(r, t, e.converter, i, e.generation, e.destination);
    LastHandle(r, t);
    assert SlotOwns(r, i);
    AcceptHandsNothing(r, t, e.converter, i, e.generation, e.destination);
    hide Accept, TrackAccept, Matched, Schedulable, Drifts;
  }

  lemma AcceptHandsNothing(r: Ring, t: Track, converter: nat, i: nat, generation: u32, destination: u8)
    requires converter < CONVERTER_COUNT && i < SLOT_COUNT && Sized(t)
    ensures TrackAccept(t, r, converter, i, generation, destination).handles == t.handles
  {
  }

  /** One more step of a run and of its history. */
  lemma TrackSnoc(events: seq<Event>, e: Event)
    ensures Run(events + [e]) == Step(Run(events), e)
    ensures TrackRun(events + [e]) == TrackStep(TrackRun(events), Run(events).ring, e)
  {
    hide Step, TrackStep;
    assert (events + [e])[..|events|] == events;
  }

  /** A buffer published behind the last handle is handed out next, or another one behind it: the order is broken. */
  lemma OvertakingBreaksOrder(events: seq<Event>, e: Event)
    requires Overtakes(Run(events).ring, Handles(events), e)
    ensures !Ascending(Handles(events + [e] + [Acquire]))
  {
    EveryRunIsSafe(events);
    EveryRunIsTracked(events);
    TrackSnoc(events, e);
    TrackSnoc(events + [e], Acquire);
    hide Run, TrackRun;
    HandedBehind(Run(events), TrackRun(events), e);
  }

  lemma HandedBehind(s: System, t: Track, e: Event)
    requires Owned(s.ring) && Tracked(s.ring, t) && Overtakes(s.ring, t.handles, e)
    ensures var (s', t') := (Step(s, e), TrackStep(t, s.ring, e));
            !Ascending(TrackStep(t', s'.ring, Acquire).handles)
  {
    PublishedIsPicked(s.ring, t, e);
    LastHandle(s.ring, t);
    assert t.handles[|t.handles| - 1].pairCount == s.ring.pairsPerBuffer >= 1;
    var (s', t') := (Step(s, e), TrackStep(t, s.ring, e));
    var h := TrackStep(t', s'.ring, Acquire).handles;
    hide Step, TrackComplete, Overtakes, Owned, Tracked, RingModel.Acquire, RingModel.Complete, OldestReady;
    assert h[|t.handles| - 1] == t.handles[|t.handles| - 1] && h[|t.handles|].firstPair <= h[|t.handles| - 1].firstPair;
  }

  /** The `n`-th step of the run publishes a buffer behind the last handle. */
  ghost predicate OvertakesAt(events: seq<Event>, n: nat)
    requires n < |events|
  {
    Overtakes(Run(events[..n]).ring, Handles(events[..n]), events[n])
  }

  /** Taking a buffer after the first `n` steps leaves the handles in order. */
  ghost predicate AscendsAt(events: seq<Event>, n: nat)
    requires n <= |events|
  {
    Ascending(Handles(events[..n] + [Acquire]))
  }

  /** The order of the handles holds throughout a run, whenever the next one is taken, exactly when no completion of
      the run publishes a buffer behind the last handle. */
  lemma OrderIsExact(events: seq<Event>)
    ensures (forall n :: 0 <= n <= |events| ==> AscendsAt(events, n))
            <==> (forall n :: 0 <= n < |events| ==> !OvertakesAt(events, n))
  {
    hide Run, TrackRun, Ascending, Overtakes, Handles;
    if n :| 0 <= n < |events| && OvertakesAt(events, n) {
      OvertakingBreaksOrder(events[..n], events[n]);
      assert events[..n] + [events[n]] == events[..n + 1];
      assert !AscendsAt(events, n + 1);
    } else {
      forall n | 0 <= n <= |events|
        ensures AscendsAt(events, n)
      {
        NoneOvertaken(events, n);
        HandlesAscend(events[..n] + [Acquire]);
      }
    }
  }

  lemma {:induction false} NoneOvertaken(events: seq<Event>, n: nat)
    requires n <= |events|
    requires forall m :: 0 <= m < n ==> !OvertakesAt(events, m)
    ensures !Overtaken(events[..n]) && !Overtaken(events[..n] + [Acquire])
  {
    hide Run, TrackRun;
    assert (events[..n] + [Acquire])[..n] == events[..n];
    if n > 0 {
      NoneOvertaken(events, n - 1);
      assert !OvertakesAt(events, n - 1);
      assert events[..n][..n - 1] == events[..n - 1];
    }
  }

  // ------------------------------------------------------ how soon it can happen

  lemma ExhaustionsStay(s: System, e: Event)
    requires Safe(s) && !Primes(s.ring, e) && s.ring.progress.scheduleExhaustions > 0
    ensures Step(s, e).ring.progress.scheduleExhaustions > 0
  {
    match e {
      case Reserve(_, generation) => ScheduleEffect(s.ring, generation);
      case Complete(converter, epoch, generation, destination) =>
        var verdict := Judge(s.ring, converter, epoch, generation);
        if verdict.Accepted? {
          AcceptExhaustions(s.ring, converter, verdict.slot, generation, destination);
        }
      case Stop(channels, consistent) =>
        HaltKeepsExhaustions(Halt(s.ring.(running := false), 0, 0, consistent), SLOT_COUNT, channels);
      case AdcEtcError(epoch, mask, flags) => EtcExhaustionsStay(s.ring, epoch, mask, flags);
      case _ =>
    }
  }

  lemma ChargeExhaustionsStay(r: Ring, mask: u8, converter: nat)
    requires converter < CONVERTER_COUNT && r.progress.scheduleExhaustions > 0
    ensures ChargeOverwrite(r, mask, converter).progress.scheduleExhaustions > 0
  {
  }

  lemma EtcExhaustionsStay(r: Ring, epoch: u32, mask: u8, flags: bv32)
    requires r.progress.scheduleExhaustions > 0
    ensures RecordAdcEtcError(r, epoch, mask, flags).progress.scheduleExhaustions > 0
  {
    var noted := NoteEtcEvent(r, mask, flags);
    assert noted.progress.scheduleExhaustions > 0;
    hide ChargeOverwrite, NoteEtcEvent;
    ChargeExhaustionsStay(noted, mask, 0);
    ChargeExhaustionsStay(ChargeOverwrite(noted, mask, 0), mask, 1);
  }

  lemma DoneOnlyGrows(t: Track, r: Ring, e: Event)
    requires Sized(t) && !Primes(r, e)
    ensures TrackStep(t, r, e).done.adc0 >= t.done.adc0 && TrackStep(t, r, e).done.adc1 >= t.done.adc1
  {
    hide Advance, Finalize, Schedule, TakeFreeBuffer, OldestReady, MakesSlot, RingModel.Acquire;
  }

  /** No overtaking within the first 2^32 generations of an epoch, nor ever without a slot exhaustion. */
  lemma {:induction false} OvertakingTakesLong(events: seq<Event>)
    requires Overtaken(events)
    ensures Run(events).ring.progress.scheduleExhaustions > 0
    ensures TrackRun(events).done.adc0 >= TWO_32 || TrackRun(events).done.adc1 >= TWO_32
  {
    var (before, e) := (events[..|events| - 1], events[|events| - 1]);
    if Overtaken(before) {
      OvertakingTakesLong(before);
    } else {
      OvertakingIsOutOfTurn(before, e);
    }
    EveryRunIsSafe(before);
    hide Step, TrackStep, Overtakes;
    ExhaustionsStay(Run(before), e);
    DoneOnlyGrows(TrackRun(before), Run(before).ring, e);
  }

  // --------------------------------------------------------------------- holes

  lemma NotHandedBetween(handed: seq<nat>, j: nat, k: nat)
    requires Increasing(handed) && j + 1 < |handed| && handed[j] < k < handed[j + 1]
    ensures k !in handed
  {
    forall l | 0 <= l < |handed|
      ensures handed[l] != k
    {
      assert l <= j || j + 1 <= l;
    }
  }

  lemma HoleExplained(r: Ring, t: Track, j: nat)
    requires Tracked(r, t) && InOrder(r, t) && r.progress.scheduleExhaustions == 0 && j + 1 < |t.handed|
    ensures t.handed[j] < t.handed[j + 1] < |t.settled|
    ensures forall k :: t.handed[j] < k < t.handed[j + 1] ==> !t.settled[k].ready
    ensures t.handles[j + 1].firstPair - (t.handles[j].firstPair + r.pairsPerBuffer)
         == Times(r.pairsPerBuffer, t.handed[j + 1] - t.handed[j] - 1)
  {
    var a, b := t.handed[j], t.handed[j + 1];
    assert b in t.handed;
    forall k | a < k < b
      ensures !t.settled[k].ready
    {
      NotHandedBetween(t.handed, j, k);
      forall d | 0 <= d < RING_DEPTH
        ensures !Waiting(r, t, d, k)
      {
        assert j + 1 <= |t.handed| - 1 && t.handed[j + 1] <= t.handed[|t.handed| - 1];
      }
    }
    PairDistance(t.base, r.pairsPerBuffer, a, b);
  }

  /** Without slot exhaustion, the hole between two consecutive handles is exactly the pairs of the generations
      between them that settled as lost, and every one of those did. */
  lemma HoleIsLoss(events: seq<Event>, j: nat)
    requires Run(events).ring.progress.scheduleExhaustions == 0
    requires j + 1 < |Handles(events)|
    ensures var t := TrackRun(events);
            var pairs := Run(events).ring.pairsPerBuffer;
            && t.handed[j] < t.handed[j + 1] < |t.settled|
            && LostAmong(t.settled, t.handed[j] + 1, t.handed[j + 1]) == t.handed[j + 1] - t.handed[j] - 1
            && Handles(events)[j + 1].firstPair - (Handles(events)[j].firstPair + pairs)
               == Times(pairs, LostAmong(t.settled, t.handed[j] + 1, t.handed[j + 1]))
  {
    hide Run, TrackRun, Tracked;
    EveryRunIsTracked(events);
    if Overtaken(events) {
      OvertakingTakesLong(events);
    }
    EveryRunInOrder(events);
    var t := TrackRun(events);
    HoleExplained(Run(events).ring, t, j);
    AllLost(t.settled, t.handed[j] + 1, t.handed[j + 1]);
  }
}
