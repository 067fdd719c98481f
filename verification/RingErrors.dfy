/** Runs of well-formed interrupts: no slot is ever exhausted and no invariant error ever noted. */
module RingErrors {
  import opened FixedWidth
  import opened RingModel
  import opened RingOwnership
  import opened RingTrack
  import opened RingSettle
  import opened RingRuns
  import opened RingHistory

  /** A slot for `generation` exists or can be made. */
  predicate RoomFor(r: Ring, generation: u32) {
    Find(r.slots, generation) < SLOT_COUNT || FirstUnused(r.slots) < SLOT_COUNT
  }

  /** The step is one the hardware and the foreground may make while the window fits the table: converters that exist,
      reservations in turn, error masks that name a converter, and room for the generation two ahead of a completion in
      turn. Stale, repeated and out-of-turn completions, and every foreground call, are allowed at any time. */
  predicate WellFormed(r: Ring, e: Event) {
    match e
    case Complete(converter, epoch, generation, _) =>
      && converter < CONVERTER_COUNT
      && (r.running && epoch == r.epoch && generation == r.nextCompletion.At(converter) ==>
            RoomFor(r, Wrap32(generation + 2)))
    case Reserve(epoch, generation) =>
      Listening(r, epoch) ==> Find(r.slots, generation) < SLOT_COUNT || generation == r.nextSchedule
    case AdcEtcError(_, mask, _) => 1 <= mask <= 3
    case DmaError(_, converter) => converter < CONVERTER_COUNT
    case _ => true
  }

  predicate WellFormedRun(events: seq<Event>) {
    events == [] ||
    (var (before, e) := (events[..|events| - 1], events[|events| - 1]);
     WellFormedRun(before) && WellFormed(Run(before).ring, e))
  }

  predicate Faultless(r: Ring) {
    r.progress.scheduleExhaustions == 0 && r.progress.invariantErrors == 0
  }

  /** While a slot is unused, the window does not fill the table. */
  lemma RoomMeansNotFull(r: Ring, t: Track, converter: nat)
    requires converter < CONVERTER_COUNT && Tracked(r, t) && r.running && r.progress.scheduleExhaustions == 0
    requires RoomFor(r, Wrap32(r.nextCompletion.At(converter) + 2))
    ensures !(t.done.At(converter) + 2 == t.scheduled && t.scheduled - Low(t) == SLOT_COUNT)
  {
    WrapAdd(t.origin, t.done.At(converter), 2);
    FindInWindow(r, t, t.done.At(converter) + 2);
    CountFull(r.slots);
  }

  lemma CompleteFaultless(r: Ring, t: Track, converter: u8, epoch: u32, generation: u32, destination: u8)
    requires Owned(r) && Tracked(r, t) && Faultless(r)
    requires WellFormed(r, Event.Complete(converter, epoch, generation, destination))
    ensures Faultless(RingModel.Complete(r, converter, epoch, generation, destination))
  {
    if r.running && epoch == r.epoch && generation == r.nextCompletion.At(converter) {
      RoomMeansNotFull(r, t, converter);
      hide Owned, Tracked, RingModel.Complete, Judge;
      InTurnTracked(r, t, converter, destination);
    } else {
      OutOfTurnOnlyCounts(r, converter, epoch, generation, destination);
    }
  }

  lemma OutOfTurnOnlyCounts(r: Ring, converter: u8, epoch: u32, generation: u32, destination: u8)
    requires converter < CONVERTER_COUNT
    requires !(r.running && epoch == r.epoch && generation == r.nextCompletion.At(converter))
    ensures Faultless(r) ==> Faultless(RingModel.Complete(r, converter, epoch, generation, destination))
  {
  }

  lemma ReserveFaultless(r: Ring, epoch: u32, generation: u32)
    requires Faultless(r) && WellFormed(r, Event.Reserve(epoch, generation))
    ensures Faultless(RingModel.Reserve(r, epoch, generation).0)
  {
  }

  /** In a run without exhaustion both converters' next generations have slots to be charged. */
  lemma NextIsHeld(r: Ring, t: Track, converter: nat)
    requires converter < CONVERTER_COUNT && Tracked(r, t) && r.running && r.progress.scheduleExhaustions == 0
    ensures Find(r.slots, r.nextCompletion.At(converter)) < SLOT_COUNT
  {
    InWindowUnmarked(r, t, converter);
    FindInWindow(r, t, t.done.At(converter));
  }

  lemma ChargeFaultless(r: Ring, mask: u8, converter: nat)
    requires converter < CONVERTER_COUNT && Faultless(r)
    requires Find(r.slots, r.nextCompletion.At(converter)) < SLOT_COUNT
    ensures Faultless(ChargeOverwrite(r, mask, converter))
    ensures SameKeys(ChargeOverwrite(r, mask, converter).slots, r.slots)
    ensures ChargeOverwrite(r, mask, converter).nextCompletion == r.nextCompletion
  {
  }

  lemma ErrorsFaultless(r: Ring, t: Track, e: Event)
    requires e.AdcEtcError? || e.DmaError?
    requires Tracked(r, t) && Faultless(r) && WellFormed(r, e)
    ensures Faultless(if e.AdcEtcError? then RecordAdcEtcError(r, e.epoch, e.mask, e.flags)
                      else RecordDmaError(r, e.epoch, e.converter))
  {
    if Listening(r, e.epoch) {
      NextIsHeld(r, t, 0);
      NextIsHeld(r, t, 1);
      if e.AdcEtcError? {
        var noted := NoteEtcEvent(r, e.mask, e.flags);
        ChargeFaultless(noted, e.mask, 0);
        var once := ChargeOverwrite(noted, e.mask, 0);
        SearchByKeys(once.slots, noted.slots, r.nextCompletion.adc1);
        hide ChargeOverwrite;
        ChargeFaultless(once, e.mask, 1);
      }
    }
  }

  lemma {:induction false} HaltFaultless(h: Halt, n: nat, channels: Channels)
    requires n <= SLOT_COUNT && Matched(h.ring) && Faultless(h.ring)
    ensures Faultless(HaltSlots(h, n, channels).ring)
  {
    if n > 0 {
      HaltFaultless(h, n - 1, channels);
      HaltSlotsOwn(h, n - 1, channels);
      HaltSlotFaultless(HaltSlots(h, n - 1, channels), n - 1, channels);
    }
  }

  lemma HaltSlotFaultless(h: Halt, i: nat, channels: Channels)
    requires i < SLOT_COUNT && Matched(h.ring) && Faultless(h.ring)
    ensures Faultless(HaltSlot(h, i, channels).ring)
  {
    assert SlotOwns(h.ring, i);
  }

  lemma StopFaultless(r: Ring, channels: Channels, consistent: bool)
    requires Owned(r) && Faultless(r)
    ensures Faultless(RingModel.Stop(r, channels, consistent).0)
  {
    if r.running {
      var start := Halt(r.(running := false), 0, 0, consistent);
      MarksKeepMatch(r, start.ring);
      HaltFaultless(start, SLOT_COUNT, channels);
    }
  }

  lemma PrimeFaultless(r: Ring, epoch: u32, generation: u32, firstPair: u64, pairs: u32)
    requires Faultless(r)
    ensures Faultless(RingModel.Prime(r, epoch, generation, firstPair, pairs).0)
  {
    if epoch != 0 && 1 <= pairs <= PAIRS_PER_FRAME && !r.running && AllFree(r.records) {
      PrimeSeeds(r, epoch, generation, firstPair, pairs);
      var cleared := Cleared(r, epoch, generation, firstPair, pairs);
      SeedsFaultless(cleared, generation);
      DiscardKeepsTheRest(Seeds(cleared, generation).0.progress, RING_DEPTH + 1);
    }
  }

  lemma SeedsFaultless(r: Ring, generation: u32)
    requires Faultless(r) && Seeds(r, generation).1 < SLOT_COUNT && Seeds(r, generation).2 < SLOT_COUNT
    ensures Faultless(Seeds(r, generation).0)
  {
  }

  lemma StepFaultless(s: System, t: Track, e: Event)
    requires Safe(s) && Tracked(s.ring, t) && Faultless(s.ring) && WellFormed(s.ring, e)
    ensures Faultless(Step(s, e).ring)
  {
    match e {
      case Prime(epoch, generation, firstPair, pairs) => PrimeFaultless(s.ring, epoch, generation, firstPair, pairs);
      case Reserve(epoch, generation) => ReserveFaultless(s.ring, epoch, generation);
      case Complete(converter, epoch, generation, destination) =>
        CompleteFaultless(s.ring, t, converter, epoch, generation, destination);
      case AdcEtcError(_, _, _) => ErrorsFaultless(s.ring, t, e);
      case DmaError(_, _) => ErrorsFaultless(s.ring, t, e);
      case Stop(channels, consistent) => StopFaultless(s.ring, channels, consistent);
      case _ => ForegroundFaultless(s, e);
    }
  }

  lemma ForegroundFaultless(s: System, e: Event)
    requires Safe(s) && Faultless(s.ring)
    requires e.Acquire? || e.BeginRelease? || e.EndRelease? || e.BeginDiscard? || e.EndDiscard?
    ensures Faultless(Step(s, e).ring)
  {
    match e {
      case EndRelease(d) =>
        if d in s.flights && s.flights[d].ByHandle? {
          EndReleaseIsSafe(s, d);
        }
      case EndDiscard(d) => DiscardIsSafe(s, d);
      case _ =>
    }
  }

  /** Over every run of well-formed steps, across any number of stops, primes and generation wraps, neither the
      exhaustion count nor the invariant-error count ever leaves zero. */
  lemma {:induction false} WellFormedRunsAreFaultless(events: seq<Event>)
    requires WellFormedRun(events)
    ensures Faultless(Run(events).ring)
  {
    if events == [] {
    } else {
      var (before, e) := (events[..|events| - 1], events[|events| - 1]);
      WellFormedRunsAreFaultless(before);
      EveryRunIsSafe(before);
      EveryRunIsTracked(before);
      hide TrackRun, WellFormed, Faultless, Safe, Tracked, Step;
      StepFaultless(Run(before), TrackRun(before), e);
    }
  }
}
