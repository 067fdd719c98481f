/** Interleaved runs of the ring: interrupts, and every critical section of the foreground, as atomic steps. */
module RingRuns {
  import opened FixedWidth
  import opened RingModel
  import opened RingOwnership

  /** One atomic step. A second half names the buffer whose first half it finishes. */
  datatype Event =
    | Prime(epoch: u32, generation: u32, firstPair: u64, pairs: u32)
    | Reserve(epoch: u32, generation: u32)
    | Complete(converter: u8, epoch: u32, generation: u32, destination: u8)
    | AdcEtcError(epoch: u32, mask: u8, flags: bv32)
    | DmaError(epoch: u32, converter: u8)
    | Acquire
    | BeginRelease(handle: BufferHandle)
    | EndRelease(buffer: nat)
    | BeginDiscard
    | EndDiscard(buffer: nat)
    | Stop(channels: Channels, consistent: bool)

  /** A foreground operation between its two critical sections. */
  datatype Flight = ByHandle(handle: BufferHandle) | ByService

  datatype System = System(ring: Ring, flights: map<nat, Flight>)

  const START := System(INITIAL, map[])

  function Land(flights: map<nat, Flight>, d: nat): map<nat, Flight> {
    flights - {d}
  }

  /** The system after one step; a second half whose first half is not under way does nothing. */
  function Step(s: System, e: Event): System {
    match e
    case Prime(epoch, generation, firstPair, pairs) =>
      s.(ring := RingModel.Prime(s.ring, epoch, generation, firstPair, pairs).0)
    case Reserve(epoch, generation) => s.(ring := RingModel.Reserve(s.ring, epoch, generation).0)
    case Complete(converter, epoch, generation, destination) =>
      s.(ring := RingModel.Complete(s.ring, converter, epoch, generation, destination))
    case AdcEtcError(epoch, mask, flags) => s.(ring := RecordAdcEtcError(s.ring, epoch, mask, flags))
    case DmaError(epoch, converter) => s.(ring := RecordDmaError(s.ring, epoch, converter))
    case Acquire => s.(ring := RingModel.Acquire(s.ring).0)
    case BeginRelease(handle) =>
      var (ring, status) := ReleaseBegin(s.ring, handle);
      if status == Ok then System(ring, s.flights[handle.bufferIndex := ByHandle(handle)]) else s
    case EndRelease(d) =>
      if d in s.flights && s.flights[d].ByHandle? then
        System(ReleaseEnd(s.ring, s.flights[d].handle).0, Land(s.flights, d))
      else s
    case BeginDiscard =>
      var (ring, d) := DiscardBegin(s.ring);
      if d < RING_DEPTH then System(ring, s.flights[d := ByService]) else s
    case EndDiscard(d) =>
      if d < RING_DEPTH && d in s.flights && s.flights[d].ByService? then
        System(DiscardEnd(s.ring, d).0, Land(s.flights, d))
      else s
    case Stop(channels, consistent) => s.(ring := RingModel.Stop(s.ring, channels, consistent).0)
  }

  function Run(events: seq<Event>): System {
    if events == [] then START else Step(Run(events[..|events| - 1]), events[|events| - 1])
  }

  // ------------------------------------------------------------- the invariant

  /** The buffers being released are exactly the foreground's open second halves, each with its own handle. */
  ghost predicate FlightsMatch(s: System) {
    && (forall d :: d in s.flights ==> d < RING_DEPTH && s.ring.records[d].state == Releasing)
    && (forall d :: 0 <= d < RING_DEPTH && s.ring.records[d].state == Releasing ==> d in s.flights)
    && (forall d :: d in s.flights && s.flights[d].ByHandle? ==>
          s.flights[d].handle.bufferIndex == d && HandleMatches(s.ring, s.flights[d].handle, Releasing))
  }

  ghost predicate Safe(s: System) {
    Owned(s.ring) && FlightsMatch(s)
  }

  lemma DmaMovesKeepFlights(s: System, after: Ring)
    requires FlightsMatch(s)
    requires OnlyDmaMoves(s.ring, after) && after.pairsPerBuffer == s.ring.pairsPerBuffer
    ensures FlightsMatch(s.(ring := after))
  {
    forall d | 0 <= d < RING_DEPTH
      ensures || after.records[d] == s.ring.records[d]
              || (after.records[d].state != Releasing && s.ring.records[d].state != Releasing)
    {
      assert DmaMove(s.ring.records[d], after.records[d]);
    }
  }

  /** Priming a quiescent ring always succeeds, on buffers 0 and 1 of a table with nothing else in it. */
  lemma PrimeSeeds(r: Ring, epoch: u32, generation: u32, firstPair: u64, pairs: u32)
    requires epoch != 0 && 1 <= pairs <= PAIRS_PER_FRAME
    requires !r.running && AllFree(r.records)
    ensures var cleared := Cleared(r, epoch, generation, firstPair, pairs);
            && Seeds(cleared, generation).1 == 0 && Seeds(cleared, generation).2 == 1
            && Seeds(cleared, generation).0.slots
            == NoSlots()[0 := GenerationSlot(firstPair, generation, 0, NO_CONVERTER, 0, true, false)]
                       [1 := GenerationSlot(SaturatingAdd64(firstPair, pairs), Wrap32(generation + 1), 1,
                                            NO_CONVERTER, 0, true, false)]
            && Seeds(cleared, generation).0.records
            == r.records[0 := BufferRecord(DmaOwned, epoch, generation, firstPair, 0)]
                        [1 := BufferRecord(DmaOwned, epoch, Wrap32(generation + 1),
                                           SaturatingAdd64(firstPair, pairs), 0)]
    ensures RingModel.Prime(r, epoch, generation, firstPair, pairs).1
         == PrimeResult(Ok, epoch, generation, Wrap32(generation + 1), 0, 1)
  {
    var cleared := Cleared(r, epoch, generation, firstPair, pairs);
    var (once, active) := Schedule(cleared, generation);
    assert active == 0 && once.slots[0].destination == 0 && once.nextFreeSearch == 1;
    var queued := Wrap32(generation + 1);
    assert forall j :: 0 <= j < SLOT_COUNT ==> !Holds(once.slots[j], queued);
    assert FirstUnused(once.slots) == 1;
    assert FreeAttempt(once.records, 1) == 0;
  }

  lemma PrimeIsSafe(r: Ring, epoch: u32, generation: u32, firstPair: u64, pairs: u32)
    requires Owned(r)
    ensures Owned(RingModel.Prime(r, epoch, generation, firstPair, pairs).0)
    ensures RingModel.Prime(r, epoch, generation, firstPair, pairs).0 != r ==>
              AllFree(r.records) && OnlyDmaMoves(r, RingModel.Prime(r, epoch, generation, firstPair, pairs).0)
  {
    if epoch != 0 && 1 <= pairs <= PAIRS_PER_FRAME && !r.running && AllFree(r.records) {
      PrimeSeeds(r, epoch, generation, firstPair, pairs);
      var cleared := Cleared(r, epoch, generation, firstPair, pairs);
      ScheduleOwns(cleared, generation);
      var once := Schedule(cleared, generation).0;
      ScheduleOwns(once, Wrap32(generation + 1));
      ScheduleKeepsRun(cleared, generation);
      ScheduleKeepsRun(once, Wrap32(generation + 1));
      MarksKeepMatch(Seeds(cleared, generation).0, RingModel.Prime(r, epoch, generation, firstPair, pairs).0);
    }
  }

  /** One step, whatever interrupt or call it is, keeps ownership; and no second half ever fails its recheck. */
  lemma StepIsSafe(s: System, e: Event)
    requires Safe(s)
    ensures Safe(Step(s, e))
    ensures e.EndRelease? && e.buffer in s.flights && s.flights[e.buffer].ByHandle? ==>
              ReleaseEnd(s.ring, s.flights[e.buffer].handle).1 == Ok
    ensures e.EndDiscard? && e.buffer in s.flights ==> DiscardEnd(s.ring, e.buffer).1
  {
    match e {
      case Prime(epoch, generation, firstPair, pairs) =>
        PrimeIsSafe(s.ring, epoch, generation, firstPair, pairs);
        if Step(s, e).ring != s.ring {
          assert s.flights == map[];
          forall d | 0 <= d < RING_DEPTH
            ensures Step(s, e).ring.records[d].state != Releasing
          {
            assert DmaMove(s.ring.records[d], Step(s, e).ring.records[d]);
          }
        }
      case Reserve(epoch, generation) =>
        ReserveOwns(s.ring, epoch, generation);
        ScheduleKeepsRun(s.ring, generation);
        DmaMovesKeepFlights(s, Step(s, e).ring);
      case Complete(converter, epoch, generation, destination) =>
        CompleteOwns(s.ring, converter, epoch, generation, destination);
        CompleteKeepsRun(s.ring, converter, epoch, generation, destination);
        DmaMovesKeepFlights(s, Step(s, e).ring);
      case AdcEtcError(epoch, mask, flags) =>
        ErrorsOwn(s.ring, epoch, mask, flags, 0);
        ErrorsKeepRun(s.ring, epoch, mask, flags, 0);
        DmaMovesKeepFlights(s, Step(s, e).ring);
      case DmaError(epoch, converter) =>
        ErrorsOwn(s.ring, epoch, 0, 0, converter);
        ErrorsKeepRun(s.ring, epoch, 0, 0, converter);
        DmaMovesKeepFlights(s, Step(s, e).ring);
      case Stop(channels, consistent) =>
        StopOwns(s.ring, channels, consistent);
        DmaMovesKeepFlights(s, Step(s, e).ring);
      case Acquire => AcquireIsSafe(s);
      case BeginRelease(handle) => BeginReleaseIsSafe(s, handle);
      case EndRelease(d) =>
        if d in s.flights && s.flights[d].ByHandle? {
          EndReleaseIsSafe(s, d);
        }
      case BeginDiscard => DiscardIsSafe(s, 0);
      case EndDiscard(d) => DiscardIsSafe(s, d);
    }
  }

  lemma CompleteKeepsRun(r: Ring, converter: u8, epoch: u32, generation: u32, destination: u8)
    ensures SameRun(r, RingModel.Complete(r, converter, epoch, generation, destination))
  {
    var verdict := Judge(r, converter, epoch, generation);
    if verdict.Accepted? {
      AcceptKeepsRun(r, converter, verdict.slot, generation, destination);
    } else {
      RejectedKeepsTables(r, converter, epoch, generation, destination);
    }
  }

  lemma ErrorsKeepRun(r: Ring, epoch: u32, mask: u8, flags: bv32, converter: u8)
    ensures SameRun(r, RecordAdcEtcError(r, epoch, mask, flags))
    ensures SameRun(r, RecordDmaError(r, epoch, converter))
  {
    var noted := NoteEtcEvent(r, mask, flags);
    assert SameRun(r, noted);
    assert SameRun(noted, ChargeOverwrite(noted, mask, 0));
  }

  /** A foreground half moves one record `d`, never into or out of DMA ownership, and opens or closes its flight. */
  lemma OneRecordKeepsSafe(s: System, d: nat, record: BufferRecord, after: System)
    requires Safe(s) && d < RING_DEPTH
    requires s.ring.records[d].state != DmaOwned && record.state != DmaOwned
    requires after.ring.records == s.ring.records[d := record]
    requires after.ring.slots == s.ring.slots && after.ring.epoch == s.ring.epoch
    requires after.ring.running == s.ring.running && after.ring.pairsPerBuffer == s.ring.pairsPerBuffer
    requires if record.state == Releasing then
               && d in after.flights && after.flights == s.flights[d := after.flights[d]]
               && (after.flights[d].ByHandle? ==>
                     && after.flights[d].handle.bufferIndex == d
                     && HandleMatches(after.ring, after.flights[d].handle, Releasing))
             else after.flights == s.flights - {d}
    ensures Safe(after)
  {
    CpuMovesKeepMatch(s.ring, after.ring);
  }

  lemma AcquireIsSafe(s: System)
    requires Safe(s)
    ensures Safe(Step(s, Acquire))
  {
    var d := OldestReady(s.ring.records, RING_DEPTH);
    if d < RING_DEPTH {
      assert d !in s.flights;
      assert s.flights - {d} == s.flights;
      OneRecordKeepsSafe(s, d, Step(s, Acquire).ring.records[d], Step(s, Acquire));
    }
  }

  lemma BeginReleaseIsSafe(s: System, handle: BufferHandle)
    requires Safe(s)
    ensures Safe(Step(s, BeginRelease(handle)))
  {
    if HandleMatches(s.ring, handle, Reading) {
      var d := handle.bufferIndex;
      OneRecordKeepsSafe(s, d, s.ring.records[d].(state := Releasing), Step(s, BeginRelease(handle)));
    }
  }

  lemma EndReleaseIsSafe(s: System, d: nat)
    requires Safe(s) && d in s.flights && s.flights[d].ByHandle?
    ensures ReleaseEnd(s.ring, s.flights[d].handle).1 == Ok
    ensures Safe(Step(s, EndRelease(d)))
  {
    OneRecordKeepsSafe(s, d, FREE_RECORD, Step(s, EndRelease(d)));
  }

  lemma DiscardIsSafe(s: System, d: nat)
    requires Safe(s)
    ensures Safe(Step(s, BeginDiscard))
    ensures d in s.flights ==> DiscardEnd(s.ring, d).1
    ensures Safe(Step(s, EndDiscard(d)))
  {
    var claimed := FirstDiscard(s.ring.records);
    if claimed < RING_DEPTH {
      OneRecordKeepsSafe(s, claimed, s.ring.records[claimed].(state := Releasing), Step(s, BeginDiscard));
    }
    if d in s.flights && s.flights[d].ByService? {
      OneRecordKeepsSafe(s, d, FREE_RECORD, Step(s, EndDiscard(d)));
    }
  }

  /** Ownership in every reachable state of the interleaved steps. */
  lemma {:induction false} EveryRunIsSafe(events: seq<Event>)
    ensures Safe(Run(events))
  {
    if events == [] {
    } else {
      EveryRunIsSafe(events[..|events| - 1]);
      StepIsSafe(Run(events[..|events| - 1]), events[|events| - 1]);
    }
  }

  /** In every run, a buffer outside DMA ownership, so any the CPU holds a lease on, is no slot's destination;
      and a buffer DMA owns is the destination of exactly one slot, of the same epoch and generation. */
  lemma LeasedIsNeverScheduled(events: seq<Event>, d: nat)
    requires d < RING_DEPTH
    ensures var r := Run(events).ring;
            && (r.records[d].state != DmaOwned ==> forall i :: 0 <= i < SLOT_COUNT ==> !Claims(r.slots[i], d))
            && (r.records[d].state == DmaOwned ==>
                  && r.records[d].epoch == r.epoch
                  && exists i :: 0 <= i < SLOT_COUNT && Claims(r.slots[i], d)
                       && r.slots[i].generation == r.records[d].generation
                       && forall j :: 0 <= j < SLOT_COUNT && Claims(r.slots[j], d) ==> j == i)
  {
    EveryRunIsSafe(events);
    var r := Run(events).ring;
    forall i | 0 <= i < SLOT_COUNT && Claims(r.slots[i], d)
      ensures OwnershipMatches(r, r.slots[i])
    {
      assert SlotOwns(r, i);
    }
    if r.records[d].state == DmaOwned {
      var i :| 0 <= i < SLOT_COUNT && Claims(r.slots[i], d);
      forall j | 0 <= j < SLOT_COUNT && Claims(r.slots[j], d)
        ensures j == i
      {
        assert j < i ==> Apart(r.slots[j], r.slots[i]);
        assert i < j ==> Apart(r.slots[i], r.slots[j]);
      }
    }
  }
}
