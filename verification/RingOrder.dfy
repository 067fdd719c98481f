/** The absolute history over whole runs: generations settle and are handed out in order, within the window. */
module RingOrder {
  import opened FixedWidth
  import opened RingModel
  import opened RingOwnership
  import opened RingTrack
  import opened RingSettle

  // ------------------------------------------------------------- one completion

  lemma AdvanceOwns(r: Ring, converter: nat, i: nat, generation: u32, destination: u8)
    requires Matched(r) && converter < CONVERTER_COUNT && i < SLOT_COUNT
    ensures Matched(Advance(r, converter, i, generation, destination).0)
  {
    EnterOwns(r, converter, i, destination);
    ExtendOwns(CheckSkew(Enter(r, converter, i, destination)), Wrap32(generation + 2));
  }

  lemma ScheduleKeepsAccounts(r: Ring, t: Track, generation: u32)
    requires Matched(r) && Sized(t) && Accounted(r, t)
    ensures Accounted(Schedule(r, generation).0, TrackSchedule(t, r, generation))
  {
    TakeFreeOwns(r, generation, r.nextFirstPair);
    var after := Schedule(r, generation).0;
    var t' := TrackSchedule(t, r, generation);
    forall k | 0 <= k < |t'.settled| && t'.settled[k].ready && k !in t'.handed
      ensures exists d :: 0 <= d < RING_DEPTH && Waiting(after, t', d, k)
    {
      var d :| 0 <= d < RING_DEPTH && Waiting(r, t, d, k);
      assert Waiting(after, t', d, k);
    }
  }

  /** Without exhaustion, the slot a completion finds is its converter's next generation. */
  lemma AcceptedIsCurrent(r: Ring, t: Track, converter: nat, i: nat)
    requires converter < CONVERTER_COUNT && i < SLOT_COUNT
    requires r.running && Tracked(r, t) && r.progress.scheduleExhaustions == 0
    requires Holds(r.slots[i], r.nextCompletion.At(converter))
    ensures Current(t, i, converter)
  {
    WindowUnwraps(r, t, i, t.done.At(converter));
  }

  lemma ScheduleKeepsSlot(r: Ring, t: Track, generation: u32, i: nat)
    requires i < SLOT_COUNT && r.slots[i].valid && Sized(t)
    ensures Schedule(r, generation).0.slots[i] == r.slots[i]
    ensures TrackSchedule(t, r, generation).slotIndex[i] == t.slotIndex[i]
  {
  }

  lemma IndexedIgnoresSettled(r: Ring, t: Track, t': Track)
    requires Indexed(r, t) && t' == t.(settled := t'.settled)
    ensures Indexed(r, t')
  {
    forall i | 0 <= i < SLOT_COUNT
      ensures SlotIndexed(r, t', i)
    {
      assert SlotIndexed(r, t, i);
    }
  }

  /** An accepted completion in three parts: `b` after scheduling, `a` after marking, `after` once settled. */
  ghost predicate Parts(r: Ring, t: Track, b: Ring, tb: Track, a: Ring, after: Ring, t': Track, converter: nat, i: nat)
    requires converter < CONVERTER_COUNT && i < SLOT_COUNT && Sized(t)
  {
    && SameRun(r, b) && b.nextCompletion == r.nextCompletion
    && Sized(tb) && tb.done == t.done && tb.settled == t.settled && tb.handed == t.handed && tb.handles == t.handles
    && b.slots[i] == r.slots[i] && tb.slotIndex[i] == t.slotIndex[i]
    && Matched(b) && Matched(a)
    && Entered(b, a, converter, i)
    && Settles(a, CountDone(tb, converter), t.slotIndex[i], after, t', i)
  }

  /** `after` is `a` with slot `i` finalized, if both converters have finished it. */
  ghost predicate Settles(a: Ring, ta: Track, n: nat, after: Ring, t': Track, i: nat)
    requires i < SLOT_COUNT
  {
    && (if AllConverters(a.slots[i].mask) then
          && after == Finalize(a, i).0
          && t' == Settle(ta, n, Finalize(a, i).1.ready)
        else
          after == a && t' == ta)
  }

  lemma AcceptSettles(r: Ring, t: Track, converter: nat, i: nat, generation: u32, destination: u8)
    requires converter < CONVERTER_COUNT && i < SLOT_COUNT && Sized(t)
    ensures Settles(Advance(r, converter, i, generation, destination).0,
                    CountDone(TrackSchedule(t, r, Wrap32(generation + 2)), converter), t.slotIndex[i],
                    Accept(r, converter, i, generation, destination),
                    TrackAccept(t, r, converter, i, generation, destination), i)
  {
  }

  lemma AcceptParts(r: Ring, t: Track, converter: nat, i: nat, generation: u32, destination: u8)
    requires converter < CONVERTER_COUNT && i < SLOT_COUNT && r.slots[i].valid
    requires Owned(r) && Sized(t)
    ensures Parts(r, t, Schedule(r, Wrap32(generation + 2)).0, TrackSchedule(t, r, Wrap32(generation + 2)),
                  Advance(r, converter, i, generation, destination).0,
                  Accept(r, converter, i, generation, destination),
                  TrackAccept(t, r, converter, i, generation, destination), converter, i)
  {
    var b := Schedule(r, Wrap32(generation + 2)).0;
    var a := Advance(r, converter, i, generation, destination).0;
    AcceptSettles(r, t, converter, i, generation, destination);
    AcceptMatches(r, t, converter, i, generation, destination);
  }

  lemma AcceptMatches(r: Ring, t: Track, converter: nat, i: nat, generation: u32, destination: u8)
    requires converter < CONVERTER_COUNT && i < SLOT_COUNT && r.slots[i].valid
    requires Owned(r) && Sized(t)
    ensures var b := Schedule(r, Wrap32(generation + 2)).0;
            var tb := TrackSchedule(t, r, Wrap32(generation + 2));
            var a := Advance(r, converter, i, generation, destination).0;
            && SameRun(r, b) && b.nextCompletion == r.nextCompletion
            && Sized(tb) && tb.done == t.done && tb.settled == t.settled
            && tb.handed == t.handed && tb.handles == t.handles
            && b.slots[i] == r.slots[i] && tb.slotIndex[i] == t.slotIndex[i]
            && Matched(b) && Matched(a)
            && Entered(b, a, converter, i)
  {
    ScheduleKeepsRun(r, Wrap32(generation + 2));
    ScheduleEffect(r, Wrap32(generation + 2));
    ScheduleKeepsSlot(r, t, Wrap32(generation + 2), i);
    ScheduleOwns(r, Wrap32(generation + 2));
    AdvanceOwns(r, converter, i, generation, destination);
    AdvanceIsEntered(r, converter, i, generation, destination);
  }

  lemma SettledIndexed(r: Ring, t: Track, b: Ring, tb: Track, a: Ring, after: Ring, t': Track, converter: nat, i: nat)
    requires converter < CONVERTER_COUNT && i < SLOT_COUNT && r.slots[i].valid && r.running && Sized(t)
    requires Parts(r, t, b, tb, a, after, t', converter, i)
    requires Indexed(b, tb)
    ensures Indexed(a, CountDone(tb, converter)) && Indexed(after, t')
  {
    EnteredIndexed(b, a, tb, converter, i);
    if AllConverters(a.slots[i].mask) {
      FinalizeIndexed(a, CountDone(tb, converter), i);
      IndexedIgnoresSettled(after, CountDone(tb, converter), t');
    }
  }

  lemma SettledPlaced(r: Ring, t: Track, b: Ring, tb: Track, a: Ring, after: Ring, t': Track, converter: nat, i: nat)
    requires converter < CONVERTER_COUNT && i < SLOT_COUNT && Sized(t)
    requires r.slots[i].valid && !r.slots[i].mask.At(converter)
    requires Parts(r, t, b, tb, a, after, t', converter, i)
    requires Indexed(a, CountDone(tb, converter)) && Placed(b, tb) && t.slotIndex[i] <= t.done.At(converter)
    ensures Placed(after, t')
  {
    EnteredPlaced(b, a, tb, converter, i);
    if AllConverters(a.slots[i].mask) {
      EnteredKeepsSlot(b, a, converter, i);
      FinalizePlaced(a, CountDone(tb, converter), i);
    }
  }

  lemma EnteredKeepsSlot(b: Ring, a: Ring, converter: nat, i: nat)
    requires converter < CONVERTER_COUNT && i < SLOT_COUNT && Entered(b, a, converter, i)
    ensures a.slots[i].valid == b.slots[i].valid
  {
    assert a.slots[i].(invalidData := b.slots[i].invalidData)
        == b.slots[i].(mask := b.slots[i].mask.With(converter, true));
  }

  /** Without exhaustion, an accepted completion moves the window and accounts for what leaves it. */
  lemma SettledWindowed(r: Ring, t: Track, b: Ring, tb: Track, a: Ring, after: Ring, t': Track, converter: nat, i: nat)
    requires converter < CONVERTER_COUNT && i < SLOT_COUNT && Sized(t)
    requires r.slots[i].valid && !r.slots[i].mask.At(converter)
    requires Parts(r, t, b, tb, a, after, t', converter, i)
    requires Indexed(b, tb) && Windowed(b, tb) && Accounted(b, tb) && Current(t, i, converter)
    requires Indexed(a, CountDone(tb, converter))
    requires t.done.At(converter) + 3 <= tb.scheduled
    ensures Windowed(after, t') && Accounted(after, t')
  {
    EnteredWindowed(b, a, tb, converter, i);
    assert InWindow(b, tb, i);
    EnteredKeepsWaiting(b, a, tb, converter, i);
    assert a.slots[i].(invalidData := b.slots[i].invalidData)
        == b.slots[i].(mask := b.slots[i].mask.With(converter, true));
    if AllConverters(a.slots[i].mask) {
      FinalizeWindowed(a, CountDone(tb, converter), i);
      FinalizeAccounted(a, CountDone(tb, converter), i);
    }
  }

  lemma EnteredKeepsWaiting(b: Ring, a: Ring, t: Track, converter: nat, i: nat)
    requires converter < CONVERTER_COUNT && i < SLOT_COUNT && Sized(t)
    requires Entered(b, a, converter, i) && Accounted(b, t)
    ensures forall k :: 0 <= k < |t.settled| && t.settled[k].ready ==>
      k in t.handed || exists d :: 0 <= d < RING_DEPTH && Waiting(a, CountDone(t, converter), d, k)
  {
    forall k | 0 <= k < |t.settled| && t.settled[k].ready && k !in t.handed
      ensures exists d :: 0 <= d < RING_DEPTH && Waiting(a, CountDone(t, converter), d, k)
    {
      var d :| 0 <= d < RING_DEPTH && Waiting(b, t, d, k);
      assert Waiting(a, CountDone(t, converter), d, k);
    }
  }

  lemma AcceptTracked(r: Ring, t: Track, converter: nat, i: nat, generation: u32, destination: u8)
    requires converter < CONVERTER_COUNT && i < SLOT_COUNT
    requires Judge(r, converter, r.epoch, generation) == Accepted(i)
    requires Owned(r) && Tracked(r, t)
    ensures Tracked(Accept(r, converter, i, generation, destination),
                    TrackAccept(t, r, converter, i, generation, destination))
  {
    hide Schedule, TrackSchedule, Advance, Accept, TrackAccept, Parts, Windowed, Accounted, Matched, Placed,
         SlotIndexed, Wrap32;
    assert Holds(r.slots[i], r.nextCompletion.At(converter)) && !r.slots[i].mask.At(converter);
    AcceptParts(r, t, converter, i, generation, destination);
    AcceptExhaustions(r, converter, i, generation, destination);
    ScheduleIndexed(r, t, Wrap32(generation + 2));
    SchedulePlaced(r, t, Wrap32(generation + 2));
    if r.progress.scheduleExhaustions == 0 {
      WrapAdd(t.origin, t.done.At(converter), 2);
      LookaheadWindowed(r, t, converter, Wrap32(generation + 2));
    }
    PartsTracked(r, t, Schedule(r, Wrap32(generation + 2)).0, TrackSchedule(t, r, Wrap32(generation + 2)),
                 Advance(r, converter, i, generation, destination).0,
                 Accept(r, converter, i, generation, destination),
                 TrackAccept(t, r, converter, i, generation, destination), converter, i);
  }

  /** Without exhaustion so far, scheduling two past a converter's next generation keeps the window. */
  lemma LookaheadWindowed(r: Ring, t: Track, converter: nat, generation: u32)
    requires converter < CONVERTER_COUNT && generation == Wrap32(t.origin + t.done.At(converter) + 2)
    requires Owned(r) && r.running && Indexed(r, t) && Windowed(r, t) && Accounted(r, t)
    ensures var tb := TrackSchedule(t, r, generation);
            && Accounted(Schedule(r, generation).0, tb)
            && (Schedule(r, generation).1 < SLOT_COUNT ==>
                  Windowed(Schedule(r, generation).0, tb) && t.done.At(converter) + 3 <= tb.scheduled)
  {
    hide Schedule, TrackSchedule, Accounted, Matched, SlotIndexed, Wrap32, CountUsed, InWindow, Held;
    ScheduleInWindow(r, t, t.done.At(converter) + 2);
    ScheduleKeepsAccounts(r, t, generation);
  }

  lemma PartsTracked(r: Ring, t: Track, b: Ring, tb: Track, a: Ring, after: Ring, t': Track, converter: nat, i: nat)
    requires converter < CONVERTER_COUNT && i < SLOT_COUNT
    requires r.running && Tracked(r, t)
    requires Holds(r.slots[i], r.nextCompletion.At(converter)) && !r.slots[i].mask.At(converter)
    requires Parts(r, t, b, tb, a, after, t', converter, i)
    requires Indexed(b, tb) && Placed(b, tb)
    requires after.progress.scheduleExhaustions == 0 ==>
      && r.progress.scheduleExhaustions == 0
      && Windowed(b, tb) && Accounted(b, tb) && t.done.At(converter) + 3 <= tb.scheduled
    ensures Tracked(after, t')
  {
    SettledIndexed(r, t, b, tb, a, after, t', converter, i);
    FoundIsPast(r, t, converter, i);
    SettledPlaced(r, t, b, tb, a, after, t', converter, i);
    if after.progress.scheduleExhaustions == 0 {
      AcceptedIsCurrent(r, t, converter, i);
      SettledWindowed(r, t, b, tb, a, after, t', converter, i);
    }
  }

  /** An accepted completion leaves the exhaustion count at zero exactly when it schedules. */
  lemma AcceptExhaustions(r: Ring, converter: nat, i: nat, generation: u32, destination: u8)
    requires converter < CONVERTER_COUNT && i < SLOT_COUNT && r.slots[i].valid
    ensures Accept(r, converter, i, generation, destination).progress.scheduleExhaustions == 0 <==>
              r.progress.scheduleExhaustions == 0 && Schedule(r, Wrap32(generation + 2)).1 < SLOT_COUNT
    ensures Schedule(r, Wrap32(generation + 2)).1 < SLOT_COUNT ==>
              Accept(r, converter, i, generation, destination).progress.scheduleExhaustions
              == r.progress.scheduleExhaustions
  {
    AdvanceIsEntered(r, converter, i, generation, destination);
    FinalizeKeepsExhaustions(Advance(r, converter, i, generation, destination).0, i);
  }

  lemma FinalizeKeepsExhaustions(r: Ring, i: nat)
    requires i < SLOT_COUNT
    ensures Finalize(r, i).0.progress.scheduleExhaustions == r.progress.scheduleExhaustions
  {
  }

  // ------------------------------------------------------------- the other steps

  /** Steps that only taint, count, or move a converter past a generation it was never given. */
  lemma MarksKeepTrack(r: Ring, after: Ring, t: Track)
    requires Tracked(r, t)
    requires SameRun(r, after) && after.records == r.records
    requires after.nextSchedule == r.nextSchedule && after.nextFirstPair == r.nextFirstPair
    requires after.nextCompletion == r.nextCompletion
    requires after.progress.scheduleExhaustions == 0 ==> r.progress.scheduleExhaustions == 0
    requires forall i :: 0 <= i < SLOT_COUNT ==>
      after.slots[i].(invalidData := r.slots[i].invalidData, minimumLost := r.slots[i].minimumLost) == r.slots[i]
    ensures Tracked(after, t)
  {
    forall i | 0 <= i < SLOT_COUNT
      ensures SlotIndexed(after, t, i)
      ensures after.slots[i].valid == r.slots[i].valid && after.slots[i].mask == r.slots[i].mask
    {
      assert SlotIndexed(r, t, i);
      assert after.slots[i].(invalidData := r.slots[i].invalidData, minimumLost := r.slots[i].minimumLost)
          == r.slots[i];
    }
    OpenByMarks(after.slots, r.slots, 0);
    OpenByMarks(after.slots, r.slots, 1);
    if after.progress.scheduleExhaustions == 0 {
      forall k | 0 <= k < |t.settled| && t.settled[k].ready && k !in t.handed
        ensures exists d :: 0 <= d < RING_DEPTH && Waiting(after, t, d, k)
      {
        var d :| 0 <= d < RING_DEPTH && Waiting(r, t, d, k);
        assert Waiting(after, t, d, k);
      }
      if r.running {
        CountByValidity(after.slots, r.slots);
        forall i | 0 <= i < SLOT_COUNT
          ensures InWindow(after, t, i)
        {
          assert InWindow(r, t, i);
        }
        forall n | Low(t) <= n < t.scheduled
          ensures Held(after, t, n)
        {
          assert Held(r, t, n);
          var i :| 0 <= i < SLOT_COUNT && SlotFor(r, t, i, n);
          assert SlotFor(after, t, i, n);
        }
      }
    }
  }

  /** An unscheduled completion only moves its converter on and counts an exhaustion. */
  lemma UnscheduledEffect(r: Ring, converter: nat, generation: u32, destination: u8)
    requires converter < CONVERTER_COUNT
    requires Judge(r, converter, r.epoch, generation) == Unscheduled
    ensures var after := RingModel.Complete(r, converter, r.epoch, generation, destination);
            && SameRun(r, after) && after.records == r.records && after.slots == r.slots
            && after.nextSchedule == r.nextSchedule && after.nextFirstPair == r.nextFirstPair
            && after.nextCompletion == r.nextCompletion.With(converter, Wrap32(r.nextCompletion.At(converter) + 1))
            && after.progress.scheduleExhaustions > 0
  {
  }

  /** Moving a converter past a generation it was never given keeps what lies behind it there. */
  lemma PassingKeepsPlaced(r: Ring, t: Track, after: Ring, converter: nat)
    requires Sized(t) && converter < CONVERTER_COUNT && Placed(r, t)
    requires after.slots == r.slots && after.records == r.records && after.running == r.running
    ensures Placed(after, CountDone(t, converter))
  {
    hide CountOpen;
    assert Passed(after, CountDone(t, converter), 0) && Passed(after, CountDone(t, converter), 1);
    hide Passed;
    assert NoneTwice(after, CountDone(t, converter));
    hide NoneTwice;
  }

  lemma PassingKeepsIndexed(r: Ring, t: Track, after: Ring, converter: nat)
    requires converter < CONVERTER_COUNT && Indexed(r, t) && SameRun(r, after)
    requires after.slots == r.slots && after.records == r.records
    requires after.nextSchedule == r.nextSchedule && after.nextFirstPair == r.nextFirstPair
    requires after.nextCompletion == r.nextCompletion.With(converter, Wrap32(r.nextCompletion.At(converter) + 1))
    ensures Indexed(after, CountDone(t, converter))
  {
    WrapAdd(t.origin, t.done.At(converter), 1);
    forall i | 0 <= i < SLOT_COUNT
      ensures SlotIndexed(after, CountDone(t, converter), i)
    {
      assert SlotIndexed(r, t, i);
    }
  }

  lemma UnscheduledTracked(r: Ring, t: Track, converter: nat, generation: u32, destination: u8)
    requires converter < CONVERTER_COUNT && r.running && r.epoch != 0
    requires Judge(r, converter, r.epoch, generation) == Unscheduled
    requires Owned(r) && Tracked(r, t)
    ensures Tracked(RingModel.Complete(r, converter, r.epoch, generation, destination), CountDone(t, converter))
  {
    UnscheduledEffect(r, converter, generation, destination);
    var after := RingModel.Complete(r, converter, r.epoch, generation, destination);
    hide RingModel.Complete, Judge;
    PassingKeepsPlaced(r, t, after, converter);
    PassingKeepsIndexed(r, t, after, converter);
    hide Placed, Indexed;
  }

  lemma CompleteTracked(r: Ring, t: Track, converter: u8, epoch: u32, generation: u32, destination: u8)
    requires Owned(r) && Tracked(r, t)
    ensures Tracked(RingModel.Complete(r, converter, epoch, generation, destination),
                    TrackComplete(t, r, converter, epoch, generation, destination))
  {
    var verdict := Judge(r, converter, epoch, generation);
    if verdict.Accepted? {
      AcceptTracked(r, t, converter, verdict.slot, generation, destination);
    } else if verdict.Unscheduled? {
      UnscheduledTracked(r, t, converter, generation, destination);
    } else {
      RejectedKeepsTables(r, converter, epoch, generation, destination);
      MarksKeepTrack(r, RingModel.Complete(r, converter, epoch, generation, destination), t);
    }
  }

  lemma NextGeneration(r: Ring, t: Track)
    requires Indexed(r, t) && r.running
    ensures r.nextSchedule == Wrap32(t.origin + t.scheduled)
  {
  }

  lemma ScheduleTracked(r: Ring, t: Track, generation: u32)
    requires Owned(r) && r.running && Tracked(r, t)
    ensures Tracked(Schedule(r, generation).0, TrackSchedule(t, r, generation))
  {
    ScheduleIndexed(r, t, generation);
    ScheduleEffect(r, generation);
    hide Schedule, Matched, Placed, Indexed, Windowed, Accounted;
    if MakesSlot(r, generation) {
      SchedulePlaced(r, t, generation);
      if r.progress.scheduleExhaustions == 0 {
        ScheduleKeepsAccounts(r, t, generation);
        NextGeneration(r, t);
        NewSlotWidens(r, t);
      }
    } else {
      MarksKeepTrack(r, Schedule(r, generation).0, t);
    }
  }

  lemma ReserveTracked(r: Ring, t: Track, epoch: u32, generation: u32)
    requires Owned(r) && Tracked(r, t)
    ensures Tracked(RingModel.Reserve(r, epoch, generation).0, TrackReserve(t, r, epoch, generation))
  {
    if Listening(r, epoch) {
      ScheduleTracked(r, t, generation);
    }
  }

  lemma MarkGenerationTracked(r: Ring, t: Track, generation: u32, minimumLost: u32)
    requires Tracked(r, t)
    ensures Tracked(MarkGenerationInvalid(r, generation, minimumLost), t)
  {
    MarksKeepTrack(r, MarkGenerationInvalid(r, generation, minimumLost), t);
  }

  lemma ChargeTracked(r: Ring, t: Track, mask: u8, converter: nat)
    requires Tracked(r, t) && converter < CONVERTER_COUNT
    ensures Tracked(ChargeOverwrite(r, mask, converter), t)
  {
    if MaskNames(mask, converter) {
      var counted := r.(progress := r.progress.(
        overwrittenConversions := SaturatingIncrement64(r.progress.overwrittenConversions)));
      MarksKeepTrack(r, counted, t);
      MarkGenerationTracked(counted, t, r.nextCompletion.At(converter), 1);
    }
  }

  lemma ErrorsTracked(r: Ring, t: Track, epoch: u32, mask: u8, flags: bv32, converter: u8)
    requires Tracked(r, t)
    ensures Tracked(RecordAdcEtcError(r, epoch, mask, flags), t)
    ensures Tracked(RecordDmaError(r, epoch, converter), t)
  {
    hide Tracked, MarkGenerationInvalid;
    var noted := NoteEtcEvent(r, mask, flags);
    MarksKeepTrack(r, noted, t);
    ChargeTracked(noted, t, mask, 0);
    ChargeTracked(ChargeOverwrite(noted, mask, 0), t, mask, 1);
    var counted := r.(progress := r.progress.(dmaErrorEvents := SaturatingIncrement32(r.progress.dmaErrorEvents)));
    MarksKeepTrack(r, counted, t);
    MarksKeepTrack(r, NoteInvariantError(r), t);
    if converter < CONVERTER_COUNT {
      MarkGenerationTracked(counted, t, r.nextCompletion.At(converter), 0);
    }
  }

  /** Handing out a Ready buffer keeps the history. */
  lemma AcquireTracked(r: Ring, t: Track)
    requires Tracked(r, t)
    ensures Tracked(RingModel.Acquire(r).0, TrackAcquire(t, r))
  {
    var d := OldestReady(r.records, RING_DEPTH);
    var after := RingModel.Acquire(r).0;
    var t' := TrackAcquire(t, r);
    if d < RING_DEPTH {
      hide Windowed, Accounted, OldestReady, CountOpen;
      forall i | 0 <= i < SLOT_COUNT
        ensures SlotIndexed(after, t', i)
      {
        assert SlotIndexed(r, t, i);
      }
      if r.progress.scheduleExhaustions == 0 {
        HandedAccounted(r, t, d);
        if r.running {
          WindowIgnoresRecords(r, after, t, t');
        }
      }
    }
  }

  lemma WindowIgnoresRecords(r: Ring, after: Ring, t: Track, t': Track)
    requires Sized(t) && Sized(t') && Windowed(r, t) && after.slots == r.slots
    requires t'.done == t.done && t'.scheduled == t.scheduled && t'.slotIndex == t.slotIndex
    ensures Windowed(after, t')
  {
    forall i | 0 <= i < SLOT_COUNT
      ensures InWindow(after, t', i)
    {
      assert InWindow(r, t, i);
    }
    forall n | Low(t') <= n < t'.scheduled
      ensures Held(after, t', n)
    {
      assert Held(r, t, n);
      var i :| 0 <= i < SLOT_COUNT && SlotFor(r, t, i, n);
      assert SlotFor(after, t', i, n);
    }
  }

  lemma HandedAccounted(r: Ring, t: Track, d: nat)
    requires Tracked(r, t) && r.progress.scheduleExhaustions == 0
    requires d == OldestReady(r.records, RING_DEPTH) < RING_DEPTH
    ensures Accounted(RingModel.Acquire(r).0, TrackAcquire(t, r))
  {
    var after := RingModel.Acquire(r).0;
    var t' := TrackAcquire(t, r);
    assert Waiting(r, t, d, t.bufferIndex[d]);
    forall k | 0 <= k < |t'.settled| && t'.settled[k].ready && k !in t'.handed
      ensures exists e :: 0 <= e < RING_DEPTH && Waiting(after, t', e, k)
    {
      assert k !in t.handed;
      var e :| 0 <= e < RING_DEPTH && Waiting(r, t, e, k);
      assert e != d by {
        assert t.bufferIndex[d] == t'.handed[|t.handed|];
      }
      assert Waiting(after, t', e, k);
    }
  }
}
