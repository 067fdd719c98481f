/** Ownership of the ring's buffers: which buffer each scheduled generation writes, and who may touch the rest. */
module RingOwnership {
  import opened FixedWidth
  import opened RingModel

  /** Slot `i`, if in use, writes the overflow sink or a buffer whose record names exactly that generation. */
  predicate SlotOwns(r: Ring, i: nat)
    requires i < SLOT_COUNT
  {
    r.slots[i].valid ==>
      && IsDmaDestination(r.slots[i].destination)
      && (IsBufferDestination(r.slots[i].destination) ==>
            && OwnershipMatches(r, r.slots[i])
            && r.records[r.slots[i].destination].firstPair == r.slots[i].firstPair)
  }

  predicate Apart(a: GenerationSlot, b: GenerationSlot) {
    a.valid && b.valid ==>
      && a.generation != b.generation
      && (a.destination == b.destination ==> !IsBufferDestination(a.destination))
  }

  predicate Claims(slot: GenerationSlot, d: nat) {
    slot.valid && slot.destination == d
  }

  /** Buffers owned by DMA and slots with a real destination name each other, one to one. */
  ghost predicate Matched(r: Ring) {
    && (forall i :: 0 <= i < SLOT_COUNT ==> SlotOwns(r, i))
    && (forall i, j :: 0 <= i < j < SLOT_COUNT ==> Apart(r.slots[i], r.slots[j]))
    && (forall d :: 0 <= d < RING_DEPTH && r.records[d].state == DmaOwned ==>
          exists i :: 0 <= i < SLOT_COUNT && Claims(r.slots[i], d))
  }

  predicate NoneScheduled(r: Ring) {
    forall i :: 0 <= i < SLOT_COUNT ==> !r.slots[i].valid
  }

  ghost predicate Owned(r: Ring) {
    && Matched(r)
    && (if r.running then r.epoch != 0 else NoneScheduled(r))
  }

  // ---------------------------------------------------------- moves of a buffer

  /** The moves an interrupt, a reservation or a stop may make with one buffer. */
  predicate DmaMove(before: BufferRecord, after: BufferRecord) {
    || after == before
    || (before.state == Free && after.state == DmaOwned && after.lease == 0)
    || (before.state == DmaOwned && after == before.(state := Ready))
    || (before.state == DmaOwned && after == before.(state := DiscardPending))
  }

  ghost predicate OnlyDmaMoves(r: Ring, after: Ring) {
    forall d :: 0 <= d < RING_DEPTH ==> DmaMove(r.records[d], after.records[d])
  }

  // ------------------------------------------------------------- preservation

  lemma TakeFreeOwns(r: Ring, generation: u32, firstPair: u64)
    requires Matched(r)
    ensures var (taken, destination) := TakeFreeBuffer(r, generation, firstPair);
            && taken.slots == r.slots
            && IsDmaDestination(destination)
            && (IsBufferDestination(destination) ==>
                  && r.records[destination].state == Free
                  && taken.records
                     == r.records[destination := BufferRecord(DmaOwned, r.epoch, generation, firstPair, 0)]
                  && forall i :: 0 <= i < SLOT_COUNT ==> !Claims(r.slots[i], destination))
            && (!IsBufferDestination(destination) ==> taken == r)
  {
    var destination := TakeFreeBuffer(r, generation, firstPair).1;
    if IsBufferDestination(destination) {
      forall i | 0 <= i < SLOT_COUNT
        ensures !Claims(r.slots[i], destination)
      {
        assert SlotOwns(r, i);
      }
    }
  }

  lemma ScheduleOwns(r: Ring, generation: u32)
    requires Matched(r)
    ensures Matched(Schedule(r, generation).0)
    ensures OnlyDmaMoves(r, Schedule(r, generation).0)
  {
    TakeFreeOwns(r, generation, r.nextFirstPair);
    var (after, k) := Schedule(r, generation);
    if k == SLOT_COUNT || Find(r.slots, generation) < SLOT_COUNT {
      MarksKeepMatch(r, after);
    } else {
      forall i | 0 <= i < SLOT_COUNT
        ensures SlotOwns(after, i)
      {
        assert SlotOwns(r, i);
      }
      forall i, j | 0 <= i < j < SLOT_COUNT
        ensures Apart(after.slots[i], after.slots[j])
      {
        assert Apart(r.slots[i], r.slots[j]);
        assert !Holds(r.slots[i], generation) && !Holds(r.slots[j], generation);
        assert !Claims(r.slots[i], after.slots[k].destination) || !IsBufferDestination(after.slots[k].destination);
        assert !Claims(r.slots[j], after.slots[k].destination) || !IsBufferDestination(after.slots[k].destination);
      }
      forall d | 0 <= d < RING_DEPTH && after.records[d].state == DmaOwned
        ensures exists i :: 0 <= i < SLOT_COUNT && Claims(after.slots[i], d)
      {
        if d == after.slots[k].destination {
          assert Claims(after.slots[k], d);
        } else {
          assert r.records[d].state == DmaOwned;
          var i :| 0 <= i < SLOT_COUNT && Claims(r.slots[i], d);
          assert i != k && Claims(after.slots[i], d);
        }
      }
    }
  }

  /** Changing nothing of the slots but their marks keeps every buffer matched. */
  lemma MarksKeepMatch(r: Ring, after: Ring)
    requires Matched(r)
    requires after.records == r.records && after.epoch == r.epoch
    requires forall i :: 0 <= i < SLOT_COUNT ==>
      && after.slots[i].valid == r.slots[i].valid
      && after.slots[i].generation == r.slots[i].generation
      && after.slots[i].destination == r.slots[i].destination
      && after.slots[i].firstPair == r.slots[i].firstPair
    ensures Matched(after)
  {
    forall i | 0 <= i < SLOT_COUNT
      ensures SlotOwns(after, i)
    {
      assert SlotOwns(r, i);
    }
    forall i, j | 0 <= i < j < SLOT_COUNT
      ensures Apart(after.slots[i], after.slots[j])
    {
      assert Apart(r.slots[i], r.slots[j]);
    }
    forall d | 0 <= d < RING_DEPTH && after.records[d].state == DmaOwned
      ensures exists i :: 0 <= i < SLOT_COUNT && Claims(after.slots[i], d)
    {
      var i :| 0 <= i < SLOT_COUNT && Claims(r.slots[i], d);
      assert Claims(after.slots[i], d);
    }
  }

  /** Emptying slot `i` and moving its buffer, if any, out of DMA ownership keeps the rest matched. */
  lemma EmptyingKeepsMatch(r: Ring, i: nat, after: Ring, state: BufferState)
    requires Matched(r) && i < SLOT_COUNT && r.slots[i].valid
    requires state == Ready || state == DiscardPending
    requires after.slots == r.slots[i := EMPTY_SLOT] && after.epoch == r.epoch
    requires after.records == if IsBufferDestination(r.slots[i].destination)
                              then r.records[r.slots[i].destination :=
                                     r.records[r.slots[i].destination].(state := state)]
                              else r.records
    ensures Matched(after) && OnlyDmaMoves(r, after)
  {
    assert SlotOwns(r, i);
    forall j | 0 <= j < SLOT_COUNT
      ensures SlotOwns(after, j)
    {
      assert SlotOwns(r, j);
      assert j < i ==> Apart(r.slots[j], r.slots[i]);
      assert i < j ==> Apart(r.slots[i], r.slots[j]);
    }
    forall j, k | 0 <= j < k < SLOT_COUNT
      ensures Apart(after.slots[j], after.slots[k])
    {
      assert Apart(r.slots[j], r.slots[k]);
    }
    forall d | 0 <= d < RING_DEPTH && after.records[d].state == DmaOwned
      ensures exists j :: 0 <= j < SLOT_COUNT && Claims(after.slots[j], d)
    {
      var j :| 0 <= j < SLOT_COUNT && Claims(r.slots[j], d);
      assert Claims(after.slots[j], d);
    }
  }

  /** Finalizing never meets a foreign buffer, and settles the slot by its taint alone. */
  lemma FinalizeOwns(r: Ring, i: nat)
    requires Matched(r) && i < SLOT_COUNT && r.slots[i].valid
    ensures Matched(Finalize(r, i).0)
    ensures OnlyDmaMoves(r, Finalize(r, i).0)
    ensures IsBufferDestination(r.slots[i].destination) ==> OwnershipMatches(r, r.slots[i])
    ensures Finalize(r, i).1.ready == (IsBufferDestination(r.slots[i].destination) && !r.slots[i].invalidData)
    ensures Finalize(r, i).0.progress.invariantErrors == r.progress.invariantErrors
  {
    assert SlotOwns(r, i);
    EmptyingKeepsMatch(r, i, Finalize(r, i).0, if Finalize(r, i).1.ready then Ready else DiscardPending);
  }

  lemma MarkOutstandingOwns(r: Ring)
    requires Matched(r)
    ensures Matched(MarkOutstandingInvalid(r))
  {
    MarksKeepMatch(r, MarkOutstandingInvalid(r));
  }

  lemma ExtendOwns(r: Ring, generation: u32)
    requires Matched(r)
    ensures Matched(Extend(r, generation).0)
    ensures OnlyDmaMoves(r, Extend(r, generation).0)
  {
    ScheduleOwns(r, generation);
    var noted := NoteExhaustion(Schedule(r, generation).0);
    MarksKeepMatch(Schedule(r, generation).0, noted);
    MarkOutstandingOwns(noted);
  }

  lemma EnterOwns(r: Ring, converter: nat, i: nat, destination: u8)
    requires Matched(r) && converter < CONVERTER_COUNT && i < SLOT_COUNT
    ensures Matched(CheckSkew(Enter(r, converter, i, destination)))
  {
    MarksKeepMatch(r, CheckSkew(Enter(r, converter, i, destination)));
  }

  /** Scheduling leaves every slot in use as it is. */
  lemma ExtendKeepsSlot(r: Ring, generation: u32, i: nat)
    requires i < SLOT_COUNT && r.slots[i].valid
    ensures var after := Extend(r, generation).0.slots[i];
            after.(invalidData := r.slots[i].invalidData) == r.slots[i]
  {
  }

  lemma AcceptOwns(r: Ring, converter: nat, i: nat, generation: u32, destination: u8)
    requires Matched(r) && converter < CONVERTER_COUNT && i < SLOT_COUNT && r.slots[i].valid
    ensures Matched(Accept(r, converter, i, generation, destination))
    ensures OnlyDmaMoves(r, Accept(r, converter, i, generation, destination))
  {
    EnterOwns(r, converter, i, destination);
    var checked := CheckSkew(Enter(r, converter, i, destination));
    ExtendOwns(checked, Wrap32(generation + 2));
    ExtendKeepsSlot(checked, Wrap32(generation + 2), i);
    var advanced := Advance(r, converter, i, generation, destination).0;
    if AllConverters(advanced.slots[i].mask) {
      FinalizeOwns(advanced, i);
      var after := Finalize(advanced, i).0;
      forall d | 0 <= d < RING_DEPTH
        ensures DmaMove(r.records[d], after.records[d])
      {
        assert DmaMove(checked.records[d], advanced.records[d]) && DmaMove(advanced.records[d], after.records[d]);
        if checked.records[d] != advanced.records[d] && advanced.records[d] != after.records[d] {
          assert SlotOwns(checked, i);
          assert d == advanced.slots[i].destination == checked.slots[i].destination;
        }
      }
    }
  }

  /** A completion that is not accepted touches neither table. */
  lemma RejectedKeepsTables(r: Ring, converter: u8, epoch: u32, generation: u32, destination: u8)
    requires !Judge(r, converter, epoch, generation).Accepted?
    ensures var after := Complete(r, converter, epoch, generation, destination);
            && after.records == r.records && after.slots == r.slots
            && after.epoch == r.epoch && after.running == r.running
            && after.nextSchedule == r.nextSchedule && after.nextFirstPair == r.nextFirstPair
            && after.pairsPerBuffer == r.pairsPerBuffer && after.nextLease == r.nextLease
  {
  }

  predicate SameRun(r: Ring, after: Ring) {
    && after.epoch == r.epoch
    && after.running == r.running
    && after.pairsPerBuffer == r.pairsPerBuffer
    && after.nextLease == r.nextLease
  }

  lemma ScheduleKeepsRun(r: Ring, generation: u32)
    ensures SameRun(r, Schedule(r, generation).0)
    ensures SameRun(r, Extend(r, generation).0)
  {
  }

  lemma FinalizeKeepsRun(r: Ring, i: nat)
    requires i < SLOT_COUNT
    ensures SameRun(r, Finalize(r, i).0)
  {
  }

  lemma AcceptKeepsRun(r: Ring, converter: nat, i: nat, generation: u32, destination: u8)
    requires converter < CONVERTER_COUNT && i < SLOT_COUNT
    ensures SameRun(r, Accept(r, converter, i, generation, destination))
  {
    var checked := CheckSkew(Enter(r, converter, i, destination));
    assert SameRun(r, checked);
    ScheduleKeepsRun(checked, Wrap32(generation + 2));
    FinalizeKeepsRun(Advance(r, converter, i, generation, destination).0, i);
  }

  lemma CompleteOwns(r: Ring, converter: u8, epoch: u32, generation: u32, destination: u8)
    requires Owned(r)
    ensures Owned(Complete(r, converter, epoch, generation, destination))
    ensures OnlyDmaMoves(r, Complete(r, converter, epoch, generation, destination))
  {
    var after := Complete(r, converter, epoch, generation, destination);
    var verdict := Judge(r, converter, epoch, generation);
    if verdict.Accepted? {
      AcceptOwns(r, converter, verdict.slot, generation, destination);
      AcceptKeepsRun(r, converter, verdict.slot, generation, destination);
    } else {
      RejectedKeepsTables(r, converter, epoch, generation, destination);
      MarksKeepMatch(r, after);
    }
  }

  lemma MarkGenerationOwns(r: Ring, generation: u32, minimumLost: u32)
    requires Owned(r)
    ensures Owned(MarkGenerationInvalid(r, generation, minimumLost))
    ensures MarkGenerationInvalid(r, generation, minimumLost).records == r.records
  {
    MarksKeepMatch(r, MarkGenerationInvalid(r, generation, minimumLost));
  }

  lemma ChargeOwns(r: Ring, mask: u8, converter: nat)
    requires Owned(r) && converter < CONVERTER_COUNT
    ensures Owned(ChargeOverwrite(r, mask, converter))
    ensures ChargeOverwrite(r, mask, converter).records == r.records
  {
    if MaskNames(mask, converter) {
      var counted := r.(progress := r.progress.(
        overwrittenConversions := SaturatingIncrement64(r.progress.overwrittenConversions)));
      MarksKeepMatch(r, counted);
      MarkGenerationOwns(counted, r.nextCompletion.At(converter), 1);
    }
  }

  lemma ErrorsOwn(r: Ring, epoch: u32, mask: u8, flags: bv32, converter: u8)
    requires Owned(r)
    ensures Owned(RecordAdcEtcError(r, epoch, mask, flags))
    ensures Owned(RecordDmaError(r, epoch, converter))
    ensures RecordAdcEtcError(r, epoch, mask, flags).records == r.records
    ensures RecordDmaError(r, epoch, converter).records == r.records
  {
    var noted := NoteEtcEvent(r, mask, flags);
    MarksKeepMatch(r, noted);
    ChargeOwns(noted, mask, 0);
    ChargeOwns(ChargeOverwrite(noted, mask, 0), mask, 1);
    var counted := r.(progress := r.progress.(dmaErrorEvents := SaturatingIncrement32(r.progress.dmaErrorEvents)));
    MarksKeepMatch(r, counted);
    if converter < CONVERTER_COUNT {
      MarkGenerationOwns(counted, r.nextCompletion.At(converter), 0);
    } else {
      MarksKeepMatch(r, NoteInvariantError(r));
    }
  }

  lemma ReserveOwns(r: Ring, epoch: u32, generation: u32)
    requires Owned(r)
    ensures Owned(Reserve(r, epoch, generation).0)
    ensures OnlyDmaMoves(r, Reserve(r, epoch, generation).0)
  {
    ScheduleOwns(r, generation);
  }

  /** Moves of records that neither take from DMA nor give to it keep every slot matched. */
  lemma CpuMovesKeepMatch(r: Ring, after: Ring)
    requires Owned(r)
    requires after.slots == r.slots && after.epoch == r.epoch && after.running == r.running
    requires forall d :: 0 <= d < RING_DEPTH ==>
      || after.records[d] == r.records[d]
      || (r.records[d].state != DmaOwned && after.records[d].state != DmaOwned)
    ensures Owned(after)
  {
    forall i | 0 <= i < SLOT_COUNT
      ensures SlotOwns(after, i)
    {
      assert SlotOwns(r, i);
    }
  }

  predicate Surrendered(before: BufferRecord, after: BufferRecord) {
    after == before || (before.state == DmaOwned && after == before.(state := DiscardPending))
  }

  ghost predicate OnlySurrenders(r: Ring, after: Ring) {
    && after.epoch == r.epoch
    && after.running == r.running
    && after.pairsPerBuffer == r.pairsPerBuffer
    && after.nextLease == r.nextLease
    && after.progress.invariantErrors == r.progress.invariantErrors
    && forall d :: 0 <= d < RING_DEPTH ==> Surrendered(r.records[d], after.records[d])
  }

  lemma HaltSlotOwns(h: Halt, i: nat, channels: Channels)
    requires Matched(h.ring) && i < SLOT_COUNT
    ensures Matched(HaltSlot(h, i, channels).ring)
    ensures OnlySurrenders(h.ring, HaltSlot(h, i, channels).ring)
    ensures HaltSlot(h, i, channels).ring.slots
         == h.ring.slots[i := if h.ring.slots[i].valid then EMPTY_SLOT else h.ring.slots[i]]
  {
    assert SlotOwns(h.ring, i);
    if h.ring.slots[i].valid {
      EmptyingKeepsMatch(h.ring, i, HaltSlot(h, i, channels).ring, DiscardPending);
    }
  }

  lemma {:induction false} HaltSlotsOwn(h: Halt, n: nat, channels: Channels)
    requires Matched(h.ring) && n <= SLOT_COUNT
    ensures Matched(HaltSlots(h, n, channels).ring)
    ensures OnlySurrenders(h.ring, HaltSlots(h, n, channels).ring)
    ensures forall i :: 0 <= i < n ==> !HaltSlots(h, n, channels).ring.slots[i].valid
    ensures forall i :: n <= i < SLOT_COUNT ==> HaltSlots(h, n, channels).ring.slots[i] == h.ring.slots[i]
  {
    if n > 0 {
      HaltSlotsOwn(h, n - 1, channels);
      var before := HaltSlots(h, n - 1, channels);
      HaltSlotOwns(before, n - 1, channels);
      forall d | 0 <= d < RING_DEPTH
        ensures Surrendered(h.ring.records[d], HaltSlots(h, n, channels).ring.records[d])
      {
        assert Surrendered(h.ring.records[d], before.ring.records[d]);
      }
    }
  }

  /** Stopping meets no foreign buffer and leaves DMA nothing: its records either stay or await discarding. */
  lemma StopOwns(r: Ring, channels: Channels, consistent: bool)
    requires Owned(r)
    ensures Owned(Stop(r, channels, consistent).0)
    ensures r.running ==> OnlySurrenders(r.(running := false), Stop(r, channels, consistent).0)
    ensures OnlyDmaMoves(r, Stop(r, channels, consistent).0)
  {
    if r.running {
      var start := Halt(r.(running := false), 0, 0, consistent);
      MarksKeepMatch(r, start.ring);
      HaltSlotsOwn(start, SLOT_COUNT, channels);
      forall d | 0 <= d < RING_DEPTH
        ensures DmaMove(r.records[d], Stop(r, channels, consistent).0.records[d])
      {
        assert Surrendered(r.records[d], Stop(r, channels, consistent).0.records[d]);
      }
    }
  }
}
