/** How a run begins: primed in epoch 1 at generation 0, then the first generation finished by either converter. */
module RingBeginnings {
  import opened FixedWidth
  import opened RingModel
  import opened RingTrack
  import opened RingRuns
  import opened RingHistory

  /** The first generation is scheduled into buffer 0, and generation 2 is next but one in turn. */
  predicate Begun(r: Ring, firstPair: u64, mask: Mask) {
    && r.running && r.epoch == 1
    && r.nextCompletion == PerConverter(if mask.adc0 then 1 else 0, if mask.adc1 then 1 else 0)
    && r.slots[0] == GenerationSlot(firstPair, 0, 0, mask, 0, true, false)
    && r.records[0] == BufferRecord(DmaOwned, 1, 0, firstPair, 0)
    && r.progress.majorLoops == PerConverter(if mask.adc0 then 1 else 0, if mask.adc1 then 1 else 0)
    && (Find(r.slots, 2) < SLOT_COUNT || MakesSlot(r, 2))
  }

  lemma StartIsFree()
    ensures !Run([]).ring.running && AllFree(Run([]).ring.records)
  {
  }

  lemma PrimedBegins(r: Ring, firstPair: u64, pairs: u32)
    requires !r.running && AllFree(r.records) && 1 <= pairs <= PAIRS_PER_FRAME
    ensures Begun(RingModel.Prime(r, 1, 0, firstPair, pairs).0, firstPair, NO_CONVERTER)
  {
    hide RingModel.Prime;
    PrimeSeeds(r, 1, 0, firstPair, pairs);
    PrimedRing(r, 1, 0, firstPair, pairs);
    PrimedTables(r, 1, 0, firstPair, pairs);
    PrimedLoops(r, 1, 0, firstPair, pairs);
    var primed := RingModel.Prime(r, 1, 0, firstPair, pairs).0;
    hide Seeds, Schedule;
    assert forall i :: 0 <= i < SLOT_COUNT ==> !Holds(primed.slots[i], 2);
    assert !primed.slots[2].valid;
  }

  lemma EnteredFirst(r: Ring, converter: nat, firstPair: u64, mask: Mask)
    requires converter < CONVERTER_COUNT && Begun(r, firstPair, mask) && !mask.At(converter)
    ensures Judge(r, converter, 1, 0) == Accepted(0)
    ensures var e := Enter(r, converter, 0, 0);
            && !Skewed(e)
            && e.slots == r.slots[0 := r.slots[0].(mask := mask.With(converter, true))]
            && e.records == r.records && e.nextSchedule == r.nextSchedule
            && (Find(e.slots, 2) < SLOT_COUNT || MakesSlot(e, 2))
  {
    assert Find(r.slots, 0) == 0;
    var e := Enter(r, converter, 0, 0);
    assert forall i :: 0 <= i < SLOT_COUNT ==> Holds(e.slots[i], 2) == Holds(r.slots[i], 2);
    assert forall i :: 0 <= i < SLOT_COUNT ==> e.slots[i].valid == r.slots[i].valid;
  }

  /** The first converter to finish leaves the generation waiting for the other. */
  lemma FirstReport(r: Ring, converter: nat, firstPair: u64)
    requires converter < CONVERTER_COUNT && Begun(r, firstPair, NO_CONVERTER)
    ensures Judge(r, converter, 1, 0) == Accepted(0)
    ensures Begun(RingModel.Complete(r, converter, 1, 0, 0), firstPair, NO_CONVERTER.With(converter, true))
  {
    EnteredFirst(r, converter, firstPair, NO_CONVERTER);
    var e := Enter(r, converter, 0, 0);
    ScheduleEffect(e, 2);
    ScheduleKeepsLoops(e, 2);
    TakenElsewhere(e);
    var b := Schedule(e, 2).0;
    hide Schedule, TakeFreeBuffer, Find, FirstUnused;
    assert MakesSlot(e, 2) ==> Holds(b.slots[FirstUnused(e.slots)], 2);
  }

  /** A buffer in use is not taken. */
  lemma TakenElsewhere(r: Ring)
    requires r.records[0].state != Free
    ensures TakeFreeBuffer(r, 2, r.nextFirstPair).0.records[0] == r.records[0]
  {
  }

  /** The second converter to finish publishes buffer 0. */
  lemma SecondReport(r: Ring, converter: nat, firstPair: u64)
    requires converter < CONVERTER_COUNT && Begun(r, firstPair, NO_CONVERTER.With(1 - converter, true))
    ensures Judge(r, converter, 1, 0) == Accepted(0)
    ensures var after := RingModel.Complete(r, converter, 1, 0, 0);
            after.records[0] == BufferRecord(Ready, 1, 0, firstPair, 0) && !after.slots[0].valid
  {
    EnteredFirst(r, converter, firstPair, NO_CONVERTER.With(1 - converter, true));
    var e := Enter(r, converter, 0, 0);
    ScheduleEffect(e, 2);
    TakenElsewhere(e);
    hide Schedule, TakeFreeBuffer;
  }
}
