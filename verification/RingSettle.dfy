/** What an accepted completion does to the absolute history: it schedules, marks, and settles in order. */
module RingSettle {
  import opened FixedWidth
  import opened RingModel
  import opened RingOwnership
  import opened RingTrack

  predicate SameKeys(a: seq<GenerationSlot>, b: seq<GenerationSlot>) {
    && |a| == |b|
    && forall j :: 0 <= j < |a| ==> a[j].valid == b[j].valid && a[j].generation == b[j].generation
  }

  lemma SearchByKeys(a: seq<GenerationSlot>, b: seq<GenerationSlot>, generation: u32)
    requires SameKeys(a, b)
    ensures Find(a, generation) == Find(b, generation)
    ensures FirstUnused(a) == FirstUnused(b)
  {
    assert forall j :: 0 <= j < |a| ==> Holds(a[j], generation) == Holds(b[j], generation);
  }

  /** `a` is `b` with converter's bit set in slot `i`, its next generation moved on, and any taints and counts. */
  ghost predicate Entered(b: Ring, a: Ring, converter: nat, i: nat)
    requires converter < CONVERTER_COUNT && i < SLOT_COUNT
  {
    && SameRun(b, a)
    && a.records == b.records
    && a.nextSchedule == b.nextSchedule
    && a.nextFirstPair == b.nextFirstPair
    && a.nextCompletion == b.nextCompletion.With(converter, Wrap32(b.nextCompletion.At(converter) + 1))
    && forall j :: 0 <= j < SLOT_COUNT ==>
         a.slots[j].(invalidData := b.slots[j].invalidData)
         == b.slots[j].(mask := if j == i then b.slots[j].mask.With(converter, true) else b.slots[j].mask)
  }

  lemma ReviewedIsEntered(r: Ring, converter: nat, i: nat, destination: u8)
    requires converter < CONVERTER_COUNT && i < SLOT_COUNT
    ensures Entered(r, CheckSkew(Enter(r, converter, i, destination)), converter, i)
    ensures CheckSkew(Enter(r, converter, i, destination)).progress.scheduleExhaustions
         == r.progress.scheduleExhaustions
    ensures CheckSkew(Enter(r, converter, i, destination)).progress.invariantErrors == r.progress.invariantErrors
    ensures CheckSkew(Enter(r, converter, i, destination)).nextFreeSearch == r.nextFreeSearch
  {
  }

  lemma ScheduleIgnoresMarks(r: Ring, c: Ring, converter: nat, i: nat, generation: u32)
    requires converter < CONVERTER_COUNT && i < SLOT_COUNT && r.slots[i].valid
    requires Entered(r, c, converter, i) && c.nextFreeSearch == r.nextFreeSearch
    ensures Schedule(c, generation).1 == Schedule(r, generation).1
    ensures Entered(Schedule(r, generation).0, Schedule(c, generation).0, converter, i)
    ensures MakesSlot(c, generation) == MakesSlot(r, generation)
  {
    SearchByKeys(r.slots, c.slots, generation);
    ScheduleEffect(r, generation);
    ScheduleEffect(c, generation);
    if MakesSlot(r, generation) {
      TakeFreeIgnoresMarks(r, c, generation);
    }
  }

  lemma TakeFreeIgnoresMarks(r: Ring, c: Ring, generation: u32)
    requires r.records == c.records && r.epoch == c.epoch && r.nextFreeSearch == c.nextFreeSearch
    requires r.nextFirstPair == c.nextFirstPair
    ensures TakeFreeBuffer(r, generation, r.nextFirstPair).1 == TakeFreeBuffer(c, generation, c.nextFirstPair).1
    ensures TakeFreeBuffer(r, generation, r.nextFirstPair).0.records
         == TakeFreeBuffer(c, generation, c.nextFirstPair).0.records
  {
  }

  lemma FailureOnlyMarks(a: Ring, b: Ring, converter: nat, i: nat)
    requires converter < CONVERTER_COUNT && i < SLOT_COUNT
    requires Entered(b, a, converter, i)
    ensures Entered(b, MarkOutstandingInvalid(NoteExhaustion(a)), converter, i)
  {
  }

  /** An accepted completion amounts to scheduling on the ring before it, then marking. */
  lemma AdvanceIsEntered(r: Ring, converter: nat, i: nat, generation: u32, destination: u8)
    requires converter < CONVERTER_COUNT && i < SLOT_COUNT && r.slots[i].valid
    ensures var (b, k) := Schedule(r, Wrap32(generation + 2));
            var (a, future) := Advance(r, converter, i, generation, destination);
            && future == k
            && Entered(b, a, converter, i)
            && (a.progress.scheduleExhaustions == 0 <==> r.progress.scheduleExhaustions == 0 && k < SLOT_COUNT)
            && (k < SLOT_COUNT ==> a.progress.scheduleExhaustions == r.progress.scheduleExhaustions)
  {
    var c := CheckSkew(Enter(r, converter, i, destination));
    ReviewedIsEntered(r, converter, i, destination);
    ScheduleIgnoresMarks(r, c, converter, i, Wrap32(generation + 2));
    FailureOnlyMarks(Schedule(c, Wrap32(generation + 2)).0, Schedule(r, Wrap32(generation + 2)).0, converter, i);
  }

  // --------------------------------------------------------------- the numbering

  lemma EnteredIndexed(b: Ring, a: Ring, t: Track, converter: nat, i: nat)
    requires converter < CONVERTER_COUNT && i < SLOT_COUNT
    requires Entered(b, a, converter, i) && b.running
    requires Indexed(b, t)
    ensures Indexed(a, CountDone(t, converter))
  {
    WrapAdd(t.origin, t.done.At(converter), 1);
    forall j | 0 <= j < SLOT_COUNT
      ensures SlotIndexed(a, CountDone(t, converter), j)
    {
      assert SlotIndexed(b, t, j);
    }
  }

  /** Emptying slot `i` onto a buffer that becomes Ready or is discarded keeps the numbering. */
  lemma FinalizeIndexed(a: Ring, t: Track, i: nat)
    requires i < SLOT_COUNT && a.slots[i].valid
    requires Matched(a) && Indexed(a, t)
    ensures Indexed(Finalize(a, i).0, t)
  {
    var after := Finalize(a, i).0;
    assert SlotOwns(a, i) && SlotIndexed(a, t, i);
    FinalizeKeepsRun(a, i);
    forall j | 0 <= j < SLOT_COUNT
      ensures SlotIndexed(after, t, j)
    {
      assert SlotIndexed(a, t, j);
    }
  }

  // ------------------------------------------------------------------- the order

  /** The finished slot is the slower converter's current generation. */
  ghost predicate Current(t: Track, i: nat, converter: nat)
    requires Sized(t) && converter < CONVERTER_COUNT && i < SLOT_COUNT
  {
    t.slotIndex[i] == t.done.At(converter)
  }

  lemma EnteredPlaced(b: Ring, a: Ring, t: Track, converter: nat, i: nat)
    requires converter < CONVERTER_COUNT && i < SLOT_COUNT && Sized(t)
    requires Entered(b, a, converter, i) && b.slots[i].valid && !b.slots[i].mask.At(converter)
    requires Placed(b, t) && t.slotIndex[i] <= t.done.At(converter)
    ensures Placed(a, CountDone(t, converter))
  {
    forall j | 0 <= j < SLOT_COUNT
      ensures a.slots[j].valid == b.slots[j].valid
      ensures a.slots[j].mask == if j == i then b.slots[j].mask.With(converter, true) else b.slots[j].mask
    {
      assert a.slots[j].(invalidData := b.slots[j].invalidData)
          == b.slots[j].(mask := if j == i then b.slots[j].mask.With(converter, true) else b.slots[j].mask);
    }
    var marked := b.slots[i := b.slots[i].(mask := b.slots[i].mask.With(converter, true))];
    OpenUpdate(b.slots, i, marked[i], 0);
    OpenUpdate(b.slots, i, marked[i], 1);
    OpenByMarks(a.slots, marked, 0);
    OpenByMarks(a.slots, marked, 1);
  }

  ghost function Settle(t: Track, n: nat, ready: bool): Track {
    t.(settled := t.settled + [Outcome(n, ready)])
  }

  /** The effect of finalizing a slot that owns what it names. */
  lemma FinalizeEffect(a: Ring, i: nat)
    requires i < SLOT_COUNT && a.slots[i].valid && SlotOwns(a, i)
    ensures var (after, outcome) := Finalize(a, i);
            var slot := a.slots[i];
            && after.slots == a.slots[i := EMPTY_SLOT]
            && outcome.ready == (IsBufferDestination(slot.destination) && !slot.invalidData)
            && after.records == (if IsBufferDestination(slot.destination)
                                 then a.records[slot.destination := a.records[slot.destination].(
                                        state := if outcome.ready then Ready else DiscardPending)]
                                 else a.records)
            && after.progress.scheduleExhaustions == a.progress.scheduleExhaustions
  {
  }

  /** A finished generation lies behind both converters, and no other slot or buffer has its number. */
  lemma FinalizePlaced(a: Ring, t: Track, i: nat)
    requires i < SLOT_COUNT && a.slots[i].valid && Matched(a) && AllConverters(a.slots[i].mask)
    requires Indexed(a, t) && Placed(a, t)
    ensures Placed(Finalize(a, i).0, Settle(t, t.slotIndex[i], Finalize(a, i).1.ready))
  {
    assert SlotOwns(a, i) && SlotIndexed(a, t, i);
    FinalizeEffect(a, i);
    FinalizeKeepsRun(a, i);
    forall j | 0 <= j < SLOT_COUNT && j != i && a.slots[j].valid
      ensures t.slotIndex[j] != t.slotIndex[i]
    {
      assert SlotIndexed(a, t, j);
      assert j < i ==> Apart(a.slots[j], a.slots[i]);
      assert i < j ==> Apart(a.slots[i], a.slots[j]);
    }
    hide Finalize, Matched;
    SettledIsPlaced(a, t, Finalize(a, i).0, Settle(t, t.slotIndex[i], Finalize(a, i).1.ready), i);
  }

  /** Emptying slot `i`, whose buffer may become Ready under the slot's number. */
  lemma SettledIsPlaced(a: Ring, t: Track, after: Ring, t': Track, i: nat)
    requires i < SLOT_COUNT && a.slots[i].valid && AllConverters(a.slots[i].mask)
    requires Sized(t) && Placed(a, t) && t' == t.(settled := t'.settled)
    requires t.slotIndex[i] < t.scheduled
    requires forall j :: 0 <= j < SLOT_COUNT && j != i && a.slots[j].valid ==> t.slotIndex[j] != t.slotIndex[i]
    requires after.slots == a.slots[i := EMPTY_SLOT] && after.running == a.running
    requires forall d :: 0 <= d < RING_DEPTH && after.records[d].state == Ready && a.records[d].state != Ready ==>
      d == a.slots[i].destination && t.bufferIndex[d] == t.slotIndex[i]
    ensures Placed(after, t')
  {
    hide CountOpen;
    OpenUpdate(a.slots, i, EMPTY_SLOT, 0);
    OpenUpdate(a.slots, i, EMPTY_SLOT, 1);
    assert Passed(after, t', 0) && Passed(after, t', 1) && Low(t') == Low(t) && t.slotIndex[i] < Low(t);
    hide Passed;
    assert NoneTwice(after, t');
  }

  // ------------------------------------------------------------------ the window

  ghost predicate BelowWindow(t: Track, i: nat)
    requires Sized(t) && i < SLOT_COUNT
  {
    t.slotIndex[i] + 1 == Low(t)
  }

  /** The window once slot `i`'s generation is finished by both but not yet emptied. */
  ghost predicate WindowBut(r: Ring, t: Track, i: nat)
    requires Sized(t) && i < SLOT_COUNT
  {
    && t.done.adc0 + 2 <= t.scheduled
    && t.done.adc1 + 2 <= t.scheduled
    && r.slots[i].valid && BelowWindow(t, i)
    && CountUsed(r.slots) == t.scheduled - Low(t) + 1
    && (forall j :: 0 <= j < SLOT_COUNT && j != i ==> InWindow(r, t, j))
    && (forall n :: Low(t) <= n < t.scheduled ==> Held(r, t, n))
  }

  lemma EnteredKeepsHeld(b: Ring, a: Ring, t: Track, converter: nat, i: nat, n: nat)
    requires converter < CONVERTER_COUNT && i < SLOT_COUNT && Sized(t)
    requires Entered(b, a, converter, i)
    requires Held(b, t, n)
    ensures Held(a, CountDone(t, converter), n)
  {
    var j :| 0 <= j < SLOT_COUNT && SlotFor(b, t, j, n);
    assert a.slots[j].(invalidData := b.slots[j].invalidData)
        == b.slots[j].(mask := if j == i then b.slots[j].mask.With(converter, true) else b.slots[j].mask);
    assert SlotFor(a, CountDone(t, converter), j, n);
  }

  lemma EnteredWindowed(b: Ring, a: Ring, t: Track, converter: nat, i: nat)
    requires converter < CONVERTER_COUNT && i < SLOT_COUNT
    requires Entered(b, a, converter, i) && b.slots[i].valid && !b.slots[i].mask.At(converter)
    requires Matched(b) && Indexed(b, t) && Windowed(b, t) && Current(t, i, converter)
    requires t.done.At(converter) + 3 <= t.scheduled
    ensures var t' := CountDone(t, converter);
            if AllConverters(a.slots[i].mask) then WindowBut(a, t', i) else Windowed(a, t')
  {
    var t' := CountDone(t, converter);
    forall j | 0 <= j < SLOT_COUNT
      ensures a.slots[j].valid == b.slots[j].valid
      ensures a.slots[j].mask == if j == i then b.slots[j].mask.With(converter, true) else b.slots[j].mask
      ensures j != i && b.slots[j].valid ==> t.slotIndex[j] != t.slotIndex[i]
      ensures InWindow(b, t, j)
    {
      assert a.slots[j].(invalidData := b.slots[j].invalidData)
          == b.slots[j].(mask := if j == i then b.slots[j].mask.With(converter, true) else b.slots[j].mask);
      assert SlotIndexed(b, t, i) && SlotIndexed(b, t, j);
      assert j < i ==> Apart(b.slots[j], b.slots[i]);
      assert i < j ==> Apart(b.slots[i], b.slots[j]);
    }
    CountByValidity(a.slots, b.slots);
    forall n | Low(t') <= n < t'.scheduled
      ensures Held(a, t', n)
    {
      EnteredKeepsHeld(b, a, t, converter, i, n);
    }
  }

  lemma FinalizeWindowed(a: Ring, t: Track, i: nat)
    requires i < SLOT_COUNT && Sized(t) && WindowBut(a, t, i)
    ensures Windowed(Finalize(a, i).0, Settle(t, t.slotIndex[i], Finalize(a, i).1.ready))
  {
    var after := Finalize(a, i).0;
    var t' := Settle(t, t.slotIndex[i], Finalize(a, i).1.ready);
    assert after.slots == a.slots[i := EMPTY_SLOT];
    CountUpdate(a.slots, i, EMPTY_SLOT);
    forall j | 0 <= j < SLOT_COUNT
      ensures InWindow(after, t', j)
    {
      assert j != i ==> InWindow(a, t, j);
    }
    forall n | Low(t') <= n < t'.scheduled
      ensures Held(after, t', n)
    {
      assert Held(a, t, n);
      var j :| 0 <= j < SLOT_COUNT && SlotFor(a, t, j, n);
      assert SlotFor(after, t', j, n);
    }
  }

  lemma FinalizeAccounted(a: Ring, t: Track, i: nat)
    requires i < SLOT_COUNT && a.slots[i].valid && Matched(a) && Indexed(a, t)
    requires |t.settled| == t.slotIndex[i] && Low(t) == t.slotIndex[i] + 1
    requires forall k :: 0 <= k < |t.settled| ==> t.settled[k].index == k
    requires forall k :: 0 <= k < |t.settled| && t.settled[k].ready ==>
      k in t.handed || exists d :: 0 <= d < RING_DEPTH && Waiting(a, t, d, k)
    requires forall n :: n in t.handed ==> n < |t.settled| && t.settled[n].ready
    requires forall d :: 0 <= d < RING_DEPTH && a.records[d].state == Ready ==>
      t.bufferIndex[d] < |t.settled| && t.settled[t.bufferIndex[d]].ready
    ensures Accounted(Finalize(a, i).0, Settle(t, t.slotIndex[i], Finalize(a, i).1.ready))
  {
    assert SlotOwns(a, i) && SlotIndexed(a, t, i);
    var (after, outcome) := Finalize(a, i);
    var t' := Settle(t, t.slotIndex[i], outcome.ready);
    forall k | 0 <= k < |t'.settled| && t'.settled[k].ready
      ensures k in t'.handed || exists d :: 0 <= d < RING_DEPTH && Waiting(after, t', d, k)
    {
      if k == t.slotIndex[i] {
        assert Waiting(after, t', a.slots[i].destination, k);
      } else if k !in t.handed {
        var d :| 0 <= d < RING_DEPTH && Waiting(a, t, d, k);
        assert Waiting(after, t', d, k);
      }
    }
  }
}
