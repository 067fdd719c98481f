/** Absolute numbers behind the ring's 32-bit generations: what is scheduled, completed, settled and handed out. */
module RingTrack {
  import opened FixedWidth
  import opened RingModel
  import opened RingOwnership

  /** A generation both converters have finished, by its number since prime, and whether its buffer became Ready. */
  datatype Outcome = Outcome(index: nat, ready: bool)

  /** History kept beside a run; `done` and `scheduled` count generations since prime. */
  datatype Track = Track(
    origin: u32, base: u64,
    done: PerConverter<nat>, scheduled: nat,
    slotIndex: seq<nat>, bufferIndex: seq<nat>,
    settled: seq<Outcome>, handed: seq<nat>, handles: seq<BufferHandle>)

  ghost function Fresh(origin: u32, base: u64): Track {
    Track(origin, base, PerConverter(0, 0), 0,
          seq(SLOT_COUNT, _ => 0), seq(RING_DEPTH, _ => 0), [], [], [])
  }

  /** The slower converter's next generation. */
  function Low(t: Track): nat {
    Min(t.done.adc0, t.done.adc1)
  }

  /** The first pair of the `n`-th generation since prime. */
  function PairAt(base: u64, pairs: u32, n: nat): u64 {
    if n == 0 then base else SaturatingAdd64(PairAt(base, pairs, n - 1), pairs)
  }

  /** `pairs * n`, by repeated addition. */
  function Times(pairs: nat, n: nat): (product: nat)
    ensures product >= n * (if pairs == 0 then 0 else 1)
    ensures n > 0 ==> product >= pairs
  {
    if n == 0 then 0 else Times(pairs, n - 1) + pairs
  }

  lemma {:induction false} TimesIsProduct(pairs: nat, n: nat)
    ensures Times(pairs, n) == pairs * n
  {
    if n > 0 {
      TimesIsProduct(pairs, n - 1);
    }
  }

  // --------------------------------------------------------- what each step adds

  predicate MakesSlot(r: Ring, generation: u32) {
    && Find(r.slots, generation) == SLOT_COUNT
    && generation == r.nextSchedule
    && FirstUnused(r.slots) < SLOT_COUNT
  }

  ghost predicate Sized(t: Track) {
    |t.slotIndex| == SLOT_COUNT && |t.bufferIndex| == RING_DEPTH && |t.handles| == |t.handed|
  }

  ghost function TrackSchedule(t: Track, r: Ring, generation: u32): Track
    requires Sized(t)
  {
    if !MakesSlot(r, generation) then t
    else
      var k := FirstUnused(r.slots);
      var d := TakeFreeBuffer(r, generation, r.nextFirstPair).1;
      t.(scheduled := t.scheduled + 1,
         slotIndex := t.slotIndex[k := t.scheduled],
         bufferIndex := if IsBufferDestination(d) then t.bufferIndex[d := t.scheduled] else t.bufferIndex)
  }

  ghost function CountDone(t: Track, converter: nat): Track
    requires converter < CONVERTER_COUNT
  {
    t.(done := t.done.With(converter, t.done.At(converter) + 1))
  }

  ghost function TrackAccept(t: Track, r: Ring, converter: nat, i: nat, generation: u32, destination: u8): Track
    requires Sized(t) && converter < CONVERTER_COUNT && i < SLOT_COUNT
  {
    var extended := TrackSchedule(CountDone(t, converter), r, Wrap32(generation + 2));
    var advanced := Advance(r, converter, i, generation, destination).0;
    if AllConverters(advanced.slots[i].mask) then
      extended.(settled := extended.settled + [Outcome(t.slotIndex[i], Finalize(advanced, i).1.ready)])
    else extended
  }

  ghost function TrackComplete(t: Track, r: Ring, converter: u8, epoch: u32, generation: u32, destination: u8): Track
    requires Sized(t)
  {
    match Judge(r, converter, epoch, generation)
    case Unscheduled => CountDone(t, converter)
    case Accepted(i) => TrackAccept(t, r, converter, i, generation, destination)
    case _ => t
  }

  ghost function TrackReserve(t: Track, r: Ring, epoch: u32, generation: u32): Track
    requires Sized(t)
  {
    if Listening(r, epoch) then TrackSchedule(t, r, generation) else t
  }

  ghost function TrackAcquire(t: Track, r: Ring): Track
    requires Sized(t)
  {
    var d := OldestReady(r.records, RING_DEPTH);
    if d < RING_DEPTH then
      t.(handed := t.handed + [t.bufferIndex[d]], handles := t.handles + [Acquire(r).1.handle])
    else t
  }

  ghost function TrackPrime(t: Track, r: Ring, epoch: u32, generation: u32, firstPair: u64, pairs: u32): Track {
    if epoch != 0 && 1 <= pairs <= PAIRS_PER_FRAME && !r.running && AllFree(r.records) then
      var cleared := Cleared(r, epoch, generation, firstPair, pairs);
      TrackSchedule(TrackSchedule(Fresh(generation, firstPair), cleared, generation),
                    Schedule(cleared, generation).0, Wrap32(generation + 1))
    else t
  }

  // ------------------------------------------------------------------ invariants

  /** Slot `i` carries the generation and the pair interval of its number. */
  ghost predicate SlotIndexed(r: Ring, t: Track, i: nat)
    requires Sized(t) && i < SLOT_COUNT
  {
    r.slots[i].valid ==>
      && t.slotIndex[i] < t.scheduled
      && r.slots[i].generation == Wrap32(t.origin + t.slotIndex[i])
      && r.slots[i].firstPair == PairAt(t.base, r.pairsPerBuffer, t.slotIndex[i])
      && (IsBufferDestination(r.slots[i].destination) ==> t.bufferIndex[r.slots[i].destination] == t.slotIndex[i])
  }

  /** The ring's wrapped counters are its absolute ones, wrapped. */
  ghost predicate Indexed(r: Ring, t: Track) {
    && Sized(t)
    && (r.running ==>
          && r.nextSchedule == Wrap32(t.origin + t.scheduled)
          && r.nextFirstPair == PairAt(t.base, r.pairsPerBuffer, t.scheduled)
          && r.nextCompletion.adc0 == Wrap32(t.origin + t.done.adc0)
          && r.nextCompletion.adc1 == Wrap32(t.origin + t.done.adc1))
    && (forall i :: 0 <= i < SLOT_COUNT ==> SlotIndexed(r, t, i))
    && (forall d :: 0 <= d < RING_DEPTH && r.records[d].state == Ready ==>
          r.records[d].firstPair == PairAt(t.base, r.pairsPerBuffer, t.bufferIndex[d]))
    && (forall k :: 0 <= k < |t.handles| ==>
          && t.handles[k].pairCount == r.pairsPerBuffer
          && t.handles[k].firstPair == PairAt(t.base, r.pairsPerBuffer, t.handed[k]) < MAX_64)
  }

  predicate Increasing(s: seq<nat>) {
    forall j, k :: 0 <= j < k < |s| ==> s[j] < s[k]
  }

  predicate IsOpen(slot: GenerationSlot, converter: nat)
    requires converter < CONVERTER_COUNT
  {
    slot.valid && !slot.mask.At(converter)
  }

  /** The slots whose generation `converter` has yet to finish. */
  function CountOpen(slots: seq<GenerationSlot>, converter: nat): (n: nat)
    requires converter < CONVERTER_COUNT
    ensures n <= |slots|
  {
    if |slots| == 0 then 0
    else CountOpen(slots[..|slots| - 1], converter) + (if IsOpen(slots[|slots| - 1], converter) then 1 else 0)
  }

  /** What a converter has finished lies behind it; what is scheduled ahead of it is still open. */
  ghost predicate Passed(r: Ring, t: Track, converter: nat)
    requires Sized(t) && converter < CONVERTER_COUNT
  {
    && (forall i :: 0 <= i < SLOT_COUNT && r.slots[i].valid && r.slots[i].mask.At(converter) ==>
          t.slotIndex[i] < t.done.At(converter))
    && (r.running ==> t.scheduled <= t.done.At(converter) + CountOpen(r.slots, converter))
  }

  /** No generation that waits to be read is also in a slot. */
  ghost predicate NoneTwice(r: Ring, t: Track)
    requires Sized(t)
  {
    forall i, d :: 0 <= i < SLOT_COUNT && r.slots[i].valid && 0 <= d < RING_DEPTH && r.records[d].state == Ready ==>
      t.slotIndex[i] != t.bufferIndex[d]
  }

  /** Both converters are past every generation that waits to be read or has been handed out, and no number is in
      two places. */
  ghost predicate Placed(r: Ring, t: Track)
    requires Sized(t)
  {
    && Passed(r, t, 0)
    && Passed(r, t, 1)
    && (forall k :: 0 <= k < |t.handed| ==> t.handed[k] < Low(t))
    && (forall d :: 0 <= d < RING_DEPTH && r.records[d].state == Ready ==>
          t.bufferIndex[d] < Low(t) && t.bufferIndex[d] < t.scheduled)
    && (forall d, e :: 0 <= d < e < RING_DEPTH && r.records[d].state == Ready && r.records[e].state == Ready ==>
          t.bufferIndex[d] != t.bufferIndex[e])
    && NoneTwice(r, t)
  }

  function CountUsed(slots: seq<GenerationSlot>): (n: nat)
    ensures n <= |slots|
  {
    if |slots| == 0 then 0
    else CountUsed(slots[..|slots| - 1]) + (if slots[|slots| - 1].valid then 1 else 0)
  }

  /** Slot `i`, in use, lies in the window and has been finished by exactly the converters that are past it. */
  ghost predicate InWindow(r: Ring, t: Track, i: nat)
    requires Sized(t) && i < SLOT_COUNT
  {
    r.slots[i].valid ==>
      && Low(t) <= t.slotIndex[i]
      && (r.slots[i].mask.adc0 <==> t.slotIndex[i] < t.done.adc0)
      && (r.slots[i].mask.adc1 <==> t.slotIndex[i] < t.done.adc1)
  }

  ghost predicate SlotFor(r: Ring, t: Track, i: nat, n: nat)
    requires Sized(t) && i < SLOT_COUNT
  {
    r.slots[i].valid && t.slotIndex[i] == n
  }

  ghost predicate Held(r: Ring, t: Track, n: nat)
    requires Sized(t)
  {
    exists i :: 0 <= i < SLOT_COUNT && SlotFor(r, t, i, n)
  }

  /** The slots in use are exactly the generations from the slower converter's next up to the last scheduled. */
  ghost predicate Windowed(r: Ring, t: Track)
    requires Sized(t)
  {
    && t.done.adc0 + 2 <= t.scheduled
    && t.done.adc1 + 2 <= t.scheduled
    && CountUsed(r.slots) == t.scheduled - Low(t)
    && (forall i :: 0 <= i < SLOT_COUNT ==> InWindow(r, t, i))
    && (forall n :: Low(t) <= n < t.scheduled ==> Held(r, t, n))
  }

  ghost predicate Waiting(r: Ring, t: Track, d: nat, n: nat)
    requires Sized(t) && d < RING_DEPTH
  {
    r.records[d].state == Ready && t.bufferIndex[d] == n
  }

  /** Every generation below the window has settled, in turn; the ready ones are handed out or still waiting. */
  ghost predicate Accounted(r: Ring, t: Track)
    requires Sized(t)
  {
    && |t.settled| == Low(t)
    && (forall k :: 0 <= k < |t.settled| ==> t.settled[k].index == k)
    && (forall k :: 0 <= k < |t.settled| && t.settled[k].ready ==>
          k in t.handed || exists d :: 0 <= d < RING_DEPTH && Waiting(r, t, d, k))
    && (forall n :: n in t.handed ==> n < |t.settled| && t.settled[n].ready)
    && (forall d :: 0 <= d < RING_DEPTH && r.records[d].state == Ready ==>
          t.bufferIndex[d] < |t.settled| && t.settled[t.bufferIndex[d]].ready)
  }

  ghost predicate Tracked(r: Ring, t: Track) {
    && Indexed(r, t)
    && Placed(r, t)
    && (r.progress.scheduleExhaustions == 0 ==> Accounted(r, t) && (r.running ==> Windowed(r, t)))
  }

  // ------------------------------------------------------------- pair numbers

  /** Away from saturation, pair numbers lie one buffer apart. */
  lemma {:induction false} PairDistance(base: u64, pairs: u32, a: nat, b: nat)
    requires a <= b && PairAt(base, pairs, b) < MAX_64
    ensures PairAt(base, pairs, b) == PairAt(base, pairs, a) + Times(pairs, b - a)
  {
    if a < b {
      PairDistance(base, pairs, a, b - 1);
    }
  }

  lemma PairOrder(base: u64, pairs: u32, a: nat, b: nat)
    requires 1 <= pairs && PairAt(base, pairs, b) < MAX_64
    ensures a < b ==> PairAt(base, pairs, a) + pairs <= PairAt(base, pairs, b)
    ensures PairAt(base, pairs, b) < PairAt(base, pairs, a) ==> b < a
  {
    if a < b {
      PairDistance(base, pairs, a, b);
    } else if a == b {
    }
  }

  // ------------------------------------------------------------ counting slots

  lemma {:induction false} CountUpdate(slots: seq<GenerationSlot>, i: nat, slot: GenerationSlot)
    requires i < |slots|
    ensures CountUsed(slots[i := slot])
         == CountUsed(slots) - (if slots[i].valid then 1 else 0) + (if slot.valid then 1 else 0)
  {
    var n := |slots| - 1;
    if i == n {
      assert slots[i := slot][..n] == slots[..n];
    } else {
      assert slots[i := slot][..n] == slots[..n][i := slot];
      CountUpdate(slots[..n], i, slot);
    }
  }

  lemma {:induction false} CountByValidity(a: seq<GenerationSlot>, b: seq<GenerationSlot>)
    requires |a| == |b| && forall i :: 0 <= i < |a| ==> a[i].valid == b[i].valid
    ensures CountUsed(a) == CountUsed(b)
  {
    if |a| > 0 {
      CountByValidity(a[..|a| - 1], b[..|b| - 1]);
    }
  }

  /** A table with fewer slots in use than it has holds an unused one, and only such a table does. */
  lemma {:induction false} CountFull(slots: seq<GenerationSlot>)
    ensures CountUsed(slots) == |slots| <==> forall i :: 0 <= i < |slots| ==> slots[i].valid
  {
    var n := |slots| - 1;
    if |slots| > 0 {
      CountFull(slots[..n]);
      if forall i :: 0 <= i < n ==> slots[..n][i].valid {
        assert forall i :: 0 <= i < n ==> slots[i].valid;
      } else {
        var i :| 0 <= i < n && !slots[..n][i].valid;
        assert !slots[i].valid;
      }
    }
  }

  lemma {:induction false} OpenUpdate(slots: seq<GenerationSlot>, i: nat, slot: GenerationSlot, converter: nat)
    requires i < |slots| && converter < CONVERTER_COUNT
    ensures CountOpen(slots[i := slot], converter)
         == CountOpen(slots, converter) - (if IsOpen(slots[i], converter) then 1 else 0)
            + (if IsOpen(slot, converter) then 1 else 0)
  {
    var n := |slots| - 1;
    if i == n {
      assert slots[i := slot][..n] == slots[..n];
    } else {
      assert slots[i := slot][..n] == slots[..n][i := slot];
      OpenUpdate(slots[..n], i, slot, converter);
    }
  }

  lemma {:induction false} OpenByMarks(a: seq<GenerationSlot>, b: seq<GenerationSlot>, converter: nat)
    requires converter < CONVERTER_COUNT
    requires |a| == |b| && forall i :: 0 <= i < |a| ==> IsOpen(a[i], converter) == IsOpen(b[i], converter)
    ensures CountOpen(a, converter) == CountOpen(b, converter)
  {
    if |a| > 0 {
      OpenByMarks(a[..|a| - 1], b[..|b| - 1], converter);
    }
  }

  // ------------------------------------------------ scheduling, seen absolutely

  /** The effect of scheduling, part by part. */
  lemma ScheduleEffect(r: Ring, generation: u32)
    ensures var (after, k) := Schedule(r, generation);
            && SameRun(r, after)
            && after.nextCompletion == r.nextCompletion
            && k == (if MakesSlot(r, generation) then FirstUnused(r.slots) else Find(r.slots, generation))
            && (!MakesSlot(r, generation) ==>
                  && after.slots == r.slots && after.records == r.records && after.nextSchedule == r.nextSchedule
                  && after.nextFirstPair == r.nextFirstPair && after.nextFreeSearch == r.nextFreeSearch)
            && (MakesSlot(r, generation) ==>
                  && after.slots == r.slots[k := GenerationSlot(r.nextFirstPair, generation,
                       TakeFreeBuffer(r, generation, r.nextFirstPair).1, NO_CONVERTER, 0, true, false)]
                  && after.records == TakeFreeBuffer(r, generation, r.nextFirstPair).0.records
                  && after.nextSchedule == Wrap32(generation + 1)
                  && after.nextFirstPair == SaturatingAdd64(r.nextFirstPair, r.pairsPerBuffer))
            && after.progress.scheduleExhaustions == r.progress.scheduleExhaustions
  {
  }

  /** Scheduling a new generation continues the numbering by one. */
  lemma ScheduleIndexed(r: Ring, t: Track, generation: u32)
    requires Matched(r) && r.running && Indexed(r, t)
    ensures Indexed(Schedule(r, generation).0, TrackSchedule(t, r, generation))
  {
    TakeFreeOwns(r, generation, r.nextFirstPair);
    ScheduleEffect(r, generation);
    hide Schedule, TakeFreeBuffer, Matched;
    var after := Schedule(r, generation).0;
    var t' := TrackSchedule(t, r, generation);
    if MakesSlot(r, generation) {
      WrapAdd(t.origin, t.scheduled, 1);
      var d := TakeFreeBuffer(r, generation, r.nextFirstPair).1;
      forall i | 0 <= i < SLOT_COUNT
        ensures SlotIndexed(after, t', i)
      {
        assert SlotIndexed(r, t, i);
        assert IsBufferDestination(d) ==> !Claims(r.slots[i], d);
      }
    } else {
      forall i | 0 <= i < SLOT_COUNT
        ensures SlotIndexed(after, t', i)
      {
        assert SlotIndexed(r, t, i);
      }
    }
  }

  lemma SchedulePassed(r: Ring, t: Track, generation: u32, converter: nat)
    requires Sized(t) && converter < CONVERTER_COUNT && Passed(r, t, converter)
    ensures Passed(Schedule(r, generation).0, TrackSchedule(t, r, generation), converter)
  {
    ScheduleEffect(r, generation);
    var (after, k) := Schedule(r, generation);
    hide Schedule, TakeFreeBuffer, CountOpen;
    if MakesSlot(r, generation) {
      OpenUpdate(r.slots, k, after.slots[k], converter);
    }
  }

  lemma SchedulePlaced(r: Ring, t: Track, generation: u32)
    requires Matched(r) && Indexed(r, t) && Placed(r, t)
    ensures Placed(Schedule(r, generation).0, TrackSchedule(t, r, generation))
  {
    SchedulePassed(r, t, generation, 0);
    SchedulePassed(r, t, generation, 1);
    TakeFreeOwns(r, generation, r.nextFirstPair);
    ScheduleEffect(r, generation);
    hide Schedule, TakeFreeBuffer, Matched, Indexed, Passed;
    var (after, t') := (Schedule(r, generation).0, TrackSchedule(t, r, generation));
    forall d | 0 <= d < RING_DEPTH && after.records[d].state == Ready
      ensures r.records[d].state == Ready && t'.bufferIndex[d] == t.bufferIndex[d]
    {
    }
    assert Low(t') == Low(t) && t'.handed == t.handed;
    hide TrackSchedule, MakesSlot;
    if MakesSlot(r, generation) {
      NewSlotPlaced(r, t, after, t', Schedule(r, generation).1);
    }
  }

  /** The number of a new slot is above everything that waits to be read. */
  lemma NewSlotPlaced(r: Ring, t: Track, after: Ring, t': Track, k: nat)
    requires Sized(t) && Sized(t') && Placed(r, t) && k < SLOT_COUNT
    requires after.slots == r.slots[k := after.slots[k]] && t'.slotIndex == t.slotIndex[k := t.scheduled]
    requires forall d :: 0 <= d < RING_DEPTH && after.records[d].state == Ready ==>
      r.records[d].state == Ready && t'.bufferIndex[d] == t.bufferIndex[d]
    ensures NoneTwice(after, t')
  {
    hide Passed;
  }

  /** The slot a completion in turn finds is its converter's next generation, or one passed at least 2^32 ago. */
  lemma FoundIsPast(r: Ring, t: Track, converter: nat, i: nat)
    requires converter < CONVERTER_COUNT && i < SLOT_COUNT
    requires r.running && Indexed(r, t) && Placed(r, t)
    requires Holds(r.slots[i], r.nextCompletion.At(converter))
    ensures t.slotIndex[i] == t.done.At(converter) || t.slotIndex[i] + TWO_32 <= t.done.At(converter)
  {
    assert SlotIndexed(r, t, i);
    if t.done.At(converter) < t.slotIndex[i] + TWO_32 {
      CloseCountersAgree(t.origin, t.slotIndex[i], t.done.At(converter));
    }
  }

  /** Within a window no wider than the table, equal wrapped generations are equal numbers. */
  lemma WindowUnwraps(r: Ring, t: Track, i: nat, n: nat)
    requires Indexed(r, t) && Windowed(r, t) && i < SLOT_COUNT && r.slots[i].valid
    requires Low(t) <= n <= t.scheduled + 2
    ensures r.slots[i].generation == Wrap32(t.origin + n) <==> t.slotIndex[i] == n
  {
    assert SlotIndexed(r, t, i) && InWindow(r, t, i);
    if r.slots[i].generation == Wrap32(t.origin + n) {
      CloseCountersAgree(t.origin, t.slotIndex[i], n);
    }
  }

  /** The table holds exactly the generations of the window. */
  lemma FindInWindow(r: Ring, t: Track, n: nat)
    requires Indexed(r, t) && Windowed(r, t) && Low(t) <= n <= t.scheduled + 2
    ensures Find(r.slots, Wrap32(t.origin + n)) < SLOT_COUNT <==> n < t.scheduled
    ensures n < t.scheduled ==> SlotFor(r, t, Find(r.slots, Wrap32(t.origin + n)), n)
  {
    var i := Find(r.slots, Wrap32(t.origin + n));
    if i < SLOT_COUNT {
      WindowUnwraps(r, t, i, n);
      assert SlotIndexed(r, t, i);
    }
    if n < t.scheduled {
      assert Held(r, t, n);
      var j :| 0 <= j < SLOT_COUNT && SlotFor(r, t, j, n);
      WindowUnwraps(r, t, j, n);
      assert Holds(r.slots[j], Wrap32(t.origin + n));
    }
  }

  /** A new slot for the generation after the last scheduled widens the window by one. */
  lemma NewSlotWidens(r: Ring, t: Track)
    requires Indexed(r, t) && Windowed(r, t) && r.running
    requires MakesSlot(r, Wrap32(t.origin + t.scheduled))
    ensures Windowed(Schedule(r, Wrap32(t.origin + t.scheduled)).0,
                     TrackSchedule(t, r, Wrap32(t.origin + t.scheduled)))
  {
    var generation := Wrap32(t.origin + t.scheduled);
    var t' := TrackSchedule(t, r, generation);
    var (after, k) := Schedule(r, generation);
    assert after.slots == r.slots[k := after.slots[k]];
    CountUpdate(r.slots, k, after.slots[k]);
    forall i | 0 <= i < SLOT_COUNT
      ensures InWindow(after, t', i)
    {
      assert InWindow(r, t, i);
    }
    forall m | Low(t') <= m < t'.scheduled
      ensures Held(after, t', m)
    {
      if m == t.scheduled {
        assert SlotFor(after, t', k, m);
      } else {
        assert Held(r, t, m);
        var i :| 0 <= i < SLOT_COUNT && SlotFor(r, t, i, m);
        assert SlotFor(after, t', i, m);
      }
    }
  }

  /** Within reach of the window, scheduling fails only when the table is full. */
  lemma ScheduleInWindow(r: Ring, t: Track, n: nat)
    requires r.running && Indexed(r, t) && Windowed(r, t)
    requires Low(t) <= n <= t.scheduled
    ensures var t' := TrackSchedule(t, r, Wrap32(t.origin + n));
            var (after, k) := Schedule(r, Wrap32(t.origin + n));
            && (k < SLOT_COUNT ==> Windowed(after, t') && n < t'.scheduled)
            && (k == SLOT_COUNT <==> n == t.scheduled && t.scheduled - Low(t) == SLOT_COUNT)
            && (k == SLOT_COUNT ==> after == r && t' == t)
            && after.progress == r.progress
  {
    FindInWindow(r, t, n);
    CountFull(r.slots);
    if MakesSlot(r, Wrap32(t.origin + n)) {
      NewSlotWidens(r, t);
    }
  }
}
