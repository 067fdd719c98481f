/** A run whose handles come out of order: three generations that one converter passes and only the other finishes
    stay in the table for 2^32 generations, until the first converter's counter comes round to them. */
module RingOvertaking {
  import opened FixedWidth
  import opened RingModel
  import opened RingOwnership
  import opened RingTrack
  import opened RingSettle
  import opened RingRuns
  import opened RingOrder
  import opened RingHistory
  import opened RingBeginnings
  import opened RingTurns

  // ------------------------------------------------------- pictures of the table

  /** What matters of a slot here: its number since prime, who has finished it, its taint, a buffer to write. */
  datatype Cell = Vacant | Cell(n: nat, mask: Mask, clean: bool, stored: bool)

  datatype Picture = Picture(cells: seq<Cell>, done: PerConverter<nat>, scheduled: nat, loops: PerConverter<nat>)

  ghost predicate Shows(r: Ring, t: Track, i: nat, cell: Cell)
    requires Sized(t) && i < SLOT_COUNT
  {
    match cell
    case Vacant => !r.slots[i].valid
    case Cell(n, mask, clean, stored) =>
      && r.slots[i].valid
      && t.slotIndex[i] == n
      && r.slots[i].mask == mask
      && r.slots[i].invalidData == !clean
      && (stored ==> IsBufferDestination(r.slots[i].destination))
  }

  ghost predicate Depicts(p: Picture, r: Ring, t: Track) {
    && Sized(t)
    && r.running && r.epoch == 1 && t.origin == 0
    && t.done == p.done
    && t.scheduled == p.scheduled
    && r.progress.majorLoops.adc0 == p.loops.adc0
    && r.progress.majorLoops.adc1 == p.loops.adc1
    && |p.cells| == SLOT_COUNT
    && forall i :: 0 <= i < SLOT_COUNT ==> Shows(r, t, i, p.cells[i])
  }

  predicate Names(cell: Cell, n: nat) {
    cell.Cell? && Wrap32(cell.n) == Wrap32(n)
  }

  /** Scheduling generation `n` ends at cell `k`: found there, made there, or refused when there is no such cell. */
  predicate LandsAt(p: Picture, n: nat, k: nat)
    requires |p.cells| == SLOT_COUNT && k <= SLOT_COUNT
  {
    if k < SLOT_COUNT && p.cells[k].Cell? then Names(p.cells[k], n)
    else
      && (forall j :: 0 <= j < SLOT_COUNT ==> !Names(p.cells[j], n))
      && if k < SLOT_COUNT then
           Wrap32(p.scheduled) == Wrap32(n) && forall j :: 0 <= j < k ==> p.cells[j].Cell?
         else
           Wrap32(p.scheduled) != Wrap32(n) || forall j :: 0 <= j < SLOT_COUNT ==> p.cells[j].Cell?
  }

  predicate MakesCell(p: Picture, k: nat)
    requires |p.cells| == SLOT_COUNT && k <= SLOT_COUNT
  {
    k < SLOT_COUNT && p.cells[k].Vacant?
  }

  function Faded(cells: seq<Cell>): (faded: seq<Cell>)
    ensures |faded| == |cells|
    ensures forall i :: 0 <= i < |cells| ==>
      faded[i] == if cells[i].Vacant? then Vacant else cells[i].(clean := false)
  {
    seq(|cells|, i requires 0 <= i < |cells| => if cells[i].Vacant? then Vacant else cells[i].(clean := false))
  }

  function Finished(cell: Cell, converter: nat): Cell
    requires cell.Cell? && converter < CONVERTER_COUNT
  {
    if AllConverters(cell.mask.With(converter, true)) then Vacant
    else cell.(mask := cell.mask.With(converter, true))
  }

  /** The cell with the converter's mark, if it is the one being reported. */
  function Entering(cell: Cell, converter: nat, reported: bool): Cell
    requires converter < CONVERTER_COUNT
  {
    if reported && cell.Cell? then cell.(mask := cell.mask.With(converter, true)) else cell
  }

  predicate DriftsApart(p: Picture, converter: nat)
    requires converter < CONVERTER_COUNT
  {
    Distance(p.loops.At(converter) + 1, p.loops.At(1 - converter)) > 1
  }

  /** The picture after scheduling ended at cell `k`; `free` tells that a buffer was free. */
  function Scheduled(p: Picture, k: nat, free: bool): Picture
    requires |p.cells| == SLOT_COUNT && k <= SLOT_COUNT
  {
    if MakesCell(p, k) then
      p.(cells := p.cells[k := Cell(p.scheduled, NO_CONVERTER, true, free)], scheduled := p.scheduled + 1)
    else p
  }

  /** What a drift or a failed look-ahead taints, then the look-ahead itself. */
  function Extended(p: Picture, converter: nat, k: nat, free: bool): (q: Picture)
    requires |p.cells| == SLOT_COUNT && k <= SLOT_COUNT && converter < CONVERTER_COUNT
  {
    Scheduled(if DriftsApart(p, converter) || k == SLOT_COUNT then p.(cells := Faded(p.cells)) else p, k, free)
  }

  /** The picture after `converter` has finished cell `i` and its look-ahead has ended at cell `k`. */
  function Reported(p: Picture, converter: nat, i: nat, k: nat, free: bool): (q: Picture)
    requires |p.cells| == SLOT_COUNT && k <= SLOT_COUNT && i < SLOT_COUNT && converter < CONVERTER_COUNT
    requires p.cells[i].Cell?
    ensures |q.cells| == SLOT_COUNT
  {
    var extended := Extended(p, converter, k, free);
    extended.(cells := extended.cells[i := Finished(extended.cells[i], converter)],
              done := p.done.With(converter, p.done.At(converter) + 1),
              loops := p.loops.With(converter, p.loops.At(converter) + 1))
  }

  // --------------------------------------------------------- the ring follows

  predicate SomeFree(r: Ring) {
    exists d :: 0 <= d < RING_DEPTH && r.records[d].state == Free
  }

  lemma NamesIsHolds(p: Picture, r: Ring, t: Track, n: nat, j: nat)
    requires Depicts(p, r, t) && Indexed(r, t) && j < SLOT_COUNT
    ensures Names(p.cells[j], n) <==> Holds(r.slots[j], Wrap32(n))
  {
    assert SlotIndexed(r, t, j) && Shows(r, t, j, p.cells[j]);
  }

  lemma FindsCell(p: Picture, r: Ring, t: Track, n: nat, i: nat)
    requires Depicts(p, r, t) && Indexed(r, t) && Matched(r) && i < SLOT_COUNT && Names(p.cells[i], n)
    ensures Find(r.slots, Wrap32(n)) == i
  {
    NamesIsHolds(p, r, t, n, i);
    var j := Find(r.slots, Wrap32(n));
    assert j < i ==> Apart(r.slots[j], r.slots[i]);
  }

  lemma LandsThere(p: Picture, r: Ring, t: Track, n: nat, k: nat)
    requires Depicts(p, r, t) && Indexed(r, t) && Matched(r) && k <= SLOT_COUNT && LandsAt(p, n, k)
    ensures Schedule(r, Wrap32(n)).1 == k
    ensures MakesSlot(r, Wrap32(n)) <==> MakesCell(p, k)
    ensures Schedulable(r, Wrap32(n)) <==> k < SLOT_COUNT
  {
    ScheduleEffect(r, Wrap32(n));
    forall j | 0 <= j < SLOT_COUNT
      ensures Names(p.cells[j], n) <==> Holds(r.slots[j], Wrap32(n))
      ensures p.cells[j].Cell? <==> r.slots[j].valid
    {
      NamesIsHolds(p, r, t, n, j);
      assert Shows(r, t, j, p.cells[j]);
    }
    hide Schedule, Matched, Indexed, Shows;
    if k < SLOT_COUNT && p.cells[k].Cell? {
      FindsCell(p, r, t, n, k);
    }
  }

  /** A free buffer is found and taken. */
  lemma FreeIsTaken(r: Ring, generation: u32)
    requires SomeFree(r)
    ensures IsBufferDestination(TakeFreeBuffer(r, generation, r.nextFirstPair).1)
  {
    if FreeAttempt(r.records, r.nextFreeSearch) == RING_DEPTH {
      NoAttemptMeansNoneFree(r.records, r.nextFreeSearch);
    }
  }

  lemma ScheduledShows(p: Picture, r: Ring, t: Track, n: nat, k: nat, free: bool, j: nat)
    requires Depicts(p, r, t) && Indexed(r, t) && Matched(r) && k <= SLOT_COUNT && LandsAt(p, n, k)
    requires free ==> SomeFree(r)
    requires j < SLOT_COUNT
    ensures Shows(Schedule(r, Wrap32(n)).0, TrackSchedule(t, r, Wrap32(n)), j, Scheduled(p, k, free).cells[j])
  {
    LandsThere(p, r, t, n, k);
    ScheduleEffect(r, Wrap32(n));
    if free {
      FreeIsTaken(r, Wrap32(n));
    }
    assert Shows(r, t, j, p.cells[j]);
    hide Schedule, TakeFreeBuffer, Matched, Indexed;
  }

  lemma ReservedIsDepicted(p: Picture, r: Ring, t: Track, n: nat, k: nat, free: bool)
    requires Depicts(p, r, t) && Tracked(r, t) && Owned(r) && k < SLOT_COUNT && LandsAt(p, n, k)
    requires free ==> SomeFree(r)
    ensures Depicts(Scheduled(p, k, free), RingModel.Reserve(r, 1, Wrap32(n)).0, TrackReserve(t, r, 1, Wrap32(n)))
  {
    LandsThere(p, r, t, n, k);
    ScheduleKeepsRun(r, Wrap32(n));
    ScheduleKeepsLoops(r, Wrap32(n));
    var (after, t') := (Schedule(r, Wrap32(n)).0, TrackSchedule(t, r, Wrap32(n)));
    forall j | 0 <= j < SLOT_COUNT
      ensures Shows(after, t', j, Scheduled(p, k, free).cells[j])
    {
      ScheduledShows(p, r, t, n, k, free, j);
    }
    hide Schedule, Shows;
  }

  /** A slot made by the look-ahead starts untainted. */
  lemma NewSlotIsClean(r: Ring, converter: nat, i: nat, generation: u32, destination: u8)
    requires converter < CONVERTER_COUNT && i < SLOT_COUNT && r.slots[i].valid && MakesSlot(r, Wrap32(generation + 2))
    ensures !Advance(r, converter, i, generation, destination).0.slots[FirstUnused(r.slots)].invalidData
  {
    var c := CheckSkew(Enter(r, converter, i, destination));
    ReviewedIsEntered(r, converter, i, destination);
    ScheduleIgnoresMarks(r, c, converter, i, Wrap32(generation + 2));
    ScheduleEffect(r, Wrap32(generation + 2));
    ScheduleEffect(c, Wrap32(generation + 2));
    hide Enter, CheckSkew, Schedule;
  }

  /** Converter `converter` reports cell `i`, into the destination the slot has, with the look-ahead ending at `k`. */
  ghost predicate MayReport(p: Picture, r: Ring, t: Track, converter: nat, i: nat, k: nat, free: bool) {
    && converter < CONVERTER_COUNT && i < SLOT_COUNT && k <= SLOT_COUNT
    && Depicts(p, r, t) && Tracked(r, t) && Owned(r)
    && Names(p.cells[i], p.done.At(converter)) && !p.cells[i].mask.At(converter)
    && LandsAt(p, p.done.At(converter) + 2, k)
    && p.loops.At(converter) < MAX_64
    && (free ==> SomeFree(r))
  }

  lemma ReportIsAccepted(p: Picture, r: Ring, t: Track, converter: nat, i: nat, k: nat, free: bool)
    requires MayReport(p, r, t, converter, i, k, free)
    ensures r.nextCompletion.At(converter) == Wrap32(p.done.At(converter))
    ensures Holds(r.slots[i], Wrap32(p.done.At(converter)))
    ensures Judge(r, converter, 1, Wrap32(p.done.At(converter))) == Accepted(i)
    ensures DestinationAgrees(r.slots[i], r.slots[i].destination)
    ensures Drifts(r, converter) <==> DriftsApart(p, converter)
  {
    FindsCell(p, r, t, p.done.At(converter), i);
    assert SlotOwns(r, i) && Shows(r, t, i, p.cells[i]);
    hide LandsAt, Wrap32;
  }

  /** The ring and the history with just the look-ahead of a report made, and the ring before it settles. */
  function LookedAhead(p: Picture, r: Ring, converter: nat): Ring
    requires converter < CONVERTER_COUNT
  {
    Schedule(r, Wrap32(p.done.At(converter) + 2)).0
  }

  ghost function TrackedAhead(p: Picture, r: Ring, t: Track, converter: nat): Track
    requires Sized(t) && converter < CONVERTER_COUNT
  {
    TrackSchedule(t, r, Wrap32(p.done.At(converter) + 2))
  }

  function Advanced(p: Picture, r: Ring, converter: nat, i: nat): Ring
    requires converter < CONVERTER_COUNT && i < SLOT_COUNT
  {
    Advance(r, converter, i, Wrap32(p.done.At(converter)), r.slots[i].destination).0
  }

  lemma TrackedIsIndexed(r: Ring, t: Track)
    requires Tracked(r, t)
    ensures Indexed(r, t)
  {
  }

  /** What finishing slot `i` makes of slot `j`, beside what the look-ahead does. */
  lemma AdvancedSlot(p: Picture, r: Ring, converter: nat, i: nat, j: nat)
    requires converter < CONVERTER_COUNT && i < SLOT_COUNT && r.slots[i].valid && j < SLOT_COUNT
    ensures var (a, b) := (Advanced(p, r, converter, i).slots[j], LookedAhead(p, r, converter).slots[j]);
            a.(invalidData := b.invalidData) == b.(mask := if j == i then b.mask.With(converter, true) else b.mask)
  {
    hide Advance, Schedule, Wrap32;
    var generation: u32 := Wrap32(p.done.At(converter));
    WrapAdd(0, p.done.At(converter), 2);
    AdvanceIsEntered(r, converter, i, generation, r.slots[i].destination);
  }

  lemma AdvancedTaint(p: Picture, r: Ring, t: Track, converter: nat, i: nat, k: nat, free: bool, j: nat)
    requires MayReport(p, r, t, converter, i, k, free) && j < SLOT_COUNT && p.cells[j].Cell?
    ensures Advanced(p, r, converter, i).slots[j].invalidData <==>
              !p.cells[j].clean || DriftsApart(p, converter) || k == SLOT_COUNT
  {
    hide Advance, Schedule, Schedulable, Drifts, DriftsApart, Judge, LandsAt, Tracked, Wrap32, MakesSlot;
    ReportIsAccepted(p, r, t, converter, i, k, free);
    var n := p.done.At(converter);
    var generation: u32, destination: u8 := Wrap32(n), r.slots[i].destination;
    WrapAdd(0, n, 2);
    TrackedIsIndexed(r, t);
    LandsThere(p, r, t, n + 2, k);
    assert Shows(r, t, j, p.cells[j]);
    AdvanceTaints(r, converter, i, generation, destination, j);
  }

  lemma AdvancedNewSlot(p: Picture, r: Ring, t: Track, converter: nat, i: nat, k: nat, free: bool)
    requires MayReport(p, r, t, converter, i, k, free) && MakesCell(p, k)
    ensures !Advanced(p, r, converter, i).slots[k].invalidData
  {
    hide Advance, Schedule, Schedulable, Drifts, DriftsApart, Judge, LandsAt, Tracked, Wrap32, MakesSlot;
    ReportIsAccepted(p, r, t, converter, i, k, free);
    var n := p.done.At(converter);
    var generation: u32, destination: u8 := Wrap32(n), r.slots[i].destination;
    WrapAdd(0, n, 2);
    TrackedIsIndexed(r, t);
    LandsThere(p, r, t, n + 2, k);
    ScheduleEffect(r, Wrap32(n + 2));
    NewSlotIsClean(r, converter, i, generation, destination);
  }

  lemma AdvancedShows(p: Picture, r: Ring, t: Track, converter: nat, i: nat, k: nat, free: bool, j: nat)
    requires MayReport(p, r, t, converter, i, k, free) && j < SLOT_COUNT
    ensures Shows(Advanced(p, r, converter, i), TrackedAhead(p, r, t, converter), j,
                  Entering(Extended(p, converter, k, free).cells[j], converter, j == i))
  {
    ScheduledShows(p, r, t, p.done.At(converter) + 2, k, free, j);
    assert Shows(r, t, i, p.cells[i]);
    AdvancedSlot(p, r, converter, i, j);
    if p.cells[j].Cell? {
      AdvancedTaint(p, r, t, converter, i, k, free, j);
    } else if MakesCell(p, k) && j == k {
      AdvancedNewSlot(p, r, t, converter, i, k, free);
    }
    TrackScheduleCounts(t, r, Wrap32(p.done.At(converter) + 2));
    var (a, b, tb) := (Advanced(p, r, converter, i), LookedAhead(p, r, converter), TrackedAhead(p, r, t, converter));
    hide Advanced, Tracked, Owned, LandsAt, Wrap32, Shows, Scheduled, Extended, Schedule, TrackSchedule;
    EnteredShows(p, a, b, tb, converter, i, k, free, j);
  }

  /** Marking and tainting slot `j` does to the picture what it does to the slot. */
  lemma EnteredShows(p: Picture, a: Ring, b: Ring, t: Track, converter: nat, i: nat, k: nat, free: bool, j: nat)
    requires converter < CONVERTER_COUNT && i < SLOT_COUNT && j < SLOT_COUNT && k <= SLOT_COUNT && Sized(t)
    requires |p.cells| == SLOT_COUNT && p.cells[i].Cell?
    requires Shows(b, t, j, Scheduled(p, k, free).cells[j])
    requires a.slots[j].(invalidData := b.slots[j].invalidData)
          == b.slots[j].(mask := if j == i then b.slots[j].mask.With(converter, true) else b.slots[j].mask)
    requires p.cells[j].Cell? ==>
      (a.slots[j].invalidData <==> !p.cells[j].clean || DriftsApart(p, converter) || k == SLOT_COUNT)
    requires MakesCell(p, k) && j == k ==> !a.slots[j].invalidData
    ensures Shows(a, t, j, Entering(Extended(p, converter, k, free).cells[j], converter, j == i))
  {
  }

  /** Emptying the slot both have finished leaves its cell vacant. */
  lemma SettledShows(p: Picture, a: Ring, t: Track, converter: nat, i: nat, k: nat, free: bool, j: nat)
    requires converter < CONVERTER_COUNT && i < SLOT_COUNT && j < SLOT_COUNT && k <= SLOT_COUNT && Sized(t)
    requires |p.cells| == SLOT_COUNT && p.cells[i].Cell?
    requires Shows(a, t, i, Entering(Extended(p, converter, k, free).cells[i], converter, true))
    requires Shows(a, t, j, Entering(Extended(p, converter, k, free).cells[j], converter, j == i))
    ensures AllConverters(a.slots[i].mask) && j == i ==> Reported(p, converter, i, k, free).cells[j] == Vacant
    ensures !(AllConverters(a.slots[i].mask) && j == i) ==> Shows(a, t, j, Reported(p, converter, i, k, free).cells[j])
  {
  }

  /** The report's arguments: the generation due, and the destination its slot has. */
  predicate Reports(p: Picture, r: Ring, converter: nat, i: nat, generation: u32, destination: u8)
    requires converter < CONVERTER_COUNT && i < SLOT_COUNT
  {
    generation == Wrap32(p.done.At(converter)) && destination == r.slots[i].destination
  }

  lemma ReportedShows(p: Picture, r: Ring, t: Track, converter: nat, i: nat, k: nat, free: bool,
                      generation: u32, destination: u8, j: nat)
    requires MayReport(p, r, t, converter, i, k, free) && Reports(p, r, converter, i, generation, destination)
    requires j < SLOT_COUNT
    ensures Shows(Accept(r, converter, i, generation, destination),
                  TrackAccept(t, r, converter, i, generation, destination), j,
                  Reported(p, converter, i, k, free).cells[j])
  {
    hide Advance, Schedule, TrackSchedule, Accept, TrackAccept, Finalize, Tracked, Judge, Drifts, DriftsApart,
      LandsAt, Wrap32, Extended, Reported, Entering;
    ReportIsAccepted(p, r, t, converter, i, k, free);
    AcceptParts(r, t, converter, i, generation, destination);
    WrapAdd(0, p.done.At(converter), 2);
    AdvancedShows(p, r, t, converter, i, k, free, j);
    AdvancedShows(p, r, t, converter, i, k, free, i);
    var (a, tb) := (Advanced(p, r, converter, i), TrackedAhead(p, r, t, converter));
    assert SlotOwns(a, i) && a.slots[i].valid;
    FinalizeEffect(a, i);
    SettledShows(p, a, tb, converter, i, k, free, j);
  }

  lemma ReportedIsDepicted(p: Picture, r: Ring, t: Track, converter: nat, i: nat, k: nat, free: bool,
                           generation: u32, destination: u8)
    requires MayReport(p, r, t, converter, i, k, free) && Reports(p, r, converter, i, generation, destination)
    ensures Depicts(Reported(p, converter, i, k, free), RingModel.Complete(r, converter, 1, generation, destination),
                    TrackComplete(t, r, converter, 1, generation, destination))
  {
    ReportIsAccepted(p, r, t, converter, i, k, free);
    ReportedCounts(p, r, t, converter, i, k, free, generation, destination);
    forall j | 0 <= j < SLOT_COUNT
      ensures Shows(Accept(r, converter, i, generation, destination),
                    TrackAccept(t, r, converter, i, generation, destination), j,
                    Reported(p, converter, i, k, free).cells[j])
    {
      ReportedShows(p, r, t, converter, i, k, free, generation, destination, j);
    }
    hide Accept, TrackAccept, Judge, Shows, MayReport, Wrap32, Reported;
  }

  lemma ReportedCounts(p: Picture, r: Ring, t: Track, converter: nat, i: nat, k: nat, free: bool,
                       generation: u32, destination: u8)
    requires MayReport(p, r, t, converter, i, k, free) && Reports(p, r, converter, i, generation, destination)
    ensures var after := Accept(r, converter, i, generation, destination);
            var t' := TrackAccept(t, r, converter, i, generation, destination);
            var q := Reported(p, converter, i, k, free);
            && Sized(t') && t'.origin == 0 && t'.done == q.done && t'.scheduled == q.scheduled
            && after.running && after.epoch == 1
            && after.progress.majorLoops.adc0 == q.loops.adc0 && after.progress.majorLoops.adc1 == q.loops.adc1
  {
    hide Accept, TrackAccept, Shows, Tracked, LandsAt, Wrap32, MakesSlot, Schedulable, Schedule, Reported;
    AcceptKeepsRun(r, converter, i, generation, destination);
    AcceptCountsLoop(r, converter, i, generation, destination);
    TrackAcceptCounts(t, r, converter, i, generation, destination);
    WrapAdd(0, p.done.At(converter), 2);
    TrackedIsIndexed(r, t);
    LandsThere(p, r, t, p.done.At(converter) + 2, k);
    ReportedFields(p, converter, i, k, free);
  }

  lemma ReportedFields(p: Picture, converter: nat, i: nat, k: nat, free: bool)
    requires |p.cells| == SLOT_COUNT && k <= SLOT_COUNT && i < SLOT_COUNT && converter < CONVERTER_COUNT
    requires p.cells[i].Cell?
    ensures var q := Reported(p, converter, i, k, free);
            && q.done == p.done.With(converter, p.done.At(converter) + 1)
            && q.loops == p.loops.With(converter, p.loops.At(converter) + 1)
            && q.scheduled == p.scheduled + (if MakesCell(p, k) then 1 else 0)
  {
  }

  lemma TrackAcceptCounts(t: Track, r: Ring, converter: nat, i: nat, generation: u32, destination: u8)
    requires Sized(t) && converter < CONVERTER_COUNT && i < SLOT_COUNT
    ensures var t' := TrackAccept(t, r, converter, i, generation, destination);
            && Sized(t') && t'.origin == t.origin
            && t'.done == t.done.With(converter, t.done.At(converter) + 1)
            && t'.scheduled == t.scheduled + (if MakesSlot(r, Wrap32(generation + 2)) then 1 else 0)
  {
    TrackScheduleCounts(t, r, Wrap32(generation + 2));
    AcceptSettles(r, t, converter, i, generation, destination);
    hide Advance, Finalize, MakesSlot, TrackSchedule, TrackAccept, Accept;
  }

  lemma TrackScheduleCounts(t: Track, r: Ring, generation: u32)
    requires Sized(t)
    ensures var t' := TrackSchedule(t, r, generation);
            && Sized(t') && t'.origin == t.origin && t'.done == t.done
            && t'.scheduled == t.scheduled + (if MakesSlot(r, generation) then 1 else 0)
  {
  }

  lemma AcceptCountsLoop(r: Ring, converter: nat, i: nat, generation: u32, destination: u8)
    requires converter < CONVERTER_COUNT && i < SLOT_COUNT && r.progress.majorLoops.At(converter) < MAX_64
    ensures Accept(r, converter, i, generation, destination).progress.majorLoops
         == r.progress.majorLoops.With(converter, r.progress.majorLoops.At(converter) + 1)
  {
    var c := CheckSkew(Enter(r, converter, i, destination));
    assert c.progress.majorLoops == r.progress.majorLoops.With(converter, r.progress.majorLoops.At(converter) + 1);
    ScheduleKeepsLoops(c, Wrap32(generation + 2));
    FinalizeKeepsLoops(Advance(r, converter, i, generation, destination).0, i);
  }

  lemma FinalizeKeepsLoops(r: Ring, i: nat)
    requires i < SLOT_COUNT
    ensures Finalize(r, i).0.progress.majorLoops == r.progress.majorLoops
  {
  }

  // ------------------------------------------------------------- steps of a run

  /** No buffer is waiting to be read or with the CPU. */
  predicate Unread(r: Ring) {
    forall d :: 0 <= d < RING_DEPTH ==> r.records[d].state in {Free, DmaOwned, DiscardPending}
  }

  /** The run, primed with generation and pair 0 and one pair to a buffer, has come to the picture. */
  ghost predicate Reaches(events: seq<Event>, p: Picture) {
    && Depicts(p, Run(events).ring, TrackRun(events))
    && Run(events).ring.pairsPerBuffer == 1
    && TrackRun(events).base == 0
  }

  predicate CanReport(p: Picture, converter: nat, i: nat, k: nat) {
    && |p.cells| == SLOT_COUNT && converter < CONVERTER_COUNT && i < SLOT_COUNT && k <= SLOT_COUNT
    && Names(p.cells[i], p.done.At(converter)) && !p.cells[i].mask.At(converter)
    && LandsAt(p, p.done.At(converter) + 2, k)
    && p.loops.At(converter) < MAX_64
  }

  lemma ReportingKeepsUnread(p: Picture, r: Ring, t: Track, converter: nat, i: nat, k: nat, free: bool,
                             generation: u32, destination: u8)
    requires MayReport(p, r, t, converter, i, k, free) && Reports(p, r, converter, i, generation, destination)
    requires Unread(r) && !(p.cells[i].mask.At(1 - converter) && p.cells[i].clean)
    ensures Unread(RingModel.Complete(r, converter, 1, generation, destination))
  {
    hide Advance, Accept, TrackAccept, Judge, Drifts, DriftsApart, LandsAt, Wrap32, Schedulable;
    ReportIsAccepted(p, r, t, converter, i, k, free);
    assert Shows(r, t, i, p.cells[i]);
    TrackedIsIndexed(r, t);
    AcceptReady(r, t, converter, i, generation, destination);
    AcceptOwns(r, converter, i, generation, destination);
    var after := Accept(r, converter, i, generation, destination);
    forall d | 0 <= d < RING_DEPTH
      ensures after.records[d].state in {Free, DmaOwned, DiscardPending}
    {
      assert DmaMove(r.records[d], after.records[d]);
    }
  }

  lemma ReportStep(events: seq<Event>, p: Picture, converter: nat, i: nat, k: nat, free: bool)
    returns (after: seq<Event>)
    requires Reaches(events, p) && CanReport(p, converter, i, k) && (free ==> SomeFree(Run(events).ring))
    ensures Reaches(after, Reported(p, converter, i, k, free))
    ensures TrackRun(after).handed == TrackRun(events).handed
    ensures Unread(Run(events).ring) && !(p.cells[i].mask.At(1 - converter) && p.cells[i].clean) ==>
              Unread(Run(after).ring)
  {
    EveryRunIsSafe(events);
    EveryRunIsTracked(events);
    var (r, t) := (Run(events).ring, TrackRun(events));
    var generation: u32, destination: u8 := Wrap32(p.done.At(converter)), r.slots[i].destination;
    var e := Event.Complete(converter, 1, generation, destination);
    after := events + [e];
    TrackSnoc(events, e);
    hide Run, TrackRun, Depicts, LandsAt, Tracked, Owned, Reported, RingModel.Complete;
    ReportedIsDepicted(p, r, t, converter, i, k, free, generation, destination);
    CompleteKeepsRun(r, converter, 1, generation, destination);
    CompleteHandsNothing(t, r, converter, 1, generation, destination);
    if Unread(r) && !(p.cells[i].mask.At(1 - converter) && p.cells[i].clean) {
      ReportingKeepsUnread(p, r, t, converter, i, k, free, generation, destination);
    }
  }

  lemma CompleteHandsNothing(t: Track, r: Ring, converter: u8, epoch: u32, generation: u32, destination: u8)
    requires Sized(t)
    ensures var t' := TrackComplete(t, r, converter, epoch, generation, destination);
            t'.handed == t.handed && t'.base == t.base
  {
  }

  lemma ReserveStep(events: seq<Event>, p: Picture, k: nat, free: bool) returns (after: seq<Event>)
    requires Reaches(events, p) && k < SLOT_COUNT && LandsAt(p, p.scheduled, k)
    requires free ==> SomeFree(Run(events).ring)
    ensures Reaches(after, Scheduled(p, k, free))
    ensures TrackRun(after).handed == TrackRun(events).handed
    ensures Unread(Run(events).ring) ==> Unread(Run(after).ring)
  {
    EveryRunIsSafe(events);
    EveryRunIsTracked(events);
    var (r, t) := (Run(events).ring, TrackRun(events));
    var e := Event.Reserve(1, Wrap32(p.scheduled));
    after := events + [e];
    TrackSnoc(events, e);
    hide Run, TrackRun, Tracked, Owned, Scheduled, LandsAt, Schedule;
    ReservedIsDepicted(p, r, t, p.scheduled, k, free);
    ScheduleKeepsRun(r, Wrap32(p.scheduled));
    ScheduleKeepsReady(r, t, Wrap32(p.scheduled)) by {
      OwnedIsMatched(r);
    }
    ReserveKeepsUnread(r, Wrap32(p.scheduled));
  }

  lemma OwnedIsMatched(r: Ring)
    requires Owned(r)
    ensures Matched(r)
  {
  }

  lemma ReserveKeepsUnread(r: Ring, generation: u32)
    requires Owned(r)
    ensures Unread(r) ==> Unread(RingModel.Reserve(r, 1, generation).0)
  {
    TakeFreeOwns(r, generation, r.nextFirstPair);
    ScheduleEffect(r, generation);
    hide Schedule, TakeFreeBuffer;
  }

  /** A converter whose next generation has no slot passes it over. */
  function Passing(p: Picture, converter: nat): Picture
    requires converter < CONVERTER_COUNT
  {
    p.(done := p.done.With(converter, p.done.At(converter) + 1))
  }

  lemma PassedIsDepicted(p: Picture, r: Ring, t: Track, converter: nat, generation: u32)
    requires Depicts(p, r, t) && Tracked(r, t) && converter < CONVERTER_COUNT
    requires generation == Wrap32(p.done.At(converter))
    requires forall j :: 0 <= j < SLOT_COUNT ==> !Names(p.cells[j], p.done.At(converter))
    ensures var after := RingModel.Complete(r, converter, 1, generation, OVERFLOW_DESTINATION);
            && Depicts(Passing(p, converter), after,
                       TrackComplete(t, r, converter, 1, generation, OVERFLOW_DESTINATION))
            && after.records == r.records
  {
    hide Wrap32, Names;
    TrackedIsIndexed(r, t);
    var i := Find(r.slots, generation);
    if i < SLOT_COUNT {
      NamesIsHolds(p, r, t, p.done.At(converter), i);
    }
    assert r.nextCompletion.At(converter) == generation by {
      NextIsDue(p, r, t, converter);
    }
    hide Tracked, Indexed;
    var after := RingModel.Complete(r, converter, 1, generation, OVERFLOW_DESTINATION);
    forall j | 0 <= j < SLOT_COUNT
      ensures Shows(after, CountDone(t, converter), j, p.cells[j])
    {
      assert Shows(r, t, j, p.cells[j]);
    }
  }

  lemma NextIsDue(p: Picture, r: Ring, t: Track, converter: nat)
    requires Depicts(p, r, t) && Indexed(r, t) && converter < CONVERTER_COUNT
    ensures r.nextCompletion.At(converter) == Wrap32(p.done.At(converter))
  {
    hide Wrap32;
  }

  lemma PassStep(events: seq<Event>, p: Picture, converter: nat) returns (after: seq<Event>)
    requires Reaches(events, p) && converter < CONVERTER_COUNT
    requires forall j :: 0 <= j < SLOT_COUNT ==> !Names(p.cells[j], p.done.At(converter))
    ensures Reaches(after, Passing(p, converter))
    ensures TrackRun(after).handed == TrackRun(events).handed
    ensures Unread(Run(events).ring) ==> Unread(Run(after).ring)
  {
    EveryRunIsTracked(events);
    var (r, t) := (Run(events).ring, TrackRun(events));
    var generation: u32 := Wrap32(p.done.At(converter));
    var e := Event.Complete(converter, 1, generation, OVERFLOW_DESTINATION);
    after := events + [e];
    TrackSnoc(events, e);
    hide Run, TrackRun, Tracked, Depicts, Names, RingModel.Complete;
    PassedIsDepicted(p, r, t, converter, generation);
    CompleteKeepsRun(r, converter, 1, generation, OVERFLOW_DESTINATION);
    CompleteHandsNothing(t, r, converter, 1, generation, OVERFLOW_DESTINATION);
  }

  // ------------------------------------------------------------- a free buffer

  function Besides(x: u8, y: u8, z: u8): (d: nat)
    ensures d < 4 && d != x && d != y && d != z
  {
    if 0 != x && 0 != y && 0 != z then 0
    else if 1 != x && 1 != y && 1 != z then 1
    else if 2 != x && 2 != y && 2 != z then 2
    else 3
  }

  /** Three slots leave one of the first four buffers to the rest of the ring. */
  lemma FewSlotsLeaveRoom(r: Ring, a: nat, b: nat, c: nat)
    requires Matched(r) && a < SLOT_COUNT && b < SLOT_COUNT && c < SLOT_COUNT
    requires forall i :: 0 <= i < SLOT_COUNT && r.slots[i].valid ==> i == a || i == b || i == c
    ensures exists d :: 0 <= d < RING_DEPTH && r.records[d].state != DmaOwned
  {
    var d := Besides(r.slots[a].destination, r.slots[b].destination, r.slots[c].destination);
    assert forall i :: 0 <= i < SLOT_COUNT ==> !Claims(r.slots[i], d);
    assert r.records[d].state != DmaOwned;
  }

  lemma DiscardFrees(s: System)
    requires FirstDiscard(s.ring.records) < RING_DEPTH
    ensures var d := FirstDiscard(s.ring.records);
            var after := Step(Step(s, BeginDiscard), EndDiscard(d)).ring;
            && after.records == s.ring.records[d := FREE_RECORD]
            && after == s.ring.(records := after.records, progress := after.progress)
            && after.progress.majorLoops == s.ring.progress.majorLoops
  {
    var d := FirstDiscard(s.ring.records);
    var begun := Step(s, BeginDiscard);
    assert begun.flights[d] == ByService && begun.ring.records[d].state == Releasing;
    assert Step(begun, EndDiscard(d)).ring.records == s.ring.records[d := FREE_RECORD];
  }

  lemma SomethingToDiscard(p: Picture, r: Ring, t: Track, a: nat, b: nat, c: nat)
    requires Depicts(p, r, t) && Owned(r) && a < SLOT_COUNT && b < SLOT_COUNT && c < SLOT_COUNT
    requires forall i :: 0 <= i < SLOT_COUNT && p.cells[i].Cell? ==> i == a || i == b || i == c
    requires Unread(r) && !SomeFree(r)
    ensures FirstDiscard(r.records) < RING_DEPTH
  {
    forall i | 0 <= i < SLOT_COUNT && r.slots[i].valid
      ensures p.cells[i].Cell?
    {
      assert Shows(r, t, i, p.cells[i]);
    }
    FewSlotsLeaveRoom(r, a, b, c);
  }

  lemma RecordsAreNotDepicted(p: Picture, r: Ring, t: Track, after: Ring, t': Track)
    requires Depicts(p, r, t)
    requires after.slots == r.slots && after.running == r.running && after.epoch == r.epoch
    requires after.progress.majorLoops == r.progress.majorLoops
    requires t' == t.(handed := t'.handed, handles := t'.handles) && Sized(t')
    ensures Depicts(p, after, t')
  {
    forall j | 0 <= j < SLOT_COUNT
      ensures Shows(after, t', j, p.cells[j])
    {
      assert Shows(r, t, j, p.cells[j]);
    }
  }

  /** With at most three slots in use and nothing to read, one discard at most leaves a buffer free. */
  lemma MakeRoom(events: seq<Event>, p: Picture, a: nat, b: nat, c: nat) returns (after: seq<Event>)
    requires Reaches(events, p) && a < SLOT_COUNT && b < SLOT_COUNT && c < SLOT_COUNT
    requires forall i :: 0 <= i < SLOT_COUNT && p.cells[i].Cell? ==> i == a || i == b || i == c
    requires Unread(Run(events).ring)
    ensures Reaches(after, p) && SomeFree(Run(after).ring)
    ensures TrackRun(after).handed == TrackRun(events).handed
    ensures Unread(Run(after).ring)
  {
    EveryRunIsSafe(events);
    var (s, t) := (Run(events), TrackRun(events));
    if SomeFree(s.ring) {
      after := events;
    } else {
      var d := FirstDiscard(s.ring.records);
      after := events + [BeginDiscard] + [EndDiscard(d)];
      TrackSnoc(events, BeginDiscard);
      TrackSnoc(events + [BeginDiscard], EndDiscard(d));
      hide Run, TrackRun, Step, Depicts, FirstDiscard;
      SomethingToDiscard(p, s.ring, t, a, b, c);
      DiscardFrees(s);
      RecordsAreNotDepicted(p, s.ring, t, Run(after).ring, t);
      assert Run(after).ring.records[d].state == Free;
    }
  }

  // --------------------------------------------------- one converter runs ahead

  /** Converter 0 has finished `k` generations and the other none; 12 slots are all there are. */
  function Ahead(k: nat): Picture {
    Picture(seq(SLOT_COUNT, j requires 0 <= j < SLOT_COUNT =>
              if j < Min(k + 2, SLOT_COUNT) then Cell(j, PerConverter(j < k, false), k < 2 || j == k + 1, false)
              else Vacant),
            PerConverter(k, 0), Min(k + 2, SLOT_COUNT), PerConverter(k, 0))
  }

  lemma AheadGrows(k: nat)
    requires k < SLOT_COUNT
    ensures var n := if k + 2 < SLOT_COUNT then k + 2 else SLOT_COUNT;
            CanReport(Ahead(k), 0, k, n) && Reported(Ahead(k), 0, k, n, false) == Ahead(k + 1)
  {
    var n := if k + 2 < SLOT_COUNT then k + 2 else SLOT_COUNT;
    AheadCanReport(k, n);
    var (p, q) := (Reported(Ahead(k), 0, k, n, false), Ahead(k + 1));
    hide LandsAt, Names;
    assert p.cells == q.cells by {
      forall j | 0 <= j < SLOT_COUNT
        ensures p.cells[j] == q.cells[j]
      {
      }
    }
  }

  lemma AheadCanReport(k: nat, n: nat)
    requires k < SLOT_COUNT && n == if k + 2 < SLOT_COUNT then k + 2 else SLOT_COUNT
    ensures CanReport(Ahead(k), 0, k, n)
  {
    var cells := Ahead(k).cells;
    forall j | 0 <= j < SLOT_COUNT
      ensures cells[j].Cell? <==> j < k + 2
      ensures cells[j].Cell? ==> cells[j].n == j
    {
    }
    assert cells[k] == Cell(k, OPEN, k < 2, false);
    hide Ahead;
  }

  /** Converter 0 has finished 12 generations and passed three; converter 1 has followed it through `k`. */
  function Following(k: nat): Picture {
    Picture(seq(SLOT_COUNT, j requires 0 <= j < SLOT_COUNT =>
              if j < k then Vacant else Cell(j, PerConverter(true, false), false, false)),
            PerConverter(15, k), 12, PerConverter(12, k))
  }

  lemma FollowingGrows(k: nat)
    requires k < 10
    ensures CanReport(Following(k), 1, k, k + 2) && Reported(Following(k), 1, k, k + 2, false) == Following(k + 1)
  {
    var (p, q) := (Reported(Following(k), 1, k, k + 2, false), Following(k + 1));
    assert p.cells == q.cells by {
      forall j | 0 <= j < SLOT_COUNT
        ensures p.cells[j] == q.cells[j]
      {
      }
    }
  }

  /** The prime the run begins with: epoch 1, generation and pair 0, one pair to a buffer. */
  predicate First(e: Event) {
    e.Prime? && e.epoch == 1 && e.generation == 0 && e.firstPair == 0 && e.pairs == 1
  }

  lemma PrimedAhead(e: Event) returns (events: seq<Event>)
    requires First(e)
    ensures Reaches(events, Ahead(0)) && TrackRun(events).handed == [] && Unread(Run(events).ring)
  {
    events := [] + [e];
    TrackSnoc([], e);
    StartIsFree();
    hide Run, TrackRun, Depicts, Ahead, Unread, RingModel.Prime, TrackPrime;
    PrimedIsAhead(Run([]).ring, TrackRun([]), e);
  }

  lemma PrimedIsAhead(r: Ring, t: Track, e: Event)
    requires Sized(t) && First(e) && !r.running && AllFree(r.records)
    ensures var after := RingModel.Prime(r, e.epoch, e.generation, e.firstPair, e.pairs).0;
            var t' := TrackPrime(t, r, e.epoch, e.generation, e.firstPair, e.pairs);
            && Depicts(Ahead(0), after, t') && Unread(after) && after.pairsPerBuffer == 1
            && t'.base == 0 && t'.handed == []
  {
    hide Seeded, RingModel.Prime, TrackPrime, Seeds, Schedule, Ahead, NoSlots, Unread, Depicts;
    PrimedTwo(r, e.epoch, e.generation, e.firstPair, e.pairs);
    PrimedRing(r, e.epoch, e.generation, e.firstPair, e.pairs);
    PrimedLoops(r, e.epoch, e.generation, e.firstPair, e.pairs);
    PrimeTrackIsSeeded(r, t, e.epoch, e.generation, e.firstPair, e.pairs);
    SeededFields(e.generation, e.firstPair);
    SeededIsAhead(RingModel.Prime(r, e.epoch, e.generation, e.firstPair, e.pairs).0,
                  TrackPrime(t, r, e.epoch, e.generation, e.firstPair, e.pairs));
  }

  lemma PrimedTwo(r: Ring, epoch: u32, generation: u32, firstPair: u64, pairs: u32)
    requires epoch != 0 && 1 <= pairs <= PAIRS_PER_FRAME && !r.running && AllFree(r.records)
    ensures var after := RingModel.Prime(r, epoch, generation, firstPair, pairs).0;
            && Untouched(after.slots[0]) && Untouched(after.slots[1])
            && (forall j :: 2 <= j < SLOT_COUNT ==> !after.slots[j].valid)
            && Unread(after)
  {
    hide RingModel.Prime, Seeds, Schedule, NoSlots, Unread;
    PrimeSeeds(r, epoch, generation, firstPair, pairs);
    PrimedTables(r, epoch, generation, firstPair, pairs);
    var after := RingModel.Prime(r, epoch, generation, firstPair, pairs).0;
    TwoTaken(r, after);
    TwoSlotsOnly(after.slots);
  }

  lemma TwoTaken(r: Ring, after: Ring)
    requires AllFree(r.records) && after.records == r.records[0 := after.records[0]][1 := after.records[1]]
    requires after.records[0].state == after.records[1].state == DmaOwned
    ensures Unread(after)
  {
  }

  lemma TwoSlotsOnly(slots: seq<GenerationSlot>)
    requires |slots| == SLOT_COUNT && slots == NoSlots()[0 := slots[0]][1 := slots[1]]
    ensures forall j :: 2 <= j < SLOT_COUNT ==> !slots[j].valid
  {
  }

  predicate Untouched(slot: GenerationSlot) {
    slot.valid && slot.mask == NO_CONVERTER && !slot.invalidData
  }

  lemma SeededIsAhead(r: Ring, t: Track)
    requires && Sized(t) && t.origin == 0 && t.done == PerConverter(0, 0) && t.scheduled == 2
             && t.slotIndex[0] == 0 && t.slotIndex[1] == 1
             && r.running && r.epoch == 1 && r.progress.majorLoops == PerConverter(0, 0)
             && Untouched(r.slots[0]) && Untouched(r.slots[1])
             && forall j :: 2 <= j < SLOT_COUNT ==> !r.slots[j].valid
    ensures Depicts(Ahead(0), r, t)
  {
  }

  lemma {:induction false} RunsAhead(k: nat) returns (events: seq<Event>)
    requires k <= SLOT_COUNT
    ensures Reaches(events, Ahead(k)) && TrackRun(events).handed == [] && Unread(Run(events).ring)
  {
    if k == 0 {
      events := PrimedAhead(Event.Prime(1, 0, 0, 1));
    } else {
      var before := RunsAhead(k - 1);
      AheadGrows(k - 1);
      hide Run, TrackRun, Reported, CanReport, Reaches;
      events := ReportStep(before, Ahead(k - 1), 0, k - 1, if k + 1 < SLOT_COUNT then k + 1 else SLOT_COUNT, false);
    }
  }

  lemma NoneBeyond(n: nat)
    requires 12 <= n < 15
    ensures forall j :: 0 <= j < SLOT_COUNT ==> !Names(Ahead(SLOT_COUNT).cells[j], n)
  {
  }

  lemma {:induction false} RunsFollowing(k: nat) returns (events: seq<Event>)
    requires k <= 10
    ensures Reaches(events, Following(k)) && TrackRun(events).handed == [] && Unread(Run(events).ring)
  {
    if k == 0 {
      var e0 := RunsAhead(SLOT_COUNT);
      var p := Ahead(SLOT_COUNT);
      NoneBeyond(12);
      NoneBeyond(13);
      NoneBeyond(14);
      hide Run, TrackRun, Reaches, Names;
      var e1 := PassStep(e0, p, 0);
      var e2 := PassStep(e1, Passing(p, 0), 0);
      events := PassStep(e2, Passing(Passing(p, 0), 0), 0);
      assert Passing(Passing(Passing(p, 0), 0), 0).cells == Following(0).cells;
    } else {
      var before := RunsFollowing(k - 1);
      FollowingGrows(k - 1);
      hide Run, TrackRun, Reported, CanReport, Reaches;
      events := ReportStep(before, Following(k - 1), 1, k - 1, k + 1, false);
    }
  }

  // -------------------------------------------------- three generations left over

  const OPEN: Mask := NO_CONVERTER
  const LED: Mask := PerConverter(true, false)
  const LAGGED: Mask := PerConverter(false, true)

  /** The stages from the end of the catching-up to the point where both converters report in step, one apart from
      the other by two generations, beside the three generations converter 0 has passed. */
  function Stage(n: nat): Picture
    requires n <= 11
  {
    var (v, c) := (Vacant, (m, mask) => Cell(m, mask, true, m == 12 || m == 15));
    if n == 0 then Following(10)
    else if n == 1 then
      Picture([c(12, OPEN), v, v, v, v, v, v, v, v, v, v, Cell(11, LED, false, false)],
              PerConverter(15, 11), 13, PerConverter(12, 11))
    else if n == 2 then
      Picture([c(12, OPEN), c(13, OPEN), v, v, v, v, v, v, v, v, v, v], PerConverter(15, 12), 14, PerConverter(12, 12))
    else if n == 3 then
      Picture([c(12, LAGGED), c(13, OPEN), c(14, OPEN), v, v, v, v, v, v, v, v, v],
              PerConverter(15, 13), 15, PerConverter(12, 13))
    else if n == 4 then
      Picture([c(12, LAGGED), c(13, OPEN), c(14, OPEN), c(15, OPEN), v, v, v, v, v, v, v, v],
              PerConverter(15, 13), 16, PerConverter(12, 13))
    else if n == 5 then
      Picture([c(12, LAGGED), c(13, OPEN), c(14, OPEN), c(15, OPEN), c(16, OPEN), v, v, v, v, v, v, v],
              PerConverter(15, 13), 17, PerConverter(12, 13))
    else if n == 6 then
      Picture([c(12, LAGGED), c(13, OPEN), c(14, OPEN), c(15, LED), c(16, OPEN), c(17, OPEN), v, v, v, v, v, v],
              PerConverter(16, 13), 18, PerConverter(13, 13))
    else if n == 7 then
      Picture([c(12, LAGGED), c(13, LAGGED), c(14, OPEN), c(15, LED), c(16, OPEN), c(17, OPEN), v, v, v, v, v, v],
              PerConverter(16, 14), 18, PerConverter(13, 14))
    else if n == 8 then
      Picture([c(12, LAGGED), c(13, LAGGED), c(14, OPEN), c(15, LED), c(16, LED), c(17, OPEN), c(18, OPEN),
               v, v, v, v, v],
              PerConverter(17, 14), 19, PerConverter(14, 14))
    else if n == 9 then
      Picture([c(12, LAGGED), c(13, LAGGED), c(14, LAGGED), c(15, LED), c(16, LED), c(17, OPEN), c(18, OPEN),
               v, v, v, v, v],
              PerConverter(17, 15), 19, PerConverter(14, 15))
    else if n == 10 then
      Picture([c(12, LAGGED), c(13, LAGGED), c(14, LAGGED), c(15, LED), c(16, LED), c(17, LED), c(18, OPEN),
               c(19, OPEN), v, v, v, v],
              PerConverter(18, 15), 20, PerConverter(15, 15))
    else
      Picture([c(12, LAGGED), c(13, LAGGED), c(14, LAGGED), v, c(16, LED), c(17, LED), c(18, OPEN), c(19, OPEN),
               v, v, v, v],
              PerConverter(18, 16), 20, PerConverter(15, 16))
  }

  /** A report of `converter` on cell `i`, with its look-ahead ending at `k`, leads from one stage to the next. */
  predicate StageLeads(n: nat, converter: nat, i: nat, k: nat)
    requires n < 11
  {
    && CanReport(Stage(n), converter, i, k)
    && Reported(Stage(n), converter, i, k, n == 0) == Stage(n + 1)
  }

  lemma Stage0Leads()
    ensures StageLeads(0, 1, 10, 0)
  {
  }

  lemma Stage1Leads()
    ensures StageLeads(1, 1, 11, 1)
  {
  }

  lemma Stage2Leads()
    ensures StageLeads(2, 1, 0, 2)
  {
  }

  lemma Stage5Leads()
    ensures StageLeads(5, 0, 3, 5)
  {
  }

  lemma Stage6Leads()
    ensures StageLeads(6, 1, 1, 3)
  {
  }

  lemma Stage7Leads()
    ensures StageLeads(7, 0, 4, 6)
  {
  }

  lemma Stage8Leads()
    ensures StageLeads(8, 1, 2, 4)
  {
  }

  lemma Stage9Leads()
    ensures StageLeads(9, 0, 5, 7)
  {
  }

  lemma Stage10Leads()
    ensures StageLeads(10, 1, 3, 5)
  {
  }

  lemma Reserving()
    ensures LandsAt(Stage(3), 15, 3) && Scheduled(Stage(3), 3, true) == Stage(4)
    ensures LandsAt(Stage(4), 16, 4) && Scheduled(Stage(4), 4, false) == Stage(5)
  {
  }

  lemma StageStep(events: seq<Event>, n: nat, converter: nat, i: nat, k: nat) returns (after: seq<Event>)
    requires n < 11 && Reaches(events, Stage(n)) && StageLeads(n, converter, i, k)
    requires n == 0 ==> SomeFree(Run(events).ring)
    requires Unread(Run(events).ring) && !(Stage(n).cells[i].mask.At(1 - converter) && Stage(n).cells[i].clean)
    ensures Reaches(after, Stage(n + 1)) && Unread(Run(after).ring)
    ensures TrackRun(after).handed == TrackRun(events).handed
  {
    hide Run, TrackRun, Reaches, Stage, Reported, SomeFree, Unread;
    after := ReportStep(events, Stage(n), converter, i, k, n == 0);
  }

  lemma ReachesStage3() returns (events: seq<Event>)
    ensures Reaches(events, Stage(3)) && Unread(Run(events).ring) && TrackRun(events).handed == []
  {
    Stage0Leads();
    Stage1Leads();
    Stage2Leads();
    assert Stage(0).cells[10] == Cell(10, LED, false, false);
    hide Run, TrackRun, Reaches, StageLeads, SomeFree, Unread;
    var e := RunsFollowing(10);
    e := MakeRoom(e, Stage(0), 10, 11, 11);
    e := StageStep(e, 0, 1, 10, 0);
    e := StageStep(e, 1, 1, 11, 1);
    events := StageStep(e, 2, 1, 0, 2);
  }

  lemma ReachesStage5() returns (events: seq<Event>)
    ensures Reaches(events, Stage(5)) && Unread(Run(events).ring) && TrackRun(events).handed == []
  {
    Reserving();
    hide Run, TrackRun, Reaches, LandsAt, Scheduled, SomeFree, Unread;
    var e := ReachesStage3();
    e := MakeRoom(e, Stage(3), 0, 1, 2);
    e := ReserveStep(e, Stage(3), 3, true);
    events := ReserveStep(e, Stage(4), 4, false);
  }

  lemma ReachesStage10() returns (events: seq<Event>)
    ensures Reaches(events, Stage(10)) && Unread(Run(events).ring) && TrackRun(events).handed == []
  {
    Stage5Leads();
    Stage6Leads();
    Stage7Leads();
    Stage8Leads();
    Stage9Leads();
    hide Run, TrackRun, Reaches, StageLeads, SomeFree, Unread;
    var e := ReachesStage5();
    e := StageStep(e, 5, 0, 3, 5);
    e := StageStep(e, 6, 1, 1, 3);
    e := StageStep(e, 7, 0, 4, 6);
    e := StageStep(e, 8, 1, 2, 4);
    events := StageStep(e, 9, 0, 5, 7);
  }

  // -------------------------------------------------------------- the first handle

  lemma {:induction false} PairsFromZero(n: nat)
    ensures PairAt(0, 1, n) <= n
  {
    if n > 0 {
      PairsFromZero(n - 1);
    }
  }

  lemma PublishedIsOldest(p: Picture, r: Ring, t: Track, converter: nat, i: nat, k: nat, free: bool,
                          generation: u32, destination: u8)
    requires MayReport(p, r, t, converter, i, k, free) && Reports(p, r, converter, i, generation, destination)
    requires Unread(r) && k < SLOT_COUNT && !DriftsApart(p, converter)
    requires p.cells[i].mask.At(1 - converter) && p.cells[i].clean && p.cells[i].stored && p.cells[i].n < MAX_64
    requires t.base == 0 && r.pairsPerBuffer == 1
    ensures var after := RingModel.Complete(r, converter, 1, generation, destination);
            var t' := TrackComplete(t, r, converter, 1, generation, destination);
            && Sized(t')
            && (Tracked(after, t') ==>
                  && OldestReady(after.records, RING_DEPTH) < RING_DEPTH
                  && t'.bufferIndex[OldestReady(after.records, RING_DEPTH)] == p.cells[i].n)
  {
    hide Advance, Accept, TrackAccept, Judge, Drifts, DriftsApart, LandsAt, Wrap32, Tracked;
    ReportIsAccepted(p, r, t, converter, i, k, free);
    WillPublish(p, r, t, converter, i, k, free, generation, destination);
    TrackedIsIndexed(r, t);
    AcceptReady(r, t, converter, i, generation, destination);
    CompleteKeepsRun(r, converter, 1, generation, destination);
    CompleteHandsNothing(t, r, converter, 1, generation, destination);
    hide Publishes;
    var after := RingModel.Complete(r, converter, 1, generation, destination);
    var t' := TrackComplete(t, r, converter, 1, generation, destination);
    assert Shows(r, t, i, p.cells[i]);
    if Tracked(after, t') {
      TrackedIsIndexed(after, t');
      PairsFromZero(p.cells[i].n);
      assert after.records[r.slots[i].destination].state == Ready;
    }
  }

  /** What the picture must show for a report to publish the buffer. */
  lemma WillPublish(p: Picture, r: Ring, t: Track, converter: nat, i: nat, k: nat, free: bool,
                    generation: u32, destination: u8)
    requires MayReport(p, r, t, converter, i, k, free) && Reports(p, r, converter, i, generation, destination)
    requires k < SLOT_COUNT && !DriftsApart(p, converter)
    requires p.cells[i].mask.At(1 - converter) && p.cells[i].clean && p.cells[i].stored
    ensures Publishes(r, converter, i, destination)
  {
    hide Drifts, DriftsApart, LandsAt, Wrap32, Tracked, Judge, Schedulable, MakesSlot;
    ReportIsAccepted(p, r, t, converter, i, k, free);
    WrapAdd(0, p.done.At(converter), 2);
    TrackedIsIndexed(r, t);
    LandsThere(p, r, t, p.done.At(converter) + 2, k);
    assert Shows(r, t, i, p.cells[i]);
  }

  /** Reports a generation that is published, and takes the buffer. */
  lemma HandStep(before: seq<Event>, p: Picture, converter: nat, i: nat, k: nat) returns (after: seq<Event>)
    requires Reaches(before, p) && CanReport(p, converter, i, k) && k < SLOT_COUNT && !DriftsApart(p, converter)
    requires p.cells[i].mask.At(1 - converter) && p.cells[i].clean && p.cells[i].stored && p.cells[i].n < MAX_64
    requires Unread(Run(before).ring) && TrackRun(before).handed == []
    ensures Reaches(after, Reported(p, converter, i, k, false)) && TrackRun(after).handed == [p.cells[i].n]
  {
    EveryRunIsSafe(before);
    EveryRunIsTracked(before);
    var (r, t) := (Run(before).ring, TrackRun(before));
    var generation: u32, destination: u8 := Wrap32(p.done.At(converter)), r.slots[i].destination;
    var e := Event.Complete(converter, 1, generation, destination);
    var reported := before + [e];
    TrackSnoc(before, e);
    EveryRunIsTracked(reported);
    hide Run, TrackRun, Depicts, LandsAt, Tracked, Owned, Reported, RingModel.Complete, TrackComplete, Unread,
      OldestReady, DriftsApart, CanReport;
    assert MayReport(p, r, t, converter, i, k, false) by {
      CanIsMay(p, r, t, converter, i, k);
    }
    ReportedIsDepicted(p, r, t, converter, i, k, false, generation, destination);
    PublishedIsOldest(p, r, t, converter, i, k, false, generation, destination);
    CompleteKeepsRun(r, converter, 1, generation, destination);
    CompleteHandsNothing(t, r, converter, 1, generation, destination);
    hide MayReport;
    after := AcquireStep(reported, Reported(p, converter, i, k, false));
  }

  lemma CanIsMay(p: Picture, r: Ring, t: Track, converter: nat, i: nat, k: nat)
    requires CanReport(p, converter, i, k) && Depicts(p, r, t) && Tracked(r, t) && Owned(r)
    ensures MayReport(p, r, t, converter, i, k, false)
  {
  }

  lemma AcquireStep(events: seq<Event>, p: Picture) returns (after: seq<Event>)
    requires Reaches(events, p) && OldestReady(Run(events).ring.records, RING_DEPTH) < RING_DEPTH
    ensures Reaches(after, p)
    ensures TrackRun(after).handed
         == TrackRun(events).handed + [TrackRun(events).bufferIndex[OldestReady(Run(events).ring.records, RING_DEPTH)]]
  {
    after := events + [Acquire];
    TrackSnoc(events, Acquire);
    var (r, t) := (Run(events).ring, TrackRun(events));
    hide Run, TrackRun, Depicts, OldestReady;
    RecordsAreNotDepicted(p, r, t, RingModel.Acquire(r).0, TrackAcquire(t, r));
  }

  lemma HandsFifteen() returns (events: seq<Event>)
    ensures Reaches(events, Stage(11)) && TrackRun(events).handed == [15]
  {
    Stage10Leads();
    assert Stage(10).cells[3] == Cell(15, LED, true, true) && !DriftsApart(Stage(10), 1);
    hide Run, TrackRun, Reaches, Stage, Reported, Unread, DriftsApart;
    var before := ReachesStage10();
    events := HandStep(before, Stage(10), 1, 3, 5);
  }

  // ------------------------------------------------------------- steady rounds

  /** The three generations only converter 1 has finished, at the head of the table; the first may still be read. */
  predicate Leftovers(p: Picture) {
    && |p.cells| == SLOT_COUNT
    && p.cells[0] == Cell(12, LAGGED, true, true)
    && p.cells[1].Cell? && p.cells[1].n == 13
    && p.cells[2].Cell? && p.cells[2].n == 14
  }

  predicate Holding(cell: Cell, n: nat, mask: Mask) {
    cell.Cell? && cell.n == n && cell.mask == mask
  }

  /** Beside the leftovers, the table holds the generations from `n` on, at the places `at`; converter 0 is two ahead
      of converter 1 and has finished the first two of them. */
  predicate Steady(p: Picture, n: nat, at: seq<nat>) {
    && Leftovers(p)
    && 2 <= |at| <= 4
    && p.done == PerConverter(n + 2, n)
    && p.scheduled == n + |at|
    && p.loops.adc0 + 1 == p.loops.adc1 == n
    && (forall x :: 0 <= x < |at| ==>
          3 <= at[x] < SLOT_COUNT && Holding(p.cells[at[x]], n + x, if x < 2 then LED else OPEN))
    && (forall j :: 3 <= j < SLOT_COUNT && p.cells[j].Cell? ==>
          n <= p.cells[j].n < n + |at| && j == at[p.cells[j].n - n])
  }

  /** The look-ahead of converter 0 finds its generation among the leftovers, or makes a cell for it. */
  predicate Extends(p: Picture, n: nat, at: seq<nat>, k: nat) {
    && k < SLOT_COUNT && |p.cells| == SLOT_COUNT
    && |at| >= 3
    && LandsAt(p, n + 4, k)
    && (k < 3 || MakesCell(p, k))
  }

  function Extending(p: Picture, at: seq<nat>, k: nat): seq<nat>
    requires |p.cells| == SLOT_COUNT && k < SLOT_COUNT
  {
    if MakesCell(p, k) then at + [k] else at
  }

  /** Halfway through a round: converter 0 is three ahead. */
  predicate Halfway(p: Picture, n: nat, at: seq<nat>) {
    && Leftovers(p)
    && 3 <= |at| <= 5
    && p.done == PerConverter(n + 3, n)
    && p.scheduled == n + |at|
    && p.loops.adc0 == p.loops.adc1 == n
    && (forall x :: 0 <= x < |at| ==>
          3 <= at[x] < SLOT_COUNT && Holding(p.cells[at[x]], n + x, if x < 3 then LED else OPEN))
    && (forall j :: 3 <= j < SLOT_COUNT && p.cells[j].Cell? ==>
          n <= p.cells[j].n < n + |at| && j == at[p.cells[j].n - n])
  }

  lemma FirstHalf(p: Picture, n: nat, at: seq<nat>, k: nat)
    requires 2 <= n < MAX_64 && Steady(p, n, at) && Extends(p, n, at, k)
    requires MakesCell(p, k) ==> |at| == 4
    ensures CanReport(p, 0, at[2], k)
    ensures Halfway(Reported(p, 0, at[2], k, false), n, Extending(p, at, k))
  {
    hide LandsAt, Wrap32;
    assert Holding(p.cells[at[2]], n + 2, OPEN);
    var q := Reported(p, 0, at[2], k, false);
    var to := Extending(p, at, k);
    assert q.cells == if MakesCell(p, k) then p.cells[k := Cell(n + 4, OPEN, true, false)][at[2] := q.cells[at[2]]]
                      else p.cells[at[2] := q.cells[at[2]]];
    forall x | 0 <= x < |to|
      ensures 3 <= to[x] < SLOT_COUNT && Holding(q.cells[to[x]], n + x, if x < 3 then LED else OPEN)
    {
      assert x < |at| ==> Holding(p.cells[at[x]], n + x, if x < 2 then LED else OPEN);
    }
  }

  lemma SecondHalf(p: Picture, n: nat, at: seq<nat>)
    requires n < MAX_64 && Halfway(p, n, at)
    ensures CanReport(p, 1, at[0], at[2])
    ensures Steady(Reported(p, 1, at[0], at[2], false), n + 1, at[1..])
  {
    assert Holding(p.cells[at[0]], n, LED) && Holding(p.cells[at[2]], n + 2, LED);
    hide Wrap32;
    var q := Reported(p, 1, at[0], at[2], false);
    assert q.cells == p.cells[at[0] := Vacant];
    forall x | 0 <= x < |at| - 1
      ensures 3 <= at[1..][x] < SLOT_COUNT && Holding(q.cells[at[1..][x]], n + 1 + x, if x < 2 then LED else OPEN)
    {
      assert Holding(p.cells[at[x + 1]], n + x + 1, if x + 1 < 3 then LED else OPEN);
    }
  }

  /** A run in the steady state, one buffer handed out: generation 15. */
  ghost predicate Keeps(events: seq<Event>, p: Picture, n: nat, at: seq<nat>) {
    Reaches(events, p) && Steady(p, n, at) && TrackRun(events).handed == [15]
  }

  lemma Round(events: seq<Event>, p: Picture, n: nat, at: seq<nat>, k: nat) returns (after: seq<Event>, q: Picture)
    requires 2 <= n < MAX_64 && Keeps(events, p, n, at) && Extends(p, n, at, k)
    requires MakesCell(p, k) ==> |at| == 4
    ensures Keeps(after, q, n + 1, Extending(p, at, k)[1..])
  {
    FirstHalf(p, n, at, k);
    var half := Reported(p, 0, at[2], k, false);
    var to := Extending(p, at, k);
    SecondHalf(half, n, to);
    q := Reported(half, 1, to[0], to[2], false);
    hide Run, TrackRun, Reaches, Reported, CanReport, LandsAt, SomeFree, Unread;
    var between := ReportStep(events, p, 0, at[2], k, false);
    after := ReportStep(between, half, 1, to[0], to[2], false);
  }

  function FirstVacant(cells: seq<Cell>, from: nat := 0): (k: nat)
    requires from <= |cells|
    ensures from <= k <= |cells|
    ensures k < |cells| ==> cells[k].Vacant?
    ensures forall j :: from <= j < k ==> cells[j].Cell?
    decreases |cells| - from
  {
    if from == |cells| || cells[from].Vacant? then from else FirstVacant(cells, from + 1)
  }

  function BesidesFour(at: seq<nat>): (j: nat)
    requires |at| == 4
    ensures 3 <= j < 8 && j !in at
  {
    if 3 !in at then 3 else if 4 !in at then 4 else if 5 !in at then 5 else if 6 !in at then 6 else 7
  }

  /** While converter 0's look-ahead has not come round to the leftovers, it makes a new cell. */
  lemma Advances(p: Picture, n: nat, at: seq<nat>)
    requires 16 <= n && n + 4 < TWO_32 + 12 && Steady(p, n, at) && |at| == 4
    ensures Extends(p, n, at, FirstVacant(p.cells)) && MakesCell(p, FirstVacant(p.cells))
  {
    var j := BesidesFour(at);
    assert p.cells[j].Vacant?;
    var k := FirstVacant(p.cells);
    forall j | 0 <= j < SLOT_COUNT
      ensures !Names(p.cells[j], n + 4)
    {
      if Names(p.cells[j], n + 4) {
        CloseCountersAgree(0, n + 4, p.cells[j].n);
      }
    }
  }

  lemma Stage11IsSteady()
    ensures Steady(Stage(11), 16, [4, 5, 6, 7])
  {
  }

  /** For any number of rounds up to the point where the look-ahead reaches the leftovers. */
  lemma {:induction false} Rounds(n: nat) returns (events: seq<Event>, p: Picture, at: seq<nat>)
    requires 16 <= n <= TWO_32 + 8
    ensures Keeps(events, p, n, at) && |at| == 4
  {
    hide Run, TrackRun, Reaches, Stage, Steady, Extends;
    if n == 16 {
      Stage11IsSteady();
      events := HandsFifteen();
      p, at := Stage(11), [4, 5, 6, 7];
    } else {
      var before, was, places := Rounds(n - 1);
      SteadyIsSized(was, n - 1, places);
      Advances(was, n - 1, places);
      var k := FirstVacant(was.cells);
      events, p := Round(before, was, n - 1, places, k);
      at := Extending(was, places, k)[1..];
    }
  }

  lemma SteadyIsSized(p: Picture, n: nat, at: seq<nat>)
    requires Steady(p, n, at)
    ensures |p.cells| == SLOT_COUNT
  {
  }

  // ------------------------------------------------------------- the order breaks

  lemma ComesRound(p: Picture, n: nat, at: seq<nat>, k: nat)
    requires Steady(p, n, at) && |at| >= 3 && n + 4 == TWO_32 + 12 + k && k < 2
    ensures Extends(p, n, at, k) && !MakesCell(p, k)
  {
  }

  /** In this run the handles do not come in order: converter 0 comes round to a generation that converter 1 finished
      some 2^32 generations before and publishes it, after generation 15 has been handed out. */
  lemma OrderBreaks() returns (events: seq<Event>)
    ensures !Ascending(Handles(events))
    ensures Overtaken(events)
  {
    var n: nat := TWO_32 + 8;
    var e0, p0, at := Rounds(n);
    ComesRound(p0, n, at, 0);
    var e1, p1 := Round(e0, p0, n, at, 0);
    ComesRound(p1, n + 1, at[1..], 1);
    var e2, p2 := Round(e1, p1, n + 1, at[1..], 1);
    var before, e := LastReport(e2, p2, n + 2, at[1..][1..]);
    OvertakingBreaksOrder(before, e);
    events := before + [e] + [Acquire];
    assert events[..|events| - 1] == before + [e] && (before + [e])[..|before|] == before;
  }

  lemma LastReport(events: seq<Event>, p: Picture, n: nat, at: seq<nat>) returns (before: seq<Event>, e: Event)
    requires Keeps(events, p, n, at) && n == TWO_32 + 10
    ensures before == events && e.Complete?
    ensures Overtakes(Run(before).ring, Handles(before), e)
  {
    before := events;
    EveryRunIsSafe(events);
    EveryRunIsTracked(events);
    var (r, t) := (Run(events).ring, TrackRun(events));
    var generation: u32, destination: u8 := Wrap32(p.done.At(0)), r.slots[0].destination;
    e := Event.Complete(0, 1, generation, destination);
    LastCanReport(p, n, at);
    hide Run, TrackRun, Steady, CanReport, DriftsApart, LandsAt, Tracked, Owned, Judge, Publishes, Wrap32;
    CanIsMay(p, r, t, 0, 0, 2);
    ReportIsAccepted(p, r, t, 0, 0, 2, false);
    WillPublish(p, r, t, 0, 0, 2, false, generation, destination);
    assert Shows(r, t, 0, p.cells[0]);
    TrackedIsIndexed(r, t);
    hide MayReport, Indexed;
    BehindInNumbers(r, t, 0);
  }

  lemma LastCanReport(p: Picture, n: nat, at: seq<nat>)
    requires Steady(p, n, at) && n == TWO_32 + 10
    ensures CanReport(p, 0, 0, 2) && !DriftsApart(p, 0) && p.cells[0] == Cell(12, LAGGED, true, true)
    ensures p.done.At(0) == n + 2
  {
  }
}
