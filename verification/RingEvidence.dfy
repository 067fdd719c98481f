/** What each scheduled generation lived through, kept apart from the ring's own marks, and what became of it. */
module RingEvidence {
  import opened FixedWidth
  import opened RingModel
  import opened RingOwnership
  import opened RingTrack
  import opened RingSettle
  import opened RingRuns
  import opened RingOrder
  import opened RingBeginnings

  /** A completion interrupt that named an outstanding generation of the running epoch: the destination it named,
      whether its converter was at that generation, and whether the ring accepted it. */
  datatype Report = Report(destination: u8, inTurn: bool, accepted: bool)

  /** While a generation was outstanding: every completion that named it, accepted or refused, by converter, and
      whether an overwrite or a DMA error was charged to it, the channels drifted apart, or a scheduling failed. */
  datatype Evidence = Evidence(
    reports: PerConverter<seq<Report>>, overwritten: bool, faulted: bool, skewed: bool, starved: bool)

  const NOTHING := Evidence(PerConverter([], []), false, false, false, false)

  /** The first report made in turn, or the number of reports when there is none. */
  function FirstInTurn(reports: seq<Report>): (k: nat)
    ensures k <= |reports|
    ensures k < |reports| ==> reports[k].inTurn
    ensures forall j :: 0 <= j < k ==> !reports[j].inTurn
  {
    if reports == [] then 0
    else
      var last := |reports| - 1;
      var k := FirstInTurn(reports[..last]);
      if k < last || reports[last].inTurn then k else |reports|
  }

  predicate Heard(reports: seq<Report>) {
    FirstInTurn(reports) < |reports|
  }

  /** Of all the reports, exactly the first in turn was accepted. */
  predicate OnlyFirstAccepted(reports: seq<Report>) {
    forall k :: 0 <= k < |reports| ==> (reports[k].accepted <==> k == FirstInTurn(reports))
  }

  predicate Strayed(reports: seq<Report>, destination: u8) {
    Heard(reports) && reports[FirstInTurn(reports)].destination != destination
  }

  /** Nothing speaks against the generation: what was accepted named its destination, and nothing else went wrong. */
  predicate Clean(e: Evidence, destination: u8) {
    && !Strayed(e.reports.adc0, destination)
    && !Strayed(e.reports.adc1, destination)
    && !e.overwritten && !e.faulted && !e.skewed && !e.starved
  }

  /** A generation both converters have finished. */
  datatype Closed = Closed(generation: u32, destination: u8, evidence: Evidence, ready: bool)

  /** Evidence about the generation in each slot, and the generations closed since prime. */
  datatype Ledger = Ledger(open: seq<Evidence>, closed: seq<Closed>)

  ghost function NewLedger(): Ledger {
    Ledger(seq(SLOT_COUNT, _ => NOTHING), [])
  }

  ghost function Everywhere(open: seq<Evidence>, skewed: bool, starved: bool): (all: seq<Evidence>)
    ensures |all| == |open|
    ensures forall i :: 0 <= i < |open| ==>
      all[i] == open[i].(skewed := open[i].skewed || skewed, starved := open[i].starved || starved)
  {
    seq(|open|, i requires 0 <= i < |open| =>
      open[i].(skewed := open[i].skewed || skewed, starved := open[i].starved || starved))
  }

  /** An error charged to a generation that is outstanding: an overwrite, or else a DMA error. */
  ghost function Charge(open: seq<Evidence>, r: Ring, generation: u32, overwrite: bool): (charged: seq<Evidence>)
    requires |open| == SLOT_COUNT
    ensures |charged| == SLOT_COUNT
  {
    var i := Find(r.slots, generation);
    if i < SLOT_COUNT then
      open[i := open[i].(overwritten := open[i].overwritten || overwrite, faulted := open[i].faulted || !overwrite)]
    else open
  }

  /** An overwrite charged to the next generation of each converter that the lowest two bits name. */
  ghost function ChargeNamed(open: seq<Evidence>, r: Ring, mask: u8): (charged: seq<Evidence>)
    requires |open| == SLOT_COUNT
    ensures |charged| == SLOT_COUNT
  {
    var first := if mask % 2 == 1 then Charge(open, r, r.nextCompletion.adc0, true) else open;
    if mask % 4 >= 2 then Charge(first, r, r.nextCompletion.adc1, true) else first
  }

  ghost function Note(open: seq<Evidence>, i: nat, converter: nat, report: Report): (noted: seq<Evidence>)
    requires |open| == SLOT_COUNT && i < SLOT_COUNT && converter < CONVERTER_COUNT
    ensures |noted| == SLOT_COUNT
  {
    open[i := open[i].(reports := open[i].reports.With(converter, open[i].reports.At(converter) + [report]))]
  }

  /** A scheduling attempt: a new generation starts with no evidence; a failure is evidence against all. */
  ghost function Attempt(open: seq<Evidence>, r: Ring, generation: u32): (attempted: seq<Evidence>)
    requires |open| == SLOT_COUNT
    ensures |attempted| == SLOT_COUNT
  {
    if MakesSlot(r, generation) then open[FirstUnused(r.slots) := NOTHING]
    else Everywhere(open, false, Find(r.slots, generation) == SLOT_COUNT)
  }

  ghost function Noted(l: Ledger, i: nat, converter: nat, report: Report): (after: Ledger)
    requires |l.open| == SLOT_COUNT && i < SLOT_COUNT && converter < CONVERTER_COUNT
    ensures |after.open| == SLOT_COUNT
  {
    l.(open := Note(l.open, i, converter, report))
  }

  /** What an accepted completion of slot `i`, already noted, adds: drift, a failed look-ahead, a closing. */
  ghost function LedgerAccept(l: Ledger, r: Ring, converter: nat, i: nat, generation: u32, destination: u8): Ledger
    requires |l.open| == SLOT_COUNT && converter < CONVERTER_COUNT && i < SLOT_COUNT
  {
    var drifted := Everywhere(l.open, Skewed(Enter(r, converter, i, destination)), false);
    var open := Attempt(drifted, CheckSkew(Enter(r, converter, i, destination)), Wrap32(generation + 2));
    var a := Advance(r, converter, i, generation, destination).0;
    if AllConverters(a.slots[i].mask) then
      Ledger(open, l.closed + [Closed(generation, r.slots[i].destination, open[i], Finalize(a, i).1.ready)])
    else Ledger(open, l.closed)
  }

  /** Every completion of the running epoch that names an outstanding generation is noted with it. */
  ghost function LedgerComplete(l: Ledger, r: Ring, converter: u8, epoch: u32, generation: u32, destination: u8)
    : (after: Ledger)
    requires |l.open| == SLOT_COUNT
    ensures |after.open| == SLOT_COUNT
  {
    var i := Find(r.slots, generation);
    if !Listening(r, epoch) || converter >= CONVERTER_COUNT || i == SLOT_COUNT then l
    else
      var verdict := Judge(r, converter, epoch, generation);
      var inTurn := generation == r.nextCompletion.At(converter);
      var noted := Noted(l, i, converter, Report(destination, inTurn, verdict.Accepted?));
      if verdict.Accepted? then LedgerAccept(noted, r, converter, i, generation, destination) else noted
  }

  ghost function LedgerStep(l: Ledger, r: Ring, e: Event): (after: Ledger)
    requires |l.open| == SLOT_COUNT
    ensures |after.open| == SLOT_COUNT
  {
    match e
    case Prime(epoch, generation, firstPair, pairs) =>
      if RingModel.Prime(r, epoch, generation, firstPair, pairs).1.status == Ok then NewLedger() else l
    case Reserve(epoch, generation) =>
      if Listening(r, epoch) && MakesSlot(r, generation) then l.(open := l.open[FirstUnused(r.slots) := NOTHING])
      else l
    case Complete(converter, epoch, generation, destination) =>
      LedgerComplete(l, r, converter, epoch, generation, destination)
    case AdcEtcError(epoch, mask, _) =>
      if Listening(r, epoch) then l.(open := ChargeNamed(l.open, r, mask)) else l
    case DmaError(epoch, converter) =>
      if Listening(r, epoch) && converter < CONVERTER_COUNT then
        l.(open := Charge(l.open, r, r.nextCompletion.At(converter), false))
      else l
    case _ => l
  }

  ghost function LedgerRun(events: seq<Event>): (l: Ledger)
    ensures |l.open| == SLOT_COUNT
  {
    if events == [] then NewLedger()
    else
      var before := events[..|events| - 1];
      LedgerStep(LedgerRun(before), Run(before).ring, events[|events| - 1])
  }

  // ------------------------------------------------------------- the invariant

  /** A slot's marks are its evidence. */
  predicate Faithful(slot: GenerationSlot, e: Evidence) {
    slot.valid ==>
      && OnlyFirstAccepted(e.reports.adc0)
      && OnlyFirstAccepted(e.reports.adc1)
      && (slot.mask.adc0 <==> Heard(e.reports.adc0))
      && (slot.mask.adc1 <==> Heard(e.reports.adc1))
      && (slot.invalidData <==> !Clean(e, slot.destination))
      && slot.minimumLost == if e.overwritten then 1 else 0
  }

  ghost predicate AllFaithful(r: Ring, open: seq<Evidence>) {
    |open| == SLOT_COUNT && forall i :: 0 <= i < SLOT_COUNT ==> Faithful(r.slots[i], open[i])
  }

  /** A closed generation had its first report in turn, and only that, accepted from each converter; it became Ready
      exactly when it had a real destination and nothing against it. */
  predicate Justified(c: Closed) {
    && Heard(c.evidence.reports.adc0) && OnlyFirstAccepted(c.evidence.reports.adc0)
    && Heard(c.evidence.reports.adc1) && OnlyFirstAccepted(c.evidence.reports.adc1)
    && (c.ready <==> IsBufferDestination(c.destination) && Clean(c.evidence, c.destination))
  }

  /** The CPU may read the buffer, or is reading it. */
  predicate Readable(record: BufferRecord) {
    record.state == Ready || record.state == Reading
  }

  predicate Backs(c: Closed, d: nat, record: BufferRecord) {
    c.ready && c.destination == d && c.generation == record.generation
  }

  ghost predicate Backed(r: Ring, l: Ledger, d: nat)
    requires d < RING_DEPTH
  {
    Readable(r.records[d]) ==>
      exists k :: 0 <= k < |l.closed| && Backs(l.closed[k], d, r.records[d])
  }

  ghost predicate Attested(r: Ring, l: Ledger) {
    && AllFaithful(r, l.open)
    && (forall k :: 0 <= k < |l.closed| ==> Justified(l.closed[k]))
    && (forall d :: 0 <= d < RING_DEPTH ==> Backed(r, l, d))
  }

  // ------------------------------------------------------------- preservation

  /** One more report: the first in turn is accepted, every other one is refused. */
  lemma NoteReport(reports: seq<Report>, report: Report)
    requires OnlyFirstAccepted(reports)
    requires report.accepted <==> report.inTurn && !Heard(reports)
    ensures OnlyFirstAccepted(reports + [report])
    ensures Heard(reports + [report]) <==> Heard(reports) || report.inTurn
    ensures Heard(reports) ==> forall d :: Strayed(reports + [report], d) <==> Strayed(reports, d)
    ensures !Heard(reports) && report.inTurn ==> forall d :: Strayed(reports + [report], d) <==> report.destination != d
  {
    var more := reports + [report];
    assert more[..|reports|] == reports;
    assert FirstInTurn(more) == if Heard(reports) || report.inTurn then FirstInTurn(reports) else |more|;
  }

  lemma EnterFaithful(r: Ring, open: seq<Evidence>, converter: nat, i: nat, destination: u8)
    requires converter < CONVERTER_COUNT && i < SLOT_COUNT && r.slots[i].valid && SlotOwns(r, i)
    requires !r.slots[i].mask.At(converter) && AllFaithful(r, open)
    ensures AllFaithful(Enter(r, converter, i, destination), Note(open, i, converter, Report(destination, true, true)))
  {
    assert Faithful(r.slots[i], open[i]);
    NoteReport(open[i].reports.At(converter), Report(destination, true, true));
    hide OnlyFirstAccepted, Heard, Strayed;
  }

  /** A refused report changes nothing but the record of it. */
  lemma RefusedFaithful(r: Ring, after: Ring, open: seq<Evidence>, converter: nat, i: nat, report: Report)
    requires converter < CONVERTER_COUNT && i < SLOT_COUNT && AllFaithful(r, open) && after.slots == r.slots
    requires !report.accepted && (report.inTurn ==> r.slots[i].mask.At(converter)) && r.slots[i].valid
    ensures AllFaithful(after, Note(open, i, converter, report))
  {
    assert Faithful(r.slots[i], open[i]);
    var reports := open[i].reports.At(converter);
    NoteReport(reports, report);
    assert Faithful(r.slots[i], Note(open, i, converter, report)[i]) by {
      if !Heard(reports) {
        assert !Heard(reports + [report]);
      }
      hide OnlyFirstAccepted, Heard;
    }
    forall j | 0 <= j < SLOT_COUNT
      ensures Faithful(after.slots[j], Note(open, i, converter, report)[j])
    {
      assert Faithful(r.slots[j], open[j]);
    }
  }

  lemma CheckSkewFaithful(r: Ring, open: seq<Evidence>)
    requires AllFaithful(r, open)
    ensures AllFaithful(CheckSkew(r), Everywhere(open, Skewed(r), false))
  {
    forall i | 0 <= i < SLOT_COUNT
      ensures Faithful(CheckSkew(r).slots[i], Everywhere(open, Skewed(r), false)[i])
    {
      assert Faithful(r.slots[i], open[i]);
    }
  }

  /** A new generation has nothing finished and nothing against it. */
  lemma NothingIsFaithful()
    ensures OnlyFirstAccepted([]) && !Heard([]) && forall d :: !Strayed([], d)
  {
  }

  lemma ExtendFaithful(r: Ring, open: seq<Evidence>, generation: u32)
    requires AllFaithful(r, open)
    ensures AllFaithful(Extend(r, generation).0, Attempt(open, r, generation))
  {
    NothingIsFaithful();
    hide OnlyFirstAccepted, Heard, Strayed, TakeFreeBuffer;
    ScheduleEffect(r, generation);
    hide Schedule;
    forall i | 0 <= i < SLOT_COUNT
      ensures Faithful(Extend(r, generation).0.slots[i], Attempt(open, r, generation)[i])
    {
      assert Faithful(r.slots[i], open[i]);
    }
  }

  lemma DmaMovesKeepBacking(r: Ring, after: Ring, l: Ledger, l': Ledger)
    requires forall d :: 0 <= d < RING_DEPTH ==> Backed(r, l, d)
    requires forall d :: 0 <= d < RING_DEPTH && Readable(after.records[d]) ==>
      || (after.records[d].generation == r.records[d].generation
          && Readable(r.records[d]))
      || (|l'.closed| == |l.closed| + 1 && Backs(l'.closed[|l.closed|], d, after.records[d]))
    requires l.closed <= l'.closed
    ensures forall d :: 0 <= d < RING_DEPTH ==> Backed(after, l', d)
  {
    forall d | 0 <= d < RING_DEPTH
      ensures Backed(after, l', d)
    {
      if Readable(after.records[d]) &&
         !(|l'.closed| == |l.closed| + 1 && Backs(l'.closed[|l.closed|], d, after.records[d])) {
        assert Backed(r, l, d);
        var k :| 0 <= k < |l.closed| && Backs(l.closed[k], d, r.records[d]);
        assert Backs(l'.closed[k], d, after.records[d]);
      }
    }
  }

  /** An accepted completion, up to finalizing. */
  lemma AdvanceFaithful(r: Ring, l: Ledger, converter: nat, i: nat, generation: u32, destination: u8)
    requires converter < CONVERTER_COUNT && i < SLOT_COUNT && r.slots[i].valid && SlotOwns(r, i)
    requires !r.slots[i].mask.At(converter) && AllFaithful(r, l.open)
    ensures AllFaithful(Advance(r, converter, i, generation, destination).0,
                        LedgerAccept(Noted(l, i, converter, Report(destination, true, true)), r, converter, i,
                                     generation, destination).open)
  {
    EnterFaithful(r, l.open, converter, i, destination);
    var entered := Enter(r, converter, i, destination);
    var noted := Note(l.open, i, converter, Report(destination, true, true));
    hide Faithful, Note;
    CheckSkewFaithful(entered, noted);
    ExtendFaithful(CheckSkew(entered), Everywhere(noted, Skewed(entered), false), Wrap32(generation + 2));
  }

  /** Finalizing closes the generation as its evidence demands, and backs the buffer it publishes. */
  lemma FinalizeAttested(r: Ring, a: Ring, l: Ledger, open: seq<Evidence>, i: nat, generation: u32)
    requires i < SLOT_COUNT && a.slots[i].valid && a.slots[i].generation == generation && SlotOwns(a, i)
    requires AllFaithful(a, open) && AllConverters(a.slots[i].mask)
    requires Attested(r, l) && OnlyDmaMoves(r, a)
    requires forall d :: 0 <= d < RING_DEPTH && a.records[d].state == Ready ==> r.records[d] == a.records[d]
    ensures var (after, outcome) := Finalize(a, i);
            Attested(after, Ledger(open, l.closed + [Closed(generation, a.slots[i].destination, open[i],
                                                            outcome.ready)]))
  {
    var (after, outcome) := Finalize(a, i);
    FinalizeEffect(a, i);
    hide Finalize, Owned;
    var entry := Closed(generation, a.slots[i].destination, open[i], outcome.ready);
    var l' := Ledger(open, l.closed + [entry]);
    assert Faithful(a.slots[i], open[i]);
    assert Justified(entry);
    forall j | 0 <= j < SLOT_COUNT
      ensures Faithful(after.slots[j], open[j])
    {
      assert Faithful(a.slots[j], open[j]);
    }
    forall d | 0 <= d < RING_DEPTH && Readable(after.records[d])
      ensures || (after.records[d].generation == r.records[d].generation
                  && Readable(r.records[d]))
              || (|l'.closed| == |l.closed| + 1 && Backs(l'.closed[|l.closed|], d, after.records[d]))
    {
      assert DmaMove(r.records[d], a.records[d]);
    }
    DmaMovesKeepBacking(r, after, l, l');
  }

  lemma AdvanceMoves(r: Ring, converter: nat, i: nat, generation: u32, destination: u8)
    requires Matched(r) && converter < CONVERTER_COUNT && i < SLOT_COUNT && r.slots[i].valid
    ensures var a := Advance(r, converter, i, generation, destination).0;
            && OnlyDmaMoves(r, a)
            && (forall d :: 0 <= d < RING_DEPTH && a.records[d].state == Ready ==> r.records[d] == a.records[d])
            && a.slots[i].valid && a.slots[i].generation == r.slots[i].generation
            && a.slots[i].destination == r.slots[i].destination
  {
    AdvanceIsEntered(r, converter, i, generation, destination);
    ScheduleEffect(r, Wrap32(generation + 2));
    ScheduleOwns(r, Wrap32(generation + 2));
    TakeFreeOwns(r, Wrap32(generation + 2), r.nextFirstPair);
    var b := Schedule(r, Wrap32(generation + 2)).0;
    var a := Advance(r, converter, i, generation, destination).0;
    hide Advance, Schedule;
    assert a.slots[i].(invalidData := b.slots[i].invalidData)
        == b.slots[i].(mask := b.slots[i].mask.With(converter, true));
  }

  lemma AcceptAttested(r: Ring, l: Ledger, converter: nat, i: nat, generation: u32, destination: u8)
    requires converter < CONVERTER_COUNT && i < SLOT_COUNT && Holds(r.slots[i], generation)
    requires !r.slots[i].mask.At(converter) && Matched(r) && Attested(r, l)
    ensures Attested(Accept(r, converter, i, generation, destination),
                     LedgerAccept(Noted(l, i, converter, Report(destination, true, true)), r, converter, i, generation,
                                  destination))
  {
    assert SlotOwns(r, i);
    AdvanceFaithful(r, l, converter, i, generation, destination);
    AdvanceMoves(r, converter, i, generation, destination);
    AdvanceOwns(r, converter, i, generation, destination);
    var a := Advance(r, converter, i, generation, destination).0;
    var l' := LedgerAccept(Noted(l, i, converter, Report(destination, true, true)), r, converter, i, generation,
                           destination);
    hide Advance, Enter, CheckSkew, Attempt, Note, Matched, Faithful;
    if AllConverters(a.slots[i].mask) {
      assert SlotOwns(a, i) by {
        MatchedSlot(a, i);
      }
      FinalizeAttested(r, a, l, l'.open, i, generation);
    } else {
      forall d | 0 <= d < RING_DEPTH
        ensures DmaMove(r.records[d], a.records[d])
      {
      }
      DmaMovesKeepBacking(r, a, l, l');
    }
  }

  lemma MatchedSlot(r: Ring, i: nat)
    requires Matched(r) && i < SLOT_COUNT
    ensures SlotOwns(r, i)
  {
  }

  lemma ChargeFaithful(r: Ring, open: seq<Evidence>, generation: u32, minimumLost: u32)
    requires AllFaithful(r, open) && minimumLost <= 1
    ensures AllFaithful(MarkGenerationInvalid(r, generation, minimumLost),
                        Charge(open, r, generation, minimumLost == 1))
  {
    forall i | 0 <= i < SLOT_COUNT
      ensures Faithful(MarkGenerationInvalid(r, generation, minimumLost).slots[i],
                       Charge(open, r, generation, minimumLost == 1)[i])
    {
      assert Faithful(r.slots[i], open[i]);
    }
  }

  lemma OverwriteFaithful(r: Ring, c: Ring, open: seq<Evidence>, mask: u8, converter: nat)
    requires AllFaithful(c, open) && converter < CONVERTER_COUNT
    requires SameKeys(r.slots, c.slots) && r.nextCompletion == c.nextCompletion
    ensures AllFaithful(ChargeOverwrite(c, mask, converter),
                        if MaskNames(mask, converter) then Charge(open, r, r.nextCompletion.At(converter), true)
                        else open)
    ensures ChargeOverwrite(c, mask, converter).records == c.records
    ensures SameKeys(r.slots, ChargeOverwrite(c, mask, converter).slots)
    ensures ChargeOverwrite(c, mask, converter).nextCompletion == c.nextCompletion
  {
    SearchByKeys(r.slots, c.slots, r.nextCompletion.At(converter));
    var counted := c.(progress := c.progress.(
      overwrittenConversions := SaturatingIncrement64(c.progress.overwrittenConversions)));
    assert AllFaithful(counted, open);
    ChargeFaithful(counted, open, c.nextCompletion.At(converter), 1);
  }

  lemma NamedFaithful(r: Ring, c: Ring, open: seq<Evidence>, mask: u8)
    requires AllFaithful(c, open) && SameKeys(r.slots, c.slots) && r.nextCompletion == c.nextCompletion
    ensures AllFaithful(ChargeOverwrite(ChargeOverwrite(c, mask, 0), mask, 1), ChargeNamed(open, r, mask))
    ensures ChargeOverwrite(ChargeOverwrite(c, mask, 0), mask, 1).records == c.records
  {
    assert (mask / 2) % 2 == 1 <==> mask % 4 >= 2;
    hide Charge, ChargeOverwrite, AllFaithful;
    OverwriteFaithful(r, c, open, mask, 0);
    var first := if MaskNames(mask, 0) then Charge(open, r, r.nextCompletion.adc0, true) else open;
    OverwriteFaithful(r, ChargeOverwrite(c, mask, 0), first, mask, 1);
  }

  lemma ErrorsAttested(r: Ring, l: Ledger, e: Event)
    requires e.AdcEtcError? || e.DmaError?
    requires Attested(r, l)
    ensures Attested(Step(System(r, map[]), e).ring, LedgerStep(l, r, e))
  {
    hide ChargeNamed, ChargeOverwrite, MarkGenerationInvalid;
    if Listening(r, e.epoch) {
      var after := Step(System(r, map[]), e).ring;
      if e.AdcEtcError? {
        var noted := NoteEtcEvent(r, e.mask, e.flags);
        assert AllFaithful(noted, l.open);
        NamedFaithful(r, noted, l.open, e.mask);
      } else if e.converter < CONVERTER_COUNT {
        var counted := r.(progress := r.progress.(dmaErrorEvents := SaturatingIncrement32(r.progress.dmaErrorEvents)));
        assert AllFaithful(counted, l.open);
        ChargeFaithful(counted, l.open, r.nextCompletion.At(e.converter), 0);
        MarkKeepsRecords(counted, r.nextCompletion.At(e.converter));
      } else {
        assert AllFaithful(after, l.open);
      }
      assert after.records == r.records;
      DmaMovesKeepBacking(r, after, l, LedgerStep(l, r, e));
    }
  }

  lemma MarkKeepsRecords(r: Ring, generation: u32)
    ensures MarkGenerationInvalid(r, generation, 0).records == r.records
  {
  }

  lemma PrimeAttested(r: Ring, l: Ledger, e: Event)
    requires e.Prime? && Attested(r, l)
    ensures Attested(Step(System(r, map[]), e).ring, LedgerStep(l, r, e))
  {
    if e.epoch != 0 && 1 <= e.pairs <= PAIRS_PER_FRAME && !r.running && AllFree(r.records) {
      PrimeSeeds(r, e.epoch, e.generation, e.firstPair, e.pairs);
      var after := Step(System(r, map[]), e).ring;
      var seeded := Seeds(Cleared(r, e.epoch, e.generation, e.firstPair, e.pairs), e.generation).0;
      assert after.slots == seeded.slots && after.records == seeded.records;
      hide Step, Seeds, Schedule;
      forall i | 0 <= i < SLOT_COUNT
        ensures Faithful(after.slots[i], NewLedger().open[i])
      {
      }
    }
  }

  lemma ReserveAttested(r: Ring, l: Ledger, e: Event)
    requires e.Reserve? && Matched(r) && Attested(r, l)
    ensures Attested(Step(System(r, map[]), e).ring, LedgerStep(l, r, e))
  {
    if Listening(r, e.epoch) {
      ScheduleEffect(r, e.generation);
      TakeFreeOwns(r, e.generation, r.nextFirstPair);
      var after := Step(System(r, map[]), e).ring;
      var l' := LedgerStep(l, r, e);
      assert after == Schedule(r, e.generation).0;
      hide Step, Schedule;
      forall i | 0 <= i < SLOT_COUNT
        ensures Faithful(after.slots[i], l'.open[i])
      {
        assert Faithful(r.slots[i], l.open[i]);
      }
      DmaMovesKeepBacking(r, after, l, l');
    }
  }

  /** Foreground halves and stop: slots only empty, and no buffer becomes readable. */
  lemma CpuKeepsAttested(r: Ring, after: Ring, l: Ledger)
    requires Attested(r, l)
    requires forall i :: 0 <= i < SLOT_COUNT ==> after.slots[i] == r.slots[i] || !after.slots[i].valid
    requires forall d :: 0 <= d < RING_DEPTH && Readable(after.records[d]) ==>
      && after.records[d].generation == r.records[d].generation
      && Readable(r.records[d])
    ensures Attested(after, l)
  {
    forall i | 0 <= i < SLOT_COUNT
      ensures Faithful(after.slots[i], l.open[i])
    {
      assert Faithful(r.slots[i], l.open[i]);
    }
    DmaMovesKeepBacking(r, after, l, l);
  }

  lemma StopAttested(s: System, l: Ledger, e: Event)
    requires e.Stop? && Owned(s.ring) && Attested(s.ring, l)
    ensures Attested(Step(s, e).ring, l)
  {
    StopOwns(s.ring, e.channels, e.consistent);
    if s.ring.running {
      var after := Step(s, e).ring;
      hide Step, RingModel.Stop;
      forall d | 0 <= d < RING_DEPTH
        ensures Surrendered(s.ring.records[d], after.records[d])
      {
      }
      CpuKeepsAttested(s.ring, after, l);
    }
  }

  lemma RejectedAttested(r: Ring, l: Ledger, converter: u8, epoch: u32, generation: u32, destination: u8)
    requires Attested(r, l) && !Judge(r, converter, epoch, generation).Accepted?
    ensures Attested(RingModel.Complete(r, converter, epoch, generation, destination),
                     LedgerComplete(l, r, converter, epoch, generation, destination))
  {
    RejectedKeepsTables(r, converter, epoch, generation, destination);
    var after := RingModel.Complete(r, converter, epoch, generation, destination);
    var l' := LedgerComplete(l, r, converter, epoch, generation, destination);
    var i := Find(r.slots, generation);
    hide RingModel.Complete, Faithful, Note, Find;
    if Listening(r, epoch) && converter < CONVERTER_COUNT && i < SLOT_COUNT {
      var inTurn := generation == r.nextCompletion.At(converter);
      RefusedFaithful(r, after, l.open, converter, i, Report(destination, inTurn, false));
    }
    DmaMovesKeepBacking(r, after, l, l');
  }

  lemma CompleteAttested(r: Ring, l: Ledger, converter: u8, epoch: u32, generation: u32, destination: u8)
    requires Matched(r) && Attested(r, l)
    ensures Attested(RingModel.Complete(r, converter, epoch, generation, destination),
                     LedgerComplete(l, r, converter, epoch, generation, destination))
  {
    var verdict := Judge(r, converter, epoch, generation);
    hide Attested, LedgerAccept, Accept, Noted;
    if verdict.Accepted? {
      AcceptAttested(r, l, converter, verdict.slot, generation, destination);
    } else {
      RejectedAttested(r, l, converter, epoch, generation, destination);
    }
  }

  lemma ForegroundAttested(s: System, l: Ledger, e: Event)
    requires Safe(s) && Attested(s.ring, l)
    requires e.Acquire? || e.BeginRelease? || e.EndRelease? || e.BeginDiscard? || e.EndDiscard?
    ensures Attested(Step(s, e).ring, l)
  {
    hide Attested, Owned, OldestReady, FirstDiscard, AllocateLease, DiscardCache;
    match e {
      case EndRelease(d) =>
        if d in s.flights && s.flights[d].ByHandle? {
          EndReleaseIsSafe(s, d);
        }
      case EndDiscard(d) => DiscardIsSafe(s, d);
      case _ =>
    }
    CpuKeepsAttested(s.ring, Step(s, e).ring, l);
  }

  lemma StepAttested(s: System, l: Ledger, e: Event)
    requires Safe(s) && Attested(s.ring, l)
    ensures Attested(Step(s, e).ring, LedgerStep(l, s.ring, e))
  {
    assert |l.open| == SLOT_COUNT;
    hide Attested, Matched, LedgerComplete, RecordAdcEtcError, RecordDmaError, RingModel.Stop, RingModel.Reserve;
    match e {
      case Prime(_, _, _, _) => PrimeAttested(s.ring, l, e);
      case Reserve(_, _) => ReserveAttested(s.ring, l, e);
      case Complete(converter, epoch, generation, destination) =>
        CompleteAttested(s.ring, l, converter, epoch, generation, destination);
      case AdcEtcError(_, _, _) => ErrorsAttested(s.ring, l, e);
      case DmaError(_, _) => ErrorsAttested(s.ring, l, e);
      case Stop(_, _) => StopAttested(s, l, e);
      case _ => ForegroundAttested(s, l, e);
    }
  }

  lemma {:induction false} EveryRunIsAttested(events: seq<Event>)
    ensures Attested(Run(events).ring, LedgerRun(events))
  {
    if events == [] {
    } else {
      var before := events[..|events| - 1];
      EveryRunIsAttested(before);
      EveryRunIsSafe(before);
      StepAttested(Run(before), LedgerRun(before), events[|events| - 1]);
    }
  }

  /** In every run, of all the completions that name a generation while it is outstanding, the ring accepts from each
      converter exactly the first made in turn. A generation both converters finish becomes Ready exactly when it had a
      real destination, both accepted reports named it, and while it was outstanding no overwrite and no DMA error was
      charged to it, the channels never drifted apart by more than one, and no scheduling failed; refused reports do
      not matter. */
  lemma ReadyByEvidence(events: seq<Event>, k: nat)
    requires k < |LedgerRun(events).closed|
    ensures var c := LedgerRun(events).closed[k];
            var (first, second) := (FirstInTurn(c.evidence.reports.adc0), FirstInTurn(c.evidence.reports.adc1));
            && first < |c.evidence.reports.adc0| && second < |c.evidence.reports.adc1|
            && (forall n :: 0 <= n < |c.evidence.reports.adc0| ==>
                  (c.evidence.reports.adc0[n].accepted <==> n == first))
            && (forall n :: 0 <= n < |c.evidence.reports.adc1| ==>
                  (c.evidence.reports.adc1[n].accepted <==> n == second))
            && (c.ready <==>
                  && IsBufferDestination(c.destination)
                  && c.evidence.reports.adc0[first].destination == c.destination
                  && c.evidence.reports.adc1[second].destination == c.destination
                  && !c.evidence.overwritten && !c.evidence.faulted && !c.evidence.skewed && !c.evidence.starved)
  {
    hide Run, LedgerRun, FirstInTurn;
    EveryRunIsAttested(events);
    assert Justified(LedgerRun(events).closed[k]);
  }

  /** In every run, a buffer the CPU may read was published by such a closing of its own generation. */
  lemma ReadableIsBacked(events: seq<Event>, d: nat)
    requires d < RING_DEPTH
    requires Readable(Run(events).ring.records[d])
    ensures exists k :: 0 <= k < |LedgerRun(events).closed|
                        && LedgerRun(events).closed[k].ready
                        && LedgerRun(events).closed[k].destination == d
                        && LedgerRun(events).closed[k].generation == Run(events).ring.records[d].generation
  {
    hide Run, LedgerRun;
    EveryRunIsAttested(events);
    assert Backed(Run(events).ring, LedgerRun(events), d);
  }

  // ------------------------------------------------------------ a report made twice

  lemma LedgerSnoc(events: seq<Event>, e: Event)
    ensures Run(events + [e]) == Step(Run(events), e)
    ensures LedgerRun(events + [e]) == LedgerStep(LedgerRun(events), Run(events).ring, e)
  {
    hide Step, LedgerStep;
    assert (events + [e])[..|events|] == events;
  }

  /** Accepting a report of the first generation notes it, and closes the generation if the other was there before. */
  lemma FirstGenerationNoted(l: Ledger, r: Ring, converter: nat, firstPair: u64, mask: Mask)
    requires |l.open| == SLOT_COUNT && converter < CONVERTER_COUNT && Begun(r, firstPair, mask) && !mask.At(converter)
    ensures var l' := LedgerComplete(l, r, converter, 1, 0, 0);
            var reports := l.open[0].reports.With(converter, l.open[0].reports.At(converter) + [Report(0, true, true)]);
            if mask.At(1 - converter) then
              |l'.closed| == |l.closed| + 1 && l'.closed[|l.closed|].evidence.reports == reports
            else l'.closed == l.closed && l'.open[0].reports == reports
  {
    EnteredFirst(r, converter, firstPair, mask);
    AdvanceIsEntered(r, converter, 0, 0, 0);
    var (a, b) := (Advance(r, converter, 0, 0, 0).0, Schedule(r, 2).0);
    ScheduleEffect(r, 2);
    assert a.slots[0].(invalidData := b.slots[0].invalidData)
        == b.slots[0].(mask := b.slots[0].mask.With(converter, true));
    hide Advance, Schedule, Finalize;
  }

  /** A report out of turn is noted and changes nothing the next report looks at. */
  lemma RepeatNoted(l: Ledger, r: Ring, firstPair: u64, destination: u8)
    requires |l.open| == SLOT_COUNT && Begun(r, firstPair, PerConverter(true, false))
    ensures var l' := LedgerComplete(l, r, 0, 1, 0, destination);
            && l'.closed == l.closed
            && l'.open[0].reports
               == l.open[0].reports.With(0, l.open[0].reports.At(0) + [Report(destination, false, false)])
    ensures Begun(RingModel.Complete(r, 0, 1, 0, destination), firstPair, PerConverter(true, false))
  {
    assert Find(r.slots, 0) == 0;
  }

  /** The first generation as far as `reports` tell: scheduled, noted so, and not closed. */
  ghost predicate Noticed(events: seq<Event>, mask: Mask, reports: PerConverter<seq<Report>>) {
    && Begun(Run(events).ring, 0, mask)
    && LedgerRun(events).closed == []
    && LedgerRun(events).open[0].reports == reports
  }

  lemma Primed(pairs: u32) returns (events: seq<Event>)
    requires 1 <= pairs <= PAIRS_PER_FRAME
    ensures Noticed(events, NO_CONVERTER, PerConverter([], []))
  {
    var e := Event.Prime(1, 0, 0, pairs);
    events := [] + [e];
    LedgerSnoc([], e);
    StartIsFree();
    hide Run, LedgerRun, RingModel.Prime, Begun;
    PrimedBegins(Run([]).ring, 0, pairs);
    PrimeSeeds(Run([]).ring, 1, 0, 0, pairs);
  }

  lemma ReportOnce(before: seq<Event>, e: Event) returns (events: seq<Event>)
    requires Noticed(before, NO_CONVERTER, PerConverter([], [])) && e == Event.Complete(0, 1, 0, 0)
    ensures Noticed(events, PerConverter(true, false), PerConverter([Report(0, true, true)], []))
  {
    events := before + [e];
    LedgerSnoc(before, e);
    hide Run, LedgerRun, RingModel.Complete, LedgerComplete, Begun;
    FirstReport(Run(before).ring, 0, 0);
    FirstGenerationNoted(LedgerRun(before), Run(before).ring, 0, 0, NO_CONVERTER);
    assert [] + [Report(0, true, true)] == [Report(0, true, true)];
    assert NO_CONVERTER.With(0, true) == PerConverter(true, false);
  }

  lemma ReportTwice(before: seq<Event>, e: Event) returns (events: seq<Event>)
    requires Noticed(before, PerConverter(true, false), PerConverter([Report(0, true, true)], []))
    requires e == Event.Complete(0, 1, 0, 1)
    ensures Noticed(events, PerConverter(true, false),
                    PerConverter([Report(0, true, true), Report(1, false, false)], []))
  {
    events := before + [e];
    LedgerSnoc(before, e);
    hide Run, LedgerRun, RingModel.Complete, LedgerComplete, Begun;
    RepeatNoted(LedgerRun(before), Run(before).ring, 0, 1);
    assert [Report(0, true, true)] + [Report(1, false, false)] == [Report(0, true, true), Report(1, false, false)];
  }

  lemma ReportByTheOther(before: seq<Event>, e: Event, reports: seq<Report>) returns (events: seq<Event>)
    requires Noticed(before, PerConverter(true, false), PerConverter(reports, [])) && e == Event.Complete(1, 1, 0, 0)
    ensures |LedgerRun(events).closed| == 1 && LedgerRun(events).closed[0].ready
    ensures LedgerRun(events).closed[0].evidence.reports == PerConverter(reports, [Report(0, true, true)])
  {
    hide Run, LedgerRun, RingModel.Complete, LedgerComplete, Begun, AllFaithful, Justified, FirstInTurn;
    events := before + [e];
    LedgerSnoc(before, e);
    EveryRunIsAttested(events);
    assert [] + [Report(0, true, true)] == [Report(0, true, true)];
    assert NO_CONVERTER.With(0, true) == PerConverter(true, false);
    var (r, l) := (Run(before).ring, LedgerRun(before));
    assert Run(events).ring == RingModel.Complete(r, 1, 1, 0, 0);
    assert LedgerRun(events) == LedgerComplete(l, r, 1, 1, 0, 0);
    SecondReport(Run(before).ring, 1, 0);
    FirstGenerationNoted(LedgerRun(before), Run(before).ring, 1, 0, PerConverter(true, false));
    assert Backed(Run(events).ring, LedgerRun(events), 0);
  }

  /** A converter may report a generation again, and into another destination: the repeat is refused, and the buffer
      still becomes Ready once the other converter has finished it. */
  lemma RepeatedReportIsHarmless(pairs: u32) returns (events: seq<Event>)
    requires 1 <= pairs <= PAIRS_PER_FRAME
    ensures var closed := LedgerRun(events).closed;
            && closed != [] && closed[0].ready
            && closed[0].evidence.reports.adc0 == [Report(0, true, true), Report(1, false, false)]
            && closed[0].evidence.reports.adc1 == [Report(0, true, true)]
  {
    hide Noticed, Run, LedgerRun;
    var once := Primed(pairs);
    once := ReportOnce(once, Event.Complete(0, 1, 0, 0));
    var twice := ReportTwice(once, Event.Complete(0, 1, 0, 1));
    events := ReportByTheOther(twice, Event.Complete(1, 1, 0, 0), [Report(0, true, true), Report(1, false, false)]);
  }
}
