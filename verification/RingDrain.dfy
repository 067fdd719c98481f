/** After a stop: whatever order the foreground works in, the ring comes to quiescence, unless a Ready buffer starts at
    the last 64-bit pair number, which acquireReady never selects. */
module RingDrain {
  import opened FixedWidth
  import opened RingModel
  import opened RingOwnership
  import opened RingRuns
  import opened RingLeases
  import opened RingBeginnings

  /** Foreground steps still owed to free one buffer of a stopped ring. */
  function Debt(state: BufferState): nat {
    match state
    case Ready => 3
    case Reading => 2
    case DiscardPending => 2
    case Releasing => 1
    case _ => 0
  }

  function TotalDebt(records: seq<BufferRecord>): nat {
    if |records| == 0 then 0
    else TotalDebt(records[..|records| - 1]) + Debt(records[|records| - 1].state)
  }

  lemma {:induction false} DebtUpdate(records: seq<BufferRecord>, d: nat, record: BufferRecord)
    requires d < |records|
    ensures TotalDebt(records[d := record]) == TotalDebt(records) - Debt(records[d].state) + Debt(record.state)
  {
    var n := |records| - 1;
    if d == n {
      assert records[d := record][..n] == records[..n];
    } else {
      assert records[d := record][..n] == records[..n][d := record];
      DebtUpdate(records[..n], d, record);
    }
  }

  lemma {:induction false} NoDebt(records: seq<BufferRecord>)
    ensures TotalDebt(records) == 0 <==> forall d :: 0 <= d < |records| ==> Debt(records[d].state) == 0
  {
    var n := |records| - 1;
    if |records| > 0 {
      NoDebt(records[..n]);
      assert forall d :: 0 <= d < n ==> records[..n][d] == records[d];
    }
  }

  /** A Ready buffer whose first pair is the ceiling the oldest-first scan starts from. */
  predicate AtCeiling(record: BufferRecord) {
    record.state == Ready && record.firstPair == MAX_64
  }

  predicate NoneAtCeiling(r: Ring) {
    forall d :: 0 <= d < RING_DEPTH ==> !AtCeiling(r.records[d])
  }

  predicate ForegroundStep(e: Event) {
    e.Acquire? || e.BeginRelease? || e.EndRelease? || e.BeginDiscard? || e.EndDiscard?
  }

  /** A step of the foreground that does something to a buffer. */
  predicate Effective(s: System, e: Event) {
    ForegroundStep(e) && Step(s, e).ring.records != s.ring.records
  }

  // ------------------------------------------------------------ one step at a time

  /** Every effective step changes one buffer, and takes it exactly one step closer to being free. */
  lemma EffectivePays(s: System, e: Event)
    requires Safe(s) && Effective(s, e)
    ensures TotalDebt(Step(s, e).ring.records) + 1 == TotalDebt(s.ring.records)
    ensures Step(s, e).ring.running == s.ring.running
    ensures NoneAtCeiling(s.ring) ==> NoneAtCeiling(Step(s, e).ring)
  {
    var d := StepsOn(s, e);
    var after := Step(s, e).ring;
    hide Step, TotalDebt, Safe, Effective;
    DebtUpdate(s.ring.records, d, after.records[d]);
  }

  lemma StepsOn(s: System, e: Event) returns (d: nat)
    requires Safe(s) && Effective(s, e)
    ensures d < RING_DEPTH
    ensures var after := Step(s, e).ring;
            && after.records == s.ring.records[d := after.records[d]]
            && Debt(after.records[d].state) + 1 == Debt(s.ring.records[d].state)
            && after.records[d].state != Ready
            && after.running == s.ring.running
  {
    match e {
      case Acquire => d := OldestReady(s.ring.records, RING_DEPTH);
      case BeginRelease(handle) => d := handle.bufferIndex;
      case EndRelease(buffer) => d := buffer;
      case BeginDiscard => d := FirstDiscard(s.ring.records);
      case EndDiscard(buffer) => d := buffer;
    }
  }

  /** A stopped ring has no buffer left to DMA. */
  lemma HaltedOwnsNothing(r: Ring, d: nat)
    requires Owned(r) && !r.running && d < RING_DEPTH
    ensures r.records[d].state != DmaOwned
  {
    assert forall i :: 0 <= i < SLOT_COUNT ==> !Claims(r.slots[i], d);
  }

  /** On a stopped ring something can be done while a buffer is not free, open second halves included. */
  lemma SomethingToDo(s: System, l: Leases, d: nat) returns (e: Event)
    requires Safe(s) && Leased(s, l) && !s.ring.running && NoneAtCeiling(s.ring)
    requires d < RING_DEPTH && s.ring.records[d].state != Free
    ensures Effective(s, e)
  {
    HaltedOwnsNothing(s.ring, d);
    e := Acquire;
    match s.ring.records[d].state {
      case Ready =>
        assert !AtCeiling(s.ring.records[d]);
        var oldest := OldestReady(s.ring.records, RING_DEPTH);
        assert Step(s, e).ring.records[oldest].state == Reading;
      case Reading =>
        assert LeaseHeld(s, l, d);
        e := BeginRelease(HandleOf(s.ring, d));
        assert Step(s, e).ring.records[d].state == Releasing;
      case DiscardPending =>
        e := BeginDiscard;
        assert Step(s, e).ring.records[FirstDiscard(s.ring.records)].state == Releasing;
      case Releasing =>
        e := if s.flights[d].ByHandle? then EndRelease(d) else EndDiscard(d);
        assert Step(s, e).ring.records[d].state == Free;
      case _ =>
    }
  }

  // ---------------------------------------------------------------- every drain

  lemma RunSnoc(events: seq<Event>, e: Event)
    ensures Run(events + [e]) == Step(Run(events), e)
  {
    assert (events + [e])[..|events|] == events;
  }

  /** Every one of the further steps is an effective foreground step where it is made. */
  predicate Works(events: seq<Event>, more: seq<Event>)
    decreases |more|
  {
    more == [] || (Effective(Run(events), more[0]) && Works(events + [more[0]], more[1..]))
  }

  lemma {:induction false} WorkPays(events: seq<Event>, more: seq<Event>)
    requires Works(events, more)
    ensures TotalDebt(Run(events + more).ring.records) + |more| == TotalDebt(Run(events).ring.records)
    ensures Run(events + more).ring.running == Run(events).ring.running
    ensures NoneAtCeiling(Run(events).ring) ==> NoneAtCeiling(Run(events + more).ring)
    decreases |more|
  {
    hide Run, TotalDebt, Step, NoneAtCeiling, Effective;
    if more == [] {
      assert events + more == events;
    } else {
      EveryRunIsSafe(events);
      EffectivePays(Run(events), more[0]);
      RunSnoc(events, more[0]);
      WorkPays(events + [more[0]], more[1..]);
      assert events + more == (events + [more[0]]) + more[1..];
    }
  }

  /** No foreground step would do anything. */
  ghost predicate Idle(s: System) {
    forall e: Event :: !Effective(s, e)
  }

  lemma IdleWhenFree(events: seq<Event>)
    requires !Run(events).ring.running && NoneAtCeiling(Run(events).ring)
    ensures Idle(Run(events)) <==> AllFree(Run(events).ring.records)
    ensures TotalDebt(Run(events).ring.records) == 0 <==> AllFree(Run(events).ring.records)
  {
    EveryRunIsSafe(events);
    EveryRunIsLeased(events);
    var s := Run(events);
    var l := LeaseRun(events);
    hide Run, LeaseRun, Effective;
    NoDebt(s.ring.records);
    forall d | 0 <= d < RING_DEPTH
      ensures Debt(s.ring.records[d].state) == 0 <==> s.ring.records[d].state == Free
    {
      HaltedOwnsNothing(s.ring, d);
    }
    if d :| 0 <= d < RING_DEPTH && s.ring.records[d].state != Free {
      var e := SomethingToDo(s, l, d);
    } else {
      forall e: Event
        ensures !Effective(s, e)
      {
        if Effective(s, e) {
          EffectivePays(s, e);
        }
      }
    }
  }

  /** From any stopped state of any run, with second halves open or not, every sequence of acquires, releases and
      discards that does something at each step comes to an end within the debt of its start; it can go no further
      exactly when every buffer is Free, and that is after exactly as many steps as were owed. */
  lemma EveryDrainEnds(events: seq<Event>, more: seq<Event>)
    requires !Run(events).ring.running && NoneAtCeiling(Run(events).ring) && Works(events, more)
    ensures |more| <= TotalDebt(Run(events).ring.records)
    ensures Idle(Run(events + more)) <==> AllFree(Run(events + more).ring.records)
    ensures |more| == TotalDebt(Run(events).ring.records) <==> AllFree(Run(events + more).ring.records)
  {
    hide Run, TotalDebt;
    WorkPays(events, more);
    IdleWhenFree(events + more);
  }

  /** Some such sequence frees every buffer. */
  lemma {:induction false} Drain(events: seq<Event>) returns (more: seq<Event>)
    requires !Run(events).ring.running && NoneAtCeiling(Run(events).ring)
    ensures Works(events, more) && AllFree(Run(events + more).ring.records)
    decreases TotalDebt(Run(events).ring.records)
  {
    hide Run, TotalDebt;
    IdleWhenFree(events);
    if AllFree(Run(events).ring.records) {
      more := [];
      assert events + [] == events && Works(events, []);
    } else {
      var e: Event :| Effective(Run(events), e);
      RunSnoc(events, e);
      EveryRunIsSafe(events);
      EffectivePays(Run(events), e);
      var rest := Drain(events + [e]);
      more := [e] + rest;
      assert events + more == (events + [e]) + rest && more[1..] == rest;
    }
  }

  /** A Ready buffer at the ceiling stays Ready through any step whatever. */
  lemma CeilingStays(s: System, e: Event, d: nat)
    requires Safe(s) && d < RING_DEPTH && AtCeiling(s.ring.records[d])
    ensures AtCeiling(Step(s, e).ring.records[d])
  {
    var after := Step(s, e).ring;
    match e {
      case Prime(epoch, generation, firstPair, pairs) =>
        assert !AllFree(s.ring.records);
      case Reserve(epoch, generation) =>
        ReserveOwns(s.ring, epoch, generation);
        assert DmaMove(s.ring.records[d], after.records[d]);
      case Complete(converter, epoch, generation, destination) =>
        CompleteOwns(s.ring, converter, epoch, generation, destination);
        assert DmaMove(s.ring.records[d], after.records[d]);
      case AdcEtcError(epoch, mask, flags) => ErrorsOwn(s.ring, epoch, mask, flags, 0);
      case DmaError(epoch, converter) => ErrorsOwn(s.ring, epoch, 0, 0, converter);
      case Stop(channels, consistent) =>
        StopOwns(s.ring, channels, consistent);
        assert DmaMove(s.ring.records[d], after.records[d]);
      case EndDiscard(c) => DiscardIsSafe(s, c);
      case EndRelease(c) =>
        if c in s.flights && s.flights[c].ByHandle? {
          EndReleaseIsSafe(s, c);
        }
      case _ =>
    }
  }

  lemma {:induction false} CeilingStaysForever(events: seq<Event>, more: seq<Event>, d: nat)
    requires d < RING_DEPTH && AtCeiling(Run(events).ring.records[d])
    ensures AtCeiling(Run(events + more).ring.records[d])
    decreases |more|
  {
    if more == [] {
      assert events + more == events;
    } else {
      var n := |more| - 1;
      CeilingStaysForever(events, more[..n], d);
      EveryRunIsSafe(events + more[..n]);
      CeilingStays(Run(events + more[..n]), more[n], d);
      RunSnoc(events + more[..n], more[n]);
      assert events + more == (events + more[..n]) + [more[n]];
    }
  }

  ghost predicate Drainable(events: seq<Event>) {
    exists more: seq<Event> :: Works(events, more) && AllFree(Run(events + more).ring.records)
  }

  /** From any stopped state of any run, acquiring, releasing and discarding can bring every buffer back to Free
      exactly when no Ready buffer starts at pair number 2^64 - 1. */
  lemma DrainsUnlessAtCeiling(events: seq<Event>)
    requires !Run(events).ring.running
    ensures Drainable(events) <==> NoneAtCeiling(Run(events).ring)
  {
    hide Run;
    if NoneAtCeiling(Run(events).ring) {
      var more := Drain(events);
    } else {
      var d :| 0 <= d < RING_DEPTH && AtCeiling(Run(events).ring.records[d]);
      forall more: seq<Event>
        ensures !AllFree(Run(events + more).ring.records)
      {
        CeilingStaysForever(events, more, d);
      }
    }
  }

  /** Once every buffer is Free again, a stopped ring primes for any nonzero epoch and legal pair count. */
  lemma DrainedRingPrimes(r: Ring, epoch: u32, generation: u32, firstPair: u64, pairs: u32)
    requires !r.running && AllFree(r.records)
    ensures RingModel.Prime(r, epoch, generation, firstPair, pairs).1.status ==
              if epoch == 0 then InvalidEpoch
              else if pairs == 0 || pairs > PAIRS_PER_FRAME then InvalidPairCount
              else Ok
  {
    if epoch != 0 && 1 <= pairs <= PAIRS_PER_FRAME {
      PrimeSeeds(r, epoch, generation, firstPair, pairs);
    }
  }

  /** The ceiling is reachable: one generation primed at the last pair number and finished by both converters. */
  lemma CeilingIsReachable()
    ensures var events := [Event.Prime(1, 0, MAX_64, 1), Event.Complete(0, 1, 0, 0), Event.Complete(1, 1, 0, 0)];
            AtCeiling(Run(events).ring.records[0])
  {
    var e0, e1, e2 := Event.Prime(1, 0, MAX_64, 1), Event.Complete(0, 1, 0, 0), Event.Complete(1, 1, 0, 0);
    RunSnoc([], e0);
    RunSnoc([e0], e1);
    RunSnoc([e0, e1], e2);
    assert [] + [e0] == [e0] && [e0] + [e1] == [e0, e1] && [e0, e1] + [e2] == [e0, e1, e2];
    assert Run([]) == START;
    PrimedBegins(INITIAL, MAX_64, 1);
    var primed := Step(START, e0).ring;
    FirstReport(primed, 0, MAX_64);
    SecondReport(RingModel.Complete(primed, 0, 1, 0, 0), 1, MAX_64);
  }
}
