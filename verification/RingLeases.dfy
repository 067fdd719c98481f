/** Leases: a handle frees its buffer at most once, and stale handles are refused until the lease counter wraps. */
module RingLeases {
  import opened FixedWidth
  import opened RingModel
  import opened RingOwnership
  import opened RingRuns

  /** Lease values repeat after this many allocations; zero is skipped. */
  const LEASE_PERIOD: nat := TWO_32 - 1

  function LeaseValue(n: nat): u32
    requires n >= 1
  {
    (n - 1) % LEASE_PERIOD + 1
  }

  /** Every handle given out so far, in order; the number of the latest lease of each buffer; the numbers returned. */
  datatype Leases = Leases(given: seq<BufferHandle>, latest: seq<nat>, returned: set<nat>)

  ghost function NoLeases(): Leases {
    Leases([], seq(RING_DEPTH, _ => 0), {})
  }

  ghost function LeaseStep(l: Leases, s: System, e: Event): (after: Leases)
    requires |l.latest| == RING_DEPTH
    ensures |after.latest| == RING_DEPTH
  {
    match e
    case Acquire =>
      var d := OldestReady(s.ring.records, RING_DEPTH);
      if d < RING_DEPTH then
        l.(given := l.given + [RingModel.Acquire(s.ring).1.handle], latest := l.latest[d := |l.given| + 1])
      else l
    case EndRelease(d) =>
      if d < RING_DEPTH && d in s.flights && s.flights[d].ByHandle? then
        l.(returned := l.returned + {l.latest[d]})
      else l
    case _ => l
  }

  ghost function LeaseRun(events: seq<Event>): (l: Leases)
    ensures |l.latest| == RING_DEPTH
  {
    if events == [] then NoLeases()
    else
      var before := events[..|events| - 1];
      LeaseStep(LeaseRun(before), Run(before), events[|events| - 1])
  }

  /** Buffer `d` is out on a lease. */
  predicate OnLease(s: System, d: nat)
    requires d < RING_DEPTH
  {
    || s.ring.records[d].state == Reading
    || (s.ring.records[d].state == Releasing && d in s.flights && s.flights[d].ByHandle?)
  }

  ghost predicate LeaseHeld(s: System, l: Leases, d: nat)
    requires d < RING_DEPTH && |l.latest| == RING_DEPTH
  {
    OnLease(s, d) ==>
      && 1 <= l.latest[d] <= |l.given|
      && s.ring.records[d].lease == LeaseValue(l.latest[d])
      && l.latest[d] !in l.returned
  }

  /** The `n`-th handle carries the `n`-th lease value, and its buffer has had no later lease than its latest. */
  ghost predicate HandleNumbered(l: Leases, n: nat)
    requires 1 <= n <= |l.given| && |l.latest| == RING_DEPTH
  {
    && l.given[n - 1].bufferIndex < RING_DEPTH
    && l.given[n - 1].lease == LeaseValue(n)
    && n <= l.latest[l.given[n - 1].bufferIndex]
  }

  ghost predicate Leased(s: System, l: Leases) {
    && |l.latest| == RING_DEPTH
    && s.ring.nextLease == LeaseValue(|l.given| + 1)
    && (forall d :: 0 <= d < RING_DEPTH ==> LeaseHeld(s, l, d))
    && (forall n :: 1 <= n <= |l.given| ==> HandleNumbered(l, n))
    && (forall d :: 0 <= d < RING_DEPTH ==> l.latest[d] <= |l.given|)
    && (forall n :: n in l.returned ==> 1 <= n <= |l.given|)
    && (forall d :: 0 <= d < RING_DEPTH && s.ring.records[d].state != Free ==> s.ring.records[d].epoch != 0)
    && (forall d, e :: 0 <= d < e < RING_DEPTH && l.latest[d] == l.latest[e] ==> l.latest[d] == 0)
  }

  // ------------------------------------------------------------- preservation

  lemma NextLeaseValue(n: nat)
    requires n >= 1
    ensures AllocateLease(LeaseValue(n)) == (LeaseValue(n), LeaseValue(n + 1))
  {
  }

  lemma AcquireLeased(s: System, l: Leases)
    requires Safe(s) && Leased(s, l)
    ensures Leased(Step(s, Acquire), LeaseStep(l, s, Acquire))
  {
    var d := OldestReady(s.ring.records, RING_DEPTH);
    if d < RING_DEPTH {
      NextLeaseValue(|l.given| + 1);
      var s' := Step(s, Acquire);
      var l' := LeaseStep(l, s, Acquire);
      assert s'.ring.records == s.ring.records[d := s'.ring.records[d]];
      assert s'.ring.nextLease == LeaseValue(|l'.given| + 1) && s'.flights == s.flights;
      assert l'.given[|l.given|].bufferIndex == d && l'.given[|l.given|].lease == LeaseValue(|l.given| + 1);
      assert s'.ring.records[d].lease == LeaseValue(|l.given| + 1);
      hide Step, Safe, RingModel.Acquire, LeaseStep;
      forall e | 0 <= e < RING_DEPTH
        ensures LeaseHeld(s', l', e)
      {
        assert LeaseHeld(s, l, e);
      }
      forall n | 1 <= n <= |l'.given|
        ensures HandleNumbered(l', n)
      {
        assert n <= |l.given| ==> HandleNumbered(l, n);
      }
    }
  }

  lemma OthersLeased(s: System, l: Leases, s': System, l': Leases)
    requires Leased(s, l)
    requires l'.given == l.given && l'.latest == l.latest && s'.ring.nextLease == s.ring.nextLease
    requires forall d :: 0 <= d < RING_DEPTH && OnLease(s', d) ==>
      OnLease(s, d) && s'.ring.records[d].lease == s.ring.records[d].lease
    requires forall d :: 0 <= d < RING_DEPTH && s'.ring.records[d].state != Free ==> s'.ring.records[d].epoch != 0
    requires forall d :: 0 <= d < RING_DEPTH && OnLease(s', d) && l.latest[d] in l'.returned ==>
      l.latest[d] in l.returned
    requires forall n :: n in l'.returned && n !in l.returned ==> 1 <= n <= |l.given|
    ensures Leased(s', l')
  {
    forall d | 0 <= d < RING_DEPTH
      ensures LeaseHeld(s', l', d)
    {
      assert LeaseHeld(s, l, d);
    }
    forall n | 1 <= n <= |l'.given|
      ensures HandleNumbered(l', n)
    {
      assert HandleNumbered(l, n);
    }
  }

  predicate TakenByDma(before: BufferRecord, after: BufferRecord) {
    before.state == Free && after.state == DmaOwned
  }

  lemma DmaMovesKeepLeases(s: System, l: Leases, after: Ring)
    requires Leased(s, l)
    requires OnlyDmaMoves(s.ring, after) && after.nextLease == s.ring.nextLease
    requires forall d :: 0 <= d < RING_DEPTH && TakenByDma(s.ring.records[d], after.records[d]) ==>
      after.records[d].epoch != 0
    ensures Leased(s.(ring := after), l)
  {
    forall d | 0 <= d < RING_DEPTH
      ensures OnLease(s.(ring := after), d) ==> after.records[d] == s.ring.records[d]
      ensures after.records[d].state != Free ==> after.records[d].epoch != 0
    {
      assert DmaMove(s.ring.records[d], after.records[d]);
    }
    OthersLeased(s, l, s.(ring := after), l);
  }

  lemma EndReleaseLeased(s: System, l: Leases, d: nat)
    requires Safe(s) && Leased(s, l) && d in s.flights && s.flights[d].ByHandle?
    ensures Leased(Step(s, EndRelease(d)), LeaseStep(l, s, EndRelease(d)))
    ensures l.latest[d] !in l.returned
  {
    EndReleaseIsSafe(s, d);
    assert LeaseHeld(s, l, d);
    var s' := Step(s, EndRelease(d));
    assert s'.ring.records == s.ring.records[d := FREE_RECORD] && s'.flights == s.flights - {d};
    assert s'.ring.nextLease == s.ring.nextLease;
    var l' := LeaseStep(l, s, EndRelease(d));
    hide Step, Safe;
    OthersLeased(s, l, s', l');
  }

  /** Buffers DMA takes while the ring runs carry its nonzero epoch. */
  lemma TakenInEpoch(s: System, after: Ring)
    requires Safe(s) && Owned(after) && SameRun(s.ring, after) && s.ring.running
    ensures forall d :: 0 <= d < RING_DEPTH && after.records[d].state == DmaOwned ==> after.records[d].epoch != 0
  {
    forall d | 0 <= d < RING_DEPTH && after.records[d].state == DmaOwned
      ensures after.records[d].epoch != 0
    {
      var i :| 0 <= i < SLOT_COUNT && Claims(after.slots[i], d);
      assert SlotOwns(after, i);
    }
  }

  lemma InterruptLeased(s: System, l: Leases, e: Event)
    requires Safe(s) && Leased(s, l)
    requires e.Reserve? || e.Complete? || e.AdcEtcError? || e.DmaError? || e.Stop?
    ensures Leased(Step(s, e), l)
  {
    var after := Step(s, e).ring;
    StepIsSafe(s, e);
    match e {
      case Reserve(epoch, generation) =>
        ReserveOwns(s.ring, epoch, generation);
        ScheduleKeepsRun(s.ring, generation);
      case Complete(converter, epoch, generation, destination) =>
        CompleteOwns(s.ring, converter, epoch, generation, destination);
        CompleteKeepsRun(s.ring, converter, epoch, generation, destination);
      case AdcEtcError(epoch, mask, flags) =>
        ErrorsOwn(s.ring, epoch, mask, flags, 0);
        ErrorsKeepRun(s.ring, epoch, mask, flags, 0);
      case DmaError(epoch, converter) =>
        ErrorsOwn(s.ring, epoch, 0, 0, converter);
        ErrorsKeepRun(s.ring, epoch, 0, 0, converter);
      case Stop(channels, consistent) =>
        StopOwns(s.ring, channels, consistent);
    }
    InterruptTakes(s, e);
    assert Step(s, e) == s.(ring := after);
    hide Step, Safe, Owned;
    DmaMovesKeepLeases(s, l, after);
  }

  lemma InterruptTakes(s: System, e: Event)
    requires Safe(s)
    requires e.Reserve? || e.Complete? || e.AdcEtcError? || e.DmaError? || e.Stop?
    ensures forall d :: 0 <= d < RING_DEPTH && TakenByDma(s.ring.records[d], Step(s, e).ring.records[d]) ==>
      Step(s, e).ring.records[d].epoch != 0
  {
    var after := Step(s, e).ring;
    StepIsSafe(s, e);
    if e.Stop? {
      StopOwns(s.ring, e.channels, e.consistent);
      if s.ring.running {
        forall d | 0 <= d < RING_DEPTH
          ensures Surrendered(s.ring.records[d], after.records[d])
        {
        }
      }
    } else if s.ring.running {
      match e {
        case Reserve(epoch, generation) => ScheduleKeepsRun(s.ring, generation);
        case Complete(converter, epoch, generation, destination) =>
          CompleteKeepsRun(s.ring, converter, epoch, generation, destination);
        case AdcEtcError(epoch, mask, flags) => ErrorsKeepRun(s.ring, epoch, mask, flags, 0);
        case DmaError(epoch, converter) => ErrorsKeepRun(s.ring, epoch, 0, 0, converter);
      }
      TakenInEpoch(s, after);
    } else {
      assert after.records == s.ring.records;
    }
  }

  lemma PrimeLeased(s: System, l: Leases, e: Event)
    requires e.Prime? && Safe(s) && Leased(s, l)
    ensures Leased(Step(s, e), l)
  {
    if e.epoch != 0 && 1 <= e.pairs <= PAIRS_PER_FRAME && !s.ring.running && AllFree(s.ring.records) {
      PrimeSeeds(s.ring, e.epoch, e.generation, e.firstPair, e.pairs);
      var cleared := Cleared(s.ring, e.epoch, e.generation, e.firstPair, e.pairs);
      ScheduleKeepsRun(cleared, e.generation);
      ScheduleKeepsRun(Schedule(cleared, e.generation).0, Wrap32(e.generation + 1));
      var s' := Step(s, e);
      var seeded := Seeds(cleared, e.generation).0;
      assert s'.ring.records == seeded.records && s'.ring.nextLease == s.ring.nextLease && s'.flights == s.flights;
      hide Step, Safe, Seeds, Schedule;
      OthersLeased(s, l, s', l);
    }
  }

  /** The foreground halves that finish no release by handle. */
  lemma HalfLeased(s: System, l: Leases, e: Event)
    requires Safe(s) && Leased(s, l)
    requires e.BeginRelease? || e.BeginDiscard? || e.EndDiscard?
    ensures Leased(Step(s, e), l)
  {
    if e.EndDiscard? {
      DiscardIsSafe(s, e.buffer);
    }
    var s' := Step(s, e);
    forall d | 0 <= d < RING_DEPTH && OnLease(s', d)
      ensures OnLease(s, d) && s'.ring.records[d].lease == s.ring.records[d].lease
    {
    }
    hide Safe, LeaseHeld, HandleNumbered;
    OthersLeased(s, l, s', l);
  }

  lemma StepLeased(s: System, l: Leases, e: Event)
    requires Safe(s) && Leased(s, l)
    ensures Leased(Step(s, e), LeaseStep(l, s, e))
  {
    match e {
      case Prime(_, _, _, _) => PrimeLeased(s, l, e);
      case Acquire => AcquireLeased(s, l);
      case EndRelease(d) =>
        if d in s.flights && s.flights[d].ByHandle? {
          EndReleaseLeased(s, l, d);
        }
      case BeginRelease(_) => HalfLeased(s, l, e);
      case BeginDiscard => HalfLeased(s, l, e);
      case EndDiscard(_) => HalfLeased(s, l, e);
      case _ => InterruptLeased(s, l, e);
    }
  }

  lemma {:induction false} EveryRunIsLeased(events: seq<Event>)
    ensures Leased(Run(events), LeaseRun(events))
  {
    if events == [] {
    } else {
      var before := events[..|events| - 1];
      EveryRunIsLeased(before);
      EveryRunIsSafe(before);
      StepLeased(Run(before), LeaseRun(before), events[|events| - 1]);
    }
  }

  // ------------------------------------------------------------- stale handles

  lemma CloseLeasesAgree(m: nat, n: nat)
    requires 1 <= n <= m < n + LEASE_PERIOD && LeaseValue(m) == LeaseValue(n)
    ensures m == n
  {
    var (p, q) := ((m - 1) / LEASE_PERIOD, (n - 1) / LEASE_PERIOD);
    assert m - n == (p - q) * LEASE_PERIOD;
  }

  lemma ReturnedIsRefused(s: System, l: Leases, n: nat)
    requires Leased(s, l) && 1 <= n <= |l.given| && n in l.returned
    requires |l.given| < n + LEASE_PERIOD
    ensures ReleaseBegin(s.ring, l.given[n - 1]) == (s.ring, InvalidHandle)
  {
    assert HandleNumbered(l, n);
    var d := l.given[n - 1].bufferIndex;
    if HandleMatches(s.ring, l.given[n - 1], Reading) {
      assert LeaseHeld(s, l, d);
      CloseLeasesAgree(l.latest[d], n);
      assert false;
    }
  }

  /** In every run, once the `n`-th handle's release has finished, releasing it again is refused and changes nothing,
      as long as fewer than 2^32 - 1 leases have been given out since. */
  lemma StaleHandleIsRefused(events: seq<Event>, n: nat)
    requires 1 <= n <= |LeaseRun(events).given| && n in LeaseRun(events).returned
    requires |LeaseRun(events).given| < n + LEASE_PERIOD
    ensures Step(Run(events), BeginRelease(LeaseRun(events).given[n - 1])) == Run(events)
  {
    hide Run, LeaseRun;
    EveryRunIsLeased(events);
    ReturnedIsRefused(Run(events), LeaseRun(events), n);
  }

  /** In every run, finishing a release returns a lease that has not been returned before. */
  lemma ReleasedAtMostOnce(events: seq<Event>, d: nat)
    requires d in Run(events).flights && Run(events).flights[d].ByHandle?
    ensures d < RING_DEPTH
    ensures LeaseRun(events).latest[d] !in LeaseRun(events).returned
    ensures LeaseRun(events + [EndRelease(d)]).returned == LeaseRun(events).returned + {LeaseRun(events).latest[d]}
  {
    EveryRunIsSafe(events);
    EveryRunIsLeased(events);
    EndReleaseLeased(Run(events), LeaseRun(events), d);
    assert (events + [EndRelease(d)])[..|events|] == events;
  }
}
