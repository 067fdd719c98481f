/** What the foreground calls of the ring answer and do when nothing interrupts them: acquire, release, discard. */
module RingServices {
  import opened FixedWidth
  import opened RingModel
  import opened RingRuns
  import opened RingCounters
  import opened RingDrain
  import opened RingLeases

  /** Everything but records, the next lease and the counters is as before. */
  predicate OnlyBuffersMove(r: Ring, after: Ring) {
    after == r.(records := after.records, nextLease := after.nextLease, progress := after.progress)
  }

  // ------------------------------------------------------------------ acquire

  /** The handle names a buffer that was Ready, of the lowest pair number among all Ready ones, and now is being read
      on a fresh lease; nothing else moved. */
  ghost predicate TellsAcquired(r: Ring, after: Ring, handle: BufferHandle) {
    var d := handle.bufferIndex;
    && d < RING_DEPTH
    && r.records[d].state == Ready
    && handle == BufferHandle(Storage(d), r.records[d].firstPair, r.pairsPerBuffer, r.records[d].epoch, r.nextLease, d)
    && (forall e :: 0 <= e < RING_DEPTH && r.records[e].state == Ready ==>
          r.records[d].firstPair <= r.records[e].firstPair)
    && after.records == r.records[d := r.records[d].(state := Reading, lease := r.nextLease)]
    && OnlyBuffersMove(r, after)
  }

  lemma AcquireTells(r: Ring)
    ensures var (after, answer) := RingModel.Acquire(r);
            && (answer.status == Ok <==>
                  exists d :: 0 <= d < RING_DEPTH && r.records[d].state == Ready && !AtCeiling(r.records[d]))
            && (answer.status == Ok ==> TellsAcquired(r, after, answer.handle))
            && (answer.status != Ok ==>
                  after == r && answer == AcquireResult(NoReadyBuffer, NO_HANDLE))
  {
  }

  /** In every run, acquiring hands out the first of the Ready buffers, if one lies below the ceiling, and its handle
      is the only one that releases it. */
  lemma AcquiredIsReleasable(events: seq<Event>, handle: BufferHandle)
    requires RingModel.Acquire(Run(events).ring).1.status == Ok
    ensures var r := Run(events).ring;
            var (held, answer) := RingModel.Acquire(r);
            var (after, status) := RingModel.Release(held, handle);
            && TellsAcquired(r, held, answer.handle)
            && (handle.bufferIndex == answer.handle.bufferIndex ==>
                  (status == Ok <==> handle == answer.handle))
            && (handle == answer.handle ==>
                  after.records == r.records[handle.bufferIndex := FREE_RECORD] && OnlyBuffersMove(held, after))
  {
    var r := Run(events).ring;
    EveryRunIsLeased(events);
    EveryRunIsLeased(events + [Acquire]);
    RunSnoc(events, Acquire);
    AcquireTells(r);
    var held := RingModel.Acquire(r).0;
    hide Run, LeaseRun, RingModel.Acquire, RingModel.Release, DiscardCache;
    MatchingIsNaming(held, handle, Reading);
    ReleaseTells(held, handle);
  }

  // ------------------------------------------------------------------ release

  /** A handle matches a buffer when it is, field by field, the handle of the buffer as it is now. */
  lemma MatchingIsNaming(r: Ring, handle: BufferHandle, state: BufferState)
    ensures HandleMatches(r, handle, state) <==>
              var d := handle.bufferIndex;
              && d < RING_DEPTH && handle == HandleOf(r, d) && r.records[d].state == state
              && r.records[d].epoch != 0 && r.records[d].lease != 0
  {
  }

  lemma ReleaseTells(r: Ring, handle: BufferHandle)
    ensures var (after, status) := RingModel.Release(r, handle);
            && (status == Ok <==> HandleMatches(r, handle, Reading))
            && (status == Ok ==>
                  after.records == r.records[handle.bufferIndex := FREE_RECORD] && OnlyBuffersMove(r, after))
            && (status != Ok ==> after == r && status == InvalidHandle)
  {
    if HandleMatches(r, handle, Reading) {
      var begun := ReleaseBegin(r, handle).0;
      assert HandleMatches(begun, handle, Releasing);
      assert begun.records[handle.bufferIndex := FREE_RECORD] == r.records[handle.bufferIndex := FREE_RECORD];
    }
  }

  /** In every run, a release is accepted exactly when its handle is the handle of a buffer on lease, and then frees
      that buffer and no other; otherwise it leaves the ring alone. */
  lemma ReleaseTellsTheRing(events: seq<Event>, handle: BufferHandle)
    ensures var r := Run(events).ring;
            var (after, status) := RingModel.Release(r, handle);
            var d := handle.bufferIndex;
            && (status == Ok <==>
                  d < RING_DEPTH && r.records[d].state == Reading && handle == HandleOf(r, d))
            && (status == Ok ==> after.records == r.records[d := FREE_RECORD] && OnlyBuffersMove(r, after))
            && (status != Ok ==> after == r && status == InvalidHandle)
  {
    EveryRunIsLeased(events);
    var r := Run(events).ring;
    hide Run, LeaseRun, RingModel.Release;
    ReleaseTells(r, handle);
    MatchingIsNaming(r, handle, Reading);
    var d := handle.bufferIndex;
    if d < RING_DEPTH && r.records[d].state == Reading {
      assert LeaseHeld(Run(events), LeaseRun(events), d);
    }
  }

  // ------------------------------------------------------------------ discard

  predicate Discarded(r: Ring, after: Ring, d: nat)
    requires d < RING_DEPTH
  {
    r.records[d].state == DiscardPending && after.records[d] == FREE_RECORD
  }

  /** Exactly the first `n` of the buffers waiting to be discarded are free now; nothing else moved. */
  ghost predicate FirstFreed(r: Ring, after: Ring, n: nat) {
    && OnlyBuffersMove(r, after)
    && after.nextLease == r.nextLease
    && CountState(after.records, DiscardPending) + n == CountState(r.records, DiscardPending)
    && (forall d :: 0 <= d < RING_DEPTH ==>
          after.records[d] == r.records[d] || Discarded(r, after, d))
    && (forall d, e :: 0 <= d < e < RING_DEPTH && Discarded(r, after, e) && r.records[d].state == DiscardPending ==>
          Discarded(r, after, d))
  }

  lemma OneRound(r: Ring)
    ensures var d := FirstDiscard(r.records);
            if d == RING_DEPTH then
              DiscardBegin(r) == (r, RING_DEPTH) && CountState(r.records, DiscardPending) == 0
            else
              && DiscardBegin(r).1 == d && DiscardEnd(DiscardBegin(r).0, d).1
              && var after := DiscardEnd(DiscardBegin(r).0, d).0;
                 && after.records == r.records[d := FREE_RECORD]
                 && after == r.(records := after.records, progress := after.progress)
                 && CountState(after.records, DiscardPending) + 1 == CountState(r.records, DiscardPending)
  {
    var d := FirstDiscard(r.records);
    if d == RING_DEPTH {
      NoneIn(r.records, DiscardPending);
    } else {
      CountStateUpdate(r.records, d, FREE_RECORD, DiscardPending);
      assert r.records[d := r.records[d].(state := Releasing)][d := FREE_RECORD] == r.records[d := FREE_RECORD];
    }
  }

  lemma {:induction false} NoneIn(records: seq<BufferRecord>, state: BufferState)
    requires forall d :: 0 <= d < |records| ==> records[d].state != state
    ensures CountState(records, state) == 0
  {
    if |records| > 0 {
      NoneIn(records[..|records| - 1], state);
    }
  }

  /** Servicing discards frees the buffers waiting for it in order, up to the limit, and reports how many. */
  lemma {:induction false} DiscardServiceFrees(r: Ring, limit: nat)
    ensures var (after, serviced) := RingModel.ServiceDiscarded(r, limit);
            && serviced == Min(limit, CountState(r.records, DiscardPending))
            && FirstFreed(r, after, serviced)
    decreases limit
  {
    hide DiscardBegin, DiscardEnd, CountState;
    if limit > 0 {
      OneRound(r);
      var d := FirstDiscard(r.records);
      if d < RING_DEPTH {
        DiscardServiceFrees(DiscardEnd(DiscardBegin(r).0, d).0, limit - 1);
      }
    }
  }

  /** An uninterrupted acquireReady leaves no buffer waiting to be discarded, and hands out the first of the buffers
      that were Ready, if one lies below the ceiling. */
  lemma AcquireReadyTells(r: Ring)
    ensures var (after, answer) := AcquireReady(r);
            && CountState(after.records, DiscardPending) == 0
            && (answer.status == Ok <==>
                  exists d :: 0 <= d < RING_DEPTH && r.records[d].state == Ready && !AtCeiling(r.records[d]))
            && (answer.status == Ok ==>
                  var d := answer.handle.bufferIndex;
                  && d < RING_DEPTH && r.records[d].state == Ready
                  && answer.handle.firstPair == r.records[d].firstPair
                  && (forall e :: 0 <= e < RING_DEPTH && r.records[e].state == Ready ==>
                        r.records[d].firstPair <= r.records[e].firstPair))
  {
    hide RingModel.ServiceDiscarded, RingModel.Acquire, CountState;
    DiscardServiceFrees(r, RING_DEPTH);
    var serviced := RingModel.ServiceDiscarded(r, RING_DEPTH).0;
    assert forall d :: 0 <= d < RING_DEPTH && r.records[d].state == Ready ==> serviced.records[d] == r.records[d];
    AcquireTells(serviced);
    var (after, answer) := RingModel.Acquire(serviced);
    if answer.status == Ok {
      var d := answer.handle.bufferIndex;
      CountStateUpdate(serviced.records, d, after.records[d], DiscardPending);
    }
  }
}
