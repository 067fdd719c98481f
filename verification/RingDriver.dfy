/** Driving the ring object step by step: whatever is done to it, what it goes through is a run of the model. */
module RingDriver {
  import opened RingModel
  import opened RingRuns
  import opened DmaRing

  /** The step as taken: a stop is judged by the progress check the object makes itself. */
  ghost function Taken(e: Event, r: Ring): Event {
    if e.Stop? then e.(consistent := ConsistentProgress(r, e.channels)) else e
  }

  /** Takes one step on the object, where `flights` are the foreground operations between their halves. */
  method TakeStep(ring: PairCaptureRing, flights: map<nat, Flight>, e: Event) returns (after: map<nat, Flight>)
    requires ring.Valid()
    modifies ring, ring.records, ring.slots
    ensures ring.Valid()
    ensures System(ring.State(), after) == Step(System(old(ring.State()), flights), Taken(e, old(ring.State())))
  {
    hide RingModel.Prime, RingModel.Reserve, RingModel.Complete, RecordAdcEtcError, RecordDmaError, RingModel.Acquire,
      ReleaseBegin, ReleaseEnd, DiscardBegin, DiscardEnd, RingModel.Stop, ConsistentProgress;
    after := flights;
    match e {
      case Prime(epoch, generation, firstPair, pairs) =>
        var primed := ring.Prime(epoch, generation, firstPair, pairs);
      case Reserve(epoch, generation) =>
        var reserved := ring.ReserveGeneration(epoch, generation);
      case Complete(converter, epoch, generation, destination) =>
        var completed := ring.OnMajorLoopComplete(converter, epoch, generation, destination);
      case AdcEtcError(epoch, mask, flags) =>
        ring.OnAdcEtcError(epoch, mask, flags);
      case DmaError(epoch, converter) =>
        ring.OnDmaError(epoch, converter);
      case Acquire =>
        var acquired := ring.AcquireOldest();
      case BeginRelease(handle) =>
        var status := ring.BeginRelease(handle);
        if status == Ok {
          after := flights[handle.bufferIndex := ByHandle(handle)];
        } else {
          RefusedReleaseChangesNothing(old(ring.State()), handle);
        }
      case EndRelease(d) =>
        if d in flights && flights[d].ByHandle? {
          var status := ring.EndRelease(flights[d].handle);
          after := Land(flights, d);
        }
      case BeginDiscard =>
        var d := ring.BeginDiscard();
        if d < RING_DEPTH {
          after := flights[d := ByService];
        } else {
          IdleDiscardChangesNothing(old(ring.State()));
        }
      case EndDiscard(d) =>
        if d < RING_DEPTH && d in flights && flights[d].ByService? {
          var freed := ring.EndDiscard(d);
          after := Land(flights, d);
        }
      case Stop(channels, _) =>
        var report := ring.HaltCapture(channels);
    }
  }

  lemma RefusedReleaseChangesNothing(r: Ring, handle: BufferHandle)
    ensures ReleaseBegin(r, handle).1 != Ok ==> ReleaseBegin(r, handle).0 == r
  {
  }

  lemma IdleDiscardChangesNothing(r: Ring)
    ensures DiscardBegin(r).1 >= RING_DEPTH ==> DiscardBegin(r).0 == r
  {
  }

  /** Any sequence of steps on a new ring takes it through a run of the model, so every theorem about runs is one
      about the object. */
  method TakeSteps(events: seq<Event>) returns (ring: PairCaptureRing, ghost taken: seq<Event>)
    ensures fresh(ring) && ring.Valid()
    ensures |taken| == |events| && ring.State() == Run(taken).ring
    ensures forall k :: 0 <= k < |events| ==> SameButVerdict(events[k], taken[k])
  {
    ring := new PairCaptureRing();
    taken := [];
    var flights: map<nat, Flight> := map[];
    for n := 0 to |events|
      invariant ring.Valid() && fresh(ring) && fresh(ring.records) && fresh(ring.slots)
      invariant |taken| == n && System(ring.State(), flights) == Run(taken)
      invariant forall k :: 0 <= k < n ==> SameButVerdict(events[k], taken[k])
    {
      hide Step;
      ghost var e := Taken(events[n], ring.State());
      flights := TakeStep(ring, flights, events[n]);
      assert (taken + [e])[..n] == taken;
      taken := taken + [e];
    }
  }

  /** Equal but for the verdict of a stop's progress check. */
  predicate SameButVerdict(asked: Event, taken: Event) {
    if asked.Stop? then taken.Stop? && taken.channels == asked.channels else taken == asked
  }
}
