/** Stops and rounds of service, told from the calls they make. */
module ControllerRounds {
  import opened FixedWidth
  import opened ControllerModel
  import opened ControllerStarts

  // -------------------------------------------------------------------- stopping

  predicate TriggerStopped(calls: Log, before: nat)
    requires before <= |calls|
  {
    exists j :: 0 <= j < before && calls[j].on == Trigger && calls[j].op == Stop && calls[j].answer.ok
  }

  /** Whatever is stopped after its triggers is stopped only once the trigger has confirmed its own stop. */
  predicate TriggerFirst(calls: Log) {
    forall k :: 0 <= k < |calls| && calls[k].op.StopAfterTriggers? ==> TriggerStopped(calls, k)
  }

  /** A capture stopped after a log in which the trigger has confirmed. */
  lemma StoppedLast(calls: Log, called: Done)
    requires TriggerFirst(calls) && IsCapture(called.on) && called.op.StopAfterTriggers?
    requires TriggerStopped(calls, |calls|)
    ensures TriggerFirst(calls + [called]) && TriggerStopped(calls + [called], |calls| + 1)
    ensures CaptureStopped(calls + [called], called.on)
    ensures forall c :: CaptureStopped(calls, c) ==> CaptureStopped(calls + [called], c)
    ensures DidWell(calls + [called], Trigger, Stop)
  {
    var all := calls + [called];
    assert called in all && StopsCapture(called);
    var j :| 0 <= j < |calls| && calls[j].on == Trigger && calls[j].op == Stop && calls[j].answer.ok;
    assert all[j] == calls[j] && all[j] in all;
    forall k | 0 <= k < |all| && all[k].op.StopAfterTriggers?
      ensures TriggerStopped(all, k)
    {
      if k < |calls| {
        assert TriggerStopped(calls, k);
        var i :| 0 <= i < k && calls[i].on == Trigger && calls[i].op == Stop && calls[i].answer.ok;
        assert all[i] == calls[i];
      }
    }
    forall c | CaptureStopped(calls, c)
      ensures CaptureStopped(all, c)
    {
      var d :| d in calls && d.on == c && StopsCapture(d);
      assert d in all;
    }
  }

  lemma TriggerConfirms(first: Done)
    requires first.on == Trigger && first.op == Stop && first.answer.ok
    ensures TriggerFirst([first]) && TriggerStopped([first], 1)
  {
    assert [first][0] == first;
  }

  lemma LoneStop(called: Done)
    requires IsCapture(called.on) && called.op.Stop?
    ensures TriggerFirst([called]) && CaptureStopped([called], called.on)
  {
    assert called in [called] && StopsCapture(called);
  }

  lemma EmptyLogStopsNothing()
    ensures TriggerFirst([])
  {
  }

  lemma TriggerFirstJoined(a: Log, b: Log)
    ensures TriggerFirst(a) && TriggerFirst(b) ==> TriggerFirst(a + b)
  {
    if TriggerFirst(a) && TriggerFirst(b) {
      forall k | 0 <= k < |a + b| && (a + b)[k].op.StopAfterTriggers?
        ensures TriggerStopped(a + b, k)
      {
        if k < |a| {
          assert TriggerStopped(a, k);
          var j :| 0 <= j < k && a[j].on == Trigger && a[j].op == Stop && a[j].answer.ok;
          assert (a + b)[j] == a[j];
        } else {
          assert TriggerStopped(b, k - |a|);
          var j :| 0 <= j < k - |a| && b[j].on == Trigger && b[j].op == Stop && b[j].answer.ok;
          assert (a + b)[|a| + j] == b[j];
        }
      }
    }
  }

  /** The calls of a stop. A lone ADC capture is told to stop at a buffer boundary before its triggers stop. */
  function StopPlan(mask: u8, auxInput: bool, stopped: bool): seq<Step> {
    if mask == BOTH_STREAMS then
      [Step(Trigger, Stop)]
      + (if stopped then [Step(CaptureFor(auxInput), StopAfterTriggers), Step(AdcCapture, StopAfterTriggers)] else [])
    else if mask == ADC_STREAM then
      [Step(AdcCapture, StopAtBoundary), Step(Trigger, Stop)]
      + (if stopped then [Step(AdcCapture, StopAfterTriggers)] else [])
    else [Step(CaptureFor(auxInput), Stop)]
  }

  predicate SomeRefused(calls: Log) {
    exists d :: d in calls && !d.answer.ok
  }

  lemma NoneRefused()
    ensures !SomeRefused([])
  {
  }

  /** Whenever the trigger is stopped, the ADC capture has been told before to stop at a buffer boundary. */
  predicate BoundaryBeforeTrigger(calls: Log) {
    forall k :: 0 <= k < |calls| && calls[k].on == Trigger && calls[k].op == Stop ==>
      Did(calls[..k], AdcCapture, StopAtBoundary)
  }

  /** What the calls of a stop amount to. With ADC, stopped exactly when the trigger confirmed; every capture of the run
      is stopped exactly then, and after it; a lone ADC capture is told of the boundary before. */
  predicate StopsInOrder(calls: Log, mask: u8, auxInput: bool, stopped: bool) {
    && TriggerFirst(calls)
    && (MaskHasAdc(mask) ==> (stopped <==> DidWell(calls, Trigger, Stop)))
    && (MaskHasAdc(mask) ==> (stopped <==> CaptureStopped(calls, AdcCapture)))
    && (MaskHasGpio(mask) ==> (stopped <==> CaptureStopped(calls, CaptureFor(auxInput))))
    && (!stopped ==> MaskHasAdc(mask))
    && (MaskHasAdc(mask) && !MaskHasGpio(mask) ==> BoundaryBeforeTrigger(calls))
    && Steps(calls) == StopPlan(mask, auxInput, stopped)
    && (forall d :: d in calls ==> d.on == Trigger || IsCapture(d.on))
  }

  lemma AdcStopRefused(boundary: Done, trigger: Done, auxInput: bool)
    requires boundary.on == AdcCapture && boundary.op == StopAtBoundary
    requires trigger.on == Trigger && trigger.op == Stop && !trigger.answer.ok
    ensures StopsInOrder([boundary, trigger], ADC_STREAM, auxInput, false)
    ensures SomeRefused([boundary, trigger])
  {
    var calls := [boundary, trigger];
    assert calls[0] in calls[..1] && calls[1] in calls;
  }

  lemma AdcStopTold(boundary: Done, trigger: Done, called: Done, auxInput: bool)
    requires boundary.on == AdcCapture && boundary.op == StopAtBoundary
    requires trigger.on == Trigger && trigger.op == Stop && trigger.answer.ok
    requires called.on == AdcCapture && called.op == StopAfterTriggers
    ensures StopsInOrder([boundary, trigger] + [called], ADC_STREAM, auxInput, true)
    ensures SomeRefused([boundary, trigger] + [called]) <==> !called.answer.ok || !boundary.answer.ok
  {
    var (first, all) := ([boundary, trigger], [boundary, trigger] + [called]);
    assert first[1].on == Trigger;
    StoppedLast(first, called);
    assert all[0] in all && all[1] in all && all[2] in all;
    assert all[0] in all[..1];
  }

  lemma CombinedStopRefused(trigger: Done, auxInput: bool)
    requires trigger.on == Trigger && trigger.op == Stop && !trigger.answer.ok
    ensures StopsInOrder([trigger], BOTH_STREAMS, auxInput, false) && SomeRefused([trigger])
  {
    assert trigger in [trigger];
  }

  lemma CombinedStopTold(trigger: Done, gpio: Done, adc: Done, auxInput: bool)
    requires trigger.on == Trigger && trigger.op == Stop && trigger.answer.ok
    requires gpio.on == CaptureFor(auxInput) && gpio.op == StopAfterTriggers
    requires adc.on == AdcCapture && adc.op == StopAfterTriggers
    ensures StopsInOrder([trigger] + [gpio] + [adc], BOTH_STREAMS, auxInput, true)
    ensures SomeRefused([trigger] + [gpio] + [adc]) <==> !gpio.answer.ok || !adc.answer.ok
  {
    TriggerConfirms(trigger);
    StoppedLast([trigger], gpio);
    StoppedLast([trigger] + [gpio], adc);
    var all := [trigger] + [gpio] + [adc];
    hide TriggerFirst, TriggerStopped, CaptureStopped, DidWell;
    assert all[0] in all && all[1] in all && all[2] in all;
  }

  lemma LoneStopTold(called: Done, auxInput: bool)
    requires called.on == CaptureFor(auxInput) && called.op == Stop
    ensures StopsInOrder([called], GPIO_STREAM, auxInput, true)
    ensures SomeRefused([called]) <==> !called.answer.ok
  {
    LoneStop(called);
    assert called in [called];
  }

  // -------------------------------------------------------------------- draining

  predicate Sampled(calls: Log, on: Component) {
    exists d :: d in calls && d.on == on && d.op == Snapshot
  }

  /** The answer of the last snapshot taken of a component. */
  predicate LatestQuiescent(calls: Log, on: Component) {
    calls != [] &&
    (var last := calls[|calls| - 1];
     if last.on == on && last.op == Snapshot then last.answer.quiescent
     else LatestQuiescent(calls[..|calls| - 1], on))
  }

  /** The captures and packers of a run. */
  predicate Needed(mask: u8, auxInput: bool, on: Component) {
    || (MaskHasAdc(mask) && (on == AdcCapture || on == AdcPacker))
    || (MaskHasGpio(mask) && (on == CaptureFor(auxInput) || on == PackerFor(auxInput)))
  }

  /** The latest snapshots say that every capture and packer of the run is quiescent. */
  predicate RunQuiescent(calls: Log, mask: u8, auxInput: bool) {
    forall on :: Needed(mask, auxInput, on) ==> LatestQuiescent(calls, on)
  }

  lemma LatestOfLast(calls: Log, d: Done)
    ensures forall c :: Sampled(calls + [d], c) == (Sampled(calls, c) || (c == d.on && d.op == Snapshot))
    ensures forall c :: LatestQuiescent(calls + [d], c)
                        == if c == d.on && d.op == Snapshot then d.answer.quiescent else LatestQuiescent(calls, c)
  {
    var more := calls + [d];
    assert forall e :: e in more <==> e in calls || e == d;
    assert d in more && more[..|more| - 1] == calls;
  }

  /** The latest snapshot of a joined log is the later log's where it has one. */
  lemma {:induction false} LatestOfJoined(a: Log, b: Log)
    ensures forall c :: Sampled(a + b, c) == (Sampled(a, c) || Sampled(b, c))
    ensures forall c :: LatestQuiescent(a + b, c)
                        == if Sampled(b, c) then LatestQuiescent(b, c) else LatestQuiescent(a, c)
    decreases |b|
  {
    assert forall d :: d in a + b <==> d in a || d in b;
    if b == [] {
      assert a + b == a;
    } else {
      var (init, last) := (b[..|b| - 1], b[|b| - 1]);
      LatestOfJoined(a, init);
      assert a + b == a + init + [last] && b == init + [last];
      LatestOfLast(a + init, last);
      LatestOfLast(init, last);
      hide LatestQuiescent, Sampled;
    }
  }

  lemma LaterQuiescence(before: Log, more: Log, mask: u8, auxInput: bool)
    requires forall c :: Needed(mask, auxInput, c) ==> Sampled(more, c)
    ensures RunQuiescent(before + more, mask, auxInput) <==> RunQuiescent(more, mask, auxInput)
  {
    LatestOfJoined(before, more);
    hide LatestQuiescent, Sampled, Needed;
  }

  lemma PipelineIsLast(calls: Log, last: Done, mask: u8, auxInput: bool)
    requires last.on == Pipeline && last.op == StopProduction
    ensures Last(calls + [last], Pipeline, StopProduction)
    ensures RunQuiescent(calls, mask, auxInput) ==> RunQuiescent(calls + [last], mask, auxInput)
    ensures TriggerFirst(calls) ==> TriggerFirst(calls + [last])
  {
    LatestOfLast(calls, last);
    StepsWithout([last], [Step(Pipeline, StopProduction)]);
    TriggerFirstJoined(calls, [last]);
    hide LatestQuiescent, TriggerFirst;
  }

  // ------------------------------------------------------- a round of service

  /** The calls of one round of service, piece by piece. */
  datatype Round = Round(
    checks: Log, stops: Log, served: Log, stopsAfter: Log, adcDrain: Log, gpioDrain: Log, last: Log)

  const NO_ROUND := Round([], [], [], [], [], [], [])

  function Calls(r: Round): Log {
    r.checks + r.stops + r.served + r.stopsAfter + r.adcDrain + r.gpioDrain + r.last
  }

  /** A capture answered a snapshot with a fault. */
  predicate FaultAnswered(calls: Log) {
    exists d :: d in calls && IsCapture(d.on) && d.op == Snapshot && d.answer.faulted
  }

  /** A packer answered its service with an error. */
  predicate ErrorAnswered(calls: Log) {
    exists d :: d in calls && IsPacker(d.on) && d.op.Service? && d.answer.serviceError
  }

  /** The captures of the run are sampled in turn, up to the first that has faulted. */
  predicate ChecksFit(checks: Log, mask: u8, auxInput: bool) {
    var adc := if MaskHasAdc(mask) then [Step(AdcCapture, Snapshot)] else [];
    var gpio := if MaskHasGpio(mask) then [Step(CaptureFor(auxInput), Snapshot)] else [];
    && |checks| >= |adc|
    && Steps(checks) == if FaultAnswered(checks[..|adc|]) then adc else adc + gpio
  }

  /** Each path of the run moves on; a capture that keeps ownership of its buffers first. */
  function ServePlan(mask: u8, auxInput: bool, draining: bool): seq<Step> {
    (if MaskHasAdc(mask) then [Step(AdcCapture, ServiceOwnership), Step(AdcPacker, Service(draining))] else [])
    + (if MaskHasGpio(mask) then ServePathPlan(CaptureFor(auxInput), PackerFor(auxInput), auxInput, draining) else [])
  }

  function ServePathPlan(capture: Component, packer: Component, owns: bool, draining: bool): seq<Step> {
    (if owns then [Step(capture, ServiceOwnership)] else []) + [Step(packer, Service(draining))]
  }

  /** A packer is told to stop exactly when its capture holds nothing more and it still runs, then flushed if it has
      stopped with something left; each is followed by a new snapshot. */
  predicate Settles(calls: Log, packer: Component, emptied: bool, flushes: bool, packed: Answer) {
    var stops := emptied && packed.running;
    && (stops ==> |calls| >= 2 && Steps(calls[..2]) == [Step(packer, StopProduction), Step(packer, Snapshot)])
    && var (latest, rest) := (if stops then calls[1].answer else packed, if stops then calls[2..] else calls);
       Steps(rest) == if flushes && !latest.running && !latest.quiescent then
                        [Step(packer, Flush), Step(packer, Snapshot)]
                      else []
  }

  /** One path drains: its capture and its packer are sampled, and the packer is settled. */
  predicate PathDrains(calls: Log, capture: Component, packer: Component, owns: bool, flushes: bool) {
    var k := if owns then 1 else 0;
    && |calls| >= k + 2
    && Steps(calls[..k + 2])
       == (if owns then [Step(capture, ServiceOwnership)] else []) + [Step(capture, Snapshot), Step(packer, Snapshot)]
    && Settles(calls[k + 2..], packer, calls[k].answer.emptied, flushes, calls[k + 1].answer)
  }

  predicate StopConfirmed(calls: Log, mask: u8) {
    MaskHasAdc(mask) ==> DidWell(calls, Trigger, Stop)
  }

  /** The stop of a round, if one was due. */
  predicate StopsIf(due: bool, calls: Log, mask: u8, auxInput: bool) {
    if due then StopsInOrder(calls, mask, auxInput, StopConfirmed(calls, mask)) else calls == []
  }

  /** A fault was answered while the run was active. */
  predicate FaultFound(r: Round) {
    FaultAnswered(r.checks)
  }

  /** The run was to be stopped before it was served. */
  predicate StopDue(r: Round, before: Phase) {
    before.StopPending? || (before.Active? && FaultFound(r))
  }

  /** An active run failed while it was served. */
  predicate FailedServing(r: Round, before: Phase) {
    before.Active? && !FaultFound(r) && ErrorAnswered(r.served)
  }

  /** A stop was due and the trigger did not confirm. */
  predicate StuckIn(r: Round, mask: u8, before: Phase) {
    || (StopDue(r, before) && !StopConfirmed(r.stops, mask))
    || (FailedServing(r, before) && !StopConfirmed(r.stopsAfter, mask))
  }

  /** The run drained in this round. */
  predicate Drained(r: Round, mask: u8, before: Phase) {
    !StuckIn(r, mask, before) && (before.Draining? || StopDue(r, before) || FailedServing(r, before))
  }

  /** A round of service over a run, from its calls: check, stop if due, serve, stop if that failed, drain. */
  predicate RoundFits(r: Round, mask: u8, auxInput: bool, before: Phase, after: Phase) {
    var due := StopDue(r, before);
    var drained := Drained(r, mask, before);
    && (if before.Draining? then r.checks == [] else ChecksFit(r.checks, mask, auxInput))
    && StopsIf(due, r.stops, mask, auxInput)
    && (if due && !StopConfirmed(r.stops, mask) then r.served == []
        else Steps(r.served) == ServePlan(mask, auxInput, before.Draining? || due))
    && StopsIf(FailedServing(r, before), r.stopsAfter, mask, auxInput)
    && (if drained && MaskHasAdc(mask) then PathDrains(r.adcDrain, AdcCapture, AdcPacker, false, false)
        else r.adcDrain == [])
    && (if drained && MaskHasGpio(mask) then
          PathDrains(r.gpioDrain, CaptureFor(auxInput), PackerFor(auxInput), auxInput, !auxInput)
        else r.gpioDrain == [])
    && Steps(r.last) == (if after.Idle? then [Step(Pipeline, StopProduction)] else [])
    && after == (if StuckIn(r, mask, before) then StopPending
                 else if !drained then Active
                 else if RunQuiescent(r.adcDrain + r.gpioDrain, mask, auxInput) then Idle
                 else Draining)
  }

  /** The report of a round: faults found, calls that went wrong, and the identity of the run. */
  predicate ReportsRound(r: Report, after: Report, round: Round, before: Phase, runId: u32, epochTicks: u64) {
    var fault := FaultFound(round) || FailedServing(round, before);
    after == r.(faultDetected := r.faultDetected || fault,
                internalError := r.internalError || fault || SomeRefused(round.stops) || SomeRefused(round.stopsAfter),
                runId := runId, epochTicks := epochTicks, drainPending := after.drainPending)
  }

  // ----------------------------------------------- the pieces of a round together

  lemma FaultsJoin(a: Log, b: Log)
    ensures FaultAnswered(a + b) == (FaultAnswered(a) || FaultAnswered(b))
  {
    assert forall d :: d in a + b <==> d in a || d in b;
  }

  lemma ErrorsJoin(a: Log, b: Log)
    ensures ErrorAnswered(a + b) == (ErrorAnswered(a) || ErrorAnswered(b))
  {
    assert forall d :: d in a + b <==> d in a || d in b;
  }

  lemma NothingAnswered()
    ensures !ErrorAnswered([]) && !FaultAnswered([]) && Steps([]) == []
  {
  }

  lemma ChecksTogether(adc: Log, gpio: Log, mask: u8, auxInput: bool)
    requires Steps(adc) == if MaskHasAdc(mask) then [Step(AdcCapture, Snapshot)] else []
    requires Steps(gpio) == if MaskHasGpio(mask) && !FaultAnswered(adc) then [Step(CaptureFor(auxInput), Snapshot)]
                            else []
    ensures ChecksFit(adc + gpio, mask, auxInput)
  {
    StepsJoin(adc, gpio);
    assert (adc + gpio)[..|adc|] == adc;
  }

  /** The answer of the last snapshot of a settled packer. */
  function LatestOf(calls: Log, packed: Answer): Answer {
    if calls == [] then packed else calls[|calls| - 1].answer
  }

  lemma SettledTogether(stops: Log, flush: Log, packer: Component, emptied: bool, flushes: bool, packed: Answer,
                        stopped: Answer, latest: Answer)
    requires Steps(stops) == if emptied && packed.running then [Step(packer, StopProduction), Step(packer, Snapshot)]
                             else []
    requires stopped == LatestOf(stops, packed)
    requires Steps(flush) == if flushes && !stopped.running && !stopped.quiescent then
                               [Step(packer, Flush), Step(packer, Snapshot)]
                             else []
    requires latest == LatestOf(flush, stopped)
    ensures Settles(stops + flush, packer, emptied, flushes, packed) && latest == LatestOf(stops + flush, packed)
  {
    var calls := stops + flush;
    assert calls[..|stops|] == stops && calls[|stops|..] == flush;
  }

  lemma StopIsConfirmed(calls: Log, mask: u8, auxInput: bool, stopped: bool)
    requires StopsInOrder(calls, mask, auxInput, stopped)
    ensures StopConfirmed(calls, mask) == stopped
  {
  }

  /** Nothing but its packer is sampled while a path settles. */
  lemma SettlingSamples(calls: Log, packer: Component, emptied: bool, flushes: bool, packed: Answer)
    requires Settles(calls, packer, emptied, flushes, packed)
    ensures forall c :: Sampled(calls, c) ==> c == packer
    ensures calls != [] ==>
              Sampled(calls, packer) && LatestQuiescent(calls, packer) == LatestOf(calls, packed).quiescent
  {
    var stops := emptied && packed.running;
    var rest := if stops then calls[2..] else calls;
    assert stops ==> calls == calls[..2] + rest;
    assert stops ==> Steps(calls[..2])[1] == Step(calls[1].on, calls[1].op);
    assert rest != [] ==> Steps(rest)[1] == Step(rest[1].on, rest[1].op);
    forall d | d in calls
      ensures d.on == packer
    {
      var k :| 0 <= k < |calls| && calls[k] == d;
      if stops && k < 2 {
        assert Steps(calls[..2])[k] == Step(calls[k].on, calls[k].op);
      } else {
        var j := if stops then k - 2 else k;
        assert Steps(rest)[j] == Step(calls[k].on, calls[k].op);
      }
    }
    if calls != [] {
      var last := calls[|calls| - 1];
      assert last in calls && last.on == packer && last.op == Snapshot;
    }
  }

  lemma DrainedTogether(owned: Log, both: Log, settled: Log, capture: Component, packer: Component, owns: bool,
                        flushes: bool)
    requires IsCapture(capture) && IsPacker(packer)
    requires Steps(owned) == if owns then [Step(capture, ServiceOwnership)] else []
    requires Steps(both) == [Step(capture, Snapshot), Step(packer, Snapshot)]
    requires Settles(settled, packer, both[0].answer.emptied, flushes, both[1].answer)
    ensures var calls := owned + both + settled;
            && PathDrains(calls, capture, packer, owns, flushes)
            && LatestQuiescent(calls, capture) == both[0].answer.quiescent
            && LatestQuiescent(calls, packer) == LatestOf(settled, both[1].answer).quiescent
            && (forall c :: Sampled(calls, c) <==> c == capture || c == packer)
  {
    hide Sampled, LatestQuiescent, Settles, LatestOf;
    var calls := owned + both + settled;
    var k := |owned|;
    assert calls[..k + 2] == owned + both && calls[k + 2..] == settled;
    StepsJoin(owned, both);
    assert calls[k] == both[0] && calls[k + 1] == both[1];
    assert Steps(both)[0] == Step(both[0].on, both[0].op) && Steps(both)[1] == Step(both[1].on, both[1].op);
    assert PathDrains(calls, capture, packer, owns, flushes);
    hide PathDrains, Steps;
    SettlingSamples(settled, packer, both[0].answer.emptied, flushes, both[1].answer);
    SampledOnce(owned, both, capture, packer) by {
      OnlyOwned(owned, capture, owns);
    }
    LatestOfJoined(owned + both, settled);
    NothingLatest(both[1].answer);
    assert settled == [] ==> owned + both + settled == owned + both;
  }

  lemma OnlyOwned(owned: Log, capture: Component, owns: bool)
    requires Steps(owned) == if owns then [Step(capture, ServiceOwnership)] else []
    ensures forall d :: d in owned ==> d.op != Snapshot
  {
    forall d | d in owned
      ensures d.op != Snapshot
    {
      var k :| 0 <= k < |owned| && owned[k] == d;
      assert Steps(owned)[k] == Step(d.on, d.op);
    }
  }

  lemma NothingLatest(packed: Answer)
    ensures LatestOf([], packed) == packed && forall c :: !Sampled([], c)
  {
  }

  /** The two snapshots with which a path begins to drain. */
  lemma SampledOnce(owned: Log, both: Log, capture: Component, packer: Component)
    requires IsCapture(capture) && IsPacker(packer) && |both| == 2
    requires forall d :: d in owned ==> d.op != Snapshot
    requires both[0].on == capture && both[0].op == Snapshot && both[1].on == packer && both[1].op == Snapshot
    ensures forall c :: Sampled(owned + both, c) <==> c == capture || c == packer
    ensures LatestQuiescent(owned + both, capture) == both[0].answer.quiescent
    ensures LatestQuiescent(owned + both, packer) == both[1].answer.quiescent
  {
    assert owned + both == owned + [both[0]] + [both[1]];
    LatestOfLast(owned, both[0]);
    LatestOfLast(owned + [both[0]], both[1]);
    hide LatestQuiescent;
    assert forall c :: !Sampled(owned, c);
  }

  lemma PathSamples(calls: Log, capture: Component, packer: Component, owns: bool, flushes: bool)
    requires IsCapture(capture) && IsPacker(packer) && PathDrains(calls, capture, packer, owns, flushes)
    ensures forall c :: Sampled(calls, c) <==> c == capture || c == packer
  {
    hide Settles, Sampled;
    var k := if owns then 1 else 0;
    var (owned, both, settled) := (calls[..k], calls[k..k + 2], calls[k + 2..]);
    assert calls == owned + both + settled && calls[..k + 2] == owned + both;
    StepsJoin(owned, both);
    assert Steps(owned) == Steps(owned + both)[..k] && Steps(both) == Steps(owned + both)[k..];
    hide PathDrains;
    DrainedTogether(owned, both, settled, capture, packer, owns, flushes);
  }

  /** Both paths drained, one after the other. */
  lemma DrainsTogether(adc: Log, gpio: Log, mask: u8, auxInput: bool)
    requires if MaskHasAdc(mask) then PathDrains(adc, AdcCapture, AdcPacker, false, false) else adc == []
    requires if MaskHasGpio(mask) then PathDrains(gpio, CaptureFor(auxInput), PackerFor(auxInput), auxInput, !auxInput)
             else gpio == []
    ensures forall c :: Needed(mask, auxInput, c) <==> Sampled(adc + gpio, c)
    ensures RunQuiescent(adc + gpio, mask, auxInput) <==>
              && (MaskHasAdc(mask) ==> LatestQuiescent(adc, AdcCapture) && LatestQuiescent(adc, AdcPacker))
              && (MaskHasGpio(mask) ==> LatestQuiescent(gpio, CaptureFor(auxInput))
                                        && LatestQuiescent(gpio, PackerFor(auxInput)))
  {
    if MaskHasAdc(mask) {
      PathSamples(adc, AdcCapture, AdcPacker, false, false);
    }
    if MaskHasGpio(mask) {
      PathSamples(gpio, CaptureFor(auxInput), PackerFor(auxInput), auxInput, !auxInput);
    }
    NothingSampled();
    LatestOfJoined(adc, gpio);
    hide PathDrains, Sampled, LatestQuiescent;
  }

  lemma NothingSampled()
    ensures forall c :: !Sampled([], c)
  {
  }

  lemma NothingCalled(log: Log)
    ensures log + Calls(NO_ROUND) == log
  {
  }

  lemma ChecksCalled(log: Log, r: Round)
    requires r == NO_ROUND.(checks := r.checks, stops := r.stops)
    ensures log + Calls(r) == log + r.checks + r.stops
  {
  }

  lemma ServingCalled(log: Log, begun: Round, r: Round)
    requires begun == NO_ROUND.(checks := begun.checks, stops := begun.stops)
    requires r == begun.(served := r.served, stopsAfter := r.stopsAfter)
    ensures log + Calls(r) == log + Calls(begun) + r.served + r.stopsAfter
  {
  }

  lemma DrainingCalled(log: Log, begun: Round, r: Round)
    requires begun.adcDrain == begun.gpioDrain == begun.last == []
    requires r == begun.(adcDrain := r.adcDrain, gpioDrain := r.gpioDrain, last := r.last)
    ensures log + Calls(r) == log + Calls(begun) + (r.adcDrain + r.gpioDrain) + r.last
  {
  }

  lemma NoRoundAnswers()
    ensures !FaultAnswered([]) && !ErrorAnswered([]) && !SomeRefused([]) && Steps([]) == []
  {
  }

  /** Where checking an active run leaves it. */
  function AfterCheck(before: Phase, checks: Log, stops: Log, mask: u8): Phase {
    if before.StopPending? || (before.Active? && FaultAnswered(checks)) then
      if StopConfirmed(stops, mask) then Draining else StopPending
    else before
  }

  /** Where serving a run leaves it. */
  function AfterServing(before: Phase, served: Log, stops: Log, mask: u8): Phase {
    if before.Active? && ErrorAnswered(served) then if StopConfirmed(stops, mask) then Draining else StopPending
    else before
  }

  /** The pieces of a round make the round. */
  lemma RoundTogether(r: Round, mask: u8, auxInput: bool, before: Phase, checked: Phase, served: Phase, after: Phase)
    requires !before.Idle?
    requires if before.Draining? then r.checks == [] else ChecksFit(r.checks, mask, auxInput)
    requires StopsIf(before.StopPending? || (before.Active? && FaultAnswered(r.checks)), r.stops, mask, auxInput)
    requires checked == AfterCheck(before, r.checks, r.stops, mask)
    requires if checked.StopPending? then r.served == []
             else Steps(r.served) == ServePlan(mask, auxInput, checked.Draining?)
    requires StopsIf(checked.Active? && ErrorAnswered(r.served), r.stopsAfter, mask, auxInput)
    requires served == AfterServing(checked, r.served, r.stopsAfter, mask)
    requires if served.Draining? && MaskHasAdc(mask) then PathDrains(r.adcDrain, AdcCapture, AdcPacker, false, false)
             else r.adcDrain == []
    requires if served.Draining? && MaskHasGpio(mask) then
               PathDrains(r.gpioDrain, CaptureFor(auxInput), PackerFor(auxInput), auxInput, !auxInput)
             else r.gpioDrain == []
    requires after == if served.Draining? && RunQuiescent(r.adcDrain + r.gpioDrain, mask, auxInput) then Idle
                      else served
    requires Steps(r.last) == if after.Idle? then [Step(Pipeline, StopProduction)] else []
    ensures RoundFits(r, mask, auxInput, before, after)
  {
    hide PathDrains, ServePlan, StopsInOrder, RunQuiescent, ChecksFit, StopConfirmed, Steps;
    NoRoundAnswers();
    hide FaultAnswered, ErrorAnswered;
  }

  lemma ReportTogether(r: Report, checked: Report, served: Report, after: Report, round: Round, before: Phase,
                       runId: u32, epochTicks: u64)
    requires var r0 := r.(runId := runId, epochTicks := epochTicks, drainPending := false);
             var due := before.StopPending? || (before.Active? && FaultAnswered(round.checks));
             checked == if due then Stopping(if FaultAnswered(round.checks) then Faulted(r0) else r0, runId, epochTicks,
                                             true, SomeRefused(round.stops))
                        else r0
    requires before.Draining? || before.Idle? ==> round.checks == []
    requires !(before.StopPending? || (before.Active? && FaultAnswered(round.checks))) ==> round.stops == []
    requires var due := before.Active? && !FaultAnswered(round.checks) && ErrorAnswered(round.served);
             && served == (if due then
                             Stopping(Faulted(checked), runId, epochTicks, true, SomeRefused(round.stopsAfter))
                           else checked)
             && (!due ==> round.stopsAfter == [])
    requires after == served.(drainPending := after.drainPending)
    ensures ReportsRound(r, after, round, before, runId, epochTicks)
  {
    NoRoundAnswers();
    hide FaultAnswered, ErrorAnswered, SomeRefused;
  }

  /** A round as far as the check, which leaves the run in phase `checked`. */
  predicate CheckedFits(r: Round, mask: u8, auxInput: bool, before: Phase, checked: Phase) {
    && !before.Idle?
    && r == NO_ROUND.(checks := r.checks, stops := r.stops)
    && (if before.Draining? then r.checks == [] else ChecksFit(r.checks, mask, auxInput))
    && StopsIf(StopDue(r, before), r.stops, mask, auxInput)
    && checked == AfterCheck(before, r.checks, r.stops, mask)
  }

  /** The report as the check leaves it. */
  predicate CheckedReport(begun: Report, after: Report, r: Round, before: Phase) {
    after == if StopDue(r, before) then
               Stopping(if FaultFound(r) then Faulted(begun) else begun, begun.runId, begun.epochTicks, true,
                        SomeRefused(r.stops))
             else begun
  }

  lemma FaultsAreReported(r: Report, after: Report, round: Round, before: Phase, runId: u32, epochTicks: u64)
    requires ReportsRound(r, after, round, before, runId, epochTicks)
    ensures FaultFound(round) || FailedServing(round, before) ==> after.faultDetected && after.internalError
  {
  }

  lemma IdleReport(r: Report)
    ensures ReportsRound(r, r.(runId := 0, epochTicks := 0, drainPending := false), NO_ROUND, Idle, 0, 0)
    ensures TriggerFirst(Calls(NO_ROUND))
  {
    NoRoundAnswers();
  }

  lemma NothingChecked(mask: u8, auxInput: bool, phase: Phase, begun: Report)
    ensures phase.Draining? ==>
              CheckedFits(NO_ROUND, mask, auxInput, phase, phase) && CheckedReport(begun, begun, NO_ROUND, phase)
  {
    NoRoundAnswers();
  }

  lemma RunIsChecked(r: Round, mask: u8, auxInput: bool, before: Phase, checked: Phase, begun: Report, after: Report)
    requires (before.Active? || before.StopPending?) && r == NO_ROUND.(checks := r.checks, stops := r.stops)
    requires ChecksFit(r.checks, mask, auxInput)
    requires StopsIf(before.StopPending? || FaultAnswered(r.checks), r.stops, mask, auxInput)
    requires checked == AfterCheck(before, r.checks, r.stops, mask)
    requires after == if !(before.StopPending? || FaultAnswered(r.checks)) then begun
                      else Stopping(if FaultAnswered(r.checks) then Faulted(begun) else begun, begun.runId,
                                    begun.epochTicks, true, SomeRefused(r.stops))
    ensures CheckedFits(r, mask, auxInput, before, checked) && CheckedReport(begun, after, r, before)
  {
    hide ChecksFit, FaultAnswered, StopsIf, AfterCheck, Stopping, Faulted, SomeRefused;
  }

  /** A run whose trigger will not stop is served no further in this round. */
  lemma StuckRound(r: Report, reached: Report, round: Round, mask: u8, auxInput: bool, before: Phase, runId: u32,
                   epochTicks: u64)
    requires CheckedFits(round, mask, auxInput, before, StopPending)
    requires CheckedReport(r.(runId := runId, epochTicks := epochTicks, drainPending := false), reached, round, before)
    ensures RoundFits(round, mask, auxInput, before, StopPending)
    ensures ReportsRound(r, reached.(drainPending := true), round, before, runId, epochTicks)
  {
    NoRoundAnswers();
    hide ChecksFit, StopsInOrder, SomeRefused, FaultAnswered, StopConfirmed, ErrorAnswered, Steps;
    RoundTogether(round, mask, auxInput, before, StopPending, StopPending, StopPending);
    ReportTogether(r, reached, reached, reached.(drainPending := true), round, before, runId, epochTicks);
  }

  /** The end of a round that goes on to serve the run. */
  lemma RoundEnds(r: Report, checked: Report, served: Report, after: Report, begun: Round, round: Round, before: Phase,
                  phase: Phase, reached: Phase, last: Phase, mask: u8, auxInput: bool, runId: u32, epochTicks: u64)
    requires CheckedFits(begun, mask, auxInput, before, phase) && !phase.StopPending?
    requires CheckedReport(r.(runId := runId, epochTicks := epochTicks, drainPending := false), checked, begun, before)
    requires round.checks == begun.checks && round.stops == begun.stops
    requires Steps(round.served) == ServePlan(mask, auxInput, phase.Draining?)
    requires StopsIf(phase.Active? && ErrorAnswered(round.served), round.stopsAfter, mask, auxInput)
    requires reached == AfterServing(phase, round.served, round.stopsAfter, mask)
    requires served == if phase.Active? && ErrorAnswered(round.served) then
                         Stopping(Faulted(checked), runId, epochTicks, true, SomeRefused(round.stopsAfter))
                       else checked
    requires if reached.Draining? && MaskHasAdc(mask) then
               PathDrains(round.adcDrain, AdcCapture, AdcPacker, false, false)
             else round.adcDrain == []
    requires if reached.Draining? && MaskHasGpio(mask) then
               PathDrains(round.gpioDrain, CaptureFor(auxInput), PackerFor(auxInput), auxInput, !auxInput)
             else round.gpioDrain == []
    requires last == if reached.Draining? && RunQuiescent(round.adcDrain + round.gpioDrain, mask, auxInput) then Idle
                     else reached
    requires Steps(round.last) == if last.Idle? then [Step(Pipeline, StopProduction)] else []
    requires after == served.(drainPending := after.drainPending)
    ensures RoundFits(round, mask, auxInput, before, last)
    ensures ReportsRound(r, after, round, before, runId, epochTicks)
  {
    NoRoundAnswers();
    hide ChecksFit, StopsInOrder, SomeRefused, FaultAnswered, StopConfirmed, ErrorAnswered, PathDrains, RunQuiescent,
      Steps, ServePlan;
    RoundTogether(round, mask, auxInput, before, phase, reached, last);
    hide RoundFits;
    ReportTogether(r, checked, served, after, round, before, runId, epochTicks);
  }

  // --------------------------------------------------- what a round amounts to

  /** Nothing in a check, a service or a drain is stopped after triggers. */
  lemma StepsWithout(calls: Log, steps: seq<Step>)
    requires Steps(calls) == steps && forall k :: 0 <= k < |steps| ==> !steps[k].op.StopAfterTriggers?
    ensures TriggerFirst(calls)
  {
    assert forall k :: 0 <= k < |calls| ==> !calls[k].op.StopAfterTriggers?;
  }

  lemma ChecksStopNothing(checks: Log, mask: u8, auxInput: bool)
    requires ChecksFit(checks, mask, auxInput)
    ensures TriggerFirst(checks) && !ErrorAnswered(checks)
    ensures !FaultAnswered(checks) ==> forall on :: IsCapture(on) && Needed(mask, auxInput, on) ==> Sampled(checks, on)
  {
    var steps := Steps(checks);
    StepsWithout(checks, steps);
    hide TriggerFirst;
    forall d | d in checks
      ensures d.op == Snapshot
    {
      var k :| 0 <= k < |checks| && checks[k] == d;
      assert steps[k] == Step(d.on, d.op);
    }
    if !FaultAnswered(checks) {
      forall on | IsCapture(on) && Needed(mask, auxInput, on)
        ensures Sampled(checks, on)
      {
        var k := if on == AdcCapture then 0 else |steps| - 1;
        assert !FaultAnswered(checks[..if MaskHasAdc(mask) then 1 else 0]) by {
          assert forall d :: d in checks[..if MaskHasAdc(mask) then 1 else 0] ==> d in checks;
        }
        assert steps[k] == Step(on, Snapshot);
        assert checks[k] in checks;
      }
    }
  }

  lemma ServingStopsNothing(served: Log, mask: u8, auxInput: bool, draining: bool)
    requires Steps(served) == ServePlan(mask, auxInput, draining)
    ensures TriggerFirst(served) && !FaultAnswered(served)
  {
    var steps := Steps(served);
    StepsWithout(served, steps);
    hide TriggerFirst;
    forall d | d in served
      ensures d.op != Snapshot
    {
      var k :| 0 <= k < |served| && served[k] == d;
      assert steps[k] == Step(d.on, d.op);
    }
  }

  lemma DrainStopsNothing(calls: Log, capture: Component, packer: Component, owns: bool, flushes: bool)
    requires PathDrains(calls, capture, packer, owns, flushes)
    ensures TriggerFirst(calls)
  {
    var k := if owns then 3 else 2;
    var rest := calls[k..];
    var stops := calls[k - 2].answer.emptied && calls[k - 1].answer.running;
    StepsWithout(calls[..k], Steps(calls[..k]));
    assert calls == calls[..k] + rest;
    if stops {
      StepsWithout(rest[..2], Steps(rest[..2]));
      StepsWithout(rest[2..], Steps(rest[2..]));
      assert rest == rest[..2] + rest[2..];
      TriggerFirstJoined(rest[..2], rest[2..]);
    } else {
      StepsWithout(rest, Steps(rest));
    }
    TriggerFirstJoined(calls[..k], rest);
  }

  lemma StopTriggersFirst(due: bool, calls: Log, mask: u8, auxInput: bool)
    requires StopsIf(due, calls, mask, auxInput)
    ensures TriggerFirst(calls)
  {
    EmptyLogStopsNothing();
  }

  /** In a round, whatever is stopped after its triggers is stopped after they have confirmed. */
  lemma RoundStopsInOrder(r: Round, mask: u8, auxInput: bool, before: Phase, after: Phase)
    requires RoundFits(r, mask, auxInput, before, after)
    ensures TriggerFirst(Calls(r))
  {
    hide ChecksFit, StopsInOrder, PathDrains, ServePlan, RunQuiescent, TriggerFirst, Steps;
    EmptyLogStopsNothing();
    if !before.Draining? {
      ChecksStopNothing(r.checks, mask, auxInput);
    }
    StopTriggersFirst(StopDue(r, before), r.stops, mask, auxInput);
    if r.served != [] {
      ServingStopsNothing(r.served, mask, auxInput, before.Draining? || StopDue(r, before));
    }
    StopTriggersFirst(FailedServing(r, before), r.stopsAfter, mask, auxInput);
    if r.adcDrain != [] {
      DrainStopsNothing(r.adcDrain, AdcCapture, AdcPacker, false, false);
    }
    if r.gpioDrain != [] {
      DrainStopsNothing(r.gpioDrain, CaptureFor(auxInput), PackerFor(auxInput), auxInput, !auxInput);
    }
    LastStopsNothing(r.last);
    hide RoundFits;
    TriggerFirstJoined(r.checks, r.stops);
    TriggerFirstJoined(r.checks + r.stops, r.served);
    TriggerFirstJoined(r.checks + r.stops + r.served, r.stopsAfter);
    TriggerFirstJoined(r.checks + r.stops + r.served + r.stopsAfter, r.adcDrain);
    TriggerFirstJoined(r.checks + r.stops + r.served + r.stopsAfter + r.adcDrain, r.gpioDrain);
    TriggerFirstJoined(r.checks + r.stops + r.served + r.stopsAfter + r.adcDrain + r.gpioDrain, r.last);
  }

  lemma LastStopsNothing(last: Log)
    ensures Steps(last) == [] || Steps(last) == [Step(Pipeline, StopProduction)] ==> TriggerFirst(last)
  {
    if Steps(last) == [] || Steps(last) == [Step(Pipeline, StopProduction)] {
      StepsWithout(last, Steps(last));
    }
  }

  /** A run that stays active through a round was found sound: every capture of it was sampled, none had faulted, and no
      packer failed in its service. One that does not stay active had such a fault. */
  lemma RoundFindsFaults(r: Round, mask: u8, auxInput: bool, after: Phase)
    requires RoundFits(r, mask, auxInput, Active, after)
    ensures after.Active? ==>
              && (forall on :: IsCapture(on) && Needed(mask, auxInput, on) ==> Sampled(Calls(r), on))
              && !FaultAnswered(Calls(r)) && !ErrorAnswered(Calls(r))
    ensures !after.Active? ==>
              && (FaultAnswered(Calls(r)) || ErrorAnswered(Calls(r)))
              && (FaultFound(r) || FailedServing(r, Active))
  {
    hide PathDrains, StopsInOrder, RunQuiescent, StopConfirmed, ChecksFit, ServePlan, FaultAnswered, ErrorAnswered,
      Calls, Needed, Sampled;
    ChecksStopNothing(r.checks, mask, auxInput);
    NoLastCall(r.last);
    if after.Active? {
      ServingStopsNothing(r.served, mask, auxInput, false);
      QuietRound(r, mask, auxInput);
    } else {
      FaultyRound(r);
    }
  }

  lemma QuietRound(r: Round, mask: u8, auxInput: bool)
    requires r == NO_ROUND.(checks := r.checks, served := r.served)
    ensures FaultAnswered(Calls(r)) == (FaultAnswered(r.checks) || FaultAnswered(r.served))
    ensures ErrorAnswered(Calls(r)) == (ErrorAnswered(r.checks) || ErrorAnswered(r.served))
    ensures forall on :: Sampled(r.checks, on) ==> Sampled(Calls(r), on)
  {
    assert Calls(r) == r.checks + r.served;
    FaultsJoin(r.checks, r.served);
    ErrorsJoin(r.checks, r.served);
    assert forall d :: d in r.checks ==> d in Calls(r);
  }

  lemma FaultyRound(r: Round)
    ensures FaultAnswered(r.checks) ==> FaultAnswered(Calls(r))
    ensures ErrorAnswered(r.served) ==> ErrorAnswered(Calls(r))
  {
    var rest := r.stopsAfter + r.adcDrain + r.gpioDrain + r.last;
    assert Calls(r) == r.checks + r.stops + r.served + rest;
    assert forall d :: d in r.checks || d in r.served ==> d in Calls(r);
  }

  lemma NoLastCall(last: Log)
    ensures Steps(last) == [] ==> last == []
  {
  }

  lemma OneLastCall(last: Log)
    requires Steps(last) == [Step(Pipeline, StopProduction)]
    ensures last == [last[0]] && last[0].on == Pipeline && last[0].op == StopProduction
  {
    assert Steps(last)[0] == Step(last[0].on, last[0].op);
  }

  lemma CallsInThree(r: Round)
    ensures Calls(r) == (r.checks + r.stops + r.served + r.stopsAfter) + (r.adcDrain + r.gpioDrain) + r.last
  {
  }

  /** What a round ends with, after all it drained, does not change whether the run is quiescent. */
  lemma EndKeepsQuiescence(earlier: Log, drains: Log, last: Log, mask: u8, auxInput: bool)
    requires forall on :: Needed(mask, auxInput, on) ==> Sampled(drains, on)
    ensures Steps(last) == [] ==> (RunQuiescent(earlier + drains + last, mask, auxInput)
                                   <==> RunQuiescent(drains, mask, auxInput))
    ensures Steps(last) == [Step(Pipeline, StopProduction)] ==>
              && Last(earlier + drains + last, Pipeline, StopProduction)
              && (RunQuiescent(drains, mask, auxInput) ==> RunQuiescent(earlier + drains + last, mask, auxInput))
  {
    hide RunQuiescent, TriggerFirst, Last;
    LaterQuiescence(earlier, drains, mask, auxInput);
    if Steps(last) == [] {
      NoLastCall(last);
      assert earlier + drains + last == earlier + drains;
    } else if Steps(last) == [Step(Pipeline, StopProduction)] {
      OneLastCall(last);
      PipelineIsLast(earlier + drains, last[0], mask, auxInput);
    }
  }

  /** A run is given up only with every capture and packer of it quiescent, and packet production stopped last; and a
      run that goes on draining has one that is not. */
  lemma RoundQuiesces(r: Round, mask: u8, auxInput: bool, before: Phase, after: Phase)
    requires RoundFits(r, mask, auxInput, before, after) && !before.Idle?
    ensures Advances(before, after)
    ensures after.Idle? ==> RunQuiescent(Calls(r), mask, auxInput) && Last(Calls(r), Pipeline, StopProduction)
    ensures after.Draining? ==> !RunQuiescent(Calls(r), mask, auxInput)
  {
    hide PathDrains, StopsInOrder, RunQuiescent, StopConfirmed, ChecksFit, ServePlan, FaultAnswered, ErrorAnswered,
      Steps, Last, Calls, StopsIf, Sampled, Needed;
    if after.Idle? || after.Draining? {
      DrainsTogether(r.adcDrain, r.gpioDrain, mask, auxInput);
      var earlier := r.checks + r.stops + r.served + r.stopsAfter;
      EndKeepsQuiescence(earlier, r.adcDrain + r.gpioDrain, r.last, mask, auxInput);
      CallsInThree(r);
    }
  }

  lemma DidIsStep(log: Log, on: Component, op: Operation)
    ensures Did(log, on, op) <==> Step(on, op) in Steps(log)
  {
    if Did(log, on, op) {
      var d :| d in log && d.on == on && d.op == op;
      var k :| 0 <= k < |log| && log[k] == d;
      assert Steps(log)[k] == Step(on, op);
    }
    if Step(on, op) in Steps(log) {
      var k :| 0 <= k < |log| && Steps(log)[k] == Step(on, op);
      assert log[k] in log;
    }
  }

  /** Every call made while a path drains, in order. */
  lemma DrainSteps(calls: Log, capture: Component, packer: Component, owns: bool, flushes: bool)
    requires PathDrains(calls, capture, packer, owns, flushes)
    ensures var k := if owns then 1 else 0;
            var stops := calls[k].answer.emptied && calls[k + 1].answer.running;
            && (stops ==> |calls| >= k + 4)
            && var latest := if stops then calls[k + 3].answer else calls[k + 1].answer;
               Steps(calls) == (if owns then [Step(capture, ServiceOwnership)] else [])
                               + [Step(capture, Snapshot), Step(packer, Snapshot)]
                               + (if stops then [Step(packer, StopProduction), Step(packer, Snapshot)] else [])
                               + (if flushes && !latest.running && !latest.quiescent then
                                    [Step(packer, Flush), Step(packer, Snapshot)]
                                  else [])
  {
    var k := if owns then 1 else 0;
    var rest := calls[k + 2..];
    assert calls == calls[..k + 2] + rest;
    StepsJoin(calls[..k + 2], rest);
    if calls[k].answer.emptied && calls[k + 1].answer.running {
      assert rest == rest[..2] + rest[2..];
      StepsJoin(rest[..2], rest[2..]);
      assert rest[1] == calls[k + 3];
    }
  }

  /** While a path drains, a capture that keeps ownership of its buffers moves them on before it is sampled. */
  lemma DrainBegins(calls: Log, capture: Component, packer: Component, owns: bool, flushes: bool)
    requires IsCapture(capture) && IsPacker(packer) && PathDrains(calls, capture, packer, owns, flushes)
    ensures Did(calls, capture, ServiceOwnership) <==> owns
    ensures var k := if owns then 1 else 0;
            && |calls| >= k + 2
            && (owns ==> calls[0].on == capture && calls[0].op == ServiceOwnership)
            && calls[k].on == capture && calls[k].op == Snapshot
            && calls[k + 1].on == packer && calls[k + 1].op == Snapshot
  {
    DrainSteps(calls, capture, packer, owns, flushes);
    hide Did, Settles;
    DidIsStep(calls, capture, ServiceOwnership);
    forall j | 0 <= j < |calls|
      ensures Steps(calls)[j] == Step(calls[j].on, calls[j].op)
    {
    }
  }

  /** Its packer is told to stop production exactly when the capture has answered that it holds nothing more and the
      packer that it still runs; and one that can be flushed is, exactly when it has stopped with something left. */
  lemma DrainSettles(calls: Log, capture: Component, packer: Component, owns: bool, flushes: bool)
    requires IsCapture(capture) && IsPacker(packer) && PathDrains(calls, capture, packer, owns, flushes)
    ensures var k := if owns then 1 else 0;
            var stops := calls[k].answer.emptied && calls[k + 1].answer.running;
            && (Did(calls, packer, StopProduction) <==> stops)
            && (stops ==> |calls| >= k + 4 && calls[k + 3].on == packer && calls[k + 3].op == Snapshot)
            && var latest := if stops then calls[k + 3].answer else calls[k + 1].answer;
               Did(calls, packer, Flush) <==> flushes && !latest.running && !latest.quiescent
  {
    DrainSteps(calls, capture, packer, owns, flushes);
    hide PathDrains, Did;
    DidIsStep(calls, packer, StopProduction);
    DidIsStep(calls, packer, Flush);
    var k := if owns then 1 else 0;
    if calls[k].answer.emptied && calls[k + 1].answer.running {
      assert Steps(calls)[k + 3] == Step(calls[k + 3].on, calls[k + 3].op);
    }
  }

  /** Only the auxiliary capture keeps ownership while it drains, and only the packer of the GPIO bank is flushed. */
  lemma RoundDrains(r: Round, mask: u8, auxInput: bool, before: Phase, after: Phase)
    requires RoundFits(r, mask, auxInput, before, after) && Drained(r, mask, before)
    ensures MaskHasAdc(mask) ==> !Did(r.adcDrain, AdcCapture, ServiceOwnership) && !Did(r.adcDrain, AdcPacker, Flush)
    ensures MaskHasGpio(mask) && auxInput ==>
              && Did(r.gpioDrain, AuxCapture, ServiceOwnership) && !Did(r.gpioDrain, AuxPacker, Flush)
    ensures MaskHasGpio(mask) && !auxInput ==>
              && !Did(r.gpioDrain, GpioCapture, ServiceOwnership) && |r.gpioDrain| >= 2
              && (var last := r.gpioDrain[|r.gpioDrain| - 1];
                  last.on == GpioPacker && last.op == Snapshot
                  && (!last.answer.running && !last.answer.quiescent ==> Did(r.gpioDrain, GpioPacker, Flush)))
  {
    hide Steps, Did, ServePlan, StopsIf, ChecksFit, RunQuiescent, StopConfirmed, Settles;
    if MaskHasAdc(mask) {
      DrainBegins(r.adcDrain, AdcCapture, AdcPacker, false, false);
      DrainSettles(r.adcDrain, AdcCapture, AdcPacker, false, false);
    }
    if MaskHasGpio(mask) {
      DrainBegins(r.gpioDrain, CaptureFor(auxInput), PackerFor(auxInput), auxInput, !auxInput);
      DrainSettles(r.gpioDrain, CaptureFor(auxInput), PackerFor(auxInput), auxInput, !auxInput);
      if !auxInput {
        FlushedOrQuiet(r.gpioDrain, GpioCapture, GpioPacker);
      }
    }
  }

  /** A drain ends with a snapshot of its packer; one that can be flushed was, if it ends stopped with some left. */
  lemma FlushedOrQuiet(calls: Log, capture: Component, packer: Component)
    requires IsCapture(capture) && IsPacker(packer) && PathDrains(calls, capture, packer, false, true)
    ensures |calls| >= 2
    ensures var last := calls[|calls| - 1];
            && last.on == packer && last.op == Snapshot
            && (!last.answer.running && !last.answer.quiescent ==> Did(calls, packer, Flush))
  {
    DrainSteps(calls, capture, packer, false, true);
    hide PathDrains, Did;
    DidIsStep(calls, packer, Flush);
    assert Steps(calls)[|calls| - 1] == Step(calls[|calls| - 1].on, calls[|calls| - 1].op);
  }

  /** In the same round, captures that keep ownership of their buffers move them on: the ADC and the auxiliary one. */
  lemma RoundServesOwnership(r: Round, mask: u8, auxInput: bool, before: Phase, after: Phase, capture: Component)
    requires RoundFits(r, mask, auxInput, before, after) && !before.Idle?
    requires StopDue(r, before) ==> StopConfirmed(r.stops, mask)
    ensures IsCapture(capture) ==> (Did(r.served, capture, ServiceOwnership) <==>
                                    Needed(mask, auxInput, capture) && !capture.GpioCapture?)
  {
    hide Did, Steps, PathDrains, StopsIf, RunQuiescent, StopConfirmed, ChecksFit, Settles;
    DidIsStep(r.served, capture, ServiceOwnership);
  }

  /** Unless the trigger will not stop, a round services every packer of the run once, as draining exactly when the run
      is no longer active by then. */
  lemma RoundServesEveryPacker(r: Round, mask: u8, auxInput: bool, before: Phase, after: Phase, packer: Component)
    requires RoundFits(r, mask, auxInput, before, after) && !before.Idle?
    requires IsPacker(packer) && Needed(mask, auxInput, packer)
    requires StopDue(r, before) ==> StopConfirmed(r.stops, mask)
    ensures Did(r.served, packer, Service(before.Draining? || StopDue(r, before)))
    ensures before.Active? && !FaultFound(r) <==> Did(r.served, packer, Service(false))
  {
    hide PathDrains, StopsInOrder, RunQuiescent, StopConfirmed, ChecksFit, FaultAnswered, ErrorAnswered;
    var draining := before.Draining? || StopDue(r, before);
    var steps := Steps(r.served);
    assert Step(packer, Service(draining)) in steps;
    var k :| 0 <= k < |steps| && steps[k] == Step(packer, Service(draining));
    assert r.served[k] in r.served;
    forall d | d in r.served && d.on == packer && d.op.Service?
      ensures d.op.draining == draining
    {
      var j :| 0 <= j < |steps| && r.served[j] == d;
      assert steps[j] == Step(d.on, d.op);
    }
  }
}
