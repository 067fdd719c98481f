/** The acquisition controller over components that may answer anything: start, rollback, stop, drain. */
module AcquisitionController {
  import opened FixedWidth
  import opened ControllerModel
  import opened ControllerStarts
  import opened ControllerRounds

  class Controller {
    const env: Components
    var streamMask: u8
    var runId: u32
    var epochTicks: u64
    var auxInput: bool
    var rateProfile: nat
    var previousRateProfile: nat
    var restoreRateOnRollback: bool
    var runActive: bool
    var drainPending: bool
    var startPending: bool

    function CurrentPhase(): Phase
      reads this
    {
      if runActive then (if drainPending then StopPending else Active)
      else if drainPending then Draining else Idle
    }

    function CurrentIdentity(): Identity
      reads this
    {
      Identity(streamMask, runId, epochTicks, auxInput, rateProfile)
    }

    /** Between calls: idle with nothing held, or in a run of ADC, GPIO or both whose components are all there. */
    ghost predicate Valid()
      reads this
    {
      && Pipeline in env.present
      && !startPending
      && (if CurrentPhase().Idle? then
            CurrentIdentity() == NO_IDENTITY && !restoreRateOnRollback
          else
            && streamMask in {ADC_STREAM, GPIO_STREAM, BOTH_STREAMS}
            && runId != 0
            && Equipped(env.present, streamMask, auxInput))
    }

    constructor (env: Components)
      requires Pipeline in env.present
      ensures Valid() && CurrentPhase().Idle? && this.env == env
    {
      this.env := env;
      streamMask, runId, epochTicks, auxInput := 0, 0, 0, false;
      rateProfile, previousRateProfile := DEFAULT_RATE_PROFILE, DEFAULT_RATE_PROFILE;
      restoreRateOnRollback, runActive, drainPending, startPending := false, false, false, false;
    }

    method ClearRunState()
      modifies this
      ensures CurrentPhase().Idle? && CurrentIdentity() == NO_IDENTITY
      ensures !startPending && !restoreRateOnRollback
      ensures Pipeline in env.present ==> Valid()
    {
      streamMask, runId, epochTicks, auxInput := 0, 0, 0, false;
      rateProfile, previousRateProfile := DEFAULT_RATE_PROFILE, DEFAULT_RATE_PROFILE;
      restoreRateOnRollback, runActive, drainPending, startPending := false, false, false, false;
    }

    // ------------------------------------------------------------------- inspect

    /** One question of an inspection, and its conflict when the answer disappoints. */
    method Check(on: Component, op: Operation, conflict: Conflict) returns (found: set<Conflict>, ghost calls: Log)
      requires on in env.present && conflict == RaisedBy(Step(on, op))
      requires op.Usable? || op.Ready? || op.Running? || op.Inspect?
      modifies env
      ensures env.log == old(env.log) + calls && InspectionsOnly(calls)
      ensures Steps(calls) == [Step(on, op)] && found == Disappointments(calls)
    {
      var answer := env.Ask(on, op);
      calls := [Done(on, op, answer)];
      OneDisappointed(calls[0]);
      found := {};
      if (if op.Running? then answer.running else !answer.ok) {
        found := {conflict};
      }
    }

    method InspectAdc() returns (found: set<Conflict>, ghost calls: Log)
      modifies env
      ensures env.log == old(env.log) + calls && InspectionsOnly(calls)
      ensures Steps(calls) == AdcQuestions(env.present)
      ensures found == (if HasAdc(env.present) then {} else {AdcComponentsMissing}) + Disappointments(calls)
    {
      calls := [];
      if Trigger !in env.present || AdcCapture !in env.present || AdcPacker !in env.present {
        return {AdcComponentsMissing}, [];
      }
      hide InspectionsOnly, Disappointments, Steps, RaisedBy;
      ghost var a, b, c, d: Log;
      var unready, running, packer, capture;
      unready, a := Check(Trigger, Ready, AdcTriggerUnavailable);
      running, b := Check(Trigger, Running, AdcTriggerRunning);
      packer, c := Check(AdcPacker, Ready, AdcPackerBusy);
      capture, d := Check(AdcCapture, Inspect, AdcCaptureUnavailable);
      found := unready + running + packer + capture;
      calls := a + b + c + d;
      JoinLogs(old(env.log), a, b);
      JoinLogs(old(env.log), a + b, c);
      JoinLogs(old(env.log), a + b + c, d);
      TwoInspections(a, b);
      TwoInspections(a + b, c);
      TwoInspections(a + b + c, d);
    }

    method InspectGpio(aux: bool) returns (found: set<Conflict>, ghost calls: Log)
      modifies env
      ensures env.log == old(env.log) + calls && InspectionsOnly(calls)
      ensures Steps(calls) == GpioQuestions(env.present, aux)
      ensures found == (if HasGpio(env.present, aux) then {} else {GpioComponentsMissing(aux)}) + Disappointments(calls)
    {
      calls := [];
      if CaptureFor(aux) !in env.present || PackerFor(aux) !in env.present {
        return {GpioComponentsMissing(aux)}, [];
      }
      hide InspectionsOnly, Disappointments, Steps;
      ghost var a, b;
      var packer, capture;
      packer, a := Check(PackerFor(aux), Ready, GpioPackerBusy(aux));
      capture, b := Check(CaptureFor(aux), Inspect, GpioCaptureUnavailable(aux));
      found := packer + capture;
      calls := a + b;
      JoinLogs(old(env.log), a, b);
      TwoInspections(a, b);
    }

    method InspectRate(c: Configuration) returns (found: set<Conflict>, ghost calls: Log)
      modifies env
      ensures env.log == old(env.log) + calls && InspectionsOnly(calls)
      ensures Steps(calls) == RateQuestions(c, env.present)
      ensures found == (if c.legacySchedule || RateScheduler in env.present then {} else {RateSchedulerUnavailable})
                       + Disappointments(calls)
    {
      found, calls := {}, [];
      if !c.legacySchedule && RateScheduler !in env.present {
        found := {RateSchedulerUnavailable};
      } else if RateScheduler in env.present {
        found, calls := Check(RateScheduler, Usable, RateSchedulerUnavailable);
      }
    }

    /** The questions of the rate scheduler and of every path of the run. */
    method InspectPaths(c: Configuration, epoch: u32) returns (conflicts: set<Conflict>, ghost calls: Log)
      requires Valid() && Executable(ProfileFor(c)) && c.complete && epoch != 0
      modifies env
      ensures env.log == old(env.log) + calls && InspectionsOnly(calls)
      ensures Steps(calls) == Questions(c, epoch, env.present)
      ensures conflicts
           == StaticConflicts(c, epoch, !CurrentPhase().Idle?, env.present) + Disappointments(calls)
    {
      hide InspectionsOnly, Disappointments, Steps, HasAdc, HasGpio, AdcQuestions, GpioQuestions, RateQuestions,
        Questions, StaticConflicts, IncludesAdc, IncludesGpio, ProfileFor;
      NothingDisappoints();
      var profile := ProfileFor(c);
      var busy, rate, adc, gpio := {}, {}, {}, {};
      ghost var rateCalls, adcCalls, gpioCalls := [], [], [];
      if runActive || drainPending || startPending {
        busy := {ControllerBusy};
      }
      rate, rateCalls := InspectRate(c);
      if IncludesAdc(profile) {
        adc, adcCalls := InspectAdc();
      }
      if IncludesGpio(profile) {
        gpio, gpioCalls := InspectGpio(c.auxInput);
      }
      conflicts := busy + rate + adc + gpio;
      calls := rateCalls + adcCalls + gpioCalls;
      JoinLogs(old(env.log), rateCalls, adcCalls);
      JoinLogs(old(env.log), rateCalls + adcCalls, gpioCalls);
      PathsTogether(c, epoch, !CurrentPhase().Idle?, env.present, rateCalls, adcCalls, gpioCalls);
      ConflictsTogether(c, epoch, !CurrentPhase().Idle?, env.present, Disappointments(rateCalls),
                        Disappointments(adcCalls), Disappointments(gpioCalls));
    }

    /** The read-only audit before a start: asks every component of the run that is there, and finds exactly what stands
        against the start beforehand and what the answers raise. */
    method InspectStart(c: Configuration, epoch: u32) returns (conflicts: set<Conflict>, ghost calls: Log)
      requires Valid()
      modifies env
      ensures env.log == old(env.log) + calls && InspectionsOnly(calls)
      ensures Steps(calls) == Questions(c, epoch, env.present)
      ensures conflicts
           == StaticConflicts(c, epoch, !CurrentPhase().Idle?, env.present) + Disappointments(calls)
      ensures conflicts == {} <==>
                Startable(c, epoch, !CurrentPhase().Idle?, env.present) && AllFavourable(calls)
      ensures conflicts == {} ==>
                && (forall on :: Includes(c, on) ==> Did(calls, on, if IsPacker(on) then Ready else Inspect))
                && (IncludesAdc(ProfileFor(c)) ==> Did(calls, Trigger, Ready) && Did(calls, Trigger, Running))
                && (RateScheduler in env.present ==> Did(calls, RateScheduler, Usable))
    {
      calls := [];
      var profile := ProfileFor(c);
      NothingDisappoints();
      if profile == NoProfile || profile == Invalid {
        return {InvalidProfile}, [];
      }
      if !c.complete {
        return {InvalidConfiguration}, [];
      }
      if epoch == 0 {
        return {InvalidRunId}, [];
      }
      hide *;
      conflicts, calls := InspectPaths(c, epoch);
      ClearMeansStartable(c, epoch, !CurrentPhase().Idle?, env.present, calls);
    }

    // ----------------------------------------------------------------- rollback

    /** Makes a call only when it is due. */
    method CallIf(due: bool, on: Component, op: Operation) returns (ok: bool, ghost calls: Log)
      requires due ==> on in env.present
      modifies env
      ensures env.log == old(env.log) + calls
      ensures MadeIf(calls, due, on, op)
      ensures ok == (due && calls[0].answer.ok)
    {
      ok, calls := false, [];
      if due {
        var answer := env.Ask(on, op);
        ok, calls := answer.ok, [Done(on, op, answer)];
      }
    }

    /** Stops the common trigger if it still runs; the first thing a rollback does. */
    method QuietTrigger(profile: Profile) returns (told: bool, stopped: bool, ghost calls: Log)
      requires IncludesAdc(profile) ==> Trigger in env.present
      modifies env
      ensures env.log == old(env.log) + calls
      ensures Quieting(calls, IncludesAdc(profile)) && Steps(calls) == QuietPlan(profile, StillRan(calls))
      ensures told == Did(calls, Trigger, Stop) && stopped == DidWell(calls, Trigger, Stop)
    {
      told, stopped, calls := false, false, [];
      if IncludesAdc(profile) {
        var trigger := env.Ask(Trigger, Running);
        calls := [Done(Trigger, Running, trigger)];
        if trigger.running {
          var stop := env.Ask(Trigger, Stop);
          told, stopped := true, stop.ok;
          calls := calls + [Done(Trigger, Stop, stop)];
          assert calls[1] in calls;
        }
      }
    }

    method StopCaptures(profile: Profile, report: Report, ghost attempt: Log) returns (ghost calls: Log)
      requires FlagsFit(report, profile, auxInput) && Mirrors(report, attempt)
      requires IncludesAdc(profile) ==> AdcCapture in env.present
      requires IncludesGpio(profile) ==> CaptureFor(auxInput) in env.present
      modifies env
      ensures env.log == old(env.log) + calls
      ensures forall d :: d in calls ==> IsCapture(d.on)
      ensures forall c :: IsCapture(c) ==> (Brought(attempt, c) <==> CaptureStopped(calls, c))
      ensures Steps(calls) == CaptureUndoPlan(profile, report)
    {
      hide Brought, CaptureStopped;
      var ok, gpio := CallIf(IncludesGpio(profile) && report.gpioCapturePrepared, GpioCapture,
                             if profile == Combined then StopAfterTriggers else Stop);
      ghost var aux, adc;
      ok, aux := CallIf(IncludesGpio(profile) && report.auxCapturePrepared, AuxCapture, StopAfterTriggers);
      ok, adc := CallIf(IncludesAdc(profile) && report.adcCapturePrepared, AdcCapture, StopAfterTriggers);
      calls := gpio + aux + adc;
      CapturesAreStopped(report, attempt, gpio, aux, adc);
    }

    method StopPackers(profile: Profile, report: Report, ghost attempt: Log) returns (ghost calls: Log)
      requires FlagsFit(report, profile, auxInput) && Mirrors(report, attempt)
      requires IncludesAdc(profile) ==> AdcPacker in env.present
      requires IncludesGpio(profile) ==> PackerFor(auxInput) in env.present
      modifies env
      ensures env.log == old(env.log) + calls
      ensures forall d :: d in calls ==> IsPacker(d.on)
      ensures forall p :: IsPacker(p) ==> (DidWell(attempt, p, Start) <==> Did(calls, p, StopProduction))
      ensures Steps(calls) == PackerUndoPlan(report)
    {
      hide DidWell, Did;
      var ok, gpio := CallIf(report.gpioPackerStarted, GpioPacker, StopProduction);
      ghost var aux, adc;
      ok, aux := CallIf(report.auxPackerStarted, AuxPacker, StopProduction);
      ok, adc := CallIf(report.adcPackerStarted, AdcPacker, StopProduction);
      calls := gpio + aux + adc;
      PackersAreStopped(report, attempt, gpio, aux, adc);
    }

    /** The calls of a rollback: the trigger first, then captures, packers, rate and production. */
    method UndoStart(profile: Profile, report: Report, ghost attempt: Log, ghost newProfile: nat)
      returns (after: Report, ghost undo: Log)
      requires Pipeline in env.present
      requires FlagsFit(report, profile, auxInput) && Mirrors(report, attempt)
      requires IncludesAdc(profile) ==> HasAdc(env.present)
      requires IncludesGpio(profile) ==> HasGpio(env.present, auxInput)
      requires restoreRateOnRollback ==> RateScheduler in env.present
      requires restoreRateOnRollback == DidWell(attempt, RateScheduler, Configure(newProfile))
      modifies env
      ensures env.log == old(env.log) + undo
      ensures Unwound(attempt, undo, IncludesAdc(profile), newProfile, previousRateProfile)
      ensures Steps(undo) == UndoPlan(profile, report, StillRan(undo), restoreRateOnRollback, previousRateProfile)
      ensures ReportsUndo(report, after, undo, restoreRateOnRollback, previousRateProfile)
    {
      hide Mirrors, FlagsFit, Unwound, DidWell, Did, Brought, CaptureStopped, Quieting, IncludesAdc, IncludesGpio,
        RolledBack, QuietPlan, CaptureUndoPlan, PackerUndoPlan, StillRan;
      var told, stopped, quieting := QuietTrigger(profile);
      ghost var stops := StopCaptures(profile, report, attempt);
      ghost var packers := StopPackers(profile, report, attempt);
      var restored, rate := CallIf(restoreRateOnRollback && RateScheduler in env.present, RateScheduler,
                                   Configure(previousRateProfile));
      var production := env.Ask(Pipeline, StopProduction);
      ghost var last := Done(Pipeline, StopProduction, production);
      after := RolledBack(report, told, stopped, restoreRateOnRollback, restored);
      undo := quieting + stops + packers + rate + [last];
      JoinPieces(old(env.log), quieting, stops, packers, rate, [last]);
      UndoSteps(profile, report, quieting, stops, packers, rate, last, restoreRateOnRollback, previousRateProfile);
      UndoIsReported(report, quieting, stops, packers, rate, last, told, stopped, restoreRateOnRollback, restored,
                     previousRateProfile);
      PiecesTogether(attempt, quieting, stops, packers, rate, last, IncludesAdc(profile), newProfile,
                     previousRateProfile);
    }

    /** Undoes a start that has been reserved, and returns to idle. */
    method RollbackStart(profile: Profile, report: Report, ghost attempt: Log, ghost newProfile: nat)
      returns (after: Report, ghost undo: Log)
      requires Pipeline in env.present
      requires FlagsFit(report, profile, auxInput) && Mirrors(report, attempt)
      requires IncludesAdc(profile) ==> HasAdc(env.present)
      requires IncludesGpio(profile) ==> HasGpio(env.present, auxInput)
      requires restoreRateOnRollback ==> RateScheduler in env.present
      requires restoreRateOnRollback == DidWell(attempt, RateScheduler, Configure(newProfile))
      modifies this, env
      ensures env.log == old(env.log) + undo
      ensures Unwound(attempt, undo, IncludesAdc(profile), newProfile, old(previousRateProfile))
      ensures Steps(undo)
           == UndoPlan(profile, report, StillRan(undo), old(restoreRateOnRollback), old(previousRateProfile))
      ensures ReportsUndo(report, after, undo, old(restoreRateOnRollback), old(previousRateProfile))
      ensures Valid() && CurrentPhase().Idle?
    {
      hide *;
      after, undo := UndoStart(profile, report, attempt, newProfile);
      ClearRunState();
    }

    // -------------------------------------------------------------------- start

    /** Applies the run's rate profile, remembering the one before it. */
    method ConfigureRate(c: Configuration, report: Report, ghost attempt: Log)
      returns (ok: bool, after: Report, ghost calls: Log)
      requires !restoreRateOnRollback && Mirrors(report, attempt) && QuestionsOnly(attempt)
      modifies env, this`previousRateProfile, this`restoreRateOnRollback
      ensures env.log == old(env.log) + calls && Mirrors(after, attempt + calls) && SameFlags(report, after)
      ensures restoreRateOnRollback == DidWell(attempt + calls, RateScheduler, Configure(c.rateProfile))
      ensures restoreRateOnRollback ==> RateScheduler in env.present
      ensures ok == (RateScheduler in env.present ==> restoreRateOnRollback)
      ensures Remembered(calls, previousRateProfile)
      ensures CarriesOut(calls, RatePlan(c, env.present), ok) && Untouched(report, after)
      ensures after.rateConfigured == if RateScheduler in env.present then ok else report.rateConfigured
    {
      hide Mirrors, Flag, DidWell, RateConfigured, QuestionsOnly, Untouched;
      ok, after, calls := true, report, [];
      NothingTouched(report, true);
      assert attempt + calls == attempt;
      NoRateYet(attempt, c.rateProfile);
      if RateScheduler in env.present {
        var selected := env.Ask(RateScheduler, Selected);
        previousRateProfile := if selected.ok then selected.profile else DEFAULT_RATE_PROFILE;
        var configured := env.Ask(RateScheduler, Configure(c.rateProfile));
        calls := [Done(RateScheduler, Selected, selected), Done(RateScheduler, Configure(c.rateProfile), configured)];
        assert env.log == old(env.log) + calls;
        ok := configured.ok;
        restoreRateOnRollback := configured.ok;
        after := RateConfigured(report, configured.ok);
        NothingTouched(report, configured.ok);
        RateIsMirrored(report, attempt, calls[0], calls[1]);
        SameFlagsMirror(report, after, attempt + calls);
      }
    }

    /** Starts one packer and records whether it started. */
    method StartPacker(on: Component, report: Report, ghost attempt: Log)
      returns (ok: bool, after: Report, ghost called: Done)
      requires IsPacker(on) && on in env.present && !Flag(report, on) && Mirrors(report, attempt)
      modifies env
      ensures env.log == old(env.log) + [called] && called.on == on && called.op == Start
      ensures ok == called.answer.ok && after == WithFlag(report, on, ok) && Mirrors(after, attempt + [called])
      ensures OnlyFlags(report, after)
    {
      FlagTouchesNothingElse(report, on, true);
      FlagTouchesNothingElse(report, on, false);
      var answer := env.Ask(on, Start);
      called := Done(on, Start, answer);
      ok, after := answer.ok, WithFlag(report, on, answer.ok);
      FlagIsMirrored(report, attempt, called);
    }

    /** Prepares one capture, or starts it where it has its own clock, and records whether it is up. */
    method BringUp(on: Component, op: Operation, report: Report, ghost attempt: Log)
      returns (ok: bool, after: Report, ghost called: Done)
      requires IsCapture(on) && (op == Prepare || op == Start)
      requires on in env.present && !Flag(report, on) && Mirrors(report, attempt)
      modifies env
      ensures env.log == old(env.log) + [called] && called.on == on && called.op == op
      ensures ok == called.answer.ok && after == WithFlag(report, on, ok) && Mirrors(after, attempt + [called])
      ensures OnlyFlags(report, after)
    {
      FlagTouchesNothingElse(report, on, true);
      FlagTouchesNothingElse(report, on, false);
      var answer := env.Ask(on, op);
      called := Done(on, op, answer);
      ok, after := answer.ok, WithFlag(report, on, answer.ok);
      FlagIsMirrored(report, attempt, called);
    }

    method StartPackers(c: Configuration, report: Report, ghost attempt: Log)
      returns (ok: bool, after: Report, ghost calls: Log)
      requires Mirrors(report, attempt) && (forall on :: !Flag(report, on))
      requires IncludesAdc(ProfileFor(c)) ==> HasAdc(env.present)
      requires IncludesGpio(ProfileFor(c)) ==> HasGpio(env.present, c.auxInput)
      modifies env
      ensures env.log == old(env.log) + calls && Mirrors(after, attempt + calls)
      ensures forall d :: d in calls ==> IsPacker(d.on)
      ensures forall on :: Flag(after, on) ==> IsPacker(on) && Includes(c, on)
      ensures ok <==> forall on :: IsPacker(on) && Includes(c, on) ==> Flag(after, on)
      ensures CarriesOut(calls, PackerPlan(c), ok)
      ensures OnlyFlags(report, after)
    {
      hide Mirrors, WithFlag, Flag, ProfileFor, CarriesOut, OnlyFlags;
      ok, after, calls := true, report, [];
      ghost var once := report;
      NothingTouched(report, true);
      assert attempt + calls == attempt;
      ghost var first: seq<Step> := [];
      NothingToCarryOut();
      if IncludesAdc(ProfileFor(c)) {
        ghost var called;
        ok, after, called := StartPacker(AdcPacker, after, attempt);
        calls, first := [called], [Step(AdcPacker, Start)];
        OneStepCarriedOut(called);
        once := after;
      }
      if ok && IncludesGpio(ProfileFor(c)) {
        ghost var called;
        ok, after, called := StartPacker(PackerFor(c.auxInput), after, attempt + calls);
        JoinLogs(attempt, calls, [called]);
        JoinLogs(old(env.log), calls, [called]);
        OneStepCarriedOut(called);
        OnlyFlagsTwice(report, once, after);
        CarriedOn(calls, first, [called], [Step(called.on, called.op)], ok);
        calls := calls + [called];
      } else if !ok {
        StoppedShort(calls, first, PackerPlan(c)[|first|..]);
      }
      assert first + PackerPlan(c)[|first|..] == PackerPlan(c);
      assert !IncludesGpio(ProfileFor(c)) ==> PackerPlan(c) == first;
    }

    method BringUpCaptures(c: Configuration, report: Report, ghost attempt: Log)
      returns (ok: bool, after: Report, ghost calls: Log)
      requires Mirrors(report, attempt) && (forall on :: IsCapture(on) ==> !Flag(report, on))
      requires IncludesAdc(ProfileFor(c)) ==> HasAdc(env.present)
      requires IncludesGpio(ProfileFor(c)) ==> HasGpio(env.present, c.auxInput)
      modifies env
      ensures env.log == old(env.log) + calls && Mirrors(after, attempt + calls)
      ensures forall d :: d in calls ==> IsCapture(d.on)
      ensures forall on :: !IsCapture(on) ==> Flag(after, on) == Flag(report, on)
      ensures forall on :: IsCapture(on) && Flag(after, on) ==> Includes(c, on)
      ensures ok <==> forall on :: IsCapture(on) && Includes(c, on) ==> Flag(after, on)
      ensures CarriesOut(calls, CapturePlan(c), ok)
      ensures OnlyFlags(report, after)
    {
      hide Mirrors, WithFlag, Flag, ProfileFor, CarriesOut, OnlyFlags;
      ok, after, calls := true, report, [];
      ghost var once := report;
      NothingTouched(report, true);
      assert attempt + calls == attempt;
      ghost var first: seq<Step> := [];
      NothingToCarryOut();
      if IncludesAdc(ProfileFor(c)) {
        ghost var called;
        ok, after, called := BringUp(AdcCapture, Prepare, after, attempt);
        calls, first := [called], [Step(AdcCapture, Prepare)];
        OneStepCarriedOut(called);
        once := after;
      }
      if ok && IncludesGpio(ProfileFor(c)) {
        ghost var called;
        var op := if ProfileFor(c) == Combined then Prepare else Start;
        ok, after, called := BringUp(CaptureFor(c.auxInput), op, after, attempt + calls);
        JoinLogs(attempt, calls, [called]);
        JoinLogs(old(env.log), calls, [called]);
        OneStepCarriedOut(called);
        OnlyFlagsTwice(report, once, after);
        CarriedOn(calls, first, [called], [Step(called.on, called.op)], ok);
        calls := calls + [called];
      } else if !ok {
        StoppedShort(calls, first, CapturePlan(c)[|first|..]);
      }
      assert first + CapturePlan(c)[|first|..] == CapturePlan(c);
      assert !IncludesGpio(ProfileFor(c)) ==> CapturePlan(c) == first;
    }

    /** A start refused before it is reserved only stops packet production. */
    method RefuseStart(report: Report) returns (after: Report, ghost called: Done)
      requires Pipeline in env.present
      modifies env
      ensures env.log == old(env.log) + [called] && called.on == Pipeline && called.op == StopProduction
      ensures after == Refused(report)
    {
      var answer := env.Ask(Pipeline, StopProduction);
      called := Done(Pipeline, StopProduction, answer);
      after := Refused(report);
    }

    /** Arms the common trigger where there is one. */
    method ArmTrigger(c: Configuration, ghost report: Report, ghost attempt: Log) returns (ok: bool, ghost calls: Log)
      requires Mirrors(report, attempt)
      requires IncludesAdc(ProfileFor(c)) ==> HasAdc(env.present)
      modifies env
      ensures env.log == old(env.log) + calls && Mirrors(report, attempt + calls)
      ensures forall d :: d in calls ==> d.on == Trigger
      ensures CarriesOut(calls, TriggerPlan(c), ok)
    {
      ok, calls := true, [];
      assert attempt + calls == attempt;
      NothingToCarryOut();
      if IncludesAdc(ProfileFor(c)) {
        var armed := env.Ask(Trigger, Arm);
        calls := [Done(Trigger, Arm, armed)];
        ok := armed.ok;
        hide Mirrors;
        MirrorsKeep(report, attempt, calls[0]);
        OneStepCarriedOut(calls[0]);
      }
    }

    /** The stages of a reserved start, up to the first that fails. */
    method Attempt(c: Configuration, report: Report, ghost asked: Log)
      returns (ok: bool, after: Report, ghost calls: Log)
      requires Mirrors(report, asked) && QuestionsOnly(asked) && (forall on :: !Flag(report, on))
      requires !restoreRateOnRollback
      requires IncludesAdc(ProfileFor(c)) ==> HasAdc(env.present)
      requires IncludesGpio(ProfileFor(c)) ==> HasGpio(env.present, c.auxInput)
      modifies env, this`previousRateProfile, this`restoreRateOnRollback
      ensures env.log == old(env.log) + calls && Mirrors(after, asked + calls)
      ensures forall on :: Flag(after, on) ==> Includes(c, on)
      ensures restoreRateOnRollback == DidWell(asked + calls, RateScheduler, Configure(c.rateProfile))
      ensures restoreRateOnRollback ==> RateScheduler in env.present
      ensures Remembered(calls, previousRateProfile)
      ensures ok ==> forall on :: Includes(c, on) ==> Up(asked + calls, on)
      ensures CarriesOut(calls, StartPlan(c, env.present), ok) && Untouched(report, after)
      ensures RateScheduler in env.present ==>
                after.rateConfigured == DidWell(asked + calls, RateScheduler, Configure(c.rateProfile))
    {
      hide Mirrors, Flag, ProfileFor, DidWell, QuestionsOnly, CarriesOut, RatePlan, PackerPlan, CapturePlan,
        TriggerPlan, Untouched, OnlyFlags;
      ghost var plan := RatePlan(c, env.present);
      ok, after, calls := ConfigureRate(c, report, asked);
      ghost var reached := after;
      if ok {
        ghost var more;
        ok, after, more := StartPackers(c, after, asked + calls);
        FlagsTouchNothingElse(report, reached, after);
        RateUndisturbed(asked + calls, more, c.rateProfile);
        JoinLogs(asked, calls, more);
        JoinLogs(old(env.log), calls, more);
        CarriedOn(calls, plan, more, PackerPlan(c), ok);
        calls := calls + more;
      } else {
        StoppedShort(calls, plan, PackerPlan(c));
      }
      plan, reached := plan + PackerPlan(c), after;
      if ok {
        ghost var more;
        ok, after, more := BringUpCaptures(c, after, asked + calls);
        FlagsTouchNothingElse(report, reached, after);
        RateUndisturbed(asked + calls, more, c.rateProfile);
        JoinLogs(asked, calls, more);
        JoinLogs(old(env.log), calls, more);
        CarriedOn(calls, plan, more, CapturePlan(c), ok);
        calls := calls + more;
      } else {
        StoppedShort(calls, plan, CapturePlan(c));
      }
      plan := plan + CapturePlan(c);
      if ok {
        ghost var more;
        ok, more := ArmTrigger(c, after, asked + calls);
        RateUndisturbed(asked + calls, more, c.rateProfile);
        JoinLogs(asked, calls, more);
        JoinLogs(old(env.log), calls, more);
        CarriedOn(calls, plan, more, TriggerPlan(c), ok);
        calls := calls + more;
      } else {
        StoppedShort(calls, plan, TriggerPlan(c));
      }
      AllAreUp(c, after, asked + calls);
    }

    /** A reserved start: every stage, then the run is active, or all of it is undone. */
    method CommitStart(c: Configuration, report: Report, ghost asked: Log)
      returns (started: bool, after: Report, ghost calls: Log, ghost undo: Log, ghost previous: nat)
      requires Startable(c, runId, false, env.present) && Pipeline in env.present
      requires Mirrors(report, asked) && QuestionsOnly(asked) && (forall on :: !Flag(report, on))
      requires !restoreRateOnRollback
      requires CurrentIdentity() == Identity(c.streamMask, runId, epochTicks, c.auxInput, c.rateProfile)
      modifies this, env
      ensures Valid()
      ensures env.log == old(env.log) + calls + undo
      ensures CarriesOut(calls, StartPlan(c, env.present), started) && Mirrors(after, asked + calls)
      ensures started ==>
                && CurrentPhase().Active? && undo == [] && CurrentIdentity() == old(CurrentIdentity())
                && (forall on :: Includes(c, on) ==> Up(asked + calls, on))
                && (IncludesAdc(ProfileFor(c)) ==> Last(calls, Trigger, Arm) && calls[|calls| - 1].answer.ok)
                && Untouched(report, after)
      ensures !started ==>
                && CurrentPhase().Idle?
                && Unwound(asked + calls, undo, IncludesAdc(ProfileFor(c)), c.rateProfile, previous)
                && Remembered(calls, previous)
                && UndoneAsTold(c, report, after, asked + calls, undo, previous)
    {
      hide Mirrors, Flag, Unwound, DidWell, Up, QuestionsOnly, Remembered, StartPlan, UndoPlan, ReportsUndo, Steps,
        StillRan, UndoneAsTold, NoCaptureSent;
      started, after, calls := Attempt(c, report, asked);
      undo, previous := [], previousRateProfile;
      if started {
        startPending, runActive, drainPending := false, true, false;
        assert env.log == old(env.log) + calls + undo;
        if IncludesAdc(ProfileFor(c)) {
          ArmedLast(c, env.present, calls);
        }
      } else {
        ghost var reached := after;
        FlagsAreIncluded(c, reached);
        after, undo := RollbackStart(ProfileFor(c), after, asked + calls, c.rateProfile);
        AttemptIsUndone(c, env.present, report, reached, after, asked, calls, undo, previous);
      }
    }

    /** Starts a run, refuses it, or rolls it back: `forward` is all it called on the way to success or failure, the
        audit `asked` first, and `undo` what it called on the way back. */
    method StartRun(c: Configuration, newRunId: u32, newEpochTicks: u64, report: Report)
      returns (started: bool, after: Report, ghost asked: Log, ghost forward: Log, ghost undo: Log, ghost previous: nat)
      requires Valid() && Unstarted(report)
      modifies this, env
      ensures Valid()
      ensures env.log == old(env.log) + forward + undo
      ensures StartWent(c, newRunId, !old(CurrentPhase()).Idle?, env.present, asked, forward, started)
      ensures SendsInOrder(c, forward) && Mirrors(after, forward)
      ensures after.runId == newRunId && after.epochTicks == newEpochTicks
      ensures after.faultDetected == report.faultDetected && after.drainPending == report.drainPending
      ensures DidWell(forward, Pipeline, Matches) ==>
                && Startable(c, newRunId, !old(CurrentPhase()).Idle?, env.present)
                && (IncludesAdc(ProfileFor(c)) ==> StoodStill(forward))
      ensures started ==>
                && DidWell(forward, Pipeline, Matches) && CurrentPhase().Active? && undo == []
                && CurrentIdentity() == Identity(c.streamMask, newRunId, newEpochTicks, c.auxInput, c.rateProfile)
                && (forall on :: Includes(c, on) ==> Up(forward, on))
                && (IncludesAdc(ProfileFor(c)) ==> Last(forward, Trigger, Arm) && forward[|forward| - 1].answer.ok)
                && (ProfileFor(c) == Gpio ==> DidWell(forward, CaptureFor(c.auxInput), Start))
                && (RateScheduler in env.present ==> DidWell(forward, RateScheduler, Configure(c.rateProfile)))
                && Untouched(Begun(report, newRunId, newEpochTicks), after)
      ensures !started && DidWell(forward, Pipeline, Matches) ==>
                && CurrentPhase().Idle?
                && Unwound(forward, undo, IncludesAdc(ProfileFor(c)), c.rateProfile, previous)
                && Remembered(forward, previous)
                && UndoneAsTold(c, Begun(report, newRunId, newEpochTicks), after, forward, undo, previous)
      ensures !started && !DidWell(forward, Pipeline, Matches) ==>
                && undo == [] && Last(forward, Pipeline, StopProduction)
                && CurrentPhase() == old(CurrentPhase()) && CurrentIdentity() == old(CurrentIdentity())
                && after == Refused(Begun(report, newRunId, newEpochTicks))
    {
      hide Mirrors, Flag, Unwound, DidWell, Up, Remembered, Startable, QuestionsOnly, InspectionsOnly, Begun, Last,
        SameFlags, Includes, IncludesAdc, ProfileFor, AllFavourable, Unstarted, Equipped, Questions, StaticConflicts,
        Disappointments, Did, CarriesOut, StartPlan, StartWent, SendsInOrder, StoodStill, UndoneAsTold, Untouched,
        Refused, CaptureFor, Steps;
      undo, previous := [], DEFAULT_RATE_PROFILE;
      started, after := false, Begun(report, newRunId, newEpochTicks);
      ghost var begun := after;
      var conflicts;
      conflicts, asked := InspectStart(c, newRunId);
      forward := asked;
      InspectionsMatchNothing(asked);
      if conflicts == {} {
        var matched, called := AskPipeline();
        JoinLogs(old(env.log), asked, [called]);
        forward := asked + [called];
        MatchIsRecorded(asked, called);
        if matched {
          ghost var calls;
          StartsClean(report, after, asked, called);
          StartableIsIdle(c, newRunId, !CurrentPhase().Idle?, env.present);
          started, after, calls, undo, previous := ReserveStart(c, newRunId, newEpochTicks, after, forward);
          ReservedStart(c, newRunId, env.present, asked, called, calls, started);
          CallsAreRemembered(asked, called, calls, previous);
          LastOfJoined(forward, calls, Trigger, Arm);
          JoinLogs(old(env.log), forward, calls);
          forward := forward + calls;
          StartIsReported(c, report, newRunId, newEpochTicks, after, forward, undo, previous);
          return;
        }
      }
      ghost var refusal;
      after, refusal := RefuseStart(after);
      RefusalIsLast(forward, refusal);
      RefusedStart(c, newRunId, !CurrentPhase().Idle?, env.present, asked, forward, refusal);
      RefusalMirrors(report, begun, after, asked, forward, refusal);
      JoinLogs(old(env.log), forward, [refusal]);
      forward := forward + [refusal];
      StartIsReported(c, report, newRunId, newEpochTicks, after, forward, undo, previous);
    }

    /** Commits the identity of the run, then its start. */
    method ReserveStart(c: Configuration, newRunId: u32, newEpochTicks: u64, report: Report, ghost asked: Log)
      returns (started: bool, after: Report, ghost calls: Log, ghost undo: Log, ghost previous: nat)
      requires Valid() && CurrentPhase().Idle? && Startable(c, newRunId, false, env.present)
      requires Mirrors(report, asked) && QuestionsOnly(asked) && (forall on :: !Flag(report, on))
      modifies this, env
      ensures Valid()
      ensures env.log == old(env.log) + calls + undo
      ensures CarriesOut(calls, StartPlan(c, env.present), started) && Mirrors(after, asked + calls)
      ensures started ==>
                && CurrentPhase().Active? && undo == []
                && CurrentIdentity() == Identity(c.streamMask, newRunId, newEpochTicks, c.auxInput, c.rateProfile)
                && (forall on :: Includes(c, on) ==> Up(asked + calls, on))
                && (IncludesAdc(ProfileFor(c)) ==> Last(calls, Trigger, Arm) && calls[|calls| - 1].answer.ok)
                && Untouched(report, after)
      ensures !started ==>
                && CurrentPhase().Idle?
                && Unwound(asked + calls, undo, IncludesAdc(ProfileFor(c)), c.rateProfile, previous)
                && Remembered(calls, previous)
                && UndoneAsTold(c, report, after, asked + calls, undo, previous)
    {
      hide Mirrors, Flag, Unwound, Up, Remembered, QuestionsOnly, Last, Includes, CarriesOut, StartPlan, UndoneAsTold,
        Untouched, Startable, ProfileFor, IncludesAdc;
      streamMask, runId, epochTicks, auxInput := c.streamMask, newRunId, newEpochTicks, c.auxInput;
      rateProfile, startPending := c.rateProfile, true;
      started, after, calls, undo, previous := CommitStart(c, report, asked);
    }

    method AskPipeline() returns (ok: bool, ghost called: Done)
      requires Pipeline in env.present
      modifies env
      ensures env.log == old(env.log) + [called]
      ensures called.on == Pipeline && called.op == Matches && called.answer.ok == ok
    {
      var answer := env.Ask(Pipeline, Matches);
      ok, called := answer.ok, Done(Pipeline, Matches, answer);
    }

    // --------------------------------------------------------------------- stop

    /** Stops one capture after its triggers, or on its own, and says whether that went wrong. */
    method StopCapture(on: Component, op: Operation) returns (wrong: bool, ghost called: Done)
      requires IsCapture(on) && on in env.present && (op.Stop? || op.StopAfterTriggers?)
      modifies env
      ensures env.log == old(env.log) + [called] && called.on == on && called.op == op
      ensures wrong == !called.answer.ok
    {
      var answer := env.Ask(on, op);
      wrong, called := !answer.ok, Done(on, op, answer);
    }

    method StopAdcPath() returns (stopped: bool, wrong: bool, ghost calls: Log)
      requires HasAdc(env.present)
      modifies env
      ensures env.log == old(env.log) + calls
      ensures StopsInOrder(calls, ADC_STREAM, auxInput, stopped) && wrong == SomeRefused(calls)
    {
      hide StopsInOrder, SomeRefused;
      var boundary := env.Ask(AdcCapture, StopAtBoundary);
      var trigger := env.Ask(Trigger, Stop);
      ghost var first, second := Done(AdcCapture, StopAtBoundary, boundary), Done(Trigger, Stop, trigger);
      calls := [first, second];
      assert env.log == old(env.log) + calls;
      if !trigger.ok {
        AdcStopRefused(first, second, auxInput);
        return false, true, calls;
      }
      ghost var called;
      wrong, called := StopCapture(AdcCapture, StopAfterTriggers);
      wrong := wrong || !boundary.ok;
      JoinLogs(old(env.log), calls, [called]);
      AdcStopTold(first, second, called, auxInput);
      stopped, calls := true, calls + [called];
    }

    method StopCombinedPaths() returns (stopped: bool, wrong: bool, ghost calls: Log)
      requires HasAdc(env.present) && HasGpio(env.present, auxInput)
      modifies env
      ensures env.log == old(env.log) + calls
      ensures StopsInOrder(calls, BOTH_STREAMS, auxInput, stopped) && wrong == SomeRefused(calls)
    {
      hide StopsInOrder, SomeRefused;
      var trigger := env.Ask(Trigger, Stop);
      ghost var first := Done(Trigger, Stop, trigger);
      calls := [first];
      if !trigger.ok {
        CombinedStopRefused(first, auxInput);
        return false, true, calls;
      }
      ghost var gpio, adc;
      var adcWrong;
      wrong, gpio := StopCapture(CaptureFor(auxInput), StopAfterTriggers);
      adcWrong, adc := StopCapture(AdcCapture, StopAfterTriggers);
      stopped, wrong, calls := true, wrong || adcWrong, [first] + [gpio] + [adc];
      CombinedStopTold(first, gpio, adc, auxInput);
      JoinLogs(old(env.log), [first], [gpio]);
      JoinLogs(old(env.log), [first] + [gpio], [adc]);
    }

    /** Stops the paths of the run. */
    method StopPaths() returns (stopped: bool, wrong: bool, ghost calls: Log)
      requires streamMask in {ADC_STREAM, GPIO_STREAM, BOTH_STREAMS} && Equipped(env.present, streamMask, auxInput)
      modifies env
      ensures env.log == old(env.log) + calls
      ensures StopsInOrder(calls, streamMask, auxInput, stopped) && wrong == SomeRefused(calls)
    {
      hide StopsInOrder, SomeRefused;
      if streamMask == BOTH_STREAMS {
        stopped, wrong, calls := StopCombinedPaths();
      } else if streamMask == ADC_STREAM {
        stopped, wrong, calls := StopAdcPath();
      } else {
        ghost var called;
        wrong, called := StopCapture(CaptureFor(auxInput), Stop);
        stopped, calls := true, [called];
        LoneStopTold(called, auxInput);
      }
    }

    /** Stops an active run; a trigger that will not stop leaves it active with the stop pending. */
    method StopRun(report: Report) returns (stopped: bool, after: Report, ghost calls: Log)
      requires Valid()
      modifies this`runActive, this`drainPending, env
      ensures Valid() && CurrentIdentity() == old(CurrentIdentity())
      ensures env.log == old(env.log) + calls
      ensures !old(runActive) ==>
                && stopped && calls == [] && CurrentPhase() == old(CurrentPhase())
                && after == Stopping(report, runId, epochTicks, drainPending, false)
      ensures old(runActive) ==>
                && StopsInOrder(calls, streamMask, auxInput, stopped)
                && CurrentPhase() == (if stopped then Draining else StopPending)
                && after == Stopping(report, runId, epochTicks, true, SomeRefused(calls))
      ensures after == report.(runId := runId, epochTicks := epochTicks, drainPending := drainPending,
                               internalError := report.internalError || SomeRefused(calls))
    {
      NoneRefused();
      hide StopsInOrder, SomeRefused, Equipped;
      stopped, calls := true, [];
      if !runActive {
        after := Stopping(report, runId, epochTicks, drainPending, false);
        return;
      }
      var wrong;
      stopped, wrong, calls := StopPaths();
      drainPending := true;
      if stopped {
        runActive := false;
      }
      after := Stopping(report, runId, epochTicks, true, wrong);
    }

    // ------------------------------------------------------------------ service

    method PathFaulted(capture: Component) returns (faulted: bool, ghost called: Done)
      requires capture in env.present
      modifies env
      ensures env.log == old(env.log) + [called] && called.on == capture && called.op == Snapshot
      ensures faulted == called.answer.faulted
    {
      var answer := env.Ask(capture, Snapshot);
      faulted, called := answer.faulted, Done(capture, Snapshot, answer);
    }

    method ActivePathFaulted() returns (faulted: bool, ghost calls: Log)
      requires Equipped(env.present, streamMask, auxInput)
      modifies env
      ensures env.log == old(env.log) + calls
      ensures ChecksFit(calls, streamMask, auxInput) && faulted == FaultAnswered(calls)
    {
      faulted, calls := false, [];
      ghost var adc, gpio: Log := [], [];
      ghost var called;
      if MaskHasAdc(streamMask) {
        faulted, called := PathFaulted(AdcCapture);
        adc := [called];
      }
      if !faulted && MaskHasGpio(streamMask) {
        faulted, called := PathFaulted(CaptureFor(auxInput));
        gpio := [called];
      }
      calls := adc + gpio;
      ChecksTogether(adc, gpio, streamMask, auxInput);
      JoinLogs(old(env.log), adc, gpio);
    }

    /** Moves one path on: ownership first where the capture keeps it, then the packer. */
    method ServicePath(capture: Component, packer: Component, owns: bool) returns (wrong: bool, ghost calls: Log)
      requires IsCapture(capture) && IsPacker(packer) && capture in env.present && packer in env.present
      modifies env
      ensures env.log == old(env.log) + calls
      ensures Steps(calls) == ServePathPlan(capture, packer, owns, drainPending) && wrong == ErrorAnswered(calls)
    {
      calls := [];
      if owns {
        var owned := env.Ask(capture, ServiceOwnership);
        calls := [Done(capture, ServiceOwnership, owned)];
      }
      var serviced := env.Ask(packer, Service(drainPending));
      wrong := serviced.serviceError;
      ghost var last := Done(packer, Service(drainPending), serviced);
      JoinLogs(old(env.log), calls, [last]);
      ErrorsJoin(calls, [last]);
      assert last in [last];
      calls := calls + [last];
    }

    method ServicePaths() returns (wrong: bool, ghost calls: Log)
      requires Equipped(env.present, streamMask, auxInput)
      modifies env
      ensures env.log == old(env.log) + calls
      ensures Steps(calls) == ServePlan(streamMask, auxInput, drainPending) && wrong == ErrorAnswered(calls)
    {
      hide ErrorAnswered, Steps;
      wrong, calls := false, [];
      NothingAnswered();
      var gpioWrong := false;
      ghost var more: Log := [];
      if MaskHasAdc(streamMask) {
        wrong, calls := ServicePath(AdcCapture, AdcPacker, true);
      }
      if MaskHasGpio(streamMask) {
        gpioWrong, more := ServicePath(CaptureFor(auxInput), PackerFor(auxInput), auxInput);
      }
      JoinLogs(old(env.log), calls, more);
      ErrorsJoin(calls, more);
      StepsJoin(calls, more);
      wrong, calls := wrong || gpioWrong, calls + more;
    }

    /** Tells a packer to stop once its capture holds nothing more, and to flush what it still has. */
    method SettlePacker(packer: Component, emptied: bool, flushes: bool, packed: Answer)
      returns (latest: Answer, ghost calls: Log)
      requires packer in env.present
      modifies env
      ensures env.log == old(env.log) + calls && Settles(calls, packer, emptied, flushes, packed)
      ensures latest == LatestOf(calls, packed)
    {
      latest := packed;
      ghost var stops, flush: Log := [], [];
      if emptied && latest.running {
        var told := env.Ask(packer, StopProduction);
        latest := env.Ask(packer, Snapshot);
        stops := [Done(packer, StopProduction, told), Done(packer, Snapshot, latest)];
        assert env.log == old(env.log) + stops;
      }
      ghost var stopped := latest;
      if flushes && !latest.running && !latest.quiescent {
        var flushed := env.Ask(packer, Flush);
        latest := env.Ask(packer, Snapshot);
        flush := [Done(packer, Flush, flushed), Done(packer, Snapshot, latest)];
      }
      calls := stops + flush;
      SettledTogether(stops, flush, packer, emptied, flushes, packed, stopped, latest);
      assert env.log == old(env.log) + calls;
    }

    /** Whether a stopping path has drained; a packer whose capture holds nothing more is told to stop. */
    method PathDrained(capture: Component, packer: Component, owns: bool, flushes: bool)
      returns (drained: bool, ghost calls: Log)
      requires IsCapture(capture) && IsPacker(packer) && capture in env.present && packer in env.present
      modifies env
      ensures env.log == old(env.log) + calls && PathDrains(calls, capture, packer, owns, flushes)
      ensures drained <==> LatestQuiescent(calls, capture) && LatestQuiescent(calls, packer)
    {
      hide Settles, LatestQuiescent, LatestOf;
      ghost var sampled: Log := [];
      if owns {
        var owned := env.Ask(capture, ServiceOwnership);
        sampled := [Done(capture, ServiceOwnership, owned)];
      }
      var held := env.Ask(capture, Snapshot);
      var packed := env.Ask(packer, Snapshot);
      ghost var both := [Done(capture, Snapshot, held), Done(packer, Snapshot, packed)];
      assert env.log == old(env.log) + (sampled + both);
      ghost var settled;
      var latest;
      latest, settled := SettlePacker(packer, held.emptied, flushes, packed);
      drained := held.quiescent && latest.quiescent;
      JoinLogs(old(env.log), sampled + both, settled);
      DrainedTogether(sampled, both, settled, capture, packer, owns, flushes);
      calls := sampled + both + settled;
    }

    /** Whether every path of the run has drained. */
    method PathsDrained() returns (drained: bool, ghost adc: Log, ghost gpio: Log)
      requires Equipped(env.present, streamMask, auxInput)
      modifies env
      ensures env.log == old(env.log) + (adc + gpio)
      ensures if MaskHasAdc(streamMask) then PathDrains(adc, AdcCapture, AdcPacker, false, false) else adc == []
      ensures if MaskHasGpio(streamMask) then
                PathDrains(gpio, CaptureFor(auxInput), PackerFor(auxInput), auxInput, !auxInput)
              else gpio == []
      ensures drained <==> RunQuiescent(adc + gpio, streamMask, auxInput)
    {
      hide LatestQuiescent, PathDrains;
      adc, gpio := [], [];
      var adcDrained, gpioDrained := true, true;
      if MaskHasAdc(streamMask) {
        adcDrained, adc := PathDrained(AdcCapture, AdcPacker, false, false);
      }
      if MaskHasGpio(streamMask) {
        gpioDrained, gpio := PathDrained(CaptureFor(auxInput), PackerFor(auxInput), auxInput, !auxInput);
      }
      JoinLogs(old(env.log), adc, gpio);
      DrainsTogether(adc, gpio, streamMask, auxInput);
      drained := adcDrained && gpioDrained;
    }

    /** Samples the captures of an active run, and stops it if one has faulted or a stop is pending. */
    method CheckRun(report: Report) returns (stuck: bool, after: Report, ghost checks: Log, ghost stops: Log)
      requires Valid() && runActive
      modifies this`runActive, this`drainPending, env
      ensures Valid() && CurrentIdentity() == old(CurrentIdentity())
      ensures env.log == old(env.log) + checks + stops
      ensures ChecksFit(checks, streamMask, auxInput)
      ensures StopsIf(old(drainPending) || FaultAnswered(checks), stops, streamMask, auxInput)
      ensures CurrentPhase() == AfterCheck(old(CurrentPhase()), checks, stops, streamMask)
      ensures stuck <==> CurrentPhase().StopPending?
      ensures after == if !(old(drainPending) || FaultAnswered(checks)) then report
                       else Stopping(if FaultAnswered(checks) then Faulted(report) else report, runId, epochTicks, true,
                                     SomeRefused(stops))
    {
      hide ChecksFit, FaultAnswered, StopsInOrder, SomeRefused, Stopping, Faulted;
      stuck, after, stops := false, report, [];
      var faulted;
      faulted, checks := ActivePathFaulted();
      if faulted || drainPending {
        var stopped;
        stopped, after, stops := StopRun(if faulted then Faulted(report) else report);
        stuck := !stopped;
        StopIsConfirmed(stops, streamMask, auxInput, stopped);
      }
    }

    /** Moves every path on, and stops a run that fails in doing so. */
    method ServeRun(report: Report) returns (stuck: bool, after: Report, ghost served: Log, ghost stops: Log)
      requires Valid() && (CurrentPhase().Active? || CurrentPhase().Draining?)
      modifies this`runActive, this`drainPending, env
      ensures Valid() && CurrentIdentity() == old(CurrentIdentity())
      ensures env.log == old(env.log) + served + stops
      ensures Steps(served) == ServePlan(streamMask, auxInput, old(drainPending))
      ensures StopsIf(old(runActive) && ErrorAnswered(served), stops, streamMask, auxInput)
      ensures CurrentPhase() == AfterServing(old(CurrentPhase()), served, stops, streamMask)
      ensures stuck <==> CurrentPhase().StopPending?
      ensures after == if old(runActive) && ErrorAnswered(served) then
                         Stopping(Faulted(report), runId, epochTicks, true, SomeRefused(stops))
                       else report
    {
      hide ErrorAnswered, ServePlan, Steps, StopsInOrder, SomeRefused, Stopping, Faulted;
      stuck, after, stops := false, report, [];
      var wrong;
      wrong, served := ServicePaths();
      if runActive && wrong {
        var stopped;
        stopped, after, stops := StopRun(Faulted(report));
        stuck := !stopped;
        StopIsConfirmed(stops, streamMask, auxInput, stopped);
      }
    }

    /** Gives the run up once everything has drained. */
    method FinishDraining(report: Report) returns (after: Report, ghost adc: Log, ghost gpio: Log, ghost last: Log)
      requires Valid() && CurrentPhase().Draining?
      modifies this, env
      ensures Valid()
      ensures env.log == old(env.log) + (adc + gpio) + last
      ensures if MaskHasAdc(old(streamMask)) then PathDrains(adc, AdcCapture, AdcPacker, false, false) else adc == []
      ensures if MaskHasGpio(old(streamMask)) then
                PathDrains(gpio, CaptureFor(old(auxInput)), PackerFor(old(auxInput)), old(auxInput), !old(auxInput))
              else gpio == []
      ensures var drained := RunQuiescent(adc + gpio, old(streamMask), old(auxInput));
              && CurrentPhase() == (if drained then Idle else Draining)
              && (!drained ==> CurrentIdentity() == old(CurrentIdentity()))
              && Steps(last) == if drained then [Step(Pipeline, StopProduction)] else []
      ensures after == report.(drainPending := drainPending)
    {
      hide PathDrains, RunQuiescent;
      var drained;
      drained, adc, gpio := PathsDrained();
      last := [];
      if drained {
        var production := env.Ask(Pipeline, StopProduction);
        last := [Done(Pipeline, StopProduction, production)];
        ClearRunState();
      }
      after := report.(drainPending := drainPending);
    }

    /** Drains a run that is no longer active. */
    method DrainIfStopped(report: Report) returns (after: Report, ghost adc: Log, ghost gpio: Log, ghost last: Log)
      requires Valid() && !CurrentPhase().Idle?
      modifies this, env
      ensures Valid()
      ensures env.log == old(env.log) + (adc + gpio) + last
      ensures if old(CurrentPhase()).Draining? && MaskHasAdc(old(streamMask)) then
                PathDrains(adc, AdcCapture, AdcPacker, false, false)
              else adc == []
      ensures if old(CurrentPhase()).Draining? && MaskHasGpio(old(streamMask)) then
                PathDrains(gpio, CaptureFor(old(auxInput)), PackerFor(old(auxInput)), old(auxInput), !old(auxInput))
              else gpio == []
      ensures var drained := old(CurrentPhase()).Draining? && RunQuiescent(adc + gpio, old(streamMask), old(auxInput));
              && CurrentPhase() == (if drained then Idle else old(CurrentPhase()))
              && (!drained ==> CurrentIdentity() == old(CurrentIdentity()))
              && Steps(last) == if drained then [Step(Pipeline, StopProduction)] else []
      ensures after == report.(drainPending := drainPending)
    {
      hide PathDrains, RunQuiescent, MaskHasAdc, MaskHasGpio, Steps;
      NoRoundAnswers();
      adc, gpio, last := [], [], [];
      if drainPending && !runActive {
        after, adc, gpio, last := FinishDraining(report);
      } else {
        after := report.(drainPending := drainPending);
      }
    }

    /** Checks a run that is still active. */
    method CheckIfActive(report: Report) returns (stuck: bool, after: Report, ghost round: Round)
      requires Valid() && !CurrentPhase().Idle? && report.runId == runId && report.epochTicks == epochTicks
      modifies this`runActive, this`drainPending, env
      ensures Valid() && CurrentIdentity() == old(CurrentIdentity())
      ensures env.log == old(env.log) + Calls(round) && round == NO_ROUND.(checks := round.checks, stops := round.stops)
      ensures CheckedFits(round, streamMask, auxInput, old(CurrentPhase()), CurrentPhase())
      ensures CheckedReport(report, after, round, old(CurrentPhase()))
      ensures !CurrentPhase().Idle? && (stuck <==> CurrentPhase().StopPending?)
    {
      hide Calls, StopsIf, ChecksFit, SomeRefused, FaultAnswered, Equipped, Stopping, Faulted, AfterCheck, CheckedFits,
        CheckedReport, MaskHasAdc, MaskHasGpio;
      stuck, after, round := false, report, NO_ROUND;
      if runActive {
        ghost var checks, stops;
        stuck, after, checks, stops := CheckRun(report);
        round := round.(checks := checks, stops := stops);
        ChecksCalled(old(env.log), round);
        RunIsChecked(round, streamMask, auxInput, old(CurrentPhase()), CurrentPhase(), report, after);
      } else {
        NothingCalled(env.log);
        NothingChecked(streamMask, auxInput, CurrentPhase(), report);
      }
    }

    /** The rest of a round, once the captures have been checked. */
    method ServeAndDrain(report: Report, ghost start: Report, ghost before: Phase, ghost base: Log,
                         ghost checked: Round)
      returns (after: Report, ghost round: Round)
      requires Valid() && (CurrentPhase().Active? || CurrentPhase().Draining?) && env.log == base + Calls(checked)
      requires checked == NO_ROUND.(checks := checked.checks, stops := checked.stops)
      requires CheckedFits(checked, streamMask, auxInput, before, CurrentPhase())
      requires CheckedReport(start.(runId := runId, epochTicks := epochTicks, drainPending := false), report, checked,
                             before)
      modifies this, env
      ensures Valid()
      ensures env.log == base + Calls(round)
      ensures RoundFits(round, old(streamMask), old(auxInput), before, CurrentPhase())
      ensures ReportsRound(start, after, round, before, old(runId), old(epochTicks))
      ensures after.drainPending == drainPending
      ensures CurrentPhase().Idle? || CurrentIdentity() == old(CurrentIdentity())
    {
      hide Calls, StopsIf, ServePlan, PathDrains, ChecksFit, SomeRefused, FaultAnswered, ErrorAnswered, RunQuiescent,
        Steps, StopConfirmed, Equipped, RoundFits, ReportsRound, Stopping, Faulted, AfterCheck, AfterServing,
        CheckedFits, CheckedReport, MaskHasAdc, MaskHasGpio;
      ghost var phase := CurrentPhase();
      var stuck;
      ghost var served, stops;
      stuck, after, served, stops := ServeRun(report);
      round := checked.(served := served, stopsAfter := stops);
      ServingCalled(base, checked, round);
      ghost var reached, second := CurrentPhase(), after;
      ghost var adc, gpio, last;
      after, adc, gpio, last := DrainIfStopped(after);
      DrainingCalled(base, round, round.(adcDrain := adc, gpioDrain := gpio, last := last));
      round := round.(adcDrain := adc, gpioDrain := gpio, last := last);
      RoundEnds(start, report, second, after, checked, round, before, phase, reached, CurrentPhase(), old(streamMask),
                old(auxInput), old(runId), old(epochTicks));
    }

    /** A round of service over a run. */
    method RunRound(report: Report) returns (after: Report, ghost round: Round)
      requires Valid() && !CurrentPhase().Idle?
      modifies this, env
      ensures Valid()
      ensures env.log == old(env.log) + Calls(round)
      ensures RoundFits(round, old(streamMask), old(auxInput), old(CurrentPhase()), CurrentPhase())
      ensures ReportsRound(report, after, round, old(CurrentPhase()), old(runId), old(epochTicks))
      ensures after.drainPending == drainPending
      ensures CurrentPhase().Idle? || CurrentIdentity() == old(CurrentIdentity())
    {
      hide Calls, Equipped, RoundFits, ReportsRound, CheckedFits, CheckedReport, MaskHasAdc, MaskHasGpio;
      var stuck;
      stuck, after, round := CheckIfActive(report.(runId := runId, epochTicks := epochTicks, drainPending := false));
      if stuck {
        StuckRound(report, after, round, streamMask, auxInput, old(CurrentPhase()), runId, epochTicks);
        after := after.(drainPending := true);
      } else {
        after, round := ServeAndDrain(after, report, old(CurrentPhase()), old(env.log), round);
      }
    }

    /** One round of service: a fault or a pending stop stops the run, the paths move on, and a run that has drained
        is given up. */
    method ServiceRun(report: Report) returns (after: Report, ghost round: Round)
      requires Valid()
      modifies this, env
      ensures Valid()
      ensures env.log == old(env.log) + Calls(round) && TriggerFirst(Calls(round))
      ensures if old(CurrentPhase()).Idle? then round == NO_ROUND
              else RoundFits(round, old(streamMask), old(auxInput), old(CurrentPhase()), CurrentPhase())
      ensures ReportsRound(report, after, round, old(CurrentPhase()), old(runId), old(epochTicks))
      ensures after.drainPending == drainPending
      ensures Advances(old(CurrentPhase()), CurrentPhase())
      ensures CurrentPhase().Idle? || CurrentIdentity() == old(CurrentIdentity())
      ensures old(CurrentPhase()).Active? && CurrentPhase().Active? ==>
                && (forall on :: IsCapture(on) && Needed(streamMask, auxInput, on) ==> Sampled(Calls(round), on))
                && !FaultAnswered(Calls(round)) && !ErrorAnswered(Calls(round))
      ensures old(CurrentPhase()).Active? && !CurrentPhase().Active? ==>
                && (FaultAnswered(Calls(round)) || ErrorAnswered(Calls(round)))
                && after.faultDetected && after.internalError
      ensures !old(CurrentPhase()).Idle? && CurrentPhase().Idle? ==>
                && RunQuiescent(Calls(round), old(streamMask), old(auxInput))
                && Last(Calls(round), Pipeline, StopProduction)
      ensures CurrentPhase().Draining? ==> !RunQuiescent(Calls(round), streamMask, auxInput)
    {
      hide Calls, RoundFits, ReportsRound, TriggerFirst, FaultAnswered, ErrorAnswered, RunQuiescent, Needed, Sampled,
        Last, FaultFound, FailedServing;
      if CurrentPhase().Idle? {
        after, round := report.(runId := runId, epochTicks := epochTicks, drainPending := false), NO_ROUND;
        NothingCalled(env.log);
        IdleReport(report);
      } else {
        ghost var mask, aux, before := streamMask, auxInput, CurrentPhase();
        after, round := RunRound(report);
        RoundStopsInOrder(round, mask, aux, before, CurrentPhase());
        RoundQuiesces(round, mask, aux, before, CurrentPhase());
        if before.Active? {
          RoundFindsFaults(round, mask, aux, CurrentPhase());
          FaultsAreReported(report, after, round, before, old(runId), old(epochTicks));
        }
      }
    }

    ghost function Now(): Moment
      reads this
    {
      Moment(CurrentPhase(), CurrentIdentity())
    }

    /** Any sequence of calls, each with a fresh report, whatever the components answer. */
    method Perform(commands: seq<Command>) returns (ghost trace: seq<Moment>)
      requires Valid()
      modifies this, env
      ensures Valid()
      ensures |trace| == |commands| + 1 && trace[0] == old(Now()) && trace[|commands|] == Now()
      ensures forall k :: 0 <= k < |commands| ==> Follows(trace[k], trace[k + 1])
    {
      trace := [Now()];
      for n := 0 to |commands|
        invariant Valid()
        invariant |trace| == n + 1 && trace[0] == old(Now()) && trace[n] == Now()
        invariant forall k :: 0 <= k < n ==> Follows(trace[k], trace[k + 1])
      {
        Obey(commands[n]);
        trace := trace + [Now()];
      }
    }

    method Obey(command: Command)
      requires Valid()
      modifies this, env
      ensures Valid() && Follows(old(Now()), Now())
    {
      hide Unwound, Up, Remembered, Last, DidWell, TriggerFirst, RunQuiescent, CaptureStopped, FreshReport;
      match command {
        case StartCommand(c, newRunId, newEpochTicks) =>
          var started, after, asked, forward, undo, previous := StartRun(c, newRunId, newEpochTicks, FreshReport());
        case StopCommand =>
          var stopped, after, calls := StopRun(FreshReport());
        case ServiceCommand =>
          var after, round := ServiceRun(FreshReport());
      }
    }
  }
}
