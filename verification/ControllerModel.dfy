/** What the acquisition controller calls and records: components, logs, configurations, inspections, reports. */
module ControllerModel {
  import opened FixedWidth

  const ADC_STREAM: u8 := 1
  const GPIO_STREAM: u8 := 2
  const BOTH_STREAMS: u8 := 3
  const DEFAULT_RATE_PROFILE: nat := 0

  // --------------------------------------- components and the calls made to them

  datatype Component =
    | RateScheduler
    | Trigger
    | AdcCapture
    | AdcPacker
    | GpioCapture
    | GpioPacker
    | AuxCapture
    | AuxPacker
    | Pipeline

  datatype Operation =
    | Usable
    | Ready
    | Running
    | Inspect
    | Matches
    | Selected
    | Configure(profile: nat)
    | Start
    | Prepare
    | Arm
    | Stop
    | StopAtBoundary
    | StopAfterTriggers
    | StopProduction
    | ServiceOwnership
    | Service(draining: bool)
    | Flush
    | Snapshot

  /** Whatever a component may answer; each operation reads the parts that concern it. */
  datatype Answer = Answer(
    ok: bool, running: bool, emptied: bool, quiescent: bool, faulted: bool, serviceError: bool, profile: nat)

  /** One call made to a component, with its answer. */
  datatype Done = Done(on: Component, op: Operation, answer: Answer)

  type Log = seq<Done>

  /** The components present, answering the n-th call ever made however `oracle` says. */
  class Components {
    const present: set<Component>
    const oracle: nat -> Answer
    var log: Log

    constructor (present: set<Component>, oracle: nat -> Answer)
      ensures log == [] && this.present == present && this.oracle == oracle
    {
      this.present, this.oracle, log := present, oracle, [];
    }

    /** Calls a component, which must be there. */
    method Ask(on: Component, op: Operation) returns (answer: Answer)
      requires on in present
      modifies this
      ensures answer == oracle(|old(log)|)
      ensures log == old(log) + [Done(on, op, answer)]
    {
      answer := oracle(|log|);
      log := log + [Done(on, op, answer)];
    }
  }

  /** A call to be made. */
  datatype Step = Step(on: Component, op: Operation)

  /** The calls of a log without their answers. */
  function Steps(log: Log): (steps: seq<Step>)
    ensures |steps| == |log|
    ensures forall k :: 0 <= k < |log| ==> steps[k] == Step(log[k].on, log[k].op)
  {
    seq(|log|, k requires 0 <= k < |log| => Step(log[k].on, log[k].op))
  }

  lemma StepsJoin(a: Log, b: Log)
    ensures Steps(a + b) == Steps(a) + Steps(b)
  {
  }

  predicate Did(log: Log, on: Component, op: Operation) {
    exists d :: d in log && d.on == on && d.op == op
  }

  predicate DidWell(log: Log, on: Component, op: Operation) {
    exists d :: d in log && d.on == on && d.op == op && d.answer.ok
  }

  predicate Last(log: Log, on: Component, op: Operation) {
    log != [] && log[|log| - 1].on == on && log[|log| - 1].op == op
  }

  lemma JoinLogs(a: Log, b: Log, c: Log)
    ensures a + b + c == a + (b + c)
  {
  }

  lemma LastOfJoined(a: Log, b: Log, on: Component, op: Operation)
    ensures Last(b, on, op) ==> Last(a + b, on, op) && (a + b)[|a + b| - 1] == b[|b| - 1]
  {
  }

  // -------------------------------------------------------------- configurations

  datatype Configuration = Configuration(
    hardware: bool, streamMask: u8, auxInput: bool, rateProfile: nat, legacySchedule: bool, complete: bool)

  datatype Profile = NoProfile | Adc | Gpio | Combined | Invalid

  function ProfileFor(c: Configuration): Profile {
    if !c.hardware then NoProfile
    else if c.streamMask == ADC_STREAM then Adc
    else if c.streamMask == GPIO_STREAM then Gpio
    else if c.streamMask == BOTH_STREAMS then Combined
    else if c.streamMask == 0 then NoProfile
    else Invalid
  }

  predicate Executable(p: Profile) {
    p.Adc? || p.Gpio? || p.Combined?
  }

  predicate IncludesAdc(p: Profile) {
    p.Adc? || p.Combined?
  }

  predicate IncludesGpio(p: Profile) {
    p.Gpio? || p.Combined?
  }

  /** The capture and the packer of the GPIO path in one bank mode. */
  function CaptureFor(auxInput: bool): Component {
    if auxInput then AuxCapture else GpioCapture
  }

  function PackerFor(auxInput: bool): Component {
    if auxInput then AuxPacker else GpioPacker
  }

  predicate MaskHasAdc(mask: u8) {
    mask % 2 == 1
  }

  predicate MaskHasGpio(mask: u8) {
    mask / 2 % 2 == 1
  }

  predicate HasAdc(present: set<Component>) {
    Trigger in present && AdcCapture in present && AdcPacker in present
  }

  predicate HasGpio(present: set<Component>, auxInput: bool) {
    CaptureFor(auxInput) in present && PackerFor(auxInput) in present
  }

  /** Every component that a run over these streams calls. */
  predicate Equipped(present: set<Component>, mask: u8, auxInput: bool) {
    && Pipeline in present
    && (MaskHasAdc(mask) ==> HasAdc(present))
    && (MaskHasGpio(mask) ==> HasGpio(present, auxInput))
  }

  predicate IsCapture(on: Component) {
    on.AdcCapture? || on.GpioCapture? || on.AuxCapture?
  }

  predicate IsPacker(on: Component) {
    on.AdcPacker? || on.GpioPacker? || on.AuxPacker?
  }

  /** The packers and captures that a run of this configuration uses. */
  predicate Includes(c: Configuration, on: Component) {
    match on
    case AdcPacker => IncludesAdc(ProfileFor(c))
    case AdcCapture => IncludesAdc(ProfileFor(c))
    case GpioPacker => IncludesGpio(ProfileFor(c)) && !c.auxInput
    case GpioCapture => IncludesGpio(ProfileFor(c)) && !c.auxInput
    case AuxPacker => IncludesGpio(ProfileFor(c)) && c.auxInput
    case AuxCapture => IncludesGpio(ProfileFor(c)) && c.auxInput
    case _ => false
  }

  // ----------------------------------------------------------------- inspections

  datatype Conflict =
    | InvalidProfile
    | InvalidConfiguration
    | InvalidRunId
    | ControllerBusy
    | RateSchedulerUnavailable
    | AdcComponentsMissing
    | AdcTriggerUnavailable
    | AdcTriggerRunning
    | AdcPackerBusy
    | AdcCaptureUnavailable
    | GpioComponentsMissing(auxInput: bool)
    | GpioPackerBusy(auxInput: bool)
    | GpioCaptureUnavailable(auxInput: bool)

  /** What stands against a start of `c` before any component is asked. */
  function StaticConflicts(c: Configuration, runId: u32, busy: bool, present: set<Component>): set<Conflict> {
    var p := ProfileFor(c);
    if !Executable(p) then {InvalidProfile}
    else if !c.complete then {InvalidConfiguration}
    else if runId == 0 then {InvalidRunId}
    else
      (if busy then {ControllerBusy} else {})
      + (if !c.legacySchedule && RateScheduler !in present then {RateSchedulerUnavailable} else {})
      + (if IncludesAdc(p) && !HasAdc(present) then {AdcComponentsMissing} else {})
      + (if IncludesGpio(p) && !HasGpio(present, c.auxInput) then {GpioComponentsMissing(c.auxInput)} else {})
  }

  /** The questions asked before a start: of the rate scheduler, then of the parts of each path that is all there. */
  function RateQuestions(c: Configuration, present: set<Component>): seq<Step> {
    if RateScheduler in present then [Step(RateScheduler, Usable)] else []
  }

  function AdcQuestions(present: set<Component>): seq<Step> {
    if HasAdc(present) then
      [Step(Trigger, Ready), Step(Trigger, Running), Step(AdcPacker, Ready), Step(AdcCapture, Inspect)]
    else []
  }

  function GpioQuestions(present: set<Component>, auxInput: bool): seq<Step> {
    if HasGpio(present, auxInput) then [Step(PackerFor(auxInput), Ready), Step(CaptureFor(auxInput), Inspect)] else []
  }

  function Questions(c: Configuration, runId: u32, present: set<Component>): seq<Step> {
    var p := ProfileFor(c);
    if !Executable(p) || !c.complete || runId == 0 then []
    else
      RateQuestions(c, present)
      + (if IncludesAdc(p) then AdcQuestions(present) else [])
      + (if IncludesGpio(p) then GpioQuestions(present, c.auxInput) else [])
  }

  /** The conflict that a disappointing answer raises. */
  function RaisedBy(step: Step): Conflict {
    match step.on
    case RateScheduler => RateSchedulerUnavailable
    case Trigger => if step.op.Running? then AdcTriggerRunning else AdcTriggerUnavailable
    case AdcPacker => AdcPackerBusy
    case AdcCapture => AdcCaptureUnavailable
    case GpioPacker => GpioPackerBusy(false)
    case AuxPacker => GpioPackerBusy(true)
    case GpioCapture => GpioCaptureUnavailable(false)
    case AuxCapture => GpioCaptureUnavailable(true)
    case Pipeline => ControllerBusy
  }

  function Disappointments(log: Log): set<Conflict> {
    set d | d in log && !Favourable(d) :: RaisedBy(Step(d.on, d.op))
  }

  lemma Disappointed(a: Log, b: Log)
    ensures Disappointments(a + b) == Disappointments(a) + Disappointments(b)
    ensures Disappointments(a) == {} <==> AllFavourable(a)
  {
    assert forall d :: d in a + b <==> d in a || d in b;
    if !AllFavourable(a) {
      var d :| d in a && !Favourable(d);
      assert RaisedBy(Step(d.on, d.op)) in Disappointments(a);
    }
  }

  lemma OneDisappointed(d: Done)
    ensures Disappointments([d]) == if Favourable(d) then {} else {RaisedBy(Step(d.on, d.op))}
  {
  }

  lemma NothingDisappoints()
    ensures InspectionsOnly([]) && Disappointments([]) == {} && Steps([]) == [] && AllFavourable([])
  {
  }

  /** Two pieces of an inspection. */
  lemma TwoInspections(a: Log, b: Log)
    ensures InspectionsOnly(a) && InspectionsOnly(b) ==> InspectionsOnly(a + b)
    ensures Disappointments(a + b) == Disappointments(a) + Disappointments(b)
    ensures Steps(a + b) == Steps(a) + Steps(b)
  {
    Disappointed(a, b);
    assert forall d :: d in a + b <==> d in a || d in b;
  }

  /** The pieces of an inspection together. */
  lemma PathsTogether(c: Configuration, runId: u32, busy: bool, present: set<Component>, rate: Log, adc: Log, gpio: Log)
    requires Executable(ProfileFor(c)) && c.complete && runId != 0
    requires InspectionsOnly(rate) && InspectionsOnly(adc) && InspectionsOnly(gpio)
    requires Steps(rate) == RateQuestions(c, present)
    requires Steps(adc) == if IncludesAdc(ProfileFor(c)) then AdcQuestions(present) else []
    requires Steps(gpio) == if IncludesGpio(ProfileFor(c)) then GpioQuestions(present, c.auxInput) else []
    ensures Steps(rate + adc + gpio) == Questions(c, runId, present) && InspectionsOnly(rate + adc + gpio)
    ensures Disappointments(rate + adc + gpio)
         == Disappointments(rate) + Disappointments(adc) + Disappointments(gpio)
  {
    TwoInspections(rate, adc);
    TwoInspections(rate + adc, gpio);
  }

  lemma ConflictsTogether(c: Configuration, runId: u32, busy: bool, present: set<Component>,
                          rate: set<Conflict>, adc: set<Conflict>, gpio: set<Conflict>)
    requires Executable(ProfileFor(c)) && c.complete && runId != 0
    ensures var p := ProfileFor(c);
            (if busy then {ControllerBusy} else {})
            + ((if c.legacySchedule || RateScheduler in present then {} else {RateSchedulerUnavailable}) + rate)
            + (if IncludesAdc(p) then (if HasAdc(present) then {} else {AdcComponentsMissing}) + adc else adc)
            + (if IncludesGpio(p) then
                 (if HasGpio(present, c.auxInput) then {} else {GpioComponentsMissing(c.auxInput)}) + gpio
               else gpio)
            == StaticConflicts(c, runId, busy, present) + (rate + adc + gpio)
  {
    hide HasAdc, HasGpio, ProfileFor;
  }

  lemma ClearMeansStartable(c: Configuration, runId: u32, busy: bool, present: set<Component>, asked: Log)
    requires Executable(ProfileFor(c)) && Steps(asked) == Questions(c, runId, present)
    ensures StaticConflicts(c, runId, busy, present) + Disappointments(asked) == {} <==>
              Startable(c, runId, busy, present) && AllFavourable(asked)
    ensures StaticConflicts(c, runId, busy, present) + Disappointments(asked) == {} ==>
              && (forall on :: Includes(c, on) ==> Did(asked, on, if IsPacker(on) then Ready else Inspect))
              && (IncludesAdc(ProfileFor(c)) ==> Did(asked, Trigger, Ready) && Did(asked, Trigger, Running))
              && (RateScheduler in present ==> Did(asked, RateScheduler, Usable))
  {
    Disappointed(asked, []);
    StartableHasNothingAgainst(c, runId, busy, present);
    hide Disappointments, AllFavourable, Steps, Questions, Did, StaticConflicts, Includes;
    assert StaticConflicts(c, runId, busy, present) + Disappointments(asked) == {} <==>
             StaticConflicts(c, runId, busy, present) == {} && Disappointments(asked) == {};
    if Startable(c, runId, busy, present) {
      EveryoneIsAsked(c, runId, present, asked);
    }
  }

  lemma StartableHasNothingAgainst(c: Configuration, runId: u32, busy: bool, present: set<Component>)
    ensures StaticConflicts(c, runId, busy, present) == {} <==> Startable(c, runId, busy, present)
  {
    hide ProfileFor, HasAdc, HasGpio;
  }

  /** A component of the run that is there is asked whether it is free, the trigger also whether it stands still. */
  lemma EveryoneIsAsked(c: Configuration, runId: u32, present: set<Component>, asked: Log)
    requires Startable(c, runId, false, present) && Steps(asked) == Questions(c, runId, present)
    ensures forall on :: Includes(c, on) ==> Did(asked, on, if IsPacker(on) then Ready else Inspect)
    ensures IncludesAdc(ProfileFor(c)) ==> Did(asked, Trigger, Ready) && Did(asked, Trigger, Running)
    ensures RateScheduler in present ==> Did(asked, RateScheduler, Usable)
  {
    hide HasAdc, HasGpio, ProfileFor;
    var steps := Questions(c, runId, present);
    forall step | step in steps
      ensures Did(asked, step.on, step.op)
    {
      var k :| 0 <= k < |steps| && steps[k] == step;
      assert asked[k] in asked;
    }
    forall on | Includes(c, on)
      ensures Did(asked, on, if IsPacker(on) then Ready else Inspect)
    {
      assert Step(on, if IsPacker(on) then Ready else Inspect) in steps;
    }
    assert IncludesAdc(ProfileFor(c)) ==> Step(Trigger, Ready) in steps && Step(Trigger, Running) in steps;
    assert RateScheduler in present ==> Step(RateScheduler, Usable) in steps;
  }

  /** The answer an inspection hopes for. */
  predicate Favourable(d: Done) {
    if d.op.Running? then !d.answer.running else d.answer.ok
  }

  predicate AllFavourable(log: Log) {
    forall d :: d in log ==> Favourable(d)
  }

  /** What a start of `c` needs apart from the answers of the components. */
  predicate Startable(c: Configuration, runId: u32, busy: bool, present: set<Component>) {
    && Executable(ProfileFor(c))
    && c.complete
    && runId != 0
    && !busy
    && (c.legacySchedule || RateScheduler in present)
    && (IncludesAdc(ProfileFor(c)) ==> HasAdc(present))
    && (IncludesGpio(ProfileFor(c)) ==> HasGpio(present, c.auxInput))
  }

  lemma StartableIsIdle(c: Configuration, runId: u32, busy: bool, present: set<Component>)
    ensures Startable(c, runId, busy, present) ==> !busy
  {
  }

  predicate InspectionsOnly(log: Log) {
    forall d :: d in log ==> d.op.Usable? || d.op.Ready? || d.op.Running? || d.op.Inspect?
  }

  /** Nothing but questions that change nothing. */
  predicate QuestionsOnly(log: Log) {
    forall d :: d in log ==> d.op.Usable? || d.op.Ready? || d.op.Running? || d.op.Inspect? || d.op.Matches?
  }

  // --------------------------------------------------------------------- reports

  /** The parts of a loop report that the controller sets and reads. */
  datatype Report = Report(
    adcPackerStarted: bool, gpioPackerStarted: bool, auxPackerStarted: bool,
    adcCapturePrepared: bool, gpioCapturePrepared: bool, auxCapturePrepared: bool,
    triggerStopped: bool,
    rateConfigured: bool, rateRestored: bool,
    productionStopped: bool, drainPending: bool, faultDetected: bool, internalError: bool,
    runId: u32, epochTicks: u64)

  /** No earlier start has been recorded in this report. */
  predicate Unstarted(r: Report) {
    && !r.adcPackerStarted && !r.gpioPackerStarted && !r.auxPackerStarted
    && !r.adcCapturePrepared && !r.gpioCapturePrepared && !r.auxCapturePrepared
  }

  function FreshReport(): (r: Report)
    ensures Unstarted(r)
  {
    Report(false, false, false, false, false, false, false, false, false, false, false, false, false, 0, 0)
  }

  function Begun(r: Report, runId: u32, epochTicks: u64): (after: Report)
    ensures SameFlags(r, after)
  {
    r.(runId := runId, epochTicks := epochTicks)
  }

  function Refused(r: Report): (after: Report)
    ensures after.internalError && after.productionStopped
  {
    r.(internalError := true, productionStopped := true)
  }

  /** A report of a rollback: what the trigger and the rate scheduler answered, if they were called at all. */
  function RolledBack(r: Report, told: bool, stopped: bool, restoring: bool, restored: bool): (after: Report)
    ensures after.internalError && after.productionStopped && SameFlags(r, after)
  {
    r.(triggerStopped := if told then stopped else r.triggerStopped,
       rateRestored := if restoring then restored else r.rateRestored,
       productionStopped := true, internalError := true)
  }

  function Stopping(r: Report, runId: u32, epochTicks: u64, drainPending: bool, wrong: bool): (after: Report)
    ensures after.drainPending == drainPending
  {
    r.(runId := runId, epochTicks := epochTicks, drainPending := drainPending,
       internalError := r.internalError || wrong)
  }

  function Faulted(r: Report): (after: Report)
  {
    r.(faultDetected := true, internalError := true)
  }

  /** The flag a report keeps for a packer that started or a capture that is up. */
  predicate Flag(r: Report, on: Component) {
    match on
    case AdcPacker => r.adcPackerStarted
    case GpioPacker => r.gpioPackerStarted
    case AuxPacker => r.auxPackerStarted
    case AdcCapture => r.adcCapturePrepared
    case GpioCapture => r.gpioCapturePrepared
    case AuxCapture => r.auxCapturePrepared
    case _ => false
  }

  function WithFlag(r: Report, on: Component, up: bool): (after: Report)
    ensures forall other :: Flag(after, other) ==
              if other == on && (IsPacker(on) || IsCapture(on)) then up else Flag(r, other)
  {
    match on
    case AdcPacker => r.(adcPackerStarted := up)
    case GpioPacker => r.(gpioPackerStarted := up)
    case AuxPacker => r.(auxPackerStarted := up)
    case AdcCapture => r.(adcCapturePrepared := up)
    case GpioCapture => r.(gpioCapturePrepared := up)
    case AuxCapture => r.(auxCapturePrepared := up)
    case _ => r
  }

  predicate SameFlags(r: Report, after: Report) {
    forall on :: Flag(after, on) == Flag(r, on)
  }

  /** Nothing but what a start brings up has changed. */
  predicate Untouched(r: Report, after: Report) {
    && after.triggerStopped == r.triggerStopped
    && after.rateRestored == r.rateRestored
    && after.productionStopped == r.productionStopped
    && after.drainPending == r.drainPending
    && after.faultDetected == r.faultDetected
    && after.internalError == r.internalError
    && after.runId == r.runId
    && after.epochTicks == r.epochTicks
  }

  /** Nothing but the flags of packers and captures has changed. */
  predicate OnlyFlags(r: Report, after: Report) {
    Untouched(r, after) && after.rateConfigured == r.rateConfigured
  }

  lemma FlagTouchesNothingElse(r: Report, on: Component, up: bool)
    ensures OnlyFlags(r, WithFlag(r, on, up))
  {
    hide Flag;
    match on {
      case AdcPacker =>
      case GpioPacker =>
      case AuxPacker =>
      case AdcCapture =>
      case GpioCapture =>
      case AuxCapture =>
      case _ =>
    }
  }

  lemma OnlyFlagsTwice(a: Report, b: Report, c: Report)
    requires OnlyFlags(a, b) && OnlyFlags(b, c)
    ensures OnlyFlags(a, c)
  {
  }

  lemma FlagsTouchNothingElse(a: Report, b: Report, c: Report)
    requires Untouched(a, b) && OnlyFlags(b, c)
    ensures Untouched(a, c) && c.rateConfigured == b.rateConfigured
  {
  }

  lemma NothingTouched(r: Report, ok: bool)
    ensures OnlyFlags(r, r) && Untouched(r, r)
    ensures Untouched(r, RateConfigured(r, ok)) && RateConfigured(r, ok).rateConfigured == ok
  {
  }

  function RateConfigured(r: Report, ok: bool): (after: Report)
    ensures SameFlags(r, after)
  {
    r.(rateConfigured := ok)
  }

  /** Flags are raised only for components of the run. */
  predicate FlagsFit(r: Report, p: Profile, auxInput: bool) {
    && (r.adcPackerStarted || r.adcCapturePrepared ==> IncludesAdc(p))
    && (r.gpioPackerStarted || r.gpioCapturePrepared ==> IncludesGpio(p) && !auxInput)
    && (r.auxPackerStarted || r.auxCapturePrepared ==> IncludesGpio(p) && auxInput)
  }

  lemma FlagsAreIncluded(c: Configuration, r: Report)
    requires forall on :: Flag(r, on) ==> Includes(c, on)
    ensures FlagsFit(r, ProfileFor(c), c.auxInput)
  {
    assert Flag(r, AdcPacker) ==> Includes(c, AdcPacker);
    assert Flag(r, AdcCapture) ==> Includes(c, AdcCapture);
    assert Flag(r, GpioPacker) ==> Includes(c, GpioPacker);
    assert Flag(r, GpioCapture) ==> Includes(c, GpioCapture);
    assert Flag(r, AuxPacker) ==> Includes(c, AuxPacker);
    assert Flag(r, AuxCapture) ==> Includes(c, AuxCapture);
  }

  // ------------------------------------------------------------- phases of a run

  datatype Phase = Idle | Active | StopPending | Draining

  /** The identity a run keeps from its start until it has drained. */
  datatype Identity = Identity(mask: u8, runId: u32, epochTicks: u64, auxInput: bool, rateProfile: nat)

  const NO_IDENTITY := Identity(0, 0, 0, false, DEFAULT_RATE_PROFILE)

  /** The phases a service round may lead to. */
  predicate Advances(before: Phase, after: Phase) {
    match before
    case Idle => after.Idle?
    case Active => true
    case StopPending => !after.Active?
    case Draining => after.Draining? || after.Idle?
  }

  datatype Moment = Moment(phase: Phase, identity: Identity)

  /** One call apart: a run begins active out of idleness, never goes back to a phase it has left, and keeps its
      identity until it is idle again. */
  predicate Follows(before: Moment, after: Moment) {
    if before.phase.Idle? then after.phase.Idle? || after.phase.Active?
    else after.phase.Idle? || (Advances(before.phase, after.phase) && after.identity == before.identity)
  }

  datatype Command =
    | StartCommand(c: Configuration, runId: u32, epochTicks: u64)
    | StopCommand
    | ServiceCommand
}
