/** Starts of a run, told from the calls they make: what they bring up, in which order, and how they undo it. */
module ControllerStarts {
  import opened FixedWidth
  import opened ControllerModel

  // ---------------------------------------------- what an attempt has brought up

  predicate Brought(log: Log, capture: Component) {
    DidWell(log, capture, Prepare) || DidWell(log, capture, Start)
  }

  predicate BringsUp(d: Done) {
    (IsPacker(d.on) && d.op == Start) || (IsCapture(d.on) && (d.op == Start || d.op == Prepare))
  }

  /** What a flag is to say of a log. */
  predicate Up(log: Log, on: Component) {
    if IsPacker(on) then DidWell(log, on, Start) else IsCapture(on) && Brought(log, on)
  }

  /** The report says exactly what the attempt achieved. */
  ghost predicate Mirrors(r: Report, attempt: Log) {
    forall on :: Flag(r, on) == Up(attempt, on)
  }

  /** `previous` is the rate profile that was selected before the run. */
  predicate Remembered(log: Log, previous: nat) {
    forall d :: d in log && d.on == RateScheduler && d.op == Selected ==>
      previous == if d.answer.ok then d.answer.profile else DEFAULT_RATE_PROFILE
  }

  /** What one more call adds to what is up. */
  lemma OneMoreCall(attempt: Log, d: Done, on: Component)
    ensures Up(attempt + [d], on) == (Up(attempt, on) || (d.on == on && d.answer.ok && BringsUp(d)))
  {
    assert forall e :: e in attempt + [d] <==> e in attempt || e == d;
    assert d in attempt + [d];
  }

  lemma FlagIsMirrored(r: Report, attempt: Log, d: Done)
    requires Mirrors(r, attempt) && !Flag(r, d.on)
    requires (IsPacker(d.on) && d.op == Start) || (IsCapture(d.on) && (d.op == Start || d.op == Prepare))
    ensures Mirrors(WithFlag(r, d.on, d.answer.ok), attempt + [d])
  {
    forall on
      ensures Flag(WithFlag(r, d.on, d.answer.ok), on) == Up(attempt + [d], on)
    {
      assert Flag(r, on) == Up(attempt, on);
      OneMoreCall(attempt, d, on);
    }
  }

  lemma MirrorsKeep(r: Report, attempt: Log, d: Done)
    requires Mirrors(r, attempt) && !BringsUp(d)
    ensures Mirrors(r, attempt + [d])
  {
    forall on
      ensures Flag(r, on) == Up(attempt + [d], on)
    {
      assert Flag(r, on) == Up(attempt, on);
      OneMoreCall(attempt, d, on);
    }
  }

  lemma SameFlagsMirror(r: Report, after: Report, log: Log)
    requires Mirrors(r, log) && SameFlags(r, after)
    ensures Mirrors(after, log)
  {
    forall on
      ensures Flag(after, on) == Up(log, on)
    {
      assert Flag(r, on) == Up(log, on);
    }
  }

  lemma AllAreUp(c: Configuration, r: Report, attempt: Log)
    requires Mirrors(r, attempt)
    ensures (forall on :: Includes(c, on) ==> Flag(r, on)) ==> forall on :: Includes(c, on) ==> Up(attempt, on)
  {
  }

  lemma NoRateYet(log: Log, profile: nat)
    requires QuestionsOnly(log)
    ensures !DidWell(log, RateScheduler, Configure(profile))
  {
  }

  lemma QuestionsBringNothing(log: Log)
    requires QuestionsOnly(log)
    ensures forall on :: !Up(log, on)
    ensures forall profile :: !DidWell(log, RateScheduler, Configure(profile))
  {
  }

  lemma RateIsMirrored(r: Report, attempt: Log, selected: Done, configured: Done)
    requires Mirrors(r, attempt) && QuestionsOnly(attempt)
    requires selected.on == configured.on == RateScheduler && selected.op == Selected && configured.op.Configure?
    ensures Mirrors(r, attempt + [selected, configured])
    ensures DidWell(attempt + [selected, configured], RateScheduler, configured.op) == configured.answer.ok
  {
    MirrorsKeep(r, attempt, selected);
    MirrorsKeep(r, attempt + [selected], configured);
    var calls := attempt + [selected, configured];
    assert attempt + [selected] + [configured] == calls;
    assert forall d :: d in calls <==> d in attempt || d == selected || d == configured;
    assert configured in calls;
  }

  lemma RateUndisturbed(log: Log, more: Log, profile: nat)
    requires forall d :: d in more ==> d.on != RateScheduler
    ensures DidWell(log + more, RateScheduler, Configure(profile)) == DidWell(log, RateScheduler, Configure(profile))
  {
    assert forall d :: d in log + more <==> d in log || d in more;
  }

  lemma InspectionsMatchNothing(asked: Log)
    requires InspectionsOnly(asked)
    ensures !DidWell(asked, Pipeline, Matches) && QuestionsOnly(asked)
  {
  }

  lemma MatchIsRecorded(asked: Log, called: Done)
    requires InspectionsOnly(asked) && called.on == Pipeline && called.op == Matches
    ensures DidWell(asked + [called], Pipeline, Matches) == called.answer.ok
    ensures forall calls :: called.answer.ok ==> DidWell(asked + [called] + calls, Pipeline, Matches)
  {
    assert forall d :: d in asked + [called] <==> d in asked || d == called;
    assert called in asked + [called];
    forall calls
      ensures called.answer.ok ==> DidWell(asked + [called] + calls, Pipeline, Matches)
    {
      assert called in asked + [called] + calls;
    }
  }

  lemma StartsClean(report: Report, begun: Report, asked: Log, called: Done)
    requires Unstarted(report) && SameFlags(report, begun)
    requires InspectionsOnly(asked) && called.op == Matches
    ensures Mirrors(begun, asked + [called]) && QuestionsOnly(asked + [called])
    ensures forall on :: !Flag(begun, on)
  {
    assert forall d :: d in asked + [called] <==> d in asked || d == called;
    QuestionsBringNothing(asked + [called]);
    forall on
      ensures !Flag(begun, on)
    {
      assert Flag(begun, on) == Flag(report, on);
    }
  }

  lemma CallsAreRemembered(asked: Log, called: Done, calls: Log, previous: nat)
    requires InspectionsOnly(asked) && called.op == Matches
    ensures Remembered(calls, previous) ==> Remembered(asked + [called] + calls, previous)
  {
    assert forall d :: d in asked + [called] + calls <==> d in asked || d == called || d in calls;
  }

  lemma RefusalIsLast(forward: Log, refusal: Done)
    requires refusal.on == Pipeline && refusal.op == StopProduction
    ensures DidWell(forward + [refusal], Pipeline, Matches) == DidWell(forward, Pipeline, Matches)
    ensures Last(forward + [refusal], Pipeline, StopProduction)
  {
    assert forall d :: d in forward + [refusal] <==> d in forward || d == refusal;
  }

  // ------------------------------------------------------- the calls of a start

  /** The steps of a start once it is reserved, in order. */
  function RatePlan(c: Configuration, present: set<Component>): seq<Step> {
    if RateScheduler in present then [Step(RateScheduler, Selected), Step(RateScheduler, Configure(c.rateProfile))]
    else []
  }

  function PackerPlan(c: Configuration): seq<Step> {
    (if IncludesAdc(ProfileFor(c)) then [Step(AdcPacker, Start)] else [])
    + (if IncludesGpio(ProfileFor(c)) then [Step(PackerFor(c.auxInput), Start)] else [])
  }

  /** Captures are prepared where the common trigger will start them; a GPIO capture without one starts by itself. */
  function CapturePlan(c: Configuration): seq<Step> {
    (if IncludesAdc(ProfileFor(c)) then [Step(AdcCapture, Prepare)] else [])
    + (if IncludesGpio(ProfileFor(c)) then
         [Step(CaptureFor(c.auxInput), if ProfileFor(c) == Combined then Prepare else Start)]
       else [])
  }

  function TriggerPlan(c: Configuration): seq<Step> {
    if IncludesAdc(ProfileFor(c)) then [Step(Trigger, Arm)] else []
  }

  function StartPlan(c: Configuration, present: set<Component>): seq<Step> {
    RatePlan(c, present) + PackerPlan(c) + CapturePlan(c) + TriggerPlan(c)
  }

  /** The answer lets a start go on; the question for the selected profile always does. */
  predicate Passes(d: Done) {
    d.op.Selected? || d.answer.ok
  }

  /** The calls make the steps of a plan in order: all of them, or up to the first that fails. */
  predicate CarriesOut(calls: Log, plan: seq<Step>, done: bool) {
    && |calls| <= |plan|
    && Steps(calls) == plan[..|calls|]
    && (forall k :: 0 <= k < |calls| - 1 ==> Passes(calls[k]))
    && (if done then |calls| == |plan| && (calls == [] || Passes(calls[|calls| - 1]))
        else calls != [] && !Passes(calls[|calls| - 1]))
  }

  lemma NothingToCarryOut()
    ensures CarriesOut([], [], true)
  {
  }

  lemma OneStepCarriedOut(d: Done)
    ensures CarriesOut([d], [Step(d.on, d.op)], Passes(d))
  {
  }

  lemma CarriedOn(a: Log, p: seq<Step>, b: Log, q: seq<Step>, done: bool)
    requires CarriesOut(a, p, true) && CarriesOut(b, q, done)
    ensures CarriesOut(a + b, p + q, done)
  {
  }

  lemma StoppedShort(a: Log, p: seq<Step>, q: seq<Step>)
    requires CarriesOut(a, p, false)
    ensures CarriesOut(a, p + q, false)
  {
  }

  lemma PlanIsDone(calls: Log, plan: seq<Step>, step: Step)
    requires CarriesOut(calls, plan, true) && step in plan && !step.op.Selected?
    ensures DidWell(calls, step.on, step.op)
  {
    var k :| 0 <= k < |plan| && plan[k] == step;
    assert calls[k] in calls;
  }

  lemma OnlyThePlan(calls: Log, plan: seq<Step>, done: bool, d: Done)
    requires CarriesOut(calls, plan, done) && d in calls
    ensures Step(d.on, d.op) in plan
  {
    var k :| 0 <= k < |calls| && calls[k] == d;
    assert Steps(calls)[k] == plan[k];
  }

  /** No capture is sent the operation. */
  predicate NoCaptureSent(log: Log, op: Operation) {
    forall d :: d in log && IsCapture(d.on) ==> d.op != op
  }

  /** Whenever the trigger is armed, every capture of the run has been prepared before. */
  predicate PreparedBeforeArm(log: Log, c: Configuration) {
    forall k :: 0 <= k < |log| && log[k].on == Trigger && log[k].op == Arm ==>
      forall on :: IsCapture(on) && Includes(c, on) ==> DidWell(log[..k], on, Prepare)
  }

  /** The stage of a start that a call belongs to. */
  function Rank(d: Done): nat {
    match d.op
    case Matches => 1
    case Selected => 2
    case Configure(_) => 2
    case Start => if IsPacker(d.on) then 3 else 4
    case Prepare => 4
    case Arm => 5
    case StopProduction => 6
    case _ => 0
  }

  /** Stage after stage: questions, the rate, packers, captures, the trigger. */
  predicate StageByStage(log: Log) {
    forall i, j :: 0 <= i < j < |log| ==> Rank(log[i]) <= Rank(log[j])
  }

  function RankOf(step: Step): nat {
    Rank(Done(step.on, step.op, Answer(false, false, false, false, false, false, 0)))
  }

  predicate AllRank(plan: seq<Step>, rank: nat) {
    forall i :: 0 <= i < |plan| ==> RankOf(plan[i]) == rank
  }

  lemma PlansHaveRanks(c: Configuration, present: set<Component>)
    ensures AllRank(RatePlan(c, present), 2) && AllRank(PackerPlan(c), 3)
    ensures AllRank(CapturePlan(c), 4) && AllRank(TriggerPlan(c), 5) && |TriggerPlan(c)| <= 1
  {
    hide ProfileFor;
  }

  lemma PlanIsStaged(c: Configuration, present: set<Component>)
    ensures var plan := StartPlan(c, present);
            && (forall i, j :: 0 <= i < j < |plan| ==> RankOf(plan[i]) <= RankOf(plan[j]))
            && (forall i :: 0 <= i < |plan| ==> 2 <= RankOf(plan[i]) <= 5)
            && (forall i :: 0 <= i < |plan| - 1 ==> RankOf(plan[i]) < 5)
  {
    PlansHaveRanks(c, present);
    hide RatePlan, PackerPlan, CapturePlan, TriggerPlan, RankOf;
    var (m, n, o) := (|RatePlan(c, present)|, |PackerPlan(c)|, |CapturePlan(c)|);
    forall i | 0 <= i < |StartPlan(c, present)|
      ensures RankOf(StartPlan(c, present)[i])
           == if i < m then 2 else if i < m + n then 3 else if i < m + n + o then 4 else 5
    {
    }
  }

  /** What the plan of a start amounts to once it is done. */
  lemma PlanBringsUp(c: Configuration, present: set<Component>, calls: Log)
    requires CarriesOut(calls, StartPlan(c, present), true)
    ensures ProfileFor(c) == Gpio ==> DidWell(calls, CaptureFor(c.auxInput), Start)
    ensures RateScheduler in present ==> DidWell(calls, RateScheduler, Configure(c.rateProfile))
  {
    hide CarriesOut, DidWell;
    var plan := StartPlan(c, present);
    if ProfileFor(c) == Gpio {
      PlanIsDone(calls, plan, Step(CaptureFor(c.auxInput), Start));
    }
    if RateScheduler in present {
      PlanIsDone(calls, plan, Step(RateScheduler, Configure(c.rateProfile)));
    }
  }

  lemma ArmedLast(c: Configuration, present: set<Component>, calls: Log)
    requires CarriesOut(calls, StartPlan(c, present), true) && IncludesAdc(ProfileFor(c))
    ensures Last(calls, Trigger, Arm) && calls[|calls| - 1].answer.ok
  {
    var plan := StartPlan(c, present);
    assert plan[|plan| - 1] == Step(Trigger, Arm);
    hide StartPlan;
    assert Steps(calls)[|plan| - 1] == plan[|plan| - 1];
  }

  /** What it sends the captures on the way. */
  lemma PlanSends(c: Configuration, present: set<Component>, calls: Log, done: bool)
    requires CarriesOut(calls, StartPlan(c, present), done)
    ensures IncludesAdc(ProfileFor(c)) ==> NoCaptureSent(calls, Start)
    ensures !IncludesAdc(ProfileFor(c)) ==> NoCaptureSent(calls, Prepare)
  {
    hide CarriesOut;
    forall d | d in calls
      ensures Step(d.on, d.op) in StartPlan(c, present)
    {
      OnlyThePlan(calls, StartPlan(c, present), done, d);
    }
  }

  lemma PlanStages(c: Configuration, present: set<Component>, calls: Log, done: bool)
    requires CarriesOut(calls, StartPlan(c, present), done)
    ensures StageByStage(calls) && (forall d :: d in calls ==> 2 <= Rank(d) <= 5)
  {
    PlanIsStaged(c, present);
    hide StartPlan;
    forall k | 0 <= k < |calls|
      ensures RankOf(StartPlan(c, present)[k]) == Rank(calls[k])
    {
      assert Steps(calls)[k] == StartPlan(c, present)[k];
    }
  }

  lemma PlanPreparesFirst(c: Configuration, present: set<Component>, calls: Log, done: bool)
    requires CarriesOut(calls, StartPlan(c, present), done)
    ensures PreparedBeforeArm(calls, c)
  {
    hide ProfileFor, StartPlan, RankOf, Includes;
    PlanIsStaged(c, present);
    forall k, on | 0 <= k < |calls| && calls[k].on == Trigger && calls[k].op == Arm && IsCapture(on) && Includes(c, on)
      ensures DidWell(calls[..k], on, Prepare)
    {
      ArmIsLast(c, present, calls, done, k);
      PlanPrepares(c, present, on);
      hide IsCapture;
      var j :| 0 <= j < |StartPlan(c, present)| && StartPlan(c, present)[j] == Step(on, Prepare);
      assert Steps(calls)[j] == StartPlan(c, present)[j];
      assert calls[j] in calls[..k];
    }
  }

  lemma ArmIsLast(c: Configuration, present: set<Component>, calls: Log, done: bool, k: nat)
    requires CarriesOut(calls, StartPlan(c, present), done)
    requires k < |calls| && calls[k].on == Trigger && calls[k].op == Arm
    ensures k == |StartPlan(c, present)| - 1 && Step(Trigger, Arm) in StartPlan(c, present)
  {
    PlanIsStaged(c, present);
    hide StartPlan;
    assert Steps(calls)[k] == StartPlan(c, present)[k];
    assert RankOf(StartPlan(c, present)[k]) == 5;
  }

  lemma PlanPrepares(c: Configuration, present: set<Component>, on: Component)
    requires Step(Trigger, Arm) in StartPlan(c, present) && IsCapture(on) && Includes(c, on)
    ensures Step(on, Prepare) in StartPlan(c, present)
  {
  }

  /** Questions before the plan change nothing of this. */
  lemma QuestionsThenPlan(c: Configuration, asked: Log, calls: Log)
    requires QuestionsOnly(asked) && StageByStage(asked)
    ensures NoCaptureSent(calls, Start) ==> NoCaptureSent(asked + calls, Start)
    ensures NoCaptureSent(calls, Prepare) ==> NoCaptureSent(asked + calls, Prepare)
    ensures StageByStage(calls) && (forall d :: d in calls ==> 2 <= Rank(d)) ==> StageByStage(asked + calls)
    ensures PreparedBeforeArm(calls, c) ==> PreparedBeforeArm(asked + calls, c)
    ensures forall on, op :: DidWell(calls, on, op) ==> DidWell(asked + calls, on, op)
  {
    var log := asked + calls;
    assert forall d :: d in log <==> d in asked || d in calls;
    forall k | 0 <= k < |asked|
      ensures Rank(asked[k]) <= 1 && asked[k].op != Arm
    {
      assert asked[k] in asked;
    }
    if PreparedBeforeArm(calls, c) {
      forall k, on | 0 <= k < |log| && log[k].on == Trigger && log[k].op == Arm && IsCapture(on) && Includes(c, on)
        ensures DidWell(log[..k], on, Prepare)
      {
        var j := k - |asked|;
        assert calls[j] == log[k];
        assert DidWell(calls[..j], on, Prepare);
        assert log[..k] == asked + calls[..j];
      }
    }
    if StageByStage(calls) && (forall d :: d in calls ==> 2 <= Rank(d)) {
      forall i, j | 0 <= i < j < |log|
        ensures Rank(log[i]) <= Rank(log[j])
      {
        assert j >= |asked| ==> log[j] in calls;
      }
    }
  }

  /** The trigger was asked whether it runs, and did not. */
  predicate StoodStill(log: Log) {
    && Did(log, Trigger, Running)
    && forall d :: d in log && d.on == Trigger && d.op == Running ==> !d.answer.running
  }

  /** How a call of start went: the audit; then, if it found nothing, the question for the pipeline; then, if that
      matches, the plan as far as it goes; a start refused before stops packet production and does nothing else. */
  ghost predicate StartWent(c: Configuration, runId: u32, busy: bool, present: set<Component>, asked: Log, forward: Log,
                            started: bool) {
    && asked <= forward && Steps(asked) == Questions(c, runId, present)
    && (if !(Startable(c, runId, busy, present) && AllFavourable(asked)) then
          !started && Steps(forward) == Steps(asked) + [Step(Pipeline, StopProduction)]
        else
          && |forward| > |asked| && forward[|asked|].on == Pipeline && forward[|asked|].op == Matches
          && (if !forward[|asked|].answer.ok then
                && !started
                && Steps(forward) == Steps(asked) + [Step(Pipeline, Matches), Step(Pipeline, StopProduction)]
              else CarriesOut(forward[|asked| + 1..], StartPlan(c, present), started)))
  }

  /** What a start sends, seen on all its calls. */
  predicate SendsInOrder(c: Configuration, forward: Log) {
    && StageByStage(forward)
    && (if IncludesAdc(ProfileFor(c)) then NoCaptureSent(forward, Start) && PreparedBeforeArm(forward, c)
        else NoCaptureSent(forward, Prepare))
  }

  lemma AuditIsStaged(asked: Log)
    requires InspectionsOnly(asked)
    ensures StageByStage(asked) && QuestionsOnly(asked)
    ensures forall d :: d in asked ==> Rank(d) == 0
  {
    forall k | 0 <= k < |asked|
      ensures Rank(asked[k]) == 0
    {
      assert asked[k] in asked;
    }
  }

  lemma AuditStandsStill(c: Configuration, runId: u32, present: set<Component>, asked: Log, more: Log)
    requires Startable(c, runId, false, present) && Steps(asked) == Questions(c, runId, present)
    requires AllFavourable(asked) && IncludesAdc(ProfileFor(c))
    requires forall d :: d in more ==> d.op != Running
    ensures StoodStill(asked + more)
  {
    EveryoneIsAsked(c, runId, present, asked);
    hide Questions, Startable, ProfileFor;
    var k :| k in asked && k.on == Trigger && k.op == Running;
    assert k in asked + more;
    assert forall d :: d in asked + more <==> d in asked || d in more;
  }

  lemma MatchedQuestions(asked: Log, called: Done)
    requires InspectionsOnly(asked) && called.op == Matches
    ensures QuestionsOnly(asked + [called]) && StageByStage(asked + [called])
  {
    AuditIsStaged(asked);
    var log := asked + [called];
    assert forall d :: d in log <==> d in asked || d == called;
    forall i, j | 0 <= i < j < |log|
      ensures Rank(log[i]) <= Rank(log[j])
    {
      assert log[i] in asked;
    }
  }

  /** A reserved start, seen on all its calls. */
  lemma ReservedStart(c: Configuration, runId: u32, present: set<Component>, asked: Log, called: Done, calls: Log,
                      started: bool)
    requires Startable(c, runId, false, present) && AllFavourable(asked)
    requires InspectionsOnly(asked) && Steps(asked) == Questions(c, runId, present)
    requires called.on == Pipeline && called.op == Matches && called.answer.ok
    requires CarriesOut(calls, StartPlan(c, present), started)
    ensures var forward := asked + [called] + calls;
            && StartWent(c, runId, false, present, asked, forward, started)
            && SendsInOrder(c, forward)
            && (IncludesAdc(ProfileFor(c)) ==> StoodStill(forward))
            && (started && ProfileFor(c) == Gpio ==> DidWell(forward, CaptureFor(c.auxInput), Start))
            && (started && RateScheduler in present ==> DidWell(forward, RateScheduler, Configure(c.rateProfile)))
  {
    hide CarriesOut, Questions, StartPlan, DidWell, StoodStill, NoCaptureSent, PreparedBeforeArm, StageByStage,
      QuestionsOnly, InspectionsOnly, Startable, AllFavourable, Steps, ProfileFor;
    var forward := asked + [called] + calls;
    MatchedQuestions(asked, called);
    PlanSends(c, present, calls, started);
    PlanStages(c, present, calls, started);
    PlanPreparesFirst(c, present, calls, started);
    QuestionsThenPlan(c, asked + [called], calls);
    if started {
      PlanBringsUp(c, present, calls);
    }
    assert forward[|asked|] == called && forward[|asked| + 1..] == calls;
    if IncludesAdc(ProfileFor(c)) {
      PlanAsksNothing([called] + calls, called, calls);
      AuditStandsStill(c, runId, present, asked, [called] + calls);
      JoinLogs(asked, [called], calls);
    }
  }

  lemma PlanAsksNothing(more: Log, called: Done, calls: Log)
    requires more == [called] + calls && called.op == Matches && forall d :: d in calls ==> 2 <= Rank(d)
    ensures forall d :: d in more ==> d.op != Running
  {
  }

  /** A refused start, seen on all its calls. */
  lemma RefusedStart(c: Configuration, runId: u32, busy: bool, present: set<Component>, asked: Log, forward: Log,
                     refusal: Done)
    requires InspectionsOnly(asked) && Steps(asked) == Questions(c, runId, present)
    requires refusal.on == Pipeline && refusal.op == StopProduction
    requires if Startable(c, runId, busy, present) && AllFavourable(asked) then
               && |forward| == |asked| + 1 && asked <= forward
               && forward[|asked|].on == Pipeline && forward[|asked|].op == Matches && !forward[|asked|].answer.ok
             else forward == asked
    ensures StartWent(c, runId, busy, present, asked, forward + [refusal], false)
    ensures SendsInOrder(c, forward + [refusal])
  {
    hide Questions, Startable, AllFavourable, ProfileFor;
    var log := forward + [refusal];
    AuditIsStaged(asked);
    forall k | 0 <= k < |log|
      ensures Rank(log[k]) == if k < |asked| then 0 else if k < |forward| then 1 else 6
      ensures log[k].op != Arm && log[k].op != Start && log[k].op != Prepare
    {
      assert k < |asked| ==> log[k] == asked[k] && asked[k] in asked;
    }
    forall d | d in log
      ensures d.op != Start && d.op != Prepare
    {
      var k :| 0 <= k < |log| && log[k] == d;
    }
  }

  // ---------------------------------------------------------- undoing an attempt

  predicate StopsCapture(d: Done) {
    IsCapture(d.on) && (d.op.Stop? || d.op.StopAfterTriggers?)
  }

  predicate CaptureStopped(log: Log, capture: Component) {
    exists d :: d in log && d.on == capture && StopsCapture(d)
  }

  /** A trigger that still runs is told to stop before any capture is touched. */
  predicate TriggerQuietedFirst(undo: Log) {
    && |undo| >= 1 && undo[0].on == Trigger && undo[0].op == Running
    && (undo[0].answer.running ==> |undo| >= 2 && undo[1].on == Trigger && undo[1].op == Stop)
    && (forall k :: 0 <= k < (if undo[0].answer.running then 2 else 1) ==> !StopsCapture(undo[k]))
  }

  /** Captures are stopped before the packers they feed. */
  predicate CapturesBeforePackers(undo: Log) {
    forall i, j :: 0 <= i < |undo| && 0 <= j < |undo| && IsCapture(undo[i].on) && IsPacker(undo[j].on) ==> i < j
  }

  /** `undo` stops exactly the packers `attempt` started and the captures it brought up, puts the previous rate
      profile back exactly if it had applied the new one, and ends by stopping packet production. */
  ghost predicate Unwound(attempt: Log, undo: Log, adcIncluded: bool, rateProfile: nat, previous: nat) {
    && (forall p :: IsPacker(p) ==> (DidWell(attempt, p, Start) <==> Did(undo, p, StopProduction)))
    && (forall c :: IsCapture(c) ==> (Brought(attempt, c) <==> CaptureStopped(undo, c)))
    && (DidWell(attempt, RateScheduler, Configure(rateProfile)) <==> Did(undo, RateScheduler, Configure(previous)))
    && (adcIncluded ==> TriggerQuietedFirst(undo))
    && CapturesBeforePackers(undo)
    && undo != [] && undo[|undo| - 1].on == Pipeline && undo[|undo| - 1].op == StopProduction
  }

  /** The calls of a rollback, from what the attempt has brought up. */
  function UndoPlan(p: Profile, r: Report, running: bool, restoring: bool, previous: nat): seq<Step> {
    QuietPlan(p, running) + CaptureUndoPlan(p, r) + PackerUndoPlan(r)
    + (if restoring then [Step(RateScheduler, Configure(previous))] else [])
    + [Step(Pipeline, StopProduction)]
  }

  function QuietPlan(p: Profile, running: bool): seq<Step> {
    if !IncludesAdc(p) then []
    else if running then [Step(Trigger, Running), Step(Trigger, Stop)]
    else [Step(Trigger, Running)]
  }

  function CaptureUndoPlan(p: Profile, r: Report): seq<Step> {
    (if r.gpioCapturePrepared then [Step(GpioCapture, if p == Combined then StopAfterTriggers else Stop)] else [])
    + (if r.auxCapturePrepared then [Step(AuxCapture, StopAfterTriggers)] else [])
    + (if r.adcCapturePrepared then [Step(AdcCapture, StopAfterTriggers)] else [])
  }

  function PackerUndoPlan(r: Report): seq<Step> {
    (if r.gpioPackerStarted then [Step(GpioPacker, StopProduction)] else [])
    + (if r.auxPackerStarted then [Step(AuxPacker, StopProduction)] else [])
    + (if r.adcPackerStarted then [Step(AdcPacker, StopProduction)] else [])
  }

  /** At most one call, of one kind, made exactly when it was due. */
  predicate MadeIf(calls: Log, due: bool, on: Component, op: Operation) {
    if due then |calls| == 1 && calls[0].on == on && calls[0].op == op else calls == []
  }

  predicate StoppedIf(calls: Log, due: bool, capture: Component) {
    MadeIf(calls, due, capture, Stop) || MadeIf(calls, due, capture, StopAfterTriggers)
  }

  predicate Quieting(calls: Log, adcIncluded: bool) {
    if !adcIncluded then calls == []
    else
      && |calls| >= 1 && calls[0].on == Trigger && calls[0].op == Running
      && (if calls[0].answer.running then |calls| == 2 && calls[1].on == Trigger && calls[1].op == Stop
          else |calls| == 1)
  }

  lemma PackersAreStopped(r: Report, attempt: Log, gpioPacker: Log, auxPacker: Log, adcPacker: Log)
    requires Mirrors(r, attempt)
    requires MadeIf(gpioPacker, r.gpioPackerStarted, GpioPacker, StopProduction)
    requires MadeIf(auxPacker, r.auxPackerStarted, AuxPacker, StopProduction)
    requires MadeIf(adcPacker, r.adcPackerStarted, AdcPacker, StopProduction)
    ensures var calls := gpioPacker + auxPacker + adcPacker;
            && (forall d :: d in calls ==> IsPacker(d.on))
            && forall p :: IsPacker(p) ==> (DidWell(attempt, p, Start) <==> Did(calls, p, StopProduction))
  {
    var calls := gpioPacker + auxPacker + adcPacker;
    assert Flag(r, GpioPacker) == Up(attempt, GpioPacker) && Flag(r, AuxPacker) == Up(attempt, AuxPacker);
    assert Flag(r, AdcPacker) == Up(attempt, AdcPacker);
    assert r.gpioPackerStarted ==> gpioPacker[0] in calls;
    assert r.auxPackerStarted ==> auxPacker[0] in calls;
    assert r.adcPackerStarted ==> adcPacker[0] in calls;
  }

  lemma CapturesAreStopped(r: Report, attempt: Log, gpioCapture: Log, auxCapture: Log, adcCapture: Log)
    requires Mirrors(r, attempt)
    requires StoppedIf(gpioCapture, r.gpioCapturePrepared, GpioCapture)
    requires StoppedIf(auxCapture, r.auxCapturePrepared, AuxCapture)
    requires StoppedIf(adcCapture, r.adcCapturePrepared, AdcCapture)
    ensures var calls := gpioCapture + auxCapture + adcCapture;
            && (forall d :: d in calls ==> IsCapture(d.on))
            && forall c :: IsCapture(c) ==> (Brought(attempt, c) <==> CaptureStopped(calls, c))
  {
    var calls := gpioCapture + auxCapture + adcCapture;
    assert Flag(r, GpioCapture) == Up(attempt, GpioCapture) && Flag(r, AuxCapture) == Up(attempt, AuxCapture);
    assert Flag(r, AdcCapture) == Up(attempt, AdcCapture);
    assert r.gpioCapturePrepared ==> gpioCapture[0] in calls && StopsCapture(gpioCapture[0]);
    assert r.auxCapturePrepared ==> auxCapture[0] in calls && StopsCapture(auxCapture[0]);
    assert r.adcCapturePrepared ==> adcCapture[0] in calls && StopsCapture(adcCapture[0]);
  }

  lemma OnlyPackersCount(before: Log, packers: Log, after: Log)
    requires forall d :: d in before || d in after ==> !IsPacker(d.on)
    ensures forall p :: IsPacker(p) ==>
      (Did(before + packers + after, p, StopProduction) <==> Did(packers, p, StopProduction))
  {
    assert forall d :: d in before + packers + after <==> d in before || d in packers || d in after;
  }

  lemma OnlyCapturesCount(before: Log, stops: Log, after: Log)
    requires forall d :: d in before || d in after ==> !IsCapture(d.on)
    ensures forall c :: IsCapture(c) ==> (CaptureStopped(before + stops + after, c) <==> CaptureStopped(stops, c))
  {
    assert forall d :: d in before + stops + after <==> d in before || d in stops || d in after;
  }

  lemma InOrder(before: Log, packers: Log, after: Log)
    requires forall d :: d in before ==> !IsPacker(d.on)
    requires forall d :: d in packers ==> !IsCapture(d.on)
    requires forall d :: d in after ==> !IsCapture(d.on) && !IsPacker(d.on)
    ensures CapturesBeforePackers(before + packers + after)
  {
    var undo := before + packers + after;
    forall k | 0 <= k < |undo|
      ensures k < |before| ==> !IsPacker(undo[k].on)
      ensures k >= |before| ==> !IsCapture(undo[k].on)
    {
      if k < |before| {
        assert undo[k] in before;
      } else if k < |before| + |packers| {
        assert undo[k] in packers;
      } else {
        assert undo[k] in after;
      }
    }
  }

  lemma RateIsRestored(before: Log, rate: Log, after: Log, previous: nat)
    requires forall d :: d in before || d in after ==> d.on != RateScheduler
    requires MadeIf(rate, rate != [], RateScheduler, Configure(previous))
    ensures Did(before + rate + after, RateScheduler, Configure(previous)) <==> rate != []
  {
    assert forall d :: d in before + rate + after <==> d in before || d in rate || d in after;
    assert rate != [] ==> rate[0] in rate;
  }

  lemma JoinPieces(log: Log, a: Log, b: Log, c: Log, d: Log, e: Log)
    ensures log + a + b + c + d + e == log + (a + b + c + d + e)
  {
  }

  /** Calls to different components do not disturb what each piece of the undoing has done. */
  lemma PiecesTogether(attempt: Log, quieting: Log, stops: Log, packers: Log, rate: Log, production: Done,
                       adcIncluded: bool, newProfile: nat, previous: nat)
    requires Quieting(quieting, adcIncluded)
    requires forall d :: d in stops ==> IsCapture(d.on)
    requires forall d :: d in packers ==> IsPacker(d.on)
    requires forall p :: IsPacker(p) ==> (DidWell(attempt, p, Start) <==> Did(packers, p, StopProduction))
    requires forall c :: IsCapture(c) ==> (Brought(attempt, c) <==> CaptureStopped(stops, c))
    requires MadeIf(rate, DidWell(attempt, RateScheduler, Configure(newProfile)), RateScheduler, Configure(previous))
    requires production.on == Pipeline && production.op == StopProduction
    ensures Unwound(attempt, quieting + stops + packers + rate + [production], adcIncluded, newProfile, previous)
  {
    var undo := quieting + stops + packers + rate + [production];
    assert forall d :: d in quieting ==> d.on == Trigger;
    OnlyPackersCount(quieting + stops, packers, rate + [production]);
    OnlyCapturesCount(quieting, stops, packers + rate + [production]);
    assert undo == (quieting + stops) + packers + (rate + [production])
                == quieting + stops + (packers + rate + [production]);
    RateIsRestored(quieting + stops + packers, rate, [production], previous);
    assert undo == (quieting + stops + packers) + rate + [production];
    InOrder(quieting + stops, packers, rate + [production]);
    hide DidWell, Brought, Did, CaptureStopped, CapturesBeforePackers;
    assert forall k :: 0 <= k < |quieting| ==> undo[k] == quieting[k];
  }

  /** The report of a rollback: an error, production stopped, and what the trigger and the rate scheduler answered. */
  predicate ReportsUndo(r: Report, after: Report, undo: Log, restoring: bool, previous: nat) {
    && after == r.(triggerStopped := after.triggerStopped, rateRestored := after.rateRestored,
                   productionStopped := true, internalError := true)
    && after.triggerStopped == (if Did(undo, Trigger, Stop) then DidWell(undo, Trigger, Stop) else r.triggerStopped)
    && after.rateRestored
       == (if restoring then DidWell(undo, RateScheduler, Configure(previous)) else r.rateRestored)
  }

  lemma UndoIsReported(r: Report, quieting: Log, stops: Log, packers: Log, rate: Log, production: Done, told: bool,
                       stopped: bool, restoring: bool, restored: bool, previous: nat)
    requires told == Did(quieting, Trigger, Stop) && stopped == DidWell(quieting, Trigger, Stop)
    requires forall d :: d in quieting ==> d.on == Trigger
    requires forall d :: d in stops ==> IsCapture(d.on)
    requires forall d :: d in packers ==> IsPacker(d.on)
    requires MadeIf(rate, restoring, RateScheduler, Configure(previous))
    requires restored == (restoring && rate[0].answer.ok)
    requires production.on == Pipeline
    ensures ReportsUndo(r, RolledBack(r, told, stopped, restoring, restored),
                        quieting + stops + packers + rate + [production], restoring, previous)
  {
    var undo := quieting + stops + packers + rate + [production];
    assert forall d :: d in undo <==> d in quieting || d in stops || d in packers || d in rate || d == production;
    assert restoring ==> rate[0] in rate;
  }

  lemma UndoSteps(p: Profile, r: Report, quieting: Log, stops: Log, packers: Log, rate: Log, production: Done,
                  restoring: bool, previous: nat)
    requires Quieting(quieting, IncludesAdc(p)) && Steps(quieting) == QuietPlan(p, StillRan(quieting))
    requires Steps(stops) == CaptureUndoPlan(p, r) && Steps(packers) == PackerUndoPlan(r)
    requires MadeIf(rate, restoring, RateScheduler, Configure(previous))
    requires production.on == Pipeline && production.op == StopProduction
    ensures var undo := quieting + stops + packers + rate + [production];
            Steps(undo) == UndoPlan(p, r, StillRan(undo), restoring, previous)
  {
    hide CaptureUndoPlan, PackerUndoPlan;
    StepsJoin(quieting, stops);
    StepsJoin(quieting + stops, packers);
    StepsJoin(quieting + stops + packers, rate);
    StepsJoin(quieting + stops + packers + rate, [production]);
    assert quieting != [] ==> (quieting + stops + packers + rate + [production])[0] == quieting[0];
  }

  /** The trigger said at the start of the rollback that it still ran. */
  predicate StillRan(undo: Log) {
    undo != [] && undo[0].answer.running
  }

  /** Every capture is stopped in the way it was brought up: one that started by itself on its own, any that the common
      trigger was to start after that trigger. The auxiliary join knows only the second way. */
  ghost predicate StoppedAsBroughtUp(attempt: Log, undo: Log) {
    forall on :: IsCapture(on) ==>
      && (DidWell(attempt, on, Start) ==> Did(undo, on, if on.GpioCapture? then Stop else StopAfterTriggers))
      && (DidWell(attempt, on, Prepare) ==> Did(undo, on, StopAfterTriggers))
  }

  lemma UndoStopsAsBroughtUp(c: Configuration, r: Report, attempt: Log, undo: Log, restoring: bool, previous: nat)
    requires Mirrors(r, attempt) && FlagsFit(r, ProfileFor(c), c.auxInput)
    requires IncludesAdc(ProfileFor(c)) ==> NoCaptureSent(attempt, Start)
    requires !IncludesAdc(ProfileFor(c)) ==> NoCaptureSent(attempt, Prepare)
    requires Steps(undo) == UndoPlan(ProfileFor(c), r, StillRan(undo), restoring, previous)
    ensures StoppedAsBroughtUp(attempt, undo)
  {
    hide ProfileFor, FlagsFit, QuietPlan, PackerUndoPlan;
    var plan := CaptureUndoPlan(ProfileFor(c), r);
    forall on, op | Step(on, op) in plan
      ensures Did(undo, on, op)
    {
      assert Step(on, op) in Steps(undo);
      var k :| 0 <= k < |undo| && Steps(undo)[k] == Step(on, op);
      assert undo[k] in undo;
    }
    forall on | IsCapture(on)
      ensures DidWell(attempt, on, Start) ==> Did(undo, on, if on.GpioCapture? then Stop else StopAfterTriggers)
      ensures DidWell(attempt, on, Prepare) ==> Did(undo, on, StopAfterTriggers)
    {
      assert Flag(r, on) == Up(attempt, on);
      CombinedPrepares(c, r);
    }
  }

  /** A rollback makes the calls that the attempt needs undone, every capture in its own way, and its report tells what
      the attempt had brought up and what the rollback was answered; the rest of the report is as it was. */
  ghost predicate UndoneAsTold(c: Configuration, r: Report, after: Report, attempt: Log, undo: Log, previous: nat) {
    var restoring := DidWell(attempt, RateScheduler, Configure(c.rateProfile));
    && Steps(undo) == UndoPlan(ProfileFor(c), after, StillRan(undo), restoring, previous)
    && StoppedAsBroughtUp(attempt, undo)
    && after.internalError && after.productionStopped
    && after.triggerStopped == (if Did(undo, Trigger, Stop) then DidWell(undo, Trigger, Stop) else r.triggerStopped)
    && after.rateRestored
       == (if restoring then DidWell(undo, RateScheduler, Configure(previous)) else r.rateRestored)
    && after.drainPending == r.drainPending && after.faultDetected == r.faultDetected
    && after.runId == r.runId && after.epochTicks == r.epochTicks
  }

  /** However a start ends, its report names the run it was asked for and says nothing of faults or of draining. */
  lemma StartIsReported(c: Configuration, r: Report, runId: u32, epochTicks: u64, after: Report, attempt: Log,
                        undo: Log, previous: nat)
    requires
      var begun := Begun(r, runId, epochTicks);
      Untouched(begun, after) || after == Refused(begun) || UndoneAsTold(c, begun, after, attempt, undo, previous)
    ensures after.runId == runId && after.epochTicks == epochTicks
    ensures after.faultDetected == r.faultDetected && after.drainPending == r.drainPending
  {
    hide Steps, UndoPlan, StillRan, StoppedAsBroughtUp, DidWell, Did, ProfileFor;
  }

  lemma AttemptIsUndone(c: Configuration, present: set<Component>, r: Report, reached: Report, after: Report,
                        asked: Log, calls: Log, undo: Log, previous: nat)
    requires QuestionsOnly(asked) && CarriesOut(calls, StartPlan(c, present), false)
    requires Untouched(r, reached) && Mirrors(reached, asked + calls)
    requires FlagsFit(reached, ProfileFor(c), c.auxInput)
    requires var restoring := DidWell(asked + calls, RateScheduler, Configure(c.rateProfile));
             && Steps(undo) == UndoPlan(ProfileFor(c), reached, StillRan(undo), restoring, previous)
             && ReportsUndo(reached, after, undo, restoring, previous)
    ensures UndoneAsTold(c, r, after, asked + calls, undo, previous)
    ensures Mirrors(after, asked + calls)
  {
    hide DidWell, Did, FlagsFit, CarriesOut, StartPlan, ProfileFor, Steps, QuietPlan, StillRan, NoCaptureSent, Mirrors,
      StoppedAsBroughtUp, IncludesAdc, QuestionsOnly;
    PlanSends(c, present, calls, false);
    QuestionsSendNothing(asked, calls);
    var restoring := DidWell(asked + calls, RateScheduler, Configure(c.rateProfile));
    UndoStopsAsBroughtUp(c, reached, asked + calls, undo, restoring, previous);
    SamePlan(ProfileFor(c), reached, after, StillRan(undo), restoring, previous);
    SameFlagsMirror(reached, after, asked + calls);
  }

  lemma SamePlan(p: Profile, r: Report, after: Report, running: bool, restoring: bool, previous: nat)
    requires after == r.(triggerStopped := after.triggerStopped, rateRestored := after.rateRestored,
                         productionStopped := true, internalError := true)
    ensures UndoPlan(p, after, running, restoring, previous) == UndoPlan(p, r, running, restoring, previous)
    ensures SameFlags(r, after)
  {
  }

  lemma QuestionsSendNothing(asked: Log, calls: Log)
    requires QuestionsOnly(asked)
    ensures NoCaptureSent(calls, Start) ==> NoCaptureSent(asked + calls, Start)
    ensures NoCaptureSent(calls, Prepare) ==> NoCaptureSent(asked + calls, Prepare)
  {
    assert forall d :: d in asked + calls <==> d in asked || d in calls;
  }

  lemma RefusalMirrors(report: Report, begun: Report, after: Report, asked: Log, forward: Log, refusal: Done)
    requires Unstarted(report) && SameFlags(report, begun) && after == Refused(begun)
    requires InspectionsOnly(asked) && asked <= forward && |forward| <= |asked| + 1
    requires |forward| > |asked| ==> forward[|asked|].op == Matches
    requires refusal.op == StopProduction
    ensures Mirrors(after, forward + [refusal])
  {
    var log := forward + [refusal];
    forall d | d in log
      ensures !BringsUp(d)
    {
      var k :| 0 <= k < |log| && log[k] == d;
      assert k < |asked| ==> log[k] == asked[k] && asked[k] in asked;
    }
    forall on
      ensures Flag(after, on) == Up(log, on)
    {
      assert Flag(begun, on) == Flag(report, on);
    }
  }

  lemma CombinedPrepares(c: Configuration, r: Report)
    requires FlagsFit(r, ProfileFor(c), c.auxInput)
    ensures r.gpioCapturePrepared && IncludesAdc(ProfileFor(c)) ==> ProfileFor(c) == Combined
    ensures r.gpioCapturePrepared && !IncludesAdc(ProfileFor(c)) ==> ProfileFor(c) != Combined
  {
  }
}
