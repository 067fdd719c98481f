/** The rolling validator of data frames: continuity, samples against their formulas, and frame skew. */
module StreamValidation {
  import opened Wrappers
  import opened FixedWidth
  import opened LittleEndian
  import opened WireFormat
  import opened Patterns
  import opened Continuity

  datatype Settings = Settings(runId: nat, synthetic: bool, checksumAlgorithm: nat, allowExpectedGaps: bool)

  datatype Failure =
    | StaleRun
    | ChecksumChanged
    | SourceDisagrees
    | Reordered
    | UnexpectedGap
    | FlagsDiffer(expected: nat)
    | TimestampDiffers
    | ShapeDiffers
    | PairDiffers(offset: nat)
    | SampleDiffers(offset: nat)
    | FormulaBytesDiffer
    | CodeAboveRange
    | SkewReached(skew: nat)

  datatype StreamState = StreamState(adc: Totals, gpio: Totals, maximumFrameSkew: nat) {
    function Of(kind: nat): Totals {
      if kind == ADC_DATA then adc else gpio
    }
  }

  const FRESH := StreamState(NO_TOTALS, NO_TOTALS, 0)

  // --------------------------------------------------------------- the rules

  function ExpectedFlags(synthetic: bool, sequence: nat, ticks: nat, missing: nat): nat {
    (if synthetic then 1 else 0)
    + (if sequence == 0 && ticks == 0 then 4 else 0)
    + (if missing > 0 then 2 + 8 else 0)
  }

  function StartOf(f: Frame): nat {
    f.ticks / (if f.kind == ADC_DATA then ADC_PAIR_PERIOD_TICKS else GPIO_SAMPLE_PERIOD_TICKS)
  }

  predicate ShapeMeets(f: Frame) {
    && |f.payload| == DATA_PAYLOAD_BYTES
    && f.items == (if f.kind == ADC_DATA then ADC_PAIRS_PER_FRAME else GPIO_SAMPLES_PER_FRAME)
  }

  /** Every synthetic item equals its formula; every physical ADC code fits twelve bits. */
  predicate SamplesMeet(synthetic: bool, f: Frame)
    requires ShapeMeets(f)
  {
    if synthetic then
      if f.kind == ADC_DATA then FollowsAdcFormula(f.payload, StartOf(f))
      else FollowsGpioFormula(f.payload, StartOf(f))
    else f.kind == ADC_DATA ==> CodesInRange(f.payload)
  }

  lemma ShapeHasPayload(f: Frame)
    requires ShapeMeets(f)
    ensures |f.payload| == DATA_PAYLOAD_BYTES
  {
  }

  predicate HeaderMeets(v: Settings, t: Totals, f: Frame) {
    && f.runId == v.runId
    && f.algorithm == v.checksumAlgorithm
    && IsSynthetic(f.flags) == v.synthetic
    && Continues(t, f.sequence, f.ticks)
    && (v.allowExpectedGaps || Missing(t, f.sequence) == 0)
    && f.flags == ExpectedFlags(v.synthetic, f.sequence, f.ticks, Missing(t, f.sequence))
  }

  predicate Admitted(v: Settings, t: Totals, f: Frame) {
    HeaderMeets(v, t, f) && ShapeMeets(f) && SamplesMeet(v.synthetic, f)
  }

  function Skew(s: StreamState): nat {
    Distance(Logical(s.adc), Logical(s.gpio))
  }

  predicate SkewMeets(v: Settings, s: StreamState) {
    (v.allowExpectedGaps && s.adc.gapFlagFrames != s.gpio.gapFlagFrames) || Skew(s) <= 1
  }

  function Admitting(s: StreamState, f: Frame): StreamState {
    var t := Admit(s.Of(f.kind), f);
    var counted := if f.kind == ADC_DATA then s.(adc := t) else s.(gpio := t);
    counted.(maximumFrameSkew := Max(s.maximumFrameSkew, Skew(counted)))
  }

  /** What each failure says about the frame that raised it. */
  predicate Explains(failure: Failure, v: Settings, s: StreamState, f: Frame) {
    var t := s.Of(f.kind);
    var missing := Missing(t, f.sequence);
    match failure
    case StaleRun => f.runId != v.runId
    case ChecksumChanged => f.algorithm != v.checksumAlgorithm
    case SourceDisagrees => IsSynthetic(f.flags) != v.synthetic
    case Reordered => missing > MAX_FORWARD
    case UnexpectedGap => !v.allowExpectedGaps && missing != 0
    case FlagsDiffer(expected) => f.flags != expected == ExpectedFlags(v.synthetic, f.sequence, f.ticks, missing)
    case TimestampDiffers => f.ticks != Wrap64(t.expectedTicks + missing * FRAME_COVERAGE_TICKS)
    case ShapeDiffers => !ShapeMeets(f)
    case PairDiffers(k) =>
      && ShapeMeets(f) && k < ADC_PAIRS_PER_FRAME
      && PairAt(f.payload, k) != FormulaPair(StartOf(f) + k)
      && forall j :: 0 <= j < k ==> PairAt(f.payload, j) == FormulaPair(StartOf(f) + j)
    case SampleDiffers(k) =>
      && ShapeMeets(f) && k < GPIO_SAMPLES_PER_FRAME
      && f.payload[k] != (StartOf(f) + k) % 256
      && forall j :: 0 <= j < k ==> f.payload[j] == (StartOf(f) + j) % 256
    case FormulaBytesDiffer => false
    case CodeAboveRange => ShapeMeets(f) && !CodesInRange(f.payload)
    case SkewReached(skew) =>
      && Admitted(v, t, f)
      && skew == Skew(Admitting(s, f)) > 1
      && !SkewMeets(v, Admitting(s, f))
  }

  /** The rules in the order in which they are checked. */
  predicate Rule(k: nat, v: Settings, t: Totals, f: Frame) {
    if k == 0 then f.runId == v.runId
    else if k == 1 then f.algorithm == v.checksumAlgorithm
    else if k == 2 then IsSynthetic(f.flags) == v.synthetic
    else if k == 3 then Missing(t, f.sequence) <= MAX_FORWARD
    else if k == 4 then v.allowExpectedGaps || Missing(t, f.sequence) == 0
    else if k == 5 then f.flags == ExpectedFlags(v.synthetic, f.sequence, f.ticks, Missing(t, f.sequence))
    else if k == 6 then f.ticks == Wrap64(t.expectedTicks + Missing(t, f.sequence) * FRAME_COVERAGE_TICKS)
    else if k == 7 then ShapeMeets(f)
    else ShapeMeets(f) && SamplesMeet(v.synthetic, f)
  }

  /** The rule that a failure says is broken. */
  function BrokenRule(failure: Failure): nat {
    match failure
    case StaleRun => 0
    case ChecksumChanged => 1
    case SourceDisagrees => 2
    case Reordered => 3
    case UnexpectedGap => 4
    case FlagsDiffer(_) => 5
    case TimestampDiffers => 6
    case ShapeDiffers => 7
    case SkewReached(_) => 9
    case _ => 8
  }

  /** Every rule checked before the one that failed holds. */
  predicate FirstBroken(failure: Failure, v: Settings, t: Totals, f: Frame) {
    forall k :: 0 <= k < BrokenRule(failure) ==> Rule(k, v, t, f)
  }

  // ---------------------------------------------------------------- the validator

  class StreamValidator {
    const settings: Settings
    var adc: Totals
    var gpio: Totals
    var maximumFrameSkew: nat

    function State(): StreamState
      reads this
    {
      StreamState(adc, gpio, maximumFrameSkew)
    }

    ghost predicate Valid()
      reads this
    {
      Tracks(adc) && Tracks(gpio)
    }

    constructor (settings: Settings)
      ensures Valid() && State() == FRESH && this.settings == settings
    {
      this.settings := settings;
      adc, gpio, maximumFrameSkew := NO_TOTALS, NO_TOTALS, 0;
    }

    /** Accepts a frame, or raises; only the skew check raises after the frame has been counted. */
    method Accept(f: Frame) returns (failure: Option<Failure>)
      requires Valid()
      modifies this
      ensures Valid()
      ensures State() == if Admitted(settings, old(State()).Of(f.kind), f) then Admitting(old(State()), f)
                         else old(State())
      ensures failure.None? <==> Admitted(settings, old(State()).Of(f.kind), f) && SkewMeets(settings, State())
      ensures failure.Some? ==>
                && Explains(failure.value, settings, old(State()), f)
                && FirstBroken(failure.value, settings, old(State()).Of(f.kind), f)
    {
      hide Wrap32, Wrap64, Missing, SamplesMeet, CodesInRange, Tracks, Admit, Logical, Distance, ShapeMeets;
      if f.runId != settings.runId {
        return Some(StaleRun);
      }
      if f.algorithm != settings.checksumAlgorithm {
        return Some(ChecksumChanged);
      }
      if IsSynthetic(f.flags) != settings.synthetic {
        return Some(SourceDisagrees);
      }
      var totals := if f.kind == ADC_DATA then adc else gpio;
      var missing := Missing(totals, f.sequence);
      if missing > MAX_FORWARD {
        return Some(Reordered);
      }
      if !settings.allowExpectedGaps && missing != 0 {
        return Some(UnexpectedGap);
      }
      var expectedFlags := 0;
      if settings.synthetic {
        expectedFlags := 1;
      }
      if f.sequence == 0 && f.ticks == 0 {
        expectedFlags := expectedFlags + 4;
      }
      if missing > 0 {
        expectedFlags := expectedFlags + 2 + 8;
      }
      if f.flags != expectedFlags {
        return Some(FlagsDiffer(expectedFlags));
      }
      if f.ticks != Wrap64(totals.expectedTicks + missing * FRAME_COVERAGE_TICKS) {
        return Some(TimestampDiffers);
      }
      if f.kind == ADC_DATA {
        failure := ValidateAdc(settings.synthetic, f);
      } else {
        failure := ValidateGpio(settings.synthetic, f);
      }
      if failure.Some? {
        return;
      }
      ShapeHasPayload(f);
      AdmitTracks(totals, f);
      totals := Admit(totals, f);
      if f.kind == ADC_DATA {
        adc := totals;
      } else {
        gpio := totals;
      }
      var skew := Distance(Logical(adc), Logical(gpio));
      maximumFrameSkew := Max(maximumFrameSkew, skew);
      var successorsPaired := adc.gapFlagFrames == gpio.gapFlagFrames;
      if !settings.allowExpectedGaps || successorsPaired {
        if skew > 1 {
          return Some(SkewReached(skew));
        }
      }
    }
  }

  /** The ADC payload check: one comparison with a slice of the table, or one AND over the whole payload. */
  method ValidateAdc(synthetic: bool, f: Frame) returns (failure: Option<Failure>)
    requires f.kind == ADC_DATA
    ensures failure.None? <==> ShapeMeets(f) && SamplesMeet(synthetic, f)
    ensures failure.Some? ==> forall v, s :: Explains(failure.value, v, s, f)
    ensures failure.Some? ==> failure.value.ShapeDiffers? || failure.value.PairDiffers? || failure.value.CodeAboveRange?
  {
    hide FormulaPair, PairAt, AdcSlice, CodesInRange, BitAnd, OutOfRangeMask, Decode;
    if f.items != ADC_PAIRS_PER_FRAME || |f.payload| != DATA_PAYLOAD_BYTES {
      return Some(ShapeDiffers);
    }
    if synthetic {
      var start := f.ticks / ADC_PAIR_PERIOD_TICKS;
      SliceIsFormula(f.payload, start);
      if f.payload != AdcSlice(start) {
        for k := 0 to ADC_PAIRS_PER_FRAME
          invariant forall j :: 0 <= j < k ==> PairAt(f.payload, j) == FormulaPair(start + j)
        {
          if PairAt(f.payload, k) != FormulaPair(start + k) {
            return Some(PairDiffers(k));
          }
        }
        return Some(FormulaBytesDiffer);
      }
      return None;
    }
    MaskIsRange(f.payload);
    if BitAnd(Decode(f.payload), OutOfRangeMask(DATA_PAYLOAD_BYTES / 2)) != 0 {
      return Some(CodeAboveRange);
    }
    return None;
  }

  method ValidateGpio(synthetic: bool, f: Frame) returns (failure: Option<Failure>)
    requires f.kind != ADC_DATA
    ensures failure.None? <==> ShapeMeets(f) && SamplesMeet(synthetic, f)
    ensures failure.Some? ==> forall v, s :: Explains(failure.value, v, s, f)
    ensures failure.Some? ==> failure.value.ShapeDiffers? || failure.value.SampleDiffers?
  {
    hide GpioSlice, PairAt, FormulaPair, CodesInRange;
    if f.items != GPIO_SAMPLES_PER_FRAME || |f.payload| != DATA_PAYLOAD_BYTES {
      return Some(ShapeDiffers);
    }
    if synthetic {
      var start := f.ticks / GPIO_SAMPLE_PERIOD_TICKS;
      GpioSliceIsFormula(f.payload, start);
      if f.payload != GpioSlice(start) {
        for k := 0 to |f.payload|
          invariant forall j :: 0 <= j < k ==> f.payload[j] == (start + j) % 256
        {
          if f.payload[k] != (start + k) % 256 {
            return Some(SampleDiffers(k));
          }
        }
        return Some(FormulaBytesDiffer);
      }
    }
    return None;
  }

  // ----------------------------------------------------------------- whole runs

  function StateAfter(frames: seq<Frame>): StreamState {
    if frames == [] then FRESH else Admitting(StateAfter(frames[..|frames| - 1]), frames[|frames| - 1])
  }

  /** Every frame is accepted in turn. */
  predicate AllAccepted(v: Settings, frames: seq<Frame>) {
    frames == [] ||
    (var (before, f) := (frames[..|frames| - 1], frames[|frames| - 1]);
     && AllAccepted(v, before)
     && Admitted(v, StateAfter(before).Of(f.kind), f)
     && SkewMeets(v, StateAfter(frames)))
  }

  lemma {:induction false} AcceptedTracks(v: Settings, frames: seq<Frame>)
    requires AllAccepted(v, frames)
    ensures Tracks(StateAfter(frames).adc) && Tracks(StateAfter(frames).gpio)
  {
    if frames != [] {
      var (before, f) := (frames[..|frames| - 1], frames[|frames| - 1]);
      AcceptedTracks(v, before);
      AdmitTracks(StateAfter(before).Of(f.kind), f);
    }
  }

  predicate SameStream(a: nat, b: nat) {
    (a == ADC_DATA) == (b == ADC_DATA)
  }

  /** One past the true index of the last frame of a stream. */
  function NextIndex(frames: seq<Frame>, indices: seq<nat>, kind: nat): nat
    requires |indices| == |frames|
  {
    var n := |frames| - 1;
    if frames == [] then 0
    else if SameStream(frames[n].kind, kind) then indices[n] + 1
    else NextIndex(frames[..n], indices[..n], kind)
  }

  /** Every frame carries its true index, and none lies before or 2^59 past the one expected in its stream. */
  predicate Numbered(frames: seq<Frame>, indices: seq<nat>)
    requires |indices| == |frames|
  {
    var n := |frames| - 1;
    frames == [] ||
    (&& Numbered(frames[..n], indices[..n])
     && frames[n].sequence == Wrap32(indices[n])
     && frames[n].ticks == Wrap64(FRAME_COVERAGE_TICKS * indices[n])
     && NextIndex(frames[..n], indices[..n], frames[n].kind) <= indices[n]
        < NextIndex(frames[..n], indices[..n], frames[n].kind) + TWO_59)
  }

  /** In an accepted run whose holes stay below 2^59 frames, the frames seen and counted missing add up to exactly
      the true number of frames so far, in each stream. */
  lemma {:induction false} MissingIsExact(v: Settings, frames: seq<Frame>, indices: seq<nat>, kind: nat)
    requires |indices| == |frames| && AllAccepted(v, frames) && Numbered(frames, indices)
    ensures Logical(StateAfter(frames).Of(kind)) == NextIndex(frames, indices, kind)
  {
    hide *;
    if frames == [] {
      NothingIsMissing(indices, kind);
    } else {
      var n := |frames| - 1;
      LastIsAccepted(v, frames, kind);
      LastIsNumbered(frames, indices, kind);
      MissingIsExact(v, frames[..n], indices[..n], kind);
      if SameStream(frames[n].kind, kind) {
        HoleIsCounted(StateAfter(frames[..n]).Of(kind), frames[n], NextIndex(frames[..n], indices[..n], kind),
                      indices[n]);
      }
    }
  }

  lemma NothingIsMissing(indices: seq<nat>, kind: nat)
    requires indices == []
    ensures Logical(StateAfter([]).Of(kind)) == NextIndex([], indices, kind)
  {
  }

  lemma LastIsAccepted(v: Settings, frames: seq<Frame>, kind: nat)
    requires AllAccepted(v, frames) && frames != []
    ensures var (before, f) := (frames[..|frames| - 1], frames[|frames| - 1]);
            var t := StateAfter(before).Of(kind);
            && AllAccepted(v, before)
            && Tracks(t)
            && StateAfter(frames).Of(kind) == (if SameStream(f.kind, kind) then Admit(t, f) else t)
            && (SameStream(f.kind, kind) ==> |f.payload| == DATA_PAYLOAD_BYTES && Continues(t, f.sequence, f.ticks))
  {
    AcceptedTracks(v, frames[..|frames| - 1]);
    hide Tracks, Admit, Wrap32, Wrap64, Continues, Missing, SamplesMeet, SkewMeets, Logical, Skew;
  }

  lemma LastIsNumbered(frames: seq<Frame>, indices: seq<nat>, kind: nat)
    requires |indices| == |frames| && Numbered(frames, indices) && frames != []
    ensures var n := |frames| - 1;
            var next := NextIndex(frames[..n], indices[..n], kind);
            && Numbered(frames[..n], indices[..n])
            && frames[n].sequence == Wrap32(indices[n])
            && frames[n].ticks == Wrap64(FRAME_COVERAGE_TICKS * indices[n])
            && (if SameStream(frames[n].kind, kind) then
                  next <= indices[n] < next + TWO_59 && NextIndex(frames, indices, kind) == indices[n] + 1
                else NextIndex(frames, indices, kind) == next)
  {
    hide Wrap32, Wrap64;
    var n := |frames| - 1;
    if SameStream(frames[n].kind, kind) {
      SameStreamSameIndex(frames[..n], indices[..n], kind, frames[n].kind);
    }
  }

  lemma {:induction false} SameStreamSameIndex(frames: seq<Frame>, indices: seq<nat>, a: nat, b: nat)
    requires |indices| == |frames| && SameStream(a, b)
    ensures NextIndex(frames, indices, a) == NextIndex(frames, indices, b)
  {
    if frames != [] {
      SameStreamSameIndex(frames[..|frames| - 1], indices[..|frames| - 1], a, b);
    }
  }

  lemma HoleIsCounted(t: Totals, f: Frame, n: nat, i: nat)
    requires Tracks(t) && Logical(t) == n && |f.payload| == DATA_PAYLOAD_BYTES
    requires f.sequence == Wrap32(i) && f.ticks == Wrap64(FRAME_COVERAGE_TICKS * i)
    requires Continues(t, f.sequence, f.ticks) && n <= i < n + TWO_59
    ensures Missing(t, f.sequence) == i - n && Logical(Admit(t, f)) == i + 1
  {
    hide Admit, Missing, Wrap32, Wrap64, Continues;
    AdmitTracks(t, f);
    HoleIsMeasured(t, n, i);
    SmallRemainder(i - n);
  }

  lemma SmallRemainder(d: int)
    requires 0 <= d < TWO_59
    ensures d % TWO_59 == d
  {
  }

  /** How many frames of a stream come after a hole: their true index lies beyond the one expected. */
  function Holes(frames: seq<Frame>, indices: seq<nat>, kind: nat): nat
    requires |indices| == |frames|
  {
    var n := |frames| - 1;
    if frames == [] then 0
    else
      Holes(frames[..n], indices[..n], kind) +
      (if SameStream(frames[n].kind, kind) && indices[n] > NextIndex(frames[..n], indices[..n], kind) then 1 else 0)
  }

  /** How many frames belong to a stream. */
  function CountStream(frames: seq<Frame>, kind: nat): nat {
    if frames == [] then 0
    else CountStream(frames[..|frames| - 1], kind) + (if SameStream(frames[|frames| - 1].kind, kind) then 1 else 0)
  }

  /** In such a run the frames flagged for a gap are exactly those after a hole, and frames, items and bytes are those
      of the stream. */
  lemma {:induction false} TotalsAreExact(v: Settings, frames: seq<Frame>, indices: seq<nat>, kind: nat)
    requires |indices| == |frames| && AllAccepted(v, frames) && Numbered(frames, indices)
    ensures var t := StateAfter(frames).Of(kind);
            && t.gapFlagFrames == Holes(frames, indices, kind)
            && t.frames == CountStream(frames, kind)
            && t.items == t.frames * (if kind == ADC_DATA then ADC_PAIRS_PER_FRAME else GPIO_SAMPLES_PER_FRAME)
            && t.payloadBytes == t.frames * DATA_PAYLOAD_BYTES
            && t.framedBytes == t.frames * DATA_FRAME_BYTES
  {
    hide *;
    if frames == [] {
      NothingIsTotalled(indices, kind);
    } else {
      var n := |frames| - 1;
      LastIsAccepted(v, frames, kind);
      LastIsNumbered(frames, indices, kind);
      TotalsAreExact(v, frames[..n], indices[..n], kind);
      MissingIsExact(v, frames[..n], indices[..n], kind);
      LastIsTotalled(frames, indices, kind);
      if SameStream(frames[n].kind, kind) {
        var t := StateAfter(frames[..n]).Of(kind);
        HoleIsCounted(t, frames[n], NextIndex(frames[..n], indices[..n], kind), indices[n]);
        LastHasShape(v, frames, kind);
        FrameIsTotalled(t, frames[n]);
        OneMoreTimes(t.frames, if kind == ADC_DATA then ADC_PAIRS_PER_FRAME else GPIO_SAMPLES_PER_FRAME);
      }
    }
  }

  lemma NothingIsTotalled(indices: seq<nat>, kind: nat)
    requires indices == []
    ensures var t := StateAfter([]).Of(kind);
            t.gapFlagFrames == t.frames == t.items == t.payloadBytes == t.framedBytes == 0
    ensures Holes([], indices, kind) == CountStream([], kind) == 0
  {
  }

  lemma LastIsTotalled(frames: seq<Frame>, indices: seq<nat>, kind: nat)
    requires |indices| == |frames| && frames != []
    ensures var n := |frames| - 1;
            var same := SameStream(frames[n].kind, kind);
            && Holes(frames, indices, kind)
               == Holes(frames[..n], indices[..n], kind)
                  + (if same && indices[n] > NextIndex(frames[..n], indices[..n], kind) then 1 else 0)
            && CountStream(frames, kind) == CountStream(frames[..n], kind) + (if same then 1 else 0)
  {
    hide NextIndex, SameStream;
  }

  lemma LastHasShape(v: Settings, frames: seq<Frame>, kind: nat)
    requires AllAccepted(v, frames) && frames != [] && SameStream(frames[|frames| - 1].kind, kind)
    ensures var f := frames[|frames| - 1];
            && |f.payload| == DATA_PAYLOAD_BYTES
            && f.items == if kind == ADC_DATA then ADC_PAIRS_PER_FRAME else GPIO_SAMPLES_PER_FRAME
  {
    hide HeaderMeets, SamplesMeet, SkewMeets, StateAfter;
  }

  lemma FrameIsTotalled(t: Totals, f: Frame)
    ensures var after := Admit(t, f);
            && after.gapFlagFrames == t.gapFlagFrames + (if Missing(t, f.sequence) > 0 then 1 else 0)
            && after.frames == t.frames + 1
            && after.items == t.items + f.items
            && after.payloadBytes == t.payloadBytes + |f.payload|
            && after.framedBytes == t.framedBytes + DATA_FRAME_BYTES
  {
    hide Missing, Wrap32, Wrap64;
  }

  lemma OneMoreTimes(n: nat, m: nat)
    ensures (n + 1) * m == n * m + m
    ensures (n + 1) * DATA_PAYLOAD_BYTES == n * DATA_PAYLOAD_BYTES + DATA_PAYLOAD_BYTES
    ensures (n + 1) * DATA_FRAME_BYTES == n * DATA_FRAME_BYTES + DATA_FRAME_BYTES
  {
  }

  /** The distance between the true ends of the two streams. */
  function TrueSkew(frames: seq<Frame>, indices: seq<nat>): nat
    requires |indices| == |frames|
  {
    Distance(NextIndex(frames, indices, ADC_DATA), NextIndex(frames, indices, GPIO_DATA))
  }

  /** The furthest the streams have been apart. */
  function LargestSkew(frames: seq<Frame>, indices: seq<nat>): nat
    requires |indices| == |frames|
  {
    if frames == [] then 0
    else Max(LargestSkew(frames[..|frames| - 1], indices[..|frames| - 1]), TrueSkew(frames, indices))
  }

  /** In such a run the skew is the true distance of the streams, the largest is recorded, and it stays within one frame
      except while gaps are expected and the streams have announced different numbers of holes. */
  lemma {:induction false} SkewIsExact(v: Settings, frames: seq<Frame>, indices: seq<nat>)
    requires |indices| == |frames| && AllAccepted(v, frames) && Numbered(frames, indices)
    ensures Skew(StateAfter(frames)) == TrueSkew(frames, indices)
    ensures StateAfter(frames).maximumFrameSkew == LargestSkew(frames, indices)
    ensures TrueSkew(frames, indices) <= 1
            || (v.allowExpectedGaps && Holes(frames, indices, ADC_DATA) != Holes(frames, indices, GPIO_DATA))
  {
    hide Numbered, Tracks, Holes, NextIndex, HeaderMeets, ShapeMeets, SamplesMeet, Missing, Wrap32, Wrap64, Continues;
    MissingIsExact(v, frames, indices, ADC_DATA);
    MissingIsExact(v, frames, indices, GPIO_DATA);
    TotalsAreExact(v, frames, indices, ADC_DATA);
    TotalsAreExact(v, frames, indices, GPIO_DATA);
    if frames != [] {
      LastIsNumbered(frames, indices, ADC_DATA);
      SkewIsExact(v, frames[..|frames| - 1], indices[..|frames| - 1]);
    }
  }

  /** The flags of a frame admitted in a tracked stream tell its true place: after a hole exactly if GAP and OVERRUN,
      at a multiple of 2^59 frames exactly if EPOCH_START; and SYNTHETIC the source. */
  lemma FlagsTellTheStream(v: Settings, t: Totals, f: Frame, i: nat)
    requires Tracks(t) && Admitted(v, t, f)
    requires f.sequence == Wrap32(i) && f.ticks == Wrap64(FRAME_COVERAGE_TICKS * i)
    requires Logical(t) <= i < Logical(t) + TWO_59
    ensures OnlyDataFlags(f.flags)
    ensures HasGapBefore(f.flags) <==> i > Logical(t)
    ensures HasOverrunBefore(f.flags) <==> i > Logical(t)
    ensures IsEpochStart(f.flags) <==> i % TWO_59 == 0
    ensures IsSynthetic(f.flags) <==> v.synthetic
  {
    ShapeHasPayload(f);
    HoleIsCounted(t, f, Logical(t), i);
    EpochIsMultiple(i);
    FlagBits(v.synthetic, f.sequence, f.ticks, Missing(t, f.sequence));
    hide Tracks, Admit, Wrap32, Wrap64, SamplesMeet, Missing, ExpectedFlags;
  }

  lemma FlagBits(synthetic: bool, sequence: nat, ticks: nat, missing: nat)
    ensures var flags := ExpectedFlags(synthetic, sequence, ticks, missing);
            && OnlyDataFlags(flags)
            && (HasGapBefore(flags) <==> missing > 0) && (HasOverrunBefore(flags) <==> missing > 0)
            && (IsEpochStart(flags) <==> sequence == 0 && ticks == 0)
            && (IsSynthetic(flags) <==> synthetic)
  {
  }

  lemma EpochIsMultiple(i: nat)
    ensures Wrap32(i) == 0 && Wrap64(FRAME_COVERAGE_TICKS * i) == 0 <==> i % TWO_59 == 0
  {
    CoverageCancels(i);
    OddFactorCancels(i);
    if i % TWO_59 == 0 {
      assert i == TWO_32 * (0x800_0000 * (i / TWO_59));
    }
  }

  /** A hole of exactly 2^59 frames is where that ends: nothing distinguishes it from no hole at all. */
  lemma HoleOfTwo59IsUnseen(t: Totals)
    requires Tracks(t)
    ensures var i := Logical(t) + TWO_59;
            && Continues(t, Wrap32(i), Wrap64(FRAME_COVERAGE_TICKS * i))
            && Missing(t, Wrap32(i)) == 0
  {
    HoleIsMeasured(t, Logical(t), Logical(t) + TWO_59);
  }

  /** Without expected gaps nothing is ever missing, and the streams stay within one frame of each other. */
  lemma {:induction false} StrictRunHasNoGaps(v: Settings, frames: seq<Frame>)
    requires AllAccepted(v, frames) && !v.allowExpectedGaps
    ensures var s := StateAfter(frames);
            && s.adc.missingFrames == 0 && s.gpio.missingFrames == 0
            && Distance(s.adc.frames, s.gpio.frames) <= 1 && s.maximumFrameSkew <= 1
            && s.adc.frames + s.gpio.frames == |frames|
  {
    if frames != [] {
      StrictRunHasNoGaps(v, frames[..|frames| - 1]);
    }
  }

  /** An accepted synthetic ADC frame holds the pairs that its place in the stream calls for, however often the
      tick counter has wrapped. */
  lemma AcceptedPairsFollowTheStream(v: Settings, t: Totals, f: Frame, k: nat)
    requires Tracks(t) && Admitted(v, t, f) && v.synthetic && f.kind == ADC_DATA && k < ADC_PAIRS_PER_FRAME
    ensures var n := Logical(t) + Missing(t, f.sequence);
            PairAt(f.payload, k) == FormulaPair(ADC_PAIRS_PER_FRAME * n + k)
  {
    AdmitTracks(t, f);
    var n := Logical(t) + Missing(t, f.sequence);
    var laps := FRAME_COVERAGE_TICKS * n / TWO_64;
    hide Missing, Wrap64, Continues, Tracks, FormulaPair, PairAt;
    TicksAreLaps(n, laps, f.ticks);
    assert ADC_PAIRS_PER_FRAME * n + k == StartOf(f) + k + (laps * 0x4_0000_0000_0000) * PERIOD_PAIRS;
    FormulaPeriod(StartOf(f) + k, laps * 0x4_0000_0000_0000);
  }

  lemma TicksAreLaps(n: nat, laps: nat, ticks: nat)
    requires ticks == Wrap64(FRAME_COVERAGE_TICKS * n) && laps == FRAME_COVERAGE_TICKS * n / TWO_64
    ensures ticks / 8 + laps * 0x2000_0000_0000_0000 == 1012 * n
    ensures ticks / 2 + laps * 0x8000_0000_0000_0000 == 4048 * n
  {
  }

  lemma AcceptedSamplesFollowTheStream(v: Settings, t: Totals, f: Frame, k: nat)
    requires Tracks(t) && Admitted(v, t, f) && v.synthetic && f.kind != ADC_DATA && k < GPIO_SAMPLES_PER_FRAME
    ensures var n := Logical(t) + Missing(t, f.sequence);
            f.payload[k] == (GPIO_SAMPLES_PER_FRAME * n + k) % 256
  {
    AdmitTracks(t, f);
    var n := Logical(t) + Missing(t, f.sequence);
    var laps := FRAME_COVERAGE_TICKS * n / TWO_64;
    hide Missing, Wrap64, Continues, Tracks;
    TicksAreLaps(n, laps, f.ticks);
    AddMultiple(StartOf(f) + k, laps * 0x80_0000_0000_0000, 256);
  }
}
