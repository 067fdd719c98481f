/** Sequence numbers modulo 2^32 and ticks modulo 2^64 against the true, unbounded index of each frame. */
module Continuity {
  import opened FixedWidth
  import opened WireFormat

  const FRAME_COVERAGE_TICKS: nat := 8096
  const MAX_FORWARD: nat := 0x7FFFFFFF
  const TWO_59: nat := 0x800_0000_0000_0000

  function Wrap64(n: int): u64 {
    n % TWO_64
  }

  datatype Totals = Totals(
    expectedSequence: u32, expectedTicks: u64, frames: nat, missingFrames: nat, gapFlagFrames: nat,
    items: nat, payloadBytes: nat, framedBytes: nat)

  const NO_TOTALS := Totals(0, 0, 0, 0, 0, 0, 0, 0)

  /** Frames seen and frames missed. */
  function Logical(t: Totals): nat {
    t.frames + t.missingFrames
  }

  /** The expectations are those of the frame after everything seen and missed. */
  predicate Tracks(t: Totals) {
    && t.expectedSequence == Wrap32(Logical(t))
    && t.expectedTicks == Wrap64(FRAME_COVERAGE_TICKS * Logical(t))
    && t.framedBytes == DATA_FRAME_BYTES * t.frames
    && t.payloadBytes == DATA_PAYLOAD_BYTES * t.frames
    && t.gapFlagFrames <= t.missingFrames
  }

  /** How many frames the sequence number says were skipped. */
  function Missing(t: Totals, sequence: int): u32 {
    Wrap32(sequence - t.expectedSequence)
  }

  /** The sequence number does not go backwards, and the ticks agree with it. */
  predicate Continues(t: Totals, sequence: int, ticks: int) {
    && Missing(t, sequence) <= MAX_FORWARD
    && ticks == Wrap64(t.expectedTicks + Missing(t, sequence) * FRAME_COVERAGE_TICKS)
  }

  /** The totals after an accepted frame. */
  function Admit(t: Totals, f: Frame): Totals {
    var missing := Missing(t, f.sequence);
    Totals(Wrap32(f.sequence + 1), Wrap64(f.ticks + FRAME_COVERAGE_TICKS), t.frames + 1,
           t.missingFrames + missing, t.gapFlagFrames + (if missing > 0 then 1 else 0),
           t.items + f.items, t.payloadBytes + |f.payload|, t.framedBytes + DATA_FRAME_BYTES)
  }

  lemma Wrap64Adds(a: int, k: int)
    ensures Wrap64(Wrap64(a) + k) == Wrap64(a + k)
  {
  }

  lemma Wrap32Adds(a: int, k: int)
    ensures Wrap32(Wrap32(a) + k) == Wrap32(a + k)
  {
  }

  /** `Missing` leads from the expected sequence number to the one seen. */
  lemma MissingLeads(t: Totals, sequence: int)
    ensures Wrap32(t.expectedSequence + Missing(t, sequence)) == Wrap32(sequence)
  {
    Wrap32Adds(sequence - t.expectedSequence, t.expectedSequence);
  }

  lemma AdmitTracks(t: Totals, f: Frame)
    requires Tracks(t) && Continues(t, f.sequence, f.ticks) && |f.payload| == DATA_PAYLOAD_BYTES
    ensures Tracks(Admit(t, f))
    ensures Logical(Admit(t, f)) == Logical(t) + Missing(t, f.sequence) + 1
    ensures f.ticks == Wrap64(FRAME_COVERAGE_TICKS * (Logical(t) + Missing(t, f.sequence)))
  {
    var (n, m) := (Logical(t), Missing(t, f.sequence));
    MissingLeads(t, f.sequence);
    hide Wrap32, Wrap64, Missing;
    Wrap32Adds(n, m);
    Wrap32Adds(f.sequence, 1);
    Wrap32Adds(n + m, 1);
    Wrap64Adds(FRAME_COVERAGE_TICKS * n, m * FRAME_COVERAGE_TICKS);
    Wrap64Adds(FRAME_COVERAGE_TICKS * (n + m), FRAME_COVERAGE_TICKS);
    assert FRAME_COVERAGE_TICKS * n + m * FRAME_COVERAGE_TICKS == FRAME_COVERAGE_TICKS * (n + m);
    assert FRAME_COVERAGE_TICKS * (n + m) + FRAME_COVERAGE_TICKS == FRAME_COVERAGE_TICKS * (n + m + 1);
  }

  // ----------------------------------------------------- what a hole looks like

  lemma CoverageCancels(x: int)
    ensures (8096 * x) % TWO_64 == 0 <==> (253 * x) % TWO_59 == 0
  {
    var y := 253 * x;
    assert 8096 * x == 32 * y && TWO_64 == 32 * TWO_59;
  }

  /** 253 is odd, so it has an inverse modulo 2^59. */
  lemma OddFactorCancels(x: int)
    ensures (253 * x) % TWO_59 == 0 <==> x % TWO_59 == 0
  {
    var (k, l) := (253 * x / TWO_59, x / TWO_59);
    if (253 * x) % TWO_59 == 0 {
      var z := InverseApplied(x, k);
      Multiple59(z);
    } else if x % TWO_59 == 0 {
      Multiple59(253 * l);
    }
  }

  lemma InverseApplied(x: int, k: int) returns (z: int)
    requires 253 * x == 0x800_0000_0000_0000 * k
    ensures x == 0x800_0000_0000_0000 * z
  {
    z := 546840239339215957 * k - 240 * x;
    assert 546840239339215957 * (253 * x) == 138350580552821637121 * x;
  }

  lemma Multiple59(z: int)
    ensures (0x800_0000_0000_0000 * z) % TWO_59 == 0
  {
  }

  /** Two numbers wrap alike exactly when they differ by a multiple. */
  lemma WrapsAlike(a: int, b: int)
    ensures Wrap64(a) == Wrap64(b) <==> (a - b) % TWO_64 == 0
  {
  }

  lemma HoleRemainder(d: int, m: int)
    requires m == d % TWO_32
    ensures m <= MAX_FORWARD && (d - m) % TWO_59 == 0 <==> d % TWO_59 <= MAX_FORWARD
    ensures m <= MAX_FORWARD && (d - m) % TWO_59 == 0 ==> m == d % TWO_59
  {
    var (q, r) := (d / TWO_59, d % TWO_59);
    assert d == TWO_59 * q + r && TWO_59 == TWO_32 * 0x800_0000;
    assert d == TWO_32 * (0x800_0000 * q) + r;
  }

  /** A frame whose true index lies `i - n` past the expected one is accepted exactly when that distance, modulo
      2^59, is at most 2^31 - 1; and what is then counted missing is the distance modulo 2^59. */
  lemma HoleIsMeasured(t: Totals, n: nat, i: nat)
    requires t.expectedSequence == Wrap32(n) && t.expectedTicks == Wrap64(FRAME_COVERAGE_TICKS * n)
    ensures Continues(t, Wrap32(i), Wrap64(FRAME_COVERAGE_TICKS * i)) <==> (i - n) % TWO_59 <= MAX_FORWARD
    ensures Continues(t, Wrap32(i), Wrap64(FRAME_COVERAGE_TICKS * i)) ==>
              Missing(t, Wrap32(i)) == (i - n) % TWO_59
  {
    var m := Missing(t, Wrap32(i));
    MissingIsRemainder(t, n, i);
    HoleRemainder(i - n, m);
    hide Wrap32, Wrap64, Missing;
    Wrap64Adds(FRAME_COVERAGE_TICKS * n, m * FRAME_COVERAGE_TICKS);
    WrapsAlike(FRAME_COVERAGE_TICKS * i, FRAME_COVERAGE_TICKS * n + m * FRAME_COVERAGE_TICKS);
    assert FRAME_COVERAGE_TICKS * i - (FRAME_COVERAGE_TICKS * n + m * FRAME_COVERAGE_TICKS) == 8096 * (i - n - m);
    CoverageCancels(i - n - m);
    OddFactorCancels(i - n - m);
  }

  lemma MissingIsRemainder(t: Totals, n: nat, i: nat)
    requires t.expectedSequence == Wrap32(n)
    ensures Missing(t, Wrap32(i)) == (i - n) % TWO_32
  {
  }
}
