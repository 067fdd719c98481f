/** The sample patterns: precomputed tables and one wide mask against the per-item formulas they stand for. */
module Patterns {
  import opened FixedWidth
  import opened LittleEndian
  import opened WireFormat

  const PERIOD_PAIRS: nat := 2048
  const BYTES_PER_PAIR: nat := 4
  const PATTERN_BYTES: nat := PERIOD_PAIRS * BYTES_PER_PAIR
  const GPIO_REPEATS: nat := 17

  /** The two codes of synthetic pair `pair`. */
  function FormulaPair(pair: nat): (nat, nat) {
    (2 * pair % 4096, (2 * pair + 1) % 4096)
  }

  function FormulaBytes(pair: nat): (s: Bytes)
    ensures |s| == BYTES_PER_PAIR
  {
    Encode(FormulaPair(pair).0, 2) + Encode(FormulaPair(pair).1, 2)
  }

  function FormulaByte(i: nat): u8 {
    FormulaBytes(i / 4)[i % 4]
  }

  /** The codes read back from a payload. */
  function PairAt(payload: Bytes, k: nat): (nat, nat)
    requires 4 * k + 4 <= |payload|
  {
    (Decode(payload[4 * k..4 * k + 2]), Decode(payload[4 * k + 2..4 * k + 4]))
  }

  predicate FollowsAdcFormula(payload: Bytes, start: nat)
    requires |payload| == DATA_PAYLOAD_BYTES
  {
    forall k :: 0 <= k < ADC_PAIRS_PER_FRAME ==> PairAt(payload, k) == FormulaPair(start + k)
  }

  predicate FollowsGpioFormula(payload: Bytes, start: nat)
    requires |payload| == DATA_PAYLOAD_BYTES
  {
    forall k :: 0 <= k < GPIO_SAMPLES_PER_FRAME ==> payload[k] == (start + k) % 256
  }

  // ----------------------------------------------------------------- ADC table

  function AdcPattern(): (table: Bytes)
    ensures |table| == PATTERN_BYTES
  {
    seq(PATTERN_BYTES, i requires 0 <= i < PATTERN_BYTES => FormulaByte(i))
  }

  method BuildAdcPattern() returns (table: Bytes)
    ensures table == AdcPattern()
  {
    var result := new u8[PATTERN_BYTES];
    for pair := 0 to PERIOD_PAIRS
      invariant forall i :: 0 <= i < 4 * pair ==> result[i] == FormulaByte(i)
    {
      var packed := FormulaBytes(pair);
      ghost var before := result[..];
      forall k | 0 <= k < 4 {
        result[4 * pair + k] := packed[k];
      }
      forall i | 0 <= i < 4 * pair + 4
        ensures result[i] == FormulaByte(i)
      {
        if i < 4 * pair {
          assert result[i] == before[i];
        } else {
          assert result[4 * pair + (i - 4 * pair)] == packed[i - 4 * pair];
          assert i / 4 == pair && i % 4 == i - 4 * pair;
        }
      }
    }
    return result[..];
  }

  function AdcPatternDouble(): (table: Bytes)
    ensures |table| == 2 * PATTERN_BYTES
  {
    AdcPattern() + AdcPattern()
  }

  /** The bytes a synthetic ADC frame whose first pair is `start` is compared with. */
  function AdcSlice(start: nat): (s: Bytes)
    ensures |s| == DATA_PAYLOAD_BYTES
  {
    var offset := start * BYTES_PER_PAIR % PATTERN_BYTES;
    AdcPatternDouble()[offset..offset + DATA_PAYLOAD_BYTES]
  }

  lemma PatternRepeats(start: nat, j: nat)
    requires j < 2 * PATTERN_BYTES
    ensures j == start % PATTERN_BYTES + (j - start % PATTERN_BYTES)
    ensures AdcPatternDouble()[j] == FormulaByte(j)
    ensures FormulaByte(j + PATTERN_BYTES) == FormulaByte(j)
  {
    assert (j + PATTERN_BYTES) / 4 == j / 4 + PERIOD_PAIRS && (j + PATTERN_BYTES) % 4 == j % 4;
    FormulaPeriod(j / 4, 1);
    if j >= PATTERN_BYTES {
      FormulaPeriod((j - PATTERN_BYTES) / 4, 1);
      assert j / 4 == (j - PATTERN_BYTES) / 4 + PERIOD_PAIRS && j % 4 == (j - PATTERN_BYTES) % 4;
    }
  }

  /** The codes of a synthetic stream count up from zero modulo 4096, two to a pair. */
  lemma CodesCountUp(pair: nat)
    ensures FormulaPair(0) == (0, 1)
    ensures FormulaPair(pair).1 == (FormulaPair(pair).0 + 1) % 4096
    ensures FormulaPair(pair + 1).0 == (FormulaPair(pair).1 + 1) % 4096
  {
    var lap := 2 * pair / 4096;
    assert 2 * pair == 2 * pair % 4096 + 4096 * lap;
  }

  /** The pair formula repeats every 2048 pairs. */
  lemma FormulaPeriod(pair: nat, n: nat)
    ensures FormulaPair(pair + n * PERIOD_PAIRS) == FormulaPair(pair)
  {
    assert 2 * (pair + n * PERIOD_PAIRS) == 2 * pair + n * 4096;
    AddMultiple(2 * pair, n, 4096);
    AddMultiple(2 * pair + 1, n, 4096);
  }

  lemma AddMultiple(a: int, n: int, m: nat)
    requires m > 0
    ensures (a + n * m) % m == a % m
  {
    var q := a / m;
    assert a + n * m == (q + n) * m + a % m;
    Remainder(q + n, a % m, m);
  }

  lemma Remainder(q: int, r: nat, m: nat)
    requires r < m
    ensures (q * m + r) % m == r
  {
    var n := q * m + r;
    assert n == m * (n / m) + n % m;
    assert m * (q - n / m) == n % m - r;
    NonzeroMultiple(m, q - n / m);
  }

  lemma NonzeroMultiple(m: nat, d: int)
    ensures d > 0 ==> m * d >= m
    ensures d < 0 ==> m * d + m <= 0
  {
  }

  lemma SliceAt(start: nat, k: nat, b: nat)
    requires k < ADC_PAIRS_PER_FRAME && b < 4
    ensures AdcSlice(start)[4 * k + b] == FormulaBytes(start + k)[b]
  {
    var offset := start * BYTES_PER_PAIR % PATTERN_BYTES;
    var n := start / PERIOD_PAIRS;
    var first := start % PERIOD_PAIRS;
    assert start == first + n * PERIOD_PAIRS;
    assert start * BYTES_PER_PAIR == n * PATTERN_BYTES + 4 * first;
    Remainder(n, 4 * first, PATTERN_BYTES);
    assert offset == 4 * first;
    var j := offset + 4 * k + b;
    PatternRepeats(0, j);
    assert j / 4 == first + k && j % 4 == b;
    FormulaPeriod(first + k, n);
  }

  lemma PairIsPacked(s: Bytes, pair: nat)
    requires |s| == 4
    ensures s == FormulaBytes(pair) <==> (Decode(s[..2]), Decode(s[2..4])) == FormulaPair(pair)
  {
    var (a, b) := FormulaPair(pair);
    assert Capacity(2) == 65536;
    DecodeEncode(a, 2);
    DecodeEncode(b, 2);
    EncodeDecode(s[..2]);
    EncodeDecode(s[2..4]);
    assert s == s[..2] + s[2..4];
    assert FormulaBytes(pair)[..2] == Encode(a, 2) && FormulaBytes(pair)[2..4] == Encode(b, 2);
  }

  lemma PairMatches(payload: Bytes, start: nat, k: nat)
    requires |payload| == DATA_PAYLOAD_BYTES && k < ADC_PAIRS_PER_FRAME
    ensures PairAt(payload, k) == FormulaPair(start + k) <==>
              payload[4 * k..4 * k + 4] == AdcSlice(start)[4 * k..4 * k + 4]
  {
    var s, t := payload[4 * k..4 * k + 4], AdcSlice(start)[4 * k..4 * k + 4];
    assert s[..2] == payload[4 * k..4 * k + 2] && s[2..4] == payload[4 * k + 2..4 * k + 4];
    PairIsPacked(s, start + k);
    forall b | 0 <= b < 4
      ensures t[b] == FormulaBytes(start + k)[b]
    {
      SliceAt(start, k, b);
    }
    assert t == FormulaBytes(start + k);
  }

  /** Equality with one slice of the doubled table is the formula for every pair. */
  lemma SliceIsFormula(payload: Bytes, start: nat)
    requires |payload| == DATA_PAYLOAD_BYTES
    ensures payload == AdcSlice(start) <==> FollowsAdcFormula(payload, start)
  {
    hide AdcSlice, FormulaPair, PairAt;
    if payload == AdcSlice(start) {
      forall k | 0 <= k < ADC_PAIRS_PER_FRAME
        ensures PairAt(payload, k) == FormulaPair(start + k)
      {
        PairMatches(payload, start, k);
      }
    }
    if FollowsAdcFormula(payload, start) {
      forall i | 0 <= i < DATA_PAYLOAD_BYTES
        ensures payload[i] == AdcSlice(start)[i]
      {
        var k, b := i / 4, i % 4;
        PairMatches(payload, start, k);
        assert payload[4 * k..4 * k + 4][b] == AdcSlice(start)[4 * k..4 * k + 4][b];
      }
    }
  }

  // ---------------------------------------------------------------- GPIO table

  function Repeated(s: Bytes, n: nat): (table: Bytes)
    ensures |table| == n * |s|
  {
    if n == 0 then [] else s + Repeated(s, n - 1)
  }

  function AllBytes(): (s: Bytes)
    ensures |s| == 256
  {
    seq(256, i requires 0 <= i < 256 => i)
  }

  function GpioPatternExpanded(): (table: Bytes)
    ensures |table| == 256 * GPIO_REPEATS
  {
    Repeated(AllBytes(), GPIO_REPEATS)
  }

  lemma {:induction false} RepeatedAt(n: nat, i: nat)
    requires i < 256 * n
    ensures |Repeated(AllBytes(), n)| == 256 * n
    ensures Repeated(AllBytes(), n)[i] == i % 256
  {
    if i >= 256 {
      RepeatedAt(n - 1, i - 256);
    }
  }

  /** The bytes a synthetic GPIO frame whose first sample is `start` is compared with. */
  function GpioSlice(start: nat): (s: Bytes)
    ensures |s| == DATA_PAYLOAD_BYTES
  {
    GpioPatternExpanded()[start % 256..start % 256 + DATA_PAYLOAD_BYTES]
  }

  lemma GpioSliceAt(start: nat, k: nat)
    requires k < DATA_PAYLOAD_BYTES
    ensures GpioSlice(start)[k] == (start + k) % 256
  {
    hide Repeated, AllBytes;
    RepeatedAt(GPIO_REPEATS, start % 256 + k);
  }

  lemma GpioSliceIsFormula(payload: Bytes, start: nat)
    requires |payload| == DATA_PAYLOAD_BYTES
    ensures payload == GpioSlice(start) <==> FollowsGpioFormula(payload, start)
  {
    hide GpioSlice;
    forall k | 0 <= k < DATA_PAYLOAD_BYTES
      ensures GpioSlice(start)[k] == (start + k) % 256
    {
      GpioSliceAt(start, k);
    }
    if FollowsGpioFormula(payload, start) {
      assert forall k :: 0 <= k < DATA_PAYLOAD_BYTES ==> payload[k] == GpioSlice(start)[k];
    }
  }

  // ----------------------------------------------------------------- wide mask

  /** `x` shifted left by `n` bits. */
  function Shift(x: nat, n: nat): (s: nat)
    ensures s >= x
  {
    if n == 0 then x else 2 * Shift(x, n - 1)
  }

  /** Bitwise AND of naturals of any width. */
  function BitAnd(a: nat, b: nat): nat
    decreases a
  {
    if a == 0 then 0 else a % 2 * (b % 2) + 2 * BitAnd(a / 2, b / 2)
  }

  lemma {:induction false} AndZero(a: nat)
    ensures BitAnd(a, 0) == 0
  {
    if a > 0 {
      AndZero(a / 2);
    }
  }

  lemma {:induction false} AndOnes(a: nat, n: nat)
    requires a < Shift(1, n)
    ensures BitAnd(a, Shift(1, n) - 1) == a
  {
    if a > 0 {
      AndOnes(a / 2, n - 1);
      assert (Shift(1, n) - 1) % 2 == 1 && (Shift(1, n) - 1) / 2 == Shift(1, n - 1) - 1;
    }
  }

  /** AND of the low `n` bits and of the rest, apart. */
  lemma {:induction false} AndSplits(a: nat, b: nat, x: nat, y: nat, n: nat)
    requires a < Shift(1, n) && b < Shift(1, n)
    ensures BitAnd(a + Shift(x, n), b + Shift(y, n)) == BitAnd(a, b) + Shift(BitAnd(x, y), n)
  {
    if n > 0 {
      AndSplits(a / 2, b / 2, x, y, n - 1);
      AndStep(a, b);
      AndStep(a + Shift(x, n), b + Shift(y, n));
      hide BitAnd;
      Halve(a, Shift(x, n - 1));
      Halve(b, Shift(y, n - 1));
    }
  }

  lemma Halve(a: nat, z: nat)
    ensures (a + 2 * z) % 2 == a % 2 && (a + 2 * z) / 2 == a / 2 + z
  {
  }

  lemma AndStep(a: nat, b: nat)
    ensures BitAnd(a, b) == a % 2 * (b % 2) + 2 * BitAnd(a / 2, b / 2)
  {
  }

  /** AND byte by byte. */
  lemma AndOfBytes(a: nat, b: nat, x: nat, y: nat)
    requires a < 256 && b < 256
    ensures BitAnd(a + 256 * x, b + 256 * y) == BitAnd(a, b) + 256 * BitAnd(x, y)
  {
    ShiftByEight(1);
    ShiftByEight(x);
    ShiftByEight(y);
    ShiftByEight(BitAnd(x, y));
    AndSplits(a, b, x, y, 8);
  }

  lemma ShiftByEight(x: nat)
    ensures Shift(x, 8) == 256 * x && Shift(x, 4) == 16 * x
  {
    for n := 1 to 9
      invariant Shift(x, n - 1) == x * [1, 2, 4, 8, 16, 32, 64, 128, 256][n - 1]
      invariant n > 4 ==> Shift(x, 4) == 16 * x
    {
    }
  }

  /** Within one byte, the mask picks out the high half. */
  lemma HighHalf(b: u8)
    ensures BitAnd(b, 0xF0) == 0 <==> b < 16
  {
    ShiftByEight(1);
    ShiftByEight(b / 16);
    ShiftByEight(15);
    ShiftByEight(BitAnd(b / 16, 15));
    AndSplits(b % 16, 0, b / 16, 15, 4);
    AndZero(b % 16);
    AndOnes(b / 16, 4);
  }

  function OutOfRangeMask(n: nat): nat {
    Decode(Repeated([0x00, 0xF0], n))
  }

  function Code(payload: Bytes, k: nat): nat
    requires 2 * k + 2 <= |payload|
  {
    Decode(payload[2 * k..2 * k + 2])
  }

  predicate CodesInRange(payload: Bytes) {
    forall k :: 0 <= k < |payload| / 2 ==> Code(payload, k) <= 4095
  }

  lemma DecodeTwo(s: Bytes)
    requires |s| >= 2
    ensures Decode(s) == s[0] as int + 256 * (s[1] as int + 256 * Decode(s[2..]))
    ensures Decode(s[..2]) == s[0] as int + 256 * s[1] as int
  {
    assert s[1..][1..] == s[2..];
    assert s[..2][1..] == [s[1]];
    assert [s[1]][1..] == [];
  }

  lemma MaskStep(x: nat, y: nat, rest: nat, mask: nat)
    requires x < 256 && y < 256
    ensures BitAnd(x + 256 * (y + 256 * rest), 0 + 256 * (0xF0 + 256 * mask)) == 0 <==>
              y < 16 && BitAnd(rest, mask) == 0
  {
    hide BitAnd;
    AndOfBytes(x, 0, y + 256 * rest, 0xF0 + 256 * mask);
    AndZero(x);
    AndOfBytes(y, 0xF0, rest, mask);
    HighHalf(y);
  }

  lemma MaskHead(n: nat)
    requires n > 0
    ensures OutOfRangeMask(n) == 0 + 256 * (0xF0 + 256 * OutOfRangeMask(n - 1))
  {
    var mask := Repeated([0x00, 0xF0], n);
    DecodeTwo(mask);
    assert mask[2..] == Repeated([0x00, 0xF0], n - 1);
  }

  /** One AND over the whole payload is the range check of every little-endian code in it. */
  lemma {:induction false} MaskIsRange(payload: Bytes)
    requires |payload| % 2 == 0
    ensures BitAnd(Decode(payload), OutOfRangeMask(|payload| / 2)) == 0 <==> CodesInRange(payload)
    decreases |payload|
  {
    if payload != [] {
      var rest := payload[2..];
      MaskIsRange(rest);
      hide BitAnd, OutOfRangeMask, Decode, CodesInRange;
      DecodeTwo(payload);
      MaskHead(|payload| / 2);
      MaskStep(payload[0], payload[1], Decode(rest), OutOfRangeMask(|rest| / 2));
      CodesSplit(payload);
    }
  }

  lemma CodesSplit(payload: Bytes)
    requires |payload| >= 2 && |payload| % 2 == 0
    ensures CodesInRange(payload) <==> payload[1] < 16 && CodesInRange(payload[2..])
  {
    var rest := payload[2..];
    DecodeTwo(payload);
    assert payload[2 * 0..2 * 0 + 2] == payload[..2];
    assert Code(payload, 0) == payload[0] as int + 256 * payload[1] as int;
    forall k | 0 <= k < |rest| / 2
      ensures Code(rest, k) == Code(payload, k + 1)
    {
      assert rest[2 * k..2 * k + 2] == payload[2 * (k + 1)..2 * (k + 1) + 2];
    }
    hide Code;
    if payload[1] < 16 && CodesInRange(rest) {
      forall k | 0 <= k < |payload| / 2
        ensures Code(payload, k) <= 4095
      {
        if k > 0 {
          assert Code(rest, k - 1) == Code(payload, k);
        }
      }
    }
  }
}
