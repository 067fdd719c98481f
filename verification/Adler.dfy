/** Adler-32, section 8.2 of RFC 1950, and what it detects. */
module Adler {
  import opened FixedWidth
  import opened LittleEndian

  /** The largest prime below 2^16. */
  const BASE: nat := 65521

  /** s1: one more than the sum of the bytes. */
  function Low(s: Bytes): (a: nat)
    ensures a < BASE
  {
    if s == [] then 1 else (Low(s[..|s| - 1]) + s[|s| - 1]) % BASE
  }

  /** s2: the sum of every s1 along the way. */
  function High(s: Bytes): (b: nat)
    ensures b < BASE
  {
    if s == [] then 0 else (High(s[..|s| - 1]) + Low(s)) % BASE
  }

  function Adler32(s: Bytes): (checksum: u32)
    ensures checksum % 65536 == Low(s) && checksum / 65536 == High(s)
  {
    High(s) * 65536 + Low(s)
  }

  lemma LastByte(s: Bytes)
    requires s != []
    ensures var (init, last) := (s[..|s| - 1], s[|s| - 1]);
            Low(s) == (Low(init) + last) % BASE && High(s) == (High(init) + (Low(init) + last) % BASE) % BASE
  {
  }

  // ------------------------------------------------- the sums of section 8.2

  /** The sum of the bytes. */
  function Sum(s: Bytes): nat {
    if s == [] then 0 else Sum(s[..|s| - 1]) + s[|s| - 1]
  }

  /** The sum of the bytes, each as often as it is summed along the way: the first `|s|` times, the last once. */
  function Weighted(s: Bytes): nat {
    if s == [] then 0 else Weighted(s[..|s| - 1]) + Sum(s)
  }

  /** The checksum is that of the standard: one and the bytes in its low half, their running sums in its high half. */
  lemma {:induction false} SumsOfTheStandard(s: Bytes)
    ensures Low(s) == (1 + Sum(s)) % BASE
    ensures High(s) == (|s| + Weighted(s)) % BASE
  {
    if s != [] {
      var init := s[..|s| - 1];
      SumsOfTheStandard(init);
      RemainderAdds(1 + Sum(init), s[|s| - 1]);
      RemainderAdds(|init| + Weighted(init), Low(s));
      RemainderAdds(1 + Sum(s), |init| + Weighted(init));
      hide Low, High;
      LastByte(s);
    }
  }

  lemma RemainderAdds(a: nat, b: nat)
    ensures (a % BASE + b) % BASE == (a + b) % BASE
  {
    var k := a / BASE;
    assert a + b == a % BASE + b + k * BASE;
  }

  // -------------------------------------------- what changing bytes adds to the sums

  predicate Congruent(a: int, b: int) {
    (a - b) % BASE == 0
  }

  /** `t` has sums congruent to those of `s` moved by `low` and `high`. */
  predicate Moved(s: Bytes, t: Bytes, low: int, high: int) {
    Congruent(Low(t), Low(s) + low) && Congruent(High(t), High(s) + high)
  }

  /** Changing byte `i` of `n` by `d` moves the first sum by `d` and the second by `(n - i) * d`. */
  lemma {:induction false} ChangeMoves(s: Bytes, t: Bytes, i: nat, x: u8)
    requires i < |s| && t == s[i := x]
    ensures Moved(s, t, x - s[i], Times(|s| - i, x - s[i]))
    decreases |s|
  {
    hide Low, High, Congruent;
    var n := |s| - 1;
    LastByte(s);
    LastByte(t);
    if i == n {
      assert t[..n] == s[..n];
      StepMoves(Low(s[..n]), Low(s[..n]), High(s[..n]), High(s[..n]), x, s[i], 0, 0);
    } else {
      assert t[..n] == s[..n][i := x];
      ChangeMoves(s[..n], t[..n], i, x);
      StepMoves(Low(t[..n]), Low(s[..n]), High(t[..n]), High(s[..n]), s[n], s[n], x - s[i], Times(n - i, x - s[i]));
    }
  }

  function Times(k: nat, d: int): int {
    if k == 0 then 0 else Times(k - 1, d) + d
  }

  lemma StepMoves(a: nat, a0: nat, b: nat, b0: nat, y: int, y0: int, low: int, high: int)
    requires Congruent(a, a0 + low) || (a == a0 && low == 0)
    requires Congruent(b, b0 + high) || (b == b0 && high == 0)
    ensures Congruent((a + y) % BASE, (a0 + y0) % BASE + (low + (y - y0)))
    ensures Congruent((b + (a + y) % BASE) % BASE, (b0 + (a0 + y0) % BASE) % BASE + (high + low + (y - y0)))
  {
    Same(a);
    Same(b);
    hide Congruent;
    var (p, q) := ((a + y) % BASE, (a0 + y0) % BASE);
    Same(y);
    SumMoves(a, a0, y, y0, low, y - y0);
    SumMoves(b, b0, p, q, high, low + (y - y0));
  }

  /** The reduced sums of congruent numbers move alike. */
  lemma SumMoves(b: int, b0: int, p: int, q: int, high: int, low: int)
    requires Congruent(b, b0 + high) && Congruent(p, q + low)
    ensures Congruent((b + p) % BASE, (b0 + q) % BASE + (high + low))
  {
    hide Congruent;
    Reduced(b + p);
    Adds(b, b0 + high, p, q + low);
    Chains((b + p) % BASE, b + p, b0 + high + (q + low));
    Reduced(b0 + q);
    Flips((b0 + q) % BASE, b0 + q);
    Same(high + low);
    Adds(b0 + q, (b0 + q) % BASE, high + low, high + low);
    Chains((b + p) % BASE, b0 + q + (high + low), (b0 + q) % BASE + (high + low));
  }

  lemma Same(a: int)
    ensures Congruent(a, a)
  {
  }

  lemma Flips(a: int, b: int)
    requires Congruent(a, b)
    ensures Congruent(b, a)
  {
    assert b - a == -((a - b) / BASE) * BASE;
    Multiple(-((a - b) / BASE));
  }

  lemma Adds(a: int, b: int, c: int, d: int)
    requires Congruent(a, b) && Congruent(c, d)
    ensures Congruent(a + c, b + d)
  {
    var k := (a - b) / BASE + (c - d) / BASE;
    assert a + c - (b + d) == k * BASE;
    Multiple(k);
  }

  lemma Chains(a: int, b: int, c: int)
    requires Congruent(a, b) && Congruent(b, c)
    ensures Congruent(a, c)
  {
    var k := (a - b) / BASE + (b - c) / BASE;
    assert a - c == k * BASE;
    Multiple(k);
  }

  lemma Reduced(n: int)
    ensures Congruent(n % BASE, n)
  {
    assert n % BASE - n == -(n / BASE) * BASE;
    Multiple(-(n / BASE));
  }

  lemma Multiple(k: int)
    ensures (k * BASE) % BASE == 0
  {
  }

  // ------------------------------------------------------------ the base is prime

  lemma NoByteDivides(a: nat)
    requires 2 <= a <= 255
    ensures 65521 % a != 0
  {
    if a < 64 {
    } else if a < 128 {
    } else if a < 192 {
    } else {
    }
  }

  /** What the base leaves when divided by `a` shares every factor of the base that `a` has. */
  lemma RemainderShares(a: nat, k: nat)
    requires a > 0 && (a * k) % BASE == 0
    ensures (BASE % a * k) % BASE == 0
  {
    var (q, r) := (BASE / a, BASE % a);
    var m := (a * k) / BASE;
    assert a * k == BASE * m;
    assert r * k == BASE * k - q * (a * k);
    assert r * k == (k - q * m) * BASE;
    Multiple(k - q * m);
  }

  /** Euclid's descent: the base divides no product of a byte's difference and a smaller number. */
  lemma {:induction false} NoFactors(a: nat, k: nat)
    requires 1 <= a <= 255 && 0 < k < BASE
    ensures (a * k) % BASE != 0
    decreases a
  {
    if a > 1 && (a * k) % BASE == 0 {
      NoByteDivides(a);
      RemainderShares(a, k);
      NoFactors(BASE % a, k);
    }
  }

  // -------------------------------------------------------------------- detection

  lemma {:induction false} TimesIsProduct(k: nat, d: int)
    ensures Times(k, d) == k * d
  {
    if k > 0 {
      TimesIsProduct(k - 1, d);
    }
  }

  lemma ProductNotCongruent(k: nat, d: int)
    requires 0 < k < BASE && d != 0 && -255 <= d <= 255
    ensures (k * d) % BASE != 0
  {
    if d > 0 {
      NoFactors(d, k);
      assert d * k == k * d;
    } else {
      NoFactors(-d, k);
      assert k * d == -(-d * k);
      if (k * d) % BASE == 0 {
        var m := (k * d) / BASE;
        assert -d * k == -m * BASE;
        Multiple(-m);
        assert false;
      }
    }
  }

  /** Two moves that lead back to where they began add up to a multiple of the base. */
  lemma Cancel(from: int, through: int, to: int, first: int, second: int)
    requires Congruent(through, from + first) && Congruent(to, through + second) && to == from
    ensures (first + second) % BASE == 0
  {
  }

  /** Weighted by different counts, two differences of bytes never cancel in both sums. */
  lemma NeverBothCancel(d: int, e: int, m: nat, n: nat)
    requires -255 <= d <= 255 && -255 <= e <= 255 && (d != 0 || e != 0)
    requires n < m < n + BASE
    ensures (d + e) % BASE != 0 || (m * d + n * e) % BASE != 0
  {
    if (d + e) % BASE == 0 {
      assert e == -d;
      assert m * d + n * e == (m - n) * d;
      ProductNotCongruent(m - n, d);
    }
  }

  /** Changing one byte or two bytes less than 65521 apart always changes the checksum. */
  lemma TwoBytesDetected(s: Bytes, i: nat, x: u8, j: nat, y: u8)
    requires i < j < |s| && j - i < BASE
    requires x != s[i] || y != s[j]
    ensures Adler32(s[i := x][j := y]) != Adler32(s)
  {
    hide Low, High, Times, Congruent;
    var (t, d, e) := (s[i := x], x - s[i], y - s[j]);
    var u := t[j := y];
    ChangeMoves(s, t, i, x);
    ChangeMoves(t, u, j, y);
    TimesIsProduct(|s| - i, d);
    TimesIsProduct(|s| - j, e);
    NeverBothCancel(d, e, |s| - i, |s| - j);
    if Low(u) == Low(s) {
      Cancel(Low(s), Low(t), Low(u), d, e);
    }
    if High(u) == High(s) {
      Cancel(High(s), High(t), High(u), (|s| - i) * d, (|s| - j) * e);
    }
  }
}
