/** Fixed-width unsigned integers: wrap-around, saturation and ceilings. */
module FixedWidth {

  const TWO_32: int := 0x1_0000_0000
  const TWO_64: int := 0x1_0000_0000_0000_0000
  const MAX_32: u32 := TWO_32 - 1
  const MAX_64: u64 := TWO_64 - 1

  type u8 = x: int | 0 <= x < 256
  type u32 = x: int | 0 <= x < TWO_32
  type u64 = x: int | 0 <= x < TWO_64

  function Wrap32(x: int): u32 {
    x % TWO_32
  }

  function SaturatingAdd64(value: u64, amount: u64): u64 {
    if amount > MAX_64 - value then MAX_64 else value + amount
  }

  function SaturatingIncrement32(value: u32): u32 {
    if value == MAX_32 then MAX_32 else value + 1
  }

  function SaturatingIncrement64(value: u64): u64 {
    SaturatingAdd64(value, 1)
  }

  function Min(a: int, b: int): int {
    if a < b then a else b
  }

  function Max(a: int, b: int): int {
    if a > b then a else b
  }

  function Distance(a: int, b: int): nat {
    if a >= b then a - b else b - a
  }

  /** Every flag of either. */
  function JoinFlags(a: bv32, b: bv32): bv32 {
    a | b
  }

  lemma JoinedFlags(a: bv32, b: bv32)
    ensures JoinFlags(a, 0) == a
    ensures JoinFlags(0, JoinFlags(a, b)) == JoinFlags(JoinFlags(0, a), b)
  {
  }

  /** Counters that stay within 2^32 of each other agree once they agree modulo 2^32. */
  lemma CloseCountersAgree(base: int, a: int, b: int)
    requires Wrap32(base + a) == Wrap32(base + b)
    requires -TWO_32 < a - b < TWO_32
    ensures a == b
  {
    var q := (base + a) / TWO_32 - (base + b) / TWO_32;
    assert a - b == q * TWO_32;
  }

  lemma WrapAdd(base: int, a: int, k: int)
    ensures Wrap32(Wrap32(base + a) + k) == Wrap32(base + a + k)
  {
  }
}
