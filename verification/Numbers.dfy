/** Machine integers of the bridge program, as bounded subsets of `int`. */
module Numbers {

  const U64_MAX := 0xffff_ffff_ffff_ffff
  const U128_MAX := 0xffff_ffff_ffff_ffff_ffff_ffff_ffff_ffff
  const U64_SIZE := 0x1_0000_0000_0000_0000

  type u8 = x: int | 0 <= x < 0x100
  type u16 = x: int | 0 <= x < 0x1_0000
  type u32 = x: int | 0 <= x < 0x1_0000_0000
  type u64 = x: int | 0 <= x <= U64_MAX
  type u128 = x: int | 0 <= x <= U128_MAX

  type Bytes = seq<u8>
  type Bytes32 = b: Bytes | |b| == 32 witness ZERO_32

  const ZERO_32: Bytes :=
    [0, 0, 0, 0, 0, 0, 0, 0, 0, 0, 0, 0, 0, 0, 0, 0, 0, 0, 0, 0, 0, 0, 0, 0, 0, 0, 0, 0, 0, 0, 0, 0]

  /** Account keys are 32 opaque bytes. */
  type Pubkey = Bytes32

  function Min(x: int, y: int): int {
    if x <= y then x else y
  }

  function Max(x: int, y: int): int {
    if x <= y then y else x
  }

  function SaturatingAdd(x: u64, y: u64): u64 {
    Min(x + y, U64_MAX)
  }

  function SaturatingMul(x: u64, y: u64): u64 {
    if x * y > U64_MAX then U64_MAX else MulNonNegative(x, y); x * y
  }

  lemma MulNonNegative(x: int, y: int)
    requires 0 <= x && 0 <= y
    ensures 0 <= x * y
  {
  }

  function Pow(base: nat, exponent: nat): nat {
    if exponent == 0 then 1 else base * Pow(base, exponent - 1)
  }

  lemma {:induction false} PowPositive(base: nat, exponent: nat)
    requires base > 0
    ensures Pow(base, exponent) >= 1
  {
    if exponent > 0 {
      PowPositive(base, exponent - 1);
    }
  }

  lemma {:induction false} PowMonotone(base: nat, low: nat, high: nat)
    requires base > 0 && low <= high
    ensures Pow(base, low) <= Pow(base, high)
    decreases high
  {
    if low < high {
      PowMonotone(base, low, high - 1);
      MulMonotone(1, base, Pow(base, high - 1));
    }
  }

  // ---- Division facts; every proof below works on one product at a time ----

  /** `q` is the quotient as soon as it brackets the dividend. */
  lemma QuotientUnique(n: int, d: int, q: int)
    requires d > 0
    requires q * d <= n < (q + 1) * d
    ensures n / d == q
  {
    QuotientAtLeast(n, d, q);
    QuotientAtLeast(n, d, q + 1);
  }

  /** Comparison with a floor quotient, without the quotient. */
  lemma QuotientAtLeast(n: int, d: int, q: int)
    requires d > 0
    ensures q <= n / d <==> q * d <= n
  {
    var r := n / d;
    assert r * d <= n < (r + 1) * d;
    if q <= r {
      assert q * d <= r * d;
    } else {
      assert (r + 1) * d <= q * d;
    }
  }

  lemma QuotientBounds(n: nat, d: nat)
    requires d > 0
    ensures 0 <= n / d <= n
  {
    QuotientAtLeast(n, d, 0);
    QuotientAtLeast(n, d, n + 1);
    MulNonNegative(n + 1, d - 1);
    assert (n + 1) * d == (n + 1) * (d - 1) + n + 1;
  }

  lemma ProductBound(x: nat, y: nat, xMax: nat, yMax: nat)
    requires x <= xMax && y <= yMax
    ensures 0 <= x * y <= xMax * yMax
  {
    assert x * y <= x * yMax <= xMax * yMax;
  }

  lemma MulMonotone(x: int, y: int, factor: nat)
    requires x <= y
    ensures x * factor <= y * factor
  {
    MulNonNegative(y - x, factor);
    assert y * factor == x * factor + (y - x) * factor;
  }

  lemma QuotientMonotone(m: int, n: int, d: int)
    requires d > 0 && m <= n
    ensures m / d <= n / d
  {
    QuotientAtLeast(n, d, m / d);
  }

  lemma QuotientOfQuotient(n: nat, d: nat, e: nat)
    requires d > 0 && e > 0
    ensures d * e > 0 && n / d / e == n / (d * e)
  {
    var q := n / d / e;
    MulMonotone(1, d, e);
    QuotientAtLeast(n, d, q * e);
    QuotientAtLeast(n, d, (q + 1) * e);
    assert q * e * d == q * (d * e) && (q + 1) * e * d == (q + 1) * (d * e);
    QuotientUnique(n, d * e, q);
  }

  lemma MultipleDivides(q: int, d: int)
    requires d > 0
    ensures q * d / d == q && q * d % d == 0
  {
    QuotientUnique(q * d, d, q);
  }

  /** Adding a multiple of the divisor adds its quotient and keeps the remainder. */
  lemma AddMultiple(n: int, m: int, d: int)
    requires d > 0 && m % d == 0
    ensures (n + m) / d == n / d + m / d
    ensures (n + m) % d == n % d
  {
    var q := n / d + m / d;
    assert q * d == n / d * d + m / d * d;
    assert (q + 1) * d == q * d + d;
    QuotientUnique(n + m, d, q);
  }
}
