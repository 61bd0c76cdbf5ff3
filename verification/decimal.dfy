/** `cosmwasm_std::Decimal` and the rounding `Uint128` operations the staking
    contract prices its shares with. A decimal is kept as its value times
    10^18, so every operation is exact integer arithmetic rounded down. */
module FixedPoint {

  const DECIMAL_FRACTIONAL: nat := 1_000_000_000_000_000_000

  /** A non-negative fixed-point number with 18 fractional digits. */
  datatype Decimal = Decimal(atomics: nat)

  function One(): (d: Decimal)
    ensures d.atomics == DECIMAL_FRACTIONAL
  {
    Decimal(DECIMAL_FRACTIONAL)
  }

  /** `Decimal::percent(x)`: x/100. */
  function Percent(x: nat): (d: Decimal)
    ensures d.atomics * 100 == x * DECIMAL_FRACTIONAL
  {
    Decimal(x * 10_000_000_000_000_000)
  }

  /** The quotient of a division rounding down sits between the two multiples. */
  lemma FloorBounds(x: nat, d: nat)
    requires d > 0
    ensures (x / d) * d <= x < (x / d + 1) * d
  {
    var q, r := x / d, x % d;
    assert x == d * q + r;
    assert (q + 1) * d == q * d + d;
  }

  /** Division rounding down, with the bounds that characterise it. */
  function FloorDiv(x: nat, d: nat): (q: nat)
    requires d > 0
    ensures q * d <= x < (q + 1) * d
  {
    var q := x / d;
    assert x == d * q + x % d;
    assert (q + 1) * d == q * d + d;
    q
  }

  /** Only one whole number lies between the two multiples. */
  lemma FloorUnique(x: nat, d: nat, q: nat)
    requires d > 0
    requires q * d <= x < (q + 1) * d
    ensures x / d == q
  {
    FloorBounds(x, d);
    var p := x / d;
    if p < q {
      MulMonotone(p + 1, q, d);
    } else if p > q {
      MulMonotone(q + 1, p, d);
    }
  }

  lemma MulMonotone(a: nat, b: nat, d: nat)
    requires a <= b
    ensures a * d <= b * d
  {
  }

  /** `Uint128::multiply_ratio`: a·n/d rounded down. A zero denominator makes
      the source panic, so callers must rule it out. */
  function MultiplyRatio(a: nat, n: nat, d: nat): (r: nat)
    requires d > 0
    ensures r * d <= a * n < (r + 1) * d
  {
    FloorDiv(a * n, d)
  }

  /** `Uint128 * Decimal`, and `Decimal * Uint128`: the product rounded down to
      a whole number. */
  function MulFloor(a: nat, d: Decimal): (r: nat)
    ensures r * DECIMAL_FRACTIONAL <= a * d.atomics < (r + 1) * DECIMAL_FRACTIONAL
  {
    if a == 0 || d.atomics == 0 then 0 else MultiplyRatio(a, d.atomics, DECIMAL_FRACTIONAL)
  }

  /** `Decimal::from_ratio(n, d)`: n/d rounded down to 18 fractional digits;
      a zero denominator panics in the source. */
  function FromRatio(n: nat, d: nat): (r: Decimal)
    requires d > 0
    ensures r.atomics * d <= n * DECIMAL_FRACTIONAL < (r.atomics + 1) * d
  {
    Decimal(MultiplyRatio(n, DECIMAL_FRACTIONAL, d))
  }

  /** Multiplying by one gives the amount back. */
  lemma MulFloorOne(a: nat)
    ensures MulFloor(a, One()) == a
  {
    if a > 0 {
      FloorUnique(a * DECIMAL_FRACTIONAL, DECIMAL_FRACTIONAL, a);
    }
  }

  /** A rate of at most one never takes more than the whole amount. */
  lemma MulFloorAtMost(a: nat, d: Decimal)
    requires d.atomics <= DECIMAL_FRACTIONAL
    ensures MulFloor(a, d) <= a
  {
    var r := MulFloor(a, d);
    MulMonotone(d.atomics, DECIMAL_FRACTIONAL, a);
    assert a * d.atomics <= a * DECIMAL_FRACTIONAL;
    if r > a {
      assert false;
    }
  }

  /** A ratio that is exactly representable is computed exactly. */
  lemma FromRatioExact(n: nat, d: nat, k: nat)
    requires d > 0 && n * DECIMAL_FRACTIONAL == k * d
    ensures FromRatio(n, d).atomics == k
  {
    FloorUnique(n * DECIMAL_FRACTIONAL, d, k);
  }

  /** An exact quotient is computed exactly. */
  lemma MultiplyRatioExact(a: nat, n: nat, d: nat, k: nat)
    requires d > 0 && a * n == k * d
    ensures MultiplyRatio(a, n, d) == k
  {
    FloorUnique(a * n, d, k);
  }
}
