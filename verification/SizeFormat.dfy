/** The IEC size humaniser (`format_iec` of `local_fs.rs`) over exact rationals: a value is a byte count
    over a power of 1024, a mantissa counts steps of the last printed place. */
module SizeFormat {

  /** The index of the largest unit: bytes, KiB, MiB, GiB, TiB, PiB. */
  const LARGEST: nat := 5

  datatype Size = Bytes(count: nat) | Scaled(mantissa: nat, unit: nat)

  function Power(unit: nat): (d: nat)
    ensures d > 0
  {
    if unit == 0 then 1 else 1024 * Power(unit - 1)
  }

  /** KiB, MiB, GiB, TiB and PiB. */
  lemma UnitsAre()
    ensures Power(1) == 1024 && Power(2) == 1048576 && Power(3) == 1073741824
    ensures Power(4) == 1099511627776 && Power(5) == 1125899906842624 && LARGEST == 5
  {
    assert Power(2) == 1024 * Power(1) && Power(3) == 1024 * Power(2) && Power(4) == 1024 * Power(3);
  }

  function Factor(decimals: nat): (f: nat)
    ensures f > 0
  {
    if decimals == 0 then 1 else if decimals == 1 then 10 else 100
  }

  /** `n / d` to the nearest integer; `up` decides which way a tie above `k` goes. */
  function Rounded(n: nat, d: nat, up: nat -> bool): (r: nat)
    requires d > 0
  {
    var k, rest := n / d, n % d;
    if 2 * rest < d then k else if 2 * rest > d || up(k) then k + 1 else k
  }

  /** `f64::round` sends ties away from zero. */
  function HalfUp(n: nat, d: nat): (r: nat)
    requires d > 0
  {
    Rounded(n, d, _ => true)
  }

  /** The largest unit, up to PiB, that the byte count reaches. */
  function FirstUnit(bytes: nat, unit: nat): (u: nat)
    requires unit <= LARGEST
    ensures unit <= u <= LARGEST
    decreases LARGEST - unit
  {
    if bytes >= 1024 * Power(unit) && unit < LARGEST then FirstUnit(bytes, unit + 1) else unit
  }

  /** The rounded display would reach 1024 of the unit. */
  predicate Overflows(bytes: nat, f: nat, unit: nat) {
    HalfUp(bytes * f, Power(unit)) >= 1024 * f
  }

  function Promote(bytes: nat, f: nat, unit: nat): (u: nat)
    requires unit <= LARGEST
    ensures unit <= u <= LARGEST
    decreases LARGEST - unit
  {
    if unit < LARGEST && Overflows(bytes, f, unit) then Promote(bytes, f, unit + 1) else unit
  }

  function UnitOf(bytes: nat, f: nat): (u: nat)
    ensures u <= LARGEST
  {
    Promote(bytes, f, FirstUnit(bytes, 0))
  }

  /** `ties` is the rule by which the printed digits break a tie. */
  function Formatted(bytes: nat, decimals: nat, ties: nat -> bool): (s: Size) {
    if bytes < 1024 then Bytes(bytes)
    else
      var f := Factor(decimals);
      Scaled(Rounded(bytes * f, Power(UnitOf(bytes, f)), ties), UnitOf(bytes, f))
  }

  method FormatIec(bytes: nat, decimals: nat, ties: nat -> bool) returns (s: Size)
    ensures s == Formatted(bytes, decimals, ties) && (bytes < 1024 ==> s == Bytes(bytes))
  {
    if bytes < 1024 {
      return Bytes(bytes);
    }
    var unit, scale := 0, 1;
    while bytes >= 1024 * scale && unit < LARGEST
      invariant unit <= LARGEST && scale == Power(unit)
      invariant FirstUnit(bytes, unit) == FirstUnit(bytes, 0)
    {
      scale := scale * 1024;
      unit := unit + 1;
    }
    var factor := Factor(decimals);
    while unit < LARGEST && HalfUp(bytes * factor, scale) >= 1024 * factor
      invariant unit <= LARGEST && scale == Power(unit)
      invariant Promote(bytes, factor, unit) == UnitOf(bytes, factor)
      decreases LARGEST - unit
    {
      scale := scale * 1024;
      unit := unit + 1;
    }
    s := Scaled(Rounded(bytes * factor, scale, ties), unit);
  }

  // ---------------------------------------------------------------------------
  // Rounding
  // ---------------------------------------------------------------------------

  lemma Divided(n: nat, d: nat)
    requires d > 0
    ensures n == d * (n / d) + n % d && n % d < d
  {
  }

  /** A rounded quotient is within half a step. */
  lemma WithinHalf(n: nat, d: nat, up: nat -> bool)
    requires d > 0
    ensures 2 * n - d <= 2 * (d * Rounded(n, d, up)) <= 2 * n + d
  {
    Divided(n, d);
    var k := n / d;
    assert d * (k + 1) == d * k + d;
  }

  lemma QuotientMonotone(a: nat, b: nat, d: nat)
    requires d > 0 && a <= b
    ensures a / d <= b / d
    ensures a / d == b / d ==> a % d <= b % d
  {
    Divided(a, d);
    Divided(b, d);
    QuotientOrder(d, a / d, a % d, b / d, b % d);
  }

  lemma QuotientOrder(d: nat, k: nat, r: nat, l: nat, s: nat)
    requires r < d && s < d && d * k + r <= d * l + s
    ensures k <= l && (k == l ==> r <= s)
  {
    if l < k {
      Ordered(d, l + 1, k);
    }
  }

  lemma Ordered(d: nat, a: nat, b: nat)
    requires a <= b
    ensures d * a <= d * b && d * (a + 1) == d * a + d
  {
  }

  lemma RoundedMonotone(a: nat, b: nat, d: nat, up: nat -> bool)
    requires d > 0 && a <= b
    ensures Rounded(a, d, up) <= Rounded(b, d, up)
  {
    QuotientMonotone(a, b, d);
  }

  lemma HalfUpIsLargest(n: nat, d: nat, up: nat -> bool)
    requires d > 0
    ensures Rounded(n, d, up) <= HalfUp(n, d)
  {
  }

  lemma MulMonotone(a: nat, b: nat, f: nat)
    requires a <= b
    ensures a * f <= b * f
  {
  }

  /** A quotient of at least `m`, less than half a step short allowed, rounds to at least `m`. */
  lemma RoundsToAtLeast(n: nat, d: nat, m: nat, up: nat -> bool)
    requires d > 0 && 2 * n + d > 2 * (d * m)
    ensures Rounded(n, d, up) >= m
  {
    WithinHalf(n, d, up);
    StepsApart(n, d, Rounded(n, d, up), m);
  }

  lemma StepsApart(n: nat, d: nat, r: nat, m: nat)
    requires 2 * n - d <= 2 * (d * r) && 2 * n + d > 2 * (d * m)
    ensures r >= m
  {
    if r < m {
      Ordered(d, r + 1, m);
      Ordered(d, r, m);
    }
  }

  /** Rounding half up is the floor of the value plus one half. */
  lemma HalfUpIsFloor(n: nat, d: nat)
    requires d > 0
    ensures 2 * (d * HalfUp(n, d)) <= 2 * n + d < 2 * (d * HalfUp(n, d)) + 2 * d
  {
    Divided(n, d);
    Ordered(d, n / d, n / d);
  }

  lemma FloorAtLeast(d: nat, r: nat, m: nat, x: nat)
    requires 2 * (d * r) <= x < 2 * (d * r) + 2 * d
    ensures r >= m <==> 2 * (d * m) <= x
  {
    if r >= m {
      Ordered(d, m, r);
    } else {
      Ordered(d, r + 1, m);
      Ordered(d, r, m);
    }
  }

  // ---------------------------------------------------------------------------
  // Units
  // ---------------------------------------------------------------------------

  lemma {:induction false} FirstUnitFits(bytes: nat, unit: nat)
    requires unit <= LARGEST && bytes >= Power(unit)
    ensures var u := FirstUnit(bytes, unit);
            Power(u) <= bytes && (u < LARGEST ==> bytes < 1024 * Power(u))
    decreases LARGEST - unit
  {
    if bytes >= 1024 * Power(unit) && unit < LARGEST {
      FirstUnitFits(bytes, unit + 1);
    }
  }

  lemma {:induction false} FirstUnitMonotone(a: nat, b: nat, unit: nat)
    requires unit <= LARGEST && a <= b
    ensures FirstUnit(a, unit) <= FirstUnit(b, unit)
    decreases LARGEST - unit
  {
    if a >= 1024 * Power(unit) && unit < LARGEST {
      FirstUnitMonotone(a, b, unit + 1);
    }
  }

  lemma Scale(a: nat, b: nat, f: nat)
    ensures (a * b) * f == a * (b * f)
  {
  }

  /** The display overflows exactly for counts within half a step of the next unit. */
  lemma OverflowsExactlyWhen(bytes: nat, f: nat, unit: nat)
    ensures Overflows(bytes, f, unit) <==> 2 * (Power(unit) * (1024 * f)) <= 2 * (bytes * f) + Power(unit)
  {
    HalfUpIsFloor(bytes * f, Power(unit));
    FloorAtLeast(Power(unit), HalfUp(bytes * f, Power(unit)), 1024 * f, 2 * (bytes * f) + Power(unit));
  }

  /** A value below 1024 of its unit does not overflow the next one, so one promotion is enough. */
  lemma NextDoesNotOverflow(bytes: nat, f: nat, unit: nat)
    requires f > 0 && bytes < 1024 * Power(unit)
    ensures !Overflows(bytes, f, unit + 1)
  {
    var d, n := Power(unit + 1), bytes * f;
    assert n <= d * f by {
      MulMonotone(bytes, d, f);
    }
    FarBelow(d, f, n);
    OverflowsExactlyWhen(bytes, f, unit + 1);
  }

  lemma FarBelow(d: nat, f: nat, n: nat)
    requires d > 0 && f > 0 && n <= d * f
    ensures 2 * n + d < 2 * (d * (1024 * f))
  {
    Ordered(d, 1, f);
    assert d * (1024 * f) == 1024 * (d * f);
  }

  /** The re-promotion loop runs at most once. */
  lemma PromotedAtMostOnce(bytes: nat, decimals: nat)
    requires bytes >= 1024
    ensures var f, u := Factor(decimals), FirstUnit(bytes, 0);
            UnitOf(bytes, f) == if u < LARGEST && Overflows(bytes, f, u) then u + 1 else u
  {
    var f, u := Factor(decimals), FirstUnit(bytes, 0);
    FirstUnitFits(bytes, 0);
    if u < LARGEST {
      NextDoesNotOverflow(bytes, f, u);
    }
  }

  // ---------------------------------------------------------------------------
  // What is printed
  // ---------------------------------------------------------------------------

  /** The printed mantissa times its unit is within half a last-place step of the true size. */
  lemma PrintedIsWithinHalfStep(bytes: nat, decimals: nat, ties: nat -> bool)
    requires bytes >= 1024
    ensures var s := Formatted(bytes, decimals, ties);
            var f := if decimals == 0 then 1 else if decimals == 1 then 10 else 100;
            s.Scaled?
            && 2 * (bytes * f) - Power(s.unit) <= 2 * (Power(s.unit) * s.mantissa) <= 2 * (bytes * f) + Power(s.unit)
  {
    var f := Factor(decimals);
    WithinHalf(bytes * f, Power(UnitOf(bytes, f)), ties);
  }

  /** Every unit below PiB shows at least 1 and less than 1024; PiB shows at least 1. */
  lemma PrintedIsInRange(bytes: nat, decimals: nat, ties: nat -> bool)
    requires bytes >= 1024
    ensures var s := Formatted(bytes, decimals, ties);
            var f := if decimals == 0 then 1 else if decimals == 1 then 10 else 100;
            s.mantissa >= f && (s.unit < LARGEST ==> s.mantissa < 1024 * f) && s.unit >= 1
  {
    var f, u := Factor(decimals), FirstUnit(bytes, 0);
    FirstUnitFits(bytes, 0);
    PromotedAtMostOnce(bytes, decimals);
    assert u >= 1;
    var v := UnitOf(bytes, f);
    HalfUpIsLargest(bytes * f, Power(v), ties);
    if v == u {
      MulMonotone(Power(u), bytes, f);
      assert Power(u) * f <= bytes * f;
      RoundsToAtLeast(bytes * f, Power(u), f, ties);
    } else {
      NextDoesNotOverflow(bytes, f, u);
      OverflowsExactlyWhen(bytes, f, u);
      JustBelowNextUnit(bytes, f, u);
      RoundsToAtLeast(bytes * f, Power(v), f, ties);
    }
  }

  lemma JustBelowNextUnit(bytes: nat, f: nat, u: nat)
    requires f > 0 && 2 * (bytes * f) + Power(u) >= 2 * (Power(u) * (1024 * f))
    ensures 2 * (bytes * f) + Power(u + 1) > 2 * (Power(u + 1) * f)
  {
    Scale(Power(u), 1024, f);
    assert Power(u) * 1024 == Power(u + 1);
  }

  /** A larger file never shows a smaller unit, nor a smaller mantissa in the same unit. */
  lemma PrintedIsMonotone(a: nat, b: nat, decimals: nat, ties: nat -> bool)
    requires 1024 <= a <= b
    ensures var s, t := Formatted(a, decimals, ties), Formatted(b, decimals, ties);
            s.unit < t.unit || (s.unit == t.unit && s.mantissa <= t.mantissa)
  {
    var f := Factor(decimals);
    var u, v := FirstUnit(a, 0), FirstUnit(b, 0);
    PromotedAtMostOnce(a, decimals);
    PromotedAtMostOnce(b, decimals);
    FirstUnitMonotone(a, b, 0);
    MulMonotone(a, b, f);
    RoundedMonotone(a * f, b * f, Power(u), _ => true);
    RoundedMonotone(a * f, b * f, Power(UnitOf(a, f)), ties);
    assert u == v && Overflows(a, f, u) ==> Overflows(b, f, u);
  }
}
