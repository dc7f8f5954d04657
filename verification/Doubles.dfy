/** Natural numbers as double-precision numbers hold them: 53 bits, rounded to nearest, ties to even. */
module Doubles {
  const EXACT := 0x20_0000_0000_0000

  /** The spacing of doubles around `n`, found by doubling. */
  function Unit(n: nat, u: nat): (r: nat)
    requires u > 0
    ensures r >= u && n < EXACT * r && (r == u || (r >= 2 * u && 2 * n >= EXACT * r))
    decreases if n > u then n - u else 0
  {
    if n < EXACT * u then u else Unit(n, 2 * u)
  }

  function RoundTo(n: nat, u: nat): nat
    requires u > 0
  {
    var q, r := n / u, n % u;
    if 2 * r < u || (2 * r == u && q % 2 == 0) then q * u else (q + 1) * u
  }

  function Double(n: nat): nat { RoundTo(n, Unit(n, 1)) }

  predicate IsDouble(n: nat) { n % Unit(n, 1) == 0 }

  function Inc(n: nat): nat { Double(n + 1) }

  lemma SmallIsExact(n: nat)
    requires n < EXACT
    ensures Double(n) == n && IsDouble(n)
  {}

  lemma ExactIsDouble()
    ensures Double(EXACT) == EXACT && IsDouble(EXACT) && Inc(EXACT) == EXACT
  {
    assert Unit(EXACT, 1) == 2 && Unit(EXACT + 1, 1) == 2;
  }

  /** Counting is exact below 2^53 and reaches it. */
  lemma IncCounts(n: nat)
    requires n < EXACT
    ensures Inc(n) == n + 1
  {
    if n + 1 < EXACT { SmallIsExact(n + 1); } else { ExactIsDouble(); }
  }

  /** At 2^53 and above the spacing is at least two. */
  lemma {:induction false} SameUnit(n: nat, m: nat, u: nat)
    requires u > 0 && n <= m < EXACT * Unit(n, u)
    ensures Unit(m, u) == Unit(n, u)
    decreases if n > u then n - u else 0
  {
    if n >= EXACT * u { SameUnit(n, m, 2 * u); }
  }

  lemma {:induction false} UnitIsEven(n: nat, u: nat)
    requires u > 0 && n >= EXACT * u
    ensures Unit(n, u) % 2 == 0
    decreases if n > u then n - u else 0
  {
    if n >= EXACT * (2 * u) { UnitIsEven(n, 2 * u); }
  }

  lemma MulOrder(a: nat, b: nat, u: nat)
    ensures a <= b ==> a * u <= b * u
  {}

  /** Quotient and remainder as products. */
  lemma Parts(n: nat, u: nat) returns (q: nat, r: nat)
    requires u > 0
    ensures q == n / u && r == n % u && n == q * u + r && r < u
  {
    q, r := n / u, n % u;
  }

  lemma LastOfUnit(n: nat, u: nat)
    requires u >= 2 && n < EXACT * u && n % u == 0
    ensures n + 1 < EXACT * u && (n + 1) / u == n / u && (n + 1) % u == 1
  {
    var q, r := Parts(n, u);
    MulOrder(EXACT, q, u);
    MulOrder(q + 1, EXACT, u);
    assert (q + 1) * u == q * u + u;
    Quotient(q, u, 1);
  }

  lemma Quotient(q: nat, u: nat, r: nat)
    requires r < u
    ensures (q * u + r) / u == q && (q * u + r) % u == r
  {
    var q', r' := Parts(q * u + r, u);
    Apart(q, q', u);
    Apart(q', q, u);
  }

  lemma Apart(a: nat, b: nat, u: nat)
    ensures a < b ==> a * u + u <= b * u
  {
    if a < b { assert (a + 1) * u <= b * u; }
  }

  /** Adding one to a double of 2^53 or more leaves it as it is, unless it is odd in units of two. */
  lemma IncStalls(n: nat)
    requires n >= EXACT && IsDouble(n)
    ensures Inc(n) == if n < 2 * EXACT && n % 4 == 2 then n + 2 else n
  {
    var u := Unit(n, 1);
    UnitIsEven(n, 1);
    LastOfUnit(n, u);
    SameUnit(n, n + 1, 1);
    var q, r := Parts(n, u);
    if u == 2 { StallsInTwos(n); } else { StallsInMore(n, u, q); }
  }

  lemma StallsInTwos(n: nat)
    requires n % 2 == 0
    ensures RoundTo(n + 1, 2) == if n % 4 == 2 then n + 2 else n
  {}

  lemma StallsInMore(n: nat, u: nat, q: nat)
    requires u >= 4 && n == q * u && (n + 1) / u == q && (n + 1) % u == 1
    ensures RoundTo(n + 1, u) == n
  {}

  lemma NextEvenIsDouble(n: nat)
    requires EXACT <= n < 2 * EXACT && n % 4 == 2
    ensures IsDouble(n + 2) && !(n + 2 < 2 * EXACT && (n + 2) % 4 == 2)
  {
    assert Unit(n + 2, 1) == if n + 2 < 2 * EXACT then 2 else 4;
  }

  lemma LargeIncStops(n: nat)
    requires n >= EXACT && IsDouble(n)
    ensures Inc(Inc(n)) == Inc(n)
  {
    IncStalls(n);
    if n < 2 * EXACT && n % 4 == 2 {
      NextEvenIsDouble(n);
      IncStalls(n + 2);
    }
  }

  /** So counting stops: after one step at 2^53 or above, the next changes nothing. */
  lemma SecondIncStalls(n: nat)
    requires IsDouble(n)
    ensures Inc(Inc(n)) != Inc(n) <==> n + 1 < EXACT
  {
    if n >= EXACT {
      LargeIncStops(n);
    } else {
      IncCounts(n);
      if n + 1 < EXACT { IncCounts(n + 1); } else { ExactIsDouble(); }
    }
  }

  lemma RoundedIsDouble(n: nat)
    ensures IsDouble(Double(n)) && (n >= EXACT ==> Double(n) >= EXACT)
  {
    var u := Unit(n, 1);
    if n < EXACT {
      SmallIsExact(n);
    } else {
      UnitIsEven(n, 1);
      var q, r := Parts(n, u);
      HalfUnit(n, u, q, r);
      RoundStays(n, u, q);
      RoundStays(n, u, q + 1);
    }
  }

  /** Between two powers of two the quotient by the spacing has exactly 53 bits. */
  lemma HalfUnit(n: nat, u: nat, q: nat, r: nat)
    requires n == q * u + r && r < u && 2 * n >= EXACT * u && n < EXACT * u
    ensures 2 * q >= EXACT && q < EXACT
  {
    MulOrder(2 * q + 2, EXACT, u);
    assert (2 * q + 2) * u == 2 * (q * u) + 2 * u;
    MulOrder(EXACT, q, u);
  }

  /** A rounded value is a multiple of the spacing it lands in, also when it is the first of the next one. */
  lemma RoundStays(n: nat, u: nat, m: nat)
    requires u == Unit(n, 1) && u >= 2 && 2 * m >= EXACT && m <= EXACT
    ensures IsDouble(m * u) && m * u >= EXACT
  {
    AtLeastExact(m, u);
    if m < EXACT { MultipleIsDouble(m, u, n); } else { TopIsDouble(n, u); }
  }

  lemma AtLeastExact(m: nat, u: nat)
    requires u >= 2 && 2 * m >= EXACT
    ensures m * u >= EXACT
  {
    MulOrder(2, u, m);
    assert m * u == u * m;
  }

  lemma MultipleIsDouble(m: nat, u: nat, n: nat)
    requires u == Unit(n, 1) && u >= 2 && EXACT <= 2 * m && m < EXACT
    ensures IsDouble(m * u)
  {
    UnitOfMultiple(m, u, n);
    Quotient(m, u, 0);
  }

  lemma UnitOfMultiple(m: nat, u: nat, n: nat)
    requires u == Unit(n, 1) && u >= 2 && EXACT <= 2 * m && m < EXACT
    ensures Unit(m * u, 1) == u
  {
    var x := m * u;
    MulOrder(m + 1, EXACT, u);
    assert (m + 1) * u == x + u;
    MulOrder(EXACT, 2 * m, u);
    assert (2 * m) * u == 2 * x;
    UnitInRange(x, u, n);
  }

  lemma UnitInRange(x: nat, u: nat, n: nat)
    requires u == Unit(n, 1) && u >= 2 && x < EXACT * u && 2 * x >= EXACT * u
    ensures Unit(x, 1) == u
  {
    if x >= n {
      SameUnit(n, x, 1);
    } else {
      var v := Unit(x, 1);
      if v < u { UnitsAreHalved(n, x, 1); } else { SameUnit(x, n, 1); }
    }
  }

  /** The spacing of a smaller number is the same or at most half. */
  lemma {:induction false} UnitsAreHalved(n: nat, m: nat, u: nat)
    requires u > 0 && m <= n && Unit(m, u) < Unit(n, u)
    ensures 2 * Unit(m, u) <= Unit(n, u)
    decreases if n > u then n - u else 0
  {
    if m >= EXACT * u { UnitsAreHalved(n, m, 2 * u); }
  }

  lemma TopIsDouble(n: nat, u: nat)
    requires u == Unit(n, 1) && u >= 2
    ensures IsDouble(EXACT * u)
  {
    TopUnit(n, 1);
    assert EXACT * u == (EXACT / 2) * (2 * u);
    Quotient(EXACT / 2, 2 * u, 0);
  }

  lemma {:induction false} TopUnit(n: nat, u: nat)
    requires u > 0
    ensures Unit(EXACT * Unit(n, u), u) == 2 * Unit(n, u)
    decreases if n > u then n - u else 0
  {
    if n >= EXACT * u { TopUnit(n, 2 * u); }
  }
}
