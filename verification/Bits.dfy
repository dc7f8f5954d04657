/** The 32-bit operators of the source language on integers, and what masking with a prefix mask means. */
module Bits {
  const WORD := 0x1_0000_0000

  function Pow2(k: nat): (r: nat)
    ensures r > 0
  {
    if k == 0 then 1 else 2 * Pow2(k - 1)
  }

  function ToUint32(x: int): (r: nat)
    ensures r < WORD
  {
    x % WORD
  }

  function ToInt32(x: int): int {
    var u := ToUint32(x);
    if u < WORD / 2 then u else u - WORD
  }

  function BitAnd(a: nat, b: nat): nat {
    if a == 0 || b == 0 then 0 else 2 * BitAnd(a / 2, b / 2) + (a % 2) * (b % 2)
  }

  /** `x & y`, `x << n` and `x >> n`: operands and results are signed 32-bit. */
  function And(x: int, y: int): int { ToInt32(BitAnd(ToUint32(x), ToUint32(y))) }

  function ShiftLeft(x: int, n: nat): int { ToInt32(ToInt32(x) * Pow2(n % 32)) }

  function ShiftRight(x: int, n: nat): int { ToInt32(x) / Pow2(n % 32) }

  lemma {:induction false} Pow2Splits(a: nat, b: nat)
    ensures Pow2(a + b) == Pow2(a) * Pow2(b)
  {
    if a > 0 {
      Pow2Splits(a - 1, b);
      assert Pow2(a + b) == 2 * Pow2(a - 1 + b);
      Twice(Pow2(a - 1), Pow2(b));
    }
  }

  lemma Twice(a: nat, b: nat)
    ensures 2 * (a * b) == (2 * a) * b
  {}

  lemma {:induction false} Pow2Grows(a: nat, b: nat)
    requires a <= b
    ensures Pow2(a) <= Pow2(b)
  {
    if a < b { Pow2Grows(a, b - 1); }
  }

  lemma Pow2Of(k: nat)
    requires k <= 32
    ensures Pow2(32) == WORD && Pow2(16) == 0x1_0000 && Pow2(8) == 0x100
  {
    assert Pow2(4) == 16;
    Pow2Splits(4, 4);
    Pow2Splits(8, 8);
    Pow2Splits(16, 16);
  }

  /** A mask of ones from bit `s` up to bit `k` clears exactly the low `s` bits. */
  lemma {:induction false} MaskClearsLowBits(v: nat, k: nat, s: nat)
    requires s <= k && v < Pow2(k)
    ensures Pow2(s) <= Pow2(k) && BitAnd(v, Pow2(k) - Pow2(s)) == v - v % Pow2(s)
  {
    Pow2Grows(s, k);
    if k == 0 {
    } else if s == 0 {
      AllOnes(v, k);
      assert v % 1 == 0;
    } else {
      MaskClearsLowBits(v / 2, k - 1, s - 1);
      var h := Pow2(s - 1);
      MaskStep(v, Pow2(k - 1) - h, h);
    }
  }

  lemma MaskStep(v: nat, m: nat, h: nat)
    requires h > 0 && BitAnd(v / 2, m) == v / 2 - (v / 2) % h
    ensures BitAnd(v, 2 * m) == v - v % (2 * h)
  {
    EvenMask(v, m);
    HalvesOfRemainder(v, h);
  }

  lemma Small(v: nat, p: nat)
    requires v < p
    ensures v % p == v
  {}

  lemma EvenMask(v: nat, m: nat)
    ensures BitAnd(v, 2 * m) == 2 * BitAnd(v / 2, m)
  {
    var n := 2 * m;
    assert n / 2 == m && n % 2 == 0;
    EvenAnd(v, n);
  }

  lemma EvenAnd(v: nat, n: nat)
    requires n % 2 == 0
    ensures BitAnd(v, n) == 2 * BitAnd(v / 2, n / 2)
  {
    assert v % 2 * 0 == 0;
  }

  lemma HalvesOfRemainder(v: nat, h: nat)
    requires h > 0
    ensures v % (2 * h) == 2 * ((v / 2) % h) + v % 2
  {
    var q, r := (v / 2) / h, (v / 2) % h;
    assert v / 2 == q * h + r;
    assert v == (2 * h) * q + (2 * r + v % 2) by {
      assert 2 * (q * h) == (2 * h) * q;
    }
    Remainder(v, 2 * h, q, 2 * r + v % 2);
  }

  lemma Remainder(v: nat, d: nat, q: nat, r: nat)
    requires d > 0 && v == d * q + r && r < d
    ensures v % d == r && v / d == q
  {
    var q', r' := v / d, v % d;
    assert v == d * q' + r';
    MultiplesApart(d, q', q);
    MultiplesApart(d, q, q');
  }

  lemma MultiplesApart(d: nat, a: nat, b: nat)
    ensures a < b ==> d * a + d <= d * b
  {
    if a < b { assert d * (a + 1) <= d * b; }
  }

  lemma {:induction false} AllOnes(v: nat, k: nat)
    requires v < Pow2(k)
    ensures BitAnd(v, Pow2(k) - 1) == v
  {
    if k > 0 && v > 0 {
      AllOnes(v / 2, k - 1);
      assert (Pow2(k) - 1) / 2 == Pow2(k - 1) - 1 && (Pow2(k) - 1) % 2 == 1;
    }
  }

  /** Clearing the low bits of two numbers gives the same result exactly when their quotients agree. */
  lemma SameHighBits(v: nat, w: nat, p: nat)
    requires p > 0
    ensures v - v % p == w - w % p <==> v / p == w / p
  {
    assert v - v % p == p * (v / p) && w - w % p == p * (w / p);
    MultiplesApart(p, v / p, w / p);
    MultiplesApart(p, w / p, v / p);
  }
}
