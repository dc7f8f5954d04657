/** The two orders the binding table sorts and compares by: byte order of text, and byte order of a date written by
    `Date.prototype.toISOString`. */
module TextOrder {
  /** Code point order, which is the byte order of UTF-8. */
  predicate TextLess(a: string, b: string) {
    if b == "" then false
    else if a == "" then true
    else a[0] < b[0] || (a[0] == b[0] && TextLess(a[1..], b[1..]))
  }

  lemma {:induction false} TextOrderIsTotal(a: string, b: string)
    ensures TextLess(a, b) || TextLess(b, a) || a == b
    ensures !(TextLess(a, b) && TextLess(b, a))
    ensures TextLess(a, b) ==> a != b
  {
    if a != "" && b != "" && a[0] == b[0] {
      TextOrderIsTotal(a[1..], b[1..]);
      assert a == [a[0]] + a[1..] && b == [b[0]] + b[1..];
    }
  }

  lemma {:induction false} TextOrderIsTransitive(a: string, b: string, c: string)
    requires TextLess(a, b) && TextLess(b, c)
    ensures TextLess(a, c)
  {
    if a != "" && a[0] == b[0] == c[0] { TextOrderIsTransitive(a[1..], b[1..], c[1..]); }
  }

  const YEAR_0 := -62167219200000
  const YEAR_10000 := 253402300800000
  const MAX_TIME := 8640000000000000
  const DAY := 86400000

  /** First millisecond of a year of the proleptic Gregorian calendar. */
  function YearStart(y: int): int {
    DAY * (365 * (y - 1970) + (y - 1969) / 4 - (y - 1901) / 100 + (y - 1601) / 400)
  }

  /** The year of a time before year 0, searched downwards from `y`. */
  function YearFrom(t: int, y: int): (r: int)
    requires t < YearStart(y + 1)
    ensures YearStart(r) <= t < YearStart(r + 1)
    decreases YearStart(y + 1) - t
  {
    if YearStart(y) <= t then y else YearFrom(t, y - 1)
  }

  predicate FourDigitYear(t: int) { YEAR_0 <= t < YEAR_10000 }

  /** Later years are printed with a leading '+', earlier ones with '-', and `'+' < '-' < '0'`. */
  function Sign(t: int): int {
    if t >= YEAR_10000 then 0 else if t < YEAR_0 then 1 else 2
  }

  /** Digits of a negative year grow as the year falls. */
  function NegatedYear(t: int): int {
    if t < YEAR_0 then -YearFrom(t, -1) else 0
  }

  predicate DateLess(a: int, b: int) {
    || Sign(a) < Sign(b)
    || (Sign(a) == Sign(b) && NegatedYear(a) < NegatedYear(b))
    || (Sign(a) == Sign(b) && NegatedYear(a) == NegatedYear(b) && a < b)
  }

  /** For a first date with a four digit year, the printed dates compare as the times do exactly when the second
      does not come from before the sign changes the order. */
  lemma DateLessIsTimeOrder(a: int, b: int)
    requires FourDigitYear(a)
    ensures DateLess(a, b) <==> FourDigitYear(b) && a < b
  {}
}
