/** Decimal numerals. */
module Decimal {
  predicate IsDigit(c: char) { '0' <= c <= '9' }

  predicate AllDigits(s: string) {
    forall c :: c in s ==> IsDigit(c)
  }

  function DigitsValue(s: string): nat {
    if s == [] then 0
    else 10 * DigitsValue(s[..|s| - 1]) + (if IsDigit(s[|s| - 1]) then (s[|s| - 1] as nat) - ('0' as nat) else 0)
  }

  function Digit(d: nat): (c: char)
    requires d < 10
    ensures IsDigit(c) && c as nat - '0' as nat == d
  {
    ('0' as nat + d) as char
  }

  function Print(n: nat): string {
    if n < 10 then [Digit(n)] else Print(n / 10) + [Digit(n % 10)]
  }

  lemma {:induction false} PrintParses(n: nat)
    ensures AllDigits(Print(n)) && DigitsValue(Print(n)) == n && Print(n) != ""
    ensures n > 0 ==> Print(n)[0] != '0'
  {
    if n < 10 {
      assert Print(n)[..0] == "";
    } else {
      PrintParses(n / 10);
      assert Print(n)[..|Print(n)| - 1] == Print(n / 10);
    }
  }

  lemma PrintIsInjective(m: nat, n: nat)
    ensures Print(m) == Print(n) ==> m == n
  {
    PrintParses(m);
    PrintParses(n);
  }

  function PrintInt(n: int): string { if n < 0 then "-" + Print(-n) else Print(n) }

  lemma PrintIntIsInjective(m: int, n: int)
    ensures PrintInt(m) == PrintInt(n) ==> m == n
    ensures forall c :: c in PrintInt(m) ==> IsDigit(c) || c == '-'
  {
    PrintParses(if m < 0 then -m else m);
    PrintParses(if n < 0 then -n else n);
    PrintIsInjective(if m < 0 then -m else m, if n < 0 then -n else n);
    FirstIsDigit(if m < 0 then -m else m);
    FirstIsDigit(if n < 0 then -n else n);
    if m < 0 && n < 0 { assert PrintInt(m)[1..] == Print(-m) && PrintInt(n)[1..] == Print(-n); }
  }

  lemma FirstIsDigit(n: nat)
    ensures Print(n) != "" && IsDigit(Print(n)[0])
  {
    PrintParses(n);
    assert Print(n)[0] in Print(n);
  }

  lemma {:induction false} PrintOfDigits(s: string)
    requires AllDigits(s) && s != "" && s[0] != '0'
    ensures Print(DigitsValue(s)) == s && DigitsValue(s) > 0
    decreases |s|
  {
    var front, last := s[..|s| - 1], s[|s| - 1];
    assert s == front + [last] && last in s;
    assert forall c :: c in front ==> c in s;
    if front == "" {
      assert DigitsValue(front) == 0;
      assert [Digit(DigitsValue(s))] == s;
    } else {
      PrintOfDigits(front);
      var v := DigitsValue(s);
      assert v / 10 == DigitsValue(front) && Digit(v % 10) == last;
    }
  }
}
