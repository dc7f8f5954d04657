/** IP addresses as the URL checks read them. Whether a text is an address at all (`isIp`, answering 4, 6 or 0) is
    the platform library's answer and stays a parameter. */
module IpAddresses {
  import opened Wrappers
  import opened Text
  import opened Decimal
  import opened Bits

  // ---------------------------------------------------------------- Number.parseInt

  function DigitOf(c: char): nat {
    if '0' <= c <= '9' then c as nat - '0' as nat
    else if 'a' <= c <= 'f' then c as nat - 'a' as nat + 10
    else if 'A' <= c <= 'F' then c as nat - 'A' as nat + 10
    else 36
  }

  /** The longest prefix of digits of the radix. */
  function DigitPrefix(s: string, radix: nat): string {
    if s == "" || DigitOf(s[0]) >= radix then "" else [s[0]] + DigitPrefix(s[1..], radix)
  }

  function Value(s: string, radix: nat): nat {
    if s == "" then 0 else radix * Value(s[..|s| - 1], radix) + DigitOf(s[|s| - 1])
  }

  /** None stands for NaN. */
  function ParseInt(text: string, radix: nat): Option<int> {
    var s := TrimStart(text);
    var negative := s != "" && s[0] == '-';
    var unsigned := if s != "" && (s[0] == '-' || s[0] == '+') then s[1..] else s;
    var body := if radix == 16 && |unsigned| >= 2 && unsigned[0] == '0' && (unsigned[1] == 'x' || unsigned[1] == 'X')
                then unsigned[2..] else unsigned;
    var digits := DigitPrefix(body, radix);
    var value: int := Value(digits, radix);
    if digits == "" then None else Some(if negative then -value else value)
  }

  predicate AllInRadix(s: string, radix: nat) { forall c :: c in s ==> DigitOf(c) < radix }

  lemma {:induction false} DigitPrefixIsAll(s: string, radix: nat)
    requires AllInRadix(s, radix)
    ensures DigitPrefix(s, radix) == s
  {
    if s != "" {
      assert s == [s[0]] + s[1..];
      DigitPrefixIsAll(s[1..], radix);
    }
  }

  lemma NumeralParses(s: string, radix: nat)
    requires s != "" && AllInRadix(s, radix) && radix <= 16
    ensures ParseInt(s, radix) == Some(Value(s, radix))
  {
    assert s[0] in s;
    assert |s| >= 2 ==> s[1] in s;
    assert TrimStart(s) == s;
    DigitPrefixIsAll(s, radix);
  }

  // ---------------------------------------------------------------- IPv4

  function Octets(parts: seq<string>): (r: Option<seq<int>>)
    ensures r.Some? ==> |r.value| == |parts| && forall i :: 0 <= i < |parts| ==> 0 <= r.value[i] <= 255
  {
    if parts == [] then Some([])
    else
      var front, last := Octets(parts[..|parts| - 1]), ParseInt(parts[|parts| - 1], 10);
      if front.None? || last.None? || last.value < 0 || last.value > 255 then None else Some(front.value + [last.value])
  }

  /** The address as a 32-bit number, put together with wrapping shifts. */
  function Ipv4ToNumber(ip: string): (r: Option<nat>)
    ensures r.Some? ==> r.value < WORD
  {
    var parts := Split(ip, '.');
    var octets := Octets(parts);
    if |parts| != 4 || octets.None? then None
    else Some(FromOctets(octets.value))
  }

  function FromOctets(o: seq<int>): (r: nat)
    requires |o| == 4
    ensures r < WORD
  {
    ToUint32(ToUint32(ShiftLeft(o[0], 24)) + ShiftLeft(o[1], 16) + ShiftLeft(o[2], 8) + o[3])
  }

  function InCidr(value: nat, network: nat, prefix: nat): bool
    requires prefix <= 32
  {
    And(value, Mask(prefix)) == And(network, Mask(prefix))
  }

  function Mask(prefix: nat): nat
    requires prefix <= 32
  {
    if prefix == 0 then 0 else ToUint32(ShiftLeft(0xFFFF_FFFF, 32 - prefix))
  }

  function Quad(a: nat, b: nat, c: nat, d: nat): string {
    Joined([Print(a), Print(b), Print(c), Print(d)], '.')
  }

  function QuadValue(a: nat, b: nat, c: nat, d: nat): nat { ((a * 256 + b) * 256 + c) * 256 + d }

  lemma {:induction false} DecimalIsValue(s: string)
    requires AllDigits(s)
    ensures AllInRadix(s, 10) && Value(s, 10) == DigitsValue(s) && '.' !in s
  {
    if s != "" {
      assert s[|s| - 1] in s;
      DecimalIsValue(s[..|s| - 1]);
      assert s == s[..|s| - 1] + [s[|s| - 1]];
    }
  }

  lemma PrintedParses(n: nat)
    ensures ParseInt(Print(n), 10) == Some(n) && '.' !in Print(n)
  {
    PrintParses(n);
    DecimalIsValue(Print(n));
    NumeralParses(Print(n), 10);
  }

  lemma OctetsGrow(parts: seq<string>, octets: seq<int>, n: nat)
    requires Octets(parts) == Some(octets) && n <= 255
    ensures Octets(parts + [Print(n)]) == Some(octets + [n])
  {
    PrintedParses(n);
    var more := parts + [Print(n)];
    assert more[..|more| - 1] == parts && more[|more| - 1] == Print(n);
  }

  lemma QuadOctets(a: nat, b: nat, c: nat, d: nat)
    requires a <= 255 && b <= 255 && c <= 255 && d <= 255
    ensures |Split(Quad(a, b, c, d), '.')| == 4 && Octets(Split(Quad(a, b, c, d), '.')) == Some([a, b, c, d])
  {
    var parts := [Print(a), Print(b), Print(c), Print(d)];
    forall p | p in parts ensures '.' !in p {
      PrintedParses(a);
      PrintedParses(b);
      PrintedParses(c);
      PrintedParses(d);
    }
    SplitJoined(parts, '.');
    assert [] + [Print(a)] == [Print(a)] && [Print(a)] + [Print(b)] == [Print(a), Print(b)];
    assert [Print(a), Print(b)] + [Print(c)] == [Print(a), Print(b), Print(c)];
    assert [Print(a), Print(b), Print(c)] + [Print(d)] == parts;
    OctetsGrow([], [], a);
    assert [] + [a as int] == [a];
    OctetsGrow([Print(a)], [a], b);
    assert [a as int] + [b] == [a, b];
    OctetsGrow([Print(a), Print(b)], [a, b], c);
    assert [a as int, b] + [c] == [a, b, c];
    OctetsGrow([Print(a), Print(b), Print(c)], [a, b, c], d);
    assert [a as int, b, c] + [d] == [a, b, c, d];
  }

  /** A printed dotted quad reads back as its number: the wrapping shifts lose nothing. */
  lemma QuadParses(a: nat, b: nat, c: nat, d: nat)
    requires a <= 255 && b <= 255 && c <= 255 && d <= 255
    ensures Ipv4ToNumber(Quad(a, b, c, d)) == Some(QuadValue(a, b, c, d))
  {
    QuadOctets(a, b, c, d);
    ShiftedOctets(a, b, c, d);
  }

  lemma ShiftedOctets(a: nat, b: nat, c: nat, d: nat)
    requires a <= 255 && b <= 255 && c <= 255 && d <= 255
    ensures FromOctets([a, b, c, d]) == QuadValue(a, b, c, d)
  {
    Pow2Of(32);
    Pow2Splits(8, 16);
    OctetShifts(a, 24, 0x100_0000);
    OctetShifts(b, 16, 0x1_0000);
    OctetShifts(c, 8, 0x100);
    SumOfShifts(a, b, c, d);
  }

  lemma OctetShifts(x: nat, n: nat, p: nat)
    requires x <= 255 && n < 32 && Pow2(n) == p
    ensures ShiftLeft(x, n) == ToInt32(x * p)
  {
    assert ToInt32(x) == x && n % 32 == n;
  }

  lemma SumOfShifts(a: nat, b: nat, c: nat, d: nat)
    requires a <= 255 && b <= 255 && c <= 255 && d <= 255
    ensures ToUint32(ToUint32(ToInt32(a * 0x100_0000)) + ToInt32(b * 0x1_0000) + ToInt32(c * 0x100) + d)
         == QuadValue(a, b, c, d)
  {
    UnsignedAgain(a * 0x100_0000);
    SignedSmall(b * 0x1_0000);
    SignedSmall(c * 0x100);
    WordIsItself(QuadValue(a, b, c, d));
  }

  lemma UnsignedAgain(x: nat)
    requires x < WORD
    ensures ToUint32(ToInt32(x)) == x
  {}

  lemma SignedSmall(x: nat)
    requires x < WORD / 2
    ensures ToInt32(x) == x
  {}

  lemma MaskValue(prefix: nat)
    requires 1 <= prefix <= 32
    ensures Pow2(32 - prefix) <= WORD && Mask(prefix) == WORD - Pow2(32 - prefix)
  {
    Pow2Of(32);
    Pow2Grows(32 - prefix, 31);
    assert Pow2(32) == 2 * Pow2(31);
    NegativeWord(Pow2(32 - prefix));
    assert (32 - prefix) % 32 == 32 - prefix;
  }

  lemma NegativeWord(p: nat)
    requires 1 <= p <= WORD / 2
    ensures ToInt32(0xFFFF_FFFF) == -1
    ensures ToUint32(ToInt32(-1 * p)) == WORD - p
  {}

  /** Masking clears the bits below the prefix. */
  lemma MaskedIs(value: nat, prefix: nat)
    requires value < WORD && 1 <= prefix <= 32
    ensures And(value, Mask(prefix)) == ToInt32(value - value % Pow2(32 - prefix))
  {
    Pow2Of(32);
    MaskValue(prefix);
    MaskClearsLowBits(value, 32, 32 - prefix);
    AndOfWords(value, Mask(prefix));
  }

  lemma AndOfWords(x: nat, y: nat)
    requires x < WORD && y < WORD
    ensures And(x, y) == ToInt32(BitAnd(x, y))
  {
    WordIsItself(x);
    WordIsItself(y);
  }

  lemma WordIsItself(x: nat)
    requires x < WORD
    ensures ToUint32(x) == x
  {}

  /** The bit mask test is equality of quotients: both numbers lie in the same block of 2^(32-prefix) addresses. */
  lemma CidrIsQuotient(value: nat, network: nat, prefix: nat)
    requires value < WORD && network < WORD && prefix <= 32
    ensures InCidr(value, network, prefix) <==> value / Pow2(32 - prefix) == network / Pow2(32 - prefix)
  {
    if prefix == 0 {
      Pow2Of(32);
      Small(value, WORD);
      Small(network, WORD);
    } else {
      MaskedIs(value, prefix);
      MaskedIs(network, prefix);
      SameBlock(value, network, Pow2(32 - prefix));
    }
  }

  lemma SameBlock(value: nat, network: nat, p: nat)
    requires value < WORD && network < WORD && p > 0
    ensures ToInt32(value - value % p) == ToInt32(network - network % p) <==> value / p == network / p
  {
    SameHighBits(value, network, p);
    LowBitsFit(value, p);
    LowBitsFit(network, p);
    SignedIsInjective(value - value % p, network - network % p);
  }

  lemma LowBitsFit(v: nat, p: nat)
    requires p > 0
    ensures 0 <= v % p <= v
  {
    if v < p { Small(v, p); }
  }

  lemma SignedIsInjective(a: nat, b: nat)
    requires a < WORD && b < WORD
    ensures ToInt32(a) == ToInt32(b) <==> a == b
  {}

  /** The block `a.b.c.0/prefix`. */
  datatype Block = Block(a: nat, b: nat, c: nat, prefix: nat)

  /** The blocks the program treats as private or internal. */
  const BLOCKS: seq<Block> := [
    Block(0, 0, 0, 8), Block(10, 0, 0, 8), Block(100, 64, 0, 10), Block(127, 0, 0, 8), Block(169, 254, 0, 16),
    Block(172, 16, 0, 12), Block(192, 0, 0, 24), Block(192, 0, 2, 24), Block(192, 168, 0, 16), Block(198, 18, 0, 15),
    Block(198, 51, 100, 24), Block(203, 0, 113, 24), Block(224, 0, 0, 4), Block(240, 0, 0, 4)]

  /** The network of a block is parsed from its text. */
  predicate InBlock(value: nat, block: Block) {
    var network := Ipv4ToNumber(Quad(block.a, block.b, block.c, 0));
    network.Some? && block.prefix <= 32 && InCidr(value, network.value, block.prefix)
  }

  predicate PrivateNumber(value: nat) { exists i :: 0 <= i < |BLOCKS| && InBlock(value, BLOCKS[i]) }

  predicate IsPrivateIpv4(ip: string) {
    var value := Ipv4ToNumber(ip);
    value.None? || PrivateNumber(value.value)
  }

  function Low(block: Block): nat { QuadValue(block.a, block.b, block.c, 0) }

  function Size(block: Block): nat
    requires block.prefix <= 32
  {
    Pow2(32 - block.prefix)
  }

  predicate Aligned(block: Block) {
    block.a <= 255 && block.b <= 255 && block.c <= 255 && block.prefix <= 32 && Low(block) % Size(block) == 0
  }

  /** A block is one interval of numbers. */
  lemma BlockIsInterval(value: nat, block: Block)
    requires value < WORD && Aligned(block)
    ensures InBlock(value, block) <==> Low(block) <= value < Low(block) + Size(block)
  {
    QuadParses(block.a, block.b, block.c, 0);
    CidrIsQuotient(value, Low(block), block.prefix);
    QuotientIsInterval(value, Low(block), Size(block));
  }

  lemma QuotientIsInterval(value: nat, n: nat, p: nat)
    requires p > 0 && n % p == 0
    ensures value / p == n / p <==> n <= value < n + p
  {
    assert n == p * (n / p) && value == p * (value / p) + value % p;
    MultiplesApart(p, value / p, n / p);
    MultiplesApart(p, n / p, value / p);
  }
}
