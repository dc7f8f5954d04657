/** IPv6 addresses: writing out the run of zeros, the private ranges, and IPv4 addresses in IPv6 clothing. */
module Ipv6 {
  import opened Wrappers
  import opened Text
  import opened Bits
  import opened IpAddresses

  function LowerChar(c: char): char {
    if 'A' <= c <= 'Z' then (c as int + 32) as char else c
  }

  function ToLower(s: string): (r: string)
    ensures |r| == |s| && forall i :: 0 <= i < |s| ==> r[i] == LowerChar(s[i])
  {
    seq(|s|, i requires 0 <= i < |s| => LowerChar(s[i]))
  }

  /** Where the first `::` starts. */
  function FindDouble(s: string): Option<nat> {
    if |s| < 2 then None
    else if s[0] == ':' && s[1] == ':' then Some(0)
    else
      var rest := FindDouble(s[1..]);
      if rest.None? then None else Some(rest.value + 1)
  }

  function Hextet(part: string): Option<nat> {
    var parsed := ParseInt(part, 16);
    if |part| == 0 || |part| > 4 || parsed.None? || !(0 <= parsed.value <= 0xFFFF) then None else Some(parsed.value)
  }

  function AllSome<T>(s: seq<Option<T>>): Option<seq<T>> {
    if s == [] then Some([])
    else
      var front, last := AllSome(s[..|s| - 1]), s[|s| - 1];
      if front.None? || last.None? then None else Some(front.value + [last.value])
  }

  lemma {:induction false} NoneStays<T>(s: seq<Option<T>>, n: nat)
    requires n <= |s| && AllSome(s[..n]).None?
    ensures AllSome(s).None?
    decreases |s| - n
  {
    if n == |s| {
      assert s[..n] == s;
    } else {
      assert s[..n + 1][..n] == s[..n];
      NoneStays(s, n + 1);
    }
  }

  lemma {:induction false} AllSomeIff<T>(s: seq<Option<T>>, values: seq<T>)
    requires |s| == |values| && forall i :: 0 <= i < |s| ==> s[i] == Some(values[i])
    ensures AllSome(s) == Some(values)
  {
    if s != [] {
      var n := |s| - 1;
      AllSomeIff(s[..n], values[..n]);
      assert values == values[..n] + [values[n]];
    }
  }

  function Parsed(parts: seq<string>): (r: seq<Option<nat>>)
    ensures |r| == |parts| && forall i :: 0 <= i < |parts| ==> r[i] == Hextet(parts[i])
  {
    seq(|parts|, i requires 0 <= i < |parts| => Hextet(parts[i]))
  }

  function Hextets(value: string): Option<seq<nat>> {
    if value == "" then Some([]) else AllSome(Parsed(Split(value, ':')))
  }

  method CollectAll<T>(s: seq<Option<T>>) returns (r: Option<seq<T>>)
    ensures r == AllSome(s)
  {
    var values := [];
    for i := 0 to |s|
      invariant AllSome(s[..i]) == Some(values)
    {
      assert s[..i + 1][..i] == s[..i];
      if s[i].None? {
        NoneStays(s, i + 1);
        return None;
      }
      values := values + [s[i].value];
    }
    assert s[..|s|] == s;
    return Some(values);
  }

  method ParseHextets(value: string) returns (r: Option<seq<nat>>)
    ensures r == Hextets(value)
  {
    if value == "" { return Some([]); }
    r := CollectAll(Parsed(Split(value, ':')));
  }

  function Zeros(n: nat): seq<nat> { seq(n, _ => 0) }

  function Expand(ip: string, isIp: string -> nat): Option<seq<nat>> {
    if isIp(ip) != 6 then None else ExpandText(ToLower(ip))
  }

  function ExpandText(text: string): Option<seq<nat>> {
    var double := FindDouble(text);
    if double.None? then
      var all := Hextets(text);
      if all.Some? && |all.value| == 8 then all else None
    else if double.value + 2 > |text| || FindDouble(text[double.value + 2..]).Some? then None
    else Filled(Hextets(text[..double.value]), Hextets(text[double.value + 2..]))
  }

  function Filled(left: Option<seq<nat>>, right: Option<seq<nat>>): Option<seq<nat>> {
    if left.None? || right.None? || |left.value| + |right.value| > 7 then None
    else Some(left.value + Zeros(8 - |left.value| - |right.value|) + right.value)
  }

  // ---------------------------------------------------------------- every spelling expands to its hextets

  /** `text` writes the 16-bit group `v` in one to four hexadecimal digits of either case. */
  predicate Writes(text: string, v: nat) {
    1 <= |text| <= 4 && AllInRadix(text, 16) && Value(text, 16) == v
  }

  predicate WritesAll(texts: seq<string>, h: seq<nat>) {
    |texts| == |h| && forall i :: 0 <= i < |h| ==> Writes(texts[i], h[i])
  }

  lemma {:induction false} LowerKeepsValue(text: string)
    requires AllInRadix(text, 16)
    ensures AllInRadix(ToLower(text), 16) && Value(ToLower(text), 16) == Value(text, 16) && ':' !in ToLower(text)
  {
    if text != "" {
      var front := text[..|text| - 1];
      assert text == front + [text[|text| - 1]];
      LowerKeepsValue(front);
      assert ToLower(text) == ToLower(front) + [LowerChar(text[|text| - 1])];
      assert ToLower(text)[..|text| - 1] == ToLower(front);
      assert text[|text| - 1] in text;
    }
  }

  lemma {:induction false} FourDigitsFit(text: string)
    requires AllInRadix(text, 16) && |text| <= 4
    ensures Value(text, 16) <= (if |text| == 0 then 0 else if |text| == 1 then 0xF else if |text| == 2 then 0xFF else if |text| == 3 then 0xFFF else 0xFFFF)
  {
    if text != "" {
      assert text[|text| - 1] in text;
      FourDigitsFit(text[..|text| - 1]);
    }
  }

  lemma WrittenHextet(text: string, v: nat)
    requires Writes(text, v)
    ensures Writes(ToLower(text), v) && Hextet(ToLower(text)) == Some(v) && ':' !in ToLower(text) && v <= 0xFFFF
  {
    LowerKeepsValue(text);
    NumeralParses(ToLower(text), 16);
    FourDigitsFit(text);
  }

  function LowerAll(texts: seq<string>): (r: seq<string>)
    ensures |r| == |texts| && forall i :: 0 <= i < |r| ==> r[i] == ToLower(texts[i])
  {
    seq(|texts|, i requires 0 <= i < |texts| => ToLower(texts[i]))
  }

  lemma {:induction false} LowerJoined(texts: seq<string>)
    ensures ToLower(Joined(texts, ':')) == Joined(LowerAll(texts), ':')
  {
    if |texts| > 1 {
      LowerJoined(texts[1..]);
      assert LowerAll(texts)[1..] == LowerAll(texts[1..]);
      assert ToLower(Joined(texts, ':')) == ToLower(texts[0]) + [':'] + ToLower(Joined(texts[1..], ':'));
    }
  }

  lemma EachWritten(texts: seq<string>, h: seq<nat>)
    requires WritesAll(texts, h)
    ensures AllSome(Parsed(LowerAll(texts))) == Some(h)
  {
    forall i | 0 <= i < |h| ensures Parsed(LowerAll(texts))[i] == Some(h[i]) { WrittenHextet(texts[i], h[i]); }
    AllSomeIff(Parsed(LowerAll(texts)), h);
  }

  lemma JoinedHextets(texts: seq<string>, h: seq<nat>)
    requires WritesAll(texts, h)
    ensures Hextets(ToLower(Joined(texts, ':'))) == Some(h)
  {
    LowerJoined(texts);
    EachWritten(texts, h);
    if texts != [] {
      forall p | p in LowerAll(texts) ensures ':' !in p {
        var i :| 0 <= i < |texts| && LowerAll(texts)[i] == p;
        WrittenHextet(texts[i], h[i]);
      }
      SplitJoined(LowerAll(texts), ':');
      assert |LowerAll(texts)[0]| >= 1;
      assert Joined(LowerAll(texts), ':') != "";
    }
  }

  predicate Groups(parts: seq<string>) {
    forall i :: 0 <= i < |parts| ==> parts[i] != "" && ':' !in parts[i]
  }

  predicate NoDouble(s: string) {
    forall i :: 0 <= i < |s| - 1 ==> !(s[i] == ':' && s[i + 1] == ':')
  }

  lemma {:induction false} FindDoubleAt(s: string, rest: string)
    requires NoDouble(s) && (s != "" ==> s[|s| - 1] != ':')
    ensures FindDouble(s).None? && FindDouble(s + "::" + rest) == Some(|s|)
  {
    var t := s + "::" + rest;
    if s != "" {
      FindDoubleAt(s[1..], rest);
      assert t[1..] == s[1..] + "::" + rest;
      assert |s| > 1 ==> t[1] == s[1];
    }
  }

  lemma {:induction false} JoinedGroups(parts: seq<string>)
    requires Groups(parts)
    ensures var j := Joined(parts, ':');
      && NoDouble(j) && (j == "" <==> parts == [])
      && (j != "" ==> j[0] != ':' && j[|j| - 1] != ':')
  {
    if |parts| == 1 {
      assert parts[0][0] in parts[0] && parts[0][|parts[0]| - 1] in parts[0];
      forall i | 0 <= i < |parts[0]| ensures parts[0][i] != ':' { assert parts[0][i] in parts[0]; }
    } else if |parts| > 1 {
      JoinedGroups(parts[1..]);
      var p, j := parts[0], Joined(parts[1..], ':');
      forall i | 0 <= i < |p| ensures p[i] != ':' { assert p[i] in p; }
      var all := p + [':'] + j;
      forall i | 0 <= i < |all| - 1 ensures !(all[i] == ':' && all[i + 1] == ':') {
        if i > |p| { assert all[i] == j[i - |p| - 1] && all[i + 1] == j[i - |p|]; }
      }
    }
  }

  /** Joined groups hold no double colon, and the one that follows them is the first. */
  lemma FirstDouble(parts: seq<string>, rest: string)
    requires Groups(parts)
    ensures FindDouble(Joined(parts, ':')).None?
    ensures FindDouble(Joined(parts, ':') + "::" + rest) == Some(|Joined(parts, ':')|)
  {
    JoinedGroups(parts);
    FindDoubleAt(Joined(parts, ':'), rest);
  }

  lemma WrittenAreGroups(texts: seq<string>, h: seq<nat>)
    requires WritesAll(texts, h)
    ensures Groups(LowerAll(texts))
  {
    forall i | 0 <= i < |texts| ensures LowerAll(texts)[i] != "" && ':' !in LowerAll(texts)[i] {
      WrittenHextet(texts[i], h[i]);
    }
  }

  lemma CompressedShape(left: seq<string>, right: seq<string>)
    requires Groups(LowerAll(left)) && Groups(LowerAll(right))
    ensures var l, r := Joined(left, ':'), Joined(right, ':');
      var text := ToLower(l + "::" + r);
      && FindDouble(text) == Some(|l|) && |text| == |l| + 2 + |r|
      && text[..|l|] == ToLower(l) && text[|l| + 2..] == ToLower(r)
      && FindDouble(ToLower(r)).None?
  {
    var l, r := Joined(left, ':'), Joined(right, ':');
    LowerJoined(left);
    LowerJoined(right);
    FirstDouble(LowerAll(left), ToLower(r));
    FirstDouble(LowerAll(right), "");
    LowerAround(l, r);
    Around(ToLower(l), ToLower(r));
  }

  lemma LowerAround(l: string, r: string)
    ensures ToLower(l + "::" + r) == ToLower(l) + "::" + ToLower(r)
    ensures |ToLower(l)| == |l| && |ToLower(r)| == |r|
  {}

  lemma Around(l: string, r: string)
    ensures var text := l + "::" + r; |text| == |l| + 2 + |r| && text[..|l|] == l && text[|l| + 2..] == r
  {}

  /** Whichever run of zero groups is written as `::`, the eight groups come back. */
  lemma CompressedExpands(h: seq<nat>, i: nat, j: nat, left: seq<string>, right: seq<string>, isIp: string -> nat)
    requires |h| == 8 && i < j <= 8 && forall k :: i <= k < j ==> h[k] == 0
    requires WritesAll(left, h[..i]) && WritesAll(right, h[j..])
    requires isIp(Joined(left, ':') + "::" + Joined(right, ':')) == 6
    ensures Expand(Joined(left, ':') + "::" + Joined(right, ':'), isIp) == Some(h)
  {
    CompressedText(left, right, h[..i], h[j..]);
    FilledBack(h, i, j);
  }

  lemma FilledBack(h: seq<nat>, i: nat, j: nat)
    requires |h| == 8 && i < j <= 8 && forall k :: i <= k < j ==> h[k] == 0
    ensures Filled(Some(h[..i]), Some(h[j..])) == Some(h)
  {
    assert h == h[..i] + Zeros(j - i) + h[j..];
  }

  lemma CompressedText(left: seq<string>, right: seq<string>, a: seq<nat>, b: seq<nat>)
    requires WritesAll(left, a) && WritesAll(right, b)
    ensures ExpandText(ToLower(Joined(left, ':') + "::" + Joined(right, ':'))) == Filled(Some(a), Some(b))
  {
    WrittenAreGroups(left, a);
    WrittenAreGroups(right, b);
    CompressedShape(left, right);
    JoinedHextets(left, a);
    JoinedHextets(right, b);
  }

  lemma FullExpands(h: seq<nat>, texts: seq<string>, isIp: string -> nat)
    requires |h| == 8 && WritesAll(texts, h) && isIp(Joined(texts, ':')) == 6
    ensures Expand(Joined(texts, ':'), isIp) == Some(h)
  {
    LowerJoined(texts);
    WrittenAreGroups(texts, h);
    FirstDouble(LowerAll(texts), "");
    JoinedHextets(texts, h);
  }

  // ---------------------------------------------------------------- private ranges

  predicate PrivateHextets(h: seq<nat>)
    requires |h| == 8
  {
    || (forall i :: 0 <= i < 8 ==> h[i] == 0)
    || ((forall i :: 0 <= i < 7 ==> h[i] == 0) && h[7] == 1)
    || And(h[0], 0xFFC0) == 0xFE80
    || And(h[0], 0xFE00) == 0xFC00
    || And(h[0], 0xFF00) == 0xFF00
    || (h[0] == 0x2001 && h[1] == 0x0DB8)
  }

  lemma {:induction false} BitAndBelow(x: nat, y: nat)
    ensures BitAnd(x, y) <= x
  {
    if x != 0 && y != 0 { BitAndBelow(x / 2, y / 2); }
  }

  lemma SmallIsItself(x: nat)
    requires x <= 0xFFFF
    ensures ToInt32(x) == x
  {}

  lemma AndOfGroups(x: nat, y: nat)
    requires x <= 0xFFFF && y <= 0xFFFF
    ensures And(x, y) == BitAnd(x, y)
  {
    BitAndBelow(x, y);
    AndOfWords(x, y);
    SmallIsItself(BitAnd(x, y));
  }

  lemma MaskedGroup(v: nat, s: nat, p: nat)
    requires v <= 0xFFFF && 0 < s <= 16 && p == Pow2(s)
    ensures p <= 0x1_0000 && And(v, 0x1_0000 - p) == v - v % p
  {
    Pow2Of(16);
    MaskClearsLowBits(v, 16, s);
    AndOfGroups(v, 0x1_0000 - p);
  }

  /** The masks pick out the unspecified and loopback addresses, fe80::/10, fc00::/7, ff00::/8 and 2001:db8::/32. */
  lemma PrivateHextetsIff(h: seq<nat>)
    requires |h| == 8 && forall i :: 0 <= i < 8 ==> h[i] <= 0xFFFF
    ensures PrivateHextets(h) <==>
      || h == Zeros(8)
      || h == Zeros(7) + [1]
      || 0xFE80 <= h[0] <= 0xFEBF
      || 0xFC00 <= h[0] <= 0xFDFF
      || 0xFF00 <= h[0]
      || (h[0] == 0x2001 && h[1] == 0x0DB8)
  {
    FirstGroupMasks(h[0]);
    assert h == Zeros(8) <==> forall i :: 0 <= i < 8 ==> h[i] == 0;
    assert h == Zeros(7) + [1] <==> (forall i :: 0 <= i < 7 ==> h[i] == 0) && h[7] == 1;
  }

  lemma FirstGroupMasks(v: nat)
    requires v <= 0xFFFF
    ensures And(v, 0xFFC0) == 0xFE80 <==> 0xFE80 <= v <= 0xFEBF
    ensures And(v, 0xFE00) == 0xFC00 <==> 0xFC00 <= v <= 0xFDFF
    ensures And(v, 0xFF00) == 0xFF00 <==> 0xFF00 <= v
  {
    GroupSizes();
    GroupBlock(v, 6, 64, 0xFE80);
    GroupBlock(v, 9, 512, 0xFC00);
    GroupBlock(v, 8, 256, 0xFF00);
  }

  /** Masking to a block of `p` groups picks out one interval. */
  lemma GroupBlock(v: nat, s: nat, p: nat, low: nat)
    requires v <= 0xFFFF && 0 < s <= 16 && p == Pow2(s) && low % p == 0
    ensures p <= 0x1_0000 && (And(v, 0x1_0000 - p) == low <==> low <= v < low + p)
  {
    MaskedGroup(v, s, p);
    InOneBlock(v, p, low);
  }

  lemma InOneBlock(v: nat, p: nat, low: nat)
    requires p > 0 && low % p == 0
    ensures v - v % p == low <==> low <= v < low + p
  {
    SameHighBits(v, low, p);
    QuotientIsInterval(v, low, p);
  }

  lemma GroupSizes()
    ensures Pow2(6) == 64 && Pow2(8) == 256 && Pow2(9) == 512
  {
    assert Pow2(3) == 8;
    Pow2Splits(3, 3);
    Pow2Splits(6, 3);
    Pow2Of(16);
  }

  predicate IsPrivateIpv6(ip: string, isIp: string -> nat) {
    var h := Expand(ip, isIp);
    h.None? || |h.value| != 8 || PrivateHextets(h.value)
  }

  // ---------------------------------------------------------------- mapped IPv4 addresses

  const MAPPED := "::ffff:"

  function NormalizeMapped(ip: string, isIp: string -> nat): string {
    if !(MAPPED <= ip) then ip
    else
      var suffix := ip[|MAPPED|..];
      if isIp(suffix) == 4 then suffix
      else
        var parts := Split(suffix, ':');
        if |parts| != 2 || FromGroups(parts[0], parts[1]).None? then ip else FromGroups(parts[0], parts[1]).value
  }

  function FromGroups(first: string, second: string): Option<string> {
    var high, low := ParseInt(first, 16), ParseInt(second, 16);
    if high.None? || low.None? || !(0 <= high.value <= 0xFFFF) || !(0 <= low.value <= 0xFFFF) then None
    else Some(Quad(HighByte(high.value), LowByte(high.value), HighByte(low.value), LowByte(low.value)))
  }

  /** `(v >> 8) & 0xff` and `v & 0xff`. */
  function HighByte(v: nat): (r: nat)
    requires v <= 0xFFFF
    ensures r == v / 256
  {
    HighByteOf(v);
    And(ShiftRight(v, 8), 0xFF)
  }

  lemma HighByteOf(v: nat)
    requires v <= 0xFFFF
    ensures And(ShiftRight(v, 8), 0xFF) == v / 256
  {
    var h, x := v / 256, ShiftRight(v, 8);
    assert x == h by { ShiftedByte(v); }
    ByteOf(h);
    Small(h, 256);
  }

  function LowByte(v: nat): (r: nat)
    requires v <= 0xFFFF
    ensures r == v % 256
  {
    ByteOf(v);
    And(v, 0xFF)
  }

  lemma ShiftedByte(v: nat)
    requires v <= 0xFFFF
    ensures ShiftRight(v, 8) == v / 256
  {
    Pow2Of(8);
    SmallIsItself(v);
  }

  lemma ByteOf(v: nat)
    requires v <= 0xFFFF
    ensures And(v, 0xFF) == v % 256
  {
    Pow2Of(8);
    LowMask(v, 8);
    AndOfGroups(v, 0xFF);
  }

  lemma {:induction false} LowMask(v: nat, k: nat)
    ensures BitAnd(v, Pow2(k) - 1) == v % Pow2(k)
  {
    if k > 0 && v > 0 {
      LowMask(v / 2, k - 1);
      assert (Pow2(k) - 1) / 2 == Pow2(k - 1) - 1 && (Pow2(k) - 1) % 2 == 1;
      HalvesOfRemainder(v, Pow2(k - 1));
    } else if v == 0 {
      Small(0, Pow2(k));
    }
  }

  /** A mapped address in hexadecimal becomes a dotted quad that reads back as the same 32-bit number. */
  lemma MappedReadsBack(hi: string, lo: string, high: nat, low: nat, isIp: string -> nat)
    requires Writes(hi, high) && Writes(lo, low) && isIp(hi + [':'] + lo) != 4
    ensures Ipv4ToNumber(NormalizeMapped(MAPPED + (hi + [':'] + lo), isIp)) == Some(high * 0x1_0000 + low)
  {
    FourDigitsFit(hi);
    FourDigitsFit(lo);
    NormalizedMapped(hi, lo, high, low, isIp);
    QuadOfGroups(high, low);
  }

  lemma QuadOfGroups(high: nat, low: nat)
    requires high <= 0xFFFF && low <= 0xFFFF
    ensures Ipv4ToNumber(Quad(high / 256, high % 256, low / 256, low % 256)) == Some(high * 0x1_0000 + low)
  {
    BytesOf(high);
    BytesOf(low);
    QuadOfBytes(high / 256, high % 256, low / 256, low % 256, high, low);
  }

  lemma QuadOfBytes(a: nat, b: nat, c: nat, d: nat, high: nat, low: nat)
    requires a <= 255 && b <= 255 && c <= 255 && d <= 255 && high == 256 * a + b && low == 256 * c + d
    ensures Ipv4ToNumber(Quad(a, b, c, d)) == Some(high * 0x1_0000 + low)
  {
    QuadParses(a, b, c, d);
    BytesAddUp(a, b, c, d, high, low);
  }

  lemma NormalizedMapped(hi: string, lo: string, high: nat, low: nat, isIp: string -> nat)
    requires Writes(hi, high) && Writes(lo, low) && high <= 0xFFFF && low <= 0xFFFF && isIp(hi + [':'] + lo) != 4
    ensures NormalizeMapped(MAPPED + (hi + [':'] + lo), isIp) == Quad(high / 256, high % 256, low / 256, low % 256)
  {
    var suffix := hi + [':'] + lo;
    assert MAPPED <= MAPPED + suffix && (MAPPED + suffix)[|MAPPED|..] == suffix;
    HexParts(hi, lo);
    GroupsAreQuad(hi, lo, high, low);
  }

  lemma GroupsAreQuad(hi: string, lo: string, high: nat, low: nat)
    requires Writes(hi, high) && Writes(lo, low) && high <= 0xFFFF && low <= 0xFFFF
    ensures FromGroups(hi, lo) == Some(Quad(high / 256, high % 256, low / 256, low % 256))
  {
    NumeralParses(hi, 16);
    NumeralParses(lo, 16);
  }

  lemma BytesOf(v: nat)
    requires v <= 0xFFFF
    ensures v == 256 * (v / 256) + v % 256 && v / 256 <= 255 && v % 256 <= 255
  {}

  lemma BytesAddUp(a: nat, b: nat, c: nat, d: nat, high: nat, low: nat)
    requires high == 256 * a + b && low == 256 * c + d
    ensures QuadValue(a, b, c, d) == high * 0x1_0000 + low
  {}

  lemma HexParts(hi: string, lo: string)
    requires AllInRadix(hi, 16) && AllInRadix(lo, 16)
    ensures Split(hi + [':'] + lo, ':') == [hi, lo]
  {
    SplitFirst(hi, lo, ':');
    SplitFirst(lo, "", ':');
  }
}
