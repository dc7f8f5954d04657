/** What the two URL checks make of an address is said by its number alone, in every spelling of it. */
module UrlNumbers {
  import opened Wrappers
  import opened Text
  import opened Decimal
  import opened Bits
  import opened IpAddresses
  import opened IpBlocks
  import opened Ipv6
  import opened UrlChecks

  // ---------------------------------------------------------------- addresses and their spellings

  /** The ways to write an address: a dotted quad; one inside an IPv6 address, in dots or in two groups; eight groups; and
      eight groups `h` whose run of zeros from `i` to `j` is left out. */
  datatype Address =
    | Dotted(a: nat, b: nat, c: nat, d: nat)
    | MappedDotted(a: nat, b: nat, c: nat, d: nat)
    | MappedGroups(hi: string, lo: string, high: nat, low: nat)
    | Full(texts: seq<string>, h: seq<nat>)
    | Compressed(left: seq<string>, right: seq<string>, h: seq<nat>, i: nat, j: nat)

  function TextOf(x: Address): string {
    match x
    case Dotted(a, b, c, d) => Quad(a, b, c, d)
    case MappedDotted(a, b, c, d) => "::ffff:" + Quad(a, b, c, d)
    case MappedGroups(hi, lo, _, _) => "::ffff:" + (hi + [':'] + lo)
    case Full(texts, _) => Joined(texts, ':')
    case Compressed(left, right, _, _, _) => Joined(left, ':') + "::" + Joined(right, ':')
  }

  predicate AreOctets(a: nat, b: nat, c: nat, d: nat) { a <= 255 && b <= 255 && c <= 255 && d <= 255 }

  /** The text writes the address and the platform knows it; a compressed one is none of those that carry a quad. */
  predicate Proper(x: Address, isIp: string -> nat) {
    match x
    case Dotted(a, b, c, d) => AreOctets(a, b, c, d) && isIp(Quad(a, b, c, d)) == 4
    case MappedDotted(a, b, c, d) => AreOctets(a, b, c, d) && isIp(Quad(a, b, c, d)) == 4 && isIp(TextOf(x)) == 6
    case MappedGroups(hi, lo, high, low) =>
      && Writes(hi, high) && Writes(lo, low) && isIp(ToLower(TextOf(x))) == 6
      && isIp(Quad(high / 256, high % 256, low / 256, low % 256)) == 4
    case Full(texts, h) => |h| == 8 && WritesAll(texts, h) && isIp(ToLower(TextOf(x))) == 6
    case Compressed(left, right, h, i, j) =>
      && |h| == 8 && i < j <= 8 && (forall k :: i <= k < j ==> h[k] == 0)
      && WritesAll(left, h[..i]) && WritesAll(right, h[j..]) && isIp(ToLower(TextOf(x))) == 6
      && !(left == [] && |right| == 3 && ToLower(right[0]) == "ffff")
  }

  /** The platform knows a text as an IPv4 address only when it holds a dot. */
  ghost predicate DotsInQuads(isIp: string -> nat) { forall s :: '.' !in s ==> isIp(s) != 4 }

  /** The IPv4 number an address stands for. */
  function NumberOf(x: Address): nat
    requires !x.Full? && !x.Compressed?
  {
    if x.MappedGroups? then x.high * 0x1_0000 + x.low else QuadValue(x.a, x.b, x.c, x.d)
  }

  predicate InPrivateRange(h: seq<nat>) {
    |h| == 8 &&
    (|| h == [0, 0, 0, 0, 0, 0, 0, 0]
     || h == [0, 0, 0, 0, 0, 0, 0, 1]
     || 0xFE80 <= h[0] <= 0xFEBF
     || 0xFC00 <= h[0] <= 0xFDFF
     || 0xFF00 <= h[0]
     || (h[0] == 0x2001 && h[1] == 0x0DB8))
  }

  predicate Reserved(x: Address) {
    if x.Full? || x.Compressed? then InPrivateRange(x.h) else InPrivateInterval(NumberOf(x))
  }

  /** The metadata addresses: four numbers, and one IPv6 text. */
  predicate Metadata(x: Address) {
    if x.Full? || x.Compressed? then ToLower(TextOf(x)) == "fd00:ec2::254"
    else MetadataNumber(NumberOf(x))
  }

  predicate MetadataNumber(value: nat) {
    || value == QuadValue(169, 254, 169, 254) || value == QuadValue(169, 254, 170, 2)
    || value == QuadValue(169, 254, 169, 253) || value == QuadValue(100, 100, 100, 200)
  }

  // ---------------------------------------------------------------- the characters of an address

  predicate AddressChar(c: char) { '0' <= c <= '9' || 'a' <= c <= 'f' || c == '.' || c == ':' }

  predicate AddressChars(s: string) { forall k :: 0 <= k < |s| ==> AddressChar(s[k]) }

  lemma LowerIsLower(s: string)
    requires AddressChars(s)
    ensures ToLower(s) == s
  {}

  lemma {:induction false} JoinedChars(parts: seq<string>, sep: char)
    requires AddressChar(sep) && forall k :: 0 <= k < |parts| ==> AddressChars(parts[k])
    ensures AddressChars(Joined(parts, sep))
  {
    if |parts| > 1 { JoinedChars(parts[1..], sep); }
  }

  lemma {:induction false} NoDotJoined(parts: seq<string>)
    requires forall k :: 0 <= k < |parts| ==> '.' !in parts[k]
    ensures '.' !in Joined(parts, ':')
  {
    if |parts| > 1 { NoDotJoined(parts[1..]); }
  }

  lemma PrintedChars(n: nat)
    ensures AddressChars(Print(n)) && Print(n) != "" && IsDigit(Print(n)[|Print(n)| - 1]) && IsDigit(Print(n)[0])
  {
    PrintParses(n);
    forall k | 0 <= k < |Print(n)| ensures IsDigit(Print(n)[k]) { assert Print(n)[k] in Print(n); }
  }

  lemma QuadChars(a: nat, b: nat, c: nat, d: nat)
    ensures var q := Quad(a, b, c, d); AddressChars(q) && '.' in q && ':' !in q && IsDigit(q[|q| - 1]) && IsDigit(q[0])
  {
    PrintedChars(a);
    PrintedChars(b);
    PrintedChars(c);
    PrintedChars(d);
    QuadSpelled(Print(a), Print(b), Print(c), Print(d));
    DigitsOnly(a);
    DigitsOnly(b);
    DigitsOnly(c);
    DigitsOnly(d);
  }

  lemma DigitsOnly(n: nat)
    ensures ':' !in Print(n) && '.' !in Print(n)
  {
    PrintParses(n);
  }

  lemma QuadSpelled(p: string, q: string, r: string, s: string)
    ensures Joined([p, q, r, s], '.') == p + ['.'] + (q + ['.'] + (r + ['.'] + s))
  {
    assert Joined([s], '.') == s;
    assert [r, s][1..] == [s] && [q, r, s][1..] == [r, s] && [p, q, r, s][1..] == [q, r, s];
    assert Joined([r, s], '.') == r + ['.'] + s;
    assert Joined([q, r, s], '.') == q + ['.'] + (r + ['.'] + s);
  }

  /** Hexadecimal groups hold no dot, and in lower case only characters of an address. */
  lemma GroupChars(text: string)
    requires AllInRadix(text, 16)
    ensures AddressChars(ToLower(text)) && '.' !in ToLower(text)
  {
    forall k | 0 <= k < |text| ensures AddressChar(ToLower(text)[k]) && ToLower(text)[k] != '.' { assert text[k] in text; }
  }

  lemma GroupsChars(texts: seq<string>, h: seq<nat>)
    requires WritesAll(texts, h)
    ensures var t := ToLower(Joined(texts, ':')); AddressChars(t) && '.' !in t
  {
    LowerJoined(texts);
    forall k | 0 <= k < |texts| ensures AddressChars(LowerAll(texts)[k]) && '.' !in LowerAll(texts)[k] {
      GroupChars(texts[k]);
    }
    JoinedChars(LowerAll(texts), ':');
    NoDotJoined(LowerAll(texts));
  }

  lemma CompressedChars(left: seq<string>, right: seq<string>, a: seq<nat>, b: seq<nat>)
    requires WritesAll(left, a) && WritesAll(right, b)
    ensures var t := ToLower(Joined(left, ':') + "::" + Joined(right, ':')); AddressChars(t) && '.' !in t && t != ""
  {
    GroupsChars(left, a);
    GroupsChars(right, b);
    LowerAround(Joined(left, ':'), Joined(right, ':'));
  }

  /** An address in lower case is clean: no space, bracket or upper-case letter, and no dot at the end. */
  predicate Clean(s: string) { s != "" && AddressChars(s) && s[|s| - 1] != '.' }

  lemma AddressIsClean(x: Address, isIp: string -> nat)
    requires Proper(x, isIp)
    ensures Clean(ToLower(TextOf(x)))
  {
    match x
    case Dotted(a, b, c, d) =>
      QuadChars(a, b, c, d);
      LowerIsLower(TextOf(x));
    case MappedDotted(a, b, c, d) =>
      QuadChars(a, b, c, d);
      LowerIsLower(TextOf(x));
    case MappedGroups(hi, lo, _, _) =>
      GroupChars(hi);
      GroupChars(lo);
      LowerMapped(hi, lo);
      MappedIsClean(ToLower(hi), ToLower(lo));
    case Full(texts, h) =>
      GroupsChars(texts, h);
      WrittenAreGroups(texts, h);
      LowerJoined(texts);
      JoinedGroups(LowerAll(texts));
    case Compressed(left, right, h, i, j) =>
      CompressedChars(left, right, h[..i], h[j..]);
  }

  lemma LowerMapped(hi: string, lo: string)
    ensures ToLower("::ffff:" + (hi + [':'] + lo)) == "::ffff:" + (ToLower(hi) + [':'] + ToLower(lo))
  {}

  lemma MappedIsClean(hi: string, lo: string)
    requires AddressChars(hi) && AddressChars(lo) && '.' !in lo
    ensures Clean("::ffff:" + (hi + [':'] + lo))
  {}

  // ---------------------------------------------------------------- normalising

  lemma CleanTrims(s: string)
    requires Clean(s)
    ensures Trim(s) == s && StripBrackets(s) == s && ToLower(s) == s && TrimDots(s) == s
  {
    LowerIsLower(s);
    NoSpace(s[0]);
    NoSpace(s[|s| - 1]);
    SolidTrims(s);
  }

  lemma NoSpace(c: char)
    requires AddressChar(c)
    ensures !IsSpace(c) && c != '['
  {}

  lemma SolidTrims(s: string)
    requires s != "" && !IsSpace(s[0]) && !IsSpace(s[|s| - 1])
    ensures Trim(s) == s
  {
    assert TrimEnd(s) == s;
  }

  lemma CleanNormalizes(s: string, isIp: string -> nat)
    requires Clean(s)
    ensures NormalizeHostname(s) == s
    ensures NormalizeIp(s, isIp) == if isIp(s) == 0 then None else Some(NormalizeMapped(s, isIp))
  {
    CleanTrims(s);
  }

  /** The text both checks end up judging. */
  function Judged(x: Address): string {
    match x
    case MappedDotted(a, b, c, d) => Quad(a, b, c, d)
    case MappedGroups(_, _, high, low) => Quad(high / 256, high % 256, low / 256, low % 256)
    case _ => ToLower(TextOf(x))
  }

  lemma UnmappedFull(texts: seq<string>, h: seq<nat>, isIp: string -> nat)
    requires |h| == 8 && WritesAll(texts, h)
    ensures NormalizeMapped(ToLower(Joined(texts, ':')), isIp) == ToLower(Joined(texts, ':'))
  {
    LowerJoined(texts);
    WrittenAreGroups(texts, h);
    JoinedGroups(LowerAll(texts));
  }

  /** A compressed text that starts like a mapped one leaves out the first groups, and its first written group is ffff. */
  lemma MappedStart(left: seq<string>, right: seq<string>, a: seq<nat>, b: seq<nat>)
    requires WritesAll(left, a) && WritesAll(right, b)
    requires MAPPED <= ToLower(Joined(left, ':') + "::" + Joined(right, ':'))
    ensures left == [] && right != [] && ToLower(right[0]) == "ffff"
    ensures Split(ToLower(Joined(left, ':') + "::" + Joined(right, ':'))[|MAPPED|..], ':') == LowerAll(right)[1..]
  {
    var l, r := ToLower(Joined(left, ':')), ToLower(Joined(right, ':'));
    LowerAround(Joined(left, ':'), Joined(right, ':'));
    LowerJoined(left);
    LowerJoined(right);
    WrittenAreGroups(left, a);
    WrittenAreGroups(right, b);
    JoinedGroups(LowerAll(left));
    JoinedGroups(LowerAll(right));
    assert (l + "::" + r)[0] == MAPPED[0];
    assert l == "";
    assert ToLower(Joined(left, ':') + "::" + Joined(right, ':')) == "::" + r;
    StartsWithGroup(r, LowerAll(right));
  }

  lemma StartsWithGroup(r: string, parts: seq<string>)
    requires MAPPED <= "::" + r && Groups(parts) && r == Joined(parts, ':')
    ensures parts != [] && parts[0] == "ffff" && Split(("::" + r)[|MAPPED|..], ':') == parts[1..]
  {
    var rest := r[5..];
    assert ("::" + r)[2..] == r && MAPPED[2..] == "ffff:";
    assert r[..5] == "ffff:";
    assert r == "ffff" + [':'] + rest;
    SplitFirst("ffff", rest, ':');
    JoinedGroups(parts);
    forall p | p in parts ensures ':' !in p {}
    SplitJoined(parts, ':');
    assert ("::" + r)[|MAPPED|..] == rest;
    assert ["ffff"] + Split(rest, ':') == parts;
  }

  lemma {:induction false} DotlessRest(s: string, n: nat)
    requires '.' !in s && n <= |s|
    ensures '.' !in s[n..]
  {}

  lemma UnmappedCompressed(left: seq<string>, right: seq<string>, a: seq<nat>, b: seq<nat>, isIp: string -> nat)
    requires DotsInQuads(isIp) && WritesAll(left, a) && WritesAll(right, b)
    requires !(left == [] && |right| == 3 && ToLower(right[0]) == "ffff")
    ensures var t := ToLower(Joined(left, ':') + "::" + Joined(right, ':')); NormalizeMapped(t, isIp) == t
  {
    var t := ToLower(Joined(left, ':') + "::" + Joined(right, ':'));
    if MAPPED <= t {
      MappedStart(left, right, a, b);
      CompressedChars(left, right, a, b);
      DotlessRest(t, |MAPPED|);
    }
  }

  lemma QuadNormalizes(a: nat, b: nat, c: nat, d: nat, isIp: string -> nat)
    requires isIp(Quad(a, b, c, d)) == 4
    ensures var q := Quad(a, b, c, d);
      && ToLower(q) == q && NormalizeMapped(q, isIp) == q
      && ToLower("::ffff:" + q) == "::ffff:" + q && NormalizeMapped("::ffff:" + q, isIp) == q
  {
    QuadChars(a, b, c, d);
    LowerIsLower(Quad(a, b, c, d));
    LowerIsLower("::ffff:" + Quad(a, b, c, d));
    PrefixedMaps(Quad(a, b, c, d), isIp);
  }

  lemma PrefixedMaps(q: string, isIp: string -> nat)
    requires isIp(q) == 4 && q != "" && q[0] != ':'
    ensures NormalizeMapped(q, isIp) == q && NormalizeMapped("::ffff:" + q, isIp) == q
  {
    assert ("::ffff:" + q)[|MAPPED|..] == q;
  }

  lemma NormalizedIs(x: Address, isIp: string -> nat)
    requires Proper(x, isIp) && DotsInQuads(isIp)
    ensures Clean(ToLower(TextOf(x))) && NormalizeIp(ToLower(TextOf(x)), isIp) == Some(Judged(x))
  {
    AddressIsClean(x, isIp);
    CleanNormalizes(ToLower(TextOf(x)), isIp);
    match x
    case Dotted(a, b, c, d) =>
      QuadNormalizes(a, b, c, d, isIp);
    case MappedDotted(a, b, c, d) =>
      QuadNormalizes(a, b, c, d, isIp);
    case MappedGroups(hi, lo, high, low) =>
      MappedGroupsNormalize(hi, lo, high, low, isIp);
    case Full(texts, h) =>
      UnmappedFull(texts, h, isIp);
    case Compressed(left, right, h, i, j) =>
      UnmappedCompressed(left, right, h[..i], h[j..], isIp);
  }

  lemma MappedGroupsNormalize(hi: string, lo: string, high: nat, low: nat, isIp: string -> nat)
    requires Writes(hi, high) && Writes(lo, low) && DotsInQuads(isIp)
    ensures NormalizeMapped(ToLower("::ffff:" + (hi + [':'] + lo)), isIp)
         == Quad(high / 256, high % 256, low / 256, low % 256)
  {
    LowerMapped(hi, lo);
    WrittenHextet(hi, high);
    WrittenHextet(lo, low);
    GroupChars(hi);
    GroupChars(lo);
    assert '.' !in ToLower(hi) + [':'] + ToLower(lo);
    NormalizedMapped(ToLower(hi), ToLower(lo), high, low, isIp);
  }

  /** Normalising again changes nothing. */
  lemma JudgedIsNormal(x: Address, isIp: string -> nat)
    requires Proper(x, isIp) && DotsInQuads(isIp)
    ensures NormalizeIp(Judged(x), isIp) == Some(Judged(x))
  {
    NormalizedIs(x, isIp);
    match x
    case MappedDotted(a, b, c, d) =>
      NormalizedIs(Dotted(a, b, c, d), isIp);
      QuadChars(a, b, c, d);
      LowerIsLower(Quad(a, b, c, d));
    case MappedGroups(hi, lo, high, low) =>
      WrittenHextet(hi, high);
      WrittenHextet(lo, low);
      BytesOf(high);
      BytesOf(low);
      NormalizedIs(Dotted(high / 256, high % 256, low / 256, low % 256), isIp);
      QuadChars(high / 256, high % 256, low / 256, low % 256);
      LowerIsLower(Quad(high / 256, high % 256, low / 256, low % 256));
    case _ =>
  }

  // ---------------------------------------------------------------- what is judged

  lemma QuadOf(a: nat, b: nat, c: nat, d: nat, p: string, q: string, r: string, s: string)
    requires Print(a) == p && Print(b) == q && Print(c) == r && Print(d) == s
    ensures Quad(a, b, c, d) == p + ['.'] + (q + ['.'] + (r + ['.'] + s))
  {
    QuadSpelled(p, q, r, s);
  }

  lemma InstanceQuad()
    ensures Quad(169, 254, 169, 254) == "169.254.169.254"
  {
    Numerals();
    QuadOf(169, 254, 169, 254, "169", "254", "169", "254");
  }

  lemma TaskQuad()
    ensures Quad(169, 254, 170, 2) == "169.254.170.2"
  {
    Numerals();
    QuadOf(169, 254, 170, 2, "169", "254", "170", "2");
  }

  lemma ResolverQuad()
    ensures Quad(169, 254, 169, 253) == "169.254.169.253"
  {
    Numerals();
    QuadOf(169, 254, 169, 253, "169", "254", "169", "253");
  }

  lemma CarrierQuad()
    ensures Quad(100, 100, 100, 200) == "100.100.100.200"
  {
    Numerals();
    QuadOf(100, 100, 100, 200, "100", "100", "100", "200");
  }

  lemma Numerals()
    ensures Print(169) == "169" && Print(254) == "254" && Print(253) == "253" && Print(170) == "170" && Print(2) == "2"
    ensures Print(100) == "100" && Print(200) == "200"
  {
    assert Print(1) == "1" && Print(2) == "2";
    assert Print(16) == "16" && Print(25) == "25" && Print(17) == "17" && Print(10) == "10" && Print(20) == "20";
  }

  lemma QuadsAgree(a: nat, b: nat, c: nat, d: nat, a': nat, b': nat, c': nat, d': nat)
    requires AreOctets(a, b, c, d) && AreOctets(a', b', c', d')
    ensures Quad(a, b, c, d) == Quad(a', b', c', d') <==> QuadValue(a, b, c, d) == QuadValue(a', b', c', d')
  {
    QuadParses(a, b, c, d);
    QuadParses(a', b', c', d');
    if QuadValue(a, b, c, d) == QuadValue(a', b', c', d') { OctetsOfValue(a, b, c, d, a', b', c', d'); }
  }

  lemma OctetsOfValue(a: nat, b: nat, c: nat, d: nat, a': nat, b': nat, c': nat, d': nat)
    requires AreOctets(a, b, c, d) && AreOctets(a', b', c', d') && QuadValue(a, b, c, d) == QuadValue(a', b', c', d')
    ensures a == a' && b == b' && c == c' && d == d'
  {}

  /** A quad is private exactly when its number lies in one of the intervals, and blocked exactly when it is one of four. */
  lemma QuadJudged(a: nat, b: nat, c: nat, d: nat, isIp: string -> nat)
    requires AreOctets(a, b, c, d) && isIp(Quad(a, b, c, d)) == 4
    ensures IsPrivate(Quad(a, b, c, d), isIp) <==> InPrivateInterval(QuadValue(a, b, c, d))
    ensures Quad(a, b, c, d) in BLOCKED_IPS <==> MetadataNumber(QuadValue(a, b, c, d))
    ensures MetadataNumber(QuadValue(a, b, c, d)) ==> InPrivateInterval(QuadValue(a, b, c, d))
  {
    QuadParses(a, b, c, d);
    PrivateIsIntervals(QuadValue(a, b, c, d));
    QuadBlocked(a, b, c, d);
    MetadataIsPrivate(QuadValue(a, b, c, d));
  }

  lemma MetadataIsPrivate(value: nat)
    ensures MetadataNumber(value) ==> InPrivateInterval(value)
  {}

  lemma QuadBlocked(a: nat, b: nat, c: nat, d: nat)
    requires AreOctets(a, b, c, d)
    ensures Quad(a, b, c, d) in BLOCKED_IPS <==> MetadataNumber(QuadValue(a, b, c, d))
  {
    InstanceQuad();
    TaskQuad();
    ResolverQuad();
    CarrierQuad();
    BlockedByQuad(Quad(a, b, c, d), Quad(169, 254, 169, 254), Quad(169, 254, 170, 2), Quad(169, 254, 169, 253), Quad(100, 100, 100, 200));
    QuadsAgree(a, b, c, d, 169, 254, 169, 254);
    QuadsAgree(a, b, c, d, 169, 254, 170, 2);
    QuadsAgree(a, b, c, d, 169, 254, 169, 253);
    QuadsAgree(a, b, c, d, 100, 100, 100, 200);
    QuadChars(a, b, c, d);
  }

  lemma BlockedByQuad(q: string, p: string, r: string, s: string, t: string)
    requires p == "169.254.169.254" && r == "169.254.170.2" && s == "169.254.169.253" && t == "100.100.100.200"
    ensures ':' !in q ==> (q in BLOCKED_IPS <==> q in {p, r, s, t})
  {
    assert "fd00:ec2::254"[4] == ':';
  }

  lemma GroupsJudged(t: string, h: seq<nat>, isIp: string -> nat)
    requires |h| == 8 && (forall k :: 0 <= k < 8 ==> h[k] <= 0xFFFF) && isIp(t) == 6 && Expand(t, isIp) == Some(h)
    ensures IsPrivate(t, isIp) <==> InPrivateRange(h)
  {
    PrivateHextetsIff(h);
    assert Zeros(8) == [0, 0, 0, 0, 0, 0, 0, 0] && Zeros(7) + [1] == [0, 0, 0, 0, 0, 0, 0, 1];
  }

  lemma DotlessBlocked(t: string)
    requires '.' !in t
    ensures t in BLOCKED_IPS <==> t == "fd00:ec2::254"
  {
    assert "169.254.169.254"[3] == '.' && "169.254.170.2"[3] == '.' && "169.254.169.253"[3] == '.';
    assert "100.100.100.200"[3] == '.';
  }

  lemma JoinedTwo(p: string, q: string)
    ensures Joined([p, q], ':') == p + [':'] + q && Joined([q], ':') == q
  {
    assert [p, q][1..] == [q];
  }

  /** The one IPv6 text that is always blocked stands for an address in fc00::/7. */
  lemma BlockedTextExpands()
    ensures ExpandText("fd00:ec2::254") == Some([0xfd00, 0xec2, 0, 0, 0, 0, 0, 0x254])
  {
    HexValues();
    BlockedText();
    TwoAndOne("fd00:ec2::254", "fd00", "ec2", "254", 0xfd00, 0xec2, 0x254);
  }

  lemma BlockedText()
    ensures ToLower("fd00:ec2::254") == "fd00:ec2::254" == "fd00" + [':'] + "ec2" + "::" + "254"
  {
    LowerIsLower("fd00:ec2::254");
  }

  lemma TwoAndOne(t: string, p: string, q: string, r: string, u: nat, v: nat, w: nat)
    requires Writes(p, u) && Writes(q, v) && Writes(r, w) && ToLower(t) == t == p + [':'] + q + "::" + r
    ensures ExpandText(t) == Some([u, v, 0, 0, 0, 0, 0, w])
  {
    JoinedTwo(p, q);
    JoinedTwo(q, r);
    CompressedText([p, q], [r], [u, v], [w]);
    var left, right: seq<nat> := [u, v], [w];
    assert left + Zeros(5) + right == [u, v, 0, 0, 0, 0, 0, w];
  }

  lemma FourHex(s: string)
    requires |s| == 4
    ensures Value(s, 16) == ((DigitOf(s[0]) * 16 + DigitOf(s[1])) * 16 + DigitOf(s[2])) * 16 + DigitOf(s[3])
  {
    ThreeHex(s[..3]);
  }

  lemma ThreeHex(s: string)
    requires |s| == 3
    ensures Value(s, 16) == (DigitOf(s[0]) * 16 + DigitOf(s[1])) * 16 + DigitOf(s[2])
  {
    var two := s[..2];
    assert two[..1] == s[..1] && Value(s[..1], 16) == DigitOf(s[0]) by { assert s[..1][..0] == ""; }
    assert Value(two, 16) == 16 * Value(s[..1], 16) + DigitOf(s[1]);
  }

  lemma HexValues()
    ensures Writes("fd00", 0xfd00) && Writes("ec2", 0xec2) && Writes("254", 0x254)
  {
    FourHex("fd00");
    ThreeHex("ec2");
    ThreeHex("254");
  }

  lemma WrittenExpands(x: Address, isIp: string -> nat)
    requires (x.Full? || x.Compressed?) && Proper(x, isIp)
    ensures Expand(Judged(x), isIp) == Some(x.h) && ExpandText(Judged(x)) == Some(x.h) && '.' !in Judged(x)
    ensures forall k :: 0 <= k < 8 ==> x.h[k] <= 0xFFFF
  {
    AddressIsClean(x, isIp);
    LowerIsLower(Judged(x));
    if x.Full? {
      GroupsChars(x.texts, x.h);
      AllWritten(x.texts, x.h);
      LowerJoined(x.texts);
      FullExpands(x.h, LowerAll(x.texts), isIp);
    } else {
      CompressedChars(x.left, x.right, x.h[..x.i], x.h[x.j..]);
      AllWritten(x.left, x.h[..x.i]);
      AllWritten(x.right, x.h[x.j..]);
      LowerJoined(x.left);
      LowerJoined(x.right);
      LowerAround(Joined(x.left, ':'), Joined(x.right, ':'));
      CompressedExpands(x.h, x.i, x.j, LowerAll(x.left), LowerAll(x.right), isIp);
      SmallGroups(x.h, x.i, x.j);
    }
  }

  lemma SmallGroups(h: seq<nat>, i: nat, j: nat)
    requires |h| == 8 && i < j <= 8 && forall k :: i <= k < j ==> h[k] == 0
    requires (forall k :: 0 <= k < i ==> h[..i][k] <= 0xFFFF) && (forall k :: 0 <= k < 8 - j ==> h[j..][k] <= 0xFFFF)
    ensures forall k :: 0 <= k < 8 ==> h[k] <= 0xFFFF
  {
    forall k | 0 <= k < 8 ensures h[k] <= 0xFFFF {
      if k < i { assert h[..i][k] == h[k]; } else if k >= j { assert h[j..][k - j] == h[k]; }
    }
  }

  lemma AllWritten(texts: seq<string>, h: seq<nat>)
    requires WritesAll(texts, h)
    ensures WritesAll(LowerAll(texts), h) && forall k :: 0 <= k < |h| ==> h[k] <= 0xFFFF
  {
    forall k | 0 <= k < |h| ensures Writes(LowerAll(texts)[k], h[k]) && h[k] <= 0xFFFF { WrittenHextet(texts[k], h[k]); }
  }

  /** What is judged is private exactly in the reserved ranges, blocked exactly at the metadata addresses. */
  lemma JudgedIff(x: Address, isIp: string -> nat)
    requires Proper(x, isIp)
    ensures IsPrivate(Judged(x), isIp) <==> Reserved(x)
    ensures Judged(x) in BLOCKED_IPS <==> Metadata(x)
    ensures Metadata(x) ==> Reserved(x)
  {
    if x.Full? || x.Compressed? {
      WrittenJudged(x, isIp);
    } else {
      CarriedJudged(x, isIp);
    }
  }

  lemma GroupedQuadJudged(hi: string, lo: string, high: nat, low: nat, isIp: string -> nat)
    requires Writes(hi, high) && Writes(lo, low) && isIp(Quad(high / 256, high % 256, low / 256, low % 256)) == 4
    ensures var q := Quad(high / 256, high % 256, low / 256, low % 256);
      && (IsPrivate(q, isIp) <==> InPrivateInterval(high * 0x1_0000 + low))
      && (q in BLOCKED_IPS <==> MetadataNumber(high * 0x1_0000 + low))
      && (MetadataNumber(high * 0x1_0000 + low) ==> InPrivateInterval(high * 0x1_0000 + low))
  {
    WrittenHextet(hi, high);
    WrittenHextet(lo, low);
    BytesOf(high);
    BytesOf(low);
    BytesAddUp(high / 256, high % 256, low / 256, low % 256, high, low);
    QuadJudged(high / 256, high % 256, low / 256, low % 256, isIp);
  }

  lemma WrittenJudged(x: Address, isIp: string -> nat)
    requires (x.Full? || x.Compressed?) && Proper(x, isIp)
    ensures IsPrivate(Judged(x), isIp) <==> InPrivateRange(x.h)
    ensures Judged(x) in BLOCKED_IPS <==> ToLower(TextOf(x)) == "fd00:ec2::254"
    ensures ToLower(TextOf(x)) == "fd00:ec2::254" ==> InPrivateRange(x.h)
  {
    WrittenExpands(x, isIp);
    GroupsJudged(Judged(x), x.h, isIp);
    DotlessBlocked(Judged(x));
    BlockedTextExpands();
  }

  lemma CarriedJudged(x: Address, isIp: string -> nat)
    requires !x.Full? && !x.Compressed? && Proper(x, isIp)
    ensures IsPrivate(Judged(x), isIp) <==> InPrivateInterval(NumberOf(x))
    ensures Judged(x) in BLOCKED_IPS <==> MetadataNumber(NumberOf(x))
    ensures MetadataNumber(NumberOf(x)) ==> InPrivateInterval(NumberOf(x))
  {
    match x
    case Dotted(a, b, c, d) =>
      QuadJudged(a, b, c, d, isIp);
      QuadNormalizes(a, b, c, d, isIp);
    case MappedDotted(a, b, c, d) =>
      QuadJudged(a, b, c, d, isIp);
    case MappedGroups(hi, lo, high, low) =>
      GroupedQuadJudged(hi, lo, high, low, isIp);
  }
}
