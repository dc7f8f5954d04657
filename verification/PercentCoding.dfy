/** Percent-encoding of UTF-8 (section 2.1 of RFC 3986) as encodeURIComponent and decodeURIComponent do it. */
module PercentCoding {
  import opened Wrappers
  import opened Text

  predicate IsUnreserved(c: char) {
    'A' <= c <= 'Z' || 'a' <= c <= 'z' || '0' <= c <= '9' || c in "-_.!~*'()"
  }

  function HexDigit(d: nat): (c: char)
    requires d < 16
    ensures '0' <= c <= '9' || 'A' <= c <= 'F'
  {
    if d < 10 then (48 + d) as char else (55 + d) as char
  }

  function Escape(b: nat): (r: string)
    requires b < 256
    ensures |r| == 3
  {
    ['%', HexDigit(b / 16), HexDigit(b % 16)]
  }

  /** The low six bits, and the bits above them. */
  function Low(v: nat): (r: nat)
    ensures r < 64
  {
    v % 64
  }

  function High(v: nat): (r: nat)
    ensures 64 * r <= v < 64 * r + 64
  {
    v / 64
  }

  lemma LowAndHigh(v: nat)
    ensures v == 64 * High(v) + Low(v)
  {}

  predicate AreBytes(bs: seq<nat>) { forall i :: 0 <= i < |bs| ==> bs[i] < 256 }

  /** The UTF-8 bytes of a character. */
  function Utf8(c: char): (r: seq<nat>)
    ensures AreBytes(r) && 1 <= |r| <= 4
  {
    var v := c as nat;
    if v < 0x80 then [v]
    else if v < 0x800 then [0xC0 + High(v), 0x80 + Low(v)]
    else if v < 0x1_0000 then [0xE0 + High(High(v)), 0x80 + Low(High(v)), 0x80 + Low(v)]
    else [0xF0 + High(High(High(v))), 0x80 + Low(High(High(v))), 0x80 + Low(High(v)), 0x80 + Low(v)]
  }

  function EscapeAll(bs: seq<nat>): (r: string)
    requires AreBytes(bs)
    ensures |r| == 3 * |bs|
  {
    if bs == [] then "" else Escape(bs[0]) + EscapeAll(bs[1..])
  }

  function EncodeChar(c: char): string {
    if IsUnreserved(c) then [c] else EscapeAll(Utf8(c))
  }

  function Encode(s: string): string {
    if s == "" then "" else EncodeChar(s[0]) + Encode(s[1..])
  }

  function HexValue(c: char): Option<nat> {
    if '0' <= c <= '9' then Some(c as nat - 48)
    else if 'A' <= c <= 'F' then Some(c as nat - 55)
    else if 'a' <= c <= 'f' then Some(c as nat - 87)
    else None
  }

  /** The byte of the escape that starts at `i`. */
  function ByteAt(s: string, i: nat): (r: Option<nat>)
    ensures r.Some? ==> i + 3 <= |s|
  {
    if i + 3 > |s| || s[i] != '%' || HexValue(s[i + 1]).None? || HexValue(s[i + 2]).None? then None
    else Some(16 * HexValue(s[i + 1]).value + HexValue(s[i + 2]).value)
  }

  /** A continuation byte's six bits. */
  function TailAt(s: string, i: nat): (r: Option<nat>)
    ensures r.Some? ==> r.value < 64 && i + 3 <= |s|
  {
    var b := ByteAt(s, i);
    if b.Some? && 0x80 <= b.value < 0xC0 then Some(b.value - 0x80) else None
  }

  datatype Decoded = Decoded(c: char, length: nat)

  predicate IsScalar(v: nat) { v < 0xD800 || 0xE000 <= v < 0x11_0000 }

  function Scalar(v: nat, least: nat, length: nat): (r: Option<Decoded>)
    ensures r.Some? ==> r.value.length == length
  {
    if least <= v && IsScalar(v) then Some(Decoded(v as char, length)) else None
  }

  /** Overlong forms, surrogates and values past the last code point are refused. */
  function FromBytes(b: Option<nat>, x: Option<nat>, y: Option<nat>, z: Option<nat>): (r: Option<Decoded>)
    ensures r.Some? ==> b.Some? && r.value.length in {3, 6, 9, 12}
    ensures r.Some? ==> (r.value.length >= 6 ==> x.Some?) && (r.value.length >= 9 ==> y.Some?) && (r.value.length >= 12 ==> z.Some?)
  {
    if b.None? then None
    else if b.value < 0x80 then Scalar(b.value, 0, 3)
    else if 0xC0 <= b.value < 0xE0 && x.Some? then Scalar((b.value - 0xC0) * 64 + x.value, 0x80, 6)
    else if 0xE0 <= b.value < 0xF0 && x.Some? && y.Some? then
      Scalar((b.value - 0xE0) * 4096 + x.value * 64 + y.value, 0x800, 9)
    else if 0xF0 <= b.value < 0xF8 && x.Some? && y.Some? && z.Some? then
      Scalar((b.value - 0xF0) * 262144 + x.value * 4096 + y.value * 64 + z.value, 0x1_0000, 12)
    else None
  }

  /** One escaped character. */
  function DecodeEscape(s: string): (r: Option<Decoded>)
    ensures r.Some? ==> 0 < r.value.length <= |s|
  {
    FromBytes(ByteAt(s, 0), TailAt(s, 3), TailAt(s, 6), TailAt(s, 9))
  }

  /** None stands for the URIError. */
  function Decode(s: string): Option<string>
    decreases |s|
  {
    if s == "" then Some("")
    else if s[0] != '%' then
      var rest := Decode(s[1..]);
      if rest.None? then None else Some([s[0]] + rest.value)
    else
      var d := DecodeEscape(s);
      if d.None? then None
      else
        var rest := Decode(s[d.value.length..]);
        if rest.None? then None else Some([d.value.c] + rest.value)
  }

  // ---------------------------------------------------------------- decoding inverts encoding

  lemma EscapeReadsBack(s: string, n: nat, b: nat)
    requires b < 256 && n + 3 <= |s| && s[n..n + 3] == Escape(b)
    ensures ByteAt(s, n) == Some(b)
  {
    var e := s[n..n + 3];
    assert e[0] == s[n] && e[1] == s[n + 1] && e[2] == s[n + 2];
    HexReadsBack(b / 16);
    HexReadsBack(b % 16);
  }

  lemma HexReadsBack(d: nat)
    requires d < 16
    ensures HexValue(HexDigit(d)) == Some(d)
  {}

  /** Every escaped byte is found where it was put. */
  lemma {:induction false} ByteReadsBack(s: string, n: nat, bs: seq<nat>, i: nat)
    requires AreBytes(bs) && i < |bs| && n + 3 * |bs| <= |s| && s[n..n + 3 * |bs|] == EscapeAll(bs)
    ensures ByteAt(s, n + 3 * i) == Some(bs[i])
    decreases |bs|
  {
    var all := s[n..n + 3 * |bs|];
    assert all[..3] == Escape(bs[0]) && all[3..] == EscapeAll(bs[1..]);
    if i == 0 {
      assert s[n..n + 3] == all[..3];
      EscapeReadsBack(s, n, bs[0]);
    } else {
      assert s[n + 3..n + 3 + 3 * |bs[1..]|] == all[3..];
      ByteReadsBack(s, n + 3, bs[1..], i - 1);
    }
  }

  lemma BytesAddUp(v: nat, x: Option<nat>, y: Option<nat>, z: Option<nat>)
    requires IsScalar(v)
    ensures v < 0x80 ==> FromBytes(Some(v), x, y, z) == Some(Decoded(v as char, 3))
    ensures 0x80 <= v < 0x800 ==> FromBytes(Some(0xC0 + High(v)), Some(Low(v)), y, z) == Some(Decoded(v as char, 6))
    ensures 0x800 <= v < 0x1_0000 ==>
      FromBytes(Some(0xE0 + High(High(v))), Some(Low(High(v))), Some(Low(v)), z) == Some(Decoded(v as char, 9))
    ensures 0x1_0000 <= v ==>
      FromBytes(Some(0xF0 + High(High(High(v)))), Some(Low(High(High(v)))), Some(Low(High(v))), Some(Low(v))) == Some(Decoded(v as char, 12))
  {
    LowAndHigh(v);
    LowAndHigh(High(v));
    LowAndHigh(High(High(v)));
  }

  /** What the encoding of a character that needs escaping decodes to. */
  predicate ReadsBack(c: char, rest: string) {
    DecodeEscape(EncodeChar(c) + rest) == Some(Decoded(c, |EncodeChar(c)|))
  }

  lemma BytesFound(s: string, bs: seq<nat>, rest: string)
    requires AreBytes(bs) && s == EscapeAll(bs) + rest
    ensures forall i: nat :: i < |bs| ==> ByteAt(s, 3 * i) == Some(bs[i])
  {
    assert s[0..0 + 3 * |bs|] == EscapeAll(bs);
    forall i: nat | i < |bs| ensures ByteAt(s, 3 * i) == Some(bs[i]) { ByteReadsBack(s, 0, bs, i); }
  }

  /** What the bytes at the four possible places decode to. */
  lemma FirstBytes(s: string, bs: seq<nat>)
    requires 1 <= |bs| <= 4 && forall i: nat :: i < |bs| ==> ByteAt(s, 3 * i) == Some(bs[i])
    ensures ByteAt(s, 0) == Some(bs[0])
    ensures |bs| > 1 ==> ByteAt(s, 3) == Some(bs[1])
    ensures |bs| > 2 ==> ByteAt(s, 6) == Some(bs[2])
    ensures |bs| > 3 ==> ByteAt(s, 9) == Some(bs[3])
  {
    assert ByteAt(s, 3 * 0) == Some(bs[0]);
    assert |bs| > 1 ==> ByteAt(s, 3 * 1) == Some(bs[1]);
    assert |bs| > 2 ==> ByteAt(s, 3 * 2) == Some(bs[2]);
    assert |bs| > 3 ==> ByteAt(s, 3 * 3) == Some(bs[3]);
  }

  lemma CharDecodes(c: char, rest: string)
    requires !IsUnreserved(c)
    ensures ReadsBack(c, rest)
  {
    var s := EscapeAll(Utf8(c)) + rest;
    BytesFound(s, Utf8(c), rest);
    FirstBytes(s, Utf8(c));
    BytesAddUp(c as nat, TailAt(s, 3), TailAt(s, 6), TailAt(s, 9));
  }

  lemma EscapesStart(c: char)
    requires !IsUnreserved(c)
    ensures EncodeChar(c) != "" && EncodeChar(c)[0] == '%'
  {}

  lemma {:induction false} DecodeInvertsEncode(s: string)
    ensures Decode(Encode(s)) == Some(s)
  {
    if s != "" {
      DecodeInvertsEncode(s[1..]);
      var e, rest := EncodeChar(s[0]), Encode(s[1..]);
      assert (e + rest)[|e|..] == rest;
      if !IsUnreserved(s[0]) {
        EscapesStart(s[0]);
        CharDecodes(s[0], rest);
      }
      assert s == [s[0]] + s[1..];
    }
  }

  predicate IsPlain(s: string) { forall i :: 0 <= i < |s| ==> IsUnreserved(s[i]) || s[i] == '%' }

  lemma {:induction false} EscapesArePlain(bs: seq<nat>)
    requires AreBytes(bs)
    ensures IsPlain(EscapeAll(bs))
  {
    if bs != [] { EscapesArePlain(bs[1..]); }
  }

  /** Encoding emits unreserved characters and percent signs only, so never a colon and never white space. */
  lemma {:induction false} EncodingIsPlain(s: string)
    ensures IsPlain(Encode(s)) && (Encode(s) == "" <==> s == "")
  {
    if s != "" {
      EscapesArePlain(Utf8(s[0]));
      EncodingIsPlain(s[1..]);
    }
  }

  lemma PlainIsTight(s: string)
    requires IsPlain(s)
    ensures ':' !in s && forall i :: 0 <= i < |s| ==> !IsSpace(s[i])
  {}
}
