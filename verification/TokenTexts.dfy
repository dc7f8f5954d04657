/** The tokens letter by letter: which text each button carries, which bytes an id is written in, and which texts parse
    as which action. */
module TokenTexts {
  import opened Wrappers
  import opened Text
  import opened PercentCoding
  import opened ActionTokens

  /** The text behind an approval button. */
  lemma ApprovalText(a: Approval)
    ensures ApprovalValue(a) ==
      "ecap1:" + (match a.decision case Approved => "a:" case Denied => "d:")
      + (match a.scope case None => "-:" case Some(Once) => "o:" case Some(Session) => "s:" case Some(Always) => "p:")
      + Encode(a.id)
  {
    FourParts("ecap1", DecisionCode(a.decision), ScopeCode(a.scope), Encode(a.id));
    assert "ecap1" + [':'] == "ecap1:";
    assert DecisionCode(a.decision) + [':'] == match a.decision case Approved => "a:" case Denied => "d:";
    assert ScopeCode(a.scope) + [':'] ==
      match a.scope case None => "-:" case Some(Once) => "o:" case Some(Session) => "s:" case Some(Always) => "p:";
  }

  lemma FourParts(p: string, q: string, r: string, s: string)
    ensures Joined([p, q, r, s], ':') == (p + [':']) + (q + [':']) + (r + [':']) + s
  {
    assert [p, q, r, s][1..] == [q, r, s] && [q, r, s][1..] == [r, s] && [r, s][1..] == [s];
    assert Joined([r, s], ':') == r + [':'] + s;
    assert Joined([q, r, s], ':') == q + [':'] + (r + [':'] + s);
  }

  /** The text behind a secure-input button. */
  lemma SecureInputText(s: SecureInput)
    ensures SecureInputValue(s) ==
      "ecsi1:"
      + (match s.choice case Arm => "a:" case TrustedDevice => "t:" case DestinationEntry => "d:" case CancelInput => "c:")
      + Encode(s.id)
  {
    ThreeParts("ecsi1", ChoiceCode(s.choice), Encode(s.id));
    assert "ecsi1" + [':'] == "ecsi1:";
    assert ChoiceCode(s.choice) + [':'] ==
      match s.choice case Arm => "a:" case TrustedDevice => "t:" case DestinationEntry => "d:" case CancelInput => "c:";
  }

  lemma ThreeParts(p: string, q: string, r: string)
    ensures Joined([p, q, r], ':') == (p + [':']) + (q + [':']) + r
  {
    assert [p, q, r][1..] == [q, r] && [q, r][1..] == [r];
    assert Joined([q, r], ':') == q + [':'] + r;
  }

  // ---------------------------------------------------------------- which texts parse

  predicate DecisionIs(code: string, d: Decision) { code == match d case Approved => "a" case Denied => "d" }

  predicate ScopeIs(code: string, s: Option<Scope>) {
    match s
    case Some(Once) => code == "o"
    case Some(Session) => code == "s"
    case Some(Always) => code == "p"
    case None => code !in {"o", "s", "p"} && code !in INHERITED
  }

  predicate ChoiceIs(code: string, c: Choice) {
    code == match c case Arm => "a" case TrustedDevice => "t" case DestinationEntry => "d" case CancelInput => "c"
  }

  /** A text reads as an approval exactly when it has four fields: the mark, the code of the decision, the code of a scope
      or, for a denial, any text that is none, and an id that decodes to more than white space. */
  lemma ReadsAsApprovalIff(value: string, a: Approval)
    ensures ParseApproval(value) == Some(AsParsed(a)) <==>
      var parts := Split(Trim(value), ':');
      && |parts| == 4 && parts[0] == "ecap1" && DecisionIs(parts[1], a.decision) && ScopeIs(parts[2], a.scope)
      && Decode(parts[3]) == Some(a.id) && !IsBlank(a.id) && (a.decision == Approved <==> a.scope.Some?)
  {
    var parts := Split(Trim(value), ':');
    if |parts| == 4 { FieldsRead(parts, a); }
  }

  lemma FieldsRead(parts: seq<string>, a: Approval)
    requires |parts| == 4
    ensures ApprovalOf(parts) == Some(AsParsed(a)) <==>
      && parts[0] == "ecap1" && DecisionIs(parts[1], a.decision) && ScopeIs(parts[2], a.scope)
      && Decode(parts[3]) == Some(a.id) && !IsBlank(a.id) && (a.decision == Approved <==> a.scope.Some?)
  {
    DecisionCodeIff(parts[1], a.decision);
    ScopeCodeIff(parts[2], a.scope);
    IdRead(parts[3], a.id);
    FieldsCombine(parts, a);
  }

  lemma IdRead(text: string, id: string)
    ensures NonBlank(text) == Some(id) <==> Decode(text) == Some(id) && !IsBlank(id)
  {
    TrimIsEmptyIff(id);
  }

  lemma FieldsCombine(parts: seq<string>, a: Approval)
    requires |parts| == 4
    ensures ApprovalOf(parts) == Some(AsParsed(a)) <==>
      && parts[0] == "ecap1" && DecisionOf(parts[1]) == Some(Listed(a.decision))
      && (if a.scope.Some? then ScopeOf(parts[2]) == Some(Listed(a.scope.value)) else ScopeOf(parts[2]).None?)
      && NonBlank(parts[3]) == Some(a.id) && (a.decision == Approved <==> a.scope.Some?)
  {}

  lemma DecisionCodeIff(code: string, d: Decision)
    ensures DecisionOf(code) == Some(Listed(d)) <==> DecisionIs(code, d)
  {
    CodesAreNoNames();
  }

  lemma ScopeCodeIff(code: string, s: Option<Scope>)
    ensures (if s.Some? then ScopeOf(code) == Some(Listed(s.value)) else ScopeOf(code).None?) <==> ScopeIs(code, s)
  {
    CodesAreNoNames();
  }

  lemma ChoiceCodeIff(code: string, c: Choice)
    ensures ChoiceOf(code) == Some(Listed(c)) <==> ChoiceIs(code, c)
  {
    CodesAreNoNames();
  }

  lemma ReadsAsSecureInputIff(value: string, s: SecureInput)
    ensures ParseSecureInput(value) == Some(AsParsedInput(s)) <==>
      var parts := Split(Trim(value), ':');
      && |parts| == 3 && parts[0] == "ecsi1" && ChoiceIs(parts[1], s.choice) && Decode(parts[2]) == Some(s.id) && !IsBlank(s.id)
  {
    var parts := Split(Trim(value), ':');
    if |parts| == 3 {
      ChoiceCodeIff(parts[1], s.choice);
      IdRead(parts[2], s.id);
    }
  }

  // ---------------------------------------------------------------- the bytes of an id

  const HEX := "0123456789ABCDEF"

  function Escaped(b: nat): string
    requires b < 256
  {
    "%" + [HEX[b / 16]] + [HEX[b % 16]]
  }

  lemma EscapeIs(b: nat)
    requires b < 256
    ensures Escape(b) == Escaped(b)
  {
    HexDigitIs(b / 16);
    HexDigitIs(b % 16);
  }

  lemma HexDigitIs(d: nat)
    requires d < 16
    ensures HexDigit(d) == HEX[d]
  {}

  function EscapedAll(bs: seq<nat>): string
    requires AreBytes(bs)
  {
    if bs == [] then "" else Escaped(bs[0]) + EscapedAll(bs[1..])
  }

  lemma {:induction false} EscapeAllIs(bs: seq<nat>)
    requires AreBytes(bs)
    ensures EscapeAll(bs) == EscapedAll(bs)
  {
    if bs != [] {
      EscapeIs(bs[0]);
      EscapeAllIs(bs[1..]);
    }
  }

  /** A character that is not unreserved is written byte by byte, in the one to four bytes of its UTF-8 form (section 3 of
      RFC 3629), each as a percent sign and two upper-case hexadecimal digits. */
  lemma EncodedIs(c: char, rest: string)
    ensures Encode([c] + rest) == (if IsUnreserved(c) then [c] else EscapedAll(Bytes(c as nat))) + Encode(rest)
  {
    assert ([c] + rest)[1..] == rest;
    if !IsUnreserved(c) {
      BytesAre(c);
      EscapeAllIs(Utf8(c));
    }
  }

  function Bytes(v: nat): (r: seq<nat>)
    requires v < 0x11_0000
    ensures AreBytes(r)
  {
    if v < 0x80 then [v]
    else if v < 0x800 then [192 + v / 64, 128 + v % 64]
    else if v < 0x1_0000 then [224 + v / 4096, 128 + v / 64 % 64, 128 + v % 64]
    else [240 + v / 262144, 128 + v / 4096 % 64, 128 + v / 64 % 64, 128 + v % 64]
  }

  lemma BytesAre(c: char)
    ensures Utf8(c) == Bytes(c as nat)
  {
    Quotients(c as nat);
  }

  lemma Quotients(v: nat)
    ensures High(High(v)) == v / 4096 && High(High(High(v))) == v / 262144
    ensures Low(High(v)) == v / 64 % 64 && Low(High(High(v))) == v / 4096 % 64
  {
    LowAndHigh(v);
    LowAndHigh(High(v));
    LowAndHigh(High(High(v)));
  }
}
