/** The tokens behind approval and secure-input buttons: rendered from an id and a choice, parsed when pressed. */
module ActionTokens {
  import opened Wrappers
  import opened Text
  import opened PercentCoding

  datatype Decision = Approved | Denied

  datatype Scope = Once | Session | Always

  datatype Approval = Approval(id: string, decision: Decision, scope: Option<Scope>)

  datatype Choice = Arm | TrustedDevice | DestinationEntry | CancelInput

  datatype SecureInput = SecureInput(id: string, choice: Choice)

  const APPROVAL_PREFIX := "ecap1"
  const SECURE_INPUT_PREFIX := "ecsi1"

  function DecisionCode(d: Decision): string { match d case Approved => "a" case Denied => "d" }

  function ScopeCode(s: Option<Scope>): string {
    match s
    case None => "-"
    case Some(Once) => "o"
    case Some(Session) => "s"
    case Some(Always) => "p"
  }

  function ChoiceCode(c: Choice): string {
    match c
    case Arm => "a"
    case TrustedDevice => "t"
    case DestinationEntry => "d"
    case CancelInput => "c"
  }

  /** Codes are looked up in plain objects, which also answer to the names every object inherits. */
  const INHERITED: set<string> :=
    {"constructor", "hasOwnProperty", "isPrototypeOf", "propertyIsEnumerable", "toLocaleString", "toString", "valueOf",
     "__proto__", "__defineGetter__", "__defineSetter__", "__lookupGetter__", "__lookupSetter__"}

  /** What a lookup found: a listed value, or the inherited member of that name. */
  datatype Entry<+T> = Listed(value: T) | Member(name: string)

  function Inherited<T>(code: string): Option<Entry<T>> { if code in INHERITED then Some(Member(code)) else None }

  function DecisionOf(code: string): Option<Entry<Decision>> {
    if code == "a" then Some(Listed(Approved)) else if code == "d" then Some(Listed(Denied)) else Inherited(code)
  }

  function ScopeOf(code: string): Option<Entry<Scope>> {
    if code == "-" then None
    else if code == "o" then Some(Listed(Once))
    else if code == "s" then Some(Listed(Session))
    else if code == "p" then Some(Listed(Always))
    else Inherited(code)
  }

  function ChoiceOf(code: string): Option<Entry<Choice>> {
    if code == "a" then Some(Listed(Arm)) else if code == "t" then Some(Listed(TrustedDevice))
    else if code == "d" then Some(Listed(DestinationEntry)) else if code == "c" then Some(Listed(CancelInput))
    else Inherited(code)
  }

  /** What the parsers return: the decision, scope or choice is whatever the lookup found. */
  datatype ParsedApproval = ParsedApproval(id: string, decision: Entry<Decision>, scope: Option<Entry<Scope>>)

  datatype ParsedSecureInput = ParsedSecureInput(id: string, choice: Entry<Choice>)

  function AsParsed(a: Approval): ParsedApproval {
    ParsedApproval(a.id, Listed(a.decision), if a.scope.Some? then Some(Listed(a.scope.value)) else None)
  }

  function AsParsedInput(s: SecureInput): ParsedSecureInput { ParsedSecureInput(s.id, Listed(s.choice)) }

  function ApprovalParts(a: Approval): seq<string> {
    [APPROVAL_PREFIX, DecisionCode(a.decision), ScopeCode(a.scope), Encode(a.id)]
  }

  function SecureInputParts(s: SecureInput): seq<string> {
    [SECURE_INPUT_PREFIX, ChoiceCode(s.choice), Encode(s.id)]
  }

  function ApprovalValue(a: Approval): string { Joined(ApprovalParts(a), ':') }

  function SecureInputValue(s: SecureInput): string { Joined(SecureInputParts(s), ':') }

  /** A decoded id, unless it is malformed or blank. */
  function NonBlank(text: string): Option<string> {
    var id := Decode(text);
    if id.Some? && Trim(id.value) != "" then id else None
  }

  /** A listed approval needs a scope and a listed denial must not have one; an unknown scope code counts as none. */
  function ApprovalOf(parts: seq<string>): Option<ParsedApproval> {
    if |parts| != 4 || parts[0] != APPROVAL_PREFIX then None
    else
      var decision, scope, id := DecisionOf(parts[1]), ScopeOf(parts[2]), NonBlank(parts[3]);
      if decision.None? || (decision == Some(Listed(Approved)) && scope.None?)
         || (decision == Some(Listed(Denied)) && scope.Some?) || id.None?
      then None else Some(ParsedApproval(id.value, decision.value, scope))
  }

  function SecureInputOf(parts: seq<string>): Option<ParsedSecureInput> {
    if |parts| != 3 || parts[0] != SECURE_INPUT_PREFIX then None
    else
      var choice, id := ChoiceOf(parts[1]), NonBlank(parts[2]);
      if choice.None? || id.None? then None else Some(ParsedSecureInput(id.value, choice.value))
  }

  /** The fields of a token, as both parsers split it. */
  function TokenParts(value: string): seq<string> { Split(Trim(value), ':') }

  function ParseApproval(value: string): Option<ParsedApproval> { ApprovalOf(TokenParts(value)) }

  function ParseSecureInput(value: string): Option<ParsedSecureInput> { SecureInputOf(TokenParts(value)) }

  // ---------------------------------------------------------------- round trips

  lemma TrimOfTight(s: string)
    requires s != "" && !IsSpace(s[0]) && !IsSpace(s[|s| - 1])
    ensures Trim(s) == s
  {}

  lemma TrimIsEmptyIff(s: string)
    ensures Trim(s) == "" <==> IsBlank(s)
  {
    var e := TrimEnd(s);
    if e != "" {
      assert IsBlank(s[|e|..]);
      assert e[|e| - 1] in s;
      StartStopsAtText(e);
    }
  }

  lemma {:induction false} StartStopsAtText(s: string)
    requires s != "" && !IsSpace(s[|s| - 1])
    ensures TrimStart(s) != ""
  {
    if IsSpace(s[0]) { StartStopsAtText(s[1..]); }
  }

  /** Joined parts without colons, of which the first starts and the last ends with text, survive trimming. */
  lemma PartsComeBack(parts: seq<string>)
    requires |parts| >= 2 && forall i :: 0 <= i < |parts| ==> ':' !in parts[i]
    requires parts[0] != "" && !IsSpace(parts[0][0])
    requires var last := parts[|parts| - 1]; last == "" || !IsSpace(last[|last| - 1])
    ensures Split(Trim(Joined(parts, ':')), ':') == parts
  {
    forall p | p in parts ensures ':' !in p {}
    SplitJoined(parts, ':');
    LastOfJoined(parts);
    var value := Joined(parts, ':');
    assert value == parts[0] + [':'] + Joined(parts[1..], ':');
    assert value[0] == parts[0][0];
    TrimOfTight(value);
  }

  lemma {:induction false} LastOfJoined(parts: seq<string>)
    requires |parts| >= 2
    ensures var value, last := Joined(parts, ':'), parts[|parts| - 1];
      value != "" && value[|value| - 1] == if last == "" then ':' else last[|last| - 1]
  {
    var tail := Joined(parts[1..], ':');
    assert Joined(parts, ':') == parts[0] + [':'] + tail;
    if |parts| > 2 {
      LastOfJoined(parts[1..]);
    } else {
      assert tail == parts[1];
    }
  }

  lemma ApprovalSplits(a: Approval)
    ensures TokenParts(ApprovalValue(a)) == ApprovalParts(a)
  {
    EncodingIsPlain(a.id);
    PlainIsTight(Encode(a.id));
    PartsComeBack(ApprovalParts(a));
  }

  lemma SecureInputSplits(s: SecureInput)
    ensures TokenParts(SecureInputValue(s)) == SecureInputParts(s)
  {
    EncodingIsPlain(s.id);
    PlainIsTight(Encode(s.id));
    PartsComeBack(SecureInputParts(s));
  }

  lemma IdReadsBack(id: string)
    ensures NonBlank(Encode(id)) == if IsBlank(id) then None else Some(id)
  {
    DecodeInvertsEncode(id);
    TrimIsEmptyIff(id);
  }

  lemma CodesReadBack(d: Decision, s: Option<Scope>, c: Choice)
    ensures DecisionOf(DecisionCode(d)) == Some(Listed(d)) && ChoiceOf(ChoiceCode(c)) == Some(Listed(c))
    ensures ScopeOf(ScopeCode(s)) == if s.Some? then Some(Listed(s.value)) else None
  {}

  predicate WellFormed(a: Approval) { !IsBlank(a.id) && (a.decision == Approved <==> a.scope.Some?) }

  /** A rendered approval parses back exactly when its id is not blank and it has a scope just if it approves; every
      other token is refused. */
  lemma ApprovalRoundTrip(a: Approval)
    ensures ParseApproval(ApprovalValue(a)) == if WellFormed(a) then Some(AsParsed(a)) else None
  {
    ApprovalSplits(a);
    CodesReadBack(a.decision, a.scope, Arm);
    IdReadsBack(a.id);
  }

  lemma SecureInputRoundTrip(s: SecureInput)
    ensures ParseSecureInput(SecureInputValue(s)) == if IsBlank(s.id) then None else Some(AsParsedInput(s))
  {
    SecureInputSplits(s);
    CodesReadBack(Approved, None, s.choice);
    IdReadsBack(s.id);
  }

  /** Different approvals have different tokens, well-formed or not. */
  lemma ApprovalTokensDiffer(a: Approval, b: Approval)
    ensures ApprovalValue(a) == ApprovalValue(b) ==> a == b
  {
    ApprovalSplits(a);
    ApprovalSplits(b);
    if ApprovalValue(a) == ApprovalValue(b) { SameApprovalParts(a, b); }
  }

  lemma SameApprovalParts(a: Approval, b: Approval)
    requires ApprovalParts(a) == ApprovalParts(b)
    ensures a == b
  {
    var p, q := ApprovalParts(a), ApprovalParts(b);
    assert p[1] == q[1] && p[2] == q[2] && p[3] == q[3];
    CodesReadBack(a.decision, a.scope, Arm);
    CodesReadBack(b.decision, b.scope, Arm);
    DecodeInvertsEncode(a.id);
    DecodeInvertsEncode(b.id);
  }

  lemma SecureInputTokensDiffer(s: SecureInput, t: SecureInput)
    ensures SecureInputValue(s) == SecureInputValue(t) ==> s == t
  {
    SecureInputSplits(s);
    SecureInputSplits(t);
    if SecureInputValue(s) == SecureInputValue(t) { SameSecureInputParts(s, t); }
  }

  lemma SameSecureInputParts(s: SecureInput, t: SecureInput)
    requires SecureInputParts(s) == SecureInputParts(t)
    ensures s == t
  {
    var p, q := SecureInputParts(s), SecureInputParts(t);
    assert p[1] == q[1] && p[2] == q[2];
    CodesReadBack(Approved, None, s.choice);
    CodesReadBack(Approved, None, t.choice);
    DecodeInvertsEncode(s.id);
    DecodeInvertsEncode(t.id);
  }

  /** No text at all is accepted as a token of both families. */
  lemma FamiliesStayApart(value: string)
    ensures ParseApproval(value).None? || ParseSecureInput(value).None?
  {}

  // ---------------------------------------------------------------- texts nobody rendered

  /** The parsed text stands for an approval or a denial that could have been rendered. */
  ghost predicate Proper(p: ParsedApproval) { exists a: Approval :: WellFormed(a) && p == AsParsed(a) }

  ghost predicate ProperInput(p: ParsedSecureInput) { exists s: SecureInput :: !IsBlank(s.id) && p == AsParsedInput(s) }

  /** A text that parses gives a well-formed approval exactly when neither of its codes is an inherited name. */
  lemma ParsedIsProperIff(value: string)
    requires ParseApproval(value).Some?
    ensures |TokenParts(value)| == 4
    ensures Proper(ParseApproval(value).value) <==>
      TokenParts(value)[1] !in INHERITED && TokenParts(value)[2] !in INHERITED
  {
    var parts := TokenParts(value);
    var p := ParseApproval(value).value;
    ApprovalCodes(parts);
    NonBlankIsText(parts[3]);
    if parts[1] !in INHERITED && parts[2] !in INHERITED {
      var a := Approval(p.id, p.decision.value, if p.scope.Some? then Some(p.scope.value.value) else None);
      assert WellFormed(a) && p == AsParsed(a);
    }
  }

  /** Each entry is an inherited member exactly when its code is an inherited name. */
  lemma ApprovalCodes(parts: seq<string>)
    requires ApprovalOf(parts).Some?
    ensures var p := ApprovalOf(parts).value;
      && NonBlank(parts[3]) == Some(p.id)
      && (p.decision.Member? <==> parts[1] in INHERITED)
      && (p.scope.Some? && p.scope.value.Member? <==> parts[2] in INHERITED)
      && (p.decision == Listed(Approved) ==> p.scope.Some?) && (p.decision == Listed(Denied) ==> p.scope.None?)
  {
    CodesAreNoNames();
  }

  /** No code in use is an inherited name. */
  lemma CodesAreNoNames()
    ensures forall name :: name in INHERITED ==> |name| >= 7
    ensures forall code :: code in {"-", "a", "c", "d", "o", "p", "s", "t"} ==> code !in INHERITED
  {
    forall name | name in INHERITED ensures |name| >= 7 {}
  }

  lemma ParsedInputIsProperIff(value: string)
    requires ParseSecureInput(value).Some?
    ensures |TokenParts(value)| == 3
    ensures ProperInput(ParseSecureInput(value).value) <==> TokenParts(value)[1] !in INHERITED
  {
    var p := ParseSecureInput(value).value;
    InputCode(TokenParts(value));
    NonBlankIsText(TokenParts(value)[2]);
    if p.choice.Listed? { assert p == AsParsedInput(SecureInput(p.id, p.choice.value)); }
  }

  lemma InputCode(parts: seq<string>)
    requires SecureInputOf(parts).Some?
    ensures var p := SecureInputOf(parts).value;
      NonBlank(parts[2]) == Some(p.id) && (p.choice.Member? <==> parts[1] in INHERITED)
  {
    CodesAreNoNames();
  }

  lemma NonBlankIsText(text: string)
    ensures NonBlank(text).Some? ==> !IsBlank(NonBlank(text).value)
  {
    if Decode(text).Some? { TrimIsEmptyIff(Decode(text).value); }
  }

  lemma NamesAreMembers(name: string)
    requires name in INHERITED
    ensures ':' !in name
    ensures DecisionOf(name) == Some(Member(name)) && ScopeOf(name) == Some(Member(name)) && ChoiceOf(name) == Some(Member(name))
  {
    CodesAreNoNames();
  }

  /** A token written by hand from any codes without colons splits into them. */
  lemma HandWritten(parts: seq<string>, id: string)
    requires |parts| >= 2 && parts[|parts| - 1] == Encode(id)
    requires forall i :: 0 <= i < |parts| - 1 ==> ':' !in parts[i]
    requires parts[0] != "" && !IsSpace(parts[0][0])
    ensures ParseApproval(Joined(parts, ':')) == ApprovalOf(parts)
    ensures ParseSecureInput(Joined(parts, ':')) == SecureInputOf(parts)
  {
    EncodingIsPlain(id);
    PlainIsTight(Encode(id));
    PartsComeBack(parts);
  }

  function DecisionTokenParts(code: string, id: string): seq<string> { [APPROVAL_PREFIX, code, "-", Encode(id)] }

  function ScopeTokenParts(code: string, id: string): seq<string> { [APPROVAL_PREFIX, "a", code, Encode(id)] }

  function ChoiceTokenParts(code: string, id: string): seq<string> { [SECURE_INPUT_PREFIX, code, Encode(id)] }

  /** A token with any decision code and no scope, an approval with any scope code, a secure input with any choice. */
  function DecisionToken(code: string, id: string): string { Joined(DecisionTokenParts(code, id), ':') }

  function ScopeToken(code: string, id: string): string { Joined(ScopeTokenParts(code, id), ':') }

  function ChoiceToken(code: string, id: string): string { Joined(ChoiceTokenParts(code, id), ':') }

  lemma DecisionPartsParse(parts: seq<string>, id: string)
    requires |parts| == 4 && parts[0] == APPROVAL_PREFIX && parts[2] == "-" && parts[3] == Encode(id) && !IsBlank(id)
    requires ':' !in parts[1] && DecisionOf(parts[1]) == Some(Member(parts[1]))
    ensures ParseApproval(Joined(parts, ':')) == Some(ParsedApproval(id, Member(parts[1]), None))
  {
    HandWritten(parts, id);
    IdReadsBack(id);
  }

  lemma ScopePartsParse(parts: seq<string>, id: string)
    requires |parts| == 4 && parts[0] == APPROVAL_PREFIX && parts[1] == "a" && parts[3] == Encode(id) && !IsBlank(id)
    requires ':' !in parts[2] && ScopeOf(parts[2]) == Some(Member(parts[2]))
    ensures ParseApproval(Joined(parts, ':')) == Some(ParsedApproval(id, Listed(Approved), Some(Member(parts[2]))))
  {
    HandWritten(parts, id);
    IdReadsBack(id);
  }

  lemma ChoicePartsParse(parts: seq<string>, id: string)
    requires |parts| == 3 && parts[0] == SECURE_INPUT_PREFIX && parts[2] == Encode(id) && !IsBlank(id)
    requires ':' !in parts[1] && ChoiceOf(parts[1]) == Some(Member(parts[1]))
    ensures ParseSecureInput(Joined(parts, ':')) == Some(ParsedSecureInput(id, Member(parts[1])))
  {
    HandWritten(parts, id);
    IdReadsBack(id);
  }

  /** Every inherited name parses as the decision of a token without a scope, for every id. */
  lemma InheritedDecisionParses(name: string, id: string)
    requires name in INHERITED && !IsBlank(id)
    ensures ParseApproval(DecisionToken(name, id)) == Some(ParsedApproval(id, Member(name), None))
  {
    NamesAreMembers(name);
    DecisionPartsParse(DecisionTokenParts(name, id), id);
  }

  /** Every inherited name parses as the scope of an approval, for every id. */
  lemma InheritedScopeParses(name: string, id: string)
    requires name in INHERITED && !IsBlank(id)
    ensures ParseApproval(ScopeToken(name, id)) == Some(ParsedApproval(id, Listed(Approved), Some(Member(name))))
  {
    NamesAreMembers(name);
    ScopePartsParse(ScopeTokenParts(name, id), id);
  }

  /** Every inherited name parses as the choice of a secure input, for every id. */
  lemma InheritedChoiceParses(name: string, id: string)
    requires name in INHERITED && !IsBlank(id)
    ensures ParseSecureInput(ChoiceToken(name, id)) == Some(ParsedSecureInput(id, Member(name)))
  {
    NamesAreMembers(name);
    ChoicePartsParse(ChoiceTokenParts(name, id), id);
  }

  /** Three messages that parse although nothing renders them: a decision, a scope and a choice that are functions. */
  lemma InheritedNameMessages()
    ensures ParseApproval("ecap1:" + "constructor" + ":-:x") == Some(ParsedApproval("x", Member("constructor"), None))
    ensures ParseApproval("ecap1:a:" + "toString" + ":x") == Some(ParsedApproval("x", Listed(Approved), Some(Member("toString"))))
    ensures ParseSecureInput("ecsi1:" + "valueOf" + ":x") == Some(ParsedSecureInput("x", Member("valueOf")))
  {
    TextOfX();
    InheritedDecisionParses("constructor", "x");
    InheritedScopeParses("toString", "x");
    InheritedChoiceParses("valueOf", "x");
    DecisionText("constructor");
    ScopeText("toString");
    ChoiceText("valueOf");
  }

  lemma TextOfX()
    ensures Encode("x") == "x" && !IsBlank("x")
  {
    assert "x"[0] in "x";
  }

  lemma JoinedTwo(a: string, b: string)
    ensures Joined([a, b], ':') == a + ":" + b
  {
    assert [a, b][1..] == [b];
  }

  lemma JoinedThree(a: string, b: string, c: string)
    ensures Joined([a, b, c], ':') == a + ":" + (b + ":" + c)
  {
    assert [a, b, c][1..] == [b, c];
    JoinedTwo(b, c);
  }

  lemma JoinedFour(a: string, b: string, c: string, d: string)
    ensures Joined([a, b, c, d], ':') == a + ":" + (b + ":" + (c + ":" + d))
  {
    assert [a, b, c, d][1..] == [b, c, d];
    JoinedThree(b, c, d);
  }

  lemma DecisionText(code: string)
    ensures DecisionToken(code, "x") == "ecap1:" + code + ":-:x"
  {
    TextOfX();
    JoinedFour("ecap1", code, "-", "x");
  }

  lemma ScopeText(code: string)
    ensures ScopeToken(code, "x") == "ecap1:a:" + code + ":x"
  {
    TextOfX();
    JoinedFour("ecap1", "a", code, "x");
  }

  lemma ChoiceText(code: string)
    ensures ChoiceToken(code, "x") == "ecsi1:" + code + ":x"
  {
    TextOfX();
    JoinedThree("ecsi1", code, "x");
  }
}
