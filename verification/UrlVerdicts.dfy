/** The verdicts of the two URL checks, said by the name or the number in the URL: which addresses, names and resolver
    answers are accepted, public, private or blocked. */
module UrlVerdicts {
  import opened Wrappers
  import opened Text
  import opened Ipv6
  import opened UrlChecks
  import opened UrlNumbers

  // ---------------------------------------------------------------- spellings of a host name and of an answer

  /** A text that neither trimming nor unwrapping brackets changes. */
  predicate Firm(s: string) { s != "" && !IsSpace(s[0]) && !IsSpace(s[|s| - 1]) && s[0] != '[' }

  predicate Solid(s: string) { Firm(s) && s[|s| - 1] != '.' }

  predicate AllDots(s: string) { forall k :: 0 <= k < |s| ==> s[k] == '.' }

  /** `s` is `name` in any case between `i` and `j`, with dots after it and space around both. */
  predicate PaddedAt(s: string, name: string, i: nat, j: nat, k: nat) {
    && i <= j <= k <= |s|
    && IsBlank(s[..i]) && ToLower(s[i..j]) == ToLower(name) && AllDots(s[j..k]) && IsBlank(s[k..])
  }

  ghost predicate Padded(s: string, name: string) { exists i: nat, j: nat, k: nat :: PaddedAt(s, name, i, j, k) }

  /** `host` spells `name`, in brackets or without. */
  ghost predicate Spells(host: string, name: string) {
    Padded(host, name) || (|host| >= 2 && host[0] == '[' && host[|host| - 1] == ']' && Padded(host[1..|host| - 1], name))
  }

  lemma LowerAgrees(c: char, d: char)
    requires LowerChar(c) == LowerChar(d)
    ensures IsSpace(c) <==> IsSpace(d)
    ensures c == '[' <==> d == '['
    ensures c == '.' <==> d == '.'
  {}

  lemma {:induction false} TrimEndAt(s: string, k: nat)
    requires 0 < k <= |s| && !IsSpace(s[k - 1]) && IsBlank(s[k..])
    ensures TrimEnd(s) == s[..k]
  {
    if k == |s| {
      assert s[..k] == s;
    } else {
      var front := s[..|s| - 1];
      assert s[|s| - 1] in s[k..];
      assert s[k..] == front[k..] + [s[|s| - 1]];
      TrimEndAt(front, k);
      assert front[..k] == s[..k];
    }
  }

  lemma {:induction false} TrimStartAt(s: string, i: nat)
    requires i < |s| && !IsSpace(s[i]) && IsBlank(s[..i])
    ensures TrimStart(s) == s[i..]
  {
    if i > 0 {
      assert s[0] in s[..i] && s[1..][..i - 1] == s[..i][1..];
      TrimStartAt(s[1..], i - 1);
      assert s[1..][i - 1..] == s[i..];
    }
  }

  lemma TrimAt(s: string, i: nat, k: nat)
    requires i < k <= |s| && !IsSpace(s[i]) && !IsSpace(s[k - 1]) && IsBlank(s[..i]) && IsBlank(s[k..])
    ensures Trim(s) == s[i..k]
  {
    TrimEndAt(s, k);
    assert s[..k][..i] == s[..i] && s[..k][i..] == s[i..k];
    TrimStartAt(s[..k], i);
  }

  lemma {:induction false} TrimDotsAt(s: string, dots: string)
    requires s == "" || s[|s| - 1] != '.'
    requires AllDots(dots)
    ensures TrimDots(s + dots) == s
  {
    if dots == "" {
      assert s + dots == s;
    } else {
      var t := s + dots;
      assert t[..|t| - 1] == s + dots[..|dots| - 1];
      TrimDotsAt(s, dots[..|dots| - 1]);
    }
  }

  lemma PaddedNormalizes(s: string, name: string)
    requires Padded(s, name) && Solid(name)
    ensures TrimDots(ToLower(Trim(s))) == ToLower(name)
  {
    var i: nat, j: nat, k: nat :| PaddedAt(s, name, i, j, k);
    PaddedParts(s, name, i, j, k);
  }

  lemma PaddedParts(s: string, name: string, i: nat, j: nat, k: nat)
    requires PaddedAt(s, name, i, j, k) && Solid(name)
    ensures TrimDots(ToLower(Trim(s))) == ToLower(name)
  {
    SpelledFirm(s[i..j], name);
    TrimPadded(s, i, j, k);
    DropDots(s[i..j], s[j..k], name);
  }

  lemma TrimPadded(s: string, i: nat, j: nat, k: nat)
    requires i <= j <= k <= |s| && IsBlank(s[..i]) && Solid(s[i..j]) && AllDots(s[j..k]) && IsBlank(s[k..])
    ensures Trim(s) == s[i..j] + s[j..k]
  {
    EndsSolid(s[i..j], s[j..k]);
    assert s[i..k] == s[i..j] + s[j..k];
    assert s[i] == s[i..k][0] && s[k - 1] == s[i..k][k - i - 1];
    TrimAt(s, i, k);
  }

  lemma EndsSolid(core: string, dots: string)
    requires Solid(core) && AllDots(dots)
    ensures var all := core + dots; !IsSpace(all[0]) && !IsSpace(all[|all| - 1])
  {
    if dots != "" { NoSpace('.'); }
  }

  lemma DropDots(core: string, dots: string, name: string)
    requires ToLower(core) == ToLower(name) && Solid(name) && AllDots(dots)
    ensures TrimDots(ToLower(core + dots)) == ToLower(name)
  {
    LowerDots(core, dots);
    SolidInLowerCase(name);
    TrimDotsAt(ToLower(name), dots);
  }

  lemma SpelledFirm(core: string, name: string)
    requires ToLower(core) == ToLower(name) && Firm(name)
    ensures Firm(core) && (core[|core| - 1] == '.' <==> name[|name| - 1] == '.')
  {
    assert |core| == |ToLower(core)| == |name|;
    var last := |name| - 1;
    assert ToLower(core)[0] == ToLower(name)[0] && ToLower(core)[last] == ToLower(name)[last];
    LowerAgrees(core[0], name[0]);
    LowerAgrees(core[last], name[last]);
  }

  lemma LowerDots(core: string, dots: string)
    requires AllDots(dots)
    ensures ToLower(core + dots) == ToLower(core) + dots
  {
    forall k | 0 <= k < |dots| ensures LowerChar(dots[k]) == dots[k] {}
  }

  /** Every spelling of a name normalises to its lower case. */
  lemma SpellingNormalizes(host: string, name: string)
    requires Spells(host, name) && Solid(name)
    ensures NormalizeHostname(host) == ToLower(name)
  {
    if Padded(host, name) {
      NotBracketed(host, name);
      PaddedNormalizes(host, name);
    } else {
      PaddedNormalizes(host[1..|host| - 1], name);
    }
  }

  lemma NotBracketed(host: string, name: string)
    requires Padded(host, name) && Solid(name)
    ensures StripBrackets(host) == host
  {
    var i: nat, j: nat, k: nat :| PaddedAt(host, name, i, j, k);
    SpelledFirm(host[i..j], name);
    if i > 0 { assert host[0] in host[..i]; }
  }

  lemma SolidInLowerCase(name: string)
    requires Solid(name)
    ensures Solid(ToLower(name)) && ToLower(ToLower(name)) == ToLower(name)
  {
    assert ToLower(ToLower(name)) == ToLower(name);
    SpelledFirm(ToLower(name), name);
  }

  /** `address` is `text` in any case, in brackets or without, with space around it. */
  predicate WritesAt(address: string, text: string, i: nat, k: nat) {
    && i < k <= |address| && IsBlank(address[..i]) && IsBlank(address[k..])
    && (var m := address[i..k];
        || ToLower(m) == ToLower(text)
        || (|m| >= 2 && m[0] == '[' && m[|m| - 1] == ']' && ToLower(m[1..|m| - 1]) == ToLower(text)))
  }

  ghost predicate WritesText(address: string, text: string) { exists i: nat, k: nat :: WritesAt(address, text, i, k) }

  function Unmapped(text: string, isIp: string -> nat): Option<string> {
    if isIp(text) == 0 then None else Some(NormalizeMapped(text, isIp))
  }

  lemma WrittenNormalizes(address: string, text: string, isIp: string -> nat)
    requires WritesText(address, text) && Firm(text)
    ensures NormalizeIp(address, isIp) == Unmapped(ToLower(text), isIp)
  {
    var i: nat, k: nat :| WritesAt(address, text, i, k);
    WrittenAtNormalizes(address, text, i, k);
  }

  lemma WrittenAtNormalizes(address: string, text: string, i: nat, k: nat)
    requires WritesAt(address, text, i, k) && Firm(text)
    ensures ToLower(StripBrackets(Trim(address))) == ToLower(text)
  {
    var m := address[i..k];
    if ToLower(m) == ToLower(text) { SpelledFirm(m, text); }
    BracketsAreNoSpace();
    assert address[i] == m[0] && address[k - 1] == m[|m| - 1];
    TrimAt(address, i, k);
  }

  lemma BracketsAreNoSpace()
    ensures !IsSpace('[') && !IsSpace(']')
  {}

  // ---------------------------------------------------------------- verdicts on addresses

  lemma AddressVerdict(x: Address, isIp: string -> nat)
    requires Proper(x, isIp) && DotsInQuads(isIp)
    ensures Unmapped(ToLower(TextOf(x)), isIp) == Some(Judged(x)) && Solid(TextOf(x))
    ensures AlwaysBlocked(Judged(x), isIp) <==> Metadata(x)
    ensures IsPrivate(Judged(x), isIp) <==> Reserved(x)
    ensures Metadata(x) ==> Reserved(x)
  {
    NormalizedIs(x, isIp);
    CleanNormalizes(ToLower(TextOf(x)), isIp);
    JudgedIsNormal(x, isIp);
    JudgedIff(x, isIp);
    CleanIsSolid(TextOf(x));
  }

  lemma CleanIsSolid(text: string)
    requires Clean(ToLower(text))
    ensures Solid(text)
  {
    var t := ToLower(text);
    NoSpace(t[0]);
    NoSpace(t[|t| - 1]);
    assert ToLower(t) == t by { LowerIsLower(t); }
    SpelledFirm(text, t);
  }

  lemma AddressesAreNoNames(x: Address, isIp: string -> nat)
    requires Proper(x, isIp)
    ensures ToLower(TextOf(x)) !in BLOCKED_HOSTNAMES
  {
    AddressIsClean(x, isIp);
    assert !AddressChar("metadata.google.internal"[0]) && !AddressChar("metadata.goog"[0]);
  }

  /** A URL whose host spells an address is judged by the number of the address: with private URLs disallowed it is
      accepted, and classified public, exactly outside the reserved ranges, and otherwise exactly when it is no metadata
      address. */
  lemma LiteralIff(host: string, x: Address, resolve: string -> Option<seq<string>>, isIp: string -> nat)
    requires Proper(x, isIp) && DotsInQuads(isIp) && Spells(host, TextOf(x))
    ensures IsSafeUrl(Some(host), false, resolve, isIp) <==> !Reserved(x)
    ensures IsSafeUrl(Some(host), true, resolve, isIp) <==> !Metadata(x)
    ensures Classify(Some(host), resolve, isIp) ==
      if Metadata(x) then Blocked else if Reserved(x) then PrivateOrInternal else Public
    ensures IsAlwaysBlockedUrl(Some(host), isIp) <==> Metadata(x)
  {
    AddressVerdict(x, isIp);
    AddressesAreNoNames(x, isIp);
    SpellingNormalizes(host, TextOf(x));
    NormalizedIs(x, isIp);
    LiteralVerdict(ToLower(TextOf(x)), Judged(x), resolve(ToLower(TextOf(x))), isIp);
  }

  lemma LiteralVerdict(hostname: string, literal: string, addresses: Option<seq<string>>, isIp: string -> nat)
    requires hostname != "" && hostname !in BLOCKED_HOSTNAMES
    ensures SafeHost(hostname, Some(literal), addresses, false, isIp) <==>
      !AlwaysBlocked(literal, isIp) && !IsPrivate(literal, isIp)
    ensures SafeHost(hostname, Some(literal), addresses, true, isIp) <==> !AlwaysBlocked(literal, isIp)
    ensures ClassifyHost(hostname, Some(literal), addresses, isIp) ==
      if AlwaysBlocked(literal, isIp) then Blocked else if IsPrivate(literal, isIp) then PrivateOrInternal else Public
  {}

  // ---------------------------------------------------------------- verdicts on names

  /** What one answer of the resolver says: an address, or a text the platform knows as none. */
  datatype Said = IsAddress(x: Address) | NoAddress(text: string)

  ghost predicate Answered(address: string, said: Said, isIp: string -> nat) {
    match said
    case IsAddress(x) => Proper(x, isIp) && WritesText(address, TextOf(x))
    case NoAddress(text) => Firm(text) && isIp(ToLower(text)) == 0 && WritesText(address, text)
  }

  predicate LooksInternal(n: string) {
    || n == "localhost" || (|n| >= 10 && n[|n| - 10..] == ".localhost") || (|n| >= 6 && n[|n| - 6..] == ".local")
    || (|n| >= 9 && n[|n| - 9..] == ".internal") || '.' !in n
  }

  predicate Outside(said: Said) { said.IsAddress? && !Reserved(said.x) }

  predicate NoMetadata(said: Said) { said.IsAddress? && !Metadata(said.x) }

  lemma AnswerVerdict(address: string, said: Said, isIp: string -> nat)
    requires Answered(address, said, isIp) && DotsInQuads(isIp)
    ensures SafeAddress(address, false, isIp) <==> Outside(said)
    ensures SafeAddress(address, true, isIp) <==> NoMetadata(said)
    ensures OneAddress(address, isIp) ==
      if said.NoAddress? then None
      else Some(if Metadata(said.x) then Blocked else if Reserved(said.x) then PrivateOrInternal else Public)
  {
    match said
    case IsAddress(x) =>
      AddressVerdict(x, isIp);
      WrittenNormalizes(address, TextOf(x), isIp);
    case NoAddress(text) =>
      WrittenNormalizes(address, text, isIp);
  }

  lemma {:induction false} BlockedIff(answers: seq<Option<Classification>>, sawPrivate: bool)
    requires forall k :: 0 <= k < |answers| && answers[k].Some? ==> answers[k].value != InvalidUrl
    ensures ClassifyAll(answers, sawPrivate) != InvalidUrl
    ensures ClassifyAll(answers, sawPrivate) == Blocked <==> exists k: nat :: FirstBlocked(answers, k)
  {
    if answers != [] {
      var saw := sawPrivate || answers[0] == Some(PrivateOrInternal);
      BlockedIff(answers[1..], saw);
      if exists k: nat :: FirstBlocked(answers[1..], k) {
        var k: nat :| FirstBlocked(answers[1..], k);
        assert answers[0].Some? ==> FirstBlocked(answers, k + 1);
      }
      if exists k: nat :: FirstBlocked(answers, k) {
        var k: nat :| FirstBlocked(answers, k);
        assert k > 0 ==> FirstBlocked(answers[1..], k - 1);
      }
      assert answers[0] == Some(Blocked) ==> FirstBlocked(answers, 0);
    }
  }

  /** The answer at `k` is blocked and every one before it is an address. */
  predicate FirstBlocked(answers: seq<Option<Classification>>, k: nat) {
    k < |answers| && answers[k] == Some(Blocked) && forall m :: 0 <= m < k ==> answers[m].Some?
  }

  predicate FirstMetadata(said: seq<Said>, k: nat) {
    k < |said| && said[k].IsAddress? && Metadata(said[k].x) && forall m :: 0 <= m < k ==> said[m].IsAddress?
  }

  lemma FirmAsIp(s: string, isIp: string -> nat)
    requires Firm(s)
    ensures NormalizeIp(s, isIp) == Unmapped(ToLower(s), isIp)
  {
    SolidTrims(s);
    assert StripBrackets(s) == s;
  }

  lemma NameIsNoLiteral(host: string, name: string, isIp: string -> nat)
    requires Spells(host, name) && Solid(name) && isIp(ToLower(name)) == 0
    ensures NormalizeHostname(host) == ToLower(name) && NormalizeIp(ToLower(name), isIp).None? && ToLower(name) != ""
  {
    SpellingNormalizes(host, name);
    SolidInLowerCase(name);
    FirmAsIp(ToLower(name), isIp);
  }

  lemma InternalIff(n: string)
    ensures IsInternalHostname(n) <==> LooksInternal(n)
  {}

  ghost predicate AllAnswered(addresses: seq<string>, said: seq<Said>, isIp: string -> nat) {
    |said| == |addresses| && forall k :: 0 <= k < |said| ==> Answered(addresses[k], said[k], isIp)
  }

  lemma AnswersSafe(addresses: seq<string>, said: seq<Said>, isIp: string -> nat)
    requires DotsInQuads(isIp) && AllAnswered(addresses, said, isIp)
    ensures SafeAnswer(Some(addresses), false, isIp) <==> said != [] && forall k :: 0 <= k < |said| ==> Outside(said[k])
    ensures SafeAnswer(Some(addresses), true, isIp) <==> said != [] && forall k :: 0 <= k < |said| ==> NoMetadata(said[k])
  {
    forall k | 0 <= k < |said|
      ensures SafeAddress(addresses[k], false, isIp) <==> Outside(said[k])
      ensures SafeAddress(addresses[k], true, isIp) <==> NoMetadata(said[k])
    {
      AnswerVerdict(addresses[k], said[k], isIp);
    }
  }

  predicate Matches(answer: Option<Classification>, said: Said) {
    && answer != Some(InvalidUrl) && (answer.Some? <==> said.IsAddress?)
    && (answer == Some(Blocked) <==> said.IsAddress? && Metadata(said.x))
  }

  lemma AnswerMatches(address: string, said: Said, isIp: string -> nat)
    requires DotsInQuads(isIp) && Answered(address, said, isIp)
    ensures Matches(OneAddress(address, isIp), said)
  {
    AnswerVerdict(address, said, isIp);
  }

  lemma AnswersBlocked(addresses: seq<string>, said: seq<Said>, isIp: string -> nat)
    requires DotsInQuads(isIp) && AllAnswered(addresses, said, isIp)
    ensures ClassifyAnswer(Some(addresses), isIp) == Blocked <==> exists k: nat :: FirstMetadata(said, k)
    ensures ClassifyAnswer(Some(addresses), isIp) != InvalidUrl
  {
    var answers := Answers(addresses, isIp);
    forall k | 0 <= k < |said| ensures Matches(answers[k], said[k]) { AnswerMatches(addresses[k], said[k], isIp); }
    MatchedBlocked(answers, said);
    if addresses == [] {
      forall k: nat ensures !FirstMetadata(said, k) {}
    }
  }

  lemma MatchedBlocked(answers: seq<Option<Classification>>, said: seq<Said>)
    requires |answers| == |said| && forall k :: 0 <= k < |said| ==> Matches(answers[k], said[k])
    ensures ClassifyAll(answers, false) == Blocked <==> exists k: nat :: FirstMetadata(said, k)
    ensures ClassifyAll(answers, false) != InvalidUrl
  {
    BlockedIff(answers, false);
    forall k: nat ensures FirstBlocked(answers, k) <==> FirstMetadata(said, k) {
      if k < |said| { assert Matches(answers[k], said[k]); }
    }
  }

  /** A URL whose host is a name is judged by the numbers the resolver answers: it is accepted exactly when there is an
      answer and every one is an address outside the reserved ranges (or, with private URLs allowed, no metadata address);
      it is public when it does not look internal besides, and blocked when a metadata address comes before any answer
      that is no address. */
  lemma NameIff(host: string, name: string, addresses: seq<string>, said: seq<Said>,
                resolve: string -> Option<seq<string>>, isIp: string -> nat)
    requires DotsInQuads(isIp) && Spells(host, name) && Solid(name) && isIp(ToLower(name)) == 0
    requires ToLower(name) != "metadata.google.internal" && ToLower(name) != "metadata.goog"
    requires resolve(ToLower(name)) == Some(addresses) && AllAnswered(addresses, said, isIp)
    ensures IsSafeUrl(Some(host), false, resolve, isIp) <==>
      said != [] && forall k :: 0 <= k < |said| ==> Outside(said[k])
    ensures IsSafeUrl(Some(host), true, resolve, isIp) <==>
      said != [] && forall k :: 0 <= k < |said| ==> NoMetadata(said[k])
    ensures Classify(Some(host), resolve, isIp) == Public <==>
      !LooksInternal(ToLower(name)) && said != [] && forall k :: 0 <= k < |said| ==> Outside(said[k])
    ensures Classify(Some(host), resolve, isIp) == Blocked <==>
      !LooksInternal(ToLower(name)) && exists k: nat :: FirstMetadata(said, k)
    ensures Classify(Some(host), resolve, isIp) != InvalidUrl && !IsAlwaysBlockedUrl(Some(host), isIp)
  {
    NameIsNoLiteral(host, name, isIp);
    AnswersSafe(addresses, said, isIp);
    AnswersBlocked(addresses, said, isIp);
    OtherName(ToLower(name));
    NamedUrl(host, ToLower(name), Some(addresses), resolve, isIp);
  }

  lemma OtherName(n: string)
    requires n != "metadata.google.internal" && n != "metadata.goog"
    ensures n !in BLOCKED_HOSTNAMES
  {}

  lemma NamedUrl(host: string, n: string, addresses: Option<seq<string>>, resolve: string -> Option<seq<string>>, isIp: string -> nat)
    requires NormalizeHostname(host) == n && NormalizeIp(n, isIp).None? && n != "" && resolve(n) == addresses
    requires n !in BLOCKED_HOSTNAMES
    ensures IsSafeUrl(Some(host), false, resolve, isIp) <==> SafeAnswer(addresses, false, isIp)
    ensures IsSafeUrl(Some(host), true, resolve, isIp) <==> SafeAnswer(addresses, true, isIp)
    ensures Classify(Some(host), resolve, isIp) ==
      if LooksInternal(n) then PrivateOrInternal else ClassifyAnswer(addresses, isIp)
    ensures ClassifyAnswer(addresses, isIp) == Public <==> SafeAnswer(addresses, false, isIp)
    ensures !IsAlwaysBlockedUrl(Some(host), isIp)
  {
    HostAt(host, n, resolve, isIp);
    NamedVerdict(n, addresses, isIp);
    AnswerPublicIff(addresses, isIp);
  }

  lemma HostAt(host: string, n: string, resolve: string -> Option<seq<string>>, isIp: string -> nat)
    requires NormalizeHostname(host) == n
    ensures IsSafeUrl(Some(host), false, resolve, isIp) <==> SafeHost(n, NormalizeIp(n, isIp), resolve(n), false, isIp)
    ensures IsSafeUrl(Some(host), true, resolve, isIp) <==> SafeHost(n, NormalizeIp(n, isIp), resolve(n), true, isIp)
    ensures Classify(Some(host), resolve, isIp) == ClassifyHost(n, NormalizeIp(n, isIp), resolve(n), isIp)
    ensures IsAlwaysBlockedUrl(Some(host), isIp) ==> n in BLOCKED_HOSTNAMES || NormalizeIp(n, isIp).Some?
  {}

  lemma NamedVerdict(hostname: string, addresses: Option<seq<string>>, isIp: string -> nat)
    requires hostname != "" && hostname !in BLOCKED_HOSTNAMES
    ensures SafeHost(hostname, None, addresses, false, isIp) <==> SafeAnswer(addresses, false, isIp)
    ensures SafeHost(hostname, None, addresses, true, isIp) <==> SafeAnswer(addresses, true, isIp)
    ensures ClassifyHost(hostname, None, addresses, isIp) ==
      if LooksInternal(hostname) then PrivateOrInternal else ClassifyAnswer(addresses, isIp)
  {
    InternalIff(hostname);
  }

  /** A name that does not resolve is refused and taken for a private one. */
  lemma Unresolved(host: string, name: string, resolve: string -> Option<seq<string>>, isIp: string -> nat)
    requires Spells(host, name) && Solid(name) && isIp(ToLower(name)) == 0
    requires ToLower(name) != "metadata.google.internal" && ToLower(name) != "metadata.goog"
    requires resolve(ToLower(name)).None?
    ensures !IsSafeUrl(Some(host), false, resolve, isIp) && !IsSafeUrl(Some(host), true, resolve, isIp)
    ensures Classify(Some(host), resolve, isIp) == PrivateOrInternal
  {
    NameIsNoLiteral(host, name, isIp);
    OtherName(ToLower(name));
    NamedUrl(host, ToLower(name), None, resolve, isIp);
    NothingAnswered(isIp);
  }

  lemma NothingAnswered(isIp: string -> nat)
    ensures !SafeAnswer(None, false, isIp) && !SafeAnswer(None, true, isIp) && ClassifyAnswer(None, isIp) == PrivateOrInternal
  {
  }

  /** The two metadata names are refused in every spelling, whatever they resolve to and whatever is allowed. */
  lemma MetadataNameIsBlocked(host: string, name: string, resolve: string -> Option<seq<string>>, isIp: string -> nat)
    requires Spells(host, name) && (name == "metadata.google.internal" || name == "metadata.goog")
    ensures forall allow :: !IsSafeUrl(Some(host), allow, resolve, isIp)
    ensures Classify(Some(host), resolve, isIp) == Blocked && IsAlwaysBlockedUrl(Some(host), isIp)
  {
    MetadataSpelling(name);
    SpellingNormalizes(host, name);
  }

  lemma MetadataSpelling(name: string)
    requires name == "metadata.google.internal" || name == "metadata.goog"
    ensures Solid(name) && ToLower(name) == name
  {}

  /** A URL that is not http or https is refused by all three checks, and so is one without a host name. */
  lemma NoHostIsRefused(resolve: string -> Option<seq<string>>, isIp: string -> nat)
    ensures forall allow :: !IsSafeUrl(None, allow, resolve, isIp)
    ensures Classify(None, resolve, isIp) == InvalidUrl == Classify(Some(""), resolve, isIp) && IsAlwaysBlockedUrl(None, isIp)
  {
    assert NormalizeHostname("") == "";
  }

  predicate CarriesQuad(h: seq<nat>) { |h| == 8 && (forall k :: 0 <= k < 5 ==> h[k] == 0) && h[5] == 0xFFFF }

  /** An IPv4 address inside an IPv6 one is judged by its own number only when written behind `::ffff:`; with a leading
      zero written out it passes for public, whatever IPv4 address it carries. */
  lemma SpelledOutQuadIsPublic(host: string, x: Address, resolve: string -> Option<seq<string>>, isIp: string -> nat)
    requires Proper(x, isIp) && DotsInQuads(isIp) && Spells(host, TextOf(x))
    requires (x.Full? || x.Compressed?) && CarriesQuad(x.h)
    ensures IsSafeUrl(Some(host), false, resolve, isIp) && Classify(Some(host), resolve, isIp) == Public
  {
    SpelledOutIsOutside(x, isIp);
    LiteralIff(host, x, resolve, isIp);
  }

  lemma SpelledOutIsOutside(x: Address, isIp: string -> nat)
    requires Proper(x, isIp) && (x.Full? || x.Compressed?) && CarriesQuad(x.h)
    ensures !Reserved(x) && !Metadata(x)
  {
    WrittenJudged(x, isIp);
    assert x.h[5] != 0;
  }
}
