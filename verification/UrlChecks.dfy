/** The two URL checks, safety and classification, and the routing decision built on the second. The URL parser's
    answer (the host name of an http or https URL, or None), the resolver and `isIp` are parameters. */
module UrlChecks {
  import opened Wrappers
  import opened Text
  import opened IpAddresses
  import opened Ipv6

  function StripBrackets(s: string): string {
    if |s| >= 2 && s[0] == '[' && s[|s| - 1] == ']' then s[1..|s| - 1] else s
  }

  function TrimDots(s: string): string {
    if s != "" && s[|s| - 1] == '.' then TrimDots(s[..|s| - 1]) else s
  }

  function NormalizeHostname(hostname: string): string { TrimDots(ToLower(Trim(StripBrackets(hostname)))) }

  function NormalizeIp(value: string, isIp: string -> nat): Option<string> {
    var trimmed := ToLower(StripBrackets(Trim(value)));
    if isIp(trimmed) == 0 then None else Some(NormalizeMapped(trimmed, isIp))
  }

  const BLOCKED_HOSTNAMES: set<string> := {"metadata.google.internal", "metadata.goog"}

  const BLOCKED_IPS: set<string> :=
    {"169.254.169.254", "169.254.170.2", "169.254.169.253", "fd00:ec2::254", "100.100.100.200"}

  predicate AlwaysBlocked(ip: string, isIp: string -> nat) {
    var normalized := NormalizeIp(ip, isIp);
    normalized.Some? && normalized.value in BLOCKED_IPS
  }

  predicate IsPrivate(ip: string, isIp: string -> nat) {
    if isIp(ip) == 4 then IsPrivateIpv4(ip) else IsPrivateIpv6(ip, isIp)
  }

  predicate EndsWith(s: string, suffix: string) { |suffix| <= |s| && s[|s| - |suffix|..] == suffix }

  predicate IsInternalHostname(hostname: string) {
    || hostname == "localhost" || EndsWith(hostname, ".localhost") || EndsWith(hostname, ".local")
    || EndsWith(hostname, ".internal") || '.' !in hostname
  }

  // ---------------------------------------------------------------- safety

  predicate SafeIp(ip: string, allowPrivate: bool, isIp: string -> nat) {
    !AlwaysBlocked(ip, isIp) && (allowPrivate || !IsPrivate(ip, isIp))
  }

  predicate SafeAddress(address: string, allowPrivate: bool, isIp: string -> nat) {
    var ip := NormalizeIp(address, isIp);
    ip.Some? && SafeIp(ip.value, allowPrivate, isIp)
  }

  /** None is a resolver that failed. */
  predicate SafeAnswer(addresses: Option<seq<string>>, allowPrivate: bool, isIp: string -> nat) {
    && addresses.Some? && addresses.value != []
    && forall i :: 0 <= i < |addresses.value| ==> SafeAddress(addresses.value[i], allowPrivate, isIp)
  }

  /** `literal` is the host name read as an address. */
  predicate SafeHost(hostname: string, literal: Option<string>, addresses: Option<seq<string>>, allowPrivate: bool,
                     isIp: string -> nat)
  {
    if hostname in BLOCKED_HOSTNAMES then false
    else if literal.Some? then SafeIp(literal.value, allowPrivate, isIp)
    else SafeAnswer(addresses, allowPrivate, isIp)
  }

  predicate IsSafeUrl(host: Option<string>, allowPrivate: bool, resolve: string -> Option<seq<string>>,
                      isIp: string -> nat)
  {
    host.Some? &&
    var hostname := NormalizeHostname(host.value);
    SafeHost(hostname, NormalizeIp(hostname, isIp), resolve(hostname), allowPrivate, isIp)
  }

  predicate IsAlwaysBlockedUrl(host: Option<string>, isIp: string -> nat) {
    if host.None? then true
    else
      var hostname := NormalizeHostname(host.value);
      hostname in BLOCKED_HOSTNAMES
      || (NormalizeIp(hostname, isIp).Some? && AlwaysBlocked(NormalizeIp(hostname, isIp).value, isIp))
  }

  // ---------------------------------------------------------------- classification

  datatype Classification = Public | PrivateOrInternal | Blocked | InvalidUrl

  function ClassifyAddress(ip: string, isIp: string -> nat): Classification {
    if AlwaysBlocked(ip, isIp) then Blocked else if IsPrivate(ip, isIp) then PrivateOrInternal else Public
  }

  /** What one resolved address says; None when it is no IP address. */
  function OneAddress(address: string, isIp: string -> nat): Option<Classification> {
    var ip := NormalizeIp(address, isIp);
    if ip.None? then None else Some(ClassifyAddress(ip.value, isIp))
  }

  function Answers(addresses: seq<string>, isIp: string -> nat): (r: seq<Option<Classification>>)
    ensures |r| == |addresses| && forall i :: 0 <= i < |r| ==> r[i] == OneAddress(addresses[i], isIp)
  {
    seq(|addresses|, i requires 0 <= i < |addresses| => OneAddress(addresses[i], isIp))
  }

  /** The first address that is no IP address or is always blocked decides; otherwise one private address does. */
  function ClassifyAll(answers: seq<Option<Classification>>, sawPrivate: bool): Classification {
    if answers == [] then if sawPrivate then PrivateOrInternal else Public
    else if answers[0].None? then PrivateOrInternal
    else if answers[0].value == Blocked then Blocked
    else ClassifyAll(answers[1..], sawPrivate || answers[0].value == PrivateOrInternal)
  }

  method ClassifyResolved(addresses: seq<string>, isIp: string -> nat) returns (r: Classification)
    ensures r == ClassifyAll(Answers(addresses, isIp), false)
    ensures r == Public <==> forall i :: 0 <= i < |addresses| ==> SafeAddress(addresses[i], false, isIp)
  {
    PublicAddressesAreSafe(addresses, isIp);
    r := ClassifyInOrder(addresses, isIp);
  }

  method ClassifyInOrder(addresses: seq<string>, isIp: string -> nat) returns (r: Classification)
    ensures r == ClassifyAll(Answers(addresses, isIp), false)
  {
    ghost var answers := Answers(addresses, isIp);
    var sawPrivate := false;
    for i := 0 to |addresses|
      invariant ClassifyAll(answers, false) == ClassifyAll(answers[i..], sawPrivate)
    {
      assert answers[i..][0] == answers[i] && answers[i..][1..] == answers[i + 1..];
      var one := OneAddress(addresses[i], isIp);
      if one.None? { return PrivateOrInternal; }
      if one.value == Blocked { return Blocked; }
      if one.value == PrivateOrInternal { sawPrivate := true; }
    }
    return if sawPrivate then PrivateOrInternal else Public;
  }

  function ClassifyHost(hostname: string, literal: Option<string>, addresses: Option<seq<string>>, isIp: string -> nat)
    : Classification
  {
    if hostname == "" then InvalidUrl
    else if hostname in BLOCKED_HOSTNAMES then Blocked
    else if literal.Some? then ClassifyAddress(literal.value, isIp)
    else if IsInternalHostname(hostname) then PrivateOrInternal
    else ClassifyAnswer(addresses, isIp)
  }

  function Classify(host: Option<string>, resolve: string -> Option<seq<string>>, isIp: string -> nat): Classification {
    if host.None? then InvalidUrl
    else
      var hostname := NormalizeHostname(host.value);
      ClassifyHost(hostname, NormalizeIp(hostname, isIp), resolve(hostname), isIp)
  }

  function ClassifyAnswer(addresses: Option<seq<string>>, isIp: string -> nat): Classification {
    if addresses.None? || addresses.value == [] then PrivateOrInternal
    else ClassifyAll(Answers(addresses.value, isIp), false)
  }

  lemma {:induction false} AllPublicIff(answers: seq<Option<Classification>>, sawPrivate: bool)
    requires forall i :: 0 <= i < |answers| && answers[i].Some? ==> answers[i].value != InvalidUrl
    ensures ClassifyAll(answers, sawPrivate) == Public <==>
      !sawPrivate && forall i :: 0 <= i < |answers| ==> answers[i] == Some(Public)
  {
    if answers != [] {
      AllPublicIff(answers[1..], sawPrivate || answers[0] == Some(PrivateOrInternal));
      assert forall i :: 0 < i < |answers| ==> answers[i] == answers[1..][i - 1];
    }
  }

  lemma PublicAddressesAreSafe(addresses: seq<string>, isIp: string -> nat)
    ensures ClassifyAll(Answers(addresses, isIp), false) == Public <==>
      forall i :: 0 <= i < |addresses| ==> SafeAddress(addresses[i], false, isIp)
  {
    forall i | 0 <= i < |addresses|
      ensures OneAddress(addresses[i], isIp) == Some(Public) <==> SafeAddress(addresses[i], false, isIp)
      ensures OneAddress(addresses[i], isIp) != Some(InvalidUrl)
    {
      SafeIsPublic(addresses[i], isIp);
    }
    AllPublicIff(Answers(addresses, isIp), false);
  }

  lemma SafeIsPublic(address: string, isIp: string -> nat)
    ensures OneAddress(address, isIp) == Some(Public) <==> SafeAddress(address, false, isIp)
    ensures OneAddress(address, isIp) != Some(InvalidUrl)
  {}

  /** The two checks agree: public means accepted with private URLs disallowed, and what is accepted without being
      public is a name (not an address) that looks internal. The empty name looks internal. */
  lemma PublicIffSafe(host: Option<string>, resolve: string -> Option<seq<string>>, isIp: string -> nat)
    requires isIp("") == 0
    ensures Classify(host, resolve, isIp) == Public <==>
      && IsSafeUrl(host, false, resolve, isIp)
      && (var hostname := NormalizeHostname(host.value);
          NormalizeIp(hostname, isIp).Some? || !IsInternalHostname(hostname))
  {
    if host.Some? {
      var hostname := NormalizeHostname(host.value);
      EmptyIsNoAddress(isIp);
      HostPublicIff(hostname, NormalizeIp(hostname, isIp), resolve(hostname), isIp);
    }
  }

  lemma HostPublicIff(hostname: string, literal: Option<string>, addresses: Option<seq<string>>, isIp: string -> nat)
    requires hostname == "" ==> literal.None?
    ensures ClassifyHost(hostname, literal, addresses, isIp) == Public <==>
      SafeHost(hostname, literal, addresses, false, isIp) && (literal.Some? || !IsInternalHostname(hostname))
  {
    if hostname == "" {
      assert IsInternalHostname(hostname);
    } else if literal.Some? {
      LiteralPublicIff(literal.value, isIp);
    } else {
      AnswerPublicIff(addresses, isIp);
    }
  }

  lemma EmptyIsNoAddress(isIp: string -> nat)
    requires isIp("") == 0
    ensures NormalizeIp("", isIp).None? && IsInternalHostname("")
  {
    assert Trim("") == "" && StripBrackets("") == "" && ToLower("") == "";
  }

  lemma AnswerPublicIff(addresses: Option<seq<string>>, isIp: string -> nat)
    ensures ClassifyAnswer(addresses, isIp) == Public <==> SafeAnswer(addresses, false, isIp)
  {
    if addresses.Some? { PublicAddressesAreSafe(addresses.value, isIp); }
  }

  lemma LiteralPublicIff(ip: string, isIp: string -> nat)
    ensures ClassifyAddress(ip, isIp) == Public <==> SafeIp(ip, false, isIp)
  {}

  /** A URL that is blocked without a lookup is never routed to either browser. */
  lemma BlockedIsNeverClassifiedReachable(host: Option<string>, resolve: string -> Option<seq<string>>, isIp: string -> nat)
    ensures IsAlwaysBlockedUrl(host, isIp) ==> Classify(host, resolve, isIp) in {Blocked, InvalidUrl}
    ensures IsAlwaysBlockedUrl(host, isIp) ==> forall allow :: !IsSafeUrl(host, allow, resolve, isIp)
  {}

  /** Allowing private URLs only ever accepts more. */
  lemma AllowingPrivateAcceptsMore(host: Option<string>, resolve: string -> Option<seq<string>>, isIp: string -> nat)
    requires IsSafeUrl(host, false, resolve, isIp)
    ensures IsSafeUrl(host, true, resolve, isIp)
  {
    var hostname := NormalizeHostname(host.value);
    AllowedHost(hostname, NormalizeIp(hostname, isIp), resolve(hostname), isIp);
  }

  lemma AllowedHost(hostname: string, literal: Option<string>, addresses: Option<seq<string>>, isIp: string -> nat)
    requires SafeHost(hostname, literal, addresses, false, isIp)
    ensures SafeHost(hostname, literal, addresses, true, isIp)
  {
    if literal.None? {
      forall i | 0 <= i < |addresses.value| ensures SafeAddress(addresses.value[i], true, isIp) {
        assert SafeAddress(addresses.value[i], false, isIp);
      }
    }
  }

  // ---------------------------------------------------------------- routing

  datatype Route = ToCloud | ToLocal | RouteBlocked | RouteInvalid

  datatype RouterOptions = RouterOptions(allowPrivateUrls: bool, hybridRouting: bool, cloudConfigured: bool)

  function Decide(c: Classification, o: RouterOptions): Route {
    match c
    case Blocked => RouteBlocked
    case InvalidUrl => RouteInvalid
    case PrivateOrInternal =>
      if !o.allowPrivateUrls then RouteBlocked
      else if !o.cloudConfigured then ToLocal
      else if o.hybridRouting then ToLocal
      else RouteBlocked
    case Public => if o.cloudConfigured then ToCloud else ToLocal
  }

  /** The cloud gets exactly the public URLs, when there is one; the local browser gets public URLs without a cloud, and
      private ones where they are allowed and no other browser would do. */
  lemma DecideIff(c: Classification, o: RouterOptions)
    ensures Decide(c, o) == ToCloud <==> o.cloudConfigured && c == Public
    ensures Decide(c, o) == ToLocal <==>
      || (!o.cloudConfigured && c == Public)
      || (c == PrivateOrInternal && o.allowPrivateUrls && (o.hybridRouting || !o.cloudConfigured))
    ensures c in {Blocked, InvalidUrl} ==> Decide(c, o) in {RouteBlocked, RouteInvalid}
  {}

  /** Whatever is routed to the cloud, and whatever is routed at all where private URLs are not allowed, is safe by the
      other check with private URLs disallowed. */
  lemma RoutedIsSafe(host: Option<string>, resolve: string -> Option<seq<string>>, isIp: string -> nat, o: RouterOptions)
    requires isIp("") == 0
    requires var route := Decide(Classify(host, resolve, isIp), o);
      route == ToCloud || (route == ToLocal && !o.allowPrivateUrls)
    ensures IsSafeUrl(host, false, resolve, isIp)
  {
    DecideIff(Classify(host, resolve, isIp), o);
    PublicIffSafe(host, resolve, isIp);
  }
}
