/** Waiting for an action to settle: a timed polling loop. Time is real; what each clock read, capture and abort check
    answers is an input, one round of answers per turn of the loop. */
module Settling {
  import opened Wrappers
  import opened Decimal
  import opened BrowserTypes

  datatype Condition =
    | UrlContains(contains: string)
    | TextContains(value: string)
    | DialogOpen
    | ElementPresent(role: Option<string>, name: Option<string>)
    | DomStable

  /** `elapsedRead`, `windowRead` and `changeRead` are the clock reads of a round; `capture` is the page seen before it,
      None when capturing threw. */
  datatype Round = Round(aborted: bool, elapsedRead: real, windowRead: real, delayAborted: bool, changeRead: real,
                         capture: Option<Snapshot>)

  datatype Settings = Settings(condition: Condition, timeout: nat, poll: real, window: real, minimum: real,
                               startedAt: real, rounds: nat -> Round)

  datatype Settlement = Settled(snapshot: Snapshot, conditionMet: bool, timedOut: bool) | Cancelled | CaptureFailed

  const DEFAULT_TIMEOUT := 2000
  const MAX_TIMEOUT := 10000

  /** None is an argument left out, a real any finite number: the greatest whole number up to it and the maximum. */
  function NormalizeTimeout(value: Option<real>): (r: Result<nat, ()>)
    ensures r.Err? <==> value.Some? && value.value <= 0.0
    ensures value.None? ==> r == Ok(DEFAULT_TIMEOUT)
    ensures r.Ok? && value.Some? ==>
      r.value as real <= value.value && r.value <= MAX_TIMEOUT && (value.value < (r.value + 1) as real || r.value == MAX_TIMEOUT)
  {
    match value
    case None => Ok(DEFAULT_TIMEOUT)
    case Some(v) => if v <= 0.0 then Err(()) else if v.Floor <= MAX_TIMEOUT then Ok(v.Floor) else Ok(MAX_TIMEOUT)
  }

  // ---------------------------------------------------------------- conditions

  predicate Includes(s: string, part: string) {
    part <= s || (s != "" && Includes(s[1..], part))
  }

  function UrlText(u: Url): string {
    match u
    case HttpUrl(origin, rest) => origin + rest
    case OtherUrl(text) => text
  }

  predicate ElementMatches(e: Element, role: Option<string>, name: Option<string>) {
    (role.None? || e.role == role) && (name.None? || (e.name.Some? && Includes(e.name.value, name.value)))
  }

  predicate ConditionMet(s: Snapshot, c: Condition) {
    match c
    case UrlContains(part) => Includes(UrlText(s.url), part)
    case TextContains(part) => Includes(if s.text.Some? then s.text.value else "", part)
    case DialogOpen => s.pendingDialogs.Some? && s.pendingDialogs.value != []
    case ElementPresent(role, name) =>
      s.elements.Some? && exists e :: e in s.elements.value && ElementMatches(e, role, name)
    case DomStable => false
  }

  function ActionKey(s: Snapshot): string {
    PrintInt(s.identity.documentEpoch) + ":" + PrintInt(s.identity.actionRevision)
  }

  lemma ActionKeysDiffer(a: Snapshot, b: Snapshot)
    ensures ActionKey(a) == ActionKey(b) <==>
      a.identity.documentEpoch == b.identity.documentEpoch && a.identity.actionRevision == b.identity.actionRevision
  {
    var p, q := PrintInt(a.identity.documentEpoch), PrintInt(b.identity.documentEpoch);
    var x, y := PrintInt(a.identity.actionRevision), PrintInt(b.identity.actionRevision);
    PrintIntIsInjective(a.identity.documentEpoch, b.identity.documentEpoch);
    PrintIntIsInjective(b.identity.documentEpoch, a.identity.documentEpoch);
    PrintIntIsInjective(a.identity.actionRevision, b.identity.actionRevision);
    if ActionKey(a) == ActionKey(b) { SameHead(p, q, x, y); }
  }

  lemma {:induction false} SameHead(p: string, q: string, x: string, y: string)
    requires ':' !in p && ':' !in q && p + ":" + x == q + ":" + y
    ensures p == q && x == y
  {
    var s := p + ":" + x;
    assert s[0] == (q + ":" + y)[0];
    assert (p != "" ==> p[0] in p) && (q != "" ==> q[0] in q);
    assert s[1..] == (q + ":" + y)[1..];
    if p == "" {
      assert s[1..] == x && (":" + y)[1..] == y;
    } else {
      assert s[1..] == p[1..] + ":" + x && (q + ":" + y)[1..] == q[1..] + ":" + y;
      SameHead(p[1..], q[1..], x, y);
      assert p == [p[0]] + p[1..] && q == [q[0]] + q[1..];
    }
  }

  // ---------------------------------------------------------------- what a round means

  predicate Captured(s: Settings, n: nat) {
    forall i :: 0 <= i <= n ==> s.rounds(i).capture.Some?
  }

  function Page(s: Settings, i: nat): Snapshot
    requires s.rounds(i).capture.Some?
  {
    s.rounds(i).capture.value
  }

  function Elapsed(s: Settings, i: nat): real { s.rounds(i).elapsedRead - s.startedAt }

  /** When the identity last changed, as the loop sees it after the capture of round `i`. */
  function StableSince(s: Settings, i: nat): real
    requires Captured(s, i)
  {
    if i == 0 then s.startedAt
    else if ActionKey(Page(s, i)) != ActionKey(Page(s, i - 1)) then s.rounds(i - 1).changeRead
    else StableSince(s, i - 1)
  }

  predicate MetAt(s: Settings, i: nat)
    requires Captured(s, i)
  {
    if s.condition == DomStable then
      Elapsed(s, i) >= s.minimum && s.rounds(i).windowRead - StableSince(s, i) >= s.window
    else ConditionMet(Page(s, i), s.condition)
  }

  predicate GoesOn(s: Settings, i: nat)
    requires Captured(s, i)
  {
    && !s.rounds(i).aborted && !MetAt(s, i) && Elapsed(s, i) < s.timeout as real && !s.rounds(i).delayAborted
  }

  function Delay(s: Settings, i: nat): real {
    var left := s.timeout as real - Elapsed(s, i);
    if s.poll < left then s.poll else left
  }

  /** The clock advances, between the start of a delay and the next round, at least by that delay. */
  ghost predicate ClockAdvances(s: Settings) {
    && Elapsed(s, 0) >= 0.0
    && forall i: nat :: s.rounds(i + 1).elapsedRead >= s.rounds(i).elapsedRead + Delay(s, i)
  }

  /** How many delays fit before the timeout. */
  function MaxDelays(s: Settings): nat
    requires s.poll > 0.0
  {
    var q := s.timeout as real / s.poll;
    if q == q.Floor as real then q.Floor else q.Floor + 1
  }

  lemma {:induction false} ElapsedGrows(s: Settings, i: nat)
    requires s.poll > 0.0 && ClockAdvances(s)
    ensures Elapsed(s, i) >= (if i as real * s.poll < s.timeout as real then i as real * s.poll else s.timeout as real)
  {
    if i > 0 {
      ElapsedGrows(s, i - 1);
      var e, p, t := Elapsed(s, i - 1), s.poll, s.timeout as real;
      assert s.rounds(i - 1 + 1).elapsedRead >= s.rounds(i - 1).elapsedRead + Delay(s, i - 1);
      assert i as real * p == (i - 1) as real * p + p;
    }
  }

  lemma ProductsGrow(a: real, b: real, p: real)
    requires a <= b && p > 0.0
    ensures a * p <= b * p
  {
    assert (b - a) * p >= 0.0;
    assert (b - a) * p == b * p - a * p;
  }

  lemma QuotientTimes(t: real, p: real)
    requires p > 0.0
    ensures (t / p) * p == t
  {}

  lemma DelaysCover(s: Settings)
    requires s.poll > 0.0
    ensures MaxDelays(s) as real * s.poll >= s.timeout as real
  {
    var t, p, m := s.timeout as real, s.poll, MaxDelays(s) as real;
    assert m >= t / p;
    ProductsGrow(t / p, m, p);
    QuotientTimes(t, p);
  }

  lemma DelaysEnd(s: Settings)
    requires s.poll > 0.0 && ClockAdvances(s)
    ensures Elapsed(s, MaxDelays(s)) >= s.timeout as real
  {
    ElapsedGrows(s, MaxDelays(s));
    DelaysCover(s);
  }

  /** What one round decides from its page: None goes on to the next one. */
  method CheckRound(s: Settings, i: nat, stableSince: real) returns (d: Option<Settlement>)
    requires Captured(s, i) && stableSince == StableSince(s, i)
    ensures d.None? <==> GoesOn(s, i)
    ensures d.Some? ==> !d.value.CaptureFailed?
    ensures d.Some? && d.value.Settled? ==>
      && d.value.snapshot == Page(s, i) && !s.rounds(i).aborted
      && (d.value.conditionMet <==> MetAt(s, i)) && (d.value.timedOut <==> !d.value.conditionMet)
      && (d.value.timedOut ==> Elapsed(s, i) >= s.timeout as real)
    ensures d == Some(Cancelled) ==>
      s.rounds(i).aborted || (!MetAt(s, i) && Elapsed(s, i) < s.timeout as real && s.rounds(i).delayAborted)
  {
    var round, snapshot := s.rounds(i), Page(s, i);
    if round.aborted { return Some(Cancelled); }
    var elapsed := round.elapsedRead - s.startedAt;
    if s.condition != DomStable && ConditionMet(snapshot, s.condition) { return Some(Settled(snapshot, true, false)); }
    if s.condition == DomStable && elapsed >= s.minimum && round.windowRead - stableSince >= s.window {
      return Some(Settled(snapshot, true, false));
    }
    if elapsed >= s.timeout as real { return Some(Settled(snapshot, false, true)); }
    if round.delayAborted { return Some(Cancelled); }
    d := None;
  }

  /** The loop stops in the first round in which it may, and reports exactly what stopped it. */
  method Settle(s: Settings) returns (r: Settlement, delays: nat)
    requires s.poll > 0.0 && ClockAdvances(s)
    ensures delays <= MaxDelays(s)
    ensures r.Settled? ==> (r.conditionMet <==> !r.timedOut)
    ensures r.Settled? ==>
      && Captured(s, delays) && r.snapshot == Page(s, delays) && !s.rounds(delays).aborted
      && (r.conditionMet <==> MetAt(s, delays)) && (r.timedOut ==> Elapsed(s, delays) >= s.timeout as real)
    ensures !r.CaptureFailed? ==> Captured(s, delays) && forall i :: 0 <= i < delays ==> GoesOn(s, i)
    ensures r.Cancelled? ==>
      (s.rounds(delays).aborted
       || (!MetAt(s, delays) && Elapsed(s, delays) < s.timeout as real && s.rounds(delays).delayAborted))
    ensures r.CaptureFailed? ==>
      (&& s.rounds(delays).capture.None?
       && (forall i :: 0 <= i < delays ==> s.rounds(i).capture.Some?)
       && (forall i :: 0 <= i < delays ==> GoesOn(s, i)))
  {
    delays := 0;
    if s.rounds(0).capture.None? { return CaptureFailed, 0; }
    var lastKey, stableSince := ActionKey(Page(s, 0)), s.startedAt;
    while true
      invariant Captured(s, delays)
      invariant lastKey == ActionKey(Page(s, delays)) && stableSince == StableSince(s, delays)
      invariant forall i :: 0 <= i < delays ==> GoesOn(s, i)
      invariant delays <= MaxDelays(s)
      decreases MaxDelays(s) - delays
    {
      var decision := CheckRound(s, delays, stableSince);
      if decision.Some? { return decision.value, delays; }
      DelaysEnd(s);
      delays := delays + 1;
      if s.rounds(delays).capture.None? { return CaptureFailed, delays; }
      var key := ActionKey(Page(s, delays));
      if key != lastKey {
        lastKey, stableSince := key, s.rounds(delays - 1).changeRead;
      }
    }
  }

  /** What a stable page means: since some capture all captures showed the same document and revision, that capture
      was the first one or differed from the one before it, and the window has passed since it was seen. */
  lemma StableMeansQuiet(s: Settings, n: nat)
    requires Captured(s, n) && s.condition == DomStable && MetAt(s, n)
    ensures Elapsed(s, n) >= s.minimum
    ensures exists j :: 0 <= j <= n && QuietSince(s, j, n) && s.rounds(n).windowRead - SeenAt(s, j) >= s.window
  {
    var j := SinceRound(s, n);
    assert QuietSince(s, j, n);
  }

  /** When capture `j` was seen; the first one counts from the start. */
  function SeenAt(s: Settings, j: nat): real { if j == 0 then s.startedAt else s.rounds(j - 1).changeRead }

  ghost predicate QuietSince(s: Settings, j: nat, n: nat)
    requires j <= n && Captured(s, n)
  {
    && (forall i :: j <= i <= n ==>
          Page(s, i).identity.documentEpoch == Page(s, n).identity.documentEpoch
          && Page(s, i).identity.actionRevision == Page(s, n).identity.actionRevision)
    && (j > 0 ==>
          Page(s, j - 1).identity.documentEpoch != Page(s, j).identity.documentEpoch
          || Page(s, j - 1).identity.actionRevision != Page(s, j).identity.actionRevision)
  }

  /** Rounds `m` and `n` show the same document and revision. */
  predicate SamePage(s: Settings, m: nat, n: nat)
    requires s.rounds(m).capture.Some? && s.rounds(n).capture.Some?
  {
    && Page(s, m).identity.documentEpoch == Page(s, n).identity.documentEpoch
    && Page(s, m).identity.actionRevision == Page(s, n).identity.actionRevision
  }

  lemma QuietOneMore(s: Settings, j: nat, n: nat)
    requires j < n && Captured(s, n) && QuietSince(s, j, n - 1) && SamePage(s, n - 1, n)
    ensures QuietSince(s, j, n)
  {}

  lemma QuietStarts(s: Settings, n: nat)
    requires Captured(s, n) && (n > 0 ==> !SamePage(s, n - 1, n))
    ensures QuietSince(s, n, n)
  {}

  lemma KeyChangesIff(s: Settings, n: nat)
    requires n > 0 && Captured(s, n)
    ensures ActionKey(Page(s, n)) == ActionKey(Page(s, n - 1)) <==> SamePage(s, n - 1, n)
  {
    ActionKeysDiffer(Page(s, n), Page(s, n - 1));
  }

  lemma {:induction false} SinceRound(s: Settings, n: nat) returns (j: nat)
    requires Captured(s, n)
    ensures j <= n && QuietSince(s, j, n)
    ensures StableSince(s, n) == SeenAt(s, j)
  {
    j := n;
    if n > 0 { KeyChangesIff(s, n); }
    if n == 0 || !SamePage(s, n - 1, n) {
      QuietStarts(s, n);
    } else {
      j := SinceRound(s, n - 1);
      QuietOneMore(s, j, n);
    }
  }

  /** `part` stands in `s` at `i`. */
  predicate OccursAt(s: string, part: string, i: nat) { i + |part| <= |s| && s[i..i + |part|] == part }

  lemma {:induction false} IncludesIff(s: string, part: string)
    ensures Includes(s, part) <==> exists i: nat :: OccursAt(s, part, i)
  {
    if part <= s {
      assert OccursAt(s, part, 0);
    } else if s != "" {
      IncludesIff(s[1..], part);
      forall i: nat ensures OccursAt(s[1..], part, i) <==> OccursAt(s, part, i + 1) {
        if i + 1 + |part| <= |s| { assert s[1..][i..i + |part|] == s[i + 1..i + 1 + |part|]; }
      }
      assert !OccursAt(s, part, 0);
      if exists i: nat :: OccursAt(s, part, i) {
        var i: nat :| OccursAt(s, part, i);
        assert OccursAt(s[1..], part, i - 1);
      }
    }
  }

  /** What each condition asks of a page. */
  lemma ConditionIff(s: Snapshot, part: string, role: Option<string>, name: Option<string>)
    ensures ConditionMet(s, UrlContains(part)) <==>
      match s.url
      case HttpUrl(origin, rest) => exists i: nat :: OccursAt(origin + rest, part, i)
      case OtherUrl(text) => exists i: nat :: OccursAt(text, part, i)
    ensures ConditionMet(s, TextContains(part)) <==>
      part == "" || (s.text.Some? && exists i: nat :: OccursAt(s.text.value, part, i))
    ensures ConditionMet(s, DialogOpen) <==> s.pendingDialogs.Some? && |s.pendingDialogs.value| > 0
    ensures ConditionMet(s, ElementPresent(role, name)) <==>
      s.elements.Some? && exists k :: 0 <= k < |s.elements.value| && Presents(s.elements.value[k], role, name)
    ensures !ConditionMet(s, DomStable)
  {
    IncludesIff(UrlText(s.url), part);
    IncludesIff(if s.text.Some? then s.text.value else "", part);
    assert OccursAt("", part, 0) <==> part == "";
    if s.text.Some? && part == "" { assert OccursAt(s.text.value, part, 0); }
    if s.elements.Some? {
      forall e | e in s.elements.value ensures ElementMatches(e, role, name) <==> Presents(e, role, name) {
        if name.Some? && e.name.Some? { IncludesIff(e.name.value, name.value); }
      }
    }
  }

  ghost predicate Presents(e: Element, role: Option<string>, name: Option<string>) {
    && (role.Some? ==> e.role == role)
    && (name.Some? ==> e.name.Some? && exists i: nat :: OccursAt(e.name.value, name.value, i))
  }

  /** A quiet stretch up to a round has one start. */
  lemma QuietStartIsUnique(s: Settings, i: nat, j: nat, n: nat)
    requires i <= n && j <= n && Captured(s, n) && QuietSince(s, i, n) && QuietSince(s, j, n)
    ensures i == j
  {}

  /** A page is stable exactly when it was observed long enough and the window has passed since the capture that began
      the quiet stretch. */
  lemma StableIff(s: Settings, n: nat)
    requires Captured(s, n) && s.condition == DomStable
    ensures MetAt(s, n) <==>
      && Elapsed(s, n) >= s.minimum
      && exists j :: 0 <= j <= n && QuietSince(s, j, n) && s.rounds(n).windowRead - SeenAt(s, j) >= s.window
  {
    var k := SinceRound(s, n);
    assert QuietSince(s, k, n);
    forall j | 0 <= j <= n && QuietSince(s, j, n) ensures j == k { QuietStartIsUnique(s, j, k, n); }
  }
}
