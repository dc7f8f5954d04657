/** The view of a page that leaves the backend while protected input may be on it. */
module ProtectedSnapshot {
  import opened Wrappers
  import opened BrowserTypes
  import opened ProtectedForm
  import opened ProtectedFormTheorems

  /** Only the origin of a web address; any other address passes through metadata redaction. */
  function SensitiveUrl(url: Url, redact: string -> string): string {
    match url
    case HttpUrl(origin, _) => origin
    case OtherUrl(text) => redact(text)
  }

  datatype SafeTab = SafeTab(ref: string, url: string, controlled: bool)

  datatype SafeElement = SafeElement(
    ref: string, role: Option<string>, hidden: Option<bool>, disabled: Option<bool>, checked: Option<Checked>)

  datatype SafeDelta = SafeDelta(
    beforeIdentity: Option<Identity>, afterIdentity: Identity, waitCondition: string, conditionMet: bool,
    urlChanged: bool, urlBefore: Option<string>, urlAfter: string, outcome: string, unverified: Option<(bool, string)>)

  datatype Observation =
    | Full(snapshot: Snapshot)
    | Suppressed(
        sessionId: string, url: string, identity: Identity, observedAt: string, readiness: Option<string>,
        actionDelta: Option<SafeDelta>, tab: Option<SafeTab>, elements: Option<seq<SafeElement>>)

  function ProtectedActionDelta(d: ActionDelta, redact: string -> string): SafeDelta {
    SafeDelta(d.beforeIdentity, d.afterIdentity, d.waitCondition, d.conditionMet, d.urlChanged,
              if d.urlBefore.Some? then Some(SensitiveUrl(d.urlBefore.value, redact)) else None,
              SensitiveUrl(d.urlAfter, redact), d.outcome,
              if d.outcome == "dispatched-unverified" then d.unverified else None)
  }

  function ProtectElement(e: Element): SafeElement {
    SafeElement(e.ref, e.role, e.hidden, e.disabled, e.checked)
  }

  function ProtectElements(es: seq<Element>): (r: seq<SafeElement>)
    ensures |r| == |es| && forall i :: 0 <= i < |es| ==> r[i] == ProtectElement(es[i])
  {
    seq(|es|, i requires 0 <= i < |es| => ProtectElement(es[i]))
  }

  function ProtectSnapshot(st: State, s: SessionId, snap: Snapshot, redact: string -> string): Observation {
    if !IsSensitive(st, s) then Full(snap)
    else Suppressed(
      snap.sessionId, SensitiveUrl(snap.url, redact), snap.identity, snap.observedAt, snap.readiness,
      if snap.actionDelta.Some? then Some(ProtectedActionDelta(snap.actionDelta.value, redact)) else None,
      if snap.tab.Some?
      then Some(SafeTab(snap.tab.value.ref, SensitiveUrl(snap.tab.value.url, redact), snap.tab.value.controlled)) else None,
      if snap.elements.Some? then Some(ProtectElements(snap.elements.value)) else None)
  }

  // ---------------------------------------------------------------- what two pages may differ in unnoticed

  /** Two web addresses of one origin, or two other addresses that redaction does not tell apart. */
  predicate SameSite(a: Url, b: Url, redact: string -> string) {
    SensitiveUrl(a, redact) == SensitiveUrl(b, redact)
  }

  predicate SameShape(a: Element, b: Element) {
    a.ref == b.ref && a.role == b.role && a.hidden == b.hidden && a.disabled == b.disabled && a.checked == b.checked
  }

  predicate SameDelta(a: ActionDelta, b: ActionDelta, redact: string -> string) {
    && a.(urlBefore := b.urlBefore, urlAfter := b.urlAfter, unverified := b.unverified, detail := b.detail) == b
    && (a.outcome == "dispatched-unverified" ==> a.unverified == b.unverified)
    && SameSite(a.urlAfter, b.urlAfter, redact)
    && a.urlBefore.Some? == b.urlBefore.Some?
    && (a.urlBefore.Some? ==> SameSite(a.urlBefore.value, b.urlBefore.value, redact))
  }

  /** The pages agree on session, identity, time, readiness, sites, tab and element refs, roles and flags. They may
      differ in title, text, names, values, labels, regions, dialogs, frames, console, opened tabs and URL paths. */
  predicate DiffersOnlyInContent(a: Snapshot, b: Snapshot, redact: string -> string) {
    && a.sessionId == b.sessionId && a.identity == b.identity && a.observedAt == b.observedAt && a.readiness == b.readiness
    && SameSite(a.url, b.url, redact)
    && a.actionDelta.Some? == b.actionDelta.Some?
    && (a.actionDelta.Some? ==> SameDelta(a.actionDelta.value, b.actionDelta.value, redact))
    && a.tab.Some? == b.tab.Some?
    && (a.tab.Some? ==> a.tab.value.ref == b.tab.value.ref && a.tab.value.controlled == b.tab.value.controlled
                        && SameSite(a.tab.value.url, b.tab.value.url, redact))
    && a.elements.Some? == b.elements.Some?
    && (a.elements.Some? ==>
          && |a.elements.value| == |b.elements.value|
          && forall i :: 0 <= i < |a.elements.value| ==> SameShape(a.elements.value[i], b.elements.value[i]))
  }

  /** While the session is sensitive two pages look the same from outside exactly when they differ only in content. */
  lemma SensitiveViewHidesContent(st: State, s: SessionId, a: Snapshot, b: Snapshot, redact: string -> string)
    requires IsSensitive(st, s)
    ensures ProtectSnapshot(st, s, a, redact) == ProtectSnapshot(st, s, b, redact) <==> DiffersOnlyInContent(a, b, redact)
  {
    if a.elements.Some? && b.elements.Some? {
      var xs, ys := a.elements.value, b.elements.value;
      if ProtectElements(xs) == ProtectElements(ys) {
        forall i | 0 <= i < |xs| ensures SameShape(xs[i], ys[i]) {
          assert ProtectElements(xs)[i] == ProtectElements(ys)[i];
        }
      }
    }
  }

  /** From a delivery that attempts a write until something discharges its transaction, an observer of the session
      cannot tell two pages apart that differ only in content. */
  lemma ContentHiddenUntilDischarged(before: seq<Op>, delivery: Op, after: seq<Op>, a: Snapshot, b: Snapshot,
                                     redact: string -> string)
    requires delivery.DoDeliver? && Step(Run(Initial, before), delivery) != Run(Initial, before)
    requires FindTransaction(Run(Initial, before), delivery.d).Some? ==>
               var t := FindTransaction(Run(Initial, before), delivery.d).value;
               var written := Step(Run(Initial, before), delivery);
               forall i :: 0 <= i < |after| ==> t in Run(written, after[..i]).heap ==>
                 !Discharges(Run(written, after[..i]), after[i], t)
    requires DiffersOnlyInContent(a, b, redact)
    ensures var st := Run(Step(Run(Initial, before), delivery), after);
            ProtectSnapshot(st, delivery.d.sessionId, a, redact) == ProtectSnapshot(st, delivery.d.sessionId, b, redact)
  {
    SensitiveUntilDischarged(before, delivery, after);
    SensitiveViewHidesContent(Run(Step(Run(Initial, before), delivery), after), delivery.d.sessionId, a, b, redact);
  }
}
