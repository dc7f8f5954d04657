/** When a ref is accepted and what it denotes, and which failure every other input meets, said over the input and the
    page alone. */
module LocatorAcceptance {
  import opened Wrappers
  import opened BrowserTypes
  import opened Text
  import opened Locator

  predicate IsCounter(n: int) { 1 <= n <= 0x1F_FFFF_FFFF_FFFF }

  predicate AreCounters(id: Identity) {
    IsCounter(id.documentEpoch) && IsCounter(id.actionRevision) && IsCounter(id.observationId)
  }

  /** The page shows a tab, exactly one ref is given, and session, tab and identity come with it. */
  predicate Complete(s: Snapshot, input: TargetInput) {
    && s.tab.Some? && !IsBlank(s.tab.value.ref)
    && (input.ref.Some? <==> input.regionRef.None?)
    && input.sessionId.Some? && !IsBlank(input.sessionId.value)
    && input.tabRef.Some? && !IsBlank(input.tabRef.value)
    && input.identity.Some? && AreCounters(input.identity.value)
  }

  /** Besides, session, tab and both counters that refs depend on are those of the page. */
  predicate InContext(s: Snapshot, input: TargetInput) {
    && Complete(s, input)
    && input.sessionId.value == s.sessionId && input.tabRef.value == s.tab.value.ref
    && input.identity.value.documentEpoch == s.identity.documentEpoch
    && input.identity.value.actionRevision == s.identity.actionRevision
  }

  /** The first element with the ref stands at `i`. */
  predicate ElementAt(s: Snapshot, ref: string, i: nat) {
    && s.elements.Some? && i < |s.elements.value| && s.elements.value[i].ref == ref
    && forall k :: 0 <= k < i ==> s.elements.value[k].ref != ref
  }

  predicate RegionAt(s: Snapshot, ref: string, i: nat) {
    && s.regions.Some? && i < |s.regions.value| && s.regions.value[i].ref == ref
    && forall k :: 0 <= k < i ==> s.regions.value[k].ref != ref
  }

  predicate NoElement(s: Snapshot, ref: string) {
    s.elements.Some? ==> forall k :: 0 <= k < |s.elements.value| ==> s.elements.value[k].ref != ref
  }

  predicate NoRegion(s: Snapshot, ref: string) {
    s.regions.Some? ==> forall k :: 0 <= k < |s.regions.value| ==> s.regions.value[k].ref != ref
  }

  lemma {:induction false} FirstElementAt(es: seq<Element>, ref: string) returns (i: nat)
    ensures FirstElement(es, ref).Some? ==>
      i < |es| && es[i] == FirstElement(es, ref).value && es[i].ref == ref && forall k :: 0 <= k < i ==> es[k].ref != ref
    ensures FirstElement(es, ref).None? ==> forall k :: 0 <= k < |es| ==> es[k].ref != ref
  {
    i := 0;
    if es != [] && es[0].ref != ref {
      var rest := FirstElementAt(es[1..], ref);
      i := rest + 1;
      assert forall k :: 0 < k < |es| ==> es[k] == es[1..][k - 1];
    }
  }

  lemma {:induction false} FirstRegionAt(rs: seq<Region>, ref: string) returns (i: nat)
    ensures FirstRegion(rs, ref).Some? ==>
      i < |rs| && rs[i] == FirstRegion(rs, ref).value && rs[i].ref == ref && forall k :: 0 <= k < i ==> rs[k].ref != ref
    ensures FirstRegion(rs, ref).None? ==> forall k :: 0 <= k < |rs| ==> rs[k].ref != ref
  {
    i := 0;
    if rs != [] && rs[0].ref != ref {
      var rest := FirstRegionAt(rs[1..], ref);
      i := rest + 1;
      assert forall k :: 0 < k < |rs| ==> rs[k] == rs[1..][k - 1];
    }
  }

  lemma ElementFound(s: Snapshot, ref: string) returns (i: nat)
    ensures FirstElement(Elements(s), ref).Some? ==> ElementAt(s, ref, i) && s.elements.value[i] == FirstElement(Elements(s), ref).value
    ensures FirstElement(Elements(s), ref).None? <==> NoElement(s, ref)
    ensures forall k: nat :: ElementAt(s, ref, k) ==> k == i && FirstElement(Elements(s), ref).Some?
  {
    i := FirstElementAt(Elements(s), ref);
  }

  lemma RegionFound(s: Snapshot, ref: string) returns (i: nat)
    ensures FirstRegion(Regions(s), ref).Some? ==> RegionAt(s, ref, i) && s.regions.value[i] == FirstRegion(Regions(s), ref).value
    ensures FirstRegion(Regions(s), ref).None? <==> NoRegion(s, ref)
    ensures forall k: nat :: RegionAt(s, ref, k) ==> k == i && FirstRegion(Regions(s), ref).Some?
  {
    i := FirstRegionAt(Regions(s), ref);
  }

  predicate Usable(e: Element) { e.hidden != Some(true) && e.disabled != Some(true) && e.interactable != Some(false) }

  lemma ContextIff(s: Snapshot, input: TargetInput)
    requires s.tab.Some? && !IsBlank(s.tab.value.ref) && (input.ref.Some? <==> input.regionRef.None?)
    ensures ContextFailure(s, input).None? <==> InContext(s, input)
    ensures ContextFailure(s, input) == Some(InvalidTarget) <==> !Complete(s, input)
    ensures ContextFailure(s, input) == Some(WrongSession) <==> Complete(s, input) && input.sessionId.value != s.sessionId
    ensures ContextFailure(s, input) == Some(WrongTab) <==>
      Complete(s, input) && input.sessionId.value == s.sessionId && input.tabRef.value != s.tab.value.ref
    ensures ContextFailure(s, input) == Some(StaleRef) <==>
      && Complete(s, input) && input.sessionId.value == s.sessionId && input.tabRef.value == s.tab.value.ref
      && !InContext(s, input)
  {}

  /** A ref is accepted exactly in its context, and then denotes the first element with the ref, which must be usable,
      or the first region with it, which must be hit-testable. */
  lemma AcceptedIff(s: Snapshot, input: TargetInput, target: Target)
    ensures Resolve(s, input) == Ok(target) <==>
      && InContext(s, input)
      && (input.ref.Some? ==> exists i: nat :: ElementAt(s, input.ref.value, i) && Usable(s.elements.value[i])
                                              && target == ElementTarget(s.elements.value[i]))
      && (input.regionRef.Some? ==> exists i: nat :: RegionAt(s, input.regionRef.value, i) && s.regions.value[i].hitTestable
                                                     && target == RegionTarget(s.regions.value[i]))
  {
    if s.tab.Some? && !IsBlank(s.tab.value.ref) && (input.ref.Some? <==> input.regionRef.None?) {
      ContextIff(s, input);
      if input.ref.Some? {
        var i := ElementFound(s, input.ref.value);
      } else {
        var i := RegionFound(s, input.regionRef.value);
      }
    }
  }

  /** What every refused input is told. */
  lemma RefusedIff(s: Snapshot, input: TargetInput)
    ensures Resolve(s, input) == Err(WrongSession) <==> Complete(s, input) && input.sessionId.value != s.sessionId
    ensures Resolve(s, input) == Err(WrongTab) <==>
      Complete(s, input) && input.sessionId.value == s.sessionId && input.tabRef.value != s.tab.value.ref
    ensures Resolve(s, input) == Err(StaleRef) <==>
      && Complete(s, input) && input.sessionId.value == s.sessionId && input.tabRef.value == s.tab.value.ref
      && !InContext(s, input)
    ensures Resolve(s, input) == Err(InvalidTarget) <==>
      || !Complete(s, input)
      || (InContext(s, input) && input.ref.Some? && NoElement(s, input.ref.value) && !NoRegion(s, input.ref.value))
    ensures Resolve(s, input) == Err(NotFound) <==>
      && InContext(s, input)
      && (input.ref.Some? ==> NoElement(s, input.ref.value) && NoRegion(s, input.ref.value))
      && (input.regionRef.Some? ==> NoRegion(s, input.regionRef.value))
  {
    if s.tab.Some? && !IsBlank(s.tab.value.ref) && (input.ref.Some? <==> input.regionRef.None?) {
      ContextIff(s, input);
      if input.ref.Some? {
        var i := ElementFound(s, input.ref.value);
        var j := RegionFound(s, input.ref.value);
      } else {
        var i := RegionFound(s, input.regionRef.value);
      }
    }
  }

  /** An element that is found but not usable is refused by its first obstacle: hidden, disabled, not interactable. */
  lemma ObstacleIff(s: Snapshot, input: TargetInput, i: nat)
    requires InContext(s, input) && input.ref.Some? && ElementAt(s, input.ref.value, i)
    ensures var e := s.elements.value[i];
      && (Resolve(s, input) == Err(TargetHidden) <==> e.hidden == Some(true))
      && (Resolve(s, input) == Err(TargetDisabled) <==> e.hidden != Some(true) && e.disabled == Some(true))
      && (Resolve(s, input) == Err(NotInteractable) <==>
            e.hidden != Some(true) && e.disabled != Some(true) && e.interactable == Some(false))
  {
    ContextIff(s, input);
    var j := ElementFound(s, input.ref.value);
  }

  lemma BlockedRegionIff(s: Snapshot, input: TargetInput, i: nat)
    requires InContext(s, input) && input.regionRef.Some? && RegionAt(s, input.regionRef.value, i)
    ensures Resolve(s, input) == Err(NotInteractable) <==> !s.regions.value[i].hitTestable
  {
    ContextIff(s, input);
    var j := RegionFound(s, input.regionRef.value);
  }
}
