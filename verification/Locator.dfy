/** Resolving an element or region ref against the current page. */
module Locator {
  import opened Wrappers
  import opened BrowserTypes
  import opened Text
  import opened SnapshotState

  datatype Failure =
    | InvalidTarget | StaleRef | WrongSession | WrongTab | NotFound | TargetHidden | TargetDisabled | NotInteractable

  datatype TargetInput = TargetInput(
    sessionId: Option<string>, identity: Option<Identity>, tabRef: Option<string>, ref: Option<string>, regionRef: Option<string>)

  datatype Target = ElementTarget(element: Element) | RegionTarget(region: Region)

  const MAX_SAFE_INTEGER := 0x1F_FFFF_FFFF_FFFF

  predicate IsStateIdentity(id: Identity) {
    0 < id.documentEpoch <= MAX_SAFE_INTEGER && 0 < id.actionRevision <= MAX_SAFE_INTEGER && 0 < id.observationId <= MAX_SAFE_INTEGER
  }

  function FirstElement(es: seq<Element>, ref: string): (r: Option<Element>)
    ensures r.Some? ==> r.value in es && r.value.ref == ref
    ensures r.None? ==> forall e :: e in es ==> e.ref != ref
  {
    if es == [] then None
    else
      assert es == [es[0]] + es[1..];
      if es[0].ref == ref then Some(es[0]) else FirstElement(es[1..], ref)
  }

  function FirstRegion(rs: seq<Region>, ref: string): (r: Option<Region>)
    ensures r.Some? ==> r.value in rs && r.value.ref == ref
    ensures r.None? ==> forall x :: x in rs ==> x.ref != ref
  {
    if rs == [] then None
    else
      assert rs == [rs[0]] + rs[1..];
      if rs[0].ref == ref then Some(rs[0]) else FirstRegion(rs[1..], ref)
  }

  function Elements(s: Snapshot): seq<Element> { if s.elements.Some? then s.elements.value else [] }

  function Regions(s: Snapshot): seq<Region> { if s.regions.Some? then s.regions.value else [] }

  /** Session, tab and identity must be the ones that produced the ref. */
  function ContextFailure(s: Snapshot, input: TargetInput): Option<Failure> {
    if s.tab.None? || IsBlank(s.tab.value.ref) then Some(InvalidTarget)
    else if input.sessionId.None? || IsBlank(input.sessionId.value) || input.identity.None? || !IsStateIdentity(input.identity.value)
            || input.tabRef.None? || IsBlank(input.tabRef.value) then Some(InvalidTarget)
    else if input.sessionId.value != s.sessionId then Some(WrongSession)
    else if input.tabRef.value != s.tab.value.ref then Some(WrongTab)
    else if !SameRefValidity(input.identity.value, s.identity) then Some(StaleRef)
    else None
  }

  /** Target resolution for inputs without a semantic locator. */
  function Resolve(s: Snapshot, input: TargetInput): Result<Target, Failure> {
    if s.tab.None? || IsBlank(s.tab.value.ref) || input.ref.Some? == input.regionRef.Some? then Err(InvalidTarget)
    else
      var failure := ContextFailure(s, input);
      if failure.Some? then Err(failure.value)
      else if input.regionRef.Some? then
        match FirstRegion(Regions(s), input.regionRef.value)
        case None => Err(NotFound)
        case Some(region) => if region.hitTestable then Ok(RegionTarget(region)) else Err(NotInteractable)
      else
        match FirstElement(Elements(s), input.ref.value)
        case None => if FirstRegion(Regions(s), input.ref.value).Some? then Err(InvalidTarget) else Err(NotFound)
        case Some(e) =>
          if e.hidden == Some(true) then Err(TargetHidden)
          else if e.disabled == Some(true) then Err(TargetDisabled)
          else if e.interactable == Some(false) then Err(NotInteractable)
          else Ok(ElementTarget(e))
  }

  ghost predicate UniqueRefs(es: seq<Element>) {
    forall i, j :: 0 <= i < j < |es| ==> es[i].ref != es[j].ref
  }

  /** The page that observation `j` hands out, with its identity attached. */
  function Issued(obs: seq<Observed>, j: nat): Snapshot
    requires j < |obs|
  {
    obs[j].snapshot.(identity := IdentityAt(obs, j))
  }

  /** Equal action maps carry the same actionable elements under the same refs. */
  lemma SameMapSameElement(a: Snapshot, b: Snapshot, e: Element, found: Element)
    requires Project(a) == Project(b) && UniqueRefs(Elements(b))
    requires e in Elements(a) && IsActionable(e) && found in Elements(b) && found.ref == e.ref
    ensures StripElement(found) == StripElement(e)
  {
    assert StripElement(e) in ElementMap(Elements(a));
    var twin :| twin in Elements(b) && IsActionable(twin) && StripElement(twin) == StripElement(e);
    assert twin.ref == found.ref;
    var x :| 0 <= x < |Elements(b)| && Elements(b)[x] == twin;
    var y :| 0 <= y < |Elements(b)| && Elements(b)[y] == found;
    assert x == y;
  }

  /** Ref soundness: if the ref of an actionable element issued at observation `i` is accepted at a later
      observation `j`, then nothing that counts changed in between, and the ref denotes an element with the same
      attributes apart from value and checked, in the same tab, and in the same document where both show one. */
  lemma AcceptedRefIsSound(obs: seq<Observed>, i: nat, j: nat, e: Element, input: TargetInput)
    requires i <= j < |obs|
    requires e in Elements(obs[i].snapshot) && IsActionable(e)
    requires input.ref == Some(e.ref) && input.identity == Some(IdentityAt(obs, i))
    requires UniqueRefs(Elements(obs[j].snapshot))
    requires Resolve(Issued(obs, j), input).Ok?
    ensures forall k :: i < k <= j ==> QuietAt(obs, k)
    ensures Project(obs[i].snapshot) == Project(obs[j].snapshot)
    ensures input.sessionId == Some(obs[j].snapshot.sessionId) && input.tabRef == TabOf(obs[j])
    ensures Resolve(Issued(obs, j), input).value.ElementTarget?
    ensures StripElement(Resolve(Issued(obs, j), input).value.element) == StripElement(e)
    ensures TabOf(obs[i]).Some? ==> TabOf(obs[i]) == TabOf(obs[j])
    ensures DocumentOf(obs[i]).Some? && DocumentOf(obs[j]).Some? ==> DocumentOf(obs[i]) == DocumentOf(obs[j])
  {
    CounterCheckExact(obs, i, j);
    QuietStretch(obs, i, j);
    SameMapSameElement(obs[i].snapshot, obs[j].snapshot, e, Resolve(Issued(obs, j), input).value.element);
  }

  /** Over a quiet stretch the ref of an actionable element goes on finding an actionable element. */
  lemma QuietTwin(obs: seq<Observed>, i: nat, j: nat, e: Element)
    requires i <= j < |obs| && Project(obs[i].snapshot) == Project(obs[j].snapshot)
    requires e in Elements(obs[i].snapshot) && IsActionable(e) && UniqueRefs(Elements(obs[j].snapshot))
    ensures var found := FirstElement(Elements(obs[j].snapshot), e.ref);
      found.Some? && StripElement(found.value) == StripElement(e)
  {
    assert StripElement(e) in ElementMap(Elements(obs[i].snapshot));
    var twin :| twin in Elements(obs[j].snapshot) && IsActionable(twin) && StripElement(twin) == StripElement(e);
    assert twin.ref == e.ref;
    SameMapSameElement(obs[i].snapshot, obs[j].snapshot, e, FirstElement(Elements(obs[j].snapshot), e.ref).value);
  }

  lemma IssuedIdentityIsValid(obs: seq<Observed>, i: nat)
    requires i < |obs| <= MAX_SAFE_INTEGER
    ensures IsStateIdentity(IdentityAt(obs, i))
  {
    CountersOrdered(obs[..i + 1]);
  }

  /** Conversely, the ref of an actionable element stays accepted over every quiet stretch: its holder only has to
      name the session and tab it came from. */
  lemma QuietRefIsAccepted(obs: seq<Observed>, i: nat, j: nat, e: Element)
    requires i <= j < |obs| && forall k :: i < k <= j ==> QuietAt(obs, k)
    requires |obs| <= MAX_SAFE_INTEGER
    requires e in Elements(obs[i].snapshot) && IsActionable(e) && UniqueRefs(Elements(obs[j].snapshot))
    requires obs[j].snapshot.tab.Some? && !IsBlank(obs[j].snapshot.tab.value.ref) && !IsBlank(obs[j].snapshot.sessionId)
    ensures var input := TargetInput(Some(obs[j].snapshot.sessionId), Some(IdentityAt(obs, i)), TabOf(obs[j]), Some(e.ref), None);
            Resolve(Issued(obs, j), input).Ok?
  {
    CounterCheckExact(obs, i, j);
    QuietStretch(obs, i, j);
    IssuedIdentityIsValid(obs, i);
    QuietTwin(obs, i, j, e);
  }

  /** The position of the first region with this ref among the hit-testable ones, if it is hit-testable. */
  function HitIndex(rs: seq<Region>, ref: string): (p: Option<nat>)
    ensures p.Some? ==> p.value < |RegionMap(rs)| && FirstRegion(rs, ref).Some?
                        && RegionMap(rs)[p.value] == StripRegion(FirstRegion(rs, ref).value)
    ensures p.None? <==> FirstRegion(rs, ref).None? || !FirstRegion(rs, ref).value.hitTestable
  {
    if rs == [] then None
    else if rs[0].ref == ref then if rs[0].hitTestable then Some(0) else None
    else
      match HitIndex(rs[1..], ref)
      case None => None
      case Some(p) => Some(if rs[0].hitTestable then p + 1 else p)
  }

  /** An accepted region ref denotes the region it was issued for, up to the ref, exactly when the hit-testable regions
      of the page it was issued on look the same at the ref's old and new position; so whenever the position stays. */
  lemma AcceptedRegionRefIff(obs: seq<Observed>, i: nat, j: nat, r: Region, input: TargetInput)
    requires i <= j < |obs|
    requires input.regionRef == Some(r.ref) && input.identity == Some(IdentityAt(obs, i))
    requires FirstRegion(Regions(obs[i].snapshot), r.ref) == Some(r) && r.hitTestable
    requires Resolve(Issued(obs, j), input).Ok?
    ensures input.sessionId == Some(obs[j].snapshot.sessionId) && input.tabRef == TabOf(obs[j])
    ensures Resolve(Issued(obs, j), input).value.RegionTarget?
    ensures RegionMap(Regions(obs[i].snapshot)) == RegionMap(Regions(obs[j].snapshot))
    ensures var now := Resolve(Issued(obs, j), input).value.region;
      var shown := RegionMap(Regions(obs[i].snapshot));
      var p, q := HitIndex(Regions(obs[i].snapshot), r.ref), HitIndex(Regions(obs[j].snapshot), r.ref);
      && p.Some? && q.Some? && p.value < |shown| && q.value < |shown|
      && (StripRegion(now) == StripRegion(r) <==> shown[p.value] == shown[q.value])
  {
    CounterCheckExact(obs, i, j);
    QuietStretch(obs, i, j);
  }

  /** Positions do move: the action map drops region refs, so after two regions swap refs the old ref is still accepted
      and denotes the other region. */
  lemma RegionRefsMayMove(r1: Region, r2: Region, s: Snapshot)
    requires r1.ref != r2.ref && r1.hitTestable && r2.hitTestable && r1.text != r2.text
    requires s.tab.Some? && !IsBlank(s.tab.value.ref) && !IsBlank(s.sessionId)
    ensures var before := Observed(s.(regions := Some([r1, r2])), None);
      var after := Observed(s.(regions := Some([r1.(ref := r2.ref), r2.(ref := r1.ref)])), None);
      var obs := [before, after];
      var input := TargetInput(Some(s.sessionId), Some(IdentityAt(obs, 0)), Some(s.tab.value.ref), None, Some(r1.ref));
      Resolve(Issued(obs, 1), input) == Ok(RegionTarget(r2.(ref := r1.ref)))
  {
    var before := Observed(s.(regions := Some([r1, r2])), None);
    var swapped := [r1.(ref := r2.ref), r2.(ref := r1.ref)];
    var obs := [before, Observed(s.(regions := Some(swapped)), None)];
    assert [r1, r2][1..] == [r2] && swapped[1..] == [swapped[1]] && [r2][1..] == [] && [swapped[1]][1..] == [];
    assert RegionMap([r2]) == RegionMap([swapped[1]]);
    assert RegionMap([r1, r2]) == RegionMap(swapped);
    assert obs[..1] == [before] && LastTab(obs[..1]) == Some(s.tab.value.ref);
    assert QuietAt(obs, 1);
    CounterCheckExact(obs, 0, 1);
    CountersOrdered(obs[..1]);
    assert FirstRegion(swapped, r1.ref) == Some(swapped[1]) by { assert FirstRegion([swapped[1]], r1.ref) == Some(swapped[1]); }
  }
}
