/**
 Reference validity: three counters stand in for "has the page changed". The projection that the source
 serialises and hashes is kept as a value here, so equal fingerprints mean equal projections.
 */
module SnapshotState {
  import opened Wrappers
  import opened BrowserTypes
  import opened Decimal
  import opened IsoDates

  const ACTIONABLE_ROLES: set<string> := {
    "button", "checkbox", "combobox", "link", "scripted-control", "listbox", "menuitem", "menuitemcheckbox",
    "menuitemradio", "option", "radio", "searchbox", "slider", "spinbutton", "switch", "tab", "textbox", "treeitem"}

  predicate IsActionableRole(role: Option<string>) {
    role.Some? && role.value in ACTIONABLE_ROLES
  }

  predicate IsActionable(e: Element) { IsActionableRole(e.role) && IsInteractable(e) }

  /** An element without its value and checked state. */
  function StripElement(e: Element): Element { e.(value := None, checked := None) }

  function StripRegion(r: Region): Region { r.(ref := "") }

  function StripDialog(d: Dialog): Dialog { d.(id := "") }

  function ElementMap(es: seq<Element>): (r: seq<Element>)
    ensures forall k :: k in r <==> exists e :: e in es && IsActionable(e) && StripElement(e) == k
  {
    if es == [] then []
    else
      assert es == [es[0]] + es[1..];
      (if IsActionable(es[0]) then [StripElement(es[0])] else []) + ElementMap(es[1..])
  }

  function RegionMap(rs: seq<Region>): seq<Region> {
    if rs == [] then [] else (if rs[0].hitTestable then [StripRegion(rs[0])] else []) + RegionMap(rs[1..])
  }

  function DialogMap(ds: seq<Dialog>): seq<Dialog> {
    if ds == [] then [] else [StripDialog(ds[0])] + DialogMap(ds[1..])
  }

  datatype ActionMap = ActionMap(
    elements: Option<seq<Element>>, regions: Option<seq<Region>>, pendingDialogs: Option<seq<Dialog>>)

  function Project(s: Snapshot): ActionMap {
    ActionMap(
      if s.elements.Some? then Some(ElementMap(s.elements.value)) else None,
      if s.regions.Some? then Some(RegionMap(s.regions.value)) else None,
      if s.pendingDialogs.Some? then Some(DialogMap(s.pendingDialogs.value)) else None)
  }

  datatype DocumentSignal = DocumentSignal(frameId: Option<string>, loaderId: Option<string>, executionContextId: Option<int>)

  /** Documents are told apart by this text. */
  function DocumentKeyOf(signal: Option<DocumentSignal>): Option<string> {
    if signal.None? || signal.value.frameId.None? then None
    else if signal.value.loaderId.Some? then Some("frame:" + signal.value.frameId.value + (":loader:" + signal.value.loaderId.value))
    else if signal.value.executionContextId.Some?
    then Some("frame:" + signal.value.frameId.value + (":context:" + PrintInt(signal.value.executionContextId.value)))
    else Some("frame:" + signal.value.frameId.value + "")
  }

  /** The parts of a signal that its text is made of: an execution context counts only without a loader. */
  predicate SameDocument(a: DocumentSignal, b: DocumentSignal) {
    && a.frameId == b.frameId && a.loaderId == b.loaderId
    && (a.loaderId.None? ==> a.executionContextId == b.executionContextId)
  }

  function DocumentRest(signal: DocumentSignal): (r: string)
    ensures r == "" || r[0] == ':'
  {
    if signal.loaderId.Some? then ":loader:" + signal.loaderId.value
    else if signal.executionContextId.Some? then ":context:" + PrintInt(signal.executionContextId.value)
    else ""
  }

  lemma ShorterDiffers(f: string, g: string, r: string, t: string)
    requires |f| < |g| && ':' !in g && (r == "" || r[0] == ':')
    ensures f + r != g + t
  {
    if |f + r| == |g + t| {
      assert (f + r)[|f|] == ':' && (g + t)[|f|] == g[|f|];
      assert g[|f|] in g;
    }
  }

  lemma PrefixEndsAtColon(f: string, g: string, r: string, t: string)
    requires ':' !in f && ':' !in g && (r == "" || r[0] == ':') && (t == "" || t[0] == ':')
    ensures f + r == g + t ==> f == g && r == t
  {
    if |f| < |g| {
      ShorterDiffers(f, g, r, t);
    } else if |g| < |f| {
      ShorterDiffers(g, f, t, r);
    } else if f + r == g + t {
      assert f == (f + r)[..|f|] && g == (g + t)[..|g|];
      assert r == (f + r)[|f|..] && t == (g + t)[|g|..];
    }
  }

  lemma DocumentRestsDiffer(a: DocumentSignal, b: DocumentSignal)
    requires a.frameId == b.frameId
    ensures DocumentRest(a) == DocumentRest(b) <==> SameDocument(a, b)
  {
    var r, t := DocumentRest(a), DocumentRest(b);
    if r == t {
      if a.loaderId.Some? {
        assert r[1] == 'l';
        assert r[8..] == a.loaderId.value && t[8..] == b.loaderId.value;
      } else if a.executionContextId.Some? {
        assert r[1] == 'c';
        assert r[9..] == PrintInt(a.executionContextId.value) && t[9..] == PrintInt(b.executionContextId.value);
        PrintIntIsInjective(a.executionContextId.value, b.executionContextId.value);
      }
    }
  }

  /** For frame ids without colons the text tells documents apart exactly as their frame, loader or context do. */
  lemma DocumentTextsDiffer(a: DocumentSignal, b: DocumentSignal)
    requires a.frameId.Some? && b.frameId.Some? && ':' !in a.frameId.value && ':' !in b.frameId.value
    ensures DocumentKeyOf(Some(a)) == DocumentKeyOf(Some(b)) <==> SameDocument(a, b)
  {
    var f, g, r, t := a.frameId.value, b.frameId.value, DocumentRest(a), DocumentRest(b);
    assert DocumentKeyOf(Some(a)) == Some("frame:" + f + r) && DocumentKeyOf(Some(b)) == Some("frame:" + g + t);
    assert ("frame:" + f + r)[6..] == f + r && ("frame:" + g + t)[6..] == g + t;
    PrefixEndsAtColon(f, g, r, t);
    if f == g { DocumentRestsDiffer(a, b); }
  }

  /** One observation: the captured page and the document signal that came with it. */
  datatype Observed = Observed(snapshot: Snapshot, signal: Option<DocumentSignal>)

  function TabOf(o: Observed): Option<string> {
    if o.snapshot.tab.Some? then Some(o.snapshot.tab.value.ref) else None
  }

  function DocumentOf(o: Observed): Option<string> { DocumentKeyOf(o.signal) }

  datatype IdentityState = IdentityState(
    identity: Identity,
    lastActionMap: Option<ActionMap>,
    lastDocument: Option<string>,
    lastTab: Option<string>)

  const Fresh := IdentityState(Identity(0, 0, 0), None, None, None)

  predicate Differs<T(==)>(last: Option<T>, next: Option<T>) {
    last.Some? && next.Some? && last != next
  }

  function Observe(st: IdentityState, o: Observed): IdentityState {
    var map_ := Project(o.snapshot);
    var replaced := st.identity.observationId == 0 || Differs(st.lastTab, TabOf(o)) || Differs(st.lastDocument, DocumentOf(o));
    IdentityState(
      Identity(
        st.identity.documentEpoch + (if replaced then 1 else 0),
        st.identity.actionRevision + (if replaced || Differs(st.lastActionMap, Some(map_)) then 1 else 0),
        st.identity.observationId + 1),
      Some(map_),
      if DocumentOf(o).Some? then DocumentOf(o) else st.lastDocument,
      if TabOf(o).Some? then TabOf(o) else st.lastTab)
  }

  /** The per-session record that observation overwrites. */
  class SnapshotIdentityState {
    var identity: Identity
    var lastActionMap: Option<ActionMap>
    var lastDocument: Option<string>
    var lastTab: Option<string>

    ghost function Model(): IdentityState
      reads this
    {
      IdentityState(identity, lastActionMap, lastDocument, lastTab)
    }

    constructor ()
      ensures Model() == Fresh
    {
      identity, lastActionMap, lastDocument, lastTab := Identity(0, 0, 0), None, None, None;
    }

    /** `now` is the clock; a time no date can hold throws after the record has been overwritten. */
    method ObserveBrowserState(o: Observed, now: int) returns (snapshot: Option<Snapshot>)
      modifies this
      ensures Model() == Observe(old(Model()), o)
      ensures snapshot == if IsDate(now) then Some(o.snapshot.(identity := identity, observedAt := IsoText(now))) else None
    {
      var actionMap := Project(o.snapshot);
      var nextDocument := DocumentOf(o);
      var nextTab := TabOf(o);
      var firstObservation := identity.observationId == 0;
      var tabChanged := lastTab.Some? && nextTab.Some? && lastTab != nextTab;
      var documentChanged := lastDocument.Some? && nextDocument.Some? && lastDocument != nextDocument;
      var actionMapChanged := lastActionMap.Some? && lastActionMap.value != actionMap;
      var replaced := firstObservation || tabChanged || documentChanged;
      identity := Identity(
        identity.documentEpoch + (if replaced then 1 else 0),
        identity.actionRevision + (if replaced || actionMapChanged then 1 else 0),
        identity.observationId + 1);
      lastActionMap := Some(actionMap);
      if nextDocument.Some? { lastDocument := nextDocument; }
      if nextTab.Some? { lastTab := nextTab; }
      if !IsDate(now) { return None; }
      snapshot := Some(o.snapshot.(identity := identity, observedAt := IsoText(now)));
    }
  }

  // ---------------------------------------------------------------- runs of one session

  function Run(obs: seq<Observed>): IdentityState {
    if obs == [] then Fresh else Observe(Run(obs[..|obs| - 1]), obs[|obs| - 1])
  }

  /** The identity attached to observation `i`. */
  function IdentityAt(obs: seq<Observed>, i: nat): Identity
    requires i < |obs|
  {
    Run(obs[..i + 1]).identity
  }

  /** The tab and the document last seen in a history, read off the history itself. */
  function LastTab(obs: seq<Observed>): Option<string> {
    if obs == [] then None
    else if TabOf(obs[|obs| - 1]).Some? then TabOf(obs[|obs| - 1]) else LastTab(obs[..|obs| - 1])
  }

  function LastDocument(obs: seq<Observed>): Option<string> {
    if obs == [] then None
    else if DocumentOf(obs[|obs| - 1]).Some? then DocumentOf(obs[|obs| - 1]) else LastDocument(obs[..|obs| - 1])
  }

  lemma {:induction false} RunRemembers(obs: seq<Observed>)
    ensures var st := Run(obs);
      && st.identity.observationId == |obs|
      && st.lastTab == LastTab(obs) && st.lastDocument == LastDocument(obs)
      && st.lastActionMap == (if obs == [] then None else Some(Project(obs[|obs| - 1].snapshot)))
    decreases |obs|
  {
    if obs != [] { RunRemembers(obs[..|obs| - 1]); }
  }

  /** No observation is in a later document than it has revisions, nor has more revisions than observations. */
  lemma {:induction false} CountersOrdered(obs: seq<Observed>)
    ensures var id := Run(obs).identity; 0 <= id.documentEpoch <= id.actionRevision <= id.observationId == |obs|
    ensures obs != [] ==> Run(obs).identity.documentEpoch >= 1
    decreases |obs|
  {
    RunRemembers(obs);
    if obs != [] { CountersOrdered(obs[..|obs| - 1]); }
  }

  /** Observation `k` shows the same action map as its predecessor, in the same tab and document as last seen. */
  predicate QuietAt(obs: seq<Observed>, k: nat)
    requires 0 < k < |obs|
  {
    && Project(obs[k].snapshot) == Project(obs[k - 1].snapshot)
    && !Differs(LastTab(obs[..k]), TabOf(obs[k]))
    && !Differs(LastDocument(obs[..k]), DocumentOf(obs[k]))
  }

  predicate SameRefValidity(a: Identity, b: Identity) {
    a.documentEpoch == b.documentEpoch && a.actionRevision == b.actionRevision
  }

  lemma StepIdentity(obs: seq<Observed>, k: nat)
    requires 0 < k < |obs|
    ensures var before, after := IdentityAt(obs, k - 1), IdentityAt(obs, k);
      && before.documentEpoch <= after.documentEpoch && before.actionRevision <= after.actionRevision
      && (SameRefValidity(before, after) <==> QuietAt(obs, k))
  {
    assert obs[..k + 1][..k] == obs[..k];
    RunRemembers(obs[..k]);
  }

  lemma {:induction false} CountersGrow(obs: seq<Observed>, i: nat, j: nat)
    requires i <= j < |obs|
    ensures IdentityAt(obs, i).documentEpoch <= IdentityAt(obs, j).documentEpoch
    ensures IdentityAt(obs, i).actionRevision <= IdentityAt(obs, j).actionRevision
    decreases j
  {
    if i < j {
      CountersGrow(obs, i, j - 1);
      StepIdentity(obs, j);
    }
  }

  /** The cheap check is exact: two counters agree between two observations precisely when nothing in between
      changed the action map, the tab or the document. */
  lemma {:induction false} CounterCheckExact(obs: seq<Observed>, i: nat, j: nat)
    requires i <= j < |obs|
    ensures SameRefValidity(IdentityAt(obs, i), IdentityAt(obs, j)) <==> forall k :: i < k <= j ==> QuietAt(obs, k)
    decreases j
  {
    if i < j {
      CounterCheckExact(obs, i, j - 1);
      CountersGrow(obs, i, j - 1);
      StepIdentity(obs, j);
      if forall k :: i < k <= j ==> QuietAt(obs, k) {
        assert forall k :: i < k <= j - 1 ==> QuietAt(obs, k);
      }
      if SameRefValidity(IdentityAt(obs, i), IdentityAt(obs, j)) {
        forall k | i < k <= j ensures QuietAt(obs, k) {}
      }
    }
  }

  /** A quiet stretch ends with the action map it began with, and in its tab and document where both ends show one. */
  lemma {:induction false} QuietStretch(obs: seq<Observed>, i: nat, j: nat)
    requires i <= j < |obs| && forall k :: i < k <= j ==> QuietAt(obs, k)
    ensures Project(obs[i].snapshot) == Project(obs[j].snapshot)
    ensures TabOf(obs[i]).Some? ==> LastTab(obs[..j + 1]) == TabOf(obs[i])
    ensures DocumentOf(obs[i]).Some? ==> LastDocument(obs[..j + 1]) == DocumentOf(obs[i])
    ensures TabOf(obs[i]).Some? && TabOf(obs[j]).Some? ==> TabOf(obs[i]) == TabOf(obs[j])
    ensures DocumentOf(obs[i]).Some? && DocumentOf(obs[j]).Some? ==> DocumentOf(obs[i]) == DocumentOf(obs[j])
    decreases j
  {
    assert obs[..j + 1][..j] == obs[..j];
    if i < j {
      QuietStretch(obs, i, j - 1);
      assert QuietAt(obs, j);
    }
  }
}
