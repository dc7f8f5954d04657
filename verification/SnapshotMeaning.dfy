/** What makes the counters move: which tab and document a page shows, and what its actionable elements, hit-testable
    regions and dialogs look like. */
module SnapshotMeaning {
  import opened Wrappers
  import opened BrowserTypes
  import opened SnapshotState

  /** `p` lists, in order, the positions of the actionable elements. */
  predicate ListsActionable(es: seq<Element>, p: seq<nat>) {
    && (forall k :: 0 <= k < |p| ==> p[k] < |es| && Acts(es[p[k]]))
    && (forall k, l :: 0 <= k < l < |p| ==> p[k] < p[l])
    && (forall i :: 0 <= i < |es| && Acts(es[i]) ==> i in p)
  }

  predicate Acts(e: Element) {
    && e.role.Some? && e.role.value in ACTIONABLE_ROLES
    && e.interactable != Some(false) && e.hidden != Some(true) && e.disabled != Some(true)
  }

  /** The two elements agree in everything but value and checked state. */
  predicate SameLook(a: Element, b: Element) {
    && a.ref == b.ref && a.role == b.role && a.name == b.name && a.text == b.text && a.label_ == b.label_
    && a.withinText == b.withinText && a.regionText == b.regionText && a.interactable == b.interactable
    && a.interactabilityReason == b.interactabilityReason && a.hidden == b.hidden && a.viewport == b.viewport
    && a.disabled == b.disabled
  }

  predicate SameElements(as_: seq<Element>, bs: seq<Element>, p: seq<nat>, q: seq<nat>)
    requires ListsActionable(as_, p) && ListsActionable(bs, q)
  {
    |p| == |q| && forall k :: 0 <= k < |p| ==> SameLook(as_[p[k]], bs[q[k]])
  }

  predicate ListsHitTestable(rs: seq<Region>, p: seq<nat>) {
    && (forall k :: 0 <= k < |p| ==> p[k] < |rs| && rs[p[k]].hitTestable)
    && (forall k, l :: 0 <= k < l < |p| ==> p[k] < p[l])
    && (forall i :: 0 <= i < |rs| && rs[i].hitTestable ==> i in p)
  }

  /** The two regions agree in everything but the ref. */
  predicate SameRegion(a: Region, b: Region) {
    && a.text == b.text && a.actionRefs == b.actionRefs && a.links == b.links && a.hitTestable == b.hitTestable
    && a.viewport == b.viewport && a.blockedBy == b.blockedBy
  }

  predicate SameRegions(as_: seq<Region>, bs: seq<Region>, p: seq<nat>, q: seq<nat>)
    requires ListsHitTestable(as_, p) && ListsHitTestable(bs, q)
  {
    |p| == |q| && forall k :: 0 <= k < |p| ==> SameRegion(as_[p[k]], bs[q[k]])
  }

  /** The two dialog lists agree in everything but the ids. */
  predicate SameDialogs(a: seq<Dialog>, b: seq<Dialog>) {
    && |a| == |b|
    && forall k :: 0 <= k < |a| ==>
         a[k].kind == b[k].kind && a[k].message == b[k].message && a[k].defaultPrompt == b[k].defaultPrompt
  }

  /** Exactly the first `k` of the positions lie below `n`. */
  predicate Splits(p: seq<nat>, k: nat, n: nat) {
    k <= |p| && (forall m :: 0 <= m < k ==> p[m] < n) && (forall m :: k <= m < |p| ==> p[m] >= n)
  }

  lemma AllBelow(p: seq<nat>, k: nat, n: nat)
    requires Splits(p, k, n) && forall m :: 0 <= m < |p| ==> p[m] < n
    ensures k == |p|
  {
    if p != [] { assert p[|p| - 1] < n; }
  }

  lemma NextActionable(es: seq<Element>, p: seq<nat>, k: nat, n: nat)
    requires ListsActionable(es, p) && Splits(p, k, n) && n < |es|
    ensures Acts(es[n]) ==> k < |p| && p[k] == n && Splits(p, k + 1, n + 1)
    ensures !Acts(es[n]) ==> Splits(p, k, n + 1)
  {
    if Acts(es[n]) {
      assert n in p;
      var m :| 0 <= m < |p| && p[m] == n;
      assert m >= k;
      assert p[k] >= n;
    }
  }

  function PickedElements(es: seq<Element>, p: seq<nat>): (r: seq<Element>)
    requires forall k :: 0 <= k < |p| ==> p[k] < |es|
    ensures |r| == |p| && forall k :: 0 <= k < |p| ==> r[k] == StripElement(es[p[k]])
  {
    seq(|p|, k requires 0 <= k < |p| => StripElement(es[p[k]]))
  }

  lemma PickElement(es: seq<Element>, p: seq<nat>, k: nat)
    requires k < |p| && forall m :: 0 <= m < |p| ==> p[m] < |es|
    ensures PickedElements(es, p[k..]) == [StripElement(es[p[k]])] + PickedElements(es, p[k + 1..])
  {}

  lemma {:induction false} ElementsListed(es: seq<Element>, p: seq<nat>, k: nat, n: nat)
    requires ListsActionable(es, p) && Splits(p, k, n) && n <= |es|
    ensures ElementMap(es[n..]) == PickedElements(es, p[k..])
    decreases |es| - n
  {
    if n < |es| {
      NextActionable(es, p, k, n);
      ElementStep(es, n);
      if Acts(es[n]) {
        ElementsListed(es, p, k + 1, n + 1);
        PickElement(es, p, k);
      } else {
        ElementsListed(es, p, k, n + 1);
      }
    } else {
      AllBelow(p, k, n);
    }
  }

  lemma ElementStep(es: seq<Element>, n: nat)
    requires n < |es|
    ensures ElementMap(es[n..]) == (if Acts(es[n]) then [StripElement(es[n])] else []) + ElementMap(es[n + 1..])
  {
    assert es[n..][0] == es[n] && es[n..][1..] == es[n + 1..];
    assert Acts(es[n]) <==> IsActionable(es[n]);
  }

  lemma NextHit(rs: seq<Region>, p: seq<nat>, k: nat, n: nat)
    requires ListsHitTestable(rs, p) && Splits(p, k, n) && n < |rs|
    ensures rs[n].hitTestable ==> k < |p| && p[k] == n && Splits(p, k + 1, n + 1)
    ensures !rs[n].hitTestable ==> Splits(p, k, n + 1)
  {
    if rs[n].hitTestable {
      assert n in p;
      var m :| 0 <= m < |p| && p[m] == n;
      assert m >= k;
      assert p[k] >= n;
    }
  }

  function PickedRegions(rs: seq<Region>, p: seq<nat>): (r: seq<Region>)
    requires forall k :: 0 <= k < |p| ==> p[k] < |rs|
    ensures |r| == |p| && forall k :: 0 <= k < |p| ==> r[k] == StripRegion(rs[p[k]])
  {
    seq(|p|, k requires 0 <= k < |p| => StripRegion(rs[p[k]]))
  }

  lemma PickRegion(rs: seq<Region>, p: seq<nat>, k: nat)
    requires k < |p| && forall m :: 0 <= m < |p| ==> p[m] < |rs|
    ensures PickedRegions(rs, p[k..]) == [StripRegion(rs[p[k]])] + PickedRegions(rs, p[k + 1..])
  {}

  lemma {:induction false} RegionsListed(rs: seq<Region>, p: seq<nat>, k: nat, n: nat)
    requires ListsHitTestable(rs, p) && Splits(p, k, n) && n <= |rs|
    ensures RegionMap(rs[n..]) == PickedRegions(rs, p[k..])
    decreases |rs| - n
  {
    if n < |rs| {
      NextHit(rs, p, k, n);
      RegionStep(rs, n);
      if rs[n].hitTestable {
        RegionsListed(rs, p, k + 1, n + 1);
        PickRegion(rs, p, k);
      } else {
        RegionsListed(rs, p, k, n + 1);
      }
    } else {
      AllBelow(p, k, n);
    }
  }

  lemma RegionStep(rs: seq<Region>, n: nat)
    requires n < |rs|
    ensures RegionMap(rs[n..]) == (if rs[n].hitTestable then [StripRegion(rs[n])] else []) + RegionMap(rs[n + 1..])
  {
    assert rs[n..][0] == rs[n] && rs[n..][1..] == rs[n + 1..];
  }

  lemma {:induction false} DialogsListed(ds: seq<Dialog>)
    ensures |DialogMap(ds)| == |ds| && forall k :: 0 <= k < |ds| ==> DialogMap(ds)[k] == StripDialog(ds[k])
  {
    if ds != [] { DialogsListed(ds[1..]); }
  }

  lemma LookIff(a: Element, b: Element)
    ensures StripElement(a) == StripElement(b) <==> SameLook(a, b)
  {}

  lemma RegionIff(a: Region, b: Region)
    ensures StripRegion(a) == StripRegion(b) <==> SameRegion(a, b)
  {}

  lemma ElementsAgreeIff(as_: seq<Element>, bs: seq<Element>, p: seq<nat>, q: seq<nat>)
    requires ListsActionable(as_, p) && ListsActionable(bs, q)
    ensures ElementMap(as_) == ElementMap(bs) <==> SameElements(as_, bs, p, q)
  {
    var x := ListedElements(as_, p);
    var y := ListedElements(bs, q);
    LooksAgree(as_, bs, p, q, x, y);
  }

  lemma ListedElements(es: seq<Element>, p: seq<nat>) returns (x: seq<Element>)
    requires ListsActionable(es, p)
    ensures x == ElementMap(es) && |x| == |p| && forall k :: 0 <= k < |p| ==> x[k] == StripElement(es[p[k]])
  {
    ElementsListed(es, p, 0, 0);
    assert es[0..] == es && p[0..] == p;
    x := ElementMap(es);
  }

  lemma LooksAgree(as_: seq<Element>, bs: seq<Element>, p: seq<nat>, q: seq<nat>, x: seq<Element>, y: seq<Element>)
    requires ListsActionable(as_, p) && ListsActionable(bs, q) && |x| == |p| && |y| == |q|
    requires forall k :: 0 <= k < |p| ==> x[k] == StripElement(as_[p[k]])
    requires forall k :: 0 <= k < |q| ==> y[k] == StripElement(bs[q[k]])
    ensures x == y <==> SameElements(as_, bs, p, q)
  {
    if |p| == |q| {
      forall k | 0 <= k < |p| ensures x[k] == y[k] <==> SameLook(as_[p[k]], bs[q[k]]) { LookIff(as_[p[k]], bs[q[k]]); }
    }
  }

  lemma RegionsAgreeIff(as_: seq<Region>, bs: seq<Region>, p: seq<nat>, q: seq<nat>)
    requires ListsHitTestable(as_, p) && ListsHitTestable(bs, q)
    ensures RegionMap(as_) == RegionMap(bs) <==> SameRegions(as_, bs, p, q)
  {
    var x := ListedRegions(as_, p);
    var y := ListedRegions(bs, q);
    RegionsAgree(as_, bs, p, q, x, y);
  }

  lemma ListedRegions(rs: seq<Region>, p: seq<nat>) returns (x: seq<Region>)
    requires ListsHitTestable(rs, p)
    ensures x == RegionMap(rs) && |x| == |p| && forall k :: 0 <= k < |p| ==> x[k] == StripRegion(rs[p[k]])
  {
    RegionsListed(rs, p, 0, 0);
    assert rs[0..] == rs && p[0..] == p;
    x := RegionMap(rs);
  }

  lemma RegionsAgree(as_: seq<Region>, bs: seq<Region>, p: seq<nat>, q: seq<nat>, x: seq<Region>, y: seq<Region>)
    requires ListsHitTestable(as_, p) && ListsHitTestable(bs, q) && |x| == |p| && |y| == |q|
    requires forall k :: 0 <= k < |p| ==> x[k] == StripRegion(as_[p[k]])
    requires forall k :: 0 <= k < |q| ==> y[k] == StripRegion(bs[q[k]])
    ensures x == y <==> SameRegions(as_, bs, p, q)
  {
    if |p| == |q| {
      forall k | 0 <= k < |p| ensures x[k] == y[k] <==> SameRegion(as_[p[k]], bs[q[k]]) { RegionIff(as_[p[k]], bs[q[k]]); }
    }
  }

  lemma DialogsAgreeIff(a: seq<Dialog>, b: seq<Dialog>)
    ensures DialogMap(a) == DialogMap(b) <==> SameDialogs(a, b)
  {
    DialogsListed(a);
    DialogsListed(b);
    if |a| == |b| {
      forall k | 0 <= k < |a|
        ensures DialogMap(a)[k] == DialogMap(b)[k] <==>
          a[k].kind == b[k].kind && a[k].message == b[k].message && a[k].defaultPrompt == b[k].defaultPrompt
      {}
    }
  }

  /** Two pages have the same action map exactly when the same of the three lists are present, their actionable elements
      agree one by one up to value and checked state, their hit-testable regions up to the ref, and their dialogs up to
      the id. */
  lemma SameMapIff(a: Snapshot, b: Snapshot, p: seq<nat>, q: seq<nat>, u: seq<nat>, v: seq<nat>)
    requires ListsActionable(if a.elements.Some? then a.elements.value else [], p)
    requires ListsActionable(if b.elements.Some? then b.elements.value else [], q)
    requires ListsHitTestable(if a.regions.Some? then a.regions.value else [], u)
    requires ListsHitTestable(if b.regions.Some? then b.regions.value else [], v)
    ensures Project(a) == Project(b) <==>
      && (a.elements.Some? <==> b.elements.Some?)
      && (a.elements.Some? && b.elements.Some? ==> SameElements(a.elements.value, b.elements.value, p, q))
      && (a.regions.Some? <==> b.regions.Some?)
      && (a.regions.Some? && b.regions.Some? ==> SameRegions(a.regions.value, b.regions.value, u, v))
      && (a.pendingDialogs.Some? <==> b.pendingDialogs.Some?)
      && (a.pendingDialogs.Some? && b.pendingDialogs.Some? ==> SameDialogs(a.pendingDialogs.value, b.pendingDialogs.value))
  {
    if a.elements.Some? && b.elements.Some? { ElementsAgreeIff(a.elements.value, b.elements.value, p, q); }
    if a.regions.Some? && b.regions.Some? { RegionsAgreeIff(a.regions.value, b.regions.value, u, v); }
    if a.pendingDialogs.Some? && b.pendingDialogs.Some? { DialogsAgreeIff(a.pendingDialogs.value, b.pendingDialogs.value); }
  }

  // ---------------------------------------------------------------- the counters

  /** Observation `k` shows another tab than the last earlier one that shows any, at `i`. */
  predicate TabMovedSince(obs: seq<Observed>, i: nat, k: nat)
    requires k < |obs|
  {
    && i < k && obs[i].snapshot.tab.Some? && obs[k].snapshot.tab.Some?
    && obs[i].snapshot.tab.value.ref != obs[k].snapshot.tab.value.ref
    && forall m :: i < m < k ==> obs[m].snapshot.tab.None?
  }

  /** The same for the document text. */
  predicate DocumentMovedSince(obs: seq<Observed>, i: nat, k: nat)
    requires k < |obs|
  {
    && i < k && DocumentOf(obs[i]).Some? && DocumentOf(obs[k]).Some? && DocumentOf(obs[i]) != DocumentOf(obs[k])
    && forall m :: i < m < k ==> DocumentOf(obs[m]).None?
  }

  ghost predicate Moved(obs: seq<Observed>, k: nat)
    requires k < |obs|
  {
    (exists i: nat :: TabMovedSince(obs, i, k)) || (exists i: nat :: DocumentMovedSince(obs, i, k))
  }

  lemma {:induction false} LastTabShown(obs: seq<Observed>) returns (i: nat)
    ensures LastTab(obs).Some? ==>
      && i < |obs| && obs[i].snapshot.tab.Some? && LastTab(obs) == Some(obs[i].snapshot.tab.value.ref)
      && forall m :: i < m < |obs| ==> obs[m].snapshot.tab.None?
    ensures LastTab(obs).None? ==> forall m :: 0 <= m < |obs| ==> obs[m].snapshot.tab.None?
  {
    i := 0;
    if obs != [] {
      var n := |obs| - 1;
      if obs[n].snapshot.tab.Some? {
        i := n;
      } else {
        i := LastTabShown(obs[..n]);
        assert forall m :: 0 <= m < n ==> obs[m] == obs[..n][m];
      }
    }
  }

  lemma {:induction false} LastDocumentShown(obs: seq<Observed>) returns (i: nat)
    ensures LastDocument(obs).Some? ==>
      && i < |obs| && LastDocument(obs) == DocumentOf(obs[i]) && forall m :: i < m < |obs| ==> DocumentOf(obs[m]).None?
    ensures LastDocument(obs).None? ==> forall m :: 0 <= m < |obs| ==> DocumentOf(obs[m]).None?
  {
    i := 0;
    if obs != [] {
      var n := |obs| - 1;
      if DocumentOf(obs[n]).Some? {
        i := n;
      } else {
        i := LastDocumentShown(obs[..n]);
        assert forall m :: 0 <= m < n ==> obs[m] == obs[..n][m];
      }
    }
  }

  lemma TabDiffersIff(obs: seq<Observed>, k: nat)
    requires k < |obs|
    ensures Differs(LastTab(obs[..k]), TabOf(obs[k])) <==> exists i: nat :: TabMovedSince(obs, i, k)
  {
    var i := LastTabShown(obs[..k]);
    if Differs(LastTab(obs[..k]), TabOf(obs[k])) {
      assert forall m :: i < m < k ==> obs[m] == obs[..k][m];
      assert TabMovedSince(obs, i, k);
    }
    forall j: nat | TabMovedSince(obs, j, k) ensures Differs(LastTab(obs[..k]), TabOf(obs[k])) {
      assert obs[..k][j] == obs[j];
      assert i == j;
    }
  }

  lemma DocumentDiffersIff(obs: seq<Observed>, k: nat)
    requires k < |obs|
    ensures Differs(LastDocument(obs[..k]), DocumentOf(obs[k])) <==> exists i: nat :: DocumentMovedSince(obs, i, k)
  {
    var i := LastDocumentShown(obs[..k]);
    if Differs(LastDocument(obs[..k]), DocumentOf(obs[k])) {
      assert forall m :: i < m < k ==> obs[m] == obs[..k][m];
      assert DocumentMovedSince(obs, i, k);
    }
    forall j: nat | DocumentMovedSince(obs, j, k) ensures Differs(LastDocument(obs[..k]), DocumentOf(obs[k])) {
      assert obs[..k][j] == obs[j];
      assert i == j;
    }
  }

  /** The first observation is (1, 1, 1). Each later one counts itself, counts a document exactly when tab or document
      moved, and a revision exactly when one of them moved or the action map is another. */
  lemma CountersCount(obs: seq<Observed>, k: nat)
    requires k < |obs|
    ensures k == 0 ==> IdentityAt(obs, k) == Identity(1, 1, 1)
    ensures k > 0 ==>
      var before := IdentityAt(obs, k - 1);
      var another := Project(obs[k].snapshot) != Project(obs[k - 1].snapshot);
      IdentityAt(obs, k) == Identity(
        before.documentEpoch + (if Moved(obs, k) then 1 else 0),
        before.actionRevision + (if Moved(obs, k) || another then 1 else 0),
        k + 1)
  {
    RunRemembers(obs[..k]);
    assert obs[..k + 1][..k] == obs[..k];
    TabDiffersIff(obs, k);
    DocumentDiffersIff(obs, k);
  }

  /** A document text is printed exactly for a signal with a frame, and starts with it. */
  lemma DocumentTextIff(o: Observed)
    ensures DocumentOf(o).Some? <==> o.signal.Some? && o.signal.value.frameId.Some?
  {}
}
