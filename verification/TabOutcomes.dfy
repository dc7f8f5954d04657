/** When listing, switching and opening tabs succeed, which reference each listed target carries, and which failure is
    reported otherwise, said over the session before the call and the browser's answers. */
module TabOutcomes {
  import opened Wrappers
  import opened Decimal
  import opened TabSession
  import opened TabRuns

  /** The listed targets that carry no reference yet. */
  function Unnamed(s: Session, ts: seq<TargetId>): set<TargetId> { set t | t in ts && t !in s.tabRefs }

  /** The listing shows `ref` at `i`: the reference the target has, or, where a new target is met first, the next number
      after those of the new targets before it. */
  predicate ShowsAt(s: Session, ts: seq<TargetId>, ref: string, i: nat) {
    && i < |ts|
    && (if ts[i] in s.tabRefs then s.tabRefs[ts[i]] == ref
        else ts[i] !in ts[..i] && ref == "@t" + Print(s.nextTabNumber + |Unnamed(s, ts[..i])|))
  }

  lemma UnnamedGrows(s: Session, ts: seq<TargetId>)
    requires ts != []
    ensures var front, t := ts[..|ts| - 1], ts[|ts| - 1];
      if t in s.tabRefs || t in front then Unnamed(s, ts) == Unnamed(s, front)
      else |Unnamed(s, ts)| == |Unnamed(s, front)| + 1
  {
    var front, t := ts[..|ts| - 1], ts[|ts| - 1];
    assert ts == front + [t];
    if t !in s.tabRefs && t !in front { assert Unnamed(s, ts) == Unnamed(s, front) + {t}; }
  }

  lemma {:induction false} NamesCount(s: Session, ts: seq<TargetId>)
    ensures NamedAll(s, ts).nextTabNumber == s.nextTabNumber + |Unnamed(s, ts)|
    ensures NamedAll(s, ts).tabRefs.Keys == s.tabRefs.Keys + (set t | t in ts)
  {
    if ts == [] {
      assert Unnamed(s, ts) == {};
    } else {
      NamesCount(s, ts[..|ts| - 1]);
      UnnamedGrows(s, ts);
      assert ts == ts[..|ts| - 1] + [ts[|ts| - 1]];
    }
  }

  lemma {:induction false} NamesStand(s: Session, ts: seq<TargetId>, n: nat)
    requires n <= |ts|
    ensures forall t :: t in NamedAll(s, ts[..n]).tabRefs ==>
      t in NamedAll(s, ts).tabRefs && NamedAll(s, ts).tabRefs[t] == NamedAll(s, ts[..n]).tabRefs[t]
    decreases |ts|
  {
    if n == |ts| {
      assert ts[..n] == ts;
    } else {
      NamesStand(s, ts[..|ts| - 1], n);
      assert ts[..|ts| - 1][..n] == ts[..n];
    }
  }

  /** A target met first at `i` is named there. */
  lemma NamedAt(s: Session, ts: seq<TargetId>, i: nat)
    requires i < |ts| && (ts[i] in s.tabRefs || ts[i] !in ts[..i])
    ensures ts[i] in NamedAll(s, ts).tabRefs && ShowsAt(s, ts, NamedAll(s, ts).tabRefs[ts[i]], i)
  {
    NamesCount(s, ts[..i]);
    NamesStand(s, ts, i);
    NamesStand(s, ts, i + 1);
    assert ts[..i + 1][..i] == ts[..i];
    assert NamedAll(s, ts[..i + 1]) == Named(NamedAll(s, ts[..i]), ts[i]);
    if ts[i] in s.tabRefs { NamesStand(s, ts, 0); }
  }

  lemma SweptShows(s: Session, ts: seq<TargetId>, ref: string, i: nat)
    ensures ShowsAt(Swept(s, ts), ts, ref, i) <==> ShowsAt(s, ts, ref, i)
  {
    if i < |ts| {
      assert Unnamed(Swept(s, ts), ts[..i]) == Unnamed(s, ts[..i]);
    }
  }

  lemma {:induction false} FirstMet(ts: seq<TargetId>, i: nat) returns (f: nat)
    requires i < |ts|
    ensures f <= i && ts[f] == ts[i] && ts[f] !in ts[..f]
  {
    f := i;
    if ts[i] in ts[..i] {
      var j :| 0 <= j < i && ts[..i][j] == ts[i];
      f := FirstMet(ts, j);
    }
  }

  /** A listing shows every target in order, with the reference it has or gets. */
  lemma ListedShows(s: Session, ts: seq<TargetId>, i: nat)
    requires i < |ts|
    ensures ts[i] in Listed(s, ts).tabRefs
    ensures ts[i] in s.tabRefs || ts[i] !in ts[..i] ==> ShowsAt(s, ts, Listed(s, ts).tabRefs[ts[i]], i)
  {
    if ts[i] in s.tabRefs || ts[i] !in ts[..i] {
      NamedAt(Swept(s, ts), ts, i);
      SweptShows(s, ts, Listed(s, ts).tabRefs[ts[i]], i);
    }
  }

  lemma ShownRefIs(s: Session, ts: seq<TargetId>, ref: string, i: nat)
    requires ShowsAt(s, ts, ref, i)
    ensures ts[i] in Listed(s, ts).tabRefs && Listed(s, ts).tabRefs[ts[i]] == ref
  {
    ListedShows(s, ts, i);
  }

  lemma ListTabsShows(s: Session, ts: seq<TargetId>, i: nat)
    requires i < |ts|
    ensures ListTabs(s, Targets(ts)).1.Ok? && |ListTabs(s, Targets(ts)).1.value| == |ts|
    ensures var tab := ListTabs(s, Targets(ts)).1.value[i];
      && tab.target == ts[i] && (tab.controlled <==> ts[i] == s.targetId)
      && (ts[i] in s.tabRefs || ts[i] !in ts[..i] ==> ShowsAt(s, ts, tab.ref, i))
  {
    ListedShows(s, ts, i);
  }

  /** A text that looks like a tab reference is the sign followed by a positive number in decimal. */
  lemma TabRefIff(ref: string)
    ensures IsTabRef(ref) <==> exists n: nat :: n > 0 && ref == "@t" + Print(n)
  {
    if IsTabRef(ref) {
      var digits := ref[2..];
      assert digits == [ref[2]] + ref[3..];
      PrintOfDigits(digits);
      assert ref == ref[..2] + digits;
      assert ref == "@t" + Print(DigitsValue(digits));
    }
    forall n: nat | n > 0 && ref == "@t" + Print(n) ensures IsTabRef(ref) { TabRefIsTabRef(n); }
  }

  // ---------------------------------------------------------------- when a switch succeeds

  /** The browser lets the session take the target: the controlled one only has to be activated, and so has the owner's
      own target; any other must be attached to first. */
  predicate Reaches(s: Session, t: TargetId, a: SwitchAnswers) {
    a.activates && (t == s.targetId || t == s.owner || a.attaches)
  }

  ghost predicate Shows(s: Session, ts: seq<TargetId>, ref: string) { exists i: nat :: ShowsAt(s, ts, ref, i) }

  lemma FoundIff(s: Session, ts: seq<TargetId>, ref: string)
    ensures FindTab(Tabs(Listed(s, ts), ts), ref).Some? <==> Shows(s, ts, ref)
  {
    var tabs := Tabs(Listed(s, ts), ts);
    FindTabFinds(tabs, ref);
    if i :| 0 <= i < |tabs| && tabs[i].ref == ref {
      var f := FirstMet(ts, i);
      ListedShows(s, ts, f);
      assert ShowsAt(s, ts, ref, f);
    }
    if Shows(s, ts, ref) {
      var i: nat :| ShowsAt(s, ts, ref, i);
      ShownRefIs(s, ts, ref, i);
      assert tabs[i].ref == ref;
    }
  }

  /** The target found is the one that shows the reference. */
  lemma FoundTarget(s: Session, ts: seq<TargetId>, ref: string, i: nat)
    requires Inv(s) && ShowsAt(s, ts, ref, i)
    ensures var found := FindTab(Tabs(Listed(s, ts), ts), ref); found.Some? && found.value.target == ts[i]
  {
    FoundIff(s, ts, ref);
    var tabs := Tabs(Listed(s, ts), ts);
    FindTabFinds(tabs, ref);
    var found := FindTab(tabs, ref).value;
    var k :| 0 <= k < |tabs| && tabs[k] == found;
    ShownRefIs(s, ts, ref, i);
    ListedKeeps(s, ts);
    TabsAreIssued(s, ts);
    assert tabs[i].ref == ref && tabs[k].ref == ref;
  }

  /** A switch succeeds exactly when the reference is well formed, the listing shows it, and the browser lets the session
      take its target; then that target is controlled, under that reference, and the attachment it had before is closed or
      kept for closing. Every failure says which of these was missing. */
  lemma SwitchTabIff(s: Session, ref: string, a: SwitchAnswers, i: nat)
    requires Inv(s) && a.supported && IsTabRef(ref) && a.listing.Targets? && ShowsAt(s, a.listing.targets, ref, i)
    ensures var (r, result) := SwitchTab(s, ref, a);
      var t := a.listing.targets[i];
      && (result.Ok? <==> Reaches(s, t, a))
      && (result.Err? ==> result == Err(SwitchFailed))
      && (result.Ok? ==> r.targetId == t && (t == s.targetId || r.tabRef == ref))
  {
    var ts := a.listing.targets;
    FoundTarget(s, ts, ref, i);
    ListedKeeps(s, ts);
    SwitchToIff(Listed(s, ts), ts[i], ref, a);
  }

  lemma SwitchToIff(s: Session, t: TargetId, ref: string, a: SwitchAnswers)
    ensures var (r, result) := SwitchTo(s, t, ref, a);
      && (result.Ok? <==> Reaches(s, t, a)) && (result.Err? ==> result == Err(SwitchFailed))
      && (result.Ok? ==> r.targetId == t && (t == s.targetId || r.tabRef == ref))
  {}

  lemma SwitchTabRefused(s: Session, ref: string, a: SwitchAnswers)
    ensures SwitchTab(s, ref, a).1 == Err(NotSupported) <==>
      !a.supported || (IsTabRef(ref) && a.listing.ListingUnsupported?)
    ensures SwitchTab(s, ref, a).1 == Err(InvalidRef) <==> a.supported && !IsTabRef(ref)
    ensures SwitchTab(s, ref, a).1 == Err(ListingFailed) <==> a.supported && IsTabRef(ref) && a.listing.ListingThrows?
    ensures SwitchTab(s, ref, a).1 == Err(TabMissing) <==>
      a.supported && IsTabRef(ref) && a.listing.Targets? && !Shows(s, a.listing.targets, ref)
  {
    if a.listing.Targets? {
      FoundIff(s, a.listing.targets, ref);
      var found := FindTab(Tabs(Listed(s, a.listing.targets), a.listing.targets), ref);
      if found.Some? { SwitchToIff(Listed(s, a.listing.targets), found.value.target, ref, a); }
    }
  }

  /** What a successful switch to another target does to the attachments: the target is driven through a new one, or
      directly if it is the owner's, and the one before is closed or, if closing fails, kept. */
  lemma SwitchToTakesOver(s: Session, t: TargetId, ref: string, a: SwitchAnswers)
    requires t != s.targetId && Reaches(s, t, a)
    ensures var r := SwitchTo(s, t, ref, a).0;
      var next := Attachment(|s.obtained|, t);
      && r.active == (if t == s.owner then None else Some(next))
      && r.obtained == (if t == s.owner then s.obtained else s.obtained + [next])
      && (s.active.None? ==> r.retired == s.retired && r.closed == s.closed)
      && (s.active.Some? && a.closesPrevious ==> r.retired == s.retired && r.closed == s.closed + {s.active.value.id})
      && (s.active.Some? && !a.closesPrevious ==> r.retired == s.retired + [s.active.value] && r.closed == s.closed)
      && r.tabRefs == s.tabRefs && r.owner == s.owner
  {}

  /** A failing switch leaves what was controlled; an attachment made in vain is closed or, if closing fails, kept. */
  lemma SwitchToGivesUp(s: Session, t: TargetId, ref: string, a: SwitchAnswers)
    requires !Reaches(s, t, a)
    ensures var r := SwitchTo(s, t, ref, a).0;
      var vain := Attachment(|s.obtained|, t);
      && r.targetId == s.targetId && r.tabRef == s.tabRef && r.active == s.active && r.tabRefs == s.tabRefs
      && if t == s.targetId || t == s.owner || !a.attaches
         then r == s
         else if a.closesNext
         then r.obtained == s.obtained + [vain] && r.retired == s.retired && r.closed == s.closed + {vain.id}
         else r.obtained == s.obtained + [vain] && r.retired == s.retired + [vain] && r.closed == s.closed
  {}

  // ---------------------------------------------------------------- when opening succeeds

  /** Every reference a session holds or will give out is well formed. */
  predicate WellNamed(s: Session) { s.nextTabNumber > 0 && forall t :: t in s.tabRefs ==> IsTabRef(s.tabRefs[t]) }

  lemma {:induction false} NamedAllWell(s: Session, ts: seq<TargetId>)
    requires WellNamed(s)
    ensures WellNamed(NamedAll(s, ts))
  {
    if ts != [] {
      NamedAllWell(s, ts[..|ts| - 1]);
      TabRefIsTabRef(NamedAll(s, ts[..|ts| - 1]).nextTabNumber);
    }
  }

  lemma SwitchToNames(s: Session, t: TargetId, ref: string, a: SwitchAnswers)
    ensures var r := SwitchTo(s, t, ref, a).0; r.tabRefs == s.tabRefs && r.nextTabNumber == s.nextTabNumber
  {}

  lemma SwitchTabWell(s: Session, ref: string, a: SwitchAnswers)
    requires WellNamed(s)
    ensures WellNamed(SwitchTab(s, ref, a).0)
  {
    if a.listing.Targets? {
      var ts := a.listing.targets;
      NamedAllWell(Swept(s, ts), ts);
      var found := FindTab(Tabs(Listed(s, ts), ts), ref);
      if found.Some? { SwitchToNames(Listed(s, ts), found.value.target, ref, a); }
    }
  }

  lemma StepWell(s: Session, op: Op)
    requires WellNamed(s)
    ensures WellNamed(Step(s, op))
  {
    match op
    case DoList(listing) => if listing.Targets? { NamedAllWell(Swept(s, listing.targets), listing.targets); }
    case DoSwitch(ref, a) => SwitchTabWell(s, ref, a);
    case DoOpen(create, a) =>
      if create.Created? {
        TabRefIsTabRef(s.nextTabNumber);
        SwitchTabWell(Named(s, create.target), Named(s, create.target).tabRefs[create.target], a);
      }
  }

  /** So it is over every run of a session. */
  lemma {:induction false} RunIsWellNamed(owner: TargetId, ops: seq<Op>)
    ensures WellNamed(Run(Fresh(owner), ops)) && Inv(Run(Fresh(owner), ops))
  {
    FreshOk(owner);
    TabRefIsTabRef(1);
    RunKeeps(Fresh(owner), ops);
    if ops != [] {
      RunIsWellNamed(owner, ops[..|ops| - 1]);
      StepWell(Run(Fresh(owner), ops[..|ops| - 1]), ops[|ops| - 1]);
    }
  }

  /** Opening succeeds exactly when the target is created, the listing shows it and the browser lets the session take it. */
  lemma OpenTabIff(s: Session, create: Creation, a: SwitchAnswers)
    requires Inv(s) && WellNamed(s)
    ensures var (r, result) := OpenTab(s, create, a);
      && (result.Ok? <==>
            && create.Created? && a.supported && a.listing.Targets? && create.target in a.listing.targets
            && Reaches(s, create.target, a))
      && (result.Ok? ==> r.targetId == create.target)
      && (result == Err(NotSupported) <==> create.CreationUnsupported?)
      && (result == Err(CreateFailed) <==> create.CreationThrows?)
      && (result == Err(OpenFailed) ==> create.target !in r.tabRefs)
  {
    if create.Created? {
      var t := create.target;
      NamedKeeps(s, t);
      var s1 := Named(s, t);
      TabRefIsTabRef(s.nextTabNumber);
      var ref := s1.tabRefs[t];
      if a.supported && a.listing.Targets? {
        var ts := a.listing.targets;
        if t in ts {
          var i :| 0 <= i < |ts| && ts[i] == t;
          assert ShowsAt(s1, ts, ref, i);
          SwitchTabIff(s1, ref, a, i);
        } else {
          UnlistedIsMissing(s1, t, ts);
          SwitchTabRefused(s1, ref, a);
        }
      }
    }
  }

  /** A reference of a target that is not listed is not shown: no other target gets it. */
  lemma UnlistedIsMissing(s: Session, t: TargetId, ts: seq<TargetId>)
    requires Inv(s) && t in s.tabRefs && t !in ts
    ensures !Shows(s, ts, s.tabRefs[t])
  {
    var ref := s.tabRefs[t];
    forall i: nat ensures !ShowsAt(s, ts, ref, i) {
      if i < |ts| {
        assert ts[i] != t;
        if ts[i] in s.tabRefs {
          assert s.issued[s.tabRefs[ts[i]]] == ts[i];
        } else {
          assert TabRef(s.nextTabNumber + |Unnamed(s, ts[..i])|) !in s.issued;
        }
      }
    }
  }
}
