/** The tabs of one controlled browser session: which target is driven, through which attachment, and which tab
    references were ever given out. What the browser answers is an input of each operation. */
module TabSession {
  import opened Wrappers
  import opened Decimal

  type TargetId(==, !new) = string

  /** Attachments are numbered in the order the session obtained them. */
  datatype Attachment = Attachment(id: nat, target: TargetId)

  datatype Tab = Tab(target: TargetId, ref: string, controlled: bool)

  /** `issued`, `obtained` and `closed` are the record of the past: every reference ever given out, every attachment
      ever obtained, and those whose close call returned. */
  datatype Session = Session(
    owner: TargetId,
    targetId: TargetId,
    tabRef: string,
    active: Option<Attachment>,
    retired: seq<Attachment>,
    tabRefs: map<TargetId, string>,
    nextTabNumber: nat,
    issued: map<string, TargetId>,
    obtained: seq<Attachment>,
    closed: set<nat>)

  datatype Failure = NotSupported | InvalidRef | ListingFailed | TabMissing | SwitchFailed | CreateFailed | OpenFailed

  datatype Listing = ListingUnsupported | ListingThrows | Targets(targets: seq<TargetId>)

  /** `attaches`, `activates`: the call returned. `closesNext`, `closesPrevious`: so did closing that attachment. */
  datatype SwitchAnswers = SwitchAnswers(supported: bool, listing: Listing, attaches: bool, activates: bool,
                                         closesNext: bool, closesPrevious: bool)

  datatype Creation = CreationUnsupported | CreationThrows | Created(target: TargetId)

  function TabRef(n: nat): string { "@t" + Print(n) }

  predicate IsTabRef(ref: string) {
    |ref| >= 3 && ref[..2] == "@t" && '1' <= ref[2] <= '9' && AllDigits(ref[3..])
  }

  function Fresh(owner: TargetId): Session {
    Session(owner, owner, TabRef(1), None, [], map[owner := TabRef(1)], 2, map[TabRef(1) := owner], [], {})
  }

  /** The reference of a target: the one it has, or the next unused one. */
  function Named(s: Session, t: TargetId): Session {
    if t in s.tabRefs then s
    else s.(tabRefs := s.tabRefs[t := TabRef(s.nextTabNumber)],
            nextTabNumber := s.nextTabNumber + 1,
            issued := s.issued[TabRef(s.nextTabNumber) := t])
  }

  function NamedAll(s: Session, ts: seq<TargetId>): (r: Session)
    ensures r == s.(tabRefs := r.tabRefs, nextTabNumber := r.nextTabNumber, issued := r.issued)
    ensures forall t :: t in s.tabRefs || t in ts ==> t in r.tabRefs
  {
    if ts == [] then s else Named(NamedAll(s, ts[..|ts| - 1]), ts[|ts| - 1])
  }

  /** References of targets that are gone are forgotten; the owner's is kept. */
  function Swept(s: Session, ts: seq<TargetId>): Session {
    s.(tabRefs := map t | t in s.tabRefs && (t in ts || t == s.owner) :: s.tabRefs[t])
  }

  function Listed(s: Session, ts: seq<TargetId>): Session { NamedAll(Swept(s, ts), ts) }

  function Tabs(s: Session, ts: seq<TargetId>): (r: seq<Tab>)
    requires forall t :: t in ts ==> t in s.tabRefs
    ensures |r| == |ts|
    ensures forall i :: 0 <= i < |ts| ==> r[i] == Tab(ts[i], s.tabRefs[ts[i]], ts[i] == s.targetId)
  {
    seq(|ts|, i requires 0 <= i < |ts| => Tab(ts[i], s.tabRefs[ts[i]], ts[i] == s.targetId))
  }

  function ListTabs(s: Session, listing: Listing): (Session, Result<seq<Tab>, Failure>) {
    match listing
    case ListingUnsupported => (s, Err(NotSupported))
    case ListingThrows => (s, Err(ListingFailed))
    case Targets(ts) => (Listed(s, ts), Ok(Tabs(Listed(s, ts), ts)))
  }

  function FindTab(tabs: seq<Tab>, ref: string): Option<Tab> {
    if tabs == [] then None else if tabs[0].ref == ref then Some(tabs[0]) else FindTab(tabs[1..], ref)
  }

  /** Closing succeeds, or the attachment is kept for a later attempt. */
  function Dropped(s: Session, a: Attachment, closes: bool): Session {
    if closes then s.(closed := s.closed + {a.id}) else s.(retired := s.retired + [a])
  }

  function Obtained(s: Session, t: TargetId): (Session, Attachment) {
    var a := Attachment(|s.obtained|, t);
    (s.(obtained := s.obtained + [a]), a)
  }

  /** The new tab takes over before the previous attachment is closed. */
  function Controlled(s: Session, t: TargetId, ref: string, next: Option<Attachment>, closesPrevious: bool): Session {
    var taken := s.(active := next, targetId := t, tabRef := ref);
    if s.active.Some? then Dropped(taken, s.active.value, closesPrevious) else taken
  }

  function SwitchTo(s: Session, t: TargetId, ref: string, a: SwitchAnswers): (Session, Result<(), Failure>) {
    if t == s.targetId then (s, if a.activates then Ok(()) else Err(SwitchFailed))
    else if t == s.owner then
      if a.activates then (Controlled(s, t, ref, None, a.closesPrevious), Ok(())) else (s, Err(SwitchFailed))
    else if !a.attaches then (s, Err(SwitchFailed))
    else
      var (s', next) := Obtained(s, t);
      if a.activates then (Controlled(s', t, ref, Some(next), a.closesPrevious), Ok(()))
      else (Dropped(s', next, a.closesNext), Err(SwitchFailed))
  }

  function SwitchTab(s: Session, ref: string, a: SwitchAnswers): (Session, Result<(), Failure>) {
    if !a.supported then (s, Err(NotSupported))
    else if !IsTabRef(ref) then (s, Err(InvalidRef))
    else
      var (s', tabs) := ListTabs(s, a.listing);
      if tabs.Err? then (s', Err(tabs.error))
      else
        var found := FindTab(tabs.value, ref);
        if found.None? then (s', Err(TabMissing)) else SwitchTo(s', found.value.target, ref, a)
  }

  function OpenTab(s: Session, create: Creation, a: SwitchAnswers): (Session, Result<(), Failure>) {
    match create
    case CreationUnsupported => (s, Err(NotSupported))
    case CreationThrows => (s, Err(CreateFailed))
    case Created(t) =>
      var (s', r) := SwitchTab(Named(s, t), Named(s, t).tabRefs[t], a);
      if r.Ok? then (s', Ok(())) else (s'.(tabRefs := s'.tabRefs - {t}), Err(OpenFailed))
  }

  // ---------------------------------------------------------------- what holds at every moment

  /** Whatever carries a reference carries the target it was issued for, and the next number is unused. */
  ghost predicate RefsOk(s: Session) {
    && (forall t :: t in s.tabRefs ==> s.tabRefs[t] in s.issued && s.issued[s.tabRefs[t]] == t)
    && (forall n: nat :: n >= s.nextTabNumber ==> TabRef(n) !in s.issued)
    && s.tabRef in s.issued && s.issued[s.tabRef] == s.targetId
  }

  predicate IsActive(s: Session, a: Attachment) { s.active == Some(a) }

  /** Each attachment obtained is exactly one of active, retired and closed. */
  ghost predicate AttachmentsOk(s: Session) {
    && (forall i :: 0 <= i < |s.obtained| ==> s.obtained[i].id == i)
    && (forall i :: 0 <= i < |s.obtained| ==> Places(s, s.obtained[i]) == 1)
    && (s.active.Some? ==> s.active.value in s.obtained)
    && (forall a :: a in s.retired ==> a in s.obtained)
    && (forall i :: i in s.closed ==> i < |s.obtained|)
    && NoDuplicates(s.retired)
  }

  function Places(s: Session, a: Attachment): nat {
    (if IsActive(s, a) then 1 else 0) + (if a in s.retired then 1 else 0) + (if a.id in s.closed then 1 else 0)
  }

  /** The owner target is driven directly, every other target through an attachment to it. */
  predicate ControlOk(s: Session) {
    && (s.active.None? <==> s.targetId == s.owner)
    && (s.active.Some? ==> s.active.value.target == s.targetId)
  }

  ghost predicate Inv(s: Session) { RefsOk(s) && AttachmentsOk(s) && ControlOk(s) }

  lemma FreshOk(owner: TargetId)
    ensures Inv(Fresh(owner))
  {
    forall n: nat | n >= 2 ensures TabRef(n) !in Fresh(owner).issued { TabRefsDiffer(1, n); }
  }

  lemma TabRefsDiffer(m: nat, n: nat)
    ensures TabRef(m) == TabRef(n) ==> m == n
  {
    PrintIsInjective(m, n);
    assert TabRef(m)[2..] == Print(m) && TabRef(n)[2..] == Print(n);
  }

  lemma TabRefIsTabRef(n: nat)
    requires n > 0
    ensures IsTabRef(TabRef(n))
  {
    PrintParses(n);
    var p := Print(n);
    assert TabRef(n)[..2] == "@t" && TabRef(n)[2] == p[0] && TabRef(n)[3..] == p[1..];
    assert p[0] in p;
    assert IsDigit(p[0]);
  }

  lemma NamedKeeps(s: Session, t: TargetId)
    requires Inv(s)
    ensures Inv(Named(s, t)) && Remembers(s, Named(s, t))
    ensures t in Named(s, t).tabRefs
  {
    if t !in s.tabRefs {
      var r := Named(s, t);
      forall n: nat | n >= r.nextTabNumber ensures TabRef(n) !in r.issued { TabRefsDiffer(s.nextTabNumber, n); }
      SamePlaces(s, r);
    }
  }

  lemma SamePlaces(s: Session, r: Session)
    requires AttachmentsOk(s)
    requires r.active == s.active && r.retired == s.retired && r.obtained == s.obtained && r.closed == s.closed
    ensures AttachmentsOk(r)
  {
    forall i | 0 <= i < |s.obtained| ensures Places(r, r.obtained[i]) == 1 {
      assert Places(r, r.obtained[i]) == Places(s, s.obtained[i]);
    }
  }

  /** Nothing issued is reissued or forgotten, and nothing obtained disappears. */
  ghost predicate Remembers(s: Session, r: Session) {
    && r.owner == s.owner
    && (forall ref :: ref in s.issued ==> ref in r.issued && r.issued[ref] == s.issued[ref])
    && s.obtained <= r.obtained && s.closed <= r.closed && s.nextTabNumber <= r.nextTabNumber
  }

  lemma {:induction false} NamedAllKeeps(s: Session, ts: seq<TargetId>)
    requires Inv(s)
    ensures Inv(NamedAll(s, ts)) && Remembers(s, NamedAll(s, ts))
    ensures forall t :: t in s.tabRefs ==> NamedAll(s, ts).tabRefs[t] == s.tabRefs[t]
  {
    if ts != [] {
      NamedAllKeeps(s, ts[..|ts| - 1]);
      NamedKeeps(NamedAll(s, ts[..|ts| - 1]), ts[|ts| - 1]);
    }
  }

  lemma ListedKeeps(s: Session, ts: seq<TargetId>)
    requires Inv(s)
    ensures Inv(Listed(s, ts)) && Remembers(s, Listed(s, ts))
    ensures forall t :: t in s.tabRefs && t in ts ==> Listed(s, ts).tabRefs[t] == s.tabRefs[t]
    ensures Listed(s, ts).targetId == s.targetId && Listed(s, ts).active == s.active && Listed(s, ts).tabRef == s.tabRef
  {
    SamePlaces(s, Swept(s, ts));
    assert Inv(Swept(s, ts));
    NamedAllKeeps(Swept(s, ts), ts);
  }

  /** What a listing shows is issued, so a tab keeps meaning the same target. */
  lemma TabsAreIssued(s: Session, ts: seq<TargetId>)
    requires Inv(s)
    ensures forall i :: 0 <= i < |ts| ==>
      var tab := Tabs(Listed(s, ts), ts)[i];
      tab.ref in Listed(s, ts).issued && Listed(s, ts).issued[tab.ref] == tab.target
  {
    ListedKeeps(s, ts);
    forall i | 0 <= i < |ts|
      ensures var tab := Tabs(Listed(s, ts), ts)[i];
        tab.ref in Listed(s, ts).issued && Listed(s, ts).issued[tab.ref] == tab.target
    {
      assert ts[i] in ts;
    }
  }

  lemma {:induction false} FindTabFinds(tabs: seq<Tab>, ref: string)
    ensures FindTab(tabs, ref).Some? <==> exists i :: 0 <= i < |tabs| && tabs[i].ref == ref
    ensures FindTab(tabs, ref).Some? ==> FindTab(tabs, ref).value in tabs && FindTab(tabs, ref).value.ref == ref
  {
    if tabs != [] {
      FindTabFinds(tabs[1..], ref);
      if i :| 0 <= i < |tabs| && tabs[i].ref == ref && i > 0 { assert tabs[1..][i - 1].ref == ref; }
    }
  }

  lemma DroppedKeeps(s: Session, a: Attachment, closes: bool)
    requires forall i :: 0 <= i < |s.obtained| ==> s.obtained[i].id == i
    requires a in s.obtained && Places(s, a) == 0
    requires forall i :: 0 <= i < |s.obtained| && s.obtained[i] != a ==> Places(s, s.obtained[i]) == 1
    requires s.active.Some? ==> s.active.value in s.obtained
    requires (forall b :: b in s.retired ==> b in s.obtained) && NoDuplicates(s.retired)
    requires forall i :: i in s.closed ==> i < |s.obtained|
    ensures AttachmentsOk(Dropped(s, a, closes))
  {
    var r := Dropped(s, a, closes);
    forall i | 0 <= i < |r.obtained| ensures Places(r, r.obtained[i]) == 1 {
      var b := s.obtained[i];
      if b != a {
        assert Places(s, b) == 1;
        assert b.id == i && a.id != i;
      }
    }
  }

  /** The previous attachment leaves its place, the next one takes it. */
  lemma ControlledKeeps(s: Session, t: TargetId, ref: string, next: Option<Attachment>, closes: bool)
    requires RefsOk(s) && ControlOk(s)
    requires forall i :: 0 <= i < |s.obtained| ==> s.obtained[i].id == i
    requires forall i :: 0 <= i < |s.obtained| ==> Places(s, s.obtained[i]) == if next == Some(s.obtained[i]) then 0 else 1
    requires s.active.Some? ==> s.active.value in s.obtained
    requires (forall b :: b in s.retired ==> b in s.obtained) && NoDuplicates(s.retired)
    requires forall i :: i in s.closed ==> i < |s.obtained|
    requires ref in s.issued && s.issued[ref] == t
    requires next.None? <==> t == s.owner
    requires next.Some? ==> next.value in s.obtained && next.value.target == t
    ensures Inv(Controlled(s, t, ref, next, closes)) && Remembers(s, Controlled(s, t, ref, next, closes))
  {
    var taken := s.(active := next, targetId := t, tabRef := ref);
    forall i | 0 <= i < |s.obtained|
      ensures Places(taken, s.obtained[i]) == if s.active == Some(s.obtained[i]) then 0 else 1
    {
      assert Places(s, s.obtained[i]) == if next == Some(s.obtained[i]) then 0 else 1;
    }
    if s.active.Some? {
      DroppedKeeps(taken, s.active.value, closes);
    }
  }

  lemma SwitchToKeeps(s: Session, t: TargetId, ref: string, a: SwitchAnswers)
    requires Inv(s) && ref in s.issued && s.issued[ref] == t
    ensures var (r, result) := SwitchTo(s, t, ref, a);
      && Inv(r) && Remembers(s, r)
      && (result.Ok? ==> r.targetId == t && (t != s.targetId ==> r.tabRef == ref))
      && (result.Err? ==> r.targetId == s.targetId && r.active == s.active && r.tabRef == s.tabRef)
  {
    if t != s.targetId {
      if t == s.owner {
        if a.activates { ControlledKeeps(s, t, ref, None, a.closesPrevious); }
      } else if a.attaches {
        var (s', next) := Obtained(s, t);
        forall i | 0 <= i < |s'.obtained| && s'.obtained[i] != next ensures Places(s', s'.obtained[i]) == 1 {
          assert Places(s', s.obtained[i]) == Places(s, s.obtained[i]);
        }
        assert s'.obtained[|s.obtained|] == next;
        if a.activates {
          ControlledKeeps(s', t, ref, Some(next), a.closesPrevious);
        } else {
          DroppedKeeps(s', next, a.closesNext);
        }
      }
    }
  }

  lemma SwitchTabKeeps(s: Session, ref: string, a: SwitchAnswers)
    requires Inv(s)
    ensures var (r, result) := SwitchTab(s, ref, a);
      && Inv(r) && Remembers(s, r)
      && (result.Ok? ==> ref in r.issued && r.issued[ref] == r.targetId)
      && (result.Err? ==> r.targetId == s.targetId && r.active == s.active && r.tabRef == s.tabRef)
  {
    if a.supported && IsTabRef(ref) && a.listing.Targets? {
      var ts := a.listing.targets;
      ListedKeeps(s, ts);
      TabsAreIssued(s, ts);
      FindTabFinds(Tabs(Listed(s, ts), ts), ref);
      var found := FindTab(Tabs(Listed(s, ts), ts), ref);
      if found.Some? { SwitchToKeeps(Listed(s, ts), found.value.target, ref, a); }
    }
  }

  lemma OpenTabKeeps(s: Session, create: Creation, a: SwitchAnswers)
    requires Inv(s)
    ensures var (r, result) := OpenTab(s, create, a);
      && Inv(r) && Remembers(s, r)
      && (result.Ok? ==> r.targetId == create.target)
      && (result.Err? ==> r.targetId == s.targetId && r.active == s.active && r.tabRef == s.tabRef)
  {
    if create.Created? {
      var t := create.target;
      NamedKeeps(s, t);
      var s1 := Named(s, t);
      SwitchTabKeeps(s1, s1.tabRefs[t], a);
      var (s2, result) := SwitchTab(s1, s1.tabRefs[t], a);
      if result.Err? { SamePlaces(s2, s2.(tabRefs := s2.tabRefs - {t})); }
    }
  }
}
