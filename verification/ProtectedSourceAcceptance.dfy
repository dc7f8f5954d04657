/** When a protected source is authorized, checked and read, what is bound, and why it is refused otherwise, with every
    answer spelled out. */
module ProtectedSourceAcceptance {
  import opened Wrappers
  import opened Decimal
  import opened ProtectedSource

  predicate OwnSession(session: Session, s: Source, a: Answers) { !a.aborted && s.sessionId == session.key }

  predicate OwnTab(session: Session, s: Source) { s.tabRef.Some? ==> s.tabRef.value == session.tabRef }

  predicate OwnOrigin(s: Source, a: Answers)
    requires a.pageUrl.Some?
  {
    a.origin(a.pageUrl.value) == a.origin(s.expectedOrigin)
  }

  predicate OwnFrame(s: Source, a: Answers) { s.frameId.Some? ==> a.frameId == s.frameId }

  /** The call comes from the session, tab, origin and frame the source names. */
  predicate RightPage(session: Session, s: Source, a: Answers) {
    OwnSession(session, s, a) && OwnTab(session, s) && a.pageUrl.Some? && OwnOrigin(s, a) && OwnFrame(s, a)
  }

  predicate InPlace(i: Option<Inspection>) { i.Some? && i.value.connected && i.value.current }

  predicate Shows(i: Option<Inspection>) { InPlace(i) && i.value.visible && !i.value.empty }

  predicate Alike(a: Option<string>, b: Option<string>) { a == b || (a in {None, Some("")} && b in {None, Some("")}) }

  /** Sources that are filed together: all but the observation number agree, absent and empty tab or frame alike. */
  predicate FiledTogether(s: Source, t: Source) {
    && s.sessionId == t.sessionId && Alike(s.tabRef, t.tabRef) && s.ref == t.ref
    && s.identity.documentEpoch == t.identity.documentEpoch && s.identity.actionRevision == t.identity.actionRevision
    && s.expectedOrigin == t.expectedOrigin && Alike(s.frameId, t.frameId)
  }

  lemma FiledTogetherIff(s: Source, t: Source)
    ensures KeyOf(s) == KeyOf(t) <==> FiledTogether(s, t)
  {}

  /** A binding of the table. */
  predicate IsBound(st: State, b: Binding) { exists k :: k in st.bindings && st.bindings[k] == b }

  ghost predicate Taken(st: State, s: Source) { exists b :: IsBound(st, b) && FiledTogether(b.source, s) }

  lemma TakenIff(st: State, s: Source)
    requires Inv(st)
    ensures Taken(st, s) <==> KeyOf(s) in st.bindings
    ensures KeyOf(s) in st.bindings ==> IsBound(st, st.bindings[KeyOf(s)])
    ensures forall b :: IsBound(st, b) ==> KeyOf(b.source) in st.bindings && st.bindings[KeyOf(b.source)] == b
  {
    forall b | IsBound(st, b) ensures KeyOf(b.source) in st.bindings && st.bindings[KeyOf(b.source)] == b {
      FiledTogetherIff(b.source, s);
    }
    if KeyOf(s) in st.bindings { FiledTogetherIff(st.bindings[KeyOf(s)].source, s); }
  }

  /** `ref` names the `n`-th element, counted from one. */
  predicate NamesElement(ref: string, n: nat) {
    |ref| > 2 && ref[0] == '@' && ref[1] == 'e' && AllDigits(ref[2..]) && DigitsValue(ref[2..]) == n
    && 1 <= n <= 0x1F_FFFF_FFFF_FFFF
  }

  lemma RefIff(ref: string, n: nat)
    ensures NamesElement(ref, n) <==> n >= 1 && RefToIndex(ref) == Some(n - 1)
  {
    if |ref| > 2 { assert ref[..2] == [ref[0], ref[1]]; }
  }

  /** The conditions of an authorization, in the order they are looked at. */
  ghost predicate Authorizable(st: State, session: Session, s: Source, a: Answers) {
    && RightPage(session, s, a) && !Taken(st, s) && (exists n: nat :: NamesElement(s.ref, n))
    && a.documentResolves && a.objectResolves && Shows(a.inspection)
  }

  lemma RefNone(ref: string)
    ensures RefToIndex(ref).None? <==> !exists n: nat :: NamesElement(ref, n)
  {
    if RefToIndex(ref).Some? { RefIff(ref, RefToIndex(ref).value + 1); }
    forall n: nat | NamesElement(ref, n) ensures RefToIndex(ref).Some? { RefIff(ref, n); }
  }

  /** After every run, a source is authorized exactly on its own page, not while one filed like it is bound, when its ref
      names an element, both objects resolve and the element shows a value; it is then bound as it was given. */
  lemma AuthorizedIff(ops: seq<Op>, session: Session, s: Source, kind: string, a: Answers)
    ensures var st := Run(ops);
      var (r, result) := Authorize(st, session, s, kind, a);
      && (result.Ok? <==> Authorizable(st, session, s, a))
      && (result.Err? ==> r.bindings == st.bindings)
      && (result.Ok? ==> r.released == st.released && BoundAs(st, r, session, s, kind, a))
  {
    HandlesConserved(ops);
    TakenIff(Run(ops), s);
    RefNone(s.ref);
    if RefToIndex(s.ref).Some? { RefIff(s.ref, RefToIndex(s.ref).value + 1); }
    AuthorizeOutcome(Run(ops), session, s, kind, a);
  }

  /** The new binding holds what was authorized and two new handles; every other binding is as it was. */
  ghost predicate BoundAs(st: State, r: State, session: Session, s: Source, kind: string, a: Answers) {
    exists b :: IsBound(r, b) && b.source == s && b.kind == kind && b.supervisor == session.supervisor
      && a.inspection.Some? && b.fingerprint == a.inspection.value.fingerprint && NamesElement(s.ref, b.elementIndex + 1)
      && b.object_ >= st.nextHandle && b.document >= st.nextHandle
      && forall c :: IsBound(r, c) <==> c == b || IsBound(st, c)
  }

  lemma AuthorizeOutcome(st: State, session: Session, s: Source, kind: string, a: Answers)
    requires Inv(st)
    requires RefToIndex(s.ref).Some? ==> NamesElement(s.ref, RefToIndex(s.ref).value + 1)
    ensures var (r, result) := Authorize(st, session, s, kind, a);
      && (result.Ok? <==>
            && RightPage(session, s, a) && KeyOf(s) !in st.bindings && RefToIndex(s.ref).Some?
            && a.documentResolves && a.objectResolves && Shows(a.inspection))
      && (result.Err? ==> r.bindings == st.bindings)
      && (result.Ok? ==> r.released == st.released && BoundAs(st, r, session, s, kind, a))
  {
    var (r, result) := Authorize(st, session, s, kind, a);
    if result.Ok? {
      var key := KeyOf(s);
      var b := r.bindings[key];
      assert r.bindings == st.bindings[key := b];
      assert IsBound(r, b);
      forall c ensures IsBound(r, c) <==> c == b || IsBound(st, c) {
        if IsBound(st, c) {
          var k :| k in st.bindings && st.bindings[k] == c;
          assert k in r.bindings && r.bindings[k] == c;
        }
      }
    }
  }

  /** Nothing about an authorized source may have changed: its own page, the very source, kind and page object of a
      binding, the same document, and an element that shows the same value. */
  ghost predicate Unchanged(st: State, session: Session, s: Source, kind: string, a: Answers, b: Binding) {
    && RightPage(session, s, a)
    && IsBound(st, b) && b.source == s && b.kind == kind && b.supervisor == session.supervisor
    && a.documentCurrent == Some(true) && Shows(a.inspection) && a.inspection.value.fingerprint == b.fingerprint
  }

  lemma CheckedIff(ops: seq<Op>, session: Session, s: Source, kind: string, a: Answers)
    ensures Check(Run(ops), session, s, kind, a).Ok? <==> exists b :: Unchanged(Run(ops), session, s, kind, a, b)
  {
    HandlesConserved(ops);
    CheckOutcome(Run(ops), session, s, kind, a);
  }

  lemma CheckOutcome(st: State, session: Session, s: Source, kind: string, a: Answers)
    requires Inv(st)
    ensures Check(st, session, s, kind, a).Ok? <==>
      KeyOf(s) in st.bindings && Unchanged(st, session, s, kind, a, st.bindings[KeyOf(s)])
    ensures forall b :: Unchanged(st, session, s, kind, a, b) ==> KeyOf(s) in st.bindings && st.bindings[KeyOf(s)] == b
  {
    TakenIff(st, s);
  }

  /** A value is read exactly when nothing changed and a second look shows the same value and has it. */
  lemma ReadIff(ops: seq<Op>, session: Session, s: Source, kind: string, a: Answers, second: Option<Inspection>, v: string)
    ensures Read(Run(ops), session, s, kind, a, second) == Ok(v) <==>
      exists b :: && Unchanged(Run(ops), session, s, kind, a, b)
                  && Shows(second) && second.value.fingerprint == b.fingerprint && second.value.value == Some(v)
  {
    HandlesConserved(ops);
    CheckOutcome(Run(ops), session, s, kind, a);
    ReadOutcome(Run(ops), session, s, kind, a, second, v);
  }

  lemma ReadOutcome(st: State, session: Session, s: Source, kind: string, a: Answers, second: Option<Inspection>, v: string)
    ensures Read(st, session, s, kind, a, second) == Ok(v) <==>
      && Check(st, session, s, kind, a).Ok? && KeyOf(s) in st.bindings
      && Shows(second) && second.value.fingerprint == st.bindings[KeyOf(s)].fingerprint && second.value.value == Some(v)
  {}

  /** Why a delivery is refused: the first thing that is wrong, in this order. */
  lemma RefusedIff(ops: seq<Op>, session: Session, s: Source, kind: string, a: Answers)
    ensures var st, r := Run(ops), Check(Run(ops), session, s, kind, a);
      && (r == Err(SessionMismatch) <==> !OwnSession(session, s, a))
      && (r == Err(TabMismatch) <==> OwnSession(session, s, a) && !OwnTab(session, s))
      && (r == Err(SnapshotThrew) <==> OwnSession(session, s, a) && OwnTab(session, s) && a.pageUrl.None?)
      && (r == Err(OriginMismatch) <==>
            OwnSession(session, s, a) && OwnTab(session, s) && a.pageUrl.Some? && !OwnOrigin(s, a))
      && (r == Err(FrameMismatch) <==>
            OwnSession(session, s, a) && OwnTab(session, s) && a.pageUrl.Some? && OwnOrigin(s, a) && !OwnFrame(s, a))
      && (r == Err(RequestNotActive) <==> RightPage(session, s, a) && !exists b :: Owned(st, session, s, kind, b))
      && (r == Err(SourceReplaced) <==>
            RightPage(session, s, a) && exists b :: Owned(st, session, s, kind, b) && !StillThere(a, b))
      && (r == Err(SourceHidden) <==>
            && RightPage(session, s, a) && (exists b :: Owned(st, session, s, kind, b))
            && a.documentCurrent == Some(true) && InPlace(a.inspection) && !a.inspection.value.visible)
      && (r == Err(SourceEmpty) <==>
            && RightPage(session, s, a) && (exists b :: Owned(st, session, s, kind, b))
            && a.documentCurrent == Some(true) && InPlace(a.inspection)
            && a.inspection.value.visible && a.inspection.value.empty)
  {
    HandlesConserved(ops);
    OwnedIs(Run(ops), session, s, kind);
    CheckReasons(Run(ops), session, s, kind, a);
  }

  predicate Owned(st: State, session: Session, s: Source, kind: string, b: Binding) {
    IsBound(st, b) && b.source == s && b.kind == kind && b.supervisor == session.supervisor
  }

  /** The document and element are the bound ones, and a value that is shown is the bound one. */
  predicate StillThere(a: Answers, b: Binding) {
    && a.documentCurrent == Some(true) && InPlace(a.inspection)
    && (a.inspection.value.visible && !a.inspection.value.empty ==> a.inspection.value.fingerprint == b.fingerprint)
  }

  lemma OwnedIs(st: State, session: Session, s: Source, kind: string)
    requires Inv(st)
    ensures forall b :: Owned(st, session, s, kind, b) <==>
      && KeyOf(s) in st.bindings && st.bindings[KeyOf(s)] == b
      && b.source == s && b.kind == kind && b.supervisor == session.supervisor
  {
    TakenIff(st, s);
  }

  lemma CheckReasons(st: State, session: Session, s: Source, kind: string, a: Answers)
    ensures var r := Check(st, session, s, kind, a);
      && (!RightPage(session, s, a) ==> r == Err(if !OwnSession(session, s, a) then SessionMismatch
            else if !OwnTab(session, s) then TabMismatch else if a.pageUrl.None? then SnapshotThrew
            else if !OwnOrigin(s, a) then OriginMismatch else FrameMismatch))
      && (RightPage(session, s, a) ==>
            if KeyOf(s) !in st.bindings then r == Err(RequestNotActive)
            else
              var b := st.bindings[KeyOf(s)];
              if b.kind != kind || b.supervisor != session.supervisor || b.source != s then r == Err(RequestNotActive)
              else if !StillThere(a, b) then r == Err(SourceReplaced)
              else if !a.inspection.value.visible then r == Err(SourceHidden)
              else if a.inspection.value.empty then r == Err(SourceEmpty)
              else r.Ok?)
  {}

  /** Why an authorization is refused on its own page. */
  lemma NotAuthorizedIff(ops: seq<Op>, session: Session, s: Source, kind: string, a: Answers)
    requires RightPage(session, s, a)
    ensures var st, r := Run(ops), Authorize(Run(ops), session, s, kind, a).1;
      var found := (exists n: nat :: NamesElement(s.ref, n)) && a.documentResolves && a.objectResolves && InPlace(a.inspection);
      && (r == Err(RequestNotActive) <==> Taken(st, s))
      && (r == Err(SourceMissing) <==> !Taken(st, s) && !found)
      && (r == Err(SourceHidden) <==> !Taken(st, s) && found && !a.inspection.value.visible)
      && (r == Err(SourceEmpty) <==> !Taken(st, s) && found && a.inspection.value.visible && a.inspection.value.empty)
  {
    HandlesConserved(ops);
    TakenIff(Run(ops), s);
    RefNone(s.ref);
  }
}
