/** Reading one protected value out of a page: bindings made when the transfer is authorized, checked again and read
    when it is delivered, and released afterwards. Page answers are inputs. */
module ProtectedSource {
  import opened Wrappers
  import opened Decimal
  import opened BrowserTypes

  type Handle = nat

  datatype Source = Source(sessionId: string, ref: string, identity: Identity, expectedOrigin: string,
                           tabRef: Option<string>, frameId: Option<string>)

  /** The text a binding is filed under; an absent tab or frame counts as the empty one. */
  datatype Key = Key(sessionId: string, tabRef: string, ref: string, documentEpoch: int, actionRevision: int,
                     origin: string, frameId: string)

  datatype Session = Session(key: string, tabRef: string, supervisor: nat)

  datatype Inspection = Inspection(connected: bool, current: bool, visible: bool, empty: bool, fingerprint: string,
                                   value: Option<string>)

  datatype Binding = Binding(source: Source, kind: string, supervisor: nat, object_: Handle, document: Handle,
                             elementIndex: nat, fingerprint: string)

  datatype Rejection = SessionMismatch | TabMismatch | OriginMismatch | FrameMismatch | SourceMissing | SourceReplaced
                     | SourceHidden | SourceEmpty | RequestNotActive | SnapshotThrew

  /** `pageUrl` is None when the snapshot threw. `origin` is the platform's URL parser. `documentResolves` and
      `objectResolves`: the page had the object; each one found is a new remote handle. */
  datatype Answers = Answers(aborted: bool, pageUrl: Option<string>, origin: string -> string, frameId: Option<string>,
                             documentResolves: bool, objectResolves: bool, documentCurrent: Option<bool>,
                             inspection: Option<Inspection>)

  datatype State = State(bindings: map<Key, Binding>, nextHandle: Handle, released: seq<Handle>)

  const Initial := State(map[], 0, [])

  function OrEmpty(s: Option<string>): string { if s.None? then "" else s.value }

  function KeyOf(s: Source): Key {
    Key(s.sessionId, OrEmpty(s.tabRef), s.ref, s.identity.documentEpoch, s.identity.actionRevision, s.expectedOrigin,
        OrEmpty(s.frameId))
  }

  /** "@e1" names element 0; zeros in front are allowed, an index past the safe integers is not. */
  function RefToIndex(ref: string): Option<nat> {
    if |ref| >= 3 && ref[..2] == "@e" && AllDigits(ref[2..]) && 0 < DigitsValue(ref[2..]) < 0x20_0000_0000_0000
    then Some(DigitsValue(ref[2..]) - 1) else None
  }

  function Inspected(i: Option<Inspection>, existing: bool): Option<Rejection> {
    if i.None? || !i.value.connected || !i.value.current then Some(if existing then SourceReplaced else SourceMissing)
    else if !i.value.visible then Some(SourceHidden)
    else if i.value.empty then Some(SourceEmpty)
    else None
  }

  /** The checks both phases start with. */
  function Context(session: Session, s: Source, a: Answers): Option<Rejection> {
    if a.aborted || s.sessionId != session.key then Some(SessionMismatch)
    else if s.tabRef.Some? && s.tabRef.value != session.tabRef then Some(TabMismatch)
    else if a.pageUrl.None? then Some(SnapshotThrew)
    else if a.origin(a.pageUrl.value) != a.origin(s.expectedOrigin) then Some(OriginMismatch)
    else if s.frameId.Some? && a.frameId != s.frameId then Some(FrameMismatch)
    else None
  }

  function Release(st: State, hs: seq<Handle>): State { st.(released := st.released + hs) }

  function Acquire(st: State, n: nat): State { st.(nextHandle := st.nextHandle + n) }

  /** Authorization: the document is resolved before the element, and what is not bound is released again. */
  function Authorize(st: State, session: Session, s: Source, kind: string, a: Answers): (State, Result<(), Rejection>) {
    var context := Context(session, s, a);
    if context.Some? then (st, Err(context.value))
    else if KeyOf(s) in st.bindings then (st, Err(RequestNotActive))
    else if RefToIndex(s.ref).None? then (st, Err(SourceMissing))
    else if !a.documentResolves && !a.objectResolves then (st, Err(SourceMissing))
    else if !a.documentResolves || !a.objectResolves then
      (Release(Acquire(st, 1), [st.nextHandle]), Err(SourceMissing))
    else
      var document, object_ := st.nextHandle, st.nextHandle + 1;
      var held := Acquire(st, 2);
      var rejection := Inspected(a.inspection, false);
      if rejection.Some? then (Release(held, [object_, document]), Err(rejection.value))
      else
        var b := Binding(s, kind, session.supervisor, object_, document, RefToIndex(s.ref).value,
                         a.inspection.value.fingerprint);
        (held.(bindings := st.bindings[KeyOf(s) := b]), Ok(()))
  }

  /** Delivery: nothing may have changed since the authorization. */
  function Check(st: State, session: Session, s: Source, kind: string, a: Answers): Result<(), Rejection> {
    var context := Context(session, s, a);
    if context.Some? then Err(context.value)
    else if KeyOf(s) !in st.bindings then Err(RequestNotActive)
    else
      var b := st.bindings[KeyOf(s)];
      if b.kind != kind || b.supervisor != session.supervisor || b.source != s then Err(RequestNotActive)
      else if a.documentCurrent != Some(true) then Err(SourceReplaced)
      else
        var rejection := Inspected(a.inspection, true);
        if rejection.Some? then Err(rejection.value)
        else if a.inspection.value.fingerprint != b.fingerprint then Err(SourceReplaced)
        else Ok(())
  }

  /** The value is read by a second inspection, which must agree with the authorization once more. */
  function Read(st: State, session: Session, s: Source, kind: string, a: Answers, second: Option<Inspection>)
    : Result<string, Rejection>
  {
    var checked := Check(st, session, s, kind, a);
    if checked.Err? then Err(checked.error)
    else
      var rejection := Inspected(second, true);
      if rejection.Some? then Err(rejection.value)
      else if second.value.fingerprint != st.bindings[KeyOf(s)].fingerprint then Err(SourceReplaced)
      else if second.value.value.None? then Err(SourceEmpty)
      else Ok(second.value.value.value)
  }

  function ReleaseBinding(st: State, s: Source): State {
    if KeyOf(s) !in st.bindings then st
    else
      var b := st.bindings[KeyOf(s)];
      Release(st.(bindings := st.bindings - {KeyOf(s)}), [b.object_, b.document])
  }

  datatype Op =
    | DoAuthorize(session: Session, source: Source, kind: string, answers: Answers)
    | DoCheck(session: Session, source: Source, kind: string, answers: Answers)
    | DoRead(session: Session, source: Source, kind: string, answers: Answers, second: Option<Inspection>)
    | DoRelease(source: Source)

  function Step(st: State, op: Op): State {
    match op
    case DoAuthorize(session, s, kind, a) => Authorize(st, session, s, kind, a).0
    case DoCheck(_, _, _, _) => st
    case DoRead(_, _, _, _, _) => st
    case DoRelease(s) => ReleaseBinding(st, s)
  }

  function Run(ops: seq<Op>): State {
    if ops == [] then Initial else Step(Run(ops[..|ops| - 1]), ops[|ops| - 1])
  }

  // ---------------------------------------------------------------- handles

  predicate Holds(b: Binding, h: Handle) { b.object_ == h || b.document == h }

  predicate HeldAt(st: State, k: Key, h: Handle) { k in st.bindings && Holds(st.bindings[k], h) }

  /** Every handle ever acquired is released once, or held by one binding and in one place: exactly one of the two. */
  ghost predicate Inv(st: State) {
    && NoDuplicates(st.released)
    && (forall h: Handle :: h in st.released ==> h < st.nextHandle)
    && (forall k, h: Handle :: HeldAt(st, k, h) ==> h < st.nextHandle && h !in st.released)
    && (forall k, l, h: Handle :: HeldAt(st, k, h) && HeldAt(st, l, h) ==> k == l)
    && (forall k :: k in st.bindings ==> st.bindings[k].object_ != st.bindings[k].document && KeyOf(st.bindings[k].source) == k)
    && (forall h: Handle :: h < st.nextHandle ==> h in st.released || exists k :: HeldAt(st, k, h))
  }

  lemma ReleasesMore(released: seq<Handle>, hs: seq<Handle>)
    requires NoDuplicates(released) && NoDuplicates(hs) && forall h: Handle :: h in hs ==> h !in released
    ensures NoDuplicates(released + hs)
  {
    forall i, j | 0 <= i < |released| && 0 <= j < |hs| ensures released[i] != hs[j] {
      assert released[i] in released && hs[j] in hs;
    }
  }

  /** New handles that are given back at once. */
  lemma DiscardKeeps(st: State, n: nat, hs: seq<Handle>)
    requires Inv(st) && NoDuplicates(hs) && forall h: Handle :: h in hs <==> st.nextHandle <= h < st.nextHandle + n
    ensures Inv(Release(Acquire(st, n), hs))
  {
    var r := Release(Acquire(st, n), hs);
    ReleasesMore(st.released, hs);
    forall k, h: Handle ensures HeldAt(r, k, h) <==> HeldAt(st, k, h) {}
    forall h: Handle | h < r.nextHandle ensures h in r.released || exists k :: HeldAt(r, k, h) {
      if h < st.nextHandle && h !in st.released {
        var k :| HeldAt(st, k, h);
        assert HeldAt(r, k, h);
      }
    }
  }

  /** Two new handles that a new binding holds. */
  lemma BindKeeps(st: State, b: Binding)
    requires Inv(st) && KeyOf(b.source) !in st.bindings
    requires b.document == st.nextHandle && b.object_ == st.nextHandle + 1
    ensures Inv(Acquire(st, 2).(bindings := st.bindings[KeyOf(b.source) := b]))
  {
    var key := KeyOf(b.source);
    var r := Acquire(st, 2).(bindings := st.bindings[key := b]);
    forall k, h: Handle ensures HeldAt(r, k, h) <==> if k == key then Holds(b, h) else HeldAt(st, k, h) {}
    forall h: Handle | h < r.nextHandle ensures h in r.released || exists k :: HeldAt(r, k, h) {
      if h >= st.nextHandle {
        assert HeldAt(r, key, h);
      } else if h !in st.released {
        var k :| HeldAt(st, k, h);
        assert HeldAt(r, k, h);
      }
    }
  }

  lemma AuthorizeKeeps(st: State, session: Session, s: Source, kind: string, a: Answers)
    requires Inv(st)
    ensures Inv(Authorize(st, session, s, kind, a).0)
  {
    var r := Authorize(st, session, s, kind, a).0;
    if r.bindings != st.bindings {
      BindKeeps(st, r.bindings[KeyOf(s)]);
    } else if r.nextHandle == st.nextHandle + 1 {
      DiscardKeeps(st, 1, [st.nextHandle]);
    } else if r.nextHandle == st.nextHandle + 2 {
      DiscardKeeps(st, 2, [st.nextHandle + 1, st.nextHandle]);
    }
  }

  lemma ReleaseKeeps(st: State, s: Source)
    requires Inv(st)
    ensures Inv(ReleaseBinding(st, s))
  {
    var key, r := KeyOf(s), ReleaseBinding(st, s);
    if key in st.bindings {
      var b := st.bindings[key];
      assert HeldAt(st, key, b.object_) && HeldAt(st, key, b.document);
      assert r.released[|st.released|] == b.object_ && r.released[|st.released| + 1] == b.document;
      forall k, h: Handle | HeldAt(r, k, h) ensures HeldAt(st, k, h) && k != key && !Holds(b, h) {
        assert HeldAt(st, k, h);
        assert Holds(b, h) ==> HeldAt(st, key, h);
      }
      ReleasesMore(st.released, [b.object_, b.document]);
      forall h: Handle | h < r.nextHandle ensures h in r.released || exists k :: HeldAt(r, k, h) {
        if h !in st.released {
          var k :| HeldAt(st, k, h);
          if k != key { assert HeldAt(r, k, h); }
        }
      }
    }
  }

  lemma {:induction false} HandlesConserved(ops: seq<Op>)
    ensures Inv(Run(ops))
  {
    if ops != [] {
      var st, op := Run(ops[..|ops| - 1]), ops[|ops| - 1];
      HandlesConserved(ops[..|ops| - 1]);
      match op
      case DoAuthorize(session, s, kind, a) => AuthorizeKeeps(st, session, s, kind, a);
      case DoCheck(_, _, _, _) =>
      case DoRead(_, _, _, _, _) =>
      case DoRelease(s) => ReleaseKeeps(st, s);
    }
  }

  /** Releasing a source gives back both of its handles, once, and a second release gives back nothing. */
  lemma ReleaseIsOnce(ops: seq<Op>, s: Source)
    requires KeyOf(s) in Run(ops).bindings
    ensures var st, r := Run(ops), ReleaseBinding(Run(ops), s);
      var b := st.bindings[KeyOf(s)];
      && b.object_ !in st.released && b.document !in st.released && r.released == st.released + [b.object_, b.document]
      && ReleaseBinding(r, s) == r
  {
    HandlesConserved(ops);
    var st := Run(ops);
    var b := st.bindings[KeyOf(s)];
    assert HeldAt(st, KeyOf(s), b.object_) && HeldAt(st, KeyOf(s), b.document);
  }

  // ---------------------------------------------------------------- what a read returns

  predicate Authorizes(st: State, op: Op, b: Binding) {
    && op.DoAuthorize? && op.source == b.source && op.kind == b.kind && op.session.supervisor == b.supervisor
    && op.answers.inspection.Some? && op.answers.inspection.value.fingerprint == b.fingerprint
    && Authorize(st, op.session, op.source, op.kind, op.answers).1.Ok?
  }

  ghost predicate AuthorizedAt(ops: seq<Op>, b: Binding, i: nat) {
    && i < |ops| && Authorizes(Run(ops[..i]), ops[i], b)
    && forall j :: i < j < |ops| && ops[j].DoRelease? ==> KeyOf(ops[j].source) != KeyOf(b.source)
  }

  /** Every binding goes back to one authorization that nothing released since. */
  lemma {:induction false} BindingWasAuthorized(ops: seq<Op>, k: Key)
    requires k in Run(ops).bindings
    ensures exists i: nat :: AuthorizedAt(ops, Run(ops).bindings[k], i)
  {
    var n := |ops| - 1;
    var st, op := Run(ops[..n]), ops[n];
    HandlesConserved(ops);
    var b := Run(ops).bindings[k];
    if k in st.bindings && st.bindings[k] == b {
      BindingWasAuthorized(ops[..n], k);
      var i: nat :| AuthorizedAt(ops[..n], b, i);
      assert ops[..n][..i] == ops[..i];
      assert AuthorizedAt(ops, b, i) by {
        assert Authorizes(Run(ops[..i]), ops[i], b);
        forall j | i < j < |ops| && ops[j].DoRelease? ensures KeyOf(ops[j].source) != KeyOf(b.source) {
          if j < n { assert ops[..n][j] == ops[j]; }
        }
      }
    } else {
      assert Authorizes(st, op, b);
      assert AuthorizedAt(ops, b, n);
    }
  }

  /** A page that fingerprints what it shows. */
  predicate Honest(i: Inspection, digest: string -> string) {
    i.value.Some? ==> i.fingerprint == digest(i.value.value)
  }

  /** The operation at `i` authorized this source, kind and page with that fingerprint, and nothing released it since. */
  ghost predicate AuthorizedAs(ops: seq<Op>, i: nat, session: Session, s: Source, kind: string, fingerprint: string) {
    && i < |ops| && ops[i].DoAuthorize? && ops[i].source == s && ops[i].kind == kind
    && ops[i].session.supervisor == session.supervisor && ops[i].answers.inspection.Some?
    && Authorize(Run(ops[..i]), ops[i].session, s, kind, ops[i].answers).1.Ok?
    && ops[i].answers.inspection.value.fingerprint == fingerprint
    && forall j :: i < j < |ops| && ops[j].DoRelease? ==> KeyOf(ops[j].source) != KeyOf(s)
  }

  /** A successful read returns a value with the fingerprint that was recorded when this very source, kind and page
      were authorized, with no release in between. */
  lemma ReadIsTheAuthorizedValue(ops: seq<Op>, session: Session, s: Source, kind: string, a: Answers,
                                 second: Option<Inspection>, digest: string -> string)
    requires Read(Run(ops), session, s, kind, a, second).Ok?
    requires Honest(second.value, digest)
    ensures exists i: nat ::
      AuthorizedAs(ops, i, session, s, kind, digest(Read(Run(ops), session, s, kind, a, second).value))
  {
    BindingWasAuthorized(ops, KeyOf(s));
    var b := Run(ops).bindings[KeyOf(s)];
    var i: nat :| AuthorizedAt(ops, b, i);
    assert AuthorizedAs(ops, i, session, s, kind, digest(Read(Run(ops), session, s, kind, a, second).value));
  }

  /** Two sources share a binding only when they differ in the observation number or in absent against empty tab or
      frame, and then the full comparison at delivery tells them apart. */
  lemma OtherSourceIsRefused(st: State, session: Session, s: Source, other: Source, kind: string, a: Answers)
    requires KeyOf(other) in st.bindings && st.bindings[KeyOf(other)].source == other && s != other
    requires KeyOf(s) == KeyOf(other)
    ensures Check(st, session, s, kind, a).Err?
    ensures s.identity.observationId != other.identity.observationId
         || (s.tabRef != other.tabRef && OrEmpty(s.tabRef) == "" == OrEmpty(other.tabRef))
         || (s.frameId != other.frameId && OrEmpty(s.frameId) == "" == OrEmpty(other.frameId))
  {}
}
