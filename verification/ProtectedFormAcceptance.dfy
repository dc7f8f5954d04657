/** What a protected field has to satisfy before it is bound, written or submitted, in the page's own answers. */
module ProtectedFormAcceptance {
  import opened Wrappers
  import opened BrowserTypes
  import opened Decimal
  import opened ProtectedForm
  import opened ProtectedFormRuns
  import opened ProtectedFormTheorems
  import opened ProtectedFormIndex

  // ---------------------------------------------------------------- the conditions

  /** The call is not aborted and comes from the session, tab, origin and frame the destination names. */
  predicate RightPage(session: PageSession, d: Destination, aborted: bool, a: ContextAnswers) {
    && !aborted && d.sessionId == session.key && d.identity.Some? && a.originMatches
    && (d.tabRef.Some? ==> d.tabRef.value == session.tabRef)
    && (d.frameId.Some? ==> a.frameId == d.frameId)
  }

  /** A field one can type into, of the kind it was bound for, and the only such one. */
  predicate Typable(i: Option<FieldInspection>) {
    && i.Some? && i.value.connected && i.value.current && i.value.visible && !i.value.disabled && i.value.editable
    && i.value.semanticsMatch && i.value.conflictCount == 1
  }

  predicate Pressable(i: Option<SubmitInspection>) {
    && i.Some? && i.value.connected && i.value.current && i.value.visible && !i.value.disabled && i.value.clickable
    && i.value.semanticsMatch && i.value.conflictCount == 1
  }

  /** The transaction collects for the same page, document state and submit control. */
  predicate CollectsFor(tx: Transaction, session: PageSession, d: Destination, frameId: Option<string>) {
    && tx.sessionId == session.key && tx.tabRef == session.tabRef && tx.supervisor == session.supervisor
    && tx.state == AwaitingValues && tx.expectedOrigin == d.expectedOrigin && tx.frameId == frameId
    && d.identity.Some? && tx.sourceIdentity.documentEpoch == d.identity.value.documentEpoch
    && tx.sourceIdentity.actionRevision == d.identity.value.actionRevision
    && (if tx.submit.Some? then d.submitRef == Some(tx.submit.value.ref) else d.submitRef == None)
  }

  ghost predicate CollectsAt(st: State, i: nat, session: PageSession, d: Destination, frameId: Option<string>) {
    i < |st.live| && st.live[i] in st.heap && CollectsFor(st.heap[st.live[i]], session, d, frameId)
  }

  /** The first live transaction the field can join. */
  ghost predicate JoinsAt(st: State, i: nat, session: PageSession, d: Destination, frameId: Option<string>) {
    CollectsAt(st, i, session, d, frameId) && forall j: nat :: j < i ==> !CollectsAt(st, j, session, d, frameId)
  }

  /** A field still waits for its value, or a secret may be on the page. */
  predicate Outstanding(tx: Transaction) {
    && !tx.released && tx.state != Departed
    && exists f :: f in tx.fields &&
         (if tx.state in {Bound, AwaitingValues} then !f.released else f.deliveryAttempted || f.delivered)
  }

  /** Some other live transaction of the session is outstanding. */
  ghost predicate Busy(st: State, s: SessionId, except: Option<TxId>) {
    exists t :: t in st.live && t in st.heap && Some(t) != except && st.heap[t].sessionId == s && Outstanding(st.heap[t])
  }

  // ---------------------------------------------------------------- collecting

  lemma TypableIff(i: Option<FieldInspection>, existing: bool)
    ensures InspectionRejection(i, existing).None? <==> Typable(i)
  {}

  lemma BusyIff(st: State, s: SessionId, except: Option<TxId>)
    ensures OtherNeedsProtection(st, s, except) <==> Busy(st, s, except)
  {
    forall t | t in st.heap ensures RequiresProtection(st.heap[t]) <==> Outstanding(st.heap[t]) {}
  }

  lemma {:induction false} FirstJoined(heap: map<TxId, Transaction>, ts: seq<TxId>, session: PageSession, d: Destination,
                                      frameId: Option<string>)
    ensures var r := FirstCompatible(heap, ts, session, d, frameId);
      if r.Some? then exists i: nat :: i < |ts| && ts[i] == r.value && ts[i] in heap && CollectsFor(heap[ts[i]], session, d, frameId)
                        && forall j: nat :: j < i ==> !(ts[j] in heap && CollectsFor(heap[ts[j]], session, d, frameId))
      else forall j: nat :: j < |ts| ==> !(ts[j] in heap && CollectsFor(heap[ts[j]], session, d, frameId))
  {
    if ts != [] && !(ts[0] in heap && Compatible(heap[ts[0]], session, d, frameId)) {
      FirstJoined(heap, ts[1..], session, d, frameId);
      assert forall j: nat :: 0 < j < |ts| ==> ts[j] == ts[1..][j - 1];
      var r := FirstCompatible(heap, ts, session, d, frameId);
      if r.Some? {
        var i: nat :| i < |ts[1..]| && ts[1..][i] == r.value && ts[1..][i] in heap && CollectsFor(heap[ts[1..][i]], session, d, frameId)
                 && forall j: nat :: j < i ==> !(ts[1..][j] in heap && CollectsFor(heap[ts[1..][j]], session, d, frameId));
        assert ts[i + 1] == r.value;
      }
    }
  }

  lemma JoinedIff(st: State, session: PageSession, d: Destination, frameId: Option<string>)
    ensures var r := FirstCompatible(st.heap, st.live, session, d, frameId);
      if r.Some? then exists i: nat :: JoinsAt(st, i, session, d, frameId) && st.live[i] == r.value
      else forall i: nat :: !CollectsAt(st, i, session, d, frameId)
  {
    FirstJoined(st.heap, st.live, session, d, frameId);
    var r := FirstCompatible(st.heap, st.live, session, d, frameId);
    if r.Some? {
      var i: nat :| i < |st.live| && st.live[i] == r.value && st.live[i] in st.heap && CollectsFor(st.heap[st.live[i]], session, d, frameId)
               && forall j: nat :: j < i ==> !(st.live[j] in st.heap && CollectsFor(st.heap[st.live[j]], session, d, frameId));
      assert JoinsAt(st, i, session, d, frameId);
    }
  }

  lemma OneJoins(st: State, i: nat, j: nat, session: PageSession, d: Destination, frameId: Option<string>)
    requires JoinsAt(st, i, session, d, frameId) && JoinsAt(st, j, session, d, frameId)
    ensures i == j
  {}

  /** What every collection needs, whether it joins a transaction or begins one. */
  ghost predicate Collectable(st: State, session: PageSession, d: Destination, aborted: bool, a: CollectAnswers, joined: Option<TxId>) {
    && RightPage(session, d, aborted, a.context)
    && (session.key, BindingKey(d)) !in st.index && !Busy(st, session.key, joined)
    && RefToIndex(d.ref).Some? && a.field == Resolved && Typable(a.inspection)
  }

  /** The field joins the transaction at `i`, whose document is still current and whose submit control can be pressed. */
  ghost predicate JoinsWell(st: State, i: nat, session: PageSession, d: Destination, aborted: bool, a: CollectAnswers) {
    && JoinsAt(st, i, session, d, a.context.frameId) && Collectable(st, session, d, aborted, a, Some(st.live[i]))
    && a.documentCurrent == Yes && (st.heap[st.live[i]].submit.Some? ==> Pressable(a.submitInspection))
  }

  /** The field begins a transaction: there is a document and, if one is asked for, a submit control to press. */
  ghost predicate BeginsWell(st: State, session: PageSession, d: Destination, aborted: bool, a: CollectAnswers) {
    && (forall i: nat :: !CollectsAt(st, i, session, d, a.context.frameId)) && Collectable(st, session, d, aborted, a, None)
    && a.documentResolves
    && (d.submitRef.Some? ==> RefToIndex(d.submitRef.value).Some? && a.submit == Resolved && Pressable(a.submitInspection))
  }

  /** A field is bound exactly on the right page, when it can be typed into and nothing else of its session is outstanding. */
  lemma CollectedIff(st: State, session: PageSession, d: Destination, kind: Kind, aborted: bool, a: CollectAnswers)
    ensures Collect(st, session, d, kind, aborted, a).1 == Verified <==>
      (exists i: nat :: JoinsWell(st, i, session, d, aborted, a)) || BeginsWell(st, session, d, aborted, a)
  {
    var op := DoCollect(session, d, kind, aborted, a);
    var joined := FirstCompatible(st.heap, st.live, session, d, a.context.frameId);
    VerifiedIffBinds(st, op);
    TypableIff(a.inspection, false);
    BusyIff(st, session.key, joined);
    JoinedIff(st, session, d, a.context.frameId);
    AdmittedIff(st, op);
    if joined.Some? {
      var i: nat :| JoinsAt(st, i, session, d, a.context.frameId) && st.live[i] == joined.value;
      assert Binds(st, op) <==> JoinsWell(st, i, session, d, aborted, a);
      forall j: nat | JoinsWell(st, j, session, d, aborted, a) ensures j == i { OneJoins(st, i, j, session, d, a.context.frameId); }
      assert CollectsAt(st, i, session, d, a.context.frameId);
    } else {
      assert Binds(st, op) <==> BeginsWell(st, session, d, aborted, a);
    }
  }

  lemma AdmittedIff(st: State, op: Op)
    requires op.DoCollect?
    ensures var joined := FirstCompatible(st.heap, st.live, op.session, op.d, op.collect.context.frameId);
      Admitted(st, op) <==>
        && RightPage(op.session, op.d, op.aborted, op.collect.context)
        && (op.session.key, BindingKey(op.d)) !in st.index && !Busy(st, op.session.key, joined)
  {
    BusyIff(st, op.session.key, FirstCompatible(st.heap, st.live, op.session, op.d, op.collect.context.frameId));
  }

  /** What a verified collection leaves: the field as asked for, in a transaction of this page. */
  ghost predicate BoundAs(st: State, st': State, session: PageSession, d: Destination, kind: Kind, a: CollectAnswers) {
    var ik := (session.key, BindingKey(d));
    && ik in st'.index && st'.index[ik] in st'.heap && a.inspection.Some? && RefToIndex(d.ref).Some?
    && var tx := st'.heap[st'.index[ik]];
       && CollectsFor(tx, session, d, a.context.frameId) && !tx.released
       && exists f :: f in tx.fields && f.destination == d && f.kind == kind && f.elementIndex == RefToIndex(d.ref).value
                      && f.explicitEmail == a.inspection.value.explicitEmail && f.objectId >= st.page.nextHandle
                      && !f.deliveryAttempted && !f.delivered && !f.released
  }

  lemma CollectedBinds(st: State, session: PageSession, d: Destination, kind: Kind, aborted: bool, a: CollectAnswers)
    requires Inv(st) && Collect(st, session, d, kind, aborted, a).1 == Verified
    ensures BoundAs(st, Collect(st, session, d, kind, aborted, a).0, session, d, kind, a)
  {
    match FirstCompatible(st.heap, st.live, session, d, a.context.frameId)
    case Some(t) => JoinedBinds(st, t, session, d, kind, a);
    case None => BegunBinds(st, session, d, kind, a);
  }

  lemma JoinedBinds(st: State, t: TxId, session: PageSession, d: Destination, kind: Kind, a: CollectAnswers)
    requires Inv(st) && t in st.live && t in st.heap && CollectInto(st, t, d, kind, a).1 == Verified
    requires CollectsFor(st.heap[t], session, d, a.context.frameId)
    ensures BoundAs(st, CollectInto(st, t, d, kind, a).0, session, d, kind, a)
  {
    var f := NewField(d, kind, st.page.nextHandle, RefToIndex(d.ref).value, a.inspection.value.explicitEmail);
    PutFieldAt(st.heap[t].fields, f);
  }

  lemma BegunBinds(st: State, session: PageSession, d: Destination, kind: Kind, a: CollectAnswers)
    requires Inv(st) && d.identity.Some? && CollectNew(st, session, d, kind, a).1 == Verified
    ensures BoundAs(st, CollectNew(st, session, d, kind, a).0, session, d, kind, a)
  {
    var f := NewField(d, kind, st.page.nextHandle + 1, RefToIndex(d.ref).value, a.inspection.value.explicitEmail);
    PutFieldAt([], f);
    assert CollectNew(st, session, d, kind, a).0.heap[st.nextId].fields == PutField([], f);
  }

  /** While a collected field waits for its value, its session is sensitive. */
  lemma CollectedIsSensitive(st: State, session: PageSession, d: Destination, kind: Kind, aborted: bool, a: CollectAnswers)
    requires Inv(st) && Collect(st, session, d, kind, aborted, a).1 == Verified
    ensures IsSensitive(Collect(st, session, d, kind, aborted, a).0, session.key)
  {
    var st' := Collect(st, session, d, kind, aborted, a).0;
    CollectKeeps(st, session, d, kind, aborted, a);
    CollectedBinds(st, session, d, kind, aborted, a);
    var t := st'.index[(session.key, BindingKey(d))];
    assert EntryOk(st', (session.key, BindingKey(d)));
    assert RequiresProtection(st'.heap[t]);
  }

  // ---------------------------------------------------------------- delivering

  lemma {:induction false} NoneRejectedIff(fields: seq<Field>, inspect: Key -> Option<FieldInspection>)
    ensures FirstRejection(fields, inspect).None? <==> forall f :: f in fields ==> Typable(inspect(KeyOf(f)))
  {
    if fields != [] {
      assert fields == [fields[0]] + fields[1..];
      TypableIff(inspect(KeyOf(fields[0])), true);
      NoneRejectedIff(fields[1..], inspect);
    }
  }

  /** `f` is the field bound for this destination in a transaction that still takes values. */
  ghost predicate AwaitsValue(st: State, d: Destination, kind: Kind, f: Field) {
    var ik := (d.sessionId, BindingKey(d));
    && ik in st.index && st.index[ik] in st.heap
    && var tx := st.heap[st.index[ik]];
       f in tx.fields && f.destination == d && f.kind == kind && tx.state in {AwaitingValues, Delivering}
  }

  /** The page is the one the transaction was bound on and shows every one of its fields and its submit control. */
  ghost predicate FormIntact(tx: Transaction, session: PageSession, a: DeliverAnswers) {
    && tx.supervisor == session.supervisor && tx.tabRef == session.tabRef && tx.frameId == a.context.frameId
    && a.check.document == Yes && (forall g :: g in tx.fields ==> Typable(a.check.inspect(KeyOf(g))))
    && (tx.submit.Some? ==> Pressable(a.checkSubmit))
  }

  ghost predicate Deliverable(st: State, session: PageSession, d: Destination, kind: Kind, aborted: bool, a: DeliverAnswers, f: Field) {
    RightPage(session, d, aborted, a.context) && AwaitsValue(st, d, kind, f)
    && FormIntact(st.heap[st.index[(d.sessionId, BindingKey(d))]], session, a)
  }

  lemma FoundIff(st: State, d: Destination, kind: Kind)
    requires HeapOk(st)
    ensures forall f :: AwaitsValue(st, d, kind, f) ==>
      && FindTransaction(st, d) == Some(st.index[(d.sessionId, BindingKey(d))])
      && var tx := st.heap[st.index[(d.sessionId, BindingKey(d))]];
         FindField(tx.fields, BindingKey(d)).Some? && tx.fields[FindField(tx.fields, BindingKey(d)).value] == f
  {
    forall f | AwaitsValue(st, d, kind, f)
      ensures FindTransaction(st, d) == Some(st.index[(d.sessionId, BindingKey(d))])
      ensures var tx := st.heap[st.index[(d.sessionId, BindingKey(d))]];
        FindField(tx.fields, BindingKey(d)).Some? && tx.fields[FindField(tx.fields, BindingKey(d)).value] == f
    {
      var tx := st.heap[st.index[(d.sessionId, BindingKey(d))]];
      assert KeyOf(f) == BindingKey(d);
      var i := FindField(tx.fields, BindingKey(d)).value;
      var j :| 0 <= j < |tx.fields| && tx.fields[j] == f;
      assert i == j;
    }
  }

  /** A delivery passes its checks exactly on the right page, for a field that awaits its value in an intact form. */
  lemma CheckedIff(st: State, session: PageSession, d: Destination, kind: Kind, aborted: bool, a: DeliverAnswers)
    requires HeapOk(st)
    ensures CheckDelivery(st, session, d, kind, aborted, a.context, a.check, a.checkSubmit).None? <==>
      exists f :: Deliverable(st, session, d, kind, aborted, a, f)
  {
    FoundIff(st, d, kind);
    var found := FindTransaction(st, d);
    if found.Some? {
      var tx := st.heap[found.value];
      var active := tx.fields[FindField(tx.fields, BindingKey(d)).value];
      NoneRejectedIff(tx.fields, a.check.inspect);
      assert AwaitsValue(st, d, kind, active) <==> active.kind == kind && tx.state in {AwaitingValues, Delivering};
      if CheckDelivery(st, session, d, kind, aborted, a.context, a.check, a.checkSubmit).None? {
        assert Deliverable(st, session, d, kind, aborted, a, active);
      }
    }
  }

  /** What may be written: text, but no six digits into an account field the page marks as an email address. */
  predicate Writable(f: Field, value: Option<string>) {
    && value.Some?
    && !(f.kind == AccountIdentifier && f.explicitEmail && |value.value| == 6
         && forall c :: c in value.value ==> '0' <= c <= '9')
  }

  lemma WritableIff(f: Field, value: Option<string>)
    requires value.Some?
    ensures Writable(f, value) <==> !(f.kind == AccountIdentifier && f.explicitEmail && SixDigits(value.value))
  {
    assert SixDigits(value.value) <==> |value.value| == 6 && forall c :: c in value.value ==> '0' <= c <= '9';
  }

  /** What the delivery attempts. */
  ghost predicate Attempts(st: State, op: Op, f: Field) {
    && op.DoDeliver? && Deliverable(st, op.session, op.d, op.kind, op.aborted, op.deliver, f) && Writable(f, op.value)
  }

  /** A delivery attempts a write, and so leaves a mark, exactly when its checks pass and the text may be written; the
      write is on record exactly when, besides, the page confirms it. */
  lemma WrittenIff(st: State, op: Op)
    requires Inv(st) && op.DoDeliver?
    ensures Step(st, op).page.writes ==
      if (exists f :: Attempts(st, op, f)) && op.deliver.write == CallTrue
      then st.page.writes + [(st.index[(op.d.sessionId, BindingKey(op.d))], BindingKey(op.d))]
      else st.page.writes
    ensures !(exists f :: Attempts(st, op, f)) ==> Step(st, op) == st
    ensures (exists f :: Attempts(st, op, f)) ==>
      var t := st.index[(op.d.sessionId, BindingKey(op.d))];
      t in Step(st, op).heap && exists f :: f in Step(st, op).heap[t].fields && f.destination == op.d && f.deliveryAttempted
  {
    CheckedIff(st, op.session, op.d, op.kind, op.aborted, op.deliver);
    FoundIff(st, op.d, op.kind);
    if f :| Attempts(st, op, f) {
      AttemptWrites(st, op, f);
    } else if f :| Deliverable(st, op.session, op.d, op.kind, op.aborted, op.deliver, f) {
      assert !Attempts(st, op, f);
      if op.value.Some? { WritableIff(f, op.value); }
    }
  }

  /** The state after the attempt, and after the write if it is confirmed. */
  lemma AttemptWrites(st: State, op: Op, f: Field)
    requires Inv(st) && Attempts(st, op, f)
    requires FindTransaction(st, op.d) == Some(st.index[(op.d.sessionId, BindingKey(op.d))])
    requires var tx := st.heap[st.index[(op.d.sessionId, BindingKey(op.d))]];
      FindField(tx.fields, BindingKey(op.d)).Some? && tx.fields[FindField(tx.fields, BindingKey(op.d)).value] == f
    requires CheckDelivery(st, op.session, op.d, op.kind, op.aborted, op.deliver.context, op.deliver.check, op.deliver.checkSubmit).None?
    ensures var t := st.index[(op.d.sessionId, BindingKey(op.d))];
      var st', i := Step(st, op), FindField(st.heap[t].fields, BindingKey(op.d)).value;
      && t in st'.heap && Follows(AttemptedState(st, t, i, op.deliver.write == CallTrue), t, st')
      && st'.page.writes == (if op.deliver.write == CallTrue then st.page.writes + [(t, BindingKey(op.d))] else st.page.writes)
      && exists g :: g in st'.heap[t].fields && g.destination == op.d && g.deliveryAttempted
  {
    var t := st.index[(op.d.sessionId, BindingKey(op.d))];
    var i, st' := FindField(st.heap[t].fields, BindingKey(op.d)).value, Step(st, op);
    var after := AttemptedState(st, t, i, op.deliver.write == CallTrue);
    AttemptFollows(st, op, t, i);
    assert st'.heap[t].fields[i] in st'.heap[t].fields && st'.heap[t].fields[i].destination == op.d;
  }

  lemma AttemptFollows(st: State, op: Op, t: TxId, i: nat)
    requires op.DoDeliver? && FindTransaction(st, op.d) == Some(t) && FindField(st.heap[t].fields, BindingKey(op.d)) == Some(i)
    requires CheckDelivery(st, op.session, op.d, op.kind, op.aborted, op.deliver.context, op.deliver.check, op.deliver.checkSubmit).None?
    requires Writable(st.heap[t].fields[i], op.value)
    ensures Follows(AttemptedState(st, t, i, op.deliver.write == CallTrue), t, Step(st, op))
  {
    WritableIff(st.heap[t].fields[i], op.value);
    if op.deliver.write == CallTrue { ConfirmedFollows(st, op, t, i); } else { UnconfirmedFollows(st, op, t, i); }
  }

  lemma ConfirmedFollows(st: State, op: Op, t: TxId, i: nat)
    requires op.DoDeliver? && FindTransaction(st, op.d) == Some(t) && FindField(st.heap[t].fields, BindingKey(op.d)) == Some(i)
    requires CheckDelivery(st, op.session, op.d, op.kind, op.aborted, op.deliver.context, op.deliver.check, op.deliver.checkSubmit).None?
    requires op.value.Some? && op.deliver.write == CallTrue
    requires var f := st.heap[t].fields[i]; !(f.kind == AccountIdentifier && f.explicitEmail && SixDigits(op.value.value))
    ensures Deliver(st, op.session, op.d, op.kind, op.aborted, op.value, op.deliver)
         == AfterWrite(AttemptedState(st, t, i, true), t, i, op.deliver)
    ensures Follows(AttemptedState(st, t, i, true), t, Step(st, op))
  {
    var tx, mid := st.heap[t], AttemptedState(st, t, i, true);
    var attempted := PutTx(st, t, MarkAttempted(tx, i));
    assert MarkDelivered(MarkAttempted(tx, i), i) == Attempted(tx, i, true);
    assert PutTx(attempted, t, MarkDelivered(attempted.heap[t], i))
           .(page := st.page.(writes := st.page.writes + [(t, BindingKey(op.d))])) == mid;
    AfterWriteShape(mid, t, i, op.deliver);
  }

  lemma UnconfirmedFollows(st: State, op: Op, t: TxId, i: nat)
    requires op.DoDeliver? && FindTransaction(st, op.d) == Some(t) && FindField(st.heap[t].fields, BindingKey(op.d)) == Some(i)
    requires CheckDelivery(st, op.session, op.d, op.kind, op.aborted, op.deliver.context, op.deliver.check, op.deliver.checkSubmit).None?
    requires op.value.Some? && op.deliver.write != CallTrue
    requires var f := st.heap[t].fields[i]; !(f.kind == AccountIdentifier && f.explicitEmail && SixDigits(op.value.value))
    ensures Follows(AttemptedState(st, t, i, false), t, Step(st, op))
  {
    assert PutTx(st, t, MarkAttempted(st.heap[t], i)) == AttemptedState(st, t, i, false);
  }

  // ---------------------------------------------------------------- submitting

  /** The last value: the form has a submit control and every other field has been delivered. */
  predicate Complete(tx: Transaction, d: Destination) {
    tx.submit.Some? && forall g :: g in tx.fields ==> g.delivered || KeyOf(g) == BindingKey(d)
  }

  /** The page shows that the form has gone: another document, or none of its fields in any place. */
  predicate GoneFrom(tx: Transaction, a: ChallengeAnswers) {
    || a.document == No
    || (&& a.document == Yes
        && forall g :: g in tx.fields ==>
             var i := a.inspect(KeyOf(g)); i.Some? && !(i.value.connected && i.value.current) && !(i.value.conflictCount > 0))
  }

  lemma GoneIff(tx: Transaction, a: ChallengeAnswers)
    ensures ChallengeCurrent(tx, a) == Some(false) <==> GoneFrom(tx, a)
  {
    if a.document == Yes && !GoneFrom(tx, a) {
      var g :| g in tx.fields && !(var i := a.inspect(KeyOf(g)); i.Some? && !(i.value.connected && i.value.current) && !(i.value.conflictCount > 0));
      assert a.inspect(KeyOf(g)).None? || SeenOnPage(a.inspect(KeyOf(g)));
    }
  }

  lemma AttemptedKeepsKeys(tx: Transaction, i: nat, confirmed: bool)
    requires i < |tx.fields|
    ensures var tx' := Attempted(tx, i, confirmed);
      && (forall g' :: g' in tx'.fields ==> exists g :: g in tx.fields && KeyOf(g) == KeyOf(g'))
      && (forall g :: g in tx.fields ==> exists g' :: g' in tx'.fields && KeyOf(g') == KeyOf(g))
  {
    var tx' := Attempted(tx, i, confirmed);
    forall g' | g' in tx'.fields ensures exists g :: g in tx.fields && KeyOf(g) == KeyOf(g') {
      var j :| 0 <= j < |tx'.fields| && tx'.fields[j] == g';
      assert tx.fields[j] in tx.fields && KeyOf(tx.fields[j]) == KeyOf(g');
    }
    forall g | g in tx.fields ensures exists g' :: g' in tx'.fields && KeyOf(g') == KeyOf(g) {
      var j :| 0 <= j < |tx.fields| && tx.fields[j] == g;
      assert tx'.fields[j] in tx'.fields && KeyOf(tx'.fields[j]) == KeyOf(g);
    }
  }

  lemma GoneStays(tx: Transaction, i: nat, confirmed: bool, a: ChallengeAnswers)
    requires i < |tx.fields|
    ensures GoneFrom(Attempted(tx, i, confirmed), a) <==> GoneFrom(tx, a)
  {
    AttemptedKeepsKeys(tx, i, confirmed);
  }

  lemma CompleteIff(tx: Transaction, i: nat, d: Destination)
    requires DistinctKeys(tx.fields) && i < |tx.fields| && KeyOf(tx.fields[i]) == BindingKey(d)
    ensures Complete(tx, d) <==> tx.submit.Some? && AllDelivered(Attempted(tx, i, true))
  {
    var tx' := Attempted(tx, i, true);
    if AllDelivered(tx') {
      forall g | g in tx.fields ensures g.delivered || KeyOf(g) == BindingKey(d) {
        var j :| 0 <= j < |tx.fields| && tx.fields[j] == g;
        assert tx'.fields[j] in tx'.fields;
      }
    }
    if Complete(tx, d) {
      forall g' | g' in tx'.fields ensures g'.delivered {
        var j :| 0 <= j < |tx'.fields| && tx'.fields[j] == g';
        assert tx.fields[j] in tx.fields;
      }
    }
  }

  /** The control is pressed after this delivery. */
  predicate Presses(tx: Transaction, d: Destination, a: DeliverAnswers) {
    && a.write == CallTrue && Complete(tx, d) && !a.cancelledInDelay && !GoneFrom(tx, a.challenge)
    && Pressable(a.submitInspection)
  }

  /** The phase after an attempted write. */
  function PhaseAfter(tx: Transaction, d: Destination, a: DeliverAnswers): Phase {
    if a.write != CallTrue then Blocked
    else if !Complete(tx, d) then Delivering
    else if !a.cancelledInDelay && GoneFrom(tx, a.challenge) then Automatic
    else if Presses(tx, d, a) && a.click == CallTrue then Submitted
    else Blocked
  }

  /** What is reported after an attempted write; a failing last write or click that seems to have navigated is not thrown on. */
  function ReportAfter(tx: Transaction, d: Destination, a: DeliverAnswers): Delivery {
    if a.write != CallTrue then (if Complete(tx, d) && a.write == CallThrows(true) then Outcome(Failed) else DeliveryThrows)
    else if !Complete(tx, d) then Outcome(NotRequested)
    else if a.cancelledInDelay then DeliveryThrows
    else if GoneFrom(tx, a.challenge) then Outcome(SubmittedItself)
    else if !Pressable(a.submitInspection) then Outcome(Failed)
    else
      match a.click
      case CallTrue => Outcome(Clicked)
      case CallOther => Outcome(Failed)
      case CallThrows(navigation) => if navigation then Outcome(Failed) else DeliveryThrows
  }

  /** An attempted delivery clicks exactly when it completes the form, the form is still there and its control can be
      pressed; phase and report follow from the page's answers as stated. */
  lemma SubmittedIff(st: State, op: Op, f: Field)
    requires Inv(st) && Attempts(st, op, f)
    ensures var t := st.index[(op.d.sessionId, BindingKey(op.d))];
      var tx, st' := st.heap[t], Step(st, op);
      && t in st'.heap && st'.heap[t].state == PhaseAfter(tx, op.d, op.deliver)
      && st'.page.clicks == (if Presses(tx, op.d, op.deliver) then st.page.clicks + [t] else st.page.clicks)
    ensures
      Deliver(st, op.session, op.d, op.kind, op.aborted, op.value, op.deliver).1
      == ReportAfter(st.heap[st.index[(op.d.sessionId, BindingKey(op.d))]], op.d, op.deliver)
  {
    var t := st.index[(op.d.sessionId, BindingKey(op.d))];
    CheckedIff(st, op.session, op.d, op.kind, op.aborted, op.deliver);
    FoundIff(st, op.d, op.kind);
    WritableIff(f, op.value);
    AttemptDecides(st, op, t, FindField(st.heap[t].fields, BindingKey(op.d)).value);
  }

  lemma AttemptDecides(st: State, op: Op, t: TxId, i: nat)
    requires HeapOk(st) && op.DoDeliver? && FindTransaction(st, op.d) == Some(t) && FindField(st.heap[t].fields, BindingKey(op.d)) == Some(i)
    requires CheckDelivery(st, op.session, op.d, op.kind, op.aborted, op.deliver.context, op.deliver.check, op.deliver.checkSubmit).None?
    requires op.value.Some?
    requires var f := st.heap[t].fields[i]; !(f.kind == AccountIdentifier && f.explicitEmail && SixDigits(op.value.value))
    ensures var tx, r := st.heap[t], Deliver(st, op.session, op.d, op.kind, op.aborted, op.value, op.deliver);
      && t in r.0.heap && r.0.heap[t].state == PhaseAfter(tx, op.d, op.deliver) && r.1 == ReportAfter(tx, op.d, op.deliver)
      && r.0.page.clicks == (if Presses(tx, op.d, op.deliver) then st.page.clicks + [t] else st.page.clicks)
  {
    if op.deliver.write == CallTrue {
      ConfirmedDecides(st, op, t, i);
    } else {
      UnconfirmedBlocks(st, op, t, i);
    }
  }

  lemma ConfirmedDecides(st: State, op: Op, t: TxId, i: nat)
    requires HeapOk(st) && op.DoDeliver? && FindTransaction(st, op.d) == Some(t) && FindField(st.heap[t].fields, BindingKey(op.d)) == Some(i)
    requires CheckDelivery(st, op.session, op.d, op.kind, op.aborted, op.deliver.context, op.deliver.check, op.deliver.checkSubmit).None?
    requires op.value.Some? && op.deliver.write == CallTrue
    requires var f := st.heap[t].fields[i]; !(f.kind == AccountIdentifier && f.explicitEmail && SixDigits(op.value.value))
    ensures var tx, r := st.heap[t], Deliver(st, op.session, op.d, op.kind, op.aborted, op.value, op.deliver);
      && t in r.0.heap && r.0.heap[t].state == PhaseAfter(tx, op.d, op.deliver) && r.1 == ReportAfter(tx, op.d, op.deliver)
      && r.0.page.clicks == (if Presses(tx, op.d, op.deliver) then st.page.clicks + [t] else st.page.clicks)
  {
    ConfirmedFollows(st, op, t, i);
    AfterConfirmed(st, t, i, op.d, op.deliver);
  }

  lemma UnconfirmedBlocks(st: State, op: Op, t: TxId, i: nat)
    requires HeapOk(st) && op.DoDeliver? && FindTransaction(st, op.d) == Some(t) && FindField(st.heap[t].fields, BindingKey(op.d)) == Some(i)
    requires CheckDelivery(st, op.session, op.d, op.kind, op.aborted, op.deliver.context, op.deliver.check, op.deliver.checkSubmit).None?
    requires op.value.Some? && op.deliver.write != CallTrue
    requires var f := st.heap[t].fields[i]; !(f.kind == AccountIdentifier && f.explicitEmail && SixDigits(op.value.value))
    ensures var tx, r := st.heap[t], Deliver(st, op.session, op.d, op.kind, op.aborted, op.value, op.deliver);
      && t in r.0.heap && r.0.heap[t].state == Blocked && r.0.page.clicks == st.page.clicks
      && r.1 == if Complete(tx, op.d) && op.deliver.write == CallThrows(true) then Outcome(Failed) else DeliveryThrows
  {
    var attempted := PutTx(st, t, MarkAttempted(st.heap[t], i));
    OthersIff(st.heap[t], i, op.d);
    match op.deliver.write
    case CallThrows(navigation) =>
      assert Deliver(st, op.session, op.d, op.kind, op.aborted, op.value, op.deliver) == DeliveryFailed(attempted, t, i, navigation);
    case CallOther =>
      assert Deliver(st, op.session, op.d, op.kind, op.aborted, op.value, op.deliver) == DeliveryFailed(attempted, t, i, false);
  }

  lemma OthersIff(tx: Transaction, i: nat, d: Destination)
    requires DistinctKeys(tx.fields) && i < |tx.fields| && KeyOf(tx.fields[i]) == BindingKey(d)
    ensures var tx' := MarkAttempted(tx, i);
      Complete(tx, d) <==> tx.submit.Some? && forall j :: 0 <= j < |tx'.fields| ==> j == i || tx'.fields[j].delivered
  {
    var tx' := MarkAttempted(tx, i);
    if Complete(tx, d) {
      forall j | 0 <= j < |tx'.fields| && j != i ensures tx'.fields[j].delivered { assert tx.fields[j] in tx.fields; }
    }
    if forall j :: 0 <= j < |tx'.fields| ==> j == i || tx'.fields[j].delivered {
      forall g | g in tx.fields ensures g.delivered || KeyOf(g) == BindingKey(d) {
        var j :| 0 <= j < |tx.fields| && tx.fields[j] == g;
        assert j != i ==> tx'.fields[j].delivered;
      }
    }
  }

  lemma AfterConfirmed(st: State, t: TxId, i: nat, d: Destination, a: DeliverAnswers)
    requires t in st.heap && i < |st.heap[t].fields| && DistinctKeys(st.heap[t].fields) && a.write == CallTrue
    requires KeyOf(st.heap[t].fields[i]) == BindingKey(d)
    ensures var tx, r := st.heap[t], AfterWrite(AttemptedState(st, t, i, true), t, i, a);
      && t in r.0.heap && r.0.heap[t].state == PhaseAfter(tx, d, a) && r.1 == ReportAfter(tx, d, a)
      && r.0.page.clicks == (if Presses(tx, d, a) then st.page.clicks + [t] else st.page.clicks)
  {
    var tx, mid := st.heap[t], AttemptedState(st, t, i, true);
    CompleteIff(tx, i, d);
    GoneStays(tx, i, true, a.challenge);
    GoneIff(mid.heap[t], a.challenge);
    if Complete(tx, d) { OthersDelivered(mid.heap[t], i); }
  }

  lemma OthersDelivered(tx: Transaction, active: nat)
    requires AllDelivered(tx)
    ensures forall j :: 0 <= j < |tx.fields| ==> j == active || tx.fields[j].delivered
  {
    forall j | 0 <= j < |tx.fields| ensures tx.fields[j].delivered { assert tx.fields[j] in tx.fields; }
  }

  // ---------------------------------------------------------------- settling and reconciling

  /** The document the form was bound in has been left, or so the snapshot's epoch says. */
  predicate DocumentLeft(tx: Transaction, identity: Identity, document: Tri) {
    identity.documentEpoch > tx.sourceIdentity.documentEpoch || document == No
  }

  /** A field of the form was seen somewhere. */
  predicate SeenFrom(tx: Transaction, a: ChallengeAnswers) {
    && a.document == Yes
    && exists g :: g in tx.fields && a.inspect(KeyOf(g)).Some? &&
         ((a.inspect(KeyOf(g)).value.connected && a.inspect(KeyOf(g)).value.current) || a.inspect(KeyOf(g)).value.conflictCount > 0)
  }

  lemma SeenIff(tx: Transaction, a: ChallengeAnswers)
    ensures ChallengeCurrent(tx, a) == Some(true) <==> SeenFrom(tx, a)
  {
    forall g | g in tx.fields ensures SeenOnPage(a.inspect(KeyOf(g))) <==>
      a.inspect(KeyOf(g)).Some? &&
         ((a.inspect(KeyOf(g)).value.connected && a.inspect(KeyOf(g)).value.current) || a.inspect(KeyOf(g)).value.conflictCount > 0) {}
  }

  /** What a settlement makes of the form: the caller's own answer counts first; in the document it was bound in the
      page is asked; in another one nothing is known. */
  lemma ChallengeSettled(st: State, d: Destination, a: SettleAnswers)
    requires FindTransaction(st, d).Some?
    ensures var tx, r := st.heap[FindTransaction(st, d).value], SettledChallenge(st, d, a);
      && (r == Some(true) <==>
            a.fallback == Some(true)
            || (a.fallback.None? && !DocumentLeft(tx, a.snapshotIdentity, a.document) && SeenFrom(tx, a.challenge)))
      && (r == Some(false) <==>
            a.fallback == Some(false)
            || (a.fallback.None? && !DocumentLeft(tx, a.snapshotIdentity, a.document) && GoneFrom(tx, a.challenge)))
  {
    var tx := st.heap[FindTransaction(st, d).value];
    SeenIff(tx, a.challenge);
    GoneIff(tx, a.challenge);
  }

  /** A secret that may have been typed is shown to be gone from where the clear pass looks. */
  predicate ReadsEmpty(tx: Transaction, left: bool, a: ClearAnswers) {
    if left || a.document == No then a.documentResolves && a.bulkEmptied && a.bulkReadEmpty
    else forall g :: g in tx.fields && g.deliveryAttempted ==> a.emptied(KeyOf(g)) && a.readEmpty(KeyOf(g))
  }

  /** A settled form that is still there waits as such, if its values read back as empty; one of which nothing is known,
      or whose values do not, is blocked; one that has gone is released. */
  lemma SettledPhase(st: State, s: SessionId, d: Destination, a: SettleAnswers)
    requires Inv(st) && FindTransaction(st, d).Some? && s == d.sessionId
    ensures var t := FindTransaction(st, d).value;
      var tx, st', r := st.heap[t], Settle(st, s, d, a), SettledChallenge(st, d, a);
      var clears := tx.submit.Some? && tx.submission != NotRequested && AnyAttempted(tx);
      && t in st'.heap
      && (r == Some(false) ==> st'.heap[t].released && st'.heap[t].state == Departed)
      && (r != Some(false) ==>
            && !st'.heap[t].released
            && (st'.heap[t].state == StillPresent <==>
                  r == Some(true) && (clears ==> ReadsEmpty(tx, DocumentLeft(tx, a.snapshotIdentity, a.document), a.clear)))
            && (st'.heap[t].state != StillPresent ==> st'.heap[t].state == Blocked))
  {
    var t, r := FindTransaction(st, d).value, SettledChallenge(st, d, a);
    FoundInSession(st, d);
    if r == Some(false) {
      PhaseKeeps(st, t, Departed);
      DepartsFirst(SetPhase(st, t, Departed), LiveOf(SetPhase(st, t, Departed), s), t);
    } else {
      SettledHere(st, t, if r == Some(true) then StillPresent else Blocked, a);
    }
  }

  lemma {:induction false} DepartsFirst(st: State, ts: seq<TxId>, t: TxId)
    requires t in st.heap && st.heap[t].state == Departed && (t in ts || st.heap[t].released)
    ensures t in DepartEach(st, ts).heap && DepartEach(st, ts).heap[t].released && DepartEach(st, ts).heap[t].state == Departed
    decreases |ts|
  {
    if ts != [] { DepartsFirst(ReleaseTransaction(SetPhase(st, ts[0], Departed), ts[0]), ts[1..], t); }
  }

  lemma SettledHere(st: State, t: TxId, phase: Phase, a: SettleAnswers)
    requires t in st.heap && !st.heap[t].released && phase in {StillPresent, Blocked}
    ensures var tx, phased := st.heap[t], SetPhase(st, t, phase);
      var left := DocumentLeft(tx, a.snapshotIdentity, a.document);
      var st' := if tx.submit.None? || tx.submission == NotRequested then phased
                 else if left then ClearCurrent(phased, t, a.clear).0 else ClearDelivered(phased, t, a.clear).0;
      && t in st'.heap && !st'.heap[t].released
      && st'.heap[t].state == if tx.submit.Some? && tx.submission != NotRequested && AnyAttempted(tx) && !ReadsEmpty(tx, left, a.clear)
                              then Blocked else phase
  {
    var tx, phased := st.heap[t], SetPhase(st, t, phase);
    var left := DocumentLeft(tx, a.snapshotIdentity, a.document);
    assert phased.heap[t].fields == tx.fields;
    assert AnyAttempted(phased.heap[t]) <==> AnyAttempted(tx);
    assert FieldsReadEmpty(phased.heap[t], a.clear) <==>
      forall g :: g in tx.fields && g.deliveryAttempted ==> a.clear.emptied(KeyOf(g)) && a.clear.readEmpty(KeyOf(g));
    ClearShape(phased, t, a.clear, left);
  }

  /** Reconciling a fully released form that may have left a secret: it departs when it has gone, waits when it is seen,
      and is blocked otherwise. */
  lemma ReconciledPhase(st: State, t: TxId, a: ChallengeAnswers)
    requires Inv(st) && t in st.live && t in st.heap && st.heap[t].state != Settling
    requires (forall f :: f in st.heap[t].fields ==> f.released) && Outstanding(st.heap[t])
    ensures var tx, st' := st.heap[t], ReconcileOne(st, t, a);
      && t in st'.heap
      && (GoneFrom(tx, a) <==> st'.heap[t].released) && (GoneFrom(tx, a) ==> st'.heap[t].state == Departed)
      && (SeenFrom(tx, a) ==> st'.heap[t].state == StillPresent)
      && (!GoneFrom(tx, a) && !SeenFrom(tx, a) ==> st'.heap[t].state == Blocked)
  {
    GoneIff(st.heap[t], a);
    SeenIff(st.heap[t], a);
    assert RequiresProtection(st.heap[t]);
  }

  // ---------------------------------------------------------------- what ends the exposure, in the page's answers

  predicate HasLeft(tx: Transaction, identity: Option<Identity>, document: Tri) {
    document == No || (identity.Some? && identity.value.documentEpoch > tx.sourceIdentity.documentEpoch)
  }

  /** `d` names the only field of the transaction that is not released yet. */
  predicate LastUnreleased(tx: Transaction, d: Destination) {
    && (exists f :: f in tx.fields && f.destination == d && !f.released)
    && (forall g :: g in tx.fields && KeyOf(g) != BindingKey(d) ==> g.released)
  }

  /** The `n`th transaction an abort mentions reads back as empty, or has nothing to clear. */
  ghost predicate ClearedAt(st: State, ts: seq<TxId>, identity: Option<Identity>, a: TxId -> AbortAnswers, n: nat) {
    && n < |ts| && ts[n] in st.heap
    && var tx := st.heap[ts[n]];
       (exists f :: f in tx.fields && f.deliveryAttempted) ==> ReadsEmpty(tx, HasLeft(tx, identity, a(ts[n]).document), a(ts[n]).clear)
  }

  /** The abort clears everything it mentions up to and including `t`. */
  ghost predicate AbortCleared(st: State, ts: seq<TxId>, identity: Option<Identity>, a: TxId -> AbortAnswers, t: TxId) {
    exists n: nat :: n < |ts| && ts[n] == t && forall j: nat :: j <= n ==> ClearedAt(st, ts, identity, a, j)
  }

  ghost predicate Evidence(st: State, op: Op, t: TxId)
    requires t in st.heap
  {
    var tx := st.heap[t];
    match op
    case DoRelease(d, a) =>
      && FindTransaction(st, d) == Some(t) && LastUnreleased(tx, d) && ReadsEmpty(tx, false, a)
      && ((exists g :: g in tx.fields && !g.delivered) || tx.state in {Blocked, StillPresent})
    case DoAbort(ds, identity, a) => AbortCleared(st, Mentioned(st, ds), identity, a, t)
    case DoInvalidate(s) => s == tx.sessionId
    case DoClearSession(s) => s == tx.sessionId
    case DoReconcile(s, a) =>
      s == tx.sessionId && tx.state != Settling && (forall g :: g in tx.fields ==> g.released) && GoneFrom(tx, a(t))
    case DoSettle(s, d, a) =>
      if SettledChallenge(st, d, a) == Some(false) then s == tx.sessionId || FindTransaction(st, d) == Some(t)
      else && FindTransaction(st, d) == Some(t) && tx.submit.Some? && tx.submission != NotRequested
           && ReadsEmpty(tx, DocumentLeft(tx, a.snapshotIdentity, a.document), a.clear)
    case _ => false
  }

  lemma ReadsEmptyIff(tx: Transaction, left: bool, a: ClearAnswers)
    ensures ClearProves(tx, left, a) <==> ReadsEmpty(tx, left, a)
  {}

  lemma {:induction false} AbortClearedIff(st: State, ts: seq<TxId>, identity: Option<Identity>, a: TxId -> AbortAnswers, t: TxId)
    ensures AbortReaches(st, ts, identity, a, t) <==> AbortCleared(st, ts, identity, a, t)
    decreases |ts|
  {
    if ts != [] {
      AbortClearedIff(st, ts[1..], identity, a, t);
      FirstCleared(st, ts, identity, a);
      AbortClearedSplits(st, ts, identity, a, t);
    }
  }

  lemma FirstCleared(st: State, ts: seq<TxId>, identity: Option<Identity>, a: TxId -> AbortAnswers)
    requires ts != []
    ensures AbortClears(st, ts[0], identity, a(ts[0])) <==> ClearedAt(st, ts, identity, a, 0)
  {
    if ts[0] in st.heap {
      ReadsEmptyIff(st.heap[ts[0]], HasDeparted(st.heap[ts[0]], identity, a(ts[0]).document), a(ts[0]).clear);
    }
  }

  lemma AbortClearedSplits(st: State, ts: seq<TxId>, identity: Option<Identity>, a: TxId -> AbortAnswers, t: TxId)
    requires ts != []
    ensures AbortCleared(st, ts, identity, a, t) <==>
      ClearedAt(st, ts, identity, a, 0) && (ts[0] == t || AbortCleared(st, ts[1..], identity, a, t))
  {
    assert forall j: nat :: j < |ts| - 1 ==> ts[1..][j] == ts[j + 1];
    assert forall j: nat :: ClearedAt(st, ts[1..], identity, a, j) <==> ClearedAt(st, ts, identity, a, j + 1);
    if AbortCleared(st, ts, identity, a, t) {
      var n: nat :| n < |ts| && ts[n] == t && forall j: nat :: j <= n ==> ClearedAt(st, ts, identity, a, j);
      if n > 0 { assert ts[1..][n - 1] == t && forall j: nat :: j <= n - 1 ==> ClearedAt(st, ts[1..], identity, a, j); }
    }
    if ClearedAt(st, ts, identity, a, 0) && ts[0] != t && AbortCleared(st, ts[1..], identity, a, t) {
      var n: nat :| n < |ts[1..]| && ts[1..][n] == t && forall j: nat :: j <= n ==> ClearedAt(st, ts[1..], identity, a, j);
      assert ts[n + 1] == t;
      forall j: nat | j <= n + 1 ensures ClearedAt(st, ts, identity, a, j) {
        if j > 0 { assert ClearedAt(st, ts[1..], identity, a, j - 1); }
      }
    }
  }

  lemma LastUnreleasedIff(tx: Transaction, d: Destination, i: nat)
    requires DistinctKeys(tx.fields) && i < |tx.fields| && tx.fields[i].destination == d
    ensures LastUnreleased(tx, d) <==> !tx.fields[i].released && OthersReleased(tx.fields, i)
  {
    assert tx.fields[i] in tx.fields;
    if LastUnreleased(tx, d) {
      var f :| f in tx.fields && f.destination == d && !f.released;
      var j :| 0 <= j < |tx.fields| && tx.fields[j] == f;
      assert KeyOf(f) == KeyOf(tx.fields[i]) && j == i;
      forall k | 0 <= k < |tx.fields| && k != i ensures tx.fields[k].released { assert tx.fields[k] in tx.fields; }
    }
    if OthersReleased(tx.fields, i) {
      forall g | g in tx.fields && KeyOf(g) != BindingKey(d) ensures g.released {
        var k :| 0 <= k < |tx.fields| && tx.fields[k] == g;
      }
    }
  }

  lemma ReleaseEvidence(st: State, d: Destination, a: ClearAnswers, t: TxId)
    requires Inv(st) && Exposed(st, t)
    ensures Discharges(st, DoRelease(d, a), t) <==> Evidence(st, DoRelease(d, a), t)
  {
    var tx := st.heap[t];
    ReadsEmptyIff(tx, false, a);
    if FindTransaction(st, d) == Some(t) {
      LastUnreleasedIff(tx, d, FindField(tx.fields, BindingKey(d)).value);
      assert AllDelivered(tx) <==> !exists g :: g in tx.fields && !g.delivered;
    }
  }

  /** In every reachable state an exposed form stops being exposed exactly when the answers of the page, or the end of its
      session, give the evidence: its values read back as empty in a clear pass that is really made, or it has gone. */
  lemma ExposureEndsIff(st: State, op: Op, t: TxId)
    requires Inv(st) && Exposed(st, t)
    ensures Exposed(Step(st, op), t) <==> !Evidence(st, op, t)
  {
    var tx := st.heap[t];
    StepRetains(st, op, t);
    match op
    case DoRelease(d, a) => ReleaseEvidence(st, d, a, t);
    case DoAbort(ds, identity, a) => AbortClearedIff(st, Mentioned(st, ds), identity, a, t);
    case DoReconcile(s, a) => GoneIff(tx, a(t));
    case DoSettle(s, d, a) => ReadsEmptyIff(tx, HasDeparted(tx, Some(a.snapshotIdentity), a.document), a.clear);
    case _ =>
  }

  // ---------------------------------------------------------------- element references

  lemma PrintedNames(n: nat)
    requires n < 0x20_0000_0000_0000
    ensures RefToIndex("@e" + Print(n + 1)) == Some(n)
  {
    var digits, ref := Print(n + 1), "@e" + Print(n + 1);
    PrintParses(n + 1);
    assert ref[..2] == "@e" && ref[2..] == digits && ref[2] == digits[0] && digits[0] in digits;
    assert ref[3..] == digits[1..] && forall c :: c in digits[1..] ==> c in digits;
  }

  lemma NamedIsPrinted(ref: string)
    requires RefToIndex(ref).Some?
    ensures ref == "@e" + Print(RefToIndex(ref).value + 1)
  {
    var digits := ref[2..];
    assert ref == ref[..2] + digits && digits[0] == ref[2] && digits[1..] == ref[3..];
    assert digits == [digits[0]] + digits[1..];
    forall c | c in digits ensures IsDigit(c) { assert c == digits[0] || c in ref[3..]; }
    PrintOfDigits(digits);
  }

  /** The reference of element `n` is "@e" and the number of the element counted from 1, and no other text. */
  lemma RefNamesElementIff(ref: string, n: nat)
    requires n < 0x20_0000_0000_0000
    ensures RefToIndex(ref) == Some(n) <==> ref == "@e" + Print(n + 1)
  {
    PrintedNames(n);
    if RefToIndex(ref).Some? { NamedIsPrinted(ref); }
  }
}
