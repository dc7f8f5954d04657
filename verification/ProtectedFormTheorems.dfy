/** The run-level guarantees of the protected-form controller. */
module ProtectedFormTheorems {
  import opened Wrappers
  import opened BrowserTypes
  import opened ProtectedForm
  import opened ProtectedFormRuns

  // ---------------------------------------------------------------- index, phases, clicks

  /** After any run, the binding index, the live list and the released marks agree. */
  lemma IndexAgreement(ops: seq<Op>)
    ensures var st := Run(Initial, ops);
      && (forall ik :: ik in st.index ==> EntryOk(st, ik))
      && (forall t :: t in st.live <==> t in st.heap && !st.heap[t].released)
  {
    RunKeeps(Initial, ops);
  }

  lemma {:induction false} RunSplits(st: State, first: seq<Op>, then_: seq<Op>)
    ensures Run(st, first + then_) == Run(Run(st, first), then_)
    decreases |then_|
  {
    if then_ == [] {
      assert first + then_ == first;
    } else {
      var n := |then_| - 1;
      RunSplits(st, first, then_[..n]);
      assert (first + then_)[..|first + then_| - 1] == first + then_[..n];
    }
  }

  /** A transaction that has left the collecting phases, or the delivering phase, never comes back to them,
      and a released transaction stays released. */
  lemma PhasesNeverReturn(first: seq<Op>, then_: seq<Op>, t: TxId)
    requires t in Run(Initial, first).heap
    ensures var now, later := Run(Initial, first), Run(Initial, first + then_);
      && t in later.heap
      && (now.heap[t].state !in {Bound, AwaitingValues} ==> later.heap[t].state !in {Bound, AwaitingValues})
      && (now.heap[t].state !in {Bound, AwaitingValues, Delivering} ==>
            later.heap[t].state !in {Bound, AwaitingValues, Delivering})
      && (now.heap[t].released ==> later.heap[t].released)
  {
    RunKeeps(Initial, first);
    RunSplits(Initial, first, then_);
    RunKeeps(Run(Initial, first), then_);
  }

  /** The submit control of a transaction is clicked at most once on any run. */
  lemma ClickedAtMostOnce(ops: seq<Op>, t: TxId)
    ensures Count(Run(Initial, ops).page.clicks, t) <= 1
  {
    RunKeeps(Initial, ops);
  }

  /** Collecting a field clicks and writes nothing and leaves every transaction past collecting alone. */
  lemma CollectShape(st: State, session: PageSession, d: Destination, kind: Kind, aborted: bool, a: CollectAnswers)
    requires forall t :: t in st.heap ==> t < st.nextId
    ensures var st' := Collect(st, session, d, kind, aborted, a).0;
      && st'.page.clicks == st.page.clicks && st'.page.writes == st.page.writes
      && forall t :: t in st.heap && Rank(st.heap[t].state) > 1 ==> SameTx(st, st', t)
  {
    var compatible := FirstCompatible(st.heap, st.live, session, d, a.context.frameId);
    if Precheck(session, d, aborted, a.context).Some? || (session.key, BindingKey(d)) in st.index
       || OtherNeedsProtection(st, session.key, compatible) {
    } else if compatible.Some? {
      CollectIntoShape(st, compatible.value, d, kind, a);
    } else {
      CollectNewShape(st, session, d, kind, a);
    }
  }

  lemma CollectIntoShape(st: State, t: TxId, d: Destination, kind: Kind, a: CollectAnswers)
    requires t in st.heap && st.heap[t].state == AwaitingValues
    ensures var st' := CollectInto(st, t, d, kind, a).0;
      && st'.page.clicks == st.page.clicks && st'.page.writes == st.page.writes
      && forall u :: u in st.heap && u != t ==> SameTx(st, st', u)
  {
  }

  /** Work on another transaction leaves `t` as it is. */
  ghost predicate SameTx(st: State, st': State, t: TxId) {
    t in st.heap && t in st'.heap && st'.heap[t] == st.heap[t]
  }

  lemma OnlyDeliveryClicks(st: State, op: Op)
    requires HeapOk(st) && !op.DoDeliver?
    ensures Step(st, op).page.clicks == st.page.clicks
  {
    match op
    case DoCollect(session, d, kind, aborted, a) => CollectShape(st, session, d, kind, aborted, a);
    case DoRelease(d, a) => ReleaseClicksNothing(st, d, a);
    case DoAbort(ds, identity, a) => AbortClicksNothing(st, Mentioned(st, ds), identity, a);
    case DoInvalidate(s) => DepartClicksNothing(st, LiveOf(st, s));
    case DoClearSession(s) => ReleaseEachClicksNothing(st, LiveOf(st, s));
    case DoBeginSettlement(d) =>
    case DoReconcile(s, a) => ReconcileClicksNothing(st, LiveOf(st, s), a);
    case DoSettle(s, d, a) => SettleClicksNothing(st, s, d, a);
  }

  lemma ClearClicksNothing(st: State, t: TxId, a: ClearAnswers)
    requires t in st.heap
    ensures ClearDelivered(st, t, a).0.page.clicks == st.page.clicks && t in ClearDelivered(st, t, a).0.heap
  {
    ClearShape(st, t, a, false);
  }

  lemma ReleaseFieldClicksNothing(st: State, t: TxId, i: nat, d: Destination)
    ensures ReleaseField(st, t, i, d).page.clicks == st.page.clicks
  {}

  lemma ReleaseClicksNothing(st: State, d: Destination, a: ClearAnswers)
    ensures Release(st, d, a).page.clicks == st.page.clicks
  {
    var found := FindTransaction(st, d);
    if found.Some? {
      var i := FindField(st.heap[found.value].fields, BindingKey(d)).value;
      ClearClicksNothing(st, found.value, a);
      ReleaseFieldClicksNothing(st, found.value, i, d);
      ReleaseFieldClicksNothing(ClearDelivered(st, found.value, a).0, found.value, i, d);
    }
  }

  lemma AbortClicksNothing(st: State, ts: seq<TxId>, identity: Option<Identity>, a: TxId -> AbortAnswers)
    requires forall t :: t in ts ==> t in st.heap
    ensures AbortEach(st, ts, identity, a).0.page.clicks == st.page.clicks
    decreases |ts|
  {
    if ts != [] {
      ClearShape(st, ts[0], a(ts[0]).clear, HasDeparted(st.heap[ts[0]], identity, a(ts[0]).document));
      var (st', ok) := AbortOne(st, ts[0], identity, a(ts[0]));
      if ok { AbortClicksNothing(st', ts[1..], identity, a); }
    }
  }

  lemma DepartClicksNothing(st: State, ts: seq<TxId>)
    ensures DepartEach(st, ts).page.clicks == st.page.clicks
    decreases |ts|
  {
    if ts != [] { DepartClicksNothing(ReleaseTransaction(SetPhase(st, ts[0], Departed), ts[0]), ts[1..]); }
  }

  lemma ReleaseEachClicksNothing(st: State, ts: seq<TxId>)
    ensures ReleaseEach(st, ts).page.clicks == st.page.clicks
    decreases |ts|
  {
    if ts != [] { ReleaseEachClicksNothing(ReleaseTransaction(st, ts[0]), ts[1..]); }
  }

  lemma ReconcileClicksNothing(st: State, ts: seq<TxId>, a: TxId -> ChallengeAnswers)
    ensures ReconcileEach(st, ts, a).page.clicks == st.page.clicks
    decreases |ts|
  {
    if ts != [] { ReconcileClicksNothing(ReconcileOne(st, ts[0], a(ts[0])), ts[1..], a); }
  }

  lemma SettleClicksNothing(st: State, s: SessionId, d: Destination, a: SettleAnswers)
    ensures Settle(st, s, d, a).page.clicks == st.page.clicks
  {
    var found := FindTransaction(st, d);
    if SettledChallenge(st, d, a) == Some(false) {
      var departed := if found.Some? then SetPhase(st, found.value, Departed) else st;
      DepartClicksNothing(departed, LiveOf(departed, s));
    } else if found.Some? {
      var phased := SetPhase(st, found.value, if SettledChallenge(st, d, a) == Some(true) then StillPresent else Blocked);
      ClearShape(phased, found.value, a.clear, true);
      ClearShape(phased, found.value, a.clear, false);
    }
  }

  ghost predicate Clicks(st: State, op: Op, st': State) {
    && op.DoDeliver? && FindTransaction(st, op.d).Some?
    && var t := FindTransaction(st, op.d).value;
       && st'.page.clicks == st.page.clicks + [t]
       && st.heap[t].state in {AwaitingValues, Delivering}
       && t in st'.heap && st'.heap[t].submit.Some?
       && forall f :: f in st'.heap[t].fields ==> f.delivered && (t, KeyOf(f)) in st'.page.writes
  }

  /** Whenever a step of a run dispatches a click, it is a delivery into that transaction, the transaction was
      still collecting or delivering, and every one of its fields has been delivered by a confirmed write. */
  lemma ClickOnlyWhenComplete(ops: seq<Op>, op: Op)
    ensures var st := Run(Initial, ops); var st' := Step(st, op);
      st'.page.clicks == st.page.clicks || Clicks(st, op, st')
  {
    var st := Run(Initial, ops);
    RunKeeps(Initial, ops);
    StepClicks(st, op);
  }

  lemma StepClicks(st: State, op: Op)
    requires Inv(st)
    ensures Step(st, op).page.clicks == st.page.clicks || Clicks(st, op, Step(st, op))
  {
    if op.DoDeliver? {
      DeliverClicks(st, op);
      StepKeeps(st, op);
    } else {
      OnlyDeliveryClicks(st, op);
    }
  }

  lemma DeliverClicks(st: State, op: Op)
    requires op.DoDeliver?
    ensures var st' := Step(st, op);
      st'.page.clicks == st.page.clicks ||
      (&& FindTransaction(st, op.d).Some?
       && var t := FindTransaction(st, op.d).value;
         && st'.page.clicks == st.page.clicks + [t] && st.heap[t].state in {AwaitingValues, Delivering}
         && t in st'.heap && st'.heap[t].submit.Some? && AllDelivered(st'.heap[t]))
  {
    DeliverShape(st, op.session, op.d, op.kind, op.aborted, op.value, op.deliver);
  }

  // ---------------------------------------------------------------- protection is kept

  /** The transaction may have left a secret on the page and nothing has shown otherwise. */
  ghost predicate Exposed(st: State, t: TxId) {
    t in st.heap && !st.heap[t].released && st.heap[t].state != Departed && AnyAttempted(st.heap[t])
  }

  lemma ExposedIsSensitive(st: State, t: TxId)
    requires Inv(st) && Exposed(st, t)
    ensures RequiresProtection(st.heap[t]) && IsSensitive(st, st.heap[t].sessionId)
  {
    var f :| f in st.heap[t].fields && f.deliveryAttempted;
    assert Rank(st.heap[t].state) > 1;
  }

  /** The clear pass that will be chosen for `tx` reads every attempted field back as empty. */
  predicate ClearProves(tx: Transaction, departed: bool, a: ClearAnswers) {
    if departed || a.document == No then CurrentReadsEmpty(a) else FieldsReadEmpty(tx, a)
  }

  /** Clearing `t` for an abort succeeds. */
  predicate AbortClears(st: State, t: TxId, identity: Option<Identity>, a: AbortAnswers) {
    t in st.heap && (AnyAttempted(st.heap[t]) ==>
      ClearProves(st.heap[t], HasDeparted(st.heap[t], identity, a.document), a.clear))
  }

  /** The loop of an abort gets as far as clearing `t`: every transaction before it is cleared. */
  predicate AbortReaches(st: State, ts: seq<TxId>, identity: Option<Identity>, a: TxId -> AbortAnswers, t: TxId) {
    ts != [] && AbortClears(st, ts[0], identity, a(ts[0])) && (ts[0] == t || AbortReaches(st, ts[1..], identity, a, t))
  }

  /** What lets go of protection: a clear pass that is made and read back as empty, an answer that the challenge of a
      fully released transaction has departed, or the session being invalidated or cleared. Collecting, delivering and
      beginning settlement never do. */
  predicate Discharges(st: State, op: Op, t: TxId)
    requires t in st.heap
  {
    var tx := st.heap[t];
    match op
    case DoRelease(d, a) =>
      && FindTransaction(st, d) == Some(t)
      && var i := FindField(tx.fields, BindingKey(d)).value;
         !tx.fields[i].released && ClearsOnRelease(tx, i) && ClearProves(tx, false, a)
    case DoAbort(ds, identity, a) => AbortReaches(st, Mentioned(st, ds), identity, a, t)
    case DoInvalidate(s) => s == tx.sessionId
    case DoClearSession(s) => s == tx.sessionId
    case DoReconcile(s, a) =>
      s == tx.sessionId && tx.state != Settling && AllReleased(tx) && ChallengeCurrent(tx, a(t)) == Some(false)
    case DoSettle(s, d, a) =>
      if SettledChallenge(st, d, a) == Some(false) then s == tx.sessionId || FindTransaction(st, d) == Some(t)
      else && FindTransaction(st, d) == Some(t) && tx.submit.Some? && tx.submission != NotRequested
           && ClearProves(tx, HasDeparted(tx, Some(a.snapshotIdentity), a.document), a.clear)
    case _ => false
  }

  lemma ResetLeavesNothing(fields: seq<Field>)
    ensures forall f :: f in ResetFields(fields) ==> !f.deliveryAttempted
  {
    forall f | f in ResetFields(fields) ensures !f.deliveryAttempted {
      var i :| 0 <= i < |fields| && ResetFields(fields)[i] == f;
    }
  }

  /** A clear pass over an exposed transaction ends its exposure exactly when it is proved, and touches no other. */
  lemma ClearExposure(st: State, u: TxId, a: ClearAnswers, current: bool, t: TxId)
    requires u in st.heap && Exposed(st, t)
    ensures var (st', ok) := if current then ClearCurrent(st, u, a) else ClearDelivered(st, u, a);
      && (ok <==> (AnyAttempted(st.heap[u]) ==> ClearProves(st.heap[u], current, a)))
      && (u != t ==> SameTx(st, st', t))
      && (u == t ==> (Exposed(st', t) <==> !ok))
      && (forall v :: v in st.heap && v != u ==> SameTx(st, st', v))
  {
    ClearShape(st, u, a, current);
    ResetLeavesNothing(st.heap[u].fields);
  }

  // ---------------------------------------------------------------- reconciling

  lemma {:induction false} ReconcileRetains(st: State, ts: seq<TxId>, a: TxId -> ChallengeAnswers, t: TxId)
    requires Exposed(st, t) && Rank(st.heap[t].state) > 1
    requires t in ts ==> !(st.heap[t].state != Settling && AllReleased(st.heap[t]) && ChallengeCurrent(st.heap[t], a(t)) == Some(false))
    ensures Exposed(ReconcileEach(st, ts, a), t)
    decreases |ts|
  {
    if ts != [] {
      var st' := ReconcileOne(st, ts[0], a(ts[0]));
      if ts[0] == t {
        assert exists f :: f in st.heap[t].fields && f.deliveryAttempted;
        assert RequiresProtection(st.heap[t]);
        assert st'.heap[t].fields == st.heap[t].fields;
      } else {
        assert SameTx(st, st', t);
      }
      ReconcileRetains(st', ts[1..], a, t);
    }
  }

  lemma {:induction false} ReconcileStaysReleased(st: State, ts: seq<TxId>, a: TxId -> ChallengeAnswers, t: TxId)
    requires t in st.heap && st.heap[t].released
    ensures t in ReconcileEach(st, ts, a).heap && ReconcileEach(st, ts, a).heap[t].released
    decreases |ts|
  {
    if ts != [] { ReconcileStaysReleased(ReconcileOne(st, ts[0], a(ts[0])), ts[1..], a, t); }
  }

  lemma {:induction false} ReconcileDischarges(st: State, ts: seq<TxId>, a: TxId -> ChallengeAnswers, t: TxId)
    requires t in ts && Exposed(st, t) && Rank(st.heap[t].state) > 1 && st.heap[t].state != Settling
    requires AllReleased(st.heap[t]) && ChallengeCurrent(st.heap[t], a(t)) == Some(false)
    ensures t in ReconcileEach(st, ts, a).heap && ReconcileEach(st, ts, a).heap[t].released
    decreases |ts|
  {
    var st' := ReconcileOne(st, ts[0], a(ts[0]));
    if ts[0] == t {
      assert RequiresProtection(st.heap[t]) by { assert exists f :: f in st.heap[t].fields && f.deliveryAttempted; }
      ReconcileStaysReleased(st', ts[1..], a, t);
    } else {
      assert SameTx(st, st', t);
      assert ts == [ts[0]] + ts[1..];
      ReconcileDischarges(st', ts[1..], a, t);
    }
  }

  lemma ReconcileExact(st: State, s: SessionId, a: TxId -> ChallengeAnswers, t: TxId)
    requires Inv(st) && Exposed(st, t)
    ensures Exposed(Reconcile(st, s, a), t) <==> !Discharges(st, DoReconcile(s, a), t)
  {
    assert Rank(st.heap[t].state) > 1;
    if Discharges(st, DoReconcile(s, a), t) {
      ReconcileDischarges(st, LiveOf(st, s), a, t);
    } else {
      ReconcileRetains(st, LiveOf(st, s), a, t);
    }
  }

  // ---------------------------------------------------------------- aborting

  lemma {:induction false} AbortOthers(st: State, ts: seq<TxId>, identity: Option<Identity>, a: TxId -> AbortAnswers, t: TxId)
    requires (forall u :: u in ts ==> u in st.heap) && t in st.heap && t !in ts
    ensures SameTx(st, AbortEach(st, ts, identity, a).0, t)
    decreases |ts|
  {
    if ts != [] {
      ClearShape(st, ts[0], a(ts[0]).clear, HasDeparted(st.heap[ts[0]], identity, a(ts[0]).document));
      var (st', ok) := AbortOne(st, ts[0], identity, a(ts[0]));
      if ok { AbortOthers(st', ts[1..], identity, a, t); }
    }
  }

  /** What the loop reaches depends on the listed transactions only. */
  lemma {:induction false} AbortReachesFrame(st: State, st': State, ts: seq<TxId>, identity: Option<Identity>,
                                             a: TxId -> AbortAnswers, t: TxId)
    requires forall u :: u in ts ==> SameTx(st, st', u)
    ensures AbortReaches(st', ts, identity, a, t) <==> AbortReaches(st, ts, identity, a, t)
    decreases |ts|
  {
    if ts != [] {
      assert SameTx(st, st', ts[0]);
      assert AbortClears(st', ts[0], identity, a(ts[0])) <==> AbortClears(st, ts[0], identity, a(ts[0]));
      AbortReachesFrame(st, st', ts[1..], identity, a, t);
    }
  }

  lemma {:induction false} AbortExact(st: State, ts: seq<TxId>, identity: Option<Identity>, a: TxId -> AbortAnswers, t: TxId)
    requires (forall u :: u in ts ==> u in st.heap) && NoDuplicates(ts) && Exposed(st, t)
    ensures Exposed(AbortEach(st, ts, identity, a).0, t) <==> !AbortReaches(st, ts, identity, a, t)
    decreases |ts|
  {
    if ts != [] {
      var u := ts[0];
      var (st', ok) := AbortOne(st, u, identity, a(u));
      ClearExposure(st, u, a(u).clear, HasDeparted(st.heap[u], identity, a(u).document), t);
      assert ok <==> AbortClears(st, u, identity, a(u));
      if ok && u == t {
        assert t !in ts[1..];
        AbortOthers(st', ts[1..], identity, a, t);
      } else if ok {
        AbortReachesFrame(st, st', ts[1..], identity, a, t);
        AbortExact(st', ts[1..], identity, a, t);
      }
    }
  }

  lemma {:induction false} MentionedOnce(st: State, ds: seq<Destination>)
    ensures NoDuplicates(Mentioned(st, ds))
  {
    if ds != [] { MentionedOnce(st, ds[..|ds| - 1]); }
  }

  // ---------------------------------------------------------------- invalidating and clearing a session

  lemma {:induction false} DepartOthers(st: State, ts: seq<TxId>, t: TxId)
    requires t in st.heap && t !in ts
    ensures SameTx(st, DepartEach(st, ts), t)
    decreases |ts|
  {
    if ts != [] { DepartOthers(ReleaseTransaction(SetPhase(st, ts[0], Departed), ts[0]), ts[1..], t); }
  }

  lemma {:induction false} DepartReleases(st: State, ts: seq<TxId>, t: TxId)
    requires t in st.heap && (t in ts || st.heap[t].released)
    ensures t in DepartEach(st, ts).heap && DepartEach(st, ts).heap[t].released
    decreases |ts|
  {
    if ts != [] { DepartReleases(ReleaseTransaction(SetPhase(st, ts[0], Departed), ts[0]), ts[1..], t); }
  }

  lemma {:induction false} ReleaseOthers(st: State, ts: seq<TxId>, t: TxId)
    requires t in st.heap && t !in ts
    ensures SameTx(st, ReleaseEach(st, ts), t)
    decreases |ts|
  {
    if ts != [] { ReleaseOthers(ReleaseTransaction(st, ts[0]), ts[1..], t); }
  }

  lemma {:induction false} ReleaseReleases(st: State, ts: seq<TxId>, t: TxId)
    requires t in st.heap && (t in ts || st.heap[t].released)
    ensures t in ReleaseEach(st, ts).heap && ReleaseEach(st, ts).heap[t].released
    decreases |ts|
  {
    if ts != [] { ReleaseReleases(ReleaseTransaction(st, ts[0]), ts[1..], t); }
  }

  lemma SessionExact(st: State, s: SessionId, t: TxId)
    requires LiveOk(st) && Exposed(st, t)
    ensures Exposed(InvalidateSession(st, s), t) <==> s != st.heap[t].sessionId
    ensures Exposed(ClearSession(st, s), t) <==> s != st.heap[t].sessionId
  {
    if s == st.heap[t].sessionId {
      DepartReleases(st, LiveOf(st, s), t);
      ReleaseReleases(st, LiveOf(st, s), t);
    } else {
      DepartOthers(st, LiveOf(st, s), t);
      ReleaseOthers(st, LiveOf(st, s), t);
    }
  }

  // ---------------------------------------------------------------- collecting and delivering

  lemma CollectRetains(st: State, session: PageSession, d: Destination, kind: Kind, aborted: bool, a: CollectAnswers, t: TxId)
    requires HeapOk(st) && Exposed(st, t)
    ensures SameTx(st, Collect(st, session, d, kind, aborted, a).0, t)
  {
    assert Rank(st.heap[t].state) > 1;
    CollectShape(st, session, d, kind, aborted, a);
  }

  lemma DeliverRetains(st: State, session: PageSession, d: Destination, kind: Kind, aborted: bool,
                       value: Option<string>, a: DeliverAnswers, t: TxId)
    requires Exposed(st, t)
    ensures Exposed(Deliver(st, session, d, kind, aborted, value, a).0, t)
  {
    var st' := Deliver(st, session, d, kind, aborted, value, a).0;
    DeliverShape(st, session, d, kind, aborted, value, a);
    if st' != st {
      if FindTransaction(st, d) == Some(t) {
        AttemptExposes(st, st', d, t, a.write == CallTrue);
      } else {
        assert SameTx(st, st', t);
      }
    }
  }

  /** The field being delivered is marked attempted, and delivery never releases or departs. */
  lemma AttemptExposes(st: State, st': State, d: Destination, t: TxId, confirmed: bool)
    requires FindTransaction(st, d) == Some(t) && !st.heap[t].released
    requires Follows(AttemptedState(st, t, FindField(st.heap[t].fields, BindingKey(d)).value, confirmed), t, st')
    ensures Exposed(st', t)
  {
    var i := FindField(st.heap[t].fields, BindingKey(d)).value;
    assert st'.heap[t].fields[i].deliveryAttempted;
    assert st'.heap[t].fields[i] in st'.heap[t].fields;
  }

  // ---------------------------------------------------------------- releasing

  lemma ReleaseExact(st: State, d: Destination, a: ClearAnswers, t: TxId)
    requires Exposed(st, t) && Rank(st.heap[t].state) > 1
    ensures Exposed(Release(st, d, a), t) <==> !Discharges(st, DoRelease(d, a), t)
  {
    if FindTransaction(st, d).Some? {
      var u := FindTransaction(st, d).value;
      var i := FindField(st.heap[u].fields, BindingKey(d)).value;
      if st.heap[u].fields[i].released {
      } else if ClearsOnRelease(st.heap[u], i) {
        ReleaseClearedExact(st, u, i, d, a, t);
      } else {
        ReleaseFieldRetains(st, u, i, d, t);
      }
    }
  }

  lemma ReleaseClearedExact(st: State, u: TxId, i: nat, d: Destination, a: ClearAnswers, t: TxId)
    requires Exposed(st, t) && Rank(st.heap[t].state) > 1 && u in st.heap && i < |st.heap[u].fields| && AnyAttempted(st.heap[u])
    ensures var (cleared, ok) := ClearDelivered(st, u, a);
      Exposed(if ok then ReleaseField(cleared, u, i, d) else cleared, t) <==> !(u == t && ClearProves(st.heap[u], false, a))
  {
    var (cleared, ok) := ClearDelivered(st, u, a);
    ClearExposure(st, u, a, false, t);
    ClearKeepsFields(st, u, a, i);
    if ok {
      if u == t {
        assert !AnyAttempted(cleared.heap[t]);
        ReleaseFieldStaysCleared(cleared, t, i, d);
      } else {
        ReleaseFieldRetains(cleared, u, i, d, t);
      }
    }
  }

  /** Releasing a field attempts nothing. */
  lemma ReleaseFieldStaysCleared(st: State, t: TxId, i: nat, d: Destination)
    requires t in st.heap && i < |st.heap[t].fields| && !AnyAttempted(st.heap[t])
    ensures !Exposed(ReleaseField(st, t, i, d), t)
  {
    var tx := MarkReleased(st.heap[t], i);
    assert st.heap[t].fields[i] in st.heap[t].fields;
    assert !AnyAttempted(tx);
    assert ReleaseField(st, t, i, d).heap[t].fields == tx.fields;
  }

  /** Marking a field released never loses an attempted write: the transaction then waits to be reconciled. */
  lemma ReleaseFieldRetains(st: State, u: TxId, i: nat, d: Destination, t: TxId)
    requires Exposed(st, t) && Rank(st.heap[t].state) > 1
    requires u in st.heap && i < |st.heap[u].fields|
    ensures Exposed(ReleaseField(st, u, i, d), t)
  {
    if u == t {
      var f :| f in st.heap[t].fields && f.deliveryAttempted;
      var j :| 0 <= j < |st.heap[t].fields| && st.heap[t].fields[j] == f;
      var tx := MarkReleased(st.heap[t], i);
      assert tx.fields[j] in tx.fields && tx.fields[j].deliveryAttempted;
      assert RequiresProtection(tx);
    }
  }

  // ---------------------------------------------------------------- settling

  lemma SettleExact(st: State, s: SessionId, d: Destination, a: SettleAnswers, t: TxId)
    requires LiveOk(st) && Exposed(st, t)
    ensures Exposed(Settle(st, s, d, a), t) <==> !Discharges(st, DoSettle(s, d, a), t)
  {
    var found := FindTransaction(st, d);
    if SettledChallenge(st, d, a) == Some(false) {
      SettleAwayExact(st, if found.Some? then SetPhase(st, found.value, Departed) else st, s, found, t);
    } else if found.Some? {
      SettleHereExact(st, found.value, if SettledChallenge(st, d, a) == Some(true) then StillPresent else Blocked, a, t);
    }
  }

  lemma SettleAwayExact(st: State, departed: State, s: SessionId, found: Option<TxId>, t: TxId)
    requires LiveOk(st) && Exposed(st, t) && departed == if found.Some? then SetPhase(st, found.value, Departed) else st
    ensures Exposed(InvalidateSession(departed, s), t) <==> !(s == st.heap[t].sessionId || found == Some(t))
  {
    if found == Some(t) {
      if s == st.heap[t].sessionId {
        DepartReleases(departed, LiveOf(departed, s), t);
      } else {
        DepartOthers(departed, LiveOf(departed, s), t);
      }
    } else {
      assert SameTx(st, departed, t);
      SessionExact(departed, s, t);
    }
  }

  lemma SettleHereExact(st: State, u: TxId, phase: Phase, a: SettleAnswers, t: TxId)
    requires Exposed(st, t) && u in st.heap && phase in {StillPresent, Blocked}
    ensures var tx, phased := st.heap[u], SetPhase(st, u, phase);
      var departed := HasDeparted(tx, Some(a.snapshotIdentity), a.document);
      var st' := if tx.submit.None? || tx.submission == NotRequested then phased
                 else if departed then ClearCurrent(phased, u, a.clear).0 else ClearDelivered(phased, u, a.clear).0;
      Exposed(st', t) <==> !(u == t && tx.submit.Some? && tx.submission != NotRequested && ClearProves(tx, departed, a.clear))
  {
    var tx, phased := st.heap[u], SetPhase(st, u, phase);
    assert phased.heap[u].fields == tx.fields;
    assert AnyAttempted(phased.heap[t]) by { assert AnyAttempted(st.heap[t]); }
    assert FieldsReadEmpty(phased.heap[u], a.clear) <==> FieldsReadEmpty(tx, a.clear);
    ClearExposure(phased, u, a.clear, HasDeparted(tx, Some(a.snapshotIdentity), a.document), t);
  }

  lemma BeginSettlementRetains(st: State, d: Destination, t: TxId)
    requires Exposed(st, t)
    ensures Exposed(BeginSettlement(st, d), t)
  {
    assert BeginSettlement(st, d).heap[t].fields == st.heap[t].fields;
  }

  // ---------------------------------------------------------------- every operation, every run

  /** In every reachable state an exposed transaction stays exposed exactly when the operation does not discharge it. */
  lemma StepRetains(st: State, op: Op, t: TxId)
    requires Inv(st) && Exposed(st, t)
    ensures Exposed(Step(st, op), t) <==> !Discharges(st, op, t)
  {
    assert Rank(st.heap[t].state) > 1;
    match op
    case DoCollect(session, d, kind, aborted, a) => CollectRetains(st, session, d, kind, aborted, a, t);
    case DoDeliver(session, d, kind, aborted, value, a) => DeliverRetains(st, session, d, kind, aborted, value, a, t);
    case DoRelease(d, a) => ReleaseExact(st, d, a, t);
    case DoAbort(ds, identity, a) =>
      MentionedOnce(st, ds);
      AbortExact(st, Mentioned(st, ds), identity, a, t);
    case DoInvalidate(s) => SessionExact(st, s, t);
    case DoClearSession(s) => SessionExact(st, s, t);
    case DoBeginSettlement(d) => BeginSettlementRetains(st, d, t);
    case DoReconcile(s, a) => ReconcileExact(st, s, a, t);
    case DoSettle(s, d, a) => SettleExact(st, s, d, a, t);
  }

  /** A delivery that changes anything has attempted a write, and leaves its transaction exposed. */
  lemma DeliveryExposes(st: State, op: Op)
    requires Inv(st) && op.DoDeliver? && Step(st, op) != st
    ensures FindTransaction(st, op.d).Some? && Exposed(Step(st, op), FindTransaction(st, op.d).value)
  {
    DeliverShape(st, op.session, op.d, op.kind, op.aborted, op.value, op.deliver);
    FoundInSession(st, op.d);
    AttemptExposes(st, Step(st, op), op.d, FindTransaction(st, op.d).value, op.deliver.write == CallTrue);
  }

  lemma ExposureStep(st: State, front: seq<Op>, op: Op, t: TxId)
    requires Inv(st) && Exposed(Run(st, front), t) && !Discharges(Run(st, front), op, t)
    ensures var now, next := Run(st, front), Step(Run(st, front), op);
      Exposed(next, t) && next.heap[t].sessionId == now.heap[t].sessionId
  {
    RunKeeps(st, front);
    StepRetains(Run(st, front), op, t);
    StepKeeps(Run(st, front), op);
  }

  lemma {:induction false} ExposureLasts(st: State, ops: seq<Op>, n: nat, t: TxId)
    requires Inv(st) && Exposed(st, t) && n <= |ops|
    requires forall i :: 0 <= i < n ==> t in Run(st, ops[..i]).heap ==> !Discharges(Run(st, ops[..i]), ops[i], t)
    ensures Exposed(Run(st, ops[..n]), t) && Run(st, ops[..n]).heap[t].sessionId == st.heap[t].sessionId
    decreases n
  {
    if n > 0 {
      assert ops[..n][..n - 1] == ops[..n - 1];
      ExposureLasts(st, ops, n - 1, t);
      ExposureStep(st, ops[..n - 1], ops[n - 1], t);
    }
  }

  /** From a delivery that attempts a write, the session stays sensitive on every continuation of the run in
      which no operation discharges that transaction. */
  lemma SensitiveUntilDischarged(before: seq<Op>, delivery: Op, after: seq<Op>)
    requires delivery.DoDeliver? && Step(Run(Initial, before), delivery) != Run(Initial, before)
    requires FindTransaction(Run(Initial, before), delivery.d).Some? ==>
               var t := FindTransaction(Run(Initial, before), delivery.d).value;
               var written := Step(Run(Initial, before), delivery);
               forall i :: 0 <= i < |after| ==> t in Run(written, after[..i]).heap ==>
                 !Discharges(Run(written, after[..i]), after[i], t)
    ensures IsSensitive(Run(Step(Run(Initial, before), delivery), after), delivery.d.sessionId)
  {
    RunKeeps(Initial, before);
    ExposedUntilDischarged(Run(Initial, before), delivery, after);
  }

  lemma ExposedUntilDischarged(st: State, delivery: Op, after: seq<Op>)
    requires Inv(st) && delivery.DoDeliver? && Step(st, delivery) != st
    requires FindTransaction(st, delivery.d).Some? ==>
               var t := FindTransaction(st, delivery.d).value;
               forall i :: 0 <= i < |after| ==> t in Run(Step(st, delivery), after[..i]).heap ==>
                 !Discharges(Run(Step(st, delivery), after[..i]), after[i], t)
    ensures IsSensitive(Run(Step(st, delivery), after), delivery.d.sessionId)
  {
    StepKeeps(st, delivery);
    DeliveryExposes(st, delivery);
    FoundInSession(st, delivery.d);
    ExposedStaysSensitive(Step(st, delivery), after, FindTransaction(st, delivery.d).value);
  }

  lemma ExposedStaysSensitive(st: State, ops: seq<Op>, t: TxId)
    requires Inv(st) && Exposed(st, t)
    requires forall i :: 0 <= i < |ops| ==> t in Run(st, ops[..i]).heap ==> !Discharges(Run(st, ops[..i]), ops[i], t)
    ensures IsSensitive(Run(st, ops), st.heap[t].sessionId)
  {
    ExposureLasts(st, ops, |ops|, t);
    assert ops[..|ops|] == ops;
    RunKeeps(st, ops);
    ExposedIsSensitive(Run(st, ops), t);
  }
}
