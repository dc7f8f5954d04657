/** When the binding index also finds every unreleased field, and exactly which release breaks that. */
module ProtectedFormIndex {
  import opened Wrappers
  import opened BrowserTypes
  import opened ProtectedForm
  import opened ProtectedFormRuns

  /** The index reaches every unreleased field of every live transaction. */
  ghost predicate Findable(st: State) {
    forall t, f :: t in st.live && t in st.heap && f in st.heap[t].fields && !f.released ==>
      (st.heap[t].sessionId, KeyOf(f)) in st.index && st.index[(st.heap[t].sessionId, KeyOf(f))] == t
  }

  predicate HasKey(tx: Transaction, key: Key) {
    exists f :: f in tx.fields && KeyOf(f) == key
  }

  /** Live transactions of one session use different keys, released fields included. */
  ghost predicate KeysApart(st: State) {
    forall t, u, f :: t in st.live && u in st.live && t != u && t in st.heap && u in st.heap
                      && st.heap[t].sessionId == st.heap[u].sessionId && f in st.heap[t].fields
                      ==> !HasKey(st.heap[u], KeyOf(f))
  }

  /** Another live transaction of the session holds an unreleased field under one of `t`'s keys. */
  ghost predicate SharesKey(st: State, t: TxId)
    requires t in st.heap
  {
    exists u, f :: u in st.live && u != t && u in st.heap && st.heap[u].sessionId == st.heap[t].sessionId
                   && f in st.heap[u].fields && !f.released && HasKey(st.heap[t], KeyOf(f))
  }

  /** Releasing a transaction drops index entries by key alone, so the index still finds every unreleased
      field afterwards exactly when no other transaction of the session has rebound one of those keys. */
  lemma ReleaseFindableIff(st: State, t: TxId)
    requires LiveOk(st) && Findable(st) && t in st.live
    ensures Findable(ReleaseTransaction(st, t)) <==> !SharesKey(st, t)
  {
    var st' := ReleaseTransaction(st, t);
    var tx := st.heap[t];
    assert forall k :: FindField(tx.fields, k).Some? <==> HasKey(tx, k) by {
      forall k | HasKey(tx, k) ensures FindField(tx.fields, k).Some? {}
      forall k | FindField(tx.fields, k).Some? ensures HasKey(tx, k) {
        assert tx.fields[FindField(tx.fields, k).value] in tx.fields;
      }
    }
    if SharesKey(st, t) {
      var u, f :| u in st.live && u != t && u in st.heap && st.heap[u].sessionId == tx.sessionId
                  && f in st.heap[u].fields && !f.released && HasKey(tx, KeyOf(f));
      assert u in st'.live && st'.heap[u] == st.heap[u];
      assert (tx.sessionId, KeyOf(f)) !in st'.index;
    } else {
      forall u, f | u in st'.live && u in st'.heap && f in st'.heap[u].fields && !f.released
        ensures (st'.heap[u].sessionId, KeyOf(f)) in st'.index && st'.index[(st'.heap[u].sessionId, KeyOf(f))] == u
      {
        assert u in st.live && u != t;
      }
    }
  }

  ghost predicate Separate(st: State) { Findable(st) && KeysApart(st) }

  /** No reason to refuse a collection before the page is asked about the field. */
  predicate Admitted(st: State, op: Op)
    requires op.DoCollect?
  {
    && Precheck(op.session, op.d, op.aborted, op.collect.context).None?
    && (op.session.key, BindingKey(op.d)) !in st.index
    && !OtherNeedsProtection(st, op.session.key, FirstCompatible(st.heap, st.live, op.session, op.d, op.collect.context.frameId))
  }

  /** The reference names an element, and the page shows it as a usable field. */
  predicate FieldUsable(d: Destination, a: CollectAnswers) {
    RefToIndex(d.ref).Some? && a.field == Resolved && InspectionRejection(a.inspection, false).None?
  }

  /** The submit control a first field asks for, if any, is on the page and actionable. */
  predicate SubmitUsable(d: Destination, a: CollectAnswers) {
    d.submitRef.Some? ==>
      RefToIndex(d.submitRef.value).Some? && a.submit == Resolved && SubmitIsActionable(a.submitInspection)
  }

  /** The collection binds a field: into the compatible transaction if there is one, else into a new one. */
  predicate Binds(st: State, op: Op) {
    op.DoCollect? && Admitted(st, op) && FieldUsable(op.d, op.collect) &&
    match FirstCompatible(st.heap, st.live, op.session, op.d, op.collect.context.frameId)
    case Some(t) =>
      op.collect.documentCurrent == Yes && (st.heap[t].submit.Some? ==> SubmitIsActionable(op.collect.submitInspection))
    case None => op.collect.documentResolves && SubmitUsable(op.d, op.collect)
  }

  /** A collection is verified exactly when it binds a field; any other one changes at most the page. */
  lemma VerifiedIffBinds(st: State, op: Op)
    requires op.DoCollect?
    ensures var (st', verification) := Collect(st, op.session, op.d, op.kind, op.aborted, op.collect);
      && (verification == Verified <==> Binds(st, op))
      && (!Binds(st, op) ==> st' == st.(page := st'.page))
  {
    if Admitted(st, op) {
      match FirstCompatible(st.heap, st.live, op.session, op.d, op.collect.context.frameId)
      case Some(t) => IntoVerifiedIff(st, t, op.d, op.kind, op.collect);
      case None => NewVerifiedIff(st, op.session, op.d, op.kind, op.collect);
    }
  }

  lemma IntoVerifiedIff(st: State, t: TxId, d: Destination, kind: Kind, a: CollectAnswers)
    requires t in st.heap
    ensures var (st', verification) := CollectInto(st, t, d, kind, a);
      && (verification == Verified <==>
            FieldUsable(d, a) && a.documentCurrent == Yes && (st.heap[t].submit.Some? ==> SubmitIsActionable(a.submitInspection)))
      && (verification != Verified ==> st' == st.(page := st'.page))
  {}

  lemma NewVerifiedIff(st: State, session: PageSession, d: Destination, kind: Kind, a: CollectAnswers)
    requires d.identity.Some?
    ensures var (st', verification) := CollectNew(st, session, d, kind, a);
      && (verification == Verified <==> FieldUsable(d, a) && a.documentResolves && SubmitUsable(d, a))
      && (verification != Verified ==> st' == st.(page := st'.page))
  {}

  /** A field is bound under a key that another live transaction of the session still carries. */
  ghost predicate Rebinds(st: State, op: Op) {
    Binds(st, op) &&
    exists u :: u in st.live && u in st.heap && st.heap[u].sessionId == op.session.key
                && Some(u) != FirstCompatible(st.heap, st.live, op.session, op.d, op.collect.context.frameId)
                && HasKey(st.heap[u], BindingKey(op.d))
  }

  ghost predicate SameBindings(tx: Transaction, tx': Transaction) {
    && tx'.sessionId == tx.sessionId && tx'.released == tx.released && |tx'.fields| == |tx.fields|
    && forall i :: 0 <= i < |tx.fields| ==>
         tx'.fields[i].destination == tx.fields[i].destination && tx'.fields[i].released == tx.fields[i].released
  }

  lemma SameBindingsFields(tx: Transaction, tx': Transaction)
    requires SameBindings(tx, tx')
    ensures forall f' :: f' in tx'.fields ==> exists f :: f in tx.fields && KeyOf(f) == KeyOf(f') && f.released == f'.released
  {
    forall f' | f' in tx'.fields ensures exists f :: f in tx.fields && KeyOf(f) == KeyOf(f') && f.released == f'.released {
      var i :| 0 <= i < |tx'.fields| && tx'.fields[i] == f';
      assert tx.fields[i] in tx.fields;
    }
  }

  /** Every field of `st'` stands for a field of `st` under the same key in the same transaction. */
  ghost predicate KeysFrom(st: State, st': State) {
    forall u, f :: u in st'.live && u in st'.heap && f in st'.heap[u].fields ==>
      && u in st.live && u in st.heap && st.heap[u].sessionId == st'.heap[u].sessionId
      && exists g :: g in st.heap[u].fields && KeyOf(g) == KeyOf(f)
  }

  lemma KeysApartFrame(st: State, st': State)
    requires KeysApart(st) && KeysFrom(st, st')
    ensures KeysApart(st')
  {
    forall u, v, f | u in st'.live && v in st'.live && u != v && u in st'.heap && v in st'.heap
                     && st'.heap[u].sessionId == st'.heap[v].sessionId && f in st'.heap[u].fields
      ensures !HasKey(st'.heap[v], KeyOf(f))
    {}
  }

  lemma PutSeparate(st: State, t: TxId, tx: Transaction, p: Page)
    requires Separate(st) && t in st.heap && SameBindings(st.heap[t], tx)
    ensures Separate(PutBoth(st, t, tx, p))
  {
    var st' := PutBoth(st, t, tx, p);
    SameBindingsFields(st.heap[t], tx);
    forall u, f | u in st'.live && u in st'.heap && f in st'.heap[u].fields && !f.released
      ensures (st'.heap[u].sessionId, KeyOf(f)) in st'.index && st'.index[(st'.heap[u].sessionId, KeyOf(f))] == u
    {
      var g :| g in st.heap[u].fields && KeyOf(g) == KeyOf(f) && g.released == f.released;
    }
    forall u, f | u in st'.live && u in st'.heap && f in st'.heap[u].fields
      ensures exists g :: g in st.heap[u].fields && KeyOf(g) == KeyOf(f)
    {
      if u == t {
        var g :| g in st.heap[u].fields && KeyOf(g) == KeyOf(f) && g.released == f.released;
      }
    }
    KeysApartFrame(st, st');
  }

  lemma PhaseSeparate(st: State, t: TxId, phase: Phase)
    requires Separate(st)
    ensures Separate(SetPhase(st, t, phase))
  {
    if t in st.heap { PutSeparate(st, t, st.heap[t].(state := phase), st.page); }
  }

  lemma ReleaseTransactionSeparate(st: State, t: TxId)
    requires LiveOk(st) && Separate(st)
    ensures Separate(ReleaseTransaction(st, t))
  {
    if t in st.heap && !st.heap[t].released {
      assert !SharesKey(st, t);
      ReleaseFindableIff(st, t);
    }
  }

  lemma {:induction false} DepartEachSeparate(st: State, ts: seq<TxId>)
    requires Inv(st) && Separate(st)
    ensures Separate(DepartEach(st, ts))
    decreases |ts|
  {
    if ts != [] {
      var phased := SetPhase(st, ts[0], Departed);
      PhaseKeeps(st, ts[0], Departed);
      PhaseSeparate(st, ts[0], Departed);
      ReleaseTransactionKeeps(phased, ts[0]);
      ReleaseTransactionSeparate(phased, ts[0]);
      DepartEachSeparate(ReleaseTransaction(phased, ts[0]), ts[1..]);
    }
  }

  lemma {:induction false} ReleaseEachSeparate(st: State, ts: seq<TxId>)
    requires Inv(st) && Separate(st)
    ensures Separate(ReleaseEach(st, ts))
    decreases |ts|
  {
    if ts != [] {
      ReleaseTransactionKeeps(st, ts[0]);
      ReleaseTransactionSeparate(st, ts[0]);
      ReleaseEachSeparate(ReleaseTransaction(st, ts[0]), ts[1..]);
    }
  }

  lemma ClearSeparate(st: State, t: TxId, a: ClearAnswers, current: bool)
    requires Separate(st) && t in st.heap
    ensures Separate(if current then ClearCurrent(st, t, a).0 else ClearDelivered(st, t, a).0)
  {
    ClearShape(st, t, a, current);
    var st' := if current then ClearCurrent(st, t, a).0 else ClearDelivered(st, t, a).0;
    PutSeparate(st, t, st'.heap[t], st'.page);
  }

  lemma {:induction false} AbortEachSeparate(st: State, ts: seq<TxId>, identity: Option<Identity>, a: TxId -> AbortAnswers)
    requires Inv(st) && Separate(st) && forall t :: t in ts ==> t in st.heap
    ensures Separate(AbortEach(st, ts, identity, a).0)
    decreases |ts|
  {
    if ts != [] {
      var (st', ok) := AbortOne(st, ts[0], identity, a(ts[0]));
      ClearSeparate(st, ts[0], a(ts[0]).clear, HasDeparted(st.heap[ts[0]], identity, a(ts[0]).document));
      AbortOneKeeps(st, ts[0], identity, a(ts[0]));
      if ok { AbortEachSeparate(st', ts[1..], identity, a); }
    }
  }

  lemma ReconcileOneSeparate(st: State, t: TxId, a: ChallengeAnswers)
    requires Inv(st) && Separate(st)
    ensures Separate(ReconcileOne(st, t, a))
  {
    if t !in st.heap || st.heap[t].state == Settling || !AllReleased(st.heap[t]) {
    } else if !RequiresProtection(st.heap[t]) {
      ReleaseTransactionSeparate(st, t);
    } else {
      match ChallengeCurrent(st.heap[t], a)
      case Some(false) =>
        PhaseKeeps(st, t, Departed);
        PhaseSeparate(st, t, Departed);
        ReleaseTransactionSeparate(SetPhase(st, t, Departed), t);
      case Some(true) => PhaseSeparate(st, t, StillPresent);
      case None => PhaseSeparate(st, t, Blocked);
    }
  }

  lemma {:induction false} ReconcileEachSeparate(st: State, ts: seq<TxId>, a: TxId -> ChallengeAnswers)
    requires Inv(st) && Separate(st)
    ensures Separate(ReconcileEach(st, ts, a))
    decreases |ts|
  {
    if ts != [] {
      ReconcileOneKeeps(st, ts[0], a(ts[0]));
      ReconcileOneSeparate(st, ts[0], a(ts[0]));
      ReconcileEachSeparate(ReconcileOne(st, ts[0], a(ts[0])), ts[1..], a);
    }
  }

  lemma UnboundSeparate(st: State, t: TxId, i: nat, d: Destination)
    requires Separate(st) && t in st.live && t in st.heap && i < |st.heap[t].fields| && TxOk(st.heap[t])
    requires KeyOf(st.heap[t].fields[i]) == BindingKey(d) && st.heap[t].sessionId == d.sessionId
    ensures Separate(Unbound(st, t, i, d))
  {
    UnboundFindable(st, t, i, d);
    MarkReleasedOk(st.heap[t], i);
    assert Unbound(st, t, i, d).heap[t] == MarkReleased(st.heap[t], i);
    assert st.heap[t].fields[i] in st.heap[t].fields;
    KeysApartFrame(st, Unbound(st, t, i, d));
  }

  lemma UnboundFindable(st: State, t: TxId, i: nat, d: Destination)
    requires Separate(st) && t in st.live && t in st.heap && i < |st.heap[t].fields| && TxOk(st.heap[t])
    requires KeyOf(st.heap[t].fields[i]) == BindingKey(d) && st.heap[t].sessionId == d.sessionId
    ensures Findable(Unbound(st, t, i, d))
  {
    var st' := Unbound(st, t, i, d);
    var tx := st.heap[t];
    assert st'.heap[t] == MarkReleased(tx, i);
    assert HasKey(tx, BindingKey(d)) by { assert tx.fields[i] in tx.fields; }
    forall u, f | u in st'.live && u in st'.heap && f in st'.heap[u].fields && !f.released
      ensures (st'.heap[u].sessionId, KeyOf(f)) in st'.index && st'.index[(st'.heap[u].sessionId, KeyOf(f))] == u
    {
      if u == t {
        UnreleasedKeyDiffers(tx, i, f);
        MarkReleasedOk(tx, i);
        assert f in tx.fields;
      } else if st.heap[u].sessionId == d.sessionId {
        assert !HasKey(st.heap[t], KeyOf(f));
      }
    }
  }

  lemma UnreleasedKeyDiffers(tx: Transaction, i: nat, f: Field)
    requires DistinctKeys(tx.fields) && i < |tx.fields| && f in MarkReleased(tx, i).fields && !f.released
    ensures KeyOf(f) != KeyOf(tx.fields[i])
  {
    var j :| 0 <= j < |tx.fields| && MarkReleased(tx, i).fields[j] == f;
    assert j != i;
  }

  lemma ReleaseFieldSeparate(st: State, t: TxId, i: nat, d: Destination)
    requires LiveOk(st) && Separate(st) && t in st.live && i < |st.heap[t].fields| && TxOk(st.heap[t])
    requires KeyOf(st.heap[t].fields[i]) == BindingKey(d) && st.heap[t].sessionId == d.sessionId
    ensures Separate(ReleaseField(st, t, i, d))
  {
    var unbound := Unbound(st, t, i, d);
    UnboundSeparate(st, t, i, d);
    if !AllReleased(unbound.heap[t]) {
    } else if !RequiresProtection(unbound.heap[t]) {
      ReleaseTransactionSeparate(unbound, t);
    } else if unbound.heap[t].state == Delivering {
      PhaseSeparate(unbound, t, StillPresent);
    }
  }

  lemma ReleaseSeparate(st: State, d: Destination, a: ClearAnswers)
    requires Inv(st) && Separate(st)
    ensures Separate(Release(st, d, a))
  {
    FoundInSession(st, d);
    if FindTransaction(st, d).Some? {
      var t := FindTransaction(st, d).value;
      var i := FindField(st.heap[t].fields, BindingKey(d)).value;
      if st.heap[t].fields[i].released {
      } else if ClearsOnRelease(st.heap[t], i) {
        ReleaseClearedSeparate(st, t, i, d, a);
      } else {
        ReleaseFieldSeparate(st, t, i, d);
      }
    }
  }

  lemma ReleaseClearedSeparate(st: State, t: TxId, i: nat, d: Destination, a: ClearAnswers)
    requires Inv(st) && Separate(st) && t in st.live && t in st.heap && i < |st.heap[t].fields|
    requires KeyOf(st.heap[t].fields[i]) == BindingKey(d) && st.heap[t].sessionId == d.sessionId
    ensures Separate(ClearDelivered(st, t, a).0)
    ensures Separate(ReleaseField(ClearDelivered(st, t, a).0, t, i, d))
  {
    ClearedStays(st, t, a);
    ClearKeepsFields(st, t, a, i);
    ClearSeparate(st, t, a, false);
    ReleaseFieldSeparate(ClearDelivered(st, t, a).0, t, i, d);
  }

  lemma ClearedStays(st: State, t: TxId, a: ClearAnswers)
    requires Inv(st) && t in st.live && t in st.heap
    ensures var st' := ClearDelivered(st, t, a).0; LiveOk(st') && t in st'.live && t in st'.heap && TxOk(st'.heap[t])
  {
    ClearDeliveredKeeps(st, t, a);
    ClearShape(st, t, a, false);
  }

  /** No other live transaction of `t`'s session carries `key`. */
  ghost predicate OnlyIn(st: State, t: TxId, key: Key)
    requires t in st.heap
  {
    forall u :: u in st.live && u in st.heap && u != t && st.heap[u].sessionId == st.heap[t].sessionId
                ==> !HasKey(st.heap[u], key)
  }

  lemma BindFieldSeparate(st: State, t: TxId, f: Field)
    requires Separate(st) && t in st.live && t in st.heap && DistinctKeys(st.heap[t].fields) && OnlyIn(st, t, KeyOf(f))
    ensures Separate(BindField(st, t, f))
  {
    PutFieldAt(st.heap[t].fields, f);
    BindFieldFindable(st, t, f);
    BindFieldApart(st, t, f);
  }

  lemma BindFieldFindable(st: State, t: TxId, f: Field)
    requires Findable(st) && t in st.live && t in st.heap && OnlyIn(st, t, KeyOf(f))
    requires forall g :: g in PutField(st.heap[t].fields, f) ==> g == f || (g in st.heap[t].fields && KeyOf(g) != KeyOf(f))
    ensures Findable(BindField(st, t, f))
  {
    var st' := BindField(st, t, f);
    forall u, g | u in st'.live && u in st'.heap && g in st'.heap[u].fields && !g.released
      ensures (st'.heap[u].sessionId, KeyOf(g)) in st'.index && st'.index[(st'.heap[u].sessionId, KeyOf(g))] == u
    {
      if u != t && st.heap[u].sessionId == st.heap[t].sessionId {
        assert !HasKey(st.heap[u], KeyOf(f));
      }
    }
  }

  lemma BindFieldApart(st: State, t: TxId, f: Field)
    requires KeysApart(st) && t in st.live && t in st.heap && OnlyIn(st, t, KeyOf(f))
    requires forall g :: g in PutField(st.heap[t].fields, f) ==> g == f || (g in st.heap[t].fields && KeyOf(g) != KeyOf(f))
    ensures KeysApart(BindField(st, t, f))
  {
    var st' := BindField(st, t, f);
    forall u, v, g | u in st'.live && v in st'.live && u != v && u in st'.heap && v in st'.heap
                     && st'.heap[u].sessionId == st'.heap[v].sessionId && g in st'.heap[u].fields
      ensures !HasKey(st'.heap[v], KeyOf(g))
    {}
  }

  lemma AddEmptySeparate(st: State, tx: Transaction)
    requires HeapOk(st) && LiveOk(st) && Separate(st) && tx.fields == []
    ensures Separate(State(st.heap[st.nextId := tx], st.live + [st.nextId], st.index, st.nextId + 1, st.page))
  {
    assert st.nextId !in st.heap;
    assert KeysFrom(st, State(st.heap[st.nextId := tx], st.live + [st.nextId], st.index, st.nextId + 1, st.page));
    KeysApartFrame(st, State(st.heap[st.nextId := tx], st.live + [st.nextId], st.index, st.nextId + 1, st.page));
  }

  lemma CreateWithSeparate(st: State, session: PageSession, d: Destination, kind: Kind, a: CollectAnswers, document: Handle,
                           handle: Handle, elementIndex: nat, submit: Option<Submit>)
    requires Inv(st) && Separate(st) && d.identity.Some? && a.inspection.Some?
    requires forall u :: u in st.live && u in st.heap && st.heap[u].sessionId == session.key ==> !HasKey(st.heap[u], BindingKey(d))
    ensures Separate(CreateWith(st, session, d, kind, a, document, handle, elementIndex, submit))
  {
    var tx := Transaction(session.key, session.tabRef, d.expectedOrigin, a.context.frameId, d.identity.value,
                          document, session.supervisor, [], submit, Bound, NotRequested, false);
    var created := State(st.heap[st.nextId := tx], st.live + [st.nextId], st.index, st.nextId + 1, st.page);
    AddEmptySeparate(st, tx);
    BindFieldSeparate(created, st.nextId, NewField(d, kind, handle, elementIndex, a.inspection.value.explicitEmail));
  }

  lemma CollectIntoSeparate(st: State, t: TxId, d: Destination, kind: Kind, a: CollectAnswers)
    requires Separate(st) && t in st.live && t in st.heap && DistinctKeys(st.heap[t].fields) && OnlyIn(st, t, BindingKey(d))
    ensures Separate(CollectInto(st, t, d, kind, a).0)
  {
    if CollectInto(st, t, d, kind, a).1 == Verified {
      BindFieldSeparate(st.(page := Acquire(st.page)), t,
                        NewField(d, kind, st.page.nextHandle, RefToIndex(d.ref).value, a.inspection.value.explicitEmail));
    }
  }

  lemma CollectSeparate(st: State, op: Op)
    requires Inv(st) && Separate(st) && op.DoCollect? && !Rebinds(st, op)
    ensures Separate(Step(st, op))
  {
    VerifiedIffBinds(st, op);
    if Binds(st, op) {
      var compatible := FirstCompatible(st.heap, st.live, op.session, op.d, op.collect.context.frameId);
      if compatible.Some? {
        CollectIntoSeparate(st, compatible.value, op.d, op.kind, op.collect);
      } else {
        CollectNewSeparate(st, op.session, op.d, op.kind, op.collect);
      }
    } else {
      KeysApartFrame(st, Step(st, op));
    }
  }

  lemma CollectNewSeparate(st: State, session: PageSession, d: Destination, kind: Kind, a: CollectAnswers)
    requires Inv(st) && Separate(st) && d.identity.Some?
    requires forall u :: u in st.live && u in st.heap && st.heap[u].sessionId == session.key ==> !HasKey(st.heap[u], BindingKey(d))
    ensures Separate(CollectNew(st, session, d, kind, a).0)
  {
    var st' := CollectNew(st, session, d, kind, a).0;
    CollectNewShape(st, session, d, kind, a);
    if st' != st.(page := st.page.(nextHandle := st'.page.nextHandle, freed := st'.page.freed)) {
      var (page, binding) := BindSubmit(Acquire(Acquire(st.page)), d.submitRef, a);
      PageHandlesKeep(st, page);
      CreateWithSeparate(st.(page := page), session, d, kind, a, st.page.nextHandle, st.page.nextHandle + 1,
                         RefToIndex(d.ref).value, if binding.BoundSubmit? then Some(binding.submit) else None);
    }
  }

  lemma FollowsSameBindings(st: State, t: TxId, i: nat, confirmed: bool, st': State)
    requires t in st.heap && i < |st.heap[t].fields| && Follows(AttemptedState(st, t, i, confirmed), t, st')
    ensures SameBindings(st.heap[t], st'.heap[t]) && st' == PutBoth(st, t, st'.heap[t], st'.page)
  {
  }

  lemma DeliverSeparate(st: State, op: Op)
    requires Separate(st) && op.DoDeliver?
    ensures Separate(Step(st, op))
  {
    var st' := Step(st, op);
    DeliverShape(st, op.session, op.d, op.kind, op.aborted, op.value, op.deliver);
    if st' != st {
      var t := FindTransaction(st, op.d).value;
      FollowsSameBindings(st, t, FindField(st.heap[t].fields, BindingKey(op.d)).value, op.deliver.write == CallTrue, st');
      PutSeparate(st, t, st'.heap[t], st'.page);
    }
  }

  lemma SettleSeparate(st: State, s: SessionId, d: Destination, a: SettleAnswers)
    requires Inv(st) && Separate(st)
    ensures Separate(Settle(st, s, d, a))
  {
    var found := FindTransaction(st, d);
    var challenge := SettledChallenge(st, d, a);
    if challenge == Some(false) {
      var departed := if found.Some? then SetPhase(st, found.value, Departed) else st;
      if found.Some? {
        PhaseKeeps(st, found.value, Departed);
        PhaseSeparate(st, found.value, Departed);
      }
      DepartEachSeparate(departed, LiveOf(departed, s));
    } else if found.Some? {
      var phased := SetPhase(st, found.value, if challenge == Some(true) then StillPresent else Blocked);
      PhaseSeparate(st, found.value, phased.heap[found.value].state);
      if st.heap[found.value].submit.None? || st.heap[found.value].submission == NotRequested {
      } else {
        ClearSeparate(phased, found.value, a.clear,
                      HasDeparted(st.heap[found.value], Some(a.snapshotIdentity), a.document));
      }
    }
  }

  lemma StepSeparate(st: State, op: Op)
    requires Inv(st) && Separate(st) && !Rebinds(st, op)
    ensures Separate(Step(st, op))
  {
    match op
    case DoCollect(_, _, _, _, _) => CollectSeparate(st, op);
    case DoDeliver(_, _, _, _, _, _) => DeliverSeparate(st, op);
    case DoRelease(d, a) => ReleaseSeparate(st, d, a);
    case DoAbort(ds, identity, a) => AbortEachSeparate(st, Mentioned(st, ds), identity, a);
    case DoInvalidate(s) => DepartEachSeparate(st, LiveOf(st, s));
    case DoClearSession(s) => ReleaseEachSeparate(st, LiveOf(st, s));
    case DoBeginSettlement(d) =>
      if FindTransaction(st, d).Some? { PhaseSeparate(st, FindTransaction(st, d).value, Settling); }
    case DoReconcile(s, a) => ReconcileEachSeparate(st, LiveOf(st, s), a);
    case DoSettle(s, d, a) => SettleSeparate(st, s, d, a);
  }

  lemma SeparateStep(front: seq<Op>, op: Op)
    requires Separate(Run(Initial, front)) && !Rebinds(Run(Initial, front), op)
    ensures Separate(Step(Run(Initial, front), op))
  {
    RunKeeps(Initial, front);
    StepSeparate(Run(Initial, front), op);
  }

  /** On every run that never binds a field under a key still carried by another live transaction of the session,
      the index finds every unreleased field. */
  lemma {:induction false} FindableOnSeparateRuns(ops: seq<Op>)
    requires forall i :: 0 <= i < |ops| ==> !Rebinds(Run(Initial, ops[..i]), ops[i])
    ensures Separate(Run(Initial, ops))
    decreases |ops|
  {
    if ops != [] {
      var n := |ops| - 1;
      forall i | 0 <= i < n ensures ops[..n][..i] == ops[..i] {}
      FindableOnSeparateRuns(ops[..n]);
      SeparateStep(ops[..n], ops[n]);
    }
  }
}
