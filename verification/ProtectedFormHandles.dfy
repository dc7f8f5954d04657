/** Remote handles of the protected-form controller: never freed twice, never used after being freed,
    and lost in exactly two situations. */
module ProtectedFormHandles {
  import opened Wrappers
  import opened BrowserTypes
  import opened ProtectedForm
  import opened ProtectedFormRuns
  import opened ProtectedFormIndex

  /** The handle slots of one transaction hold different handles. */
  ghost predicate OwnSlots(tx: Transaction) {
    && (forall i, j :: 0 <= i < j < |tx.fields| ==> tx.fields[i].objectId != tx.fields[j].objectId)
    && (forall f :: f in tx.fields ==> f.objectId != tx.documentObjectId)
    && (tx.submit.Some? ==>
          && tx.submit.value.objectId != tx.documentObjectId
          && forall f :: f in tx.fields ==> f.objectId != tx.submit.value.objectId)
  }

  ghost predicate Holds(st: State, t: TxId, h: Handle) {
    t in st.live && t in st.heap && h in HandleSet(st.heap[t])
  }

  /** Handles in use are known, unfreed and in one slot; none is freed twice. */
  ghost predicate Safe(st: State) {
    && (forall t :: t in st.live && t in st.heap ==> OwnSlots(st.heap[t]))
    && (forall t: TxId, h: Handle :: Holds(st, t, h) ==> h < st.page.nextHandle && st.page.freed[h] == 0)
    && (forall t: TxId, u: TxId, h: Handle :: Holds(st, t, h) && Holds(st, u, h) ==> t == u)
    && (forall h: Handle :: st.page.freed[h] <= 1 && (st.page.freed[h] == 1 ==> h < st.page.nextHandle))
  }

  ghost predicate Held(st: State, h: Handle) { exists t: TxId :: Holds(st, t, h) }

  /** Every handle ever taken is freed or held by a live transaction. */
  ghost predicate NoneLost(st: State) {
    forall h: Handle :: h < st.page.nextHandle ==> st.page.freed[h] == 1 || Held(st, h)
  }

  ghost predicate SameHandles(tx: Transaction, tx': Transaction) {
    && |tx'.fields| == |tx.fields| && tx'.documentObjectId == tx.documentObjectId && tx'.submit == tx.submit
    && forall i :: 0 <= i < |tx.fields| ==> tx'.fields[i].objectId == tx.fields[i].objectId
  }

  lemma SameHandleSet(tx: Transaction, tx': Transaction)
    requires SameHandles(tx, tx')
    ensures HandleSet(tx') == HandleSet(tx) && (OwnSlots(tx) ==> OwnSlots(tx'))
  {
    forall f' | f' in tx'.fields ensures exists f :: f in tx.fields && f.objectId == f'.objectId {
      var i :| 0 <= i < |tx'.fields| && tx'.fields[i] == f';
      assert tx.fields[i] in tx.fields && tx.fields[i].objectId == f'.objectId;
    }
    forall f | f in tx.fields ensures exists f' :: f' in tx'.fields && f'.objectId == f.objectId {
      var i :| 0 <= i < |tx.fields| && tx.fields[i] == f;
      assert tx'.fields[i] in tx'.fields && tx'.fields[i].objectId == f.objectId;
    }
  }

  /** Nothing is taken, freed or moved between slots. */
  ghost predicate SameHolding(st: State, st': State) {
    && st'.live == st.live && st'.page.nextHandle == st.page.nextHandle && st'.page.freed == st.page.freed
    && st'.heap.Keys == st.heap.Keys
    && forall t :: t in st.heap ==> SameHandles(st.heap[t], st'.heap[t])
  }

  lemma SameHoldingKeeps(st: State, st': State)
    requires Safe(st) && SameHolding(st, st')
    ensures Safe(st') && (NoneLost(st') <==> NoneLost(st))
  {
    forall t | t in st.heap ensures HandleSet(st'.heap[t]) == HandleSet(st.heap[t]) {
      SameHandleSet(st.heap[t], st'.heap[t]);
    }
    forall t | t in st'.live && t in st'.heap ensures OwnSlots(st'.heap[t]) {
      SameHandleSet(st.heap[t], st'.heap[t]);
    }
    assert forall t: TxId, h: Handle :: Holds(st', t, h) <==> Holds(st, t, h);
  }

  /** `n` handles are taken and those in `hs` given back: nothing is lost just when that is all of them. */
  lemma VisitKeeps(st: State, hs: set<Handle>, n: nat, p: Page)
    requires Safe(st) && forall h :: h in hs ==> st.page.nextHandle <= h < st.page.nextHandle + n
    requires p.nextHandle == st.page.nextHandle + n && p.freed == st.page.freed + multiset(hs)
    ensures Safe(st.(page := p))
    ensures NoneLost(st.(page := p)) <==>
      NoneLost(st) && forall h: Handle :: st.page.nextHandle <= h < st.page.nextHandle + n ==> h in hs
  {
    var st' := st.(page := p);
    assert forall t: TxId, h: Handle :: Holds(st', t, h) <==> Holds(st, t, h);
    assert forall h: Handle :: st'.page.freed[h] == st.page.freed[h] + (if h in hs then 1 else 0);
    if NoneLost(st') {
      forall h: Handle | h < st.page.nextHandle ensures st.page.freed[h] == 1 || Held(st, h) {
        assert h !in hs;
      }
      forall h: Handle | st.page.nextHandle <= h < st.page.nextHandle + n ensures h in hs {
        assert st'.page.freed[h] == 1 || Held(st', h);
      }
    }
  }

  lemma VisitOneKeeps(st: State)
    requires Safe(st)
    ensures var st' := st.(page := Free(Acquire(st.page), {st.page.nextHandle}));
            Safe(st') && (NoneLost(st') <==> NoneLost(st))
  {
    VisitKeeps(st, {st.page.nextHandle}, 1, Free(Acquire(st.page), {st.page.nextHandle}));
  }

  lemma ReleaseFacts(st: State, t: TxId)
    requires LiveOk(st) && t in st.live
    ensures var st' := ReleaseTransaction(st, t);
      && (forall u: TxId, h: Handle :: Holds(st', u, h) <==> Holds(st, u, h) && u != t)
      && (forall h: Handle :: st'.page.freed[h] == st.page.freed[h] + (if Holds(st, t, h) then 1 else 0))
      && (forall u: TxId :: u in st'.live ==> u in st.live && u != t && u in st'.heap && st'.heap[u] == st.heap[u])
      && st'.page.nextHandle == st.page.nextHandle
  {
  }

  lemma ReleaseTransactionHandles(st: State, t: TxId)
    requires Safe(st) && LiveOk(st)
    ensures Safe(ReleaseTransaction(st, t)) && (NoneLost(ReleaseTransaction(st, t)) <==> NoneLost(st))
  {
    if t in st.heap && !st.heap[t].released {
      ReleaseFacts(st, t);
      AfterRelease(st, t, ReleaseTransaction(st, t));
    }
  }

  lemma AfterRelease(st: State, t: TxId, st': State)
    requires Safe(st) && t in st.live
    requires forall u: TxId, h: Handle :: Holds(st', u, h) <==> Holds(st, u, h) && u != t
    requires forall h: Handle :: st'.page.freed[h] == st.page.freed[h] + (if Holds(st, t, h) then 1 else 0)
    requires forall u: TxId :: u in st'.live ==> u in st.live && u in st.heap && u in st'.heap && st'.heap[u] == st.heap[u]
    requires st'.page.nextHandle == st.page.nextHandle
    ensures Safe(st') && (NoneLost(st') <==> NoneLost(st))
  {
    if NoneLost(st) {
      forall h: Handle | h < st'.page.nextHandle ensures st'.page.freed[h] == 1 || Held(st', h) {
        if st.page.freed[h] != 1 && !Holds(st, t, h) {
          var u :| Holds(st, u, h);
          assert Holds(st', u, h);
        }
      }
    }
    if NoneLost(st') {
      forall h: Handle | h < st.page.nextHandle ensures st.page.freed[h] == 1 || Held(st, h) {
        if st'.page.freed[h] != 1 {
          var u :| Holds(st', u, h);
          assert Holds(st, u, h);
        }
      }
    }
  }

  lemma PhaseHandles(st: State, t: TxId, phase: Phase)
    requires Safe(st)
    ensures Safe(SetPhase(st, t, phase)) && (NoneLost(SetPhase(st, t, phase)) <==> NoneLost(st))
  {
    SameHoldingKeeps(st, SetPhase(st, t, phase));
  }

  lemma {:induction false} DepartEachHandles(st: State, ts: seq<TxId>)
    requires Safe(st) && LiveOk(st)
    ensures Safe(DepartEach(st, ts)) && (NoneLost(DepartEach(st, ts)) <==> NoneLost(st))
    decreases |ts|
  {
    if ts != [] {
      var phased := SetPhase(st, ts[0], Departed);
      PhaseHandles(st, ts[0], Departed);
      ReleaseTransactionHandles(phased, ts[0]);
      DepartEachHandles(ReleaseTransaction(phased, ts[0]), ts[1..]);
    }
  }

  lemma {:induction false} ReleaseEachHandles(st: State, ts: seq<TxId>)
    requires Safe(st) && LiveOk(st)
    ensures Safe(ReleaseEach(st, ts)) && (NoneLost(ReleaseEach(st, ts)) <==> NoneLost(st))
    decreases |ts|
  {
    if ts != [] {
      ReleaseTransactionHandles(st, ts[0]);
      ReleaseEachHandles(ReleaseTransaction(st, ts[0]), ts[1..]);
    }
  }

  lemma FinishClearHandles(st: State, t: TxId, verified: bool)
    requires Safe(st) && t in st.heap
    ensures var st' := FinishClear(st, t, verified).0;
            Safe(st') && (NoneLost(st') <==> NoneLost(st)) && st'.heap.Keys == st.heap.Keys
  {
    SameHoldingKeeps(st, FinishClear(st, t, verified).0);
  }

  /** A clear pass marks fields; a clear by kind also visits the current document. */
  lemma ClearCurrentHandles(st: State, t: TxId, a: ClearAnswers)
    requires Safe(st) && t in st.heap
    ensures var st' := ClearCurrent(st, t, a).0;
            Safe(st') && (NoneLost(st') <==> NoneLost(st)) && st'.heap.Keys == st.heap.Keys
  {
    if AnyAttempted(st.heap[t]) {
      if a.documentResolves {
        VisitOneKeeps(st);
        FinishClearHandles(st.(page := Free(Acquire(st.page), {st.page.nextHandle})), t, CurrentReadsEmpty(a));
      } else {
        FinishClearHandles(st, t, false);
      }
    }
  }

  lemma ClearHandles(st: State, t: TxId, a: ClearAnswers, current: bool)
    requires Safe(st) && t in st.heap
    ensures var st' := if current then ClearCurrent(st, t, a).0 else ClearDelivered(st, t, a).0;
            Safe(st') && (NoneLost(st') <==> NoneLost(st)) && st'.heap.Keys == st.heap.Keys
  {
    if current || a.document == No {
      ClearCurrentHandles(st, t, a);
    } else if AnyAttempted(st.heap[t]) {
      FinishClearHandles(st, t, FieldsReadEmpty(st.heap[t], a));
    }
  }

  lemma {:induction false} AbortEachHandles(st: State, ts: seq<TxId>, identity: Option<Identity>, a: TxId -> AbortAnswers)
    requires Safe(st) && forall t :: t in ts ==> t in st.heap
    ensures Safe(AbortEach(st, ts, identity, a).0)
    ensures NoneLost(AbortEach(st, ts, identity, a).0) <==> NoneLost(st)
    decreases |ts|
  {
    if ts != [] {
      var (st', ok) := AbortOne(st, ts[0], identity, a(ts[0]));
      ClearHandles(st, ts[0], a(ts[0]).clear, HasDeparted(st.heap[ts[0]], identity, a(ts[0]).document));
      if ok { AbortEachHandles(st', ts[1..], identity, a); }
    }
  }

  lemma ReleaseFieldHandles(st: State, t: TxId, i: nat, d: Destination)
    requires Safe(st) && LiveOk(st) && t in st.heap && i < |st.heap[t].fields|
    ensures Safe(ReleaseField(st, t, i, d)) && (NoneLost(ReleaseField(st, t, i, d)) <==> NoneLost(st))
  {
    var unbound := Unbound(st, t, i, d);
    SameHoldingKeeps(st, unbound);
    if !AllReleased(unbound.heap[t]) {
    } else if !RequiresProtection(unbound.heap[t]) {
      ReleaseTransactionHandles(unbound, t);
    } else if unbound.heap[t].state == Delivering {
      PhaseHandles(unbound, t, StillPresent);
    }
  }

  lemma ReleaseHandles(st: State, d: Destination, a: ClearAnswers)
    requires Safe(st) && Inv(st)
    ensures Safe(Release(st, d, a)) && (NoneLost(Release(st, d, a)) <==> NoneLost(st))
  {
    if FindTransaction(st, d).Some? {
      var t := FindTransaction(st, d).value;
      var i := FindField(st.heap[t].fields, BindingKey(d)).value;
      FoundInSession(st, d);
      ReleaseFoundHandles(st, t, i, d, a);
    }
  }

  lemma ReleaseFoundHandles(st: State, t: TxId, i: nat, d: Destination, a: ClearAnswers)
    requires Safe(st) && Inv(st) && t in st.live && t in st.heap && i < |st.heap[t].fields|
    ensures var (cleared, ok) := ClearDelivered(st, t, a);
      var st' := if !ClearsOnRelease(st.heap[t], i) then ReleaseField(st, t, i, d)
                 else if ok then ReleaseField(cleared, t, i, d) else cleared;
      Safe(st') && (NoneLost(st') <==> NoneLost(st))
  {
    if ClearsOnRelease(st.heap[t], i) {
      ReleaseClearedHandles(st, t, i, d, a);
    } else {
      ReleaseFieldHandles(st, t, i, d);
    }
  }

  lemma ReleaseClearedHandles(st: State, t: TxId, i: nat, d: Destination, a: ClearAnswers)
    requires Safe(st) && Inv(st) && t in st.live && t in st.heap && i < |st.heap[t].fields|
    ensures var cleared := ClearDelivered(st, t, a).0;
      && Safe(cleared) && (NoneLost(cleared) <==> NoneLost(st))
      && Safe(ReleaseField(cleared, t, i, d)) && (NoneLost(ReleaseField(cleared, t, i, d)) <==> NoneLost(st))
  {
    ClearHandles(st, t, a, false);
    ClearKeepsFields(st, t, a, i);
    ClearedStays(st, t, a);
    ReleaseFieldHandles(ClearDelivered(st, t, a).0, t, i, d);
  }

  lemma {:induction false} ReconcileEachHandles(st: State, ts: seq<TxId>, a: TxId -> ChallengeAnswers)
    requires Safe(st) && Inv(st)
    ensures Safe(ReconcileEach(st, ts, a)) && (NoneLost(ReconcileEach(st, ts, a)) <==> NoneLost(st))
    decreases |ts|
  {
    if ts != [] {
      ReconcileOneHandles(st, ts[0], a(ts[0]));
      ReconcileOneKeeps(st, ts[0], a(ts[0]));
      ReconcileEachHandles(ReconcileOne(st, ts[0], a(ts[0])), ts[1..], a);
    }
  }

  lemma ReconcileOneHandles(st: State, t: TxId, a: ChallengeAnswers)
    requires Safe(st) && LiveOk(st)
    ensures Safe(ReconcileOne(st, t, a)) && (NoneLost(ReconcileOne(st, t, a)) <==> NoneLost(st))
  {
    if t !in st.heap || st.heap[t].state == Settling || !AllReleased(st.heap[t]) {
    } else if !RequiresProtection(st.heap[t]) {
      ReleaseTransactionHandles(st, t);
    } else {
      match ChallengeCurrent(st.heap[t], a)
      case Some(false) =>
        PhaseHandles(st, t, Departed);
        ReleaseTransactionHandles(SetPhase(st, t, Departed), t);
      case Some(true) => PhaseHandles(st, t, StillPresent);
      case None => PhaseHandles(st, t, Blocked);
    }
  }

  lemma SettleHandles(st: State, s: SessionId, d: Destination, a: SettleAnswers)
    requires Safe(st) && LiveOk(st)
    ensures Safe(Settle(st, s, d, a)) && (NoneLost(Settle(st, s, d, a)) <==> NoneLost(st))
  {
    var found := FindTransaction(st, d);
    var challenge := SettledChallenge(st, d, a);
    if challenge == Some(false) {
      var departed := if found.Some? then SetPhase(st, found.value, Departed) else st;
      if found.Some? { PhaseHandles(st, found.value, Departed); }
      DepartEachHandles(departed, LiveOf(departed, s));
    } else if found.Some? {
      var phase := if challenge == Some(true) then StillPresent else Blocked;
      PhaseHandles(st, found.value, phase);
      if st.heap[found.value].submit.None? || st.heap[found.value].submission == NotRequested {
      } else {
        ClearHandles(SetPhase(st, found.value, phase), found.value, a.clear,
                     HasDeparted(st.heap[found.value], Some(a.snapshotIdentity), a.document));
      }
    }
  }

  lemma DeliverHandles(st: State, op: Op)
    requires Safe(st) && op.DoDeliver?
    ensures Safe(Step(st, op)) && (NoneLost(Step(st, op)) <==> NoneLost(st))
  {
    var st' := Step(st, op);
    DeliverShape(st, op.session, op.d, op.kind, op.aborted, op.value, op.deliver);
    if st' != st {
      var t := FindTransaction(st, op.d).value;
      FollowsSameHandles(st, t, FindField(st.heap[t].fields, BindingKey(op.d)).value, op.deliver.write == CallTrue, st');
      SameHoldingKeeps(st, st');
    }
  }

  lemma FollowsSameHandles(st: State, t: TxId, i: nat, confirmed: bool, st': State)
    requires t in st.heap && i < |st.heap[t].fields| && Follows(AttemptedState(st, t, i, confirmed), t, st')
    ensures SameHolding(st, st')
  {
  }

  // ---------------------------------------------------------------- collecting

  /** `PutField` under a new key keeps every old field. */
  lemma BindHandles(st: State, t: TxId, f: Field)
    requires Safe(st) && t in st.live && t in st.heap && DistinctKeys(st.heap[t].fields)
    requires f.objectId < st.page.nextHandle && st.page.freed[f.objectId] == 0
    requires forall u: TxId :: !Holds(st, u, f.objectId)
    ensures Safe(BindField(st, t, f))
    ensures forall u: TxId, h: Handle :: Holds(BindField(st, t, f), u, h) ==> Holds(st, u, h) || (u == t && h == f.objectId)
    ensures !HasKey(st.heap[t], KeyOf(f)) ==>
      forall u: TxId, h: Handle :: Holds(BindField(st, t, f), u, h) <==> Holds(st, u, h) || (u == t && h == f.objectId)
    ensures HasKey(st.heap[t], KeyOf(f)) ==>
      exists h: Handle :: Holds(st, t, h) && forall u: TxId :: !Holds(BindField(st, t, f), u, h)
  {
    var tx, st' := st.heap[t], BindField(st, t, f);
    var tx' := st'.heap[t];
    PutFieldAt(tx.fields, f);
    assert !Holds(st, t, f.objectId);
    PutFieldSlots(tx, f);
    assert OwnSlots(tx');
    assert forall h: Handle :: h in HandleSet(tx') ==> h == f.objectId || h in HandleSet(tx);
    assert forall u: TxId, h: Handle :: Holds(st', u, h) ==> Holds(st, u, h) || (u == t && h == f.objectId);
    if HasKey(tx, KeyOf(f)) {
      var g :| g in tx.fields && KeyOf(g) == KeyOf(f);
      assert Holds(st, t, g.objectId);
      assert g.objectId !in HandleSet(tx') by { LostHandle(tx, f, g); }
      assert forall u: TxId :: !Holds(st', u, g.objectId);
    } else {
      assert forall h: Handle :: h in HandleSet(tx) ==> h in HandleSet(tx') by {
        forall g | g in tx.fields ensures g in tx'.fields { assert KeyOf(g) != KeyOf(f); }
      }
    }
  }

  lemma PutFieldSlots(tx: Transaction, f: Field)
    requires OwnSlots(tx) && f.objectId !in HandleSet(tx)
    ensures OwnSlots(tx.(fields := PutField(tx.fields, f)))
  {
    var r := PutField(tx.fields, f);
    forall i, j | 0 <= i < j < |r| ensures r[i].objectId != r[j].objectId {
      assert i < |tx.fields| ==> tx.fields[i] in tx.fields;
      assert j < |tx.fields| ==> tx.fields[j] in tx.fields;
    }
  }

  lemma LostHandle(tx: Transaction, f: Field, g: Field)
    requires OwnSlots(tx) && DistinctKeys(tx.fields) && f.objectId !in HandleSet(tx)
    requires g in tx.fields && KeyOf(g) == KeyOf(f)
    ensures g.objectId !in HandleSet(tx.(fields := PutField(tx.fields, f)))
  {
    PutFieldAt(tx.fields, f);
    forall k | k in PutField(tx.fields, f) ensures k.objectId != g.objectId {
      if k != f {
        var i :| 0 <= i < |tx.fields| && tx.fields[i] == g;
        var j :| 0 <= j < |tx.fields| && tx.fields[j] == k;
        assert i != j;
      }
    }
  }

  /** Handles just taken are unfreed and in no slot yet. */
  lemma Taken(st: State, held: State)
    requires Safe(st) && held == st.(page := st.page.(nextHandle := held.page.nextHandle))
    requires held.page.nextHandle >= st.page.nextHandle
    ensures Safe(held)
    ensures forall u: TxId, h: Handle :: Holds(held, u, h) <==> Holds(st, u, h)
    ensures forall h: Handle :: h >= st.page.nextHandle ==> held.page.freed[h] == 0 && forall u: TxId :: !Holds(held, u, h)
  {
    assert forall u: TxId, h: Handle :: Holds(held, u, h) <==> Holds(st, u, h);
  }

  /** The page throws while a first field already holds the document handle: on the field itself, or on the submit
      control asked for after the field was found usable. */
  predicate FirstFieldThrows(d: Destination, a: CollectAnswers) {
    && a.documentResolves && RefToIndex(d.ref).Some?
    && (a.field == Throws ||
        (FieldUsable(d, a) && d.submitRef.Some? && RefToIndex(d.submitRef.value).Some? && a.submit == Throws))
  }

  /** The two situations in which a handle is lost: the page throws while a first field already holds the document
      handle, or a released field of a collecting transaction is bound again over the old one. */
  predicate Loses(st: State, op: Op) {
    op.DoCollect? &&
    match FirstCompatible(st.heap, st.live, op.session, op.d, op.collect.context.frameId)
    case Some(t) => Binds(st, op) && HasKey(st.heap[t], BindingKey(op.d))
    case None => Admitted(st, op) && FirstFieldThrows(op.d, op.collect)
  }

  lemma ThrowsIff(st: State, session: PageSession, d: Destination, kind: Kind, a: CollectAnswers)
    requires d.identity.Some?
    ensures CollectNew(st, session, d, kind, a).1 == VerifyThrows <==> FirstFieldThrows(d, a)
  {}

  lemma CollectIntoHandles(st: State, t: TxId, d: Destination, kind: Kind, a: CollectAnswers)
    requires Safe(st) && t in st.live && t in st.heap && DistinctKeys(st.heap[t].fields)
    ensures var (st', verification) := CollectInto(st, t, d, kind, a);
      && Safe(st')
      && (NoneLost(st') <==> NoneLost(st) && !(verification == Verified && HasKey(st.heap[t], BindingKey(d))))
  {
    var (st', verification) := CollectInto(st, t, d, kind, a);
    if verification == Verified {
      var h := st.page.nextHandle;
      var held := st.(page := Acquire(st.page));
      var f := NewField(d, kind, h, RefToIndex(d.ref).value, a.inspection.value.explicitEmail);
      Taken(st, held);
      BindHandles(held, t, f);
      BindLeak(st, held, t, f);
    } else if st'.page != st.page {
      VisitOneKeeps(st);
    }
  }

  lemma BindLeak(st: State, held: State, t: TxId, f: Field)
    requires Safe(st) && held == st.(page := Acquire(st.page))
    requires t in st.live && t in st.heap && DistinctKeys(st.heap[t].fields) && f.objectId == st.page.nextHandle
    ensures NoneLost(BindField(held, t, f)) <==> NoneLost(st) && !HasKey(st.heap[t], KeyOf(f))
  {
    Taken(st, held);
    BindHandles(held, t, f);
    var st' := BindField(held, t, f);
    if HasKey(st.heap[t], KeyOf(f)) {
      var h: Handle :| Holds(held, t, h) && forall u: TxId :: !Holds(st', u, h);
      assert h < st'.page.nextHandle && st'.page.freed[h] == 0;
    } else {
      assert Holds(st', t, f.objectId);
      HoldsOnlyMore(st, st');
    }
  }

  /** One more live slot for each handle taken, and nothing freed: what was lost stays lost. */
  lemma HoldsOnlyMore(st: State, st': State)
    requires st'.page.freed == st.page.freed && st'.page.nextHandle >= st.page.nextHandle
    requires forall u: TxId, h: Handle :: Holds(st, u, h) ==> Holds(st', u, h)
    requires forall u: TxId, h: Handle :: Holds(st', u, h) && h < st.page.nextHandle ==> Holds(st, u, h)
    requires forall h: Handle :: st.page.nextHandle <= h < st'.page.nextHandle ==> Held(st', h)
    ensures NoneLost(st') <==> NoneLost(st)
  {
    if NoneLost(st) {
      forall h: Handle | h < st'.page.nextHandle ensures st'.page.freed[h] == 1 || Held(st', h) {
        if h < st.page.nextHandle && st.page.freed[h] != 1 {
          var u: TxId :| Holds(st, u, h);
          assert Holds(st', u, h);
        }
      }
    }
    if NoneLost(st') {
      forall h: Handle | h < st.page.nextHandle ensures st.page.freed[h] == 1 || Held(st, h) {
        if st.page.freed[h] != 1 {
          var u: TxId :| Holds(st', u, h);
          assert Holds(st, u, h);
        }
      }
    }
  }

  lemma CreateIsBind(st: State, session: PageSession, d: Destination, kind: Kind, a: CollectAnswers, document: Handle,
                     handle: Handle, elementIndex: nat, submit: Option<Submit>) returns (tx: Transaction, f: Field)
    requires d.identity.Some? && a.inspection.Some?
    ensures tx.fields == [] && tx.documentObjectId == document && tx.submit == submit && f.objectId == handle
    ensures CreateWith(st, session, d, kind, a, document, handle, elementIndex, submit)
         == BindField(WithTransaction(st, tx), st.nextId, f)
  {
    tx := Transaction(session.key, session.tabRef, d.expectedOrigin, a.context.frameId, d.identity.value,
                      document, session.supervisor, [], submit, Bound, NotRequested, false);
    f := NewField(d, kind, handle, elementIndex, a.inspection.value.explicitEmail);
  }

  /** A new transaction takes the document handle, the field handle and possibly a submit handle. */
  lemma CreateHandles(st: State, p: Page, session: PageSession, d: Destination, kind: Kind, a: CollectAnswers,
                      elementIndex: nat, submit: Option<Submit>)
    requires Safe(st) && HeapOk(st) && LiveOk(st) && d.identity.Some? && a.inspection.Some?
    requires p == st.page.(nextHandle := st.page.nextHandle + (if submit.Some? then 3 else 2))
    requires submit.Some? ==> submit.value.objectId == st.page.nextHandle + 2
    ensures var st' := CreateWith(st.(page := p), session, d, kind, a, st.page.nextHandle, st.page.nextHandle + 1,
                                  elementIndex, submit);
      Safe(st') && (NoneLost(st') <==> NoneLost(st))
  {
    var n := st.page.nextHandle;
    var tx, f := CreateIsBind(st.(page := p), session, d, kind, a, n, n + 1, elementIndex, submit);
    AddFirstField(st, p, tx, f);
  }

  lemma AddFirstField(st: State, p: Page, tx: Transaction, f: Field)
    requires Safe(st) && HeapOk(st) && LiveOk(st) && tx.fields == [] && tx.documentObjectId == st.page.nextHandle
    requires p == st.page.(nextHandle := st.page.nextHandle + (if tx.submit.Some? then 3 else 2))
    requires tx.submit.Some? ==> tx.submit.value.objectId == st.page.nextHandle + 2
    requires f.objectId == st.page.nextHandle + 1
    ensures var st' := BindField(WithTransaction(st.(page := p), tx), st.nextId, f);
      Safe(st') && (NoneLost(st') <==> NoneLost(st))
  {
    CreatedSafe(st, p, tx);
    var created := WithTransaction(st.(page := p), tx);
    assert !HasKey(tx, KeyOf(f));
    BindHandles(created, st.nextId, f);
    CreatedKeepsAll(st, p, tx, BindField(created, st.nextId, f));
  }

  function WithTransaction(st: State, tx: Transaction): State {
    State(st.heap[st.nextId := tx], st.live + [st.nextId], st.index, st.nextId + 1, st.page)
  }

  /** The handles of a new transaction without fields. */
  predicate NewSlot(st: State, tx: Transaction, h: Handle) {
    h == st.page.nextHandle || (tx.submit.Some? && h == st.page.nextHandle + 2)
  }

  /** Taken, not freed, and in no slot. */
  ghost predicate Spare(st: State, h: Handle) {
    h < st.page.nextHandle && st.page.freed[h] == 0 && forall u: TxId :: !Holds(st, u, h)
  }

  lemma CreatedSafe(st: State, p: Page, tx: Transaction)
    requires Safe(st) && HeapOk(st) && LiveOk(st) && tx.fields == [] && tx.documentObjectId == st.page.nextHandle
    requires p == st.page.(nextHandle := st.page.nextHandle + (if tx.submit.Some? then 3 else 2))
    requires tx.submit.Some? ==> tx.submit.value.objectId == st.page.nextHandle + 2
    ensures var created := WithTransaction(st.(page := p), tx);
      && Safe(created)
      && (forall u: TxId, h: Handle :: Holds(created, u, h) <==> Holds(st, u, h) || (u == st.nextId && NewSlot(st, tx, h)))
      && Spare(created, st.page.nextHandle + 1)
  {
    assert st.nextId !in st.heap;
    Taken(st, st.(page := p));
    var created := WithTransaction(st.(page := p), tx);
    assert HandleSet(tx) == {tx.documentObjectId} + (if tx.submit.Some? then {tx.submit.value.objectId} else {});
    assert forall u: TxId, h: Handle :: Holds(created, u, h) <==> Holds(st, u, h) || (u == st.nextId && NewSlot(st, tx, h));
  }

  lemma CreatedKeepsAll(st: State, p: Page, tx: Transaction, st': State)
    requires tx.documentObjectId == st.page.nextHandle
    requires forall u: TxId, h: Handle :: Holds(st, u, h) ==> h < st.page.nextHandle
    requires p == st.page.(nextHandle := st.page.nextHandle + (if tx.submit.Some? then 3 else 2)) && st'.page == p
    requires forall u: TxId, h: Handle :: Holds(st', u, h) <==>
               Holds(st, u, h) || (u == st.nextId && NewSlot(st, tx, h)) || (u == st.nextId && h == st.page.nextHandle + 1)
    ensures NoneLost(st') <==> NoneLost(st)
  {
    forall h: Handle | st.page.nextHandle <= h < st'.page.nextHandle ensures Held(st', h) {
      assert Holds(st', st.nextId, h);
    }
    HoldsOnlyMore(st, st');
  }

  /** The `k` handles from `n` on. */
  function Handles(n: Handle, k: nat): (r: set<Handle>)
    ensures forall h :: h in r <==> n <= h < n + k
  {
    if k == 0 then {} else Handles(n, k - 1) + {n + k - 1}
  }

  /** Handles were taken, and all given back unless the page threw. */
  predicate TookAndGaveBack(p: Page, p': Page, threw: bool) {
    && p' == p.(nextHandle := p'.nextHandle, freed := p'.freed)
    && p'.nextHandle > p.nextHandle
    && p'.freed == p.freed + multiset(if threw then {} else Handles(p.nextHandle, p'.nextHandle - p.nextHandle))
  }

  /** A first field that is not bound gives back every handle it took, unless the page threw. */
  lemma CollectNewPage(st: State, session: PageSession, d: Destination, kind: Kind, a: CollectAnswers)
    requires d.identity.Some?
    ensures var (st', verification) := CollectNew(st, session, d, kind, a);
      verification == Verified || st' == st ||
      (st' == st.(page := st'.page) && TookAndGaveBack(st.page, st'.page, verification == VerifyThrows))
  {
    var n := st.page.nextHandle;
    if a.documentResolves && RefToIndex(d.ref).Some? && a.field == Resolved && InspectionRejection(a.inspection, false).None? {
      CollectNewLate(st, session, d, kind, a);
    } else {
      assert Handles(n, 1) == {n} && Handles(n, 2) == {n, n + 1};
    }
  }

  lemma CollectNewLate(st: State, session: PageSession, d: Destination, kind: Kind, a: CollectAnswers)
    requires d.identity.Some?
    requires a.documentResolves && RefToIndex(d.ref).Some? && a.field == Resolved && InspectionRejection(a.inspection, false).None?
    ensures var (st', verification) := CollectNew(st, session, d, kind, a);
      verification == Verified ||
      (st' == st.(page := st'.page) && TookAndGaveBack(st.page, st'.page, verification == VerifyThrows))
  {
    var n := st.page.nextHandle;
    var page := Acquire(Acquire(st.page));
    var (page', binding) := BindSubmit(page, d.submitRef, a);
    BindSubmitPage(page, d.submitRef, a);
    assert Handles(n, 2) == {n + 1, n};
    if binding.UnboundSubmit? && page' != page {
      assert Handles(n, 3) == {n + 1, n} + {n + 2};
      assert multiset({n + 2}) + multiset({n + 1, n}) == multiset(Handles(n, 3));
    }
  }

  lemma BindSubmitPage(p: Page, ref: Option<string>, a: CollectAnswers)
    ensures var (p', binding) := BindSubmit(p, ref, a);
      && (binding.SubmitThrows? || binding.NoSubmit? ==> p' == p)
      && (binding.UnboundSubmit? ==> p' == p || p' == Free(Acquire(p), {p.nextHandle}))
  {
  }

  lemma CollectNewHandles(st: State, session: PageSession, d: Destination, kind: Kind, a: CollectAnswers)
    requires Safe(st) && HeapOk(st) && LiveOk(st) && d.identity.Some?
    ensures var (st', verification) := CollectNew(st, session, d, kind, a);
      Safe(st') && (NoneLost(st') <==> NoneLost(st) && verification != VerifyThrows)
  {
    var (st', verification) := CollectNew(st, session, d, kind, a);
    if verification == Verified {
      CollectNewCreates(st, session, d, kind, a);
    } else if st' != st {
      CollectNewPage(st, session, d, kind, a);
      var n := st.page.nextHandle;
      var back := if verification == VerifyThrows then {} else Handles(n, st'.page.nextHandle - n);
      VisitKeeps(st, back, st'.page.nextHandle - n, st'.page);
      assert verification == VerifyThrows ==> n !in back;
    } else {
      if verification == VerifyThrows { CollectNewThrows(st, session, d, kind, a); }
    }
  }

  lemma CollectNewThrows(st: State, session: PageSession, d: Destination, kind: Kind, a: CollectAnswers)
    requires d.identity.Some? && CollectNew(st, session, d, kind, a).1 == VerifyThrows
    ensures CollectNew(st, session, d, kind, a).0.page.nextHandle > st.page.nextHandle
  {
  }

  lemma CollectNewIsCreate(st: State, session: PageSession, d: Destination, kind: Kind, a: CollectAnswers)
    returns (page: Page, submit: Option<Submit>)
    requires d.identity.Some? && CollectNew(st, session, d, kind, a).1 == Verified
    ensures a.inspection.Some? && RefToIndex(d.ref).Some?
    ensures page == st.page.(nextHandle := st.page.nextHandle + (if submit.Some? then 3 else 2))
    ensures submit.Some? ==> submit.value.objectId == st.page.nextHandle + 2
    ensures CollectNew(st, session, d, kind, a).0
         == CreateWith(st.(page := page), session, d, kind, a, st.page.nextHandle, st.page.nextHandle + 1,
                       RefToIndex(d.ref).value, submit)
  {
    var bound := BindSubmit(Acquire(Acquire(st.page)), d.submitRef, a);
    page, submit := bound.0, if bound.1.BoundSubmit? then Some(bound.1.submit) else None;
  }

  lemma CollectNewCreates(st: State, session: PageSession, d: Destination, kind: Kind, a: CollectAnswers)
    requires Safe(st) && HeapOk(st) && LiveOk(st) && d.identity.Some?
    requires CollectNew(st, session, d, kind, a).1 == Verified
    ensures var st' := CollectNew(st, session, d, kind, a).0; Safe(st') && (NoneLost(st') <==> NoneLost(st))
  {
    var page, submit := CollectNewIsCreate(st, session, d, kind, a);
    CreateHandles(st, page, session, d, kind, a, RefToIndex(d.ref).value, submit);
  }

  // ---------------------------------------------------------------- every operation, every run

  lemma CollectHandles(st: State, op: Op)
    requires Safe(st) && HeapOk(st) && LiveOk(st) && op.DoCollect?
    ensures Safe(Step(st, op)) && (NoneLost(Step(st, op)) <==> NoneLost(st) && !Loses(st, op))
  {
    if Admitted(st, op) {
      match FirstCompatible(st.heap, st.live, op.session, op.d, op.collect.context.frameId)
      case Some(t) =>
        VerifiedIffBinds(st, op);
        CollectIntoHandles(st, t, op.d, op.kind, op.collect);
      case None =>
        ThrowsIff(st, op.session, op.d, op.kind, op.collect);
        CollectNewHandles(st, op.session, op.d, op.kind, op.collect);
    }
  }

  lemma BeginSettlementHandles(st: State, d: Destination)
    requires Safe(st)
    ensures Safe(BeginSettlement(st, d)) && (NoneLost(BeginSettlement(st, d)) <==> NoneLost(st))
  {
    if FindTransaction(st, d).Some? { PhaseHandles(st, FindTransaction(st, d).value, Settling); }
  }

  /** No operation frees a handle twice or leaves one in two slots; a handle is lost exactly in the two situations of
      `Loses`, and then for good. */
  lemma StepHandles(st: State, op: Op)
    requires Inv(st) && Safe(st)
    ensures Safe(Step(st, op)) && (NoneLost(Step(st, op)) <==> NoneLost(st) && !Loses(st, op))
  {
    match op
    case DoCollect(_, _, _, _, _) => CollectHandles(st, op);
    case DoDeliver(_, _, _, _, _, _) => DeliverHandles(st, op);
    case DoRelease(d, a) => ReleaseHandles(st, d, a);
    case DoAbort(ds, identity, a) => AbortEachHandles(st, Mentioned(st, ds), identity, a);
    case DoInvalidate(s) => DepartEachHandles(st, LiveOf(st, s));
    case DoClearSession(s) => ReleaseEachHandles(st, LiveOf(st, s));
    case DoBeginSettlement(d) => BeginSettlementHandles(st, d);
    case DoReconcile(s, a) => ReconcileEachHandles(st, LiveOf(st, s), a);
    case DoSettle(s, d, a) => SettleHandles(st, s, d, a);
  }

  lemma HandlesStep(front: seq<Op>, op: Op)
    requires Safe(Run(Initial, front))
    ensures var st := Run(Initial, front);
      Safe(Step(st, op)) && (NoneLost(Step(st, op)) <==> NoneLost(st) && !Loses(st, op))
  {
    RunKeeps(Initial, front);
    StepHandles(Run(Initial, front), op);
  }

  /** Step `i` of the run loses a handle. */
  ghost predicate LosesAt(ops: seq<Op>, i: nat) { i < |ops| && Loses(Run(Initial, ops[..i]), ops[i]) }

  ghost predicate LossFree(ops: seq<Op>, n: nat) { forall i: nat :: i < n ==> !LosesAt(ops, i) }

  lemma LossFreeSplits(ops: seq<Op>, n: nat)
    requires 0 < n <= |ops|
    ensures LossFree(ops, n) <==> LossFree(ops, n - 1) && !Loses(Run(Initial, ops[..n - 1]), ops[n - 1])
  {
    assert LosesAt(ops, n - 1) <==> Loses(Run(Initial, ops[..n - 1]), ops[n - 1]);
  }

  lemma HandlesStepOf(ops: seq<Op>, n: nat)
    requires 0 < n <= |ops| && Safe(Run(Initial, ops[..n - 1]))
    ensures Safe(Run(Initial, ops[..n]))
    ensures NoneLost(Run(Initial, ops[..n])) <==>
      NoneLost(Run(Initial, ops[..n - 1])) && !Loses(Run(Initial, ops[..n - 1]), ops[n - 1])
  {
    assert ops[..n][..n - 1] == ops[..n - 1];
    HandlesStep(ops[..n - 1], ops[n - 1]);
  }

  /** The first `n` operations keep handles safe, and lose one only where the run does. */
  ghost predicate ConservedUpTo(ops: seq<Op>, n: nat)
    requires n <= |ops|
  {
    Safe(Run(Initial, ops[..n])) && (NoneLost(Run(Initial, ops[..n])) <==> LossFree(ops, n))
  }

  lemma NothingTaken(ops: seq<Op>)
    ensures ConservedUpTo(ops, 0)
  {
    assert ops[..0] == [];
  }

  lemma ConservedStep(ops: seq<Op>, n: nat)
    requires 0 < n <= |ops| && ConservedUpTo(ops, n - 1)
    ensures ConservedUpTo(ops, n)
  {
    HandlesStepOf(ops, n);
    LossFreeSplits(ops, n);
  }

  lemma {:induction false} HandlesConservedUpTo(ops: seq<Op>, n: nat)
    requires n <= |ops|
    ensures ConservedUpTo(ops, n)
    decreases n
  {
    if n == 0 {
      NothingTaken(ops);
    } else {
      HandlesConservedUpTo(ops, n - 1);
      ConservedStep(ops, n);
    }
  }

  /** On every run no handle is freed twice or used after being freed, and each handle taken is held by exactly one live
      transaction or was freed exactly once, exactly when the run contains neither of the two losing collections. */
  lemma HandlesConserved(ops: seq<Op>)
    ensures Safe(Run(Initial, ops))
    ensures NoneLost(Run(Initial, ops)) <==> forall i: nat :: i < |ops| ==> !LosesAt(ops, i)
  {
    HandlesConservedUpTo(ops, |ops|);
    assert ops[..|ops|] == ops;
  }
}
