/** What every operation of the protected-form controller keeps, and what follows over whole runs. */
module ProtectedFormRuns {
  import opened Wrappers
  import opened BrowserTypes
  import opened ProtectedForm

  // ---------------------------------------------------------------- invariant

  ghost predicate DistinctKeys(fields: seq<Field>) {
    forall i, j :: 0 <= i < j < |fields| ==> KeyOf(fields[i]) != KeyOf(fields[j])
  }

  /** Collecting, delivering, decided: a transaction only moves to the right. */
  function Rank(p: Phase): nat {
    match p
    case Bound => 0
    case AwaitingValues => 1
    case Delivering => 2
    case _ => 3
  }

  ghost predicate TxOk(tx: Transaction) {
    && DistinctKeys(tx.fields)
    && (forall f :: f in tx.fields && f.delivered ==> f.deliveryAttempted)
    && (forall f :: f in tx.fields && Rank(tx.state) <= 1 ==> !f.deliveryAttempted)
  }

  ghost predicate HoldsUnreleased(tx: Transaction, key: Key) {
    exists f :: f in tx.fields && KeyOf(f) == key && !f.released
  }

  ghost predicate HeapOk(st: State) {
    forall t :: t in st.heap ==> t < st.nextId && TxOk(st.heap[t])
  }

  ghost predicate LiveOk(st: State) {
    && NoDuplicates(st.live)
    && (forall t :: t in st.live ==> t in st.heap && !st.heap[t].released)
    && (forall t :: t in st.heap && !st.heap[t].released ==> t in st.live)
  }

  /** Every entry of the binding index points to an unreleased transaction of that session
      that holds an unreleased field under that key. */
  ghost predicate IndexOk(st: State) {
    forall ik :: ik in st.index ==> EntryOk(st, ik)
  }

  ghost predicate EntryOk(st: State, ik: (SessionId, Key))
    requires ik in st.index
  {
    var t := st.index[ik];
    t in st.heap && t in st.live && !st.heap[t].released && st.heap[t].sessionId == ik.0 && HoldsUnreleased(st.heap[t], ik.1)
  }

  function Count(s: seq<TxId>, t: TxId): nat { multiset(s)[t] }

  ghost predicate PageOk(st: State) {
    && (forall t, f :: t in st.heap && f in st.heap[t].fields && f.delivered ==> (t, KeyOf(f)) in st.page.writes)
    && (forall t :: t in st.page.clicks ==> t in st.heap && Rank(st.heap[t].state) == 3)
    && (forall t :: Count(st.page.clicks, t) <= 1)
  }

  ghost predicate Inv(st: State) {
    HeapOk(st) && LiveOk(st) && IndexOk(st) && PageOk(st)
  }

  /** How one state may follow another: transactions stay known, keep their session, never lose
      the released mark and never move back to an earlier phase. */
  ghost predicate Advances(st: State, st': State) {
    && st.nextId <= st'.nextId
    && (forall t :: t in st.heap ==>
          && t in st'.heap && st'.heap[t].sessionId == st.heap[t].sessionId
          && (st.heap[t].released ==> st'.heap[t].released)
          && Rank(st.heap[t].state) <= Rank(st'.heap[t].state))
  }

  // ---------------------------------------------------------------- single-transaction updates

  ghost predicate Evolves(tx: Transaction, tx': Transaction) {
    && tx'.sessionId == tx.sessionId && tx'.released == tx.released
    && Rank(tx.state) <= Rank(tx'.state)
    && TxOk(tx')
    && (forall k :: HoldsUnreleased(tx, k) ==> HoldsUnreleased(tx', k))
  }

  /** Deliveries are on record, and at most one click is added, by a transaction that then is decided. */
  ghost predicate PageFollows(p: Page, p': Page, t: TxId, tx: Transaction) {
    && p.writes <= p'.writes
    && (forall f :: f in tx.fields && f.delivered ==> (t, KeyOf(f)) in p'.writes)
    && (p'.clicks == p.clicks || (p'.clicks == p.clicks + [t] && t !in p.clicks && Rank(tx.state) == 3))
  }

  function PutBoth(st: State, t: TxId, tx: Transaction, p: Page): State {
    State(st.heap[t := tx], st.live, st.index, st.nextId, p)
  }

  lemma PutBothKeeps(st: State, t: TxId, tx: Transaction, p: Page)
    requires Inv(st) && t in st.heap && Evolves(st.heap[t], tx) && PageFollows(st.page, p, t, tx)
    ensures Inv(PutBoth(st, t, tx, p)) && Advances(st, PutBoth(st, t, tx, p))
  {
    var st' := PutBoth(st, t, tx, p);
    PutBothPage(st, t, tx, p);
    forall ik | ik in st'.index ensures EntryOk(st', ik) { assert EntryOk(st, ik); }
  }

  lemma PutBothPage(st: State, t: TxId, tx: Transaction, p: Page)
    requires PageOk(st) && t in st.heap && Rank(st.heap[t].state) <= Rank(tx.state) && PageFollows(st.page, p, t, tx)
    ensures PageOk(PutBoth(st, t, tx, p))
  {
    if p.clicks != st.page.clicks {
      assert multiset(p.clicks) == multiset(st.page.clicks) + multiset{t};
      forall u ensures Count(p.clicks, u) <= 1 { assert Count(st.page.clicks, u) <= 1; }
    }
  }

  lemma PutKeeps(st: State, t: TxId, tx: Transaction)
    requires Inv(st) && t in st.heap && Evolves(st.heap[t], tx)
    requires forall f :: f in tx.fields && f.delivered ==> (t, KeyOf(f)) in st.page.writes
    ensures Inv(PutTx(st, t, tx)) && Advances(st, PutTx(st, t, tx))
  {
    PutBothKeeps(st, t, tx, st.page);
  }

  lemma PhaseKeeps(st: State, t: TxId, phase: Phase)
    requires Inv(st) && (t in st.heap ==> Rank(st.heap[t].state) <= Rank(phase) && (Rank(phase) <= 1 ==> Rank(st.heap[t].state) <= 1))
    ensures Inv(SetPhase(st, t, phase)) && Advances(st, SetPhase(st, t, phase))
  {
    if t in st.heap {
      var tx := st.heap[t].(state := phase);
      assert forall k :: HoldsUnreleased(st.heap[t], k) ==> HoldsUnreleased(tx, k);
      PutKeeps(st, t, tx);
    }
  }

  lemma ReleaseTransactionKeeps(st: State, t: TxId)
    requires Inv(st)
    ensures Inv(ReleaseTransaction(st, t)) && Advances(st, ReleaseTransaction(st, t))
    ensures t in st.heap ==> ReleaseTransaction(st, t).heap[t].released
    ensures forall u :: u in st.heap && u != t ==> ReleaseTransaction(st, t).heap[u] == st.heap[u]
  {
    var st' := ReleaseTransaction(st, t);
    if t in st.heap && !st.heap[t].released {
      forall ik | ik in st'.index ensures EntryOk(st', ik) {
        assert EntryOk(st, ik);
      }
    }
  }

  lemma {:induction false} ReleaseEachKeeps(st: State, ts: seq<TxId>)
    requires Inv(st)
    ensures Inv(ReleaseEach(st, ts)) && Advances(st, ReleaseEach(st, ts))
    decreases |ts|
  {
    if ts != [] {
      ReleaseTransactionKeeps(st, ts[0]);
      ReleaseEachKeeps(ReleaseTransaction(st, ts[0]), ts[1..]);
    }
  }

  lemma {:induction false} DepartEachKeeps(st: State, ts: seq<TxId>)
    requires Inv(st)
    ensures Inv(DepartEach(st, ts)) && Advances(st, DepartEach(st, ts))
    decreases |ts|
  {
    if ts != [] {
      PhaseKeeps(st, ts[0], Departed);
      ReleaseTransactionKeeps(SetPhase(st, ts[0], Departed), ts[0]);
      DepartEachKeeps(ReleaseTransaction(SetPhase(st, ts[0], Departed), ts[0]), ts[1..]);
    }
  }

  // ---------------------------------------------------------------- collecting

  lemma PutFieldAt(fields: seq<Field>, f: Field)
    requires DistinctKeys(fields)
    ensures DistinctKeys(PutField(fields, f))
    ensures f in PutField(fields, f)
    ensures forall g :: g in PutField(fields, f) ==> g == f || (g in fields && KeyOf(g) != KeyOf(f))
    ensures forall g :: g in fields && KeyOf(g) != KeyOf(f) ==> g in PutField(fields, f)
  {
    var r := PutField(fields, f);
    match FindField(fields, KeyOf(f))
    case Some(i) =>
      assert r[i] == f;
      forall g | g in fields && KeyOf(g) != KeyOf(f) ensures g in r {
        var j :| 0 <= j < |fields| && fields[j] == g;
        assert r[j] == g;
      }
    case None =>
      assert r[|fields|] == f;
  }

  lemma BindFieldKeeps(st: State, t: TxId, f: Field)
    requires Inv(st) && t in st.heap && !st.heap[t].released && Rank(st.heap[t].state) <= 1
    requires !f.deliveryAttempted && !f.delivered && !f.released
    ensures Inv(BindField(st, t, f)) && Advances(st, BindField(st, t, f))
  {
    var tx := st.heap[t];
    var tx' := tx.(fields := PutField(tx.fields, f), state := AwaitingValues);
    PutFieldAt(tx.fields, f);
    assert HoldsUnreleased(tx', KeyOf(f));
    forall k | HoldsUnreleased(tx, k) ensures HoldsUnreleased(tx', k) {
      var g :| g in tx.fields && KeyOf(g) == k && !g.released;
      assert k != KeyOf(f) ==> g in tx'.fields;
    }
    PutKeeps(st, t, tx');
    var st' := BindField(st, t, f);
    forall ik | ik in st'.index ensures EntryOk(st', ik) {
      if ik != (tx.sessionId, KeyOf(f)) {
        assert EntryOk(PutTx(st, t, tx'), ik);
      }
    }
  }

  lemma PageHandlesKeep(st: State, p: Page)
    requires Inv(st) && p.writes == st.page.writes && p.clicks == st.page.clicks
    ensures Inv(st.(page := p)) && Advances(st, st.(page := p))
  {
    forall ik | ik in st.index ensures EntryOk(st.(page := p), ik) { assert EntryOk(st, ik); }
  }

  /** A transaction without fields can be added. */
  lemma AddEmptyKeeps(st: State, tx: Transaction)
    requires Inv(st) && tx.fields == [] && !tx.released
    ensures var created := State(st.heap[st.nextId := tx], st.live + [st.nextId], st.index, st.nextId + 1, st.page);
      Inv(created) && Advances(st, created)
  {
    var created := State(st.heap[st.nextId := tx], st.live + [st.nextId], st.index, st.nextId + 1, st.page);
    forall ik | ik in st.index ensures EntryOk(created, ik) { assert EntryOk(st, ik); }
    assert st.nextId !in st.live;
  }

  lemma CreateWithKeeps(st: State, session: PageSession, d: Destination, kind: Kind, a: CollectAnswers, document: Handle,
                        handle: Handle, elementIndex: nat, submit: Option<Submit>)
    requires Inv(st) && d.identity.Some? && a.inspection.Some?
    ensures Inv(CreateWith(st, session, d, kind, a, document, handle, elementIndex, submit))
    ensures Advances(st, CreateWith(st, session, d, kind, a, document, handle, elementIndex, submit))
  {
    var tx := Transaction(session.key, session.tabRef, d.expectedOrigin, a.context.frameId, d.identity.value,
                          document, session.supervisor, [], submit, Bound, NotRequested, false);
    var created := State(st.heap[st.nextId := tx], st.live + [st.nextId], st.index, st.nextId + 1, st.page);
    AddEmptyKeeps(st, tx);
    BindFieldKeeps(created, st.nextId, NewField(d, kind, handle, elementIndex, a.inspection.value.explicitEmail));
  }

  lemma CollectKeeps(st: State, session: PageSession, d: Destination, kind: Kind, aborted: bool, a: CollectAnswers)
    requires Inv(st)
    ensures Inv(Collect(st, session, d, kind, aborted, a).0)
    ensures Advances(st, Collect(st, session, d, kind, aborted, a).0)
  {
    var st' := Collect(st, session, d, kind, aborted, a).0;
    var compatible := FirstCompatible(st.heap, st.live, session, d, a.context.frameId);
    if Precheck(session, d, aborted, a.context).Some? || (session.key, BindingKey(d)) in st.index
       || OtherNeedsProtection(st, session.key, compatible) {
    } else if compatible.Some? {
      CollectIntoKeeps(st, compatible.value, d, kind, a);
    } else {
      CollectNewKeeps(st, session, d, kind, a);
    }
  }

  lemma CollectIntoKeeps(st: State, t: TxId, d: Destination, kind: Kind, a: CollectAnswers)
    requires Inv(st) && t in st.live && st.heap[t].state == AwaitingValues
    ensures Inv(CollectInto(st, t, d, kind, a).0) && Advances(st, CollectInto(st, t, d, kind, a).0)
  {
    PageHandlesKeep(st, Acquire(st.page));
    PageHandlesKeep(st, Free(Acquire(st.page), {st.page.nextHandle}));
    if CollectInto(st, t, d, kind, a).1 == Verified {
      BindFieldKeeps(st.(page := Acquire(st.page)), t,
                     NewField(d, kind, st.page.nextHandle, RefToIndex(d.ref).value, a.inspection.value.explicitEmail));
    }
  }

  /** A first field either only takes and gives back handles, or creates one transaction. */
  lemma CollectNewShape(st: State, session: PageSession, d: Destination, kind: Kind, a: CollectAnswers)
    requires d.identity.Some?
    ensures var st' := CollectNew(st, session, d, kind, a).0;
      || st' == st.(page := st.page.(nextHandle := st'.page.nextHandle, freed := st'.page.freed))
      || (&& a.inspection.Some? && RefToIndex(d.ref).Some?
          && var (page, binding) := BindSubmit(Acquire(Acquire(st.page)), d.submitRef, a);
             && page == st.page.(nextHandle := page.nextHandle, freed := page.freed)
             && st' == CreateWith(st.(page := page), session, d, kind, a, st.page.nextHandle, st.page.nextHandle + 1,
                                  RefToIndex(d.ref).value,
                                  if binding.BoundSubmit? then Some(binding.submit) else None))
  {
  }

  lemma CollectNewKeeps(st: State, session: PageSession, d: Destination, kind: Kind, a: CollectAnswers)
    requires Inv(st) && d.identity.Some?
    ensures Inv(CollectNew(st, session, d, kind, a).0) && Advances(st, CollectNew(st, session, d, kind, a).0)
  {
    var st' := CollectNew(st, session, d, kind, a).0;
    CollectNewShape(st, session, d, kind, a);
    if st' == st.(page := st.page.(nextHandle := st'.page.nextHandle, freed := st'.page.freed)) {
      PageHandlesKeep(st, st'.page);
    } else {
      var (page, binding) := BindSubmit(Acquire(Acquire(st.page)), d.submitRef, a);
      PageHandlesKeep(st, page);
      CreateWithKeeps(st.(page := page), session, d, kind, a, st.page.nextHandle, st.page.nextHandle + 1,
                      RefToIndex(d.ref).value, if binding.BoundSubmit? then Some(binding.submit) else None);
    }
  }

  // ---------------------------------------------------------------- delivering

  /** After a confirmed write only the phase, the submission and possibly one click follow. */
  ghost predicate Follows(st: State, t: TxId, st': State)
    requires t in st.heap
  {
    && t in st'.heap
    && var tx, tx' := st.heap[t], st'.heap[t];
       && st' == PutBoth(st, t, tx', st'.page)
       && tx' == tx.(state := tx'.state, submission := tx'.submission)
       && tx'.state in {tx.state, Automatic, Blocked, Submitted}
       && st'.page == st.page.(clicks := st'.page.clicks)
       && (st'.page.clicks == st.page.clicks ||
           (st'.page.clicks == st.page.clicks + [t] && tx'.state in {Blocked, Submitted} && tx.submit.Some? && AllDelivered(tx)))
  }

  lemma AfterWriteShape(st: State, t: TxId, active: nat, a: DeliverAnswers)
    requires t in st.heap && active < |st.heap[t].fields|
    ensures Follows(st, t, AfterWrite(st, t, active, a).0)
  {
  }

  /** The transaction after an attempted, and possibly confirmed, write of field `i`. */
  function Attempted(tx: Transaction, i: nat, confirmed: bool): Transaction
    requires i < |tx.fields|
  {
    tx.(state := Delivering,
        fields := tx.fields[i := tx.fields[i].(deliveryAttempted := true, delivered := confirmed || tx.fields[i].delivered)])
  }

  /** The state after it, with the confirmed write on record. */
  function AttemptedState(st: State, t: TxId, i: nat, confirmed: bool): State
    requires t in st.heap && i < |st.heap[t].fields|
  {
    PutBoth(st, t, Attempted(st.heap[t], i, confirmed),
            if confirmed then st.page.(writes := st.page.writes + [(t, KeyOf(st.heap[t].fields[i]))]) else st.page)
  }

  /** Delivery touches one field's marks, the phase and the page record, and nothing else. */
  lemma DeliverShape(st: State, session: PageSession, d: Destination, kind: Kind, aborted: bool,
                     value: Option<string>, a: DeliverAnswers)
    ensures var st' := Deliver(st, session, d, kind, aborted, value, a).0;
      st' == st ||
      (&& FindTransaction(st, d).Some?
       && var t := FindTransaction(st, d).value;
          var i := FindField(st.heap[t].fields, BindingKey(d)).value;
          var mid := AttemptedState(st, t, i, a.write == CallTrue);
          && 1 <= Rank(st.heap[t].state) <= 2
          && Follows(mid, t, st')
          && (a.write != CallTrue ==> st'.page == mid.page))
  {
    if CheckDelivery(st, session, d, kind, aborted, a.context, a.check, a.checkSubmit).None? && value.Some? {
      var t := FindTransaction(st, d).value;
      var i := FindField(st.heap[t].fields, BindingKey(d)).value;
      var tx := st.heap[t];
      if !(tx.fields[i].kind == AccountIdentifier && tx.fields[i].explicitEmail && SixDigits(value.value)) {
        var attempted := PutTx(st, t, MarkAttempted(tx, i));
        if a.write == CallTrue {
          var mid := AttemptedState(st, t, i, true);
          assert MarkDelivered(MarkAttempted(tx, i), i) == Attempted(tx, i, true);
          assert PutTx(attempted, t, MarkDelivered(attempted.heap[t], i))
                 .(page := st.page.(writes := st.page.writes + [(t, BindingKey(d))])) == mid;
          AfterWriteShape(mid, t, i, a);
        } else {
          assert attempted == AttemptedState(st, t, i, false);
        }
      }
    }
  }

  lemma FieldUpdateEvolves(tx: Transaction, tx': Transaction, i: nat)
    requires TxOk(tx) && i < |tx.fields| && |tx'.fields| == |tx.fields|
    requires forall j :: 0 <= j < |tx.fields| && j != i ==> tx'.fields[j] == tx.fields[j]
    requires KeyOf(tx'.fields[i]) == KeyOf(tx.fields[i]) && tx'.fields[i].released == tx.fields[i].released
    requires tx'.fields[i].delivered ==> tx'.fields[i].deliveryAttempted
    requires tx'.sessionId == tx.sessionId && tx'.released == tx.released && Rank(tx.state) <= Rank(tx'.state)
    requires Rank(tx'.state) >= 2
    ensures Evolves(tx, tx')
  {
    forall k | HoldsUnreleased(tx, k) ensures HoldsUnreleased(tx', k) {
      var f :| f in tx.fields && KeyOf(f) == k && !f.released;
      var j :| 0 <= j < |tx.fields| && tx.fields[j] == f;
      assert tx'.fields[j] in tx'.fields;
    }
  }

  lemma AttemptKeeps(st: State, t: TxId, i: nat, confirmed: bool)
    requires Inv(st) && t in st.heap && i < |st.heap[t].fields| && 1 <= Rank(st.heap[t].state) <= 2
    ensures Inv(AttemptedState(st, t, i, confirmed)) && Advances(st, AttemptedState(st, t, i, confirmed))
  {
    var tx, mid := st.heap[t], AttemptedState(st, t, i, confirmed);
    var tx' := mid.heap[t];
    FieldUpdateEvolves(tx, tx', i);
    forall f | f in tx'.fields && f.delivered ensures (t, KeyOf(f)) in mid.page.writes {
      if f !in tx.fields {
        assert f == tx'.fields[i];
        assert tx.fields[i] in tx.fields;
        assert confirmed ==> mid.page.writes[|st.page.writes|] == (t, KeyOf(f));
      }
    }
    PutBothKeeps(st, t, tx', mid.page);
  }

  lemma FollowsKeeps(st: State, t: TxId, st': State)
    requires Inv(st) && t in st.heap && Follows(st, t, st') && Rank(st.heap[t].state) == 2
    ensures Inv(st') && Advances(st, st')
  {
    var tx, tx' := st.heap[t], st'.heap[t];
    assert tx'.fields == tx.fields;
    assert forall k :: HoldsUnreleased(tx, k) ==> HoldsUnreleased(tx', k);
    PutBothKeeps(st, t, tx', st'.page);
  }

  lemma WrittenKeeps(st: State, t: TxId, i: nat, confirmed: bool, st': State)
    requires Inv(st) && t in st.heap && i < |st.heap[t].fields| && 1 <= Rank(st.heap[t].state) <= 2
    requires Follows(AttemptedState(st, t, i, confirmed), t, st')
    ensures Inv(st') && Advances(st, st')
  {
    AttemptKeeps(st, t, i, confirmed);
    FollowsKeeps(AttemptedState(st, t, i, confirmed), t, st');
  }

  lemma DeliverKeeps(st: State, session: PageSession, d: Destination, kind: Kind, aborted: bool,
                     value: Option<string>, a: DeliverAnswers)
    requires Inv(st)
    ensures Inv(Deliver(st, session, d, kind, aborted, value, a).0)
    ensures Advances(st, Deliver(st, session, d, kind, aborted, value, a).0)
  {
    var st' := Deliver(st, session, d, kind, aborted, value, a).0;
    DeliverShape(st, session, d, kind, aborted, value, a);
    if st' != st {
      var t := FindTransaction(st, d).value;
      var i := FindField(st.heap[t].fields, BindingKey(d)).value;
      WrittenKeeps(st, t, i, a.write == CallTrue, st');
    }
  }

  // ---------------------------------------------------------------- clearing and releasing

  lemma FinishClearKeeps(st: State, t: TxId, verified: bool)
    requires Inv(st) && t in st.heap
    ensures Inv(FinishClear(st, t, verified).0) && Advances(st, FinishClear(st, t, verified).0)
  {
    var tx, tx' := st.heap[t], FinishClear(st, t, verified).0.heap[t];
    forall k | HoldsUnreleased(tx, k) ensures HoldsUnreleased(tx', k) {
      var f :| f in tx.fields && KeyOf(f) == k && !f.released;
      var j :| 0 <= j < |tx.fields| && tx.fields[j] == f;
      assert tx'.fields[j] in tx'.fields;
    }
    forall f | f in tx'.fields ensures f in tx.fields || (!f.delivered && !f.deliveryAttempted) {
      var j :| 0 <= j < |tx'.fields| && tx'.fields[j] == f;
      assert tx.fields[j] in tx.fields;
    }
    PutKeeps(st, t, tx');
  }

  lemma ClearCurrentKeeps(st: State, t: TxId, a: ClearAnswers)
    requires Inv(st) && t in st.heap
    ensures Inv(ClearCurrent(st, t, a).0) && Advances(st, ClearCurrent(st, t, a).0)
  {
    if AnyAttempted(st.heap[t]) {
      var visited := if a.documentResolves then st.(page := Free(Acquire(st.page), {st.page.nextHandle})) else st;
      PageHandlesKeep(st, visited.page);
      FinishClearKeeps(visited, t, CurrentReadsEmpty(a));
    }
  }

  lemma ClearDeliveredKeeps(st: State, t: TxId, a: ClearAnswers)
    requires Inv(st) && t in st.heap
    ensures Inv(ClearDelivered(st, t, a).0) && Advances(st, ClearDelivered(st, t, a).0)
  {
    if AnyAttempted(st.heap[t]) {
      if a.document == No {
        ClearCurrentKeeps(st, t, a);
      } else {
        FinishClearKeeps(st, t, FieldsReadEmpty(st.heap[t], a));
      }
    }
  }

  /** A clear pass changes marks and the phase of its transaction only. */
  lemma ClearShape(st: State, t: TxId, a: ClearAnswers, current: bool)
    requires t in st.heap
    ensures var (st', ok) := if current then ClearCurrent(st, t, a) else ClearDelivered(st, t, a);
      && t in st'.heap
      && var tx, tx' := st.heap[t], st'.heap[t];
         && st' == PutBoth(st, t, tx', st'.page)
         && tx' == tx.(fields := tx'.fields, state := tx'.state)
         && (if !AnyAttempted(tx) then ok && tx' == tx
             else if ok then tx'.fields == ResetFields(tx.fields) && tx'.state == tx.state
             else tx'.fields == tx.fields && tx'.state == Blocked)
         && (ok <==> !AnyAttempted(tx) || (if current || a.document == No then CurrentReadsEmpty(a) else FieldsReadEmpty(tx, a)))
  {
  }

  lemma ClearKeepsFields(st: State, t: TxId, a: ClearAnswers, i: nat)
    requires t in st.heap && i < |st.heap[t].fields|
    ensures var st' := ClearDelivered(st, t, a).0;
      && t in st'.heap && st'.heap[t].sessionId == st.heap[t].sessionId
      && i < |st'.heap[t].fields| && st'.heap[t].fields[i].destination == st.heap[t].fields[i].destination
  {
    ClearShape(st, t, a, false);
  }

  /** Marking field `i` released and dropping its index entry, the first half of a release. */
  function Unbound(st: State, t: TxId, i: nat, d: Destination): State
    requires t in st.heap && i < |st.heap[t].fields|
  {
    var tx := st.heap[t].(fields := st.heap[t].fields[i := st.heap[t].fields[i].(released := true)]);
    PutTx(st, t, tx).(index := st.index - {(d.sessionId, BindingKey(d))})
  }

  function MarkReleased(tx: Transaction, i: nat): Transaction
    requires i < |tx.fields|
  {
    tx.(fields := tx.fields[i := tx.fields[i].(released := true)])
  }

  lemma MarkReleasedOk(tx: Transaction, i: nat)
    requires TxOk(tx) && i < |tx.fields|
    ensures TxOk(MarkReleased(tx, i))
    ensures forall k :: HoldsUnreleased(tx, k) && k != KeyOf(tx.fields[i]) ==> HoldsUnreleased(MarkReleased(tx, i), k)
    ensures forall f :: f in MarkReleased(tx, i).fields ==> f in tx.fields || f == tx.fields[i].(released := true)
  {
    var tx' := MarkReleased(tx, i);
    assert tx.fields[i] in tx.fields;
    forall k | HoldsUnreleased(tx, k) && k != KeyOf(tx.fields[i]) ensures HoldsUnreleased(tx', k) {
      var f :| f in tx.fields && KeyOf(f) == k && !f.released;
      var j :| 0 <= j < |tx.fields| && tx.fields[j] == f;
      assert tx'.fields[j] in tx'.fields;
    }
  }

  lemma UnboundKeeps(st: State, t: TxId, i: nat, d: Destination)
    requires Inv(st) && t in st.heap && i < |st.heap[t].fields|
    requires KeyOf(st.heap[t].fields[i]) == BindingKey(d) && st.heap[t].sessionId == d.sessionId
    ensures Inv(Unbound(st, t, i, d)) && Advances(st, Unbound(st, t, i, d))
  {
    var unbound := Unbound(st, t, i, d);
    var before := st.heap[t];
    assert unbound.heap[t] == MarkReleased(before, i);
    assert before.fields[i] in before.fields;
    MarkReleasedOk(before, i);
    UnboundIndex(st, t, i, d);
  }

  lemma UnboundIndex(st: State, t: TxId, i: nat, d: Destination)
    requires IndexOk(st) && t in st.heap && i < |st.heap[t].fields| && TxOk(st.heap[t])
    requires KeyOf(st.heap[t].fields[i]) == BindingKey(d) && st.heap[t].sessionId == d.sessionId
    ensures IndexOk(Unbound(st, t, i, d))
  {
    var unbound := Unbound(st, t, i, d);
    assert unbound.heap[t] == MarkReleased(st.heap[t], i);
    MarkReleasedOk(st.heap[t], i);
    forall ik | ik in unbound.index ensures EntryOk(unbound, ik) { assert EntryOk(st, ik); }
  }

  lemma ReleaseFieldKeeps(st: State, t: TxId, i: nat, d: Destination)
    requires Inv(st) && t in st.heap && i < |st.heap[t].fields|
    requires KeyOf(st.heap[t].fields[i]) == BindingKey(d) && st.heap[t].sessionId == d.sessionId
    ensures Inv(ReleaseField(st, t, i, d)) && Advances(st, ReleaseField(st, t, i, d))
  {
    UnboundKeeps(st, t, i, d);
    var unbound := Unbound(st, t, i, d);
    var tx := unbound.heap[t];
    if !AllReleased(tx) {
    } else if !RequiresProtection(tx) {
      ReleaseTransactionKeeps(unbound, t);
    } else if tx.state == Delivering {
      PhaseKeeps(unbound, t, StillPresent);
    }
  }

  lemma FoundInSession(st: State, d: Destination)
    requires Inv(st)
    ensures FindTransaction(st, d).Some? ==>
      && var t := FindTransaction(st, d).value;
         t in st.heap && t in st.live && !st.heap[t].released && st.heap[t].sessionId == d.sessionId
         && st.index[(d.sessionId, BindingKey(d))] == t
  {
    var ik := (d.sessionId, BindingKey(d));
    if ik in st.index { assert EntryOk(st, ik); }
  }

  lemma ClearThenReleaseKeeps(st: State, t: TxId, i: nat, d: Destination, a: ClearAnswers)
    requires Inv(st) && t in st.heap && i < |st.heap[t].fields|
    requires KeyOf(st.heap[t].fields[i]) == BindingKey(d) && st.heap[t].sessionId == d.sessionId
    ensures var (cleared, ok) := ClearDelivered(st, t, a);
      var done := if ok then ReleaseField(cleared, t, i, d) else cleared;
      Inv(done) && Advances(st, done)
  {
    var (cleared, ok) := ClearDelivered(st, t, a);
    ClearDeliveredKeeps(st, t, a);
    ClearKeepsFields(st, t, a, i);
    if ok { ReleaseFieldKeeps(cleared, t, i, d); }
  }

  lemma ReleaseKeeps(st: State, d: Destination, a: ClearAnswers)
    requires Inv(st)
    ensures Inv(Release(st, d, a)) && Advances(st, Release(st, d, a))
  {
    FoundInSession(st, d);
    if FindTransaction(st, d).Some? {
      var t := FindTransaction(st, d).value;
      var i := FindField(st.heap[t].fields, BindingKey(d)).value;
      if st.heap[t].fields[i].released {
      } else if ClearsOnRelease(st.heap[t], i) {
        ClearThenReleaseKeeps(st, t, i, d, a);
      } else {
        ReleaseFieldKeeps(st, t, i, d);
      }
    }
  }

  lemma AbortOneKeeps(st: State, t: TxId, identity: Option<Identity>, a: AbortAnswers)
    requires Inv(st) && t in st.heap
    ensures Inv(AbortOne(st, t, identity, a).0) && Advances(st, AbortOne(st, t, identity, a).0)
  {
    ClearCurrentKeeps(st, t, a.clear);
    ClearDeliveredKeeps(st, t, a.clear);
  }

  lemma {:induction false} AbortEachKeeps(st: State, ts: seq<TxId>, identity: Option<Identity>, a: TxId -> AbortAnswers)
    requires Inv(st) && forall t :: t in ts ==> t in st.heap
    ensures Inv(AbortEach(st, ts, identity, a).0) && Advances(st, AbortEach(st, ts, identity, a).0)
    decreases |ts|
  {
    if ts != [] {
      var (st', ok) := AbortOne(st, ts[0], identity, a(ts[0]));
      AbortOneKeeps(st, ts[0], identity, a(ts[0]));
      if ok { AbortEachKeeps(st', ts[1..], identity, a); }
    }
  }

  // ---------------------------------------------------------------- settlement

  lemma BeginSettlementKeeps(st: State, d: Destination)
    requires Inv(st)
    ensures Inv(BeginSettlement(st, d)) && Advances(st, BeginSettlement(st, d))
  {
    var found := FindTransaction(st, d);
    if found.Some? && st.heap[found.value].state in {Submitted, Automatic, Blocked} {
      PhaseKeeps(st, found.value, Settling);
    }
  }

  lemma ReconcileOneKeeps(st: State, t: TxId, a: ChallengeAnswers)
    requires Inv(st)
    ensures Inv(ReconcileOne(st, t, a)) && Advances(st, ReconcileOne(st, t, a))
  {
    if t !in st.heap || st.heap[t].state == Settling || !AllReleased(st.heap[t]) {
    } else if !RequiresProtection(st.heap[t]) {
      ReleaseTransactionKeeps(st, t);
    } else {
      match ChallengeCurrent(st.heap[t], a)
      case Some(false) =>
        PhaseKeeps(st, t, Departed);
        ReleaseTransactionKeeps(SetPhase(st, t, Departed), t);
      case Some(true) => PhaseKeeps(st, t, StillPresent);
      case None => PhaseKeeps(st, t, Blocked);
    }
  }

  lemma {:induction false} ReconcileEachKeeps(st: State, ts: seq<TxId>, a: TxId -> ChallengeAnswers)
    requires Inv(st)
    ensures Inv(ReconcileEach(st, ts, a)) && Advances(st, ReconcileEach(st, ts, a))
    decreases |ts|
  {
    if ts != [] {
      ReconcileOneKeeps(st, ts[0], a(ts[0]));
      ReconcileEachKeeps(ReconcileOne(st, ts[0], a(ts[0])), ts[1..], a);
    }
  }

  lemma SettleKeeps(st: State, s: SessionId, d: Destination, a: SettleAnswers)
    requires Inv(st)
    ensures Inv(Settle(st, s, d, a)) && Advances(st, Settle(st, s, d, a))
  {
    var found := FindTransaction(st, d);
    var challenge := SettledChallenge(st, d, a);
    if challenge == Some(false) {
      SettleAwayKeeps(st, found, s);
    } else if found.Some? {
      var t := found.value;
      var tx := st.heap[t];
      var phase := if challenge == Some(true) then StillPresent else Blocked;
      if tx.submit.None? || tx.submission == NotRequested {
        PhaseKeeps(st, t, phase);
      } else {
        SettleHereKeeps(st, t, phase, HasDeparted(tx, Some(a.snapshotIdentity), a.document), a.clear);
      }
    }
  }

  lemma SettleAwayKeeps(st: State, found: Option<TxId>, s: SessionId)
    requires Inv(st) && (found.Some? ==> found.value in st.heap)
    ensures var departed := if found.Some? then SetPhase(st, found.value, Departed) else st;
      Inv(InvalidateSession(departed, s)) && Advances(st, InvalidateSession(departed, s))
  {
    var departed := if found.Some? then SetPhase(st, found.value, Departed) else st;
    if found.Some? { PhaseKeeps(st, found.value, Departed); }
    DepartEachKeeps(departed, LiveOf(departed, s));
  }

  lemma SettleHereKeeps(st: State, t: TxId, phase: Phase, documentChanged: bool, clear: ClearAnswers)
    requires Inv(st) && t in st.heap && phase in {StillPresent, Blocked}
    ensures var phased := SetPhase(st, t, phase);
      var cleared := if documentChanged then ClearCurrent(phased, t, clear).0 else ClearDelivered(phased, t, clear).0;
      Inv(cleared) && Advances(st, cleared)
  {
    PhaseKeeps(st, t, phase);
    if documentChanged {
      ClearCurrentKeeps(SetPhase(st, t, phase), t, clear);
    } else {
      ClearDeliveredKeeps(SetPhase(st, t, phase), t, clear);
    }
  }

  // ---------------------------------------------------------------- every operation, every run

  lemma StepKeeps(st: State, op: Op)
    requires Inv(st)
    ensures Inv(Step(st, op)) && Advances(st, Step(st, op))
  {
    match op
    case DoCollect(session, d, kind, aborted, a) => CollectKeeps(st, session, d, kind, aborted, a);
    case DoDeliver(session, d, kind, aborted, value, a) => DeliverKeeps(st, session, d, kind, aborted, value, a);
    case DoRelease(d, a) => ReleaseKeeps(st, d, a);
    case DoAbort(ds, identity, a) => AbortEachKeeps(st, Mentioned(st, ds), identity, a);
    case DoInvalidate(s) => DepartEachKeeps(st, LiveOf(st, s));
    case DoClearSession(s) => ReleaseEachKeeps(st, LiveOf(st, s));
    case DoBeginSettlement(d) => BeginSettlementKeeps(st, d);
    case DoReconcile(s, a) => ReconcileEachKeeps(st, LiveOf(st, s), a);
    case DoSettle(s, d, a) => SettleKeeps(st, s, d, a);
  }

  /** The invariant holds after every run of the controller, and a run only moves transactions forward. */
  lemma {:induction false} RunKeeps(st: State, ops: seq<Op>)
    requires Inv(st)
    ensures Inv(Run(st, ops)) && Advances(st, Run(st, ops))
    decreases |ops|
  {
    if ops != [] {
      RunKeeps(st, ops[..|ops| - 1]);
      StepKeeps(Run(st, ops[..|ops| - 1]), ops[|ops| - 1]);
    }
  }
}
