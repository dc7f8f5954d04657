/** The controller itself: fields updated in place and loops over fields and transactions, each public method
    proved to do exactly what the state machine says. */
module ProtectedFormController {
  import opened Wrappers
  import opened BrowserTypes
  import opened ProtectedForm
  import opened ProtectedFormRuns

  class Controller {
    var heap: map<TxId, Transaction>
    var live: seq<TxId>
    var index: map<(SessionId, Key), TxId>
    var nextId: TxId
    var page: Page

    ghost function Model(): State
      reads this
    {
      State(heap, live, index, nextId, page)
    }

    ghost predicate Valid()
      reads this
    {
      Inv(Model())
    }

    constructor ()
      ensures Model() == Initial && Valid()
    {
      heap, live, index, nextId := map[], [], map[], 1;
      page := Page(0, multiset{}, [], []);
    }

    method Sensitive(s: SessionId) returns (r: bool)
      ensures r == IsSensitive(Model(), s)
    {
      for i := 0 to |live|
        invariant forall j :: 0 <= j < i && live[j] in heap && heap[live[j]].sessionId == s ==> !RequiresProtection(heap[live[j]])
      {
        if live[i] in heap && heap[live[i]].sessionId == s {
          var needed := NeedsProtection(heap[live[i]]);
          if needed { return true; }
        }
      }
      return false;
    }

    method NeedsProtection(tx: Transaction) returns (r: bool)
      ensures r == RequiresProtection(tx)
    {
      if tx.released || tx.state == Departed { return false; }
      var collecting := tx.state == Bound || tx.state == AwaitingValues;
      for i := 0 to |tx.fields|
        invariant forall j :: 0 <= j < i ==>
          (if collecting then tx.fields[j].released else !(tx.fields[j].deliveryAttempted || tx.fields[j].delivered))
      {
        var f := tx.fields[i];
        if if collecting then !f.released else f.deliveryAttempted || f.delivered { return true; }
      }
      return false;
    }

    /** The released mark first, then both maps, then the remote handles. */
    method ReleaseOne(t: TxId)
      modifies this
      ensures Model() == ReleaseTransaction(old(Model()), t)
    {
      if t !in heap || heap[t].released { return; }
      var tx := heap[t];
      heap := heap[t := tx.(released := true)];
      live := Without(live, t);
      index := DropKeys(index, tx.sessionId, tx.fields);
      page := Free(page, HandleSet(tx));
    }

    method DropKeys(bound: map<(SessionId, Key), TxId>, s: SessionId, fields: seq<Field>)
      returns (r: map<(SessionId, Key), TxId>)
      ensures r == map ik | ik in bound && !(ik.0 == s && FindField(fields, ik.1).Some?) :: bound[ik]
    {
      r := bound;
      for i := 0 to |fields|
        invariant forall ik :: ik in r <==> ik in bound && !(ik.0 == s && exists j :: 0 <= j < i && KeyOf(fields[j]) == ik.1)
        invariant forall ik :: ik in r ==> r[ik] == bound[ik]
      {
        r := r - {(s, KeyOf(fields[i]))};
      }
      forall k ensures FindField(fields, k).Some? <==> exists j :: 0 <= j < |fields| && KeyOf(fields[j]) == k {
        if j :| 0 <= j < |fields| && KeyOf(fields[j]) == k { assert fields[j] in fields; }
      }
    }

    method ReleaseAll(ts: seq<TxId>, depart: bool)
      modifies this
      ensures Model() == if depart then DepartEach(old(Model()), ts) else ReleaseEach(old(Model()), ts)
    {
      var i := 0;
      while i < |ts|
        invariant i <= |ts|
        invariant (if depart then DepartEach(old(Model()), ts) else ReleaseEach(old(Model()), ts))
               == (if depart then DepartEach(Model(), ts[i..]) else ReleaseEach(Model(), ts[i..]))
      {
        assert ts[i..][1..] == ts[i + 1..];
        if depart && ts[i] in heap { heap := heap[ts[i] := heap[ts[i]].(state := Departed)]; }
        ReleaseOne(ts[i]);
        i := i + 1;
      }
    }

    method InvalidateSession(s: SessionId)
      requires Valid()
      modifies this
      ensures Valid() && Model() == Step(old(Model()), DoInvalidate(s))
    {
      StepKeeps(Model(), DoInvalidate(s));
      ReleaseAll(FilterSession(heap, live, s), true);
    }

    method ClearSession(s: SessionId)
      requires Valid()
      modifies this
      ensures Valid() && Model() == Step(old(Model()), DoClearSession(s))
    {
      StepKeeps(Model(), DoClearSession(s));
      ReleaseAll(FilterSession(heap, live, s), false);
    }

    // -------------------------------------------------------------- collecting

    method FindCompatible(session: PageSession, d: Destination, frameId: Option<string>) returns (r: Option<TxId>)
      ensures r == FirstCompatible(heap, live, session, d, frameId)
    {
      var i := 0;
      while i < |live|
        invariant i <= |live|
        invariant FirstCompatible(heap, live, session, d, frameId) == FirstCompatible(heap, live[i..], session, d, frameId)
      {
        assert live[i..][1..] == live[i + 1..];
        if live[i] in heap && Compatible(heap[live[i]], session, d, frameId) { return Some(live[i]); }
        i := i + 1;
      }
      return None;
    }

    method OthersNeedProtection(s: SessionId, except: Option<TxId>) returns (r: bool)
      ensures r == OtherNeedsProtection(Model(), s, except)
    {
      for i := 0 to |live|
        invariant forall j :: 0 <= j < i && live[j] in heap && heap[live[j]].sessionId == s && Some(live[j]) != except
                              ==> !RequiresProtection(heap[live[j]])
      {
        if live[i] in heap && heap[live[i]].sessionId == s && Some(live[i]) != except {
          var needed := NeedsProtection(heap[live[i]]);
          if needed { return true; }
        }
      }
      return false;
    }

    /** Verification before collection: takes handles one by one and gives them back on every rejecting path. */
    method VerifyBeforeCollection(session: PageSession, d: Destination, kind: Kind, aborted: bool, a: CollectAnswers)
      returns (v: Verification)
      requires Valid()
      modifies this
      ensures Valid() && (Model(), v) == Collect(old(Model()), session, d, kind, aborted, a)
    {
      CollectKeeps(Model(), session, d, kind, aborted, a);
      var early := Precheck(session, d, aborted, a.context);
      if early.Some? { return Rejected(early.value); }
      if (session.key, BindingKey(d)) in index { return Rejected(FieldAmbiguous); }
      var compatible := FindCompatible(session, d, a.context.frameId);
      var others := OthersNeedProtection(session.key, compatible);
      if others { return Rejected(FieldAmbiguous); }
      if compatible.Some? {
        v := BindFurther(compatible.value, d, kind, a);
      } else {
        v := BindFirst(session, d, kind, a);
      }
    }

    method BindFurther(t: TxId, d: Destination, kind: Kind, a: CollectAnswers) returns (v: Verification)
      requires t in heap
      modifies this
      ensures (Model(), v) == CollectInto(old(Model()), t, d, kind, a)
    {
      if a.documentCurrent != Yes { return Rejected(FieldReplaced); }
      var elementIndex := RefToIndex(d.ref);
      if elementIndex.None? { return Rejected(FieldMissing); }
      if a.field == Throws { return VerifyThrows; }
      if a.field == Missing { return Rejected(FieldMissing); }
      var handle := TakeHandle();
      var rejection := InspectionRejection(a.inspection, false);
      if rejection.Some? {
        page := Free(page, {handle});
        return Rejected(rejection.value);
      }
      if heap[t].submit.Some? && !SubmitIsActionable(a.submitInspection) {
        page := Free(page, {handle});
        return Rejected(FieldReplaced);
      }
      AddField(t, NewField(d, kind, handle, elementIndex.value, a.inspection.value.explicitEmail));
      return Verified;
    }

    method BindFirst(session: PageSession, d: Destination, kind: Kind, a: CollectAnswers) returns (v: Verification)
      requires d.identity.Some?
      modifies this
      ensures (Model(), v) == CollectNew(old(Model()), session, d, kind, a)
    {
      if !a.documentResolves { return Rejected(FieldMissing); }
      var document := TakeHandle();
      var elementIndex := RefToIndex(d.ref);
      if elementIndex.None? {
        page := Free(page, {document});
        return Rejected(FieldMissing);
      }
      if a.field == Throws { return VerifyThrows; }
      if a.field == Missing {
        page := Free(page, {document});
        return Rejected(FieldMissing);
      }
      var handle := TakeHandle();
      var rejection := InspectionRejection(a.inspection, false);
      if rejection.Some? {
        page := Free(page, {handle, document});
        return Rejected(rejection.value);
      }
      var (page', binding) := BindSubmit(page, d.submitRef, a);
      page := page';
      if binding.SubmitThrows? { return VerifyThrows; }
      if binding.UnboundSubmit? {
        page := Free(page, {handle, document});
        return Rejected(FieldMissing);
      }
      var t := nextId;
      nextId := nextId + 1;
      heap := heap[t := Transaction(session.key, session.tabRef, d.expectedOrigin, a.context.frameId, d.identity.value, document,
                                    session.supervisor, [], if binding.BoundSubmit? then Some(binding.submit) else None,
                                    Bound, NotRequested, false)];
      live := live + [t];
      AddField(t, NewField(d, kind, handle, elementIndex.value, a.inspection.value.explicitEmail));
      return Verified;
    }

    method TakeHandle() returns (h: Handle)
      modifies this`page
      ensures h == old(page).nextHandle && page == Acquire(old(page))
    {
      h := page.nextHandle;
      page := page.(nextHandle := h + 1);
    }

    method AddField(t: TxId, f: Field)
      requires t in heap
      modifies this`heap, this`index
      ensures Model() == BindField(old(Model()), t, f)
    {
      heap := heap[t := heap[t].(fields := PutField(heap[t].fields, f))];
      heap := heap[t := heap[t].(state := AwaitingValues)];
      index := index[(heap[t].sessionId, KeyOf(f)) := t];
    }

    // -------------------------------------------------------------- delivering

    method ChallengeIsCurrent(tx: Transaction, a: ChallengeAnswers) returns (r: Option<bool>)
      ensures r == ChallengeCurrent(tx, a)
    {
      if a.document == No { return Some(false); }
      if a.document == Unknown { return None; }
      var unknown := false;
      for i := 0 to |tx.fields|
        invariant forall j :: 0 <= j < i ==> !SeenOnPage(a.inspect(KeyOf(tx.fields[j])))
        invariant unknown <==> exists j :: 0 <= j < i && a.inspect(KeyOf(tx.fields[j])).None?
      {
        var inspection := a.inspect(KeyOf(tx.fields[i]));
        if inspection.None? {
          unknown := true;
        } else {
          if inspection.value.connected && inspection.value.current { return Some(true); }
          if inspection.value.conflictCount > 0 { return Some(true); }
        }
      }
      return if unknown then None else Some(false);
    }

    method VerifyBeforeDelivery(session: PageSession, d: Destination, kind: Kind, aborted: bool, context: ContextAnswers,
                                check: ChallengeAnswers, submit: Option<SubmitInspection>) returns (r: Option<Reason>)
      ensures r == CheckDelivery(Model(), session, d, kind, aborted, context, check, submit)
    {
      r := Precheck(session, d, aborted, context);
      if r.Some? { return; }
      var found := FindTransaction(State(heap, live, index, nextId, page), d);
      if found.None? { return Some(RequestNotActive); }
      var tx := heap[found.value];
      var active := tx.fields[FindField(tx.fields, BindingKey(d)).value];
      if active.kind != kind || tx.state !in {AwaitingValues, Delivering} { return Some(RequestNotActive); }
      if tx.supervisor != session.supervisor { return Some(FieldReplaced); }
      if tx.tabRef != session.tabRef { return Some(TabMismatch); }
      if tx.frameId != context.frameId { return Some(FrameMismatch); }
      if check.document != Yes { return Some(FieldReplaced); }
      var i := 0;
      while i < |tx.fields|
        invariant i <= |tx.fields|
        invariant FirstRejection(tx.fields, check.inspect) == FirstRejection(tx.fields[i..], check.inspect)
      {
        assert tx.fields[i..][1..] == tx.fields[i + 1..];
        r := InspectionRejection(check.inspect(KeyOf(tx.fields[i])), true);
        if r.Some? { return; }
        i := i + 1;
      }
      if tx.submit.Some? && !SubmitIsActionable(submit) { return Some(FieldReplaced); }
      return None;
    }

    method FailDelivery(t: TxId, active: nat, navigation: bool) returns (r: Delivery)
      requires t in heap && active < |heap[t].fields|
      modifies this`heap
      ensures (Model(), r) == DeliveryFailed(old(Model()), t, active, navigation)
    {
      heap := heap[t := heap[t].(state := Blocked)];
      heap := heap[t := heap[t].(submission := Failed)];
      assert heap == old(heap)[t := heap[t]];
      var tx := heap[t];
      var othersDelivered := true;
      for i := 0 to |tx.fields|
        invariant othersDelivered <==> forall j :: 0 <= j < i ==> j == active || tx.fields[j].delivered
      {
        if i != active && !tx.fields[i].delivered { othersDelivered := false; }
      }
      return if tx.submit.Some? && othersDelivered && navigation then Outcome(Failed) else DeliveryThrows;
    }

    method DeliverValue(session: PageSession, d: Destination, kind: Kind, aborted: bool, value: Option<string>, a: DeliverAnswers)
      returns (r: Delivery)
      requires Valid()
      modifies this
      ensures Valid() && (Model(), r) == Deliver(old(Model()), session, d, kind, aborted, value, a)
    {
      DeliverKeeps(Model(), session, d, kind, aborted, value, a);
      r := CheckAndWrite(session, d, kind, aborted, value, a);
    }

    method CheckAndWrite(session: PageSession, d: Destination, kind: Kind, aborted: bool, value: Option<string>, a: DeliverAnswers)
      returns (r: Delivery)
      modifies this
      ensures (Model(), r) == Deliver(old(Model()), session, d, kind, aborted, value, a)
    {
      var rejection := VerifyBeforeDelivery(session, d, kind, aborted, a.context, a.check, a.checkSubmit);
      if rejection.Some? { return DeliveryRefused; }
      var t := FindTransaction(State(heap, live, index, nextId, page), d).value;
      var i := FindField(heap[t].fields, BindingKey(d)).value;
      var active := heap[t].fields[i];
      if value.None? { return DeliveryThrows; }
      if active.kind == AccountIdentifier && active.explicitEmail && SixDigits(value.value) { return DeliveryRefused; }
      heap := heap[t := MarkAttempted(heap[t], i)];
      if a.write == CallTrue {
        heap := heap[t := MarkDelivered(heap[t], i)];
        page := page.(writes := page.writes + [(t, BindingKey(d))]);
        r := SubmitAfterWrite(t, i, a);
      } else {
        r := FailDelivery(t, i, a.write.CallThrows? && a.write.navigation);
      }
    }

    method SubmitAfterWrite(t: TxId, active: nat, a: DeliverAnswers) returns (r: Delivery)
      requires t in heap && active < |heap[t].fields|
      modifies this
      ensures (Model(), r) == AfterWrite(old(Model()), t, active, a)
    {
      var tx := heap[t];
      var complete := true;
      for i := 0 to |tx.fields|
        invariant complete <==> forall j :: 0 <= j < i ==> tx.fields[j].delivered
      {
        if !tx.fields[i].delivered { complete := false; }
      }
      if tx.submit.None? || !complete {
        heap := heap[t := tx.(submission := NotRequested)];
        return Outcome(NotRequested);
      }
      if a.cancelledInDelay {
        r := FailDelivery(t, active, false);
        return;
      }
      var current := ChallengeIsCurrent(tx, a.challenge);
      if current == Some(false) {
        heap := heap[t := tx.(state := Automatic, submission := SubmittedItself)];
        return Outcome(SubmittedItself);
      }
      if !SubmitIsActionable(a.submitInspection) {
        heap := heap[t := tx.(state := Blocked, submission := Failed)];
        return Outcome(Failed);
      }
      page := page.(clicks := page.clicks + [t]);
      if a.click.CallThrows? {
        r := FailDelivery(t, active, a.click.navigation);
        return;
      }
      var submission := if a.click == CallTrue then Clicked else Failed;
      heap := heap[t := heap[t].(submission := submission)];
      heap := heap[t := heap[t].(state := if submission == Clicked then Submitted else Blocked)];
      assert heap == old(heap)[t := heap[t]];
      return Outcome(submission);
    }

    // -------------------------------------------------------------- clearing and releasing

    method HasAttempted(tx: Transaction) returns (r: bool)
      ensures r == AnyAttempted(tx)
    {
      for i := 0 to |tx.fields|
        invariant forall j :: 0 <= j < i ==> !tx.fields[j].deliveryAttempted
      {
        if tx.fields[i].deliveryAttempted { return true; }
      }
      return false;
    }

    /** Either every attempted mark is reset or the transaction is blocked and the caller sees an error. */
    method EndClear(t: TxId, verified: bool) returns (ok: bool)
      requires t in heap
      modifies this`heap
      ensures (Model(), ok) == FinishClear(old(Model()), t, verified)
    {
      if !verified {
        heap := heap[t := heap[t].(state := Blocked)];
        return false;
      }
      var fields := heap[t].fields;
      for i := 0 to |fields|
        invariant |fields| == |old(heap)[t].fields|
        invariant forall j :: 0 <= j < |fields| ==>
          fields[j] == if j < i then ResetField(old(heap)[t].fields[j]) else old(heap)[t].fields[j]
      {
        if fields[i].deliveryAttempted {
          fields := fields[i := fields[i].(deliveryAttempted := false, delivered := false)];
        }
      }
      assert fields == ResetFields(old(heap)[t].fields);
      heap := heap[t := heap[t].(fields := fields)];
      return true;
    }

    method ClearCurrentChallenge(t: TxId, a: ClearAnswers) returns (ok: bool)
      requires t in heap
      modifies this
      ensures (Model(), ok) == ClearCurrent(old(Model()), t, a)
    {
      var attempted := HasAttempted(heap[t]);
      if !attempted { return true; }
      var verified := a.documentResolves;
      if a.documentResolves {
        var document := TakeHandle();
        verified := a.bulkEmptied;
        verified := a.bulkReadEmpty && verified;
        page := Free(page, {document});
      }
      ok := EndClear(t, verified);
    }

    /** One pass that empties the attempted fields, then one that reads each of them back. */
    method ClearDeliveredValues(t: TxId, a: ClearAnswers) returns (ok: bool)
      requires t in heap
      modifies this
      ensures (Model(), ok) == ClearDelivered(old(Model()), t, a)
    {
      var tx := heap[t];
      var attempted := HasAttempted(tx);
      if !attempted { return true; }
      if a.document == No {
        ok := ClearCurrentChallenge(t, a);
        return;
      }
      var verified := true;
      for i := 0 to |tx.fields|
        invariant verified <==> forall j :: 0 <= j < i && tx.fields[j].deliveryAttempted ==> a.emptied(KeyOf(tx.fields[j]))
      {
        if tx.fields[i].deliveryAttempted { verified := a.emptied(KeyOf(tx.fields[i])) && verified; }
      }
      var emptied := verified;
      for i := 0 to |tx.fields|
        invariant verified <==> emptied && forall j :: 0 <= j < i && tx.fields[j].deliveryAttempted ==> a.readEmpty(KeyOf(tx.fields[j]))
      {
        if tx.fields[i].deliveryAttempted { verified := a.readEmpty(KeyOf(tx.fields[i])) && verified; }
      }
      ok := EndClear(t, verified);
    }

    method ReleaseDestination(d: Destination, a: ClearAnswers)
      requires Valid()
      modifies this
      ensures Valid() && Model() == Step(old(Model()), DoRelease(d, a))
    {
      StepKeeps(Model(), DoRelease(d, a));
      var found := FindTransaction(State(heap, live, index, nextId, page), d);
      if found.None? { return; }
      var t := found.value;
      var i := FindField(heap[t].fields, BindingKey(d)).value;
      if heap[t].fields[i].released { return; }
      if ClearsOnRelease(heap[t], i) {
        ClearKeepsFields(Model(), t, a, i);
        var ok := ClearDeliveredValues(t, a);
        if !ok { return; }
      }
      MarkFieldReleased(t, i, d);
    }

    method MarkFieldReleased(t: TxId, i: nat, d: Destination)
      requires t in heap && i < |heap[t].fields|
      modifies this
      ensures Model() == ReleaseField(old(Model()), t, i, d)
    {
      var tx := heap[t].(fields := heap[t].fields[i := heap[t].fields[i].(released := true)]);
      heap := heap[t := tx];
      index := index - {(d.sessionId, BindingKey(d))};
      var allReleased := true;
      for j := 0 to |tx.fields|
        invariant allReleased <==> forall k :: 0 <= k < j ==> tx.fields[k].released
      {
        if !tx.fields[j].released { allReleased := false; }
      }
      if !allReleased { return; }
      var needed := NeedsProtection(tx);
      if needed {
        if tx.state == Delivering { heap := heap[t := tx.(state := StillPresent)]; }
      } else {
        ReleaseOne(t);
      }
    }

    method AbortDestinations(ds: seq<Destination>, identity: Option<Identity>, a: TxId -> AbortAnswers) returns (ok: bool)
      requires Valid()
      modifies this
      ensures Valid() && Model() == Step(old(Model()), DoAbort(ds, identity, a))
      ensures ok == AbortEach(old(Model()), Mentioned(old(Model()), ds), identity, a).1
    {
      StepKeeps(Model(), DoAbort(ds, identity, a));
      ok := AbortAll(Mentioned(State(heap, live, index, nextId, page), ds), identity, a);
    }

    method AbortAll(ts: seq<TxId>, identity: Option<Identity>, a: TxId -> AbortAnswers) returns (ok: bool)
      requires forall t :: t in ts ==> t in heap
      modifies this
      ensures (Model(), ok) == AbortEach(old(Model()), ts, identity, a)
    {
      ok := true;
      var i := 0;
      while i < |ts| && ok
        invariant i <= |ts| && forall t :: t in ts ==> t in heap
        invariant ok ==> AbortEach(old(Model()), ts, identity, a) == AbortEach(Model(), ts[i..], identity, a)
        invariant !ok ==> AbortEach(old(Model()), ts, identity, a) == (Model(), false)
      {
        assert ts[i..][1..] == ts[i + 1..];
        ok := AbortTransaction(ts[i], identity, a(ts[i]));
        i := i + 1;
      }
    }

    method AbortTransaction(t: TxId, identity: Option<Identity>, a: AbortAnswers) returns (ok: bool)
      requires t in heap
      modifies this
      ensures (Model(), ok) == AbortOne(old(Model()), t, identity, a) && heap.Keys == old(heap.Keys)
    {
      ClearShape(Model(), t, a.clear, HasDeparted(heap[t], identity, a.document));
      if HasDeparted(heap[t], identity, a.document) {
        ok := ClearCurrentChallenge(t, a.clear);
      } else {
        ok := ClearDeliveredValues(t, a.clear);
      }
    }

    // -------------------------------------------------------------- settling

    method StartSettlement(d: Destination)
      requires Valid()
      modifies this
      ensures Valid() && Model() == Step(old(Model()), DoBeginSettlement(d))
    {
      BeginSettlementKeeps(Model(), d);
      MarkSettling(d);
    }

    method MarkSettling(d: Destination)
      modifies this
      ensures Model() == BeginSettlement(old(Model()), d)
    {
      var found := FindTransaction(State(heap, live, index, nextId, page), d);
      if found.Some? && heap[found.value].state in {Submitted, Automatic, Blocked} {
        heap := heap[found.value := heap[found.value].(state := Settling)];
      }
    }

    method ReconcileSession(s: SessionId, a: TxId -> ChallengeAnswers)
      requires Valid()
      modifies this
      ensures Valid() && Model() == Step(old(Model()), DoReconcile(s, a))
    {
      StepKeeps(Model(), DoReconcile(s, a));
      ReconcileAll(FilterSession(heap, live, s), a);
    }

    method ReconcileAll(ts: seq<TxId>, a: TxId -> ChallengeAnswers)
      modifies this
      ensures Model() == ReconcileEach(old(Model()), ts, a)
    {
      var i := 0;
      while i < |ts|
        invariant i <= |ts|
        invariant ReconcileEach(old(Model()), ts, a) == ReconcileEach(Model(), ts[i..], a)
      {
        assert ts[i..][1..] == ts[i + 1..];
        ReconcileTransaction(ts[i], a(ts[i]));
        i := i + 1;
      }
    }

    method ReconcileTransaction(t: TxId, a: ChallengeAnswers)
      modifies this
      ensures Model() == ReconcileOne(old(Model()), t, a)
    {
      if t !in heap { return; }
      if heap[t].state == Settling || !AllReleased(heap[t]) { return; }
      var needed := NeedsProtection(heap[t]);
      if !needed {
        ReleaseOne(t);
        return;
      }
      var current := ChallengeIsCurrent(heap[t], a);
      if current == Some(false) {
        heap := heap[t := heap[t].(state := Departed)];
        ReleaseOne(t);
      } else {
        heap := heap[t := heap[t].(state := if current == Some(true) then StillPresent else Blocked)];
      }
    }

    method SettleDestination(s: SessionId, d: Destination, a: SettleAnswers)
      requires Valid()
      modifies this
      ensures Valid() && Model() == Step(old(Model()), DoSettle(s, d, a))
    {
      SettleKeeps(Model(), s, d, a);
      ApplySettlement(s, d, a);
    }

    method ApplySettlement(s: SessionId, d: Destination, a: SettleAnswers)
      modifies this
      ensures Model() == Settle(old(Model()), s, d, a)
    {
      var found := FindTransaction(State(heap, live, index, nextId, page), d);
      var challenge := a.fallback;
      var documentChanged := found.Some? && HasDeparted(heap[found.value], Some(a.snapshotIdentity), a.document);
      if challenge.None? && found.Some? && !documentChanged {
        challenge := ChallengeIsCurrent(heap[found.value], a.challenge);
      }
      if challenge == Some(false) {
        if found.Some? { heap := heap[found.value := heap[found.value].(state := Departed)]; }
        ReleaseAll(FilterSession(heap, live, s), true);
        return;
      }
      if found.None? { return; }
      var t := found.value;
      var submission := heap[t].submission;
      heap := heap[t := heap[t].(state := if challenge == Some(true) then StillPresent else Blocked)];
      if heap[t].submit.None? || submission == NotRequested { return; }
      if documentChanged {
        var _ := ClearCurrentChallenge(t, a.clear);
      } else {
        var _ := ClearDeliveredValues(t, a.clear);
      }
    }
  }
}
