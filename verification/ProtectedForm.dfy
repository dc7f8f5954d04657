/**
 The protected-form controller as a state machine: every public operation is a
 function from the controller's state and the page's answers to a new state.
 Page answers (inspections, clear results, "is this still the document") are
 arbitrary inputs, so whatever is proved holds for every page.

 The nested maps of the controller are flattened: `live` lists the transactions
 of all sessions in creation order and `index` is keyed by session and binding key.
 `heap` keeps every transaction object ever created, also after its release.
 */
module ProtectedForm {
  import opened Wrappers
  import opened BrowserTypes
  import opened Decimal

  type SessionId = string
  type Key = string
  type TxId = nat
  type Handle = nat

  datatype Phase =
    | Bound | AwaitingValues | Delivering
    | Submitted | Automatic | Settling | Departed | StillPresent | Blocked

  datatype Submission = NotRequested | Clicked | SubmittedItself | Failed

  datatype Kind = AccountIdentifier | Password | OneTimeCode | OtherKind(name: string)

  datatype Destination = Destination(
    sessionId: SessionId,
    ref: string,
    identity: Option<Identity>,
    expectedOrigin: string,
    tabRef: Option<string>,
    frameId: Option<string>,
    label_: Option<string>,
    submitRef: Option<string>)

  datatype Field = Field(
    destination: Destination,
    kind: Kind,
    objectId: Handle,
    elementIndex: nat,
    explicitEmail: bool,
    deliveryAttempted: bool,
    delivered: bool,
    released: bool)

  datatype Submit = Submit(ref: string, objectId: Handle, elementIndex: nat)

  datatype Transaction = Transaction(
    sessionId: SessionId,
    tabRef: string,
    expectedOrigin: string,
    frameId: Option<string>,
    sourceIdentity: Identity,
    documentObjectId: Handle,
    supervisor: nat,
    fields: seq<Field>,
    submit: Option<Submit>,
    state: Phase,
    submission: Submission,
    released: bool)

  /** What the controller did to the page: handles it was given (all numbers below
      `nextHandle`), handles it gave back, confirmed writes, dispatched clicks. */
  datatype Page = Page(
    nextHandle: Handle,
    freed: multiset<Handle>,
    writes: seq<(TxId, Key)>,
    clicks: seq<TxId>)

  datatype State = State(
    heap: map<TxId, Transaction>,
    live: seq<TxId>,
    index: map<(SessionId, Key), TxId>,
    nextId: TxId,
    page: Page)

  datatype PageSession = PageSession(key: SessionId, tabRef: string, supervisor: nat)

  const Initial := State(map[], [], map[], 1, Page(0, multiset{}, [], []))

  // ---------------------------------------------------------------- page answers

  datatype FieldInspection = FieldInspection(
    connected: bool, current: bool, visible: bool, disabled: bool, editable: bool,
    semanticsMatch: bool, explicitEmail: bool, conflictCount: int)

  datatype SubmitInspection = SubmitInspection(
    connected: bool, current: bool, visible: bool, disabled: bool, clickable: bool,
    semanticsMatch: bool, conflictCount: int)

  /** An evaluation that yields a remote handle, yields none, or throws. */
  datatype Resolve = Resolved | Missing | Throws

  /** What is asked of the page before any binding is looked at. */
  datatype ContextAnswers = ContextAnswers(originMatches: bool, frameId: Option<string>)

  datatype CollectAnswers = CollectAnswers(
    context: ContextAnswers,
    documentCurrent: Tri,
    documentResolves: bool,
    field: Resolve,
    inspection: Option<FieldInspection>,
    submit: Resolve,
    submitInspection: Option<SubmitInspection>)

  datatype ChallengeAnswers = ChallengeAnswers(
    document: Tri,
    inspect: Key -> Option<FieldInspection>)

  datatype ClearAnswers = ClearAnswers(
    document: Tri,
    emptied: Key -> bool,
    readEmpty: Key -> bool,
    documentResolves: bool,
    bulkEmptied: bool,
    bulkReadEmpty: bool)

  /** The answer to a dispatched page call: it returned true, something else, or threw. */
  datatype Call = CallTrue | CallOther | CallThrows(navigation: bool)

  datatype DeliverAnswers = DeliverAnswers(
    context: ContextAnswers,
    check: ChallengeAnswers,
    checkSubmit: Option<SubmitInspection>,
    write: Call,
    cancelledInDelay: bool,
    challenge: ChallengeAnswers,
    submitInspection: Option<SubmitInspection>,
    click: Call)

  datatype AbortAnswers = AbortAnswers(document: Tri, clear: ClearAnswers)

  datatype SettleAnswers = SettleAnswers(
    snapshotIdentity: Identity,
    fallback: Option<bool>,
    document: Tri,
    challenge: ChallengeAnswers,
    clear: ClearAnswers)

  datatype Reason =
    | SessionMismatch | FieldReplaced | TabMismatch | OriginMismatch | FrameMismatch
    | FieldAmbiguous | FieldMissing | FieldHidden | FieldDisabled | FieldSemanticsMismatch
    | RequestNotActive

  datatype Verification = Verified | Rejected(reason: Reason) | VerifyThrows

  // ---------------------------------------------------------------- small helpers

  function BindingKey(d: Destination): Key {
    (if d.tabRef.Some? then d.tabRef.value else "") + [0 as char]
    + (if d.frameId.Some? then d.frameId.value else "") + [0 as char] + d.ref
  }

  function KeyOf(f: Field): Key { BindingKey(f.destination) }

  /** Position of the field bound under `key`. */
  function FindField(fields: seq<Field>, key: Key): (r: Option<nat>)
    ensures r.Some? ==> r.value < |fields| && KeyOf(fields[r.value]) == key
    ensures r.None? ==> forall f :: f in fields ==> KeyOf(f) != key
  {
    if fields == [] then None
    else if KeyOf(fields[0]) == key then Some(0)
    else
      assert fields == [fields[0]] + fields[1..];
      match FindField(fields[1..], key)
      case None => None
      case Some(i) => Some(i + 1)
  }

  /** Replace the field with the same key, or append: JavaScript's `Map.set`. */
  function PutField(fields: seq<Field>, f: Field): (r: seq<Field>) {
    match FindField(fields, KeyOf(f))
    case Some(i) => fields[i := f]
    case None => fields + [f]
  }

  function ResetField(f: Field): Field {
    if f.deliveryAttempted then f.(deliveryAttempted := false, delivered := false) else f
  }

  function ResetFields(fields: seq<Field>): (r: seq<Field>)
    ensures |r| == |fields| && forall i :: 0 <= i < |fields| ==> r[i] == ResetField(fields[i])
  {
    seq(|fields|, i requires 0 <= i < |fields| => ResetField(fields[i]))
  }

  predicate AnyAttempted(tx: Transaction) {
    exists f :: f in tx.fields && f.deliveryAttempted
  }

  predicate AllDelivered(tx: Transaction) {
    forall f :: f in tx.fields ==> f.delivered
  }

  predicate AllReleased(tx: Transaction) {
    forall f :: f in tx.fields ==> f.released
  }

  predicate RequiresProtection(tx: Transaction) {
    && !tx.released && tx.state != Departed
    && if tx.state == Bound || tx.state == AwaitingValues
       then exists f :: f in tx.fields && !f.released
       else exists f :: f in tx.fields && (f.deliveryAttempted || f.delivered)
  }

  predicate IsSensitive(st: State, s: SessionId) {
    exists t :: t in st.live && t in st.heap && st.heap[t].sessionId == s && RequiresProtection(st.heap[t])
  }

  function HandleSet(tx: Transaction): set<Handle> {
    {tx.documentObjectId} + (set f | f in tx.fields :: f.objectId)
    + (if tx.submit.Some? then {tx.submit.value.objectId} else {})
  }

  function InspectionRejection(i: Option<FieldInspection>, existingBinding: bool): Option<Reason> {
    if i.None? || !i.value.connected then Some(if existingBinding then FieldReplaced else FieldMissing)
    else if !i.value.current then Some(FieldReplaced)
    else if !i.value.visible then Some(FieldHidden)
    else if i.value.disabled || !i.value.editable then Some(FieldDisabled)
    else if !i.value.semanticsMatch then Some(FieldSemanticsMismatch)
    else if i.value.conflictCount != 1 then Some(FieldAmbiguous)
    else None
  }

  predicate SubmitIsActionable(i: Option<SubmitInspection>) {
    && i.Some? && i.value.connected && i.value.current && i.value.visible && !i.value.disabled
    && i.value.clickable && i.value.semanticsMatch && i.value.conflictCount == 1
  }

  /** "@e1" names element 0; anything but "@e" and a decimal without leading zero names none. */
  function RefToIndex(ref: string): Option<nat> {
    if |ref| >= 3 && ref[..2] == "@e" && '1' <= ref[2] <= '9' && AllDigits(ref[3..])
       && DigitsValue(ref[2..]) - 1 < 0x20_0000_0000_0000
    then Some(if DigitsValue(ref[2..]) > 0 then DigitsValue(ref[2..]) - 1 else 0)
    else None
  }

  predicate SameActionState(a: Identity, b: Identity) {
    a.documentEpoch == b.documentEpoch && a.actionRevision == b.actionRevision
  }

  // ---------------------------------------------------------------- state updates

  function PutTx(st: State, t: TxId, tx: Transaction): State {
    st.(heap := st.heap[t := tx])
  }

  function Acquire(p: Page): Page { p.(nextHandle := p.nextHandle + 1) }

  function Free(p: Page, hs: set<Handle>): Page { p.(freed := p.freed + multiset(hs)) }

  function FindTransaction(st: State, d: Destination): Option<TxId> {
    var ik := (d.sessionId, BindingKey(d));
    if ik in st.index && st.index[ik] in st.heap then
      var tx := st.heap[st.index[ik]];
      match FindField(tx.fields, BindingKey(d))
      case Some(i) => if tx.fields[i].destination == d then Some(st.index[ik]) else None
      case None => None
    else None
  }

  function ReleaseTransaction(st: State, t: TxId): State {
    if t !in st.heap || st.heap[t].released then st
    else
      var tx := st.heap[t];
      State(
        st.heap[t := tx.(released := true)],
        Without(st.live, t),
        map ik | ik in st.index && !(ik.0 == tx.sessionId && FindField(tx.fields, ik.1).Some?) :: st.index[ik],
        st.nextId,
        Free(st.page, HandleSet(tx)))
  }

  function ReleaseEach(st: State, ts: seq<TxId>): State
    decreases |ts|
  {
    if ts == [] then st else ReleaseEach(ReleaseTransaction(st, ts[0]), ts[1..])
  }

  /** The transactions of one session, in creation order. */
  function LiveOf(st: State, s: SessionId): (r: seq<TxId>) {
    FilterSession(st.heap, st.live, s)
  }

  function FilterSession(heap: map<TxId, Transaction>, ts: seq<TxId>, s: SessionId): (r: seq<TxId>)
    ensures forall t :: t in r <==> t in ts && t in heap && heap[t].sessionId == s
  {
    if ts == [] then []
    else
      assert ts == [ts[0]] + ts[1..];
      var rest := FilterSession(heap, ts[1..], s);
      if ts[0] in heap && heap[ts[0]].sessionId == s then [ts[0]] + rest else rest
  }

  // ---------------------------------------------------------------- verify, before collection

  function Precheck(session: PageSession, d: Destination, aborted: bool, a: ContextAnswers): Option<Reason> {
    if aborted || d.sessionId != session.key then Some(SessionMismatch)
    else if d.identity.None? then Some(FieldReplaced)
    else if d.tabRef.Some? && d.tabRef.value != session.tabRef then Some(TabMismatch)
    else if !a.originMatches then Some(OriginMismatch)
    else if d.frameId.Some? && d.frameId != a.frameId then Some(FrameMismatch)
    else None
  }

  predicate Compatible(tx: Transaction, session: PageSession, d: Destination, frameId: Option<string>) {
    && tx.sessionId == session.key
    && tx.state == AwaitingValues && tx.supervisor == session.supervisor
    && tx.tabRef == session.tabRef && tx.expectedOrigin == d.expectedOrigin
    && tx.frameId == frameId
    && (if tx.submit.Some? then Some(tx.submit.value.ref) else None) == d.submitRef
    && d.identity.Some? && SameActionState(tx.sourceIdentity, d.identity.value)
  }

  function FirstCompatible(heap: map<TxId, Transaction>, ts: seq<TxId>, session: PageSession, d: Destination,
                           frameId: Option<string>): (r: Option<TxId>)
    ensures r.Some? ==> r.value in ts && r.value in heap && Compatible(heap[r.value], session, d, frameId)
  {
    if ts == [] then None
    else if ts[0] in heap && Compatible(heap[ts[0]], session, d, frameId) then Some(ts[0])
    else FirstCompatible(heap, ts[1..], session, d, frameId)
  }

  predicate OtherNeedsProtection(st: State, s: SessionId, except: Option<TxId>) {
    exists t :: t in st.live && t in st.heap && st.heap[t].sessionId == s && Some(t) != except
                && RequiresProtection(st.heap[t])
  }

  /** The submit control of a first field: none asked for, bound under a new handle, not bindable, or a throw. */
  datatype SubmitBinding = NoSubmit | BoundSubmit(submit: Submit) | UnboundSubmit | SubmitThrows

  function BindSubmit(page: Page, ref: Option<string>, a: CollectAnswers): (Page, SubmitBinding) {
    if ref.None? then (page, NoSubmit)
    else
      match RefToIndex(ref.value)
      case None => (page, UnboundSubmit)
      case Some(i) =>
        match a.submit
        case Throws => (page, SubmitThrows)
        case Missing => (page, UnboundSubmit)
        case Resolved =>
          if SubmitIsActionable(a.submitInspection)
          then (Acquire(page), BoundSubmit(Submit(ref.value, page.nextHandle, i)))
          else (Free(Acquire(page), {page.nextHandle}), UnboundSubmit)
  }

  function Collect(st: State, session: PageSession, d: Destination, kind: Kind, aborted: bool, a: CollectAnswers)
    : (State, Verification)
  {
    var early := Precheck(session, d, aborted, a.context);
    var key := BindingKey(d);
    if early.Some? then (st, Rejected(early.value))
    else if (session.key, key) in st.index then (st, Rejected(FieldAmbiguous))
    else
      var compatible := FirstCompatible(st.heap, st.live, session, d, a.context.frameId);
      if OtherNeedsProtection(st, session.key, compatible) then (st, Rejected(FieldAmbiguous))
      else
        match compatible
        case Some(t) => CollectInto(st, t, d, kind, a)
        case None => CollectNew(st, session, d, kind, a)
  }

  function NewField(d: Destination, kind: Kind, handle: Handle, elementIndex: nat, explicitEmail: bool): Field {
    Field(d, kind, handle, elementIndex, explicitEmail, false, false, false)
  }

  /** A further field of a transaction that is still collecting values. */
  function CollectInto(st: State, t: TxId, d: Destination, kind: Kind, a: CollectAnswers): (State, Verification)
    requires t in st.heap
  {
    var tx := st.heap[t];
    var elementIndex := RefToIndex(d.ref);
    if a.documentCurrent != Yes then (st, Rejected(FieldReplaced))
    else if elementIndex.None? then (st, Rejected(FieldMissing))
    else if a.field == Throws then (st, VerifyThrows)
    else if a.field == Missing then (st, Rejected(FieldMissing))
    else
      var handle := st.page.nextHandle;
      var held := st.(page := Acquire(st.page));
      var dropped := st.(page := Free(Acquire(st.page), {handle}));
      var rejection := InspectionRejection(a.inspection, false);
      if rejection.Some? then (dropped, Rejected(rejection.value))
      else if tx.submit.Some? && !SubmitIsActionable(a.submitInspection) then (dropped, Rejected(FieldReplaced))
      else (BindField(held, t, NewField(d, kind, handle, elementIndex.value, a.inspection.value.explicitEmail)), Verified)
  }

  /** The first field of a new transaction. */
  function CollectNew(st: State, session: PageSession, d: Destination, kind: Kind, a: CollectAnswers)
    : (State, Verification)
    requires d.identity.Some?
  {
    if !a.documentResolves then (st, Rejected(FieldMissing))
    else
      var document := st.page.nextHandle;
      var withDocument := st.(page := Acquire(st.page));
      var elementIndex := RefToIndex(d.ref);
      var dropped := st.(page := Free(Acquire(st.page), {document}));
      if elementIndex.None? then (dropped, Rejected(FieldMissing))
      else if a.field == Throws then (withDocument, VerifyThrows)
      else if a.field == Missing then (dropped, Rejected(FieldMissing))
      else
        var handle := withDocument.page.nextHandle;
        var page := Acquire(withDocument.page);
        var rejection := InspectionRejection(a.inspection, false);
        if rejection.Some? then (st.(page := Free(page, {handle, document})), Rejected(rejection.value))
        else
          var (page', binding) := BindSubmit(page, d.submitRef, a);
          match binding
          case SubmitThrows => (st.(page := page'), VerifyThrows)
          case UnboundSubmit => (st.(page := Free(page', {handle, document})), Rejected(FieldMissing))
          case NoSubmit =>
            (CreateWith(st.(page := page'), session, d, kind, a, document, handle, elementIndex.value, None), Verified)
          case BoundSubmit(submit) =>
            (CreateWith(st.(page := page'), session, d, kind, a, document, handle, elementIndex.value, Some(submit)), Verified)
  }

  function CreateWith(st: State, session: PageSession, d: Destination, kind: Kind, a: CollectAnswers, document: Handle,
                      handle: Handle, elementIndex: nat, submit: Option<Submit>): State
    requires d.identity.Some? && a.inspection.Some?
  {
    var tx := Transaction(session.key, session.tabRef, d.expectedOrigin, a.context.frameId, d.identity.value,
                          document, session.supervisor, [], submit, Bound, NotRequested, false);
    var created := State(st.heap[st.nextId := tx], st.live + [st.nextId], st.index, st.nextId + 1, st.page);
    BindField(created, st.nextId, NewField(d, kind, handle, elementIndex, a.inspection.value.explicitEmail))
  }

  function BindField(st: State, t: TxId, f: Field): State
    requires t in st.heap
  {
    var tx := st.heap[t];
    PutTx(st, t, tx.(fields := PutField(tx.fields, f), state := AwaitingValues))
      .(index := st.index[(tx.sessionId, KeyOf(f)) := t])
  }

  // ---------------------------------------------------------------- verify, before delivery

  function FirstRejection(fields: seq<Field>, inspect: Key -> Option<FieldInspection>): Option<Reason> {
    if fields == [] then None
    else
      var r := InspectionRejection(inspect(KeyOf(fields[0])), true);
      if r.Some? then r else FirstRejection(fields[1..], inspect)
  }

  function CheckDelivery(st: State, session: PageSession, d: Destination, kind: Kind, aborted: bool,
                         context: ContextAnswers, check: ChallengeAnswers, submit: Option<SubmitInspection>)
    : (r: Option<Reason>)
    ensures r.None? ==>
      && FindTransaction(st, d).Some?
      && st.heap[FindTransaction(st, d).value].state in {AwaitingValues, Delivering}
  {
    var early := Precheck(session, d, aborted, context);
    var found := FindTransaction(st, d);
    if early.Some? then early
    else if found.None? then Some(RequestNotActive)
    else
      var tx := st.heap[found.value];
      var active := tx.fields[FindField(tx.fields, BindingKey(d)).value];
      if active.kind != kind || tx.state !in {AwaitingValues, Delivering} then Some(RequestNotActive)
      else if tx.supervisor != session.supervisor then Some(FieldReplaced)
      else if tx.tabRef != session.tabRef then Some(TabMismatch)
      else if tx.frameId != context.frameId then Some(FrameMismatch)
      else if check.document != Yes then Some(FieldReplaced)
      else
        var r := FirstRejection(tx.fields, check.inspect);
        if r.Some? then r
        else if tx.submit.Some? && !SubmitIsActionable(submit) then Some(FieldReplaced)
        else None
  }

  // ---------------------------------------------------------------- delivery

  /** Is the challenge the transaction was bound to still on the page? */
  function ChallengeCurrent(tx: Transaction, a: ChallengeAnswers): Option<bool> {
    match a.document
    case No => Some(false)
    case Unknown => None
    case Yes =>
      if exists f :: f in tx.fields && SeenOnPage(a.inspect(KeyOf(f))) then Some(true)
      else if exists f :: f in tx.fields && a.inspect(KeyOf(f)).None? then None
      else Some(false)
  }

  predicate SeenOnPage(i: Option<FieldInspection>) {
    i.Some? && ((i.value.connected && i.value.current) || i.value.conflictCount > 0)
  }

  predicate SixDigits(s: string) { |s| == 6 && AllDigits(s) }

  datatype Delivery = DeliveryRefused | DeliveryThrows | Outcome(submission: Submission)

  /** The catch branch of delivery. */
  function DeliveryFailed(st: State, t: TxId, active: nat, navigation: bool): (State, Delivery)
    requires t in st.heap && active < |st.heap[t].fields|
  {
    var tx := st.heap[t];
    var blocked := PutTx(st, t, tx.(state := Blocked, submission := Failed));
    if tx.submit.Some? && (forall i :: 0 <= i < |tx.fields| ==> i == active || tx.fields[i].delivered) && navigation
    then (blocked, Outcome(Failed)) else (blocked, DeliveryThrows)
  }

  function MarkAttempted(tx: Transaction, i: nat): Transaction
    requires i < |tx.fields|
  {
    tx.(state := Delivering, fields := tx.fields[i := tx.fields[i].(deliveryAttempted := true)])
  }

  function MarkDelivered(tx: Transaction, i: nat): Transaction
    requires i < |tx.fields|
  {
    tx.(fields := tx.fields[i := tx.fields[i].(delivered := true)])
  }

  /** `value` is the decoded secret with surrounding white space removed, or None when it is not UTF-8. */
  function Deliver(st: State, session: PageSession, d: Destination, kind: Kind, aborted: bool,
                   value: Option<string>, a: DeliverAnswers): (State, Delivery)
  {
    if CheckDelivery(st, session, d, kind, aborted, a.context, a.check, a.checkSubmit).Some? then (st, DeliveryRefused)
    else
      var t := FindTransaction(st, d).value;
      var i := FindField(st.heap[t].fields, BindingKey(d)).value;
      var active := st.heap[t].fields[i];
      if value.None? then (st, DeliveryThrows)
      else if active.kind == AccountIdentifier && active.explicitEmail && SixDigits(value.value) then (st, DeliveryRefused)
      else
        var attempted := PutTx(st, t, MarkAttempted(st.heap[t], i));
        match a.write
        case CallThrows(navigation) => DeliveryFailed(attempted, t, i, navigation)
        case CallOther => DeliveryFailed(attempted, t, i, false)
        case CallTrue =>
          var written := PutTx(attempted, t, MarkDelivered(attempted.heap[t], i))
                         .(page := st.page.(writes := st.page.writes + [(t, BindingKey(d))]));
          AfterWrite(written, t, i, a)
  }

  /** What follows a confirmed write: nothing, an observed automatic submit, or one explicit click. */
  function AfterWrite(st: State, t: TxId, active: nat, a: DeliverAnswers): (State, Delivery)
    requires t in st.heap && active < |st.heap[t].fields|
  {
    var tx := st.heap[t];
    if tx.submit.None? || !AllDelivered(tx) then (PutTx(st, t, tx.(submission := NotRequested)), Outcome(NotRequested))
    else if a.cancelledInDelay then DeliveryFailed(st, t, active, false)
    else if ChallengeCurrent(tx, a.challenge) == Some(false) then
      (PutTx(st, t, tx.(state := Automatic, submission := SubmittedItself)), Outcome(SubmittedItself))
    else if !SubmitIsActionable(a.submitInspection) then
      (PutTx(st, t, tx.(state := Blocked, submission := Failed)), Outcome(Failed))
    else
      var clicked := st.(page := st.page.(clicks := st.page.clicks + [t]));
      match a.click
      case CallThrows(navigation) => DeliveryFailed(clicked, t, active, navigation)
      case CallTrue => (PutTx(clicked, t, tx.(state := Submitted, submission := Clicked)), Outcome(Clicked))
      case CallOther => (PutTx(clicked, t, tx.(state := Blocked, submission := Failed)), Outcome(Failed))
  }

  // ---------------------------------------------------------------- clearing

  /** Clear through the bound handles and read every attempted field back. */
  predicate FieldsReadEmpty(tx: Transaction, a: ClearAnswers) {
    forall f :: f in tx.fields && f.deliveryAttempted ==> a.emptied(KeyOf(f)) && a.readEmpty(KeyOf(f))
  }

  /** Clear by kind in whatever document is current and read it back. */
  predicate CurrentReadsEmpty(a: ClearAnswers) {
    a.documentResolves && a.bulkEmptied && a.bulkReadEmpty
  }

  function FinishClear(st: State, t: TxId, verified: bool): (State, bool)
    requires t in st.heap
  {
    var tx := st.heap[t];
    if verified then (PutTx(st, t, tx.(fields := ResetFields(tx.fields))), true)
    else (PutTx(st, t, tx.(state := Blocked)), false)
  }

  function ClearCurrent(st: State, t: TxId, a: ClearAnswers): (State, bool)
    requires t in st.heap
  {
    if !AnyAttempted(st.heap[t]) then (st, true)
    else
      var visited := if a.documentResolves then st.(page := Free(Acquire(st.page), {st.page.nextHandle})) else st;
      FinishClear(visited, t, CurrentReadsEmpty(a))
  }

  /** False in the result stands for the "could not be verified as cleared" error. */
  function ClearDelivered(st: State, t: TxId, a: ClearAnswers): (State, bool)
    requires t in st.heap
  {
    if !AnyAttempted(st.heap[t]) then (st, true)
    else if a.document == No then ClearCurrent(st, t, a)
    else FinishClear(st, t, FieldsReadEmpty(st.heap[t], a))
  }

  // ---------------------------------------------------------------- release, abort, invalidate

  predicate OthersReleased(fields: seq<Field>, i: nat) {
    forall j :: 0 <= j < |fields| ==> j == i || fields[j].released
  }

  predicate ClearsOnRelease(tx: Transaction, i: nat) {
    && OthersReleased(tx.fields, i) && AnyAttempted(tx)
    && (!AllDelivered(tx) || tx.state == Blocked || tx.state == StillPresent)
  }

  function Release(st: State, d: Destination, a: ClearAnswers): State {
    match FindTransaction(st, d)
    case None => st
    case Some(t) =>
      var i := FindField(st.heap[t].fields, BindingKey(d)).value;
      if st.heap[t].fields[i].released then st
      else if ClearsOnRelease(st.heap[t], i) then
        var (cleared, ok) := ClearDelivered(st, t, a);
        if ok then ReleaseField(cleared, t, i, d) else cleared
      else ReleaseField(st, t, i, d)
  }

  function ReleaseField(st: State, t: TxId, i: nat, d: Destination): State {
    if t !in st.heap || i >= |st.heap[t].fields| then st
    else
      var tx := st.heap[t].(fields := st.heap[t].fields[i := st.heap[t].fields[i].(released := true)]);
      var unbound := PutTx(st, t, tx).(index := st.index - {(d.sessionId, BindingKey(d))});
      if !AllReleased(tx) then unbound
      else if !RequiresProtection(tx) then ReleaseTransaction(unbound, t)
      else if tx.state == Delivering then PutTx(unbound, t, tx.(state := StillPresent))
      else unbound
  }

  predicate HasDeparted(tx: Transaction, identity: Option<Identity>, document: Tri) {
    (identity.Some? && identity.value.documentEpoch > tx.sourceIdentity.documentEpoch) || document == No
  }

  /** The distinct transactions of a list of destinations, in order of first mention. */
  function Mentioned(st: State, ds: seq<Destination>): (r: seq<TxId>)
    ensures forall t :: t in r ==> t in st.heap
    ensures forall t :: t in r <==> exists d :: d in ds && FindTransaction(st, d) == Some(t)
  {
    if ds == [] then []
    else
      var last := ds[|ds| - 1];
      assert ds == ds[..|ds| - 1] + [last];
      var rest := Mentioned(st, ds[..|ds| - 1]);
      match FindTransaction(st, last)
      case Some(t) => if t in rest then rest else rest + [t]
      case None => rest
  }

  function AbortOne(st: State, t: TxId, identity: Option<Identity>, a: AbortAnswers): (State, bool)
    requires t in st.heap
  {
    if HasDeparted(st.heap[t], identity, a.document) then ClearCurrent(st, t, a.clear)
    else ClearDelivered(st, t, a.clear)
  }

  /** Stops at the first clear that cannot be verified, like the throw in the source's loop. */
  function AbortEach(st: State, ts: seq<TxId>, identity: Option<Identity>, a: TxId -> AbortAnswers): (State, bool)
    requires forall t :: t in ts ==> t in st.heap
    decreases |ts|
  {
    if ts == [] then (st, true)
    else
      var (st', ok) := AbortOne(st, ts[0], identity, a(ts[0]));
      if ok then AbortEach(st', ts[1..], identity, a) else (st', false)
  }

  function Abort(st: State, ds: seq<Destination>, identity: Option<Identity>, a: TxId -> AbortAnswers): State {
    AbortEach(st, Mentioned(st, ds), identity, a).0
  }

  function SetPhase(st: State, t: TxId, phase: Phase): State {
    if t in st.heap then PutTx(st, t, st.heap[t].(state := phase)) else st
  }

  function DepartEach(st: State, ts: seq<TxId>): State
    decreases |ts|
  {
    if ts == [] then st else DepartEach(ReleaseTransaction(SetPhase(st, ts[0], Departed), ts[0]), ts[1..])
  }

  function InvalidateSession(st: State, s: SessionId): State { DepartEach(st, LiveOf(st, s)) }

  function ClearSession(st: State, s: SessionId): State { ReleaseEach(st, LiveOf(st, s)) }

  // ---------------------------------------------------------------- settlement

  function BeginSettlement(st: State, d: Destination): State {
    match FindTransaction(st, d)
    case Some(t) => if st.heap[t].state in {Submitted, Automatic, Blocked} then SetPhase(st, t, Settling) else st
    case None => st
  }

  function ReconcileOne(st: State, t: TxId, a: ChallengeAnswers): State {
    if t !in st.heap then st
    else
      var tx := st.heap[t];
      if tx.state == Settling || !AllReleased(tx) then st
      else if !RequiresProtection(tx) then ReleaseTransaction(st, t)
      else
        match ChallengeCurrent(tx, a)
        case Some(false) => ReleaseTransaction(SetPhase(st, t, Departed), t)
        case Some(true) => SetPhase(st, t, StillPresent)
        case None => SetPhase(st, t, Blocked)
  }

  function ReconcileEach(st: State, ts: seq<TxId>, a: TxId -> ChallengeAnswers): State
    decreases |ts|
  {
    if ts == [] then st else ReconcileEach(ReconcileOne(st, ts[0], a(ts[0])), ts[1..], a)
  }

  function Reconcile(st: State, s: SessionId, a: TxId -> ChallengeAnswers): State {
    ReconcileEach(st, LiveOf(st, s), a)
  }

  /** What the settling caller believes about the challenge: its own fresh snapshot first. */
  function SettledChallenge(st: State, d: Destination, a: SettleAnswers): Option<bool> {
    if a.fallback.Some? then a.fallback
    else
      match FindTransaction(st, d)
      case None => None
      case Some(t) =>
        if HasDeparted(st.heap[t], Some(a.snapshotIdentity), a.document) then None
        else ChallengeCurrent(st.heap[t], a.challenge)
  }

  function Settle(st: State, s: SessionId, d: Destination, a: SettleAnswers): State {
    var found := FindTransaction(st, d);
    var challenge := SettledChallenge(st, d, a);
    if challenge == Some(false) then
      InvalidateSession(if found.Some? then SetPhase(st, found.value, Departed) else st, s)
    else if found.None? then st
    else
      var t := found.value;
      var tx := st.heap[t];
      var phased := SetPhase(st, t, if challenge == Some(true) then StillPresent else Blocked);
      if tx.submit.None? || tx.submission == NotRequested then phased
      else if HasDeparted(tx, Some(a.snapshotIdentity), a.document) then ClearCurrent(phased, t, a.clear).0
      else ClearDelivered(phased, t, a.clear).0
  }

  // ---------------------------------------------------------------- runs

  datatype Op =
    | DoCollect(session: PageSession, d: Destination, kind: Kind, aborted: bool, collect: CollectAnswers)
    | DoDeliver(session: PageSession, d: Destination, kind: Kind, aborted: bool, value: Option<string>, deliver: DeliverAnswers)
    | DoRelease(d: Destination, clear: ClearAnswers)
    | DoAbort(ds: seq<Destination>, identity: Option<Identity>, abort: TxId -> AbortAnswers)
    | DoInvalidate(s: SessionId)
    | DoClearSession(s: SessionId)
    | DoBeginSettlement(d: Destination)
    | DoReconcile(s: SessionId, challenge: TxId -> ChallengeAnswers)
    | DoSettle(s: SessionId, d: Destination, settle: SettleAnswers)

  function Step(st: State, op: Op): State {
    match op
    case DoCollect(session, d, kind, aborted, a) => Collect(st, session, d, kind, aborted, a).0
    case DoDeliver(session, d, kind, aborted, value, a) => Deliver(st, session, d, kind, aborted, value, a).0
    case DoRelease(d, a) => Release(st, d, a)
    case DoAbort(ds, identity, a) => Abort(st, ds, identity, a)
    case DoInvalidate(s) => InvalidateSession(st, s)
    case DoClearSession(s) => ClearSession(st, s)
    case DoBeginSettlement(d) => BeginSettlement(st, d)
    case DoReconcile(s, a) => Reconcile(st, s, a)
    case DoSettle(s, d, a) => Settle(st, s, d, a)
  }

  function Run(st: State, ops: seq<Op>): State {
    if ops == [] then st else Step(Run(st, ops[..|ops| - 1]), ops[|ops| - 1])
  }
}
