/** Concrete runs: one on which the binding index loses an unreleased field, and two that lose a remote handle. */
module ProtectedFormWitness {
  import opened Wrappers
  import opened BrowserTypes
  import opened Decimal
  import opened ProtectedForm
  import opened ProtectedFormRuns
  import opened ProtectedFormIndex
  import opened ProtectedFormHandles

  const SESSION := PageSession("s", "t1", 0)
  const IDENTITY := Identity(1, 1, 1)
  const SUBMIT := Submit("@e3", 2, 2)

  /** Two fields of one form with the same submit control. */
  function Dest(ref: string): Destination {
    Destination("s", ref, Some(IDENTITY), "o", Some("t1"), Some("f1"), Some("Sign in"), Some("@e3"))
  }

  const SEEN := FieldInspection(true, true, true, false, true, true, false, 1)
  const CLICKABLE := SubmitInspection(true, true, true, false, true, true, 1)
  const CONTEXT := ContextAnswers(true, Some("f1"))
  const PRESENT := ChallengeAnswers(Yes, (k: Key) => Some(SEEN))
  const CLEARED := ClearAnswers(Yes, (k: Key) => true, (k: Key) => true, true, true, true)
  const USABLE := CollectAnswers(CONTEXT, Yes, true, Resolved, Some(SEEN), Resolved, Some(CLICKABLE))
  const WRITTEN := DeliverAnswers(CONTEXT, PRESENT, Some(CLICKABLE), CallTrue, false, PRESENT, Some(CLICKABLE), CallTrue)

  function CollectOp(ref: string): Op { DoCollect(SESSION, Dest(ref), Password, false, USABLE) }

  function DeliverOp(ref: string): Op { DoDeliver(SESSION, Dest(ref), Password, false, Some("secret"), WRITTEN) }

  /** The caller's own snapshot says the challenge is still there, and every field reads back as empty. */
  const SETTLE_SECOND := DoSettle("s", Dest("@e2"), SettleAnswers(IDENTITY, Some(true), Yes, PRESENT, CLEARED))

  /** Two fields are collected and delivered, the submit control is clicked and the form settles as still present and
      cleared; the first field is released and collected again by a new transaction; then the second is released. */
  const LOSING_RUN: seq<Op> := [
    CollectOp("@e1"), CollectOp("@e2"), DeliverOp("@e1"), DeliverOp("@e2"), DoBeginSettlement(Dest("@e2")), SETTLE_SECOND,
    DoRelease(Dest("@e1"), CLEARED), CollectOp("@e1"), DoRelease(Dest("@e2"), CLEARED)]

  // ---------------------------------------------------------------- the states of the run

  function FieldOf(ref: string, handle: Handle, index: nat, written: bool, released: bool): Field {
    Field(Dest(ref), Password, handle, index, false, written, written, released)
  }

  function TxOf(document: Handle, fields: seq<Field>, submit: Submit, phase: Phase, submission: Submission): Transaction {
    Transaction("s", "t1", "o", Some("f1"), IDENTITY, document, 0, fields, Some(submit), phase, submission, false)
  }

  function Fields(written1: bool, written2: bool, released1: bool): seq<Field> {
    [FieldOf("@e1", 1, 0, written1, released1), FieldOf("@e2", 3, 1, written2, false)]
  }

  function Key1(): (SessionId, Key) { ("s", BindingKey(Dest("@e1"))) }

  function Key2(): (SessionId, Key) { ("s", BindingKey(Dest("@e2"))) }

  function One(): State {
    State(map[1 := TxOf(0, [FieldOf("@e1", 1, 0, false, false)], SUBMIT, AwaitingValues, NotRequested)],
          [1], map[Key1() := 1], 2, Page(3, multiset{}, [], []))
  }

  /** Both fields bound in the first transaction. */
  function Two(written1: bool, written2: bool, phase: Phase, submission: Submission, page: Page): State {
    State(map[1 := TxOf(0, Fields(written1, written2, false), SUBMIT, phase, submission)],
          [1], map[Key1() := 1, Key2() := 1], 2, page)
  }

  /** The first field released. */
  function OneLeft(phase: Phase, submission: Submission, page: Page): State {
    State(map[1 := TxOf(0, Fields(false, false, true), SUBMIT, phase, submission)], [1], map[Key2() := 1], 2, page)
  }

  const P0 := Page(4, multiset{}, [], [])
  const P1 := P0.(writes := [(1, Key1().1)])
  const P2 := P1.(writes := [(1, Key1().1), (1, Key2().1)], clicks := [1])

  /** The first field bound again, in a second transaction. */
  function Rebound(): State {
    State(OneLeft(StillPresent, Clicked, P2).heap[2 := TxOf(4, [FieldOf("@e1", 5, 0, false, false)], Submit("@e3", 6, 2), AwaitingValues, NotRequested)],
          [1, 2], map[Key2() := 1, Key1() := 2], 3, P2.(nextHandle := 7))
  }

  lemma Refs()
    ensures RefToIndex("@e1") == Some(0) && RefToIndex("@e2") == Some(1) && RefToIndex("@e3") == Some(2)
    ensures BindingKey(Dest("@e1")) != BindingKey(Dest("@e2"))
  {
    assert "@e1"[2..] == "1" && "@e2"[2..] == "2" && "@e3"[2..] == "3";
    assert DigitsValue("1") == 1 && DigitsValue("2") == 2 && DigitsValue("3") == 3;
    var n := |BindingKey(Dest("@e1"))| - 1;
    assert BindingKey(Dest("@e1"))[n] == '1' && BindingKey(Dest("@e2"))[n] == '2';
  }

  lemma CollectsFirst()
    ensures Step(Initial, CollectOp("@e1")) == One()
  {
    Refs();
    assert PutField([], FieldOf("@e1", 1, 0, false, false)) == [FieldOf("@e1", 1, 0, false, false)];
    assert BindSubmit(Page(2, multiset{}, [], []), Some("@e3"), USABLE) == (Page(3, multiset{}, [], []), BoundSubmit(SUBMIT));
    assert CollectNew(Initial, SESSION, Dest("@e1"), Password, USABLE).0
        == CreateWith(Initial.(page := Page(3, multiset{}, [], [])), SESSION, Dest("@e1"), Password, USABLE, 0, 1, 0, Some(SUBMIT));
  }

  lemma CollectsSecond()
    ensures Step(One(), CollectOp("@e2")) == Two(false, false, AwaitingValues, NotRequested, P0)
  {
    Refs();
    var st := One();
    assert FirstCompatible(st.heap, st.live, SESSION, Dest("@e2"), Some("f1")) == Some(1);
    assert Step(st, CollectOp("@e2")) == CollectInto(st, 1, Dest("@e2"), Password, USABLE).0;
    var f1, f2 := FieldOf("@e1", 1, 0, false, false), FieldOf("@e2", 3, 1, false, false);
    assert FindField([f1], KeyOf(f2)) == None;
    assert PutField([f1], f2) == [f1, f2];
    assert CollectInto(st, 1, Dest("@e2"), Password, USABLE).0 == BindField(st.(page := P0), 1, f2);
  }

  /** Both fields are found in a transaction with these fields. */
  lemma Finds(st: State, written1: bool, written2: bool, released1: bool)
    requires 1 in st.heap && st.heap[1].fields == Fields(written1, written2, released1)
    ensures FindField(st.heap[1].fields, Key1().1) == Some(0) && FindField(st.heap[1].fields, Key2().1) == Some(1)
    ensures Key1() in st.index && st.index[Key1()] == 1 ==> FindTransaction(st, Dest("@e1")) == Some(1)
    ensures Key2() in st.index && st.index[Key2()] == 1 ==> FindTransaction(st, Dest("@e2")) == Some(1)
  {
    Refs();
    var fields := st.heap[1].fields;
    assert fields[1..] == [fields[1]];
    assert FindField([fields[1]], Key2().1) == Some(0);
  }

  /** No field of the form is rejected before delivery. */
  lemma NoneRejected(written1: bool)
    ensures FirstRejection(Fields(written1, false, false), PRESENT.inspect) == None
  {
    var fields := Fields(written1, false, false);
    assert fields[1..] == [fields[1]] && fields[1..][1..] == [];
  }

  lemma DeliversFirst()
    ensures Step(Two(false, false, AwaitingValues, NotRequested, P0), DeliverOp("@e1"))
         == Two(true, false, Delivering, NotRequested, P1)
  {
    var st := Two(false, false, AwaitingValues, NotRequested, P0);
    Finds(st, false, false, false);
    NoneRejected(false);
    var attempted := PutTx(st, 1, MarkAttempted(st.heap[1], 0));
    var written := PutTx(attempted, 1, MarkDelivered(attempted.heap[1], 0)).(page := P1);
    assert written.heap[1].fields == Fields(true, false, false);
    assert !AllDelivered(written.heap[1]) by { assert Fields(true, false, false)[1] in written.heap[1].fields; }
    assert Step(st, DeliverOp("@e1")) == AfterWrite(written, 1, 0, WRITTEN).0;
  }

  lemma DeliversSecond()
    ensures Step(Two(true, false, Delivering, NotRequested, P1), DeliverOp("@e2"))
         == Two(true, true, Submitted, Clicked, P2)
  {
    var st := Two(true, false, Delivering, NotRequested, P1);
    Finds(st, true, false, false);
    NoneRejected(true);
    var attempted := PutTx(st, 1, MarkAttempted(st.heap[1], 1));
    var written := PutTx(attempted, 1, MarkDelivered(attempted.heap[1], 1)).(page := P2.(clicks := []));
    var tx := written.heap[1];
    assert tx.fields == Fields(true, true, false);
    assert Step(st, DeliverOp("@e2")) == AfterWrite(written, 1, 1, WRITTEN).0;
    ClicksAfterSecond(written);
  }

  lemma ClicksAfterSecond(written: State)
    requires written == Two(true, true, Delivering, NotRequested, P2.(clicks := []))
    ensures AfterWrite(written, 1, 1, WRITTEN).0 == Two(true, true, Submitted, Clicked, P2)
  {
    var tx := written.heap[1];
    assert ChallengeCurrent(tx, PRESENT) == Some(true) by { assert tx.fields[0] in tx.fields; }
  }

  lemma BeginsSettling()
    ensures Step(Two(true, true, Submitted, Clicked, P2), DoBeginSettlement(Dest("@e2"))) == Two(true, true, Settling, Clicked, P2)
  {
    Finds(Two(true, true, Submitted, Clicked, P2), true, true, false);
  }

  lemma ClearsBoth()
    ensures ClearDelivered(Two(true, true, StillPresent, Clicked, P2), 1, CLEARED)
         == (Two(false, false, StillPresent, Clicked, P2), true)
  {
    var phased, cleared := Two(true, true, StillPresent, Clicked, P2), Two(false, false, StillPresent, Clicked, P2);
    var tx := phased.heap[1];
    assert AnyAttempted(tx) by { assert tx.fields[0] in tx.fields; }
    assert ResetFields(tx.fields) == Fields(false, false, false);
    assert FieldsReadEmpty(tx, CLEARED);
    assert phased.heap[1 := tx.(fields := Fields(false, false, false))] == cleared.heap;
    assert PutTx(phased, 1, tx.(fields := Fields(false, false, false))) == cleared;
  }

  lemma SettlesPresent()
    ensures Step(Two(true, true, Settling, Clicked, P2), SETTLE_SECOND) == Two(false, false, StillPresent, Clicked, P2)
  {
    var st := Two(true, true, Settling, Clicked, P2);
    Finds(st, true, true, false);
    ClearsBoth();
    assert SetPhase(st, 1, StillPresent) == Two(true, true, StillPresent, Clicked, P2);
  }

  lemma ReleasesFirst(phase: Phase, submission: Submission, page: Page)
    ensures Step(Two(false, false, phase, submission, page), DoRelease(Dest("@e1"), CLEARED)) == OneLeft(phase, submission, page)
  {
    var st := Two(false, false, phase, submission, page);
    Refs();
    Finds(st, false, false, false);
    var tx := st.heap[1];
    assert !OthersReleased(tx.fields, 0) by { assert !tx.fields[1].released; }
    var tx' := MarkReleased(tx, 0);
    assert tx'.fields == Fields(false, false, true);
    assert !AllReleased(tx') by { assert tx'.fields[1] in tx'.fields; }
    assert st.index - {Key1()} == map[Key2() := 1];
  }

  lemma RebindsFirst()
    ensures Step(OneLeft(StillPresent, Clicked, P2), CollectOp("@e1")) == Rebound()
  {
    Refs();
    var st := OneLeft(StillPresent, Clicked, P2);
    assert FirstCompatible(st.heap, st.live, SESSION, Dest("@e1"), Some("f1")) == None by { assert [1][1..] == []; }
    assert !RequiresProtection(st.heap[1]);
    assert Step(st, CollectOp("@e1")) == CollectNew(st, SESSION, Dest("@e1"), Password, USABLE).0;
    assert PutField([], FieldOf("@e1", 5, 0, false, false)) == [FieldOf("@e1", 5, 0, false, false)];
    assert CollectNew(st, SESSION, Dest("@e1"), Password, USABLE).0
        == CreateWith(st.(page := P2.(nextHandle := 7)), SESSION, Dest("@e1"), Password, USABLE, 4, 5, 0, Some(Submit("@e3", 6, 2)));
    assert [1] + [2] == [1, 2];
  }

  lemma ReleasesSecond()
    ensures var st := Step(Rebound(), DoRelease(Dest("@e2"), CLEARED));
      st.index == map[] && st.live == [2] && 2 in st.heap && st.heap[2] == Rebound().heap[2]
  {
    Refs();
    var st := Rebound();
    Finds(st, false, false, true);
    var tx := st.heap[1];
    var tx' := MarkReleased(tx, 1);
    assert tx'.fields == [FieldOf("@e1", 1, 0, false, true), FieldOf("@e2", 3, 1, false, true)];
    var unbound := Unbound(st, 1, 1, Dest("@e2"));
    assert unbound.heap[1] == tx' && !RequiresProtection(tx') && AllReleased(tx') && !AnyAttempted(tx);
    assert FindField(tx'.fields, Key1().1) == Some(0);
    assert unbound.index == map[Key1() := 2];
    assert Without([1, 2], 1) == [2] by {
      assert [1, 2][1..] == [2] && [2][1..] == [];
      assert [2] + Without([], 1) == [2];
    }
    assert Step(st, DoRelease(Dest("@e2"), CLEARED)) == ReleaseTransaction(unbound, 1);
  }

  // ---------------------------------------------------------------- the lost field

  lemma RunNext(ops: seq<Op>, n: nat, st: State, op: Op, st': State)
    requires n < |ops| && Run(Initial, ops[..n]) == st && ops[n] == op && Step(st, op) == st'
    ensures Run(Initial, ops[..n + 1]) == st'
  {
    assert ops[..n + 1][..n] == ops[..n];
  }

  lemma RunOfTwo(ops: seq<Op>)
    requires |ops| >= 2 && ops[0] == CollectOp("@e1") && ops[1] == CollectOp("@e2")
    ensures Run(Initial, ops[..2]) == Two(false, false, AwaitingValues, NotRequested, P0)
  {
    assert ops[..0] == [];
    CollectsFirst();
    RunNext(ops, 0, Initial, CollectOp("@e1"), One());
    CollectsSecond();
    RunNext(ops, 1, One(), CollectOp("@e2"), Two(false, false, AwaitingValues, NotRequested, P0));
  }

  lemma RunOfFour(ops: seq<Op>)
    requires |ops| >= 4 && Run(Initial, ops[..2]) == Two(false, false, AwaitingValues, NotRequested, P0)
    requires ops[2] == DeliverOp("@e1") && ops[3] == DeliverOp("@e2")
    ensures Run(Initial, ops[..4]) == Two(true, true, Submitted, Clicked, P2)
  {
    DeliversFirst();
    RunNext(ops, 2, Two(false, false, AwaitingValues, NotRequested, P0), DeliverOp("@e1"), Two(true, false, Delivering, NotRequested, P1));
    DeliversSecond();
    RunNext(ops, 3, Two(true, false, Delivering, NotRequested, P1), DeliverOp("@e2"), Two(true, true, Submitted, Clicked, P2));
  }

  lemma RunOfSix(ops: seq<Op>)
    requires |ops| >= 6 && Run(Initial, ops[..4]) == Two(true, true, Submitted, Clicked, P2)
    requires ops[4] == DoBeginSettlement(Dest("@e2")) && ops[5] == SETTLE_SECOND
    ensures Run(Initial, ops[..6]) == Two(false, false, StillPresent, Clicked, P2)
  {
    BeginsSettling();
    RunNext(ops, 4, Two(true, true, Submitted, Clicked, P2), ops[4], Two(true, true, Settling, Clicked, P2));
    SettlesPresent();
    RunNext(ops, 5, Two(true, true, Settling, Clicked, P2), ops[5], Two(false, false, StillPresent, Clicked, P2));
  }

  lemma RunOfEight(ops: seq<Op>)
    requires |ops| >= 8 && Run(Initial, ops[..6]) == Two(false, false, StillPresent, Clicked, P2)
    requires ops[6] == DoRelease(Dest("@e1"), CLEARED) && ops[7] == CollectOp("@e1")
    ensures Run(Initial, ops[..8]) == Rebound()
  {
    ReleasesFirst(StillPresent, Clicked, P2);
    RunNext(ops, 6, Two(false, false, StillPresent, Clicked, P2), ops[6], OneLeft(StillPresent, Clicked, P2));
    RebindsFirst();
    RunNext(ops, 7, OneLeft(StillPresent, Clicked, P2), ops[7], Rebound());
  }

  lemma RunOfNine(ops: seq<Op>)
    requires |ops| == 9 && Run(Initial, ops[..8]) == Rebound() && ops[8] == DoRelease(Dest("@e2"), CLEARED)
    ensures !Findable(Run(Initial, ops))
  {
    ReleasesSecond();
    RunNext(ops, 8, Rebound(), ops[8], Step(Rebound(), ops[8]));
    assert ops[..9] == ops;
    LosesField(Run(Initial, ops));
  }

  lemma LosesOn(ops: seq<Op>)
    requires |ops| == 9 && ops[0] == CollectOp("@e1") && ops[1] == CollectOp("@e2") && ops[2] == DeliverOp("@e1")
    requires ops[3] == DeliverOp("@e2") && ops[4] == DoBeginSettlement(Dest("@e2")) && ops[5] == SETTLE_SECOND
    requires ops[6] == DoRelease(Dest("@e1"), CLEARED) && ops[7] == CollectOp("@e1") && ops[8] == DoRelease(Dest("@e2"), CLEARED)
    ensures !Findable(Run(Initial, ops))
  {
    RunOfTwo(ops);
    RunOfFour(ops);
    RunOfSix(ops);
    RunOfEight(ops);
    RunOfNine(ops);
  }

  /** On this run the second transaction ends up live, holding an unreleased field that the index cannot find:
      its release, abort or settlement would do nothing. */
  lemma IndexLosesField()
    ensures !Findable(Run(Initial, LOSING_RUN))
  {
    LosesOn(LOSING_RUN);
  }

  lemma LosesField(st: State)
    requires st.index == map[] && st.live == [2] && 2 in st.heap && st.heap[2] == Rebound().heap[2]
    ensures !Findable(st)
  {
    assert st.heap[2].fields[0] in st.heap[2].fields && !st.heap[2].fields[0].released;
    assert 2 in st.live;
  }

  // ---------------------------------------------------------------- the lost handles

  /** A first field on which the page throws: the document handle taken before is neither held nor given back. */
  lemma ThrowLosesHandle()
    ensures !NoneLost(Run(Initial, [DoCollect(SESSION, Dest("@e1"), Password, false, USABLE.(field := Throws))]))
  {
    var r := [DoCollect(SESSION, Dest("@e1"), Password, false, USABLE.(field := Throws))];
    assert r[..0] == [];
    Refs();
    assert LosesAt(r, 0);
    HandlesConserved(r);
  }

  /** The first of two fields is released and collected again while the other still waits for its value. */
  const REBINDING_RUN: seq<Op> :=
    [CollectOp("@e1"), CollectOp("@e2"), DoRelease(Dest("@e1"), CLEARED), CollectOp("@e1")]

  lemma RebindLosesHandle()
    ensures !NoneLost(Run(Initial, REBINDING_RUN))
  {
    var r := REBINDING_RUN;
    RunOfTwo(r);
    ReleasesFirst(AwaitingValues, NotRequested, P0);
    RunNext(r, 2, Two(false, false, AwaitingValues, NotRequested, P0), r[2], OneLeft(AwaitingValues, NotRequested, P0));
    RebindLoses(OneLeft(AwaitingValues, NotRequested, P0));
    assert LosesAt(r, 3);
    HandlesConserved(r);
  }

  lemma RebindLoses(st: State)
    requires st == OneLeft(AwaitingValues, NotRequested, P0)
    ensures Loses(st, CollectOp("@e1"))
  {
    Refs();
    assert FirstCompatible(st.heap, st.live, SESSION, Dest("@e1"), Some("f1")) == Some(1);
    assert st.heap[1].fields[0] in st.heap[1].fields;
  }
}
