/** Whole runs of one browser session, and what closing it closes. */
module TabRuns {
  import opened Wrappers
  import opened Text
  import opened TabSession

  datatype Op =
    | DoList(listing: Listing)
    | DoSwitch(ref: string, switch: SwitchAnswers)
    | DoOpen(create: Creation, switch: SwitchAnswers)

  function Step(s: Session, op: Op): Session {
    match op
    case DoList(listing) => ListTabs(s, listing).0
    case DoSwitch(ref, a) => SwitchTab(s, ref, a).0
    case DoOpen(create, a) => OpenTab(s, create, a).0
  }

  /** The references a caller sees: the tabs of a listing, or the tab that is now controlled. */
  function Shown(s: Session, op: Op): seq<Tab> {
    var r := Step(s, op);
    match op
    case DoList(listing) => if ListTabs(s, listing).1.Ok? then ListTabs(s, listing).1.value else []
    case DoSwitch(ref, a) => if SwitchTab(s, ref, a).1.Ok? then [Tab(r.targetId, r.tabRef, true)] else []
    case DoOpen(create, a) => if OpenTab(s, create, a).1.Ok? then [Tab(r.targetId, r.tabRef, true)] else []
  }

  function Run(s: Session, ops: seq<Op>): Session {
    if ops == [] then s else Step(Run(s, ops[..|ops| - 1]), ops[|ops| - 1])
  }

  lemma StepKeeps(s: Session, op: Op)
    requires Inv(s)
    ensures Inv(Step(s, op)) && Remembers(s, Step(s, op))
    ensures forall tab :: tab in Shown(s, op) ==>
      tab.ref in Step(s, op).issued && Step(s, op).issued[tab.ref] == tab.target
    ensures forall tab :: tab in Shown(s, op) ==> (tab.controlled <==> tab.target == Step(s, op).targetId)
  {
    match op
    case DoList(listing) =>
      if listing.Targets? {
        ListedKeeps(s, listing.targets);
        TabsAreIssued(s, listing.targets);
      }
    case DoSwitch(ref, a) => SwitchTabKeeps(s, ref, a);
    case DoOpen(create, a) => OpenTabKeeps(s, create, a);
  }

  /** At every moment of every run each attachment obtained is exactly one of active, retired and closed, and the
      session has no active attachment exactly when it drives its owner target. */
  lemma {:induction false} RunKeeps(s: Session, ops: seq<Op>)
    requires Inv(s)
    ensures Inv(Run(s, ops)) && Remembers(s, Run(s, ops))
  {
    if ops != [] {
      RunKeeps(s, ops[..|ops| - 1]);
      StepKeeps(Run(s, ops[..|ops| - 1]), ops[|ops| - 1]);
    }
  }

  /** The target a reference was issued for, if it was. */
  predicate Means(s: Session, ref: string, t: TargetId) { ref in s.issued && s.issued[ref] == t }

  lemma StepRemembers(s: Session, op: Op, ref: string, t: TargetId)
    requires Inv(s)
    ensures Means(s, ref, t) ==> Means(Step(s, op), ref, t)
    ensures forall controlled :: Tab(t, ref, controlled) in Shown(s, op) ==> Means(Step(s, op), ref, t)
  {
    StepKeeps(s, op);
  }

  /** Whatever was issued at one moment is still issued for the same target at every later one. */
  lemma {:induction false} IssuedIsRemembered(s: Session, ops: seq<Op>, i: nat, n: nat, ref: string, t: TargetId)
    requires Inv(s) && i <= n <= |ops| && Means(Run(s, ops[..i]), ref, t)
    ensures Means(Run(s, ops[..n]), ref, t)
    decreases n
  {
    if i < n {
      assert ops[..n][..n - 1] == ops[..n - 1];
      RunKeeps(s, ops[..n - 1]);
      IssuedIsRemembered(s, ops, i, n - 1, ref, t);
      StepRemembers(Run(s, ops[..n - 1]), ops[n - 1], ref, t);
    }
  }

  lemma ShownIsIssued(s: Session, ops: seq<Op>, i: nat, tab: Tab)
    requires Inv(s) && i < |ops| && tab in Shown(Run(s, ops[..i]), ops[i])
    ensures Means(Run(s, ops[..i + 1]), tab.ref, tab.target)
  {
    RunKeeps(s, ops[..i]);
    assert ops[..i + 1][..i] == ops[..i];
    assert Tab(tab.target, tab.ref, tab.controlled) == tab;
    StepRemembers(Run(s, ops[..i]), ops[i], tab.ref, tab.target);
  }

  lemma ShownStays(owner: TargetId, ops: seq<Op>, i: nat, n: nat, tab: Tab)
    requires i < n <= |ops| && tab in Shown(Run(Fresh(owner), ops[..i]), ops[i])
    ensures Means(Run(Fresh(owner), ops[..n]), tab.ref, tab.target)
  {
    FreshOk(owner);
    ShownIsIssued(Fresh(owner), ops, i, tab);
    IssuedIsRemembered(Fresh(owner), ops, i + 1, n, tab.ref, tab.target);
  }

  /** A tab reference never denotes two targets, however far apart the two moments are. */
  lemma TabRefsNeverMove(owner: TargetId, ops: seq<Op>, i: nat, j: nat, x: Tab, y: Tab)
    requires i < |ops| && j < |ops|
    requires x in Shown(Run(Fresh(owner), ops[..i]), ops[i]) && y in Shown(Run(Fresh(owner), ops[..j]), ops[j])
    ensures x.ref == y.ref ==> x.target == y.target
  {
    ShownStays(owner, ops, i, |ops|, x);
    ShownStays(owner, ops, j, |ops|, y);
  }

  // ---------------------------------------------------------------- closing a session

  datatype Closing = CloseAttachment(a: Attachment) | CloseOwner(target: TargetId)

  /** The close calls in order: the active attachment, the retired ones, then the owner target. */
  function CloseCalls(s: Session): seq<Closing> {
    Attachments(s) + [CloseOwner(s.owner)]
  }

  function Attachments(s: Session): (r: seq<Closing>)
    ensures forall a :: CloseAttachment(a) in r <==> s.active == Some(a) || a in s.retired
  {
    var active := if s.active.Some? then [CloseAttachment(s.active.value)] else [];
    var retired := seq(|s.retired|, i requires 0 <= i < |s.retired| => CloseAttachment(s.retired[i]));
    assert forall i :: 0 <= i < |s.retired| ==> retired[i] == CloseAttachment(s.retired[i]);
    active + retired
  }

  /** Closing a session calls each attachment that is still open exactly once, and the owner target once. */
  lemma CloseReachesEverything(s: Session)
    requires Inv(s)
    ensures NoDuplicates(CloseCalls(s))
    ensures forall a :: CloseAttachment(a) in CloseCalls(s) <==> a in s.obtained && a.id !in s.closed
    ensures CloseOwner(s.owner) in CloseCalls(s)
  {
    var calls := CloseCalls(s);
    forall a ensures CloseAttachment(a) in calls <==> a in s.obtained && a.id !in s.closed {
      assert CloseAttachment(a) in calls <==> CloseAttachment(a) in Attachments(s);
      if a in s.obtained {
        var i :| 0 <= i < |s.obtained| && s.obtained[i] == a;
        assert Places(s, s.obtained[i]) == 1;
      }
      if s.active == Some(a) || a in s.retired { assert a in s.obtained; }
    }
    if s.active.Some? {
      var i :| 0 <= i < |s.obtained| && s.obtained[i] == s.active.value;
      assert Places(s, s.obtained[i]) == 1;
    }
  }

  predicate CloseFails(s: Session, throws: Closing -> bool) {
    exists c :: c in CloseCalls(s) && throws(c)
  }

  // ---------------------------------------------------------------- all sessions of a manager

  datatype ManagerOp =
    | DoAcquire(key: string, target: Option<TargetId>)
    | DoInSession(key: string, op: Op)
    | DoClose(key: string)
    | DoCloseAll

  function ManagerStep(m: map<string, Session>, op: ManagerOp): map<string, Session> {
    match op
    case DoAcquire(key, target) => Acquired(m, key, target)
    case DoInSession(key, op) => if IsBlank(key) || key !in m then m else m[key := Step(m[key], op)]
    case DoClose(key) => Forgotten(m, key)
    case DoCloseAll => map[]
  }

  function Acquired(m: map<string, Session>, key: string, target: Option<TargetId>): map<string, Session> {
    if IsBlank(key) || key in m || target.None? then m else m[key := Fresh(target.value)]
  }

  function Forgotten(m: map<string, Session>, key: string): map<string, Session> {
    if IsBlank(key) then m else m - {key}
  }

  function ManagerRun(ops: seq<ManagerOp>): map<string, Session> {
    if ops == [] then map[] else ManagerStep(ManagerRun(ops[..|ops| - 1]), ops[|ops| - 1])
  }

  /** Every stored session is sound after every run of the manager. */
  lemma {:induction false} EverySessionIsSound(ops: seq<ManagerOp>, key: string)
    requires key in ManagerRun(ops)
    ensures Inv(ManagerRun(ops)[key])
  {
    var before, op := ManagerRun(ops[..|ops| - 1]), ops[|ops| - 1];
    if key in before { EverySessionIsSound(ops[..|ops| - 1], key); }
    match op
    case DoAcquire(k, target) => if target.Some? { FreshOk(target.value); }
    case DoInSession(k, o) => if key in before { StepKeeps(before[key], o); }
    case DoClose(_) =>
    case DoCloseAll =>
  }
}
