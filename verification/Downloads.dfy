/** Where finished downloads meet the callers that wait for one: a queue of unclaimed results, a queue of waiting
    callers, and the events that move them. Calls to wait and terminal download events are numbered as they come. */
module Downloads {
  import opened Wrappers

  datatype Attempt = Attempt(guid: string, url: Option<string>, name: Option<string>, received: Option<int>)

  datatype Kind = Completed | Failed | Started

  datatype Reason = Canceled | TooLarge | SaveDialogSuspected | CompletionTimeout

  datatype Report = Report(kind: Kind, attempt: Option<Attempt>, reason: Option<Reason>)

  /** How a wait ended: with terminal event number `event`, with its timeout, or by its signal. */
  datatype Ending = Got(event: nat, report: Report) | RanOut(report: Report) | WasAborted

  /** `attempts` is in insertion order. `open` are the calls whose promise is not settled; `finished` is the log of the
      settling calls, `dropped` the terminal events discarded unclaimed, `cancels` the cancel requests sent. */
  datatype State = State(
    started: bool,
    attempts: seq<Attempt>,
    results: seq<(nat, Report)>,
    waiters: seq<nat>,
    active: Option<string>,
    maxBytes: Option<int>,
    open: set<nat>,
    nextCall: nat,
    nextEvent: nat,
    finished: seq<(nat, Ending)>,
    dropped: set<nat>,
    cancels: seq<string>)

  const Initial := State(false, [], [], [], None, None, {}, 0, 0, [], {}, [])

  datatype Event =
    | Start
    | Prepare(maxBytes: int)
    | Wait(aborted: bool)
    | TimerFires(call: nat)
    | AbortFires(call: nat)
    | WillBegin(guid: string, url: Option<string>, name: Option<string>)
    | Progress(guid: string, state: string, received: Option<int>)
    | Close

  function Lookup(attempts: seq<Attempt>, guid: string): Option<Attempt> {
    if attempts == [] then None else if attempts[0].guid == guid then Some(attempts[0]) else Lookup(attempts[1..], guid)
  }

  /** A map's `set`: a known key keeps its place. */
  function Put(attempts: seq<Attempt>, a: Attempt): seq<Attempt> {
    if attempts == [] then [a] else if attempts[0].guid == a.guid then [a] + attempts[1..]
    else [attempts[0]] + Put(attempts[1..], a)
  }

  function Remove(attempts: seq<Attempt>, guid: string): (r: seq<Attempt>)
    ensures forall a :: a in r <==> a in attempts && a.guid != guid
  {
    if attempts == [] then []
    else
      assert attempts == [attempts[0]] + attempts[1..];
      if attempts[0].guid == guid then Remove(attempts[1..], guid) else [attempts[0]] + Remove(attempts[1..], guid)
  }

  function Cancel(st: State, guid: string): State { st.(cancels := st.cancels + [guid]) }

  function Finish(st: State, call: nat, e: Ending): State {
    st.(open := st.open - {call}, waiters := Without(st.waiters, call), finished := st.finished + [(call, e)])
  }

  function Numbers(results: seq<(nat, Report)>): set<nat> { set r | r in results :: r.0 }

  /** A terminal event goes to the caller that has waited longest, or is kept. */
  function Deliver(st: State, report: Report): State {
    var counted := st.(nextEvent := st.nextEvent + 1);
    if st.waiters == [] then counted.(results := st.results + [(st.nextEvent, report)])
    else Finish(counted, st.waiters[0], Got(st.nextEvent, report))
  }

  /** The attempt an event is about, with what it reports. */
  function Seen(st: State, guid: string, received: Option<int>): Attempt {
    var known := Lookup(st.attempts, guid);
    var attempt := if known.Some? then known.value else Attempt(guid, None, None, None);
    if received.Some? then attempt.(received := received) else attempt
  }

  predicate TooMuch(st: State, received: Option<int>) {
    received.Some? && st.maxBytes.Some? && received.value > st.maxBytes.value
  }

  /** The report of a progress event that ends a download. */
  function ReportOf(st: State, guid: string, state: string, received: Option<int>): Option<Report> {
    var seen := Some(Seen(st, guid, received));
    if TooMuch(st, received) then Some(Report(Failed, seen, Some(TooLarge)))
    else if state == "completed" then Some(Report(Completed, seen, None))
    else if state == "canceled" then Some(Report(Failed, seen, Some(Canceled)))
    else None
  }

  function OnProgress(st: State, guid: string, state: string, received: Option<int>): State {
    var report := ReportOf(st, guid, state, received);
    if report.None? then st.(attempts := Put(st.attempts, Seen(st, guid, received)))
    else
      var ended := st.(attempts := Remove(st.attempts, guid), active := None);
      Deliver(if TooMuch(st, received) then Cancel(ended, guid) else ended, report.value)
  }

  function OnTimer(st: State, call: nat): State {
    if st.attempts == [] then Finish(st, call, RanOut(Report(Failed, None, Some(SaveDialogSuspected))))
    else
      var last := st.attempts[|st.attempts| - 1];
      var nothing := last.received.None? || last.received.value == 0;
      Finish(Cancel(st, last.guid), call,
             RanOut(Report(Started, Some(last), Some(if nothing then SaveDialogSuspected else CompletionTimeout))))
  }

  function OnWait(st: State, aborted: bool): State {
    var called := st.(nextCall := st.nextCall + 1);
    if st.results != [] then
      called.(results := st.results[1..],
              finished := st.finished + [(st.nextCall, Got(st.results[0].0, st.results[0].1))])
    else if aborted then called.(finished := st.finished + [(st.nextCall, WasAborted)])
    else called.(waiters := st.waiters + [st.nextCall], open := st.open + {st.nextCall})
  }

  function Step(st: State, e: Event): State {
    match e
    case Start => st.(started := true)
    case Prepare(maxBytes) =>
      st.(attempts := [], results := [], dropped := st.dropped + Numbers(st.results), active := None,
          maxBytes := Some(maxBytes))
    case Wait(aborted) => OnWait(st, aborted)
    case TimerFires(call) => if call in st.open then OnTimer(st, call) else st
    case AbortFires(call) =>
      if call !in st.open then st
      else if st.active.Some? then Finish(Cancel(st, st.active.value), call, WasAborted)
      else Finish(st, call, WasAborted)
    case WillBegin(guid, url, name) =>
      if st.active.Some? && st.active.value != guid then Cancel(st, guid)
      else st.(active := Some(guid), attempts := Put(st.attempts, Attempt(guid, url, name, None)))
    case Progress(guid, state, received) => OnProgress(st, guid, state, received)
    case Close =>
      if !st.started then st
      else st.(started := false, attempts := [], results := [], dropped := st.dropped + Numbers(st.results),
               waiters := [], active := None, maxBytes := None)
  }

  function Run(events: seq<Event>): State {
    if events == [] then Initial else Step(Run(events[..|events| - 1]), events[|events| - 1])
  }

  // ---------------------------------------------------------------- queues and hand-over

  /** The hand-overs in the order they happened: which terminal event went to which call. */
  function Handed(finished: seq<(nat, Ending)>): seq<(nat, nat)> {
    if finished == [] then []
    else
      var rest, last := Handed(finished[..|finished| - 1]), finished[|finished| - 1];
      if last.1.Got? then rest + [(last.1.event, last.0)] else rest
  }

  predicate InOrder(handed: seq<(nat, nat)>) {
    forall i, j :: 0 <= i < j < |handed| ==> handed[i].0 < handed[j].0 && handed[i].1 < handed[j].1
  }

  predicate Increasing(s: seq<nat>) { forall i, j :: 0 <= i < j < |s| ==> s[i] < s[j] }

  predicate ResultsInOrder(s: seq<(nat, Report)>) { forall i, j :: 0 <= i < j < |s| ==> s[i].0 < s[j].0 }

  predicate FinishedOnce(s: seq<(nat, Ending)>) { forall i, j :: 0 <= i < j < |s| ==> s[i].0 != s[j].0 }

  predicate IsFinished(st: State, call: nat) { exists i :: 0 <= i < |st.finished| && st.finished[i].0 == call }

  predicate WasHanded(st: State, event: nat) {
    exists i :: 0 <= i < |Handed(st.finished)| && Handed(st.finished)[i].0 == event
  }

  ghost predicate CallsOk(st: State) {
    && FinishedOnce(st.finished)
    && (forall i :: 0 <= i < |st.finished| ==> st.finished[i].0 < st.nextCall)
    && (forall call: nat :: call in st.open ==> call < st.nextCall && !IsFinished(st, call))
    && (forall call: nat :: call < st.nextCall ==> call in st.open || IsFinished(st, call))
    && Increasing(st.waiters) && (forall w :: w in st.waiters ==> w in st.open)
  }

  ghost predicate OrderOk(st: State) {
    && ResultsInOrder(st.results) && (forall r :: r in st.results ==> r.0 < st.nextEvent)
    && InOrder(Handed(st.finished))
    && (forall h, r :: h in Handed(st.finished) && r in st.results ==> h.0 < r.0)
    && (forall h, w :: h in Handed(st.finished) && w in st.waiters ==> h.1 < w)
    && (forall h :: h in Handed(st.finished) ==> h.0 < st.nextEvent && h.1 < st.nextCall)
  }

  /** Each terminal event was handed over, discarded or is still kept: exactly one of the three. */
  ghost predicate ConservedOk(st: State) {
    && (forall event :: event in st.dropped ==> event < st.nextEvent && !WasHanded(st, event))
    && (forall event, r :: event in st.dropped && r in st.results ==> event != r.0)
    && (forall event: nat :: event < st.nextEvent ==>
          WasHanded(st, event) || event in st.dropped || event in Numbers(st.results))
  }

  /** Never both unclaimed results and waiting callers. */
  predicate QueuesOk(st: State) { st.results == [] || st.waiters == [] }

  ghost predicate EventsOk(st: State) { OrderOk(st) && ConservedOk(st) }

  ghost predicate Inv(st: State) { CallsOk(st) && EventsOk(st) && QueuesOk(st) }

  lemma {:induction false} WithoutIsIncreasing(s: seq<nat>, x: nat)
    requires Increasing(s)
    ensures Increasing(Without(s, x))
  {
    if s != [] {
      WithoutIsIncreasing(s[1..], x);
      var rest := Without(s[1..], x);
      forall i | 0 <= i < |rest| ensures s[0] < rest[i] {
        assert rest[i] in s[1..];
        var j :| 0 <= j < |s| - 1 && s[1..][j] == rest[i];
        assert s[0] < s[j + 1];
      }
      assert Increasing([s[0]] + rest);
    }
  }

  lemma FinishedMore(st: State, r: State, call: nat, e: Ending)
    requires r.finished == st.finished + [(call, e)]
    ensures Handed(r.finished) == if e.Got? then Handed(st.finished) + [(e.event, call)] else Handed(st.finished)
    ensures forall other :: IsFinished(r, other) <==> IsFinished(st, other) || other == call
    ensures forall event :: WasHanded(r, event) <==> WasHanded(st, event) || (e.Got? && event == e.event)
  {
    assert r.finished[..|r.finished| - 1] == st.finished;
    forall other ensures IsFinished(r, other) <==> IsFinished(st, other) || other == call {
      assert r.finished[|st.finished|].0 == call;
      if i :| 0 <= i < |st.finished| && st.finished[i].0 == other { assert r.finished[i].0 == other; }
    }
    forall event ensures WasHanded(r, event) <==> WasHanded(st, event) || (e.Got? && event == e.event) {
      var h, h' := Handed(st.finished), Handed(r.finished);
      if e.Got? { assert h'[|h|].0 == e.event; }
      if i :| 0 <= i < |h| && h[i].0 == event { assert h'[i].0 == event; }
    }
  }

  lemma FinishKeepsCalls(st: State, call: nat, e: Ending)
    requires CallsOk(st) && call in st.open
    ensures CallsOk(Finish(st, call, e))
  {
    WithoutIsIncreasing(st.waiters, call);
    FinishedMore(st, Finish(st, call, e), call, e);
    assert forall i :: 0 <= i < |st.finished| ==> st.finished[i].0 != call;
  }

  /** Ending a wait without an event leaves the events as they are. */
  lemma FinishKeepsEvents(st: State, call: nat, e: Ending)
    requires EventsOk(st) && QueuesOk(st) && !e.Got?
    ensures EventsOk(Finish(st, call, e)) && QueuesOk(Finish(st, call, e))
  {
    var r := Finish(st, call, e);
    FinishedMore(st, r, call, e);
    assert st.waiters == [] ==> r.waiters == [];
  }

  lemma SameRecords(st: State, r: State)
    requires Inv(st) && r.finished == st.finished && r.open == st.open && r.waiters == st.waiters
    requires r.results == st.results && r.nextCall == st.nextCall && r.nextEvent == st.nextEvent && r.dropped == st.dropped
    ensures Inv(r)
  {
    assert forall call :: IsFinished(r, call) == IsFinished(st, call);
    assert forall event :: WasHanded(r, event) == WasHanded(st, event);
  }

  lemma DropKeeps(st: State, r: State)
    requires Inv(st) && r.finished == st.finished && r.open == st.open && (r.waiters == st.waiters || r.waiters == [])
    requires r.results == [] && r.nextCall == st.nextCall && r.nextEvent == st.nextEvent
    requires r.dropped == st.dropped + Numbers(st.results)
    ensures Inv(r)
  {
    assert forall call :: IsFinished(r, call) == IsFinished(st, call);
    assert forall event :: WasHanded(r, event) == WasHanded(st, event);
    forall event | event in Numbers(st.results) ensures event < r.nextEvent && !WasHanded(r, event) {
      var x :| x in st.results && x.0 == event;
      if i :| 0 <= i < |Handed(st.finished)| && Handed(st.finished)[i].0 == event {
        assert Handed(st.finished)[i] in Handed(st.finished);
      }
    }
  }

  lemma QueueKeeps(st: State, report: Report)
    requires Inv(st) && st.waiters == []
    ensures Inv(Deliver(st, report))
  {
    var r := Deliver(st, report);
    CallsAgree(st, r);
    assert forall event :: WasHanded(r, event) == WasHanded(st, event);
    QueuedLast(st.results, st.nextEvent, report);
    QueueConserves(st, r, report);
  }

  lemma QueuedLast(results: seq<(nat, Report)>, event: nat, report: Report)
    requires ResultsInOrder(results) && forall x :: x in results ==> x.0 < event
    ensures ResultsInOrder(results + [(event, report)])
    ensures Numbers(results + [(event, report)]) == Numbers(results) + {event}
  {
    var more := results + [(event, report)];
    forall i | 0 <= i < |results| ensures results[i].0 < event { assert results[i] in results; }
    forall x | x in results ensures x in more {}
    assert (event, report) in more;
  }

  lemma QueueConserves(st: State, r: State, report: Report)
    requires ConservedOk(st) && r.results == st.results + [(st.nextEvent, report)]
    requires Numbers(r.results) == Numbers(st.results) + {st.nextEvent}
    requires forall event :: WasHanded(r, event) == WasHanded(st, event)
    requires r.nextEvent == st.nextEvent + 1 && r.dropped == st.dropped
    ensures ConservedOk(r)
  {}

  lemma HandOverKeeps(st: State, report: Report)
    requires Inv(st) && st.waiters != []
    ensures Inv(Deliver(st, report))
  {
    var w := st.waiters[0];
    assert w in st.waiters;
    var r, e := Deliver(st, report), Got(st.nextEvent, report);
    FinishKeepsCalls(st, w, e);
    CallsAgree(Finish(st, w, e), r);
    FinishedMore(st, r, w, e);
    HandOverKeepsEvents(st, r, w, report);
  }

  lemma HandOverKeepsEvents(st: State, r: State, w: nat, report: Report)
    requires Inv(st) && st.waiters != [] && w == st.waiters[0] && r == Deliver(st, report)
    requires Handed(r.finished) == Handed(st.finished) + [(st.nextEvent, w)]
    requires forall event :: WasHanded(r, event) <==> WasHanded(st, event) || event == st.nextEvent
    ensures EventsOk(r)
  {
    assert w in st.waiters && w in st.open;
    HandedGrows(Handed(st.finished), st.nextEvent, w);
    forall x | x in r.waiters ensures w < x && x in st.waiters {
      var i :| 0 <= i < |st.waiters| && st.waiters[i] == x;
    }
  }

  lemma CallsAgree(st: State, r: State)
    requires CallsOk(st)
    requires r.finished == st.finished && r.open == st.open && r.waiters == st.waiters && r.nextCall == st.nextCall
    ensures CallsOk(r)
  {
    assert forall call :: IsFinished(r, call) == IsFinished(st, call);
  }

  lemma HandedGrows(handed: seq<(nat, nat)>, event: nat, call: nat)
    requires InOrder(handed) && forall h :: h in handed ==> h.0 < event && h.1 < call
    ensures InOrder(handed + [(event, call)])
  {
    forall i | 0 <= i < |handed| ensures handed[i].0 < event && handed[i].1 < call { assert handed[i] in handed; }
  }

  lemma DeliverKeeps(st: State, report: Report)
    requires Inv(st)
    ensures Inv(Deliver(st, report))
  {
    if st.waiters == [] { QueueKeeps(st, report); } else { HandOverKeeps(st, report); }
  }

  lemma ClaimKeeps(st: State, aborted: bool)
    requires Inv(st) && st.results != []
    ensures Inv(OnWait(st, aborted))
  {
    var first, r := st.results[0], OnWait(st, aborted);
    FinishedMore(st, r, st.nextCall, Got(first.0, first.1));
    ClaimKeepsCalls(st, r);
    ClaimKeepsEvents(st, r, first);
  }

  lemma ClaimKeepsCalls(st: State, r: State)
    requires CallsOk(st) && r.open == st.open && r.waiters == st.waiters && r.nextCall == st.nextCall + 1
    requires exists e :: r.finished == st.finished + [(st.nextCall, e)]
    ensures CallsOk(r)
  {
    var e :| r.finished == st.finished + [(st.nextCall, e)];
    FinishedMore(st, r, st.nextCall, e);
  }

  lemma ClaimKeepsEvents(st: State, r: State, first: (nat, Report))
    requires Inv(st) && st.results != [] && first == st.results[0] && r.results == st.results[1..]
    requires r.finished == st.finished + [(st.nextCall, Got(first.0, first.1))] && r.nextCall == st.nextCall + 1
    requires r.waiters == st.waiters && r.nextEvent == st.nextEvent && r.dropped == st.dropped
    ensures EventsOk(r)
  {
    FinishedMore(st, r, st.nextCall, Got(first.0, first.1));
    LaterResults(st.results, first);
    ClaimOrders(st, r, first);
    ClaimConserves(st, r, first);
  }

  lemma ClaimOrders(st: State, r: State, first: (nat, Report))
    requires OrderOk(st) && QueuesOk(st) && first in st.results && ResultsInOrder(r.results)
    requires forall x :: x in r.results ==> x in st.results && first.0 < x.0
    requires Handed(r.finished) == Handed(st.finished) + [(first.0, st.nextCall)]
    requires r.waiters == st.waiters && r.nextEvent == st.nextEvent && r.nextCall == st.nextCall + 1
    ensures OrderOk(r)
  {
    HandedGrows(Handed(st.finished), first.0, st.nextCall);
  }

  lemma LaterResults(results: seq<(nat, Report)>, first: (nat, Report))
    requires results != [] && results[0] == first && ResultsInOrder(results)
    ensures first in results && results == [first] + results[1..] && ResultsInOrder(results[1..])
    ensures forall x :: x in results[1..] ==> x in results && first.0 < x.0
    ensures Numbers(results) == {first.0} + Numbers(results[1..])
  {
    forall x | x in results[1..] ensures x in results && first.0 < x.0 {
      var i :| 0 <= i < |results| - 1 && results[1..][i] == x;
      assert results[0].0 < results[i + 1].0;
    }
    forall x | x in results ensures x == first || x in results[1..] {
      var i :| 0 <= i < |results| && results[i] == x;
      assert i > 0 ==> results[1..][i - 1] == x;
    }
  }

  lemma ClaimConserves(st: State, r: State, first: (nat, Report))
    requires ConservedOk(st) && first in st.results
    requires forall x :: x in r.results ==> x in st.results
    requires Numbers(st.results) == {first.0} + Numbers(r.results)
    requires forall event :: WasHanded(r, event) <==> WasHanded(st, event) || event == first.0
    requires r.nextEvent == st.nextEvent && r.dropped == st.dropped
    ensures ConservedOk(r)
  {}

  lemma WaitKeeps(st: State, aborted: bool)
    requires Inv(st) && st.results == []
    ensures Inv(OnWait(st, aborted))
  {
    var r := OnWait(st, aborted);
    if aborted {
      FinishedMore(st, r, st.nextCall, WasAborted);
    } else {
      assert forall call :: IsFinished(r, call) == IsFinished(st, call);
      assert forall event :: WasHanded(r, event) == WasHanded(st, event);
      forall i | 0 <= i < |st.waiters| ensures st.waiters[i] < st.nextCall { assert st.waiters[i] in st.waiters; }
    }
  }

  lemma StartKeeps(st: State)
    requires Inv(st)
    ensures Inv(Step(st, Start))
  {
    SameRecords(st, Step(st, Start));
  }

  lemma PrepareKeeps(st: State, maxBytes: int)
    requires Inv(st)
    ensures Inv(Step(st, Prepare(maxBytes)))
  {
    DropKeeps(st, Step(st, Prepare(maxBytes)));
  }

  lemma BeginKeeps(st: State, guid: string, url: Option<string>, name: Option<string>)
    requires Inv(st)
    ensures Inv(Step(st, WillBegin(guid, url, name)))
  {
    SameRecords(st, Step(st, WillBegin(guid, url, name)));
  }

  lemma CloseKeeps(st: State)
    requires Inv(st)
    ensures Inv(Step(st, Close))
  {
    if st.started { DropKeeps(st, Step(st, Close)); }
  }

  lemma StepKeeps(st: State, e: Event)
    requires Inv(st)
    ensures Inv(Step(st, e))
  {
    match e
    case Start => StartKeeps(st);
    case Prepare(maxBytes) => PrepareKeeps(st, maxBytes);
    case Wait(aborted) => if st.results != [] { ClaimKeeps(st, aborted); } else { WaitKeeps(st, aborted); }
    case TimerFires(call) => if call in st.open { TimerKeeps(st, call); }
    case AbortFires(call) => if call in st.open { AbortKeeps(st, call); }
    case WillBegin(guid, url, name) => BeginKeeps(st, guid, url, name);
    case Progress(guid, state, received) => ProgressKeeps(st, guid, state, received);
    case Close => CloseKeeps(st);
  }

  lemma TimerKeeps(st: State, call: nat)
    requires Inv(st) && call in st.open
    ensures Inv(OnTimer(st, call))
  {
    var asked := if st.attempts == [] then st else Cancel(st, st.attempts[|st.attempts| - 1].guid);
    SameRecords(st, asked);
    var e := OnTimer(st, call).finished[|st.finished|].1;
    FinishKeepsCalls(asked, call, e);
    FinishKeepsEvents(asked, call, e);
  }

  lemma AbortKeeps(st: State, call: nat)
    requires Inv(st) && call in st.open
    ensures Inv(Step(st, AbortFires(call)))
  {
    var asked := if st.active.Some? then Cancel(st, st.active.value) else st;
    SameRecords(st, asked);
    FinishKeepsCalls(asked, call, WasAborted);
    FinishKeepsEvents(asked, call, WasAborted);
  }

  lemma ProgressKeeps(st: State, guid: string, state: string, received: Option<int>)
    requires Inv(st)
    ensures Inv(OnProgress(st, guid, state, received))
  {
    var report := ReportOf(st, guid, state, received);
    if report.None? {
      SameRecords(st, OnProgress(st, guid, state, received));
    } else {
      var ended := st.(attempts := Remove(st.attempts, guid), active := None);
      var asked := if TooMuch(st, received) then Cancel(ended, guid) else ended;
      SameRecords(st, asked);
      DeliverKeeps(asked, report.value);
    }
  }

  /** Over every interleaving: results and callers never queue up at once; hand-over is in arrival order on both sides,
      so each terminal event reaches at most one call; each terminal event is handed over, kept or discarded; each
      call ends at most once, and has ended or is still open. */
  lemma {:induction false} RunKeeps(events: seq<Event>)
    ensures Inv(Run(events))
  {
    if events != [] {
      RunKeeps(events[..|events| - 1]);
      StepKeeps(Run(events[..|events| - 1]), events[|events| - 1]);
    }
  }

  // ---------------------------------------------------------------- what the reports say

  predicate Fits(a: Attempt, limit: Option<int>) {
    a.received.Some? && limit.Some? ==> a.received.value <= limit.value
  }

  ghost predicate LimitOk(st: State) { forall a :: a in st.attempts ==> Fits(a, st.maxBytes) }

  lemma {:induction false} LookupFinds(attempts: seq<Attempt>, guid: string)
    ensures Lookup(attempts, guid).Some? ==> Lookup(attempts, guid).value in attempts
  {
    if attempts != [] && attempts[0].guid != guid { LookupFinds(attempts[1..], guid); }
  }

  lemma {:induction false} PutHolds(attempts: seq<Attempt>, a: Attempt)
    ensures forall x :: x in Put(attempts, a) ==> x == a || x in attempts
  {
    if attempts != [] {
      assert attempts == [attempts[0]] + attempts[1..];
      if attempts[0].guid != a.guid { PutHolds(attempts[1..], a); }
    }
  }

  lemma StepKeepsLimit(st: State, e: Event)
    requires LimitOk(st)
    ensures LimitOk(Step(st, e))
  {
    match e
    case WillBegin(guid, url, name) => PutHolds(st.attempts, Attempt(guid, url, name, None));
    case Progress(guid, state, received) => ProgressKeepsLimit(st, guid, state, received);
    case TimerFires(call) =>
    case AbortFires(call) =>
    case Wait(aborted) =>
    case Prepare(_) =>
    case Start =>
    case Close =>
  }

  lemma ProgressKeepsLimit(st: State, guid: string, state: string, received: Option<int>)
    requires LimitOk(st)
    ensures LimitOk(OnProgress(st, guid, state, received))
  {
    LookupFinds(st.attempts, guid);
    PutHolds(st.attempts, Seen(st, guid, received));
    if ReportOf(st, guid, state, received).None? { assert Fits(Seen(st, guid, received), st.maxBytes); }
  }

  lemma {:induction false} LimitHolds(events: seq<Event>)
    ensures LimitOk(Run(events))
  {
    if events != [] {
      LimitHolds(events[..|events| - 1]);
      StepKeepsLimit(Run(events[..|events| - 1]), events[|events| - 1]);
    }
  }

  /** A download reported completed never says it received more than the limit in force, and a progress event over the
      limit is reported as a failure whatever state it claims, with a cancel request for that download. */
  lemma CompletedWithinLimit(events: seq<Event>, guid: string, state: string, received: Option<int>)
    requires ReportOf(Run(events), guid, state, received).Some?
    ensures var st := Run(events);
      var report := ReportOf(st, guid, state, received).value;
      && report.attempt.Some? && report.attempt.value.guid == guid
      && (report.kind == Completed ==> Fits(report.attempt.value, st.maxBytes))
      && (TooMuch(st, received) ==>
            && report.kind == Failed && report.reason == Some(TooLarge)
            && Step(st, Progress(guid, state, received)).cancels == st.cancels + [guid])
  {
    LimitHolds(events);
    LookupFinds(Run(events).attempts, guid);
    LookupMatches(Run(events).attempts, guid);
  }

  lemma {:induction false} LookupMatches(attempts: seq<Attempt>, guid: string)
    ensures Lookup(attempts, guid).Some? ==> Lookup(attempts, guid).value.guid == guid
  {
    if attempts != [] && attempts[0].guid != guid { LookupMatches(attempts[1..], guid); }
  }

  /** While a download is active and a call waits, the event that ends any download is handed to the oldest waiting call
      and ends the active one's turn; what the call receives is about the active download exactly when the event is. */
  lemma HandOverIsActiveIff(events: seq<Event>, first: string, guid: string, state: string, received: Option<int>)
    requires Run(events).waiters != [] && Run(events).active == Some(first)
    requires ReportOf(Run(events), guid, state, received).Some?
    ensures var st, st' := Run(events), Run(events + [Progress(guid, state, received)]);
      && |st'.finished| == |st.finished| + 1 && st'.finished[..|st.finished|] == st.finished && st'.active == None
      && var (call, ending) := st'.finished[|st.finished|];
         && call == st.waiters[0] && ending.Got? && ending.event == st.nextEvent && ending.report.attempt.Some?
         && (ending.report.attempt.value.guid == first <==> guid == first)
  {
    assert (events + [Progress(guid, state, received)])[..|events|] == events;
    LookupMatches(Run(events).attempts, guid);
  }

  /** A second download begins while the first is active and a caller waits for it, and is cancelled. */
  function CompetitorRun(first: string, second: string, url: Option<string>, name: Option<string>): seq<Event> {
    [Start, Prepare(1000), WillBegin(first, url, name), Wait(false), WillBegin(second, url, name), Progress(second, "canceled", None)]
  }

  /** The waiting call then receives the end of the second download, and the first is no longer the active one. */
  lemma CompetitorIsHandedOver(first: string, second: string, url: Option<string>, name: Option<string>)
    requires first != second
    ensures var st := Run(CompetitorRun(first, second, url, name));
      && st.finished == [(0, Got(0, Report(Failed, Some(Attempt(second, None, None, None)), Some(Canceled))))]
      && st.cancels == [second] && st.active == None && st.attempts == [Attempt(first, url, name, None)]
  {
    var r := CompetitorRun(first, second, url, name);
    var a := Attempt(first, url, name, None);
    assert r[..0] == [] && r[..6] == r;
    RunStep(r, 0, Initial);
    RunStep(r, 1, Initial.(started := true));
    RunStep(r, 2, Initial.(started := true, maxBytes := Some(1000)));
    RunStep(r, 3, Initial.(started := true, attempts := [a], active := Some(first), maxBytes := Some(1000)));
    CompetitorEnds(r, a);
  }

  lemma CompetitorEnds(r: seq<Event>, a: Attempt)
    requires |r| == 6 && r[4].WillBegin? && r[4].guid != a.guid && r[5] == Progress(r[4].guid, "canceled", None)
    requires Run(r[..4]) == Initial.(started := true, attempts := [a], active := Some(a.guid), maxBytes := Some(1000),
                                     waiters := [0], open := {0}, nextCall := 1)
    ensures var st := Run(r);
      && st.finished == [(0, Got(0, Report(Failed, Some(Attempt(r[4].guid, None, None, None)), Some(Canceled))))]
      && st.cancels == [r[4].guid] && st.active == None && st.attempts == [a]
  {
    RunStep(r, 4, Run(r[..4]));
    RunStep(r, 5, Run(r[..5]));
    assert r[..6] == r;
    assert Run(r[..5]) == Cancel(Run(r[..4]), r[4].guid);
    OnlyAttempt(a, r[4].guid);
  }

  lemma OnlyAttempt(a: Attempt, guid: string)
    requires a.guid != guid
    ensures Lookup([a], guid) == None && Remove([a], guid) == [a]
  {
    assert [a][1..] == [] && Remove([], guid) == [];
    assert [a] + [] == [a];
  }

  lemma RunStep(events: seq<Event>, n: nat, st: State)
    requires n < |events| && Run(events[..n]) == st
    ensures Run(events[..n + 1]) == Step(st, events[n])
  {
    assert events[..n + 1][..n] == events[..n];
  }

  /** The call has been taken off the queue for good: nothing was or will be handed to it. */
  ghost predicate Stranded(st: State, call: nat) {
    call < st.nextCall && call !in st.waiters && forall h :: h in Handed(st.finished) ==> h.1 != call
  }

  lemma FinishStrands(st: State, call: nat, done: nat, e: Ending)
    requires Stranded(st, call) && (e.Got? ==> done != call)
    ensures Stranded(Finish(st, done, e), call)
  {
    FinishedMore(st, Finish(st, done, e), done, e);
  }

  lemma DeliverStrands(st: State, report: Report, call: nat)
    requires Stranded(st, call)
    ensures Stranded(Deliver(st, report), call)
  {
    if st.waiters != [] {
      assert st.waiters[0] in st.waiters;
      FinishStrands(st.(nextEvent := st.nextEvent + 1), call, st.waiters[0], Got(st.nextEvent, report));
    }
  }

  lemma WaitStrands(st: State, aborted: bool, call: nat)
    requires Stranded(st, call)
    ensures Stranded(OnWait(st, aborted), call)
  {
    if st.results != [] {
      FinishedMore(st, OnWait(st, aborted), st.nextCall, Got(st.results[0].0, st.results[0].1));
    } else if aborted {
      FinishedMore(st, OnWait(st, aborted), st.nextCall, WasAborted);
    }
  }

  lemma StepStrands(st: State, e: Event, call: nat)
    requires Stranded(st, call)
    ensures Stranded(Step(st, e), call)
  {
    match e
    case Wait(aborted) => WaitStrands(st, aborted, call);
    case TimerFires(done) =>
      if done in st.open {
        var asked := if st.attempts == [] then st else Cancel(st, st.attempts[|st.attempts| - 1].guid);
        FinishStrands(asked, call, done, OnTimer(st, done).finished[|st.finished|].1);
      }
    case AbortFires(done) =>
      if done in st.open {
        FinishStrands(if st.active.Some? then Cancel(st, st.active.value) else st, call, done, WasAborted);
      }
    case Progress(guid, state, received) =>
      var report := ReportOf(st, guid, state, received);
      if report.Some? {
        var ended := st.(attempts := Remove(st.attempts, guid), active := None);
        DeliverStrands(if TooMuch(st, received) then Cancel(ended, guid) else ended, report.value, call);
      }
    case WillBegin(_, _, _) =>
    case Prepare(_) =>
    case Start =>
    case Close =>
  }

  /** Closing the supervisor strands every waiting call: over any later events it can only run out or be aborted. */
  lemma {:induction false} CloseStrandsWaiters(before: seq<Event>, after: seq<Event>, call: nat)
    requires Run(before).started && call in Run(before).waiters
    ensures Stranded(Run(before + [Close] + after), call)
  {
    var events := before + [Close] + after;
    RunKeeps(before);
    if after == [] {
      assert events[..|events| - 1] == before;
    } else {
      var front := after[..|after| - 1];
      CloseStrandsWaiters(before, front, call);
      assert events[..|events| - 1] == before + [Close] + front;
      RunKeeps(before + [Close] + front);
      StepStrands(Run(before + [Close] + front), after[|after| - 1], call);
    }
  }
}
