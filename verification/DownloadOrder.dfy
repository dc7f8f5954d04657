/** Which download a handed-over report is about, over whole runs. */
module DownloadOrder {
  import opened Wrappers
  import opened Downloads

  /** The event at `n` ended a download with this report. */
  ghost predicate ReportedAt(events: seq<Event>, n: nat, report: Report) {
    && n < |events| && events[n].Progress?
    && ReportOf(Run(events[..n]), events[n].guid, events[n].state, events[n].received) == Some(report)
  }

  ghost predicate Reported(events: seq<Event>, report: Report) { exists n: nat :: ReportedAt(events, n, report) }

  /** The downloads that have begun and not ended yet. */
  ghost function Going(events: seq<Event>): set<string> {
    if events == [] then {}
    else
      var front, e := events[..|events| - 1], events[|events| - 1];
      if e.WillBegin? then Going(front) + {e.guid}
      else if e.Progress? && ReportOf(Run(front), e.guid, e.state, e.received).Some? then Going(front) - {e.guid}
      else Going(front)
  }

  /** None begins while another is going, progress is about one that is going, and nothing is reset meanwhile. */
  ghost predicate OrderlyAt(events: seq<Event>, i: nat)
    requires i < |events|
  {
    match events[i]
    case WillBegin(guid, _, _) => Going(events[..i]) <= {guid}
    case Progress(guid, _, _) => guid in Going(events[..i])
    case Prepare(_) => Going(events[..i]) == {}
    case Close => Going(events[..i]) == {}
    case _ => true
  }

  ghost predicate Orderly(events: seq<Event>) { forall i: nat :: i < |events| ==> OrderlyAt(events, i) }

  function ActiveSet(st: State): set<string> { if st.active.Some? then {st.active.value} else {} }

  lemma OrderlyFront(events: seq<Event>)
    requires Orderly(events) && events != []
    ensures Orderly(events[..|events| - 1]) && OrderlyAt(events, |events| - 1)
  {
    var front := events[..|events| - 1];
    forall i: nat | i < |front| ensures OrderlyAt(front, i) {
      assert front[..i] == events[..i] && OrderlyAt(events, i);
    }
  }

  /** On an orderly run the active download is the one that is going. */
  lemma {:induction false} GoingIsActive(events: seq<Event>)
    requires Orderly(events)
    ensures Going(events) == ActiveSet(Run(events))
    decreases |events|
  {
    if events != [] {
      OrderlyFront(events);
      GoingIsActive(events[..|events| - 1]);
      GoingStep(events[..|events| - 1], events[|events| - 1]);
      assert events == events[..|events| - 1] + [events[|events| - 1]];
    }
  }

  lemma GoingStep(front: seq<Event>, e: Event)
    requires Going(front) == ActiveSet(Run(front)) && OrderlyAt(front + [e], |front|)
    ensures Going(front + [e]) == ActiveSet(Run(front + [e]))
  {
    var events := front + [e];
    assert events[..|events| - 1] == front && events[|events| - 1] == e && events[..|front|] == front;
    StepActive(Run(front), e);
  }

  /** What one event does to the active download. */
  lemma StepActive(st: State, e: Event)
    ensures var r := Step(st, e);
      match e
      case WillBegin(guid, _, _) => r.active == if st.active.Some? then st.active else Some(guid)
      case Progress(guid, state, received) => r.active == if ReportOf(st, guid, state, received).Some? then None else st.active
      case Prepare(_) => r.active == None
      case Close => st.active == None ==> r.active == None
      case _ => r.active == st.active
  {}

  // ---------------------------------------------------------------- where reports come from

  ghost predicate AllReported(st: State, events: seq<Event>) {
    && (forall r :: r in st.results ==> Reported(events, r.1))
    && (forall x :: x in st.finished && x.1.Got? ==> Reported(events, x.1.report))
  }

  lemma ReportedStays(front: seq<Event>, e: Event, report: Report)
    requires Reported(front, report)
    ensures Reported(front + [e], report)
  {
    var n: nat :| ReportedAt(front, n, report);
    assert (front + [e])[..n] == front[..n];
    assert ReportedAt(front + [e], n, report);
  }

  /** One event adds at most the report it makes. */
  lemma StepReports(st: State, e: Event)
    ensures var r := Step(st, e);
      && (forall x :: x in r.results ==> x in st.results || Makes(st, e, x.1))
      && (forall x :: x in r.finished && x.1.Got? ==>
            x in st.finished || Makes(st, e, x.1.report) || exists y :: y in st.results && y.1 == x.1.report)
  {
    match e
    case Progress(guid, state, received) =>
      var report := ReportOf(st, guid, state, received);
      if report.Some? {
        var ended := st.(attempts := Remove(st.attempts, guid), active := None);
        DeliverReports(if TooMuch(st, received) then Cancel(ended, guid) else ended, report.value);
      }
    case Wait(aborted) => if st.results != [] { assert st.results[0] in st.results; }
    case TimerFires(_) =>
    case AbortFires(_) =>
    case WillBegin(_, _, _) =>
    case Prepare(_) =>
    case Start =>
    case Close =>
  }

  ghost predicate Makes(st: State, e: Event, report: Report) {
    e.Progress? && ReportOf(st, e.guid, e.state, e.received) == Some(report)
  }

  lemma DeliverReports(st: State, report: Report)
    ensures var r := Deliver(st, report);
      && (forall x :: x in r.results ==> x in st.results || x.1 == report)
      && (forall x :: x in r.finished && x.1.Got? ==> x in st.finished || x.1.report == report)
  {}

  lemma {:induction false} ReportsComeFromEvents(events: seq<Event>)
    ensures AllReported(Run(events), events)
    decreases |events|
  {
    if events != [] {
      ReportsComeFromEvents(events[..|events| - 1]);
      ReportsStep(events[..|events| - 1], events[|events| - 1]);
      assert events == events[..|events| - 1] + [events[|events| - 1]];
    }
  }

  lemma ReportsStep(front: seq<Event>, e: Event)
    requires AllReported(Run(front), front)
    ensures AllReported(Run(front + [e]), front + [e])
  {
    var events, st := front + [e], Run(front);
    assert events[..|events| - 1] == front && events[|events| - 1] == e && events[..|front|] == front;
    StepReports(st, e);
    forall report | Makes(st, e, report) ensures Reported(events, report) {
      assert ReportedAt(events, |front|, report);
    }
    forall report | Reported(front, report) ensures Reported(events, report) { ReportedStays(front, e, report); }
  }

  /** On every run in which no download begins while another is going, progress is about one that is going, and nothing
      is reset meanwhile, each report handed to a caller is about the download that was active when its event came. */
  lemma OrderlyHandOvers(events: seq<Event>, call: nat, ending: Ending)
    requires Orderly(events) && (call, ending) in Run(events).finished && ending.Got?
    ensures exists n: nat :: ReportedAt(events, n, ending.report) && ending.report.attempt.Some?
                             && Run(events[..n]).active == Some(ending.report.attempt.value.guid)
  {
    ReportsComeFromEvents(events);
    var n: nat :| ReportedAt(events, n, ending.report);
    OrderlyPrefix(events, n);
    GoingIsActive(events[..n]);
    assert OrderlyAt(events, n);
    LookupMatches(Run(events[..n]).attempts, events[n].guid);
  }

  lemma OrderlyPrefix(events: seq<Event>, n: nat)
    requires Orderly(events) && n <= |events|
    ensures Orderly(events[..n])
  {
    forall i: nat | i < n ensures OrderlyAt(events[..n], i) {
      assert events[..n][..i] == events[..i] && OrderlyAt(events, i);
    }
  }

  // ---------------------------------------------------------------- a late end

  /** The first download grows too large, is reported so and cancelled; the next one is prepared, begins and is waited
      for; only then does the browser report the first as cancelled. None begins while another is going. */
  function LateRun(first: string, second: string): seq<Event> {
    [Start, Prepare(10), WillBegin(first, None, None), Progress(first, "inProgress", Some(11)), Wait(false),
     Prepare(10), WillBegin(second, None, None), Wait(false), Progress(first, "canceled", None)]
  }

  /** The call that waits for the second download receives the end of the first one a second time. */
  lemma LateCancelIsHandedOver(first: string, second: string)
    requires first != second
    ensures var st := Run(LateRun(first, second));
      && |st.finished| == 2 && st.cancels == [first]
      && st.finished[1] == (1, Got(1, Report(Failed, Some(Attempt(first, None, None, None)), Some(Canceled))))
    ensures Run(LateRun(first, second)[..8]).active == Some(second)
  {
    LateFirst(LateRun(first, second), first);
    LateSecond(LateRun(first, second), second);
    LateEnds(LateRun(first, second), first, second);
  }

  /** The second download is awaited after one call has ended. */
  ghost predicate Awaited(st: State, first: string, second: string) {
    && |st.finished| == 1 && st.cancels == [first] && st.waiters == [1] && st.nextEvent == 1
    && st.attempts == [Attempt(second, None, None, None)] && st.active == Some(second)
  }

  lemma LateSecond(r: seq<Event>, second: string)
    requires |r| >= 8 && r[5] == Prepare(10) && r[6] == WillBegin(second, None, None) && r[7] == Wait(false)
    requires var st := Run(r[..5]);
      && st.results == [] && st.waiters == [] && st.active == None && |st.finished| == 1 && |st.cancels| == 1
      && st.nextCall == 1 && st.nextEvent == 1
    ensures Awaited(Run(r[..8]), Run(r[..5]).cancels[0], second)
  {
    RunStep(r, 5, Run(r[..5]));
    RunStep(r, 6, Run(r[..6]));
    RunStep(r, 7, Run(r[..7]));
  }

  lemma LateEnds(r: seq<Event>, first: string, second: string)
    requires |r| == 9 && r[8] == Progress(first, "canceled", None) && first != second
    requires Awaited(Run(r[..8]), first, second)
    ensures var st := Run(r);
      && |st.finished| == 2 && st.cancels == [first]
      && st.finished[1] == (1, Got(1, Report(Failed, Some(Attempt(first, None, None, None)), Some(Canceled))))
  {
    RunStep(r, 8, Run(r[..8]));
    assert r[..9] == r;
    OnlyAttempt(Attempt(second, None, None, None), first);
  }

  function Began(first: string): State {
    Initial.(started := true, maxBytes := Some(10), attempts := [Attempt(first, None, None, None)], active := Some(first))
  }

  function TooLargeReport(first: string): Report { Report(Failed, Some(Attempt(first, None, None, Some(11))), Some(TooLarge)) }

  lemma LateBegins(r: seq<Event>, first: string)
    requires |r| >= 3 && r[0] == Start && r[1] == Prepare(10) && r[2] == WillBegin(first, None, None)
    ensures Run(r[..3]) == Began(first)
  {
    assert r[..0] == [];
    RunStep(r, 0, Initial);
    RunStep(r, 1, Initial.(started := true));
    RunStep(r, 2, Initial.(started := true, maxBytes := Some(10)));
  }

  function Grown(first: string): State {
    Began(first).(attempts := [], active := None, cancels := [first], results := [(0, TooLargeReport(first))], nextEvent := 1)
  }

  lemma GrowsTooLarge(first: string)
    ensures Step(Began(first), Progress(first, "inProgress", Some(11))) == Grown(first)
  {
    var a := Attempt(first, None, None, None);
    assert [a][1..] == [] && Remove([a], first) == [];
    assert [] + [first] == [first];
  }

  lemma LateFirst(r: seq<Event>, first: string)
    requires |r| >= 5 && r[0] == Start && r[1] == Prepare(10) && r[2] == WillBegin(first, None, None)
    requires r[3] == Progress(first, "inProgress", Some(11)) && r[4] == Wait(false)
    ensures var st := Run(r[..5]);
      && st.results == [] && st.waiters == [] && st.attempts == [] && st.active == None && st.maxBytes == Some(10)
      && |st.finished| == 1 && st.cancels == [first] && st.nextCall == 1 && st.nextEvent == 1
  {
    LateBegins(r, first);
    GrowsTooLarge(first);
    RunStep(r, 3, Began(first));
    RunStep(r, 4, Grown(first));
  }
}
