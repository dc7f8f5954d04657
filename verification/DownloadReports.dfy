/** What the reports say: which download a report is about, under which address and name, how much it received, and why
    it ended, all told by the events so far. */
module DownloadReports {
  import opened Wrappers
  import opened Downloads

  /** More was received than the limit allows. */
  predicate Over(limit: Option<int>, received: Option<int>) {
    limit.Some? && received.Some? && received.value > limit.value
  }

  predicate EndsDownload(limit: Option<int>, state: string, received: Option<int>) {
    Over(limit, received) || state == "completed" || state == "canceled"
  }

  /** The limit in force: that of the last preparation, unless the supervisor was closed since. */
  function LimitAfter(events: seq<Event>): Option<int> {
    if events == [] then None
    else
      var front, e := events[..|events| - 1], events[|events| - 1];
      match e
      case Prepare(maxBytes) => Some(maxBytes)
      case Close => if StartedAfter(front) then None else LimitAfter(front)
      case _ => LimitAfter(front)
  }

  function StartedAfter(events: seq<Event>): bool {
    if events == [] then false
    else
      var e := events[|events| - 1];
      if e == Start then true else if e == Close then false else StartedAfter(events[..|events| - 1])
  }

  /** The download whose turn it is: the first to begin since the last one ended. */
  function ActiveAfter(events: seq<Event>): Option<string> {
    if events == [] then None
    else
      var front, e := events[..|events| - 1], events[|events| - 1];
      match e
      case Prepare(_) => None
      case Close => if StartedAfter(front) then None else ActiveAfter(front)
      case WillBegin(guid, _, _) => if ActiveAfter(front).None? then Some(guid) else ActiveAfter(front)
      case Progress(_, state, received) =>
        if EndsDownload(LimitAfter(front), state, received) then None else ActiveAfter(front)
      case _ => ActiveAfter(front)
  }

  /** What is known of a download: its address and name from where it began in its turn, what it received from the last
      event that said so; nothing once it ended. */
  function KnownAfter(events: seq<Event>, guid: string): Option<Attempt> {
    if events == [] then None
    else
      var front, e := events[..|events| - 1], events[|events| - 1];
      var before := KnownAfter(front, guid);
      match e
      case Prepare(_) => None
      case Close => if StartedAfter(front) then None else before
      case WillBegin(g, url, name) =>
        if g == guid && ActiveAfter(front) in {None, Some(guid)} then Some(Attempt(guid, url, name, None)) else before
      case Progress(g, state, received) =>
        if g != guid then before
        else if EndsDownload(LimitAfter(front), state, received) then None
        else Some(Updated(before, guid, received))
      case _ => before
  }

  function Updated(known: Option<Attempt>, guid: string, received: Option<int>): Attempt {
    Attempt(guid,
      if known.Some? then known.value.url else None,
      if known.Some? then known.value.name else None,
      if received.Some? then received else if known.Some? then known.value.received else None)
  }

  lemma {:induction false} LookupPut(attempts: seq<Attempt>, a: Attempt, guid: string)
    ensures Lookup(Put(attempts, a), guid) == if a.guid == guid then Some(a) else Lookup(attempts, guid)
  {
    if attempts != [] && attempts[0].guid != a.guid {
      LookupPut(attempts[1..], a, guid);
      var rest := Put(attempts[1..], a);
      assert ([attempts[0]] + rest)[1..] == rest;
    } else if attempts != [] {
      assert ([a] + attempts[1..])[1..] == attempts[1..];
    } else {
      assert [a][1..] == [];
    }
  }

  lemma {:induction false} LookupRemove(attempts: seq<Attempt>, gone: string, guid: string)
    ensures Lookup(Remove(attempts, gone), guid) == if gone == guid then None else Lookup(attempts, guid)
  {
    if attempts != [] {
      LookupRemove(attempts[1..], gone, guid);
      var rest := Remove(attempts[1..], gone);
      assert ([attempts[0]] + rest)[1..] == rest;
    }
  }

  lemma {:induction false} StartedIs(events: seq<Event>)
    ensures Run(events).started == StartedAfter(events)
  {
    if events != [] {
      StartedIs(events[..|events| - 1]);
      StepStarted(Run(events[..|events| - 1]), events[|events| - 1]);
    }
  }

  lemma StepStarted(st: State, e: Event)
    ensures Step(st, e).started == (e == Start || (e != Close && st.started))
  {}

  lemma {:induction false} LimitIs(events: seq<Event>)
    ensures Run(events).maxBytes == LimitAfter(events)
  {
    if events != [] {
      LimitIs(events[..|events| - 1]);
      StartedIs(events[..|events| - 1]);
      StepLimit(Run(events[..|events| - 1]), events[|events| - 1]);
    }
  }

  lemma StepLimit(st: State, e: Event)
    ensures Step(st, e).maxBytes ==
      match e
      case Prepare(maxBytes) => Some(maxBytes)
      case Close => if st.started then None else st.maxBytes
      case _ => st.maxBytes
  {}

  lemma {:induction false} ActiveIs(events: seq<Event>)
    ensures Run(events).active == ActiveAfter(events)
  {
    if events != [] {
      ActiveIs(events[..|events| - 1]);
      LimitIs(events[..|events| - 1]);
      StartedIs(events[..|events| - 1]);
      StepActive(Run(events[..|events| - 1]), events[|events| - 1]);
    }
  }

  lemma StepActive(st: State, e: Event)
    ensures Step(st, e).active ==
      match e
      case Prepare(_) => None
      case Close => if st.started then None else st.active
      case WillBegin(guid, _, _) => if st.active.None? then Some(guid) else st.active
      case Progress(_, state, received) => if EndsDownload(st.maxBytes, state, received) then None else st.active
      case _ => st.active
  {}

  /** The supervisor's fields as the history tells them. */
  lemma FieldsAre(events: seq<Event>)
    ensures Run(events).started == StartedAfter(events)
    ensures Run(events).maxBytes == LimitAfter(events)
    ensures Run(events).active == ActiveAfter(events)
  {
    StartedIs(events);
    LimitIs(events);
    ActiveIs(events);
  }

  lemma {:induction false} AttemptsAre(events: seq<Event>, guid: string)
    ensures Lookup(Run(events).attempts, guid) == KnownAfter(events, guid)
  {
    if events != [] {
      var front, e := events[..|events| - 1], events[|events| - 1];
      AttemptsAre(front, guid);
      FieldsAre(front);
      AttemptStep(Run(front), front, e, guid);
    }
  }

  lemma AttemptStep(st: State, front: seq<Event>, e: Event, guid: string)
    requires st == Run(front) && Lookup(st.attempts, guid) == KnownAfter(front, guid)
    requires st.started == StartedAfter(front) && st.maxBytes == LimitAfter(front) && st.active == ActiveAfter(front)
    ensures Lookup(Step(st, e).attempts, guid) == KnownAfter(front + [e], guid)
  {
    assert (front + [e])[..|front|] == front;
    match e
    case WillBegin(g, url, name) => LookupPut(st.attempts, Attempt(g, url, name, None), guid);
    case Progress(g, state, received) => AttemptProgress(st, g, state, received, guid);
    case _ =>
  }

  lemma AttemptProgress(st: State, g: string, state: string, received: Option<int>, guid: string)
    ensures Lookup(OnProgress(st, g, state, received).attempts, guid) ==
      if g != guid then Lookup(st.attempts, guid)
      else if EndsDownload(st.maxBytes, state, received) then None
      else Some(Updated(Lookup(st.attempts, guid), guid, received))
  {
    LookupPut(st.attempts, Seen(st, g, received), guid);
    LookupRemove(st.attempts, g, guid);
    LookupMatches(st.attempts, g);
    assert ReportOf(st, g, state, received).None? <==> !EndsDownload(st.maxBytes, state, received);
  }

  /** The report a progress event gives rise to: none while the download goes on; too large before anything else;
      completed or cancelled as the event says; with what is known of that download. */
  lemma ReportIs(events: seq<Event>, guid: string, state: string, received: Option<int>)
    ensures ReportOf(Run(events), guid, state, received) ==
      var about := Some(Updated(KnownAfter(events, guid), guid, received));
      if Over(LimitAfter(events), received) then Some(Report(Failed, about, Some(TooLarge)))
      else if state == "completed" then Some(Report(Completed, about, None))
      else if state == "canceled" then Some(Report(Failed, about, Some(Canceled)))
      else None
  {
    FieldsAre(events);
    AttemptsAre(events, guid);
    LookupMatches(Run(events).attempts, guid);
  }

  /** Where a report goes: to the call that has waited longest, or to the end of the kept ones. The download is forgotten,
      its turn over, and the browser asked to cancel it exactly when it is too large. */
  lemma ReportGoes(events: seq<Event>, guid: string, state: string, received: Option<int>, report: Report)
    requires ReportOf(Run(events), guid, state, received) == Some(report)
    ensures var st, r := Run(events), Run(events + [Progress(guid, state, received)]);
      && (if st.waiters == []
          then r.results == st.results + [(st.nextEvent, report)] && r.finished == st.finished
          else r.results == st.results && r.finished == st.finished + [(st.waiters[0], Got(st.nextEvent, report))])
      && r.nextEvent == st.nextEvent + 1 && r.active.None? && Lookup(r.attempts, guid).None?
      && r.cancels == st.cancels + (if report.reason == Some(TooLarge) then [guid] else [])
  {
    assert (events + [Progress(guid, state, received)])[..|events|] == events;
    LookupRemove(Run(events).attempts, guid, guid);
  }

  /** A call that comes while a report is kept gets the oldest one at once; else it is refused if its signal is aborted,
      and waits last in the queue if not. */
  lemma WaitGets(events: seq<Event>, aborted: bool)
    ensures var st, r := Run(events), Run(events + [Wait(aborted)]);
      if st.results != []
      then r.results == st.results[1..] && r.waiters == st.waiters
           && r.finished == st.finished + [(st.nextCall, Got(st.results[0].0, st.results[0].1))]
      else if aborted then r.waiters == st.waiters && r.finished == st.finished + [(st.nextCall, WasAborted)]
      else r.waiters == st.waiters + [st.nextCall] && r.finished == st.finished
  {
    assert (events + [Wait(aborted)])[..|events|] == events;
  }

  /** What a call that runs out is told: that no download began, or the one noted last with what it received, which the
      browser is asked to cancel. Nothing received so far suggests a save dialog. */
  lemma TimeoutTells(events: seq<Event>, call: nat)
    requires call in Run(events).open
    ensures var st, r := Run(events), Run(events + [TimerFires(call)]);
      && call !in r.open && call !in r.waiters
      && if st.attempts == []
         then RunsOut(st, r, call, Report(Failed, None, Some(SaveDialogSuspected))) && r.cancels == st.cancels
         else
           var last := st.attempts[|st.attempts| - 1];
           && RunsOut(st, r, call, Report(Started, Some(last), Some(
                if last.received.None? || last.received.value == 0 then SaveDialogSuspected else CompletionTimeout)))
           && r.cancels == st.cancels + [last.guid]
  {
    assert (events + [TimerFires(call)])[..|events|] == events;
  }

  predicate RunsOut(st: State, r: State, call: nat, report: Report) { r.finished == st.finished + [(call, RanOut(report))] }
}
