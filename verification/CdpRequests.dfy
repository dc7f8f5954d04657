/** Requests over one CDP socket as a machine of events: sends, replies, timeouts, aborts and the socket's end, in any
    order. Timers and abort listeners are events that can only fire while they are armed. */
module CdpRequests {
  import opened Wrappers

  datatype Outcome = Resolved | Rejected | TimedOut | Aborted | SendFailed | SocketEnded

  /** `pending` is in insertion order; `settled` lists the settling calls in the order they were made. */
  datatype State = State(nextId: nat, pending: seq<nat>, timers: set<nat>, listeners: set<nat>,
                         settled: seq<(nat, Outcome)>, sent: seq<nat>)

  const Initial := State(1, [], {}, {}, [], [])

  /** `abortedBefore` and `abortedWhile` are what the two looks at the abort signal found. */
  datatype Event =
    | Send(hasSignal: bool, abortedBefore: bool, abortedWhile: bool, throws: bool)
    | Reply(id: nat, isError: bool)
    | TimerFires(id: nat)
    | AbortFires(id: nat)
    | SocketEnds

  /** Settling disarms the timer and the abort listener first. */
  function Settle(st: State, id: nat, o: Outcome): State {
    st.(pending := Without(st.pending, id), timers := st.timers - {id}, listeners := st.listeners - {id},
        settled := st.settled + [(id, o)])
  }

  function Issue(st: State, hasSignal: bool): State {
    st.(nextId := st.nextId + 1, pending := st.pending + [st.nextId], timers := st.timers + {st.nextId},
        listeners := if hasSignal then st.listeners + {st.nextId} else st.listeners)
  }

  function Ended(ids: seq<nat>): (r: seq<(nat, Outcome)>)
    ensures |r| == |ids| && forall i :: 0 <= i < |ids| ==> r[i] == (ids[i], SocketEnded)
  {
    seq(|ids|, i requires 0 <= i < |ids| => (ids[i], SocketEnded))
  }

  function Step(st: State, e: Event): State {
    match e
    case Send(hasSignal, before, while_, throws) =>
      if hasSignal && before then st.(nextId := st.nextId + 1, settled := st.settled + [(st.nextId, Aborted)])
      else
        var issued := Issue(st, hasSignal);
        if hasSignal && while_ then Settle(issued, st.nextId, Aborted)
        else if throws then Settle(issued, st.nextId, SendFailed)
        else issued.(sent := st.sent + [st.nextId])
    case Reply(id, isError) => if id in st.pending then Settle(st, id, if isError then Rejected else Resolved) else st
    case TimerFires(id) => if id in st.timers then Settle(st, id, TimedOut) else st
    case AbortFires(id) => if id in st.listeners then Settle(st, id, Aborted) else st
    case SocketEnds =>
      st.(pending := [], timers := st.timers - Members(st.pending), listeners := st.listeners - Members(st.pending),
          settled := st.settled + Ended(st.pending))
  }

  function Members(s: seq<nat>): set<nat> { set x | x in s }

  function Run(events: seq<Event>): State {
    if events == [] then Initial else Step(Run(events[..|events| - 1]), events[|events| - 1])
  }

  predicate IsSettled(st: State, id: nat) { exists i :: 0 <= i < |st.settled| && st.settled[i].0 == id }

  predicate Increasing(s: seq<nat>) { forall i, j :: 0 <= i < j < |s| ==> s[i] < s[j] }

  predicate SettledOnce(s: seq<(nat, Outcome)>) { forall i, j :: 0 <= i < j < |s| ==> s[i].0 != s[j].0 }

  ghost predicate Inv(st: State) {
    && st.nextId >= 1
    && Increasing(st.pending) && Increasing(st.sent)
    && (forall id :: id in st.sent ==> 1 <= id < st.nextId)
    && st.timers == Members(st.pending) && st.listeners <= st.timers
    && SettledOnce(st.settled)
    && (forall id :: id in st.pending ==> 1 <= id < st.nextId && !IsSettled(st, id))
    && (forall i :: 0 <= i < |st.settled| ==> 1 <= st.settled[i].0 < st.nextId)
    && (forall id: nat :: 1 <= id < st.nextId ==> id in st.pending || IsSettled(st, id))
  }

  lemma {:induction false} WithoutIsIncreasing(s: seq<nat>, x: nat)
    requires Increasing(s)
    ensures Increasing(Without(s, x))
  {
    if s != [] {
      WithoutIsIncreasing(s[1..], x);
      var rest := Without(s[1..], x);
      forall i | 0 <= i < |rest| ensures s[0] < rest[i] {
        assert rest[i] in s[1..];
        var j :| 0 <= j < |s| - 1 && s[1..][j] == rest[i];
        assert s[0] < s[j + 1];
      }
      assert Increasing([s[0]] + rest);
    }
  }

  lemma AppendIsIncreasing(s: seq<nat>, x: nat)
    requires Increasing(s) && forall y :: y in s ==> y < x
    ensures Increasing(s + [x])
  {
    forall i | 0 <= i < |s| ensures s[i] < x { assert s[i] in s; }
  }

  lemma SettleKeeps(st: State, id: nat, o: Outcome)
    requires Inv(st) && id in st.pending
    ensures Inv(Settle(st, id, o)) && IsSettled(Settle(st, id, o), id)
  {
    var r := Settle(st, id, o);
    WithoutIsIncreasing(st.pending, id);
    SettlesOneMore(st, r, id, o);
    assert forall i :: 0 <= i < |st.settled| ==> st.settled[i].0 != id;
  }

  lemma SettlesOneMore(st: State, r: State, id: nat, o: Outcome)
    requires r.settled == st.settled + [(id, o)]
    ensures forall other :: IsSettled(r, other) <==> IsSettled(st, other) || other == id
  {
    SettlesMore(st, r, [(id, o)]);
    assert [(id, o)][0].0 == id;
  }

  /** Adding to the settled log settles exactly what is added. */
  lemma SettlesMore(st: State, r: State, more: seq<(nat, Outcome)>)
    requires r.settled == st.settled + more
    ensures forall id :: IsSettled(r, id) <==> IsSettled(st, id) || exists i :: 0 <= i < |more| && more[i].0 == id
  {
    forall id ensures IsSettled(r, id) <==> IsSettled(st, id) || exists i :: 0 <= i < |more| && more[i].0 == id {
      if i :| 0 <= i < |st.settled| && st.settled[i].0 == id { assert r.settled[i].0 == id; }
      if i :| 0 <= i < |more| && more[i].0 == id { assert r.settled[|st.settled| + i].0 == id; }
    }
  }

  lemma IssueKeeps(st: State, hasSignal: bool)
    requires Inv(st)
    ensures Inv(Issue(st, hasSignal)) && st.nextId in Issue(st, hasSignal).pending
  {
    SettlesMore(st, Issue(st, hasSignal), []);
    AppendIsIncreasing(st.pending, st.nextId);
    assert Issue(st, hasSignal).pending[|st.pending|] == st.nextId;
  }

  lemma StepKeeps(st: State, e: Event)
    requires Inv(st)
    ensures Inv(Step(st, e))
  {
    match e
    case Send(hasSignal, before, while_, throws) =>
      if hasSignal && before {
        SettlesOneMore(st, Step(st, e), st.nextId, Aborted);
      } else {
        IssueKeeps(st, hasSignal);
        var issued := Issue(st, hasSignal);
        if hasSignal && while_ {
          SettleKeeps(issued, st.nextId, Aborted);
        } else if throws {
          SettleKeeps(issued, st.nextId, SendFailed);
        } else {
          SettlesMore(issued, Step(st, e), []);
          AppendIsIncreasing(st.sent, st.nextId);
        }
      }
    case Reply(id, isError) => if id in st.pending { SettleKeeps(st, id, if isError then Rejected else Resolved); }
    case TimerFires(id) => if id in st.timers { SettleKeeps(st, id, TimedOut); }
    case AbortFires(id) => if id in st.listeners { SettleKeeps(st, id, Aborted); }
    case SocketEnds => EndKeeps(st);
  }

  lemma EndKeeps(st: State)
    requires Inv(st)
    ensures Inv(Step(st, SocketEnds))
  {
    var r := Step(st, SocketEnds);
    SettlesMore(st, r, Ended(st.pending));
    forall i | 0 <= i < |r.settled| ensures 1 <= r.settled[i].0 < r.nextId {
      if i >= |st.settled| {
        assert r.settled[i] == Ended(st.pending)[i - |st.settled|];
        assert st.pending[i - |st.settled|] in st.pending;
      } else {
        assert r.settled[i] == st.settled[i];
      }
    }
    forall i, j | 0 <= i < j < |r.settled| ensures r.settled[i].0 != r.settled[j].0 {
      if i < |st.settled| <= j { assert r.settled[j].0 in st.pending; }
    }
    forall id: nat | 1 <= id < r.nextId ensures IsSettled(r, id) {
      if id in st.pending {
        var i :| 0 <= i < |st.pending| && st.pending[i] == id;
        assert Ended(st.pending)[i].0 == id;
      }
    }
  }

  /** Over every interleaving: ids sent are strictly increasing, each request is settled at most once, each issued id
      is either settled or pending and never both, and timers and listeners are armed for pending requests only. */
  lemma {:induction false} RunKeeps(events: seq<Event>)
    ensures Inv(Run(events))
  {
    if events != [] {
      RunKeeps(events[..|events| - 1]);
      StepKeeps(Run(events[..|events| - 1]), events[|events| - 1]);
    }
  }

  /** A reply settles the request with its id, if that is pending, and no other. */
  lemma ReplySettlesOnlyItsRequest(events: seq<Event>, id: nat, isError: bool)
    ensures var st, r := Run(events), Step(Run(events), Reply(id, isError));
      && (forall other :: other != id ==>
            (other in r.pending <==> other in st.pending) && (IsSettled(r, other) <==> IsSettled(st, other)))
      && id !in r.pending
      && (id in st.pending <==> IsSettled(r, id) && !IsSettled(st, id))
      && (id !in st.pending ==> r == st)
      && r.sent == st.sent
  {
    RunKeeps(events);
    var st := Run(events);
    if id in st.pending {
      var o := if isError then Rejected else Resolved;
      SettlesOneMore(st, Settle(st, id, o), id, o);
    }
  }

  /** When the socket ends nothing is pending, every request ever issued is settled, and no timer is left. */
  lemma EndSettlesEverything(events: seq<Event>)
    ensures var r := Run(events + [SocketEnds]);
      && r.pending == [] && r.timers == {} && r.listeners == {}
      && forall id: nat :: 1 <= id < r.nextId ==> IsSettled(r, id)
  {
    RunKeeps(events + [SocketEnds]);
    assert (events + [SocketEnds])[..|events|] == events;
  }

  /** What is settled stays settled with the same outcome, whatever follows. */
  lemma {:induction false} OutcomesStand(events: seq<Event>, n: nat)
    requires n <= |events|
    ensures Run(events[..n]).settled <= Run(events).settled
    decreases |events|
  {
    if n == |events| {
      assert events[..n] == events;
    } else {
      var front := events[..|events| - 1];
      OutcomesStand(front, n);
      assert front[..n] == events[..n];
    }
  }

  // ---------------------------------------------------------------- which event decides a request

  /** The event can end request `id`; an abort does only where the request was given a signal. */
  predicate Ends(e: Event, id: nat, hasSignal: bool) {
    e == Reply(id, true) || e == Reply(id, false) || e == TimerFires(id) || (hasSignal && e == AbortFires(id)) || e == SocketEnds
  }

  /** A request that went out and was not ended yet. */
  predicate Waiting(st: State, id: nat, hasSignal: bool) {
    id in st.pending && id in st.timers && (id in st.listeners <==> hasSignal)
  }

  lemma SentIsWaiting(events: seq<Event>, hasSignal: bool)
    ensures var st := Run(events);
      Waiting(Step(st, Send(hasSignal, false, false, false)), st.nextId, hasSignal)
      && Step(st, Send(hasSignal, false, false, false)).settled == st.settled
  {
    RunKeeps(events);
    var st := Run(events);
    assert (st.pending + [st.nextId])[|st.pending|] == st.nextId;
    assert st.nextId !in st.listeners;
  }

  lemma StaysWaiting(st: State, e: Event, id: nat, hasSignal: bool)
    requires Inv(st) && Waiting(st, id, hasSignal) && !Ends(e, id, hasSignal)
    ensures Waiting(Step(st, e), id, hasSignal)
  {}

  /** What the event that ends a request makes of it. */
  predicate DecidedBy(e: Event, id: nat, settled: seq<(nat, Outcome)>) {
    && (e == Reply(id, false) ==> (id, Resolved) in settled)
    && (e == Reply(id, true) ==> (id, Rejected) in settled)
    && (e == TimerFires(id) ==> (id, TimedOut) in settled)
    && (e == AbortFires(id) ==> (id, Aborted) in settled)
    && (e == SocketEnds ==> (id, SocketEnded) in settled)
  }

  lemma EndDecides(st: State, e: Event, id: nat, hasSignal: bool)
    requires Inv(st) && Waiting(st, id, hasSignal) && Ends(e, id, hasSignal)
    ensures DecidedBy(e, id, Step(st, e).settled)
  {
    if e == SocketEnds {
      var i :| 0 <= i < |st.pending| && st.pending[i] == id;
      assert Ended(st.pending)[i] == (id, SocketEnded);
      assert Step(st, e).settled[|st.settled| + i] == (id, SocketEnded);
    } else {
      assert Step(st, e).settled[|st.settled|].0 == id;
    }
  }

  lemma StaysDecided(e: Event, id: nat, settled: seq<(nat, Outcome)>, later: seq<(nat, Outcome)>)
    requires DecidedBy(e, id, settled) && settled <= later
    ensures DecidedBy(e, id, later)
  {}

  lemma RunNext(events: seq<Event>, n: nat)
    requires n < |events|
    ensures Run(events[..n + 1]) == Step(Run(events[..n]), events[n]) && Inv(Run(events[..n]))
  {
    assert events[..n + 1][..n] == events[..n];
    RunKeeps(events[..n]);
  }

  lemma StaysWaitingNext(events: seq<Event>, n: nat, id: nat, hasSignal: bool)
    requires n < |events| && Waiting(Run(events[..n]), id, hasSignal) && !Ends(events[n], id, hasSignal)
    ensures Waiting(Run(events[..n + 1]), id, hasSignal)
  {
    RunNext(events, n);
    StaysWaiting(Run(events[..n]), events[n], id, hasSignal);
  }

  lemma {:induction false} WaitsUntil(events: seq<Event>, m: nat, n: nat, id: nat, hasSignal: bool)
    requires m <= n <= |events| && Waiting(Run(events[..m]), id, hasSignal)
    requires forall j :: m <= j < n ==> !Ends(events[j], id, hasSignal)
    ensures Waiting(Run(events[..n]), id, hasSignal)
    decreases n
  {
    if m < n {
      WaitsUntil(events, m, n - 1, id, hasSignal);
      StaysWaitingNext(events, n - 1, id, hasSignal);
    }
  }

  lemma WaitsOnceSent(events: seq<Event>, i: nat, hasSignal: bool)
    requires i < |events| && events[i] == Send(hasSignal, false, false, false)
    ensures Waiting(Run(events[..i + 1]), Run(events[..i]).nextId, hasSignal)
  {
    RunNext(events, i);
    SentIsWaiting(events[..i], hasSignal);
  }

  lemma DecidedNext(events: seq<Event>, n: nat, id: nat, hasSignal: bool)
    requires n < |events| && Waiting(Run(events[..n]), id, hasSignal) && Ends(events[n], id, hasSignal)
    ensures DecidedBy(events[n], id, Run(events[..n + 1]).settled)
  {
    RunNext(events, n);
    EndDecides(Run(events[..n]), events[n], id, hasSignal);
  }

  /** Over every interleaving the first event that can end a request decides it for good: a reply with a result resolves
      it, one with an error rejects it, and otherwise its timer, its abort signal or the end of the socket. */
  lemma FirstEventDecides(events: seq<Event>, i: nat, n: nat, id: nat, hasSignal: bool)
    requires i < n < |events| && events[i] == Send(hasSignal, false, false, false) && id == Run(events[..i]).nextId
    requires forall j :: i < j < n ==> !Ends(events[j], id, hasSignal)
    requires Ends(events[n], id, hasSignal)
    ensures DecidedBy(events[n], id, Run(events).settled)
  {
    WaitsOnceSent(events, i, hasSignal);
    WaitsUntil(events, i + 1, n, id, hasSignal);
    DecidedForGood(events, n, id, hasSignal);
  }

  lemma DecidedForGood(events: seq<Event>, n: nat, id: nat, hasSignal: bool)
    requires n < |events| && Waiting(Run(events[..n]), id, hasSignal) && Ends(events[n], id, hasSignal)
    ensures DecidedBy(events[n], id, Run(events).settled)
  {
    DecidedNext(events, n, id, hasSignal);
    OutcomesStand(events, n + 1);
    StaysDecided(events[n], id, Run(events[..n + 1]).settled, Run(events).settled);
  }

  /** A send that is aborted, or whose socket throws, is over at once and leaves nothing pending for it. */
  lemma FailedSendIsOver(events: seq<Event>, before: bool, while_: bool, throws: bool, hasSignal: bool)
    requires throws || (hasSignal && (before || while_))
    ensures var st := Run(events);
      var r := Step(st, Send(hasSignal, before, while_, throws));
      && r.settled == st.settled + [(st.nextId, if hasSignal && (before || while_) then Aborted else SendFailed)]
      && r.pending == st.pending && r.timers == st.timers && r.listeners == st.listeners && r.sent == st.sent
      && r.nextId == st.nextId + 1
  {
    RunKeeps(events);
    WithoutLast(Run(events).pending, Run(events).nextId);
  }

  lemma {:induction false} WithoutLast(s: seq<nat>, x: nat)
    requires x !in s
    ensures Without(s + [x], x) == s
  {
    if s == [] {
      assert ([] + [x])[1..] == [];
    } else {
      WithoutLast(s[1..], x);
      assert (s + [x])[1..] == s[1..] + [x];
    }
  }
}
