/** The pages the two browsers show behind the routing table: which navigation left a page where nothing has judged it
    safe, and when an action can reach such a page. */
module HybridPages {
  import opened Wrappers
  import opened UrlChecks
  import opened HybridBackend

  /** What an operation does to the page of a key in one browser: nothing; it ends where that browser may show it, is
      blanked or is closed; it may be anywhere; or it may be anywhere but its route is dropped. */
  datatype Touch = Untouched | Settled | LeftOpen | LeftForgotten

  function TouchOf(st: State, o: Options, op: Op, key: string, side: Side): Touch {
    match op
    case DoNavigate(url, sessionId, a) =>
      if st.closed || RouteFor(a.classify(url), o) != Some(side) || KeyFor(st, sessionId, a.freshKey) != key then Untouched
      else if a.delegate.None? then LeftOpen
      else if EndsWell(side, a.delegate.value, a.reclassify, o) || a.blanks then Settled
      else (match a.closes case Closes => Settled case CloseThrows => LeftOpen case NotOffered => LeftForgotten)
    case DoCloseSession(k, cloud, local) =>
      if k == key && (if side == Cloud then cloud else local) == Closes then Settled else Untouched
    case DoClose(cloud, local) =>
      if !st.closed && (if side == Cloud then cloud else local) == Closes then Settled else Untouched
    case DoAct(_, _, _) => Untouched
  }

  /** The last thing a run did to the page. */
  function LastTouch(o: Options, ops: seq<Op>, key: string, side: Side): Touch {
    if ops == [] then Untouched
    else
      var front, op := ops[..|ops| - 1], ops[|ops| - 1];
      var touch := TouchOf(Run(o, front), o, op, key, side);
      if touch == Untouched then LastTouch(o, front, key, side) else touch
  }

  lemma LastTouchOneMore(o: Options, front: seq<Op>, op: Op, key: string, side: Side)
    ensures var touch := TouchOf(Run(o, front), o, op, key, side);
      LastTouch(o, front + [op], key, side) == if touch == Untouched then LastTouch(o, front, key, side) else touch
  {
    var ops := front + [op];
    assert ops[..|ops| - 1] == front && ops[|ops| - 1] == op;
  }

  lemma NavigatedIsSettled(st: State, o: Options, op: Op, key: string, side: Side)
    requires Navigates(st, o, op, key, side)
    ensures TouchOf(st, o, op, key, side) == Settled
  {}

  lemma ForgottenIsForgets(st: State, o: Options, op: Op, key: string)
    requires key in st.routes && TouchOf(st, o, op, key, st.routes[key].side) == LeftForgotten
    ensures Forgets(st, o, op, key)
  {}

  /** The page behind a route has been settled or left open, never forgotten. */
  lemma {:induction false} RoutedIsTouched(o: Options, ops: seq<Op>, key: string)
    requires key in Run(o, ops).routes
    ensures LastTouch(o, ops, key, Run(o, ops).routes[key].side) in {Settled, LeftOpen}
    decreases |ops|
  {
    var front, op := ops[..|ops| - 1], ops[|ops| - 1];
    var side := Run(o, ops).routes[key].side;
    assert ops == front + [op];
    LastTouchOneMore(o, front, op, key, side);
    RouteBefore(o, front, op, key);
    if Navigates(Run(o, front), o, op, key, side) {
      NavigatedIsSettled(Run(o, front), o, op, key, side);
    } else {
      RoutedIsTouched(o, front, key);
      StaysTouched(o, front, op, key);
    }
  }

  lemma StaysTouched(o: Options, front: seq<Op>, op: Op, key: string)
    requires key in Run(o, front).routes && key in Run(o, front + [op]).routes
    requires forall s :: !Navigates(Run(o, front), o, op, key, s)
    ensures TouchOf(Run(o, front), o, op, key, Run(o, front).routes[key].side) != LeftForgotten
  {
    var st := Run(o, front);
    assert (front + [op])[..|front|] == front;
    TableHolds(o, front);
    StepMovesRoute(st, o, op, key);
    if TouchOf(st, o, op, key, st.routes[key].side) == LeftForgotten { ForgottenIsForgets(st, o, op, key); }
  }

  ghost predicate UntouchedAt(o: Options, ops: seq<Op>, key: string, side: Side, j: nat) {
    j < |ops| && TouchOf(Run(o, ops[..j]), o, ops[j], key, side) == Untouched
  }

  /** Operation `i` left the page open, and nothing after it touched the page. */
  ghost predicate LeftOpenAt(o: Options, ops: seq<Op>, key: string, side: Side, i: nat) {
    && i < |ops| && TouchOf(Run(o, ops[..i]), o, ops[i], key, side) == LeftOpen
    && forall j: nat :: i < j < |ops| ==> UntouchedAt(o, ops, key, side, j)
  }

  lemma {:induction false} LeftOpenIff(o: Options, ops: seq<Op>, key: string, side: Side)
    ensures LastTouch(o, ops, key, side) == LeftOpen <==> exists i: nat :: LeftOpenAt(o, ops, key, side, i)
    decreases |ops|
  {
    if ops != [] {
      var front, op := ops[..|ops| - 1], ops[|ops| - 1];
      assert ops == front + [op];
      LastTouchOneMore(o, front, op, key, side);
      LeftOpenIff(o, front, key, side);
      LeftOpenOneMore(o, front, op, key, side);
    }
  }

  lemma LeftOpenOneMore(o: Options, front: seq<Op>, op: Op, key: string, side: Side)
    ensures var touch := TouchOf(Run(o, front), o, op, key, side);
      (exists i: nat :: LeftOpenAt(o, front + [op], key, side, i)) <==>
      touch == LeftOpen || (touch == Untouched && exists i: nat :: LeftOpenAt(o, front, key, side, i))
  {
    var ops, touch := front + [op], TouchOf(Run(o, front), o, op, key, side);
    assert ops[..|front|] == front;
    if touch == LeftOpen { assert LeftOpenAt(o, ops, key, side, |front|); }
    if touch == Untouched && exists i: nat :: LeftOpenAt(o, front, key, side, i) {
      var i: nat :| LeftOpenAt(o, front, key, side, i);
      OpenCarries(o, front, op, key, side, i);
    }
    if i: nat :| LeftOpenAt(o, ops, key, side, i) {
      if i < |front| {
        assert UntouchedAt(o, ops, key, side, |front|);
        OpenCarries(o, front, op, key, side, i);
      }
    }
  }

  lemma OpenCarries(o: Options, front: seq<Op>, op: Op, key: string, side: Side, i: nat)
    requires i < |front| && TouchOf(Run(o, front), o, op, key, side) == Untouched
    ensures LeftOpenAt(o, front + [op], key, side, i) <==> LeftOpenAt(o, front, key, side, i)
  {
    var ops := front + [op];
    assert forall j: nat :: j < |front| ==> front[..j] == ops[..j];
    assert ops[..|front|] == front;
    assert forall j: nat :: j < |front| ==> (UntouchedAt(o, ops, key, side, j) <==> UntouchedAt(o, front, key, side, j));
    assert UntouchedAt(o, ops, key, side, |front|);
  }

  /** An action that finds a route reaches a page nothing has judged safe exactly when some navigation of the key in that
      browser threw, or ended unsafely, was not blanked and its close threw, and nothing since then has navigated the
      page anew, blanked it or closed it. */
  lemma UnjudgedPageReachedIff(o: Options, ops: seq<Op>, id: string, checks: bool, supported: bool)
    requires Act(Run(o, ops), Some(id), checks, supported).1.Ok?
    ensures var key, side := Stripped(id), Act(Run(o, ops), Some(id), checks, supported).1.value.side;
      LastTouch(o, ops, key, side) != Settled <==> exists i: nat :: LeftOpenAt(o, ops, key, side, i)
  {
    var key := Stripped(id);
    RoutedIsTouched(o, ops, key);
    LeftOpenIff(o, ops, key, Run(o, ops).routes[key].side);
  }

  /** A page that was public, then redirected to a private address: it is not blanked, its close throws, and the key's
      actions go on reaching it. */
  lemma UnsafePageStaysReachable(o: Options, url: string, key: string, good: NavigateAnswers, bad: NavigateAnswers)
    requires !EndsWith(key, LOCAL_SUFFIX)
    requires good.classify(url) == Public && good.delegate == Some(None)
    requires bad.classify(url) == Public && bad.delegate.Some? && !EndsWell(Cloud, bad.delegate.value, bad.reclassify, o)
    requires !bad.blanks && bad.closes == CloseThrows
    ensures var ops := [DoNavigate(url, Some(key), good), DoNavigate(url, Some(key), bad)];
      && Act(Run(o, ops), Some(key), true, true).1 == Ok(Entry(Cloud, key))
      && LastTouch(o, ops, key, Cloud) == LeftOpen
  {
    var first, second := DoNavigate(url, Some(key), good), DoNavigate(url, Some(key), bad);
    assert [first, second] == [first] + [second] && [first][..0] == [];
    assert Run(o, []) == Initial && Run(o, [first]) == Step(Initial, o, first);
    assert [first, second][..1] == [first];
    LastTouchOneMore(o, [first], second, key, Cloud);
  }
}
