/** The backend that sends each browser key to the cloud or the local browser: its routing table, the calls it makes
    on the two backends, and what holds over all runs. Classification, delegate results and clocks are inputs. */
module HybridBackend {
  import opened Wrappers
  import opened Text
  import opened UrlChecks

  datatype Side = Cloud | Local

  datatype Entry = Entry(side: Side, routedId: string)

  /** `judged` is the classification the caller of a navigation acted on; blanking a page needs none. */
  datatype Call =
    | Navigation(side: Side, url: string, id: string, judged: Option<Classification>)
    | Action(side: Side, id: string)
    | SessionClose(side: Side, id: string)
    | BackendClose(side: Side)

  datatype Options = Options(allowPrivateUrls: bool, hybridRouting: bool)

  /** `order` is the insertion order of the routing table. */
  datatype State = State(routes: map<string, Entry>, order: seq<string>, latest: Option<string>, closed: bool,
                         calls: seq<Call>)

  datatype CloseAnswer = NotOffered | Closes | CloseThrows

  /** `classify` is asked about the URL a navigation starts from and `reclassify`, later, about the one it ended on.
      `delegate` is None when the delegate threw, else the URL it ended on, if it said. */
  datatype NavigateAnswers = NavigateAnswers(classify: string -> Classification, delegate: Option<Option<string>>,
                                             reclassify: string -> Classification, blanks: bool, closes: CloseAnswer,
                                             freshKey: string)

  datatype Failure = BackendClosed | NotRoutable | DelegateFailed | UnsafeRedirect | NoSession | NotFound
                   | NotSupported | CloseFailed

  const Initial := State(map[], [], None, false, [])
  const BLANK := "about:blank"
  const LOCAL_SUFFIX := "::local"

  function RoutedId(key: string, side: Side): string { if side == Local then key + LOCAL_SUFFIX else key }

  function Stripped(key: string): string {
    if EndsWith(key, LOCAL_SUFFIX) then key[..|key| - |LOCAL_SUFFIX|] else key
  }

  function Log(st: State, call: Call): State { st.(calls := st.calls + [call]) }

  function Forget(st: State, key: string): State {
    st.(routes := st.routes - {key}, order := Without(st.order, key))
  }

  /** The latest key falls back to the last key still in the table. */
  function Fallback(st: State, key: string): State {
    if st.latest == Some(key) && key !in st.routes
    then st.(latest := if st.order == [] then None else Some(st.order[|st.order| - 1]))
    else st
  }

  function CloseRoute(st: State, key: string, side: Side, a: CloseAnswer): (State, bool) {
    var asked := if a == NotOffered then st else Log(st, SessionClose(side, RoutedId(key, side)));
    if a == CloseThrows then (asked, false)
    else
      var dropped := if key in st.routes && st.routes[key].side == side then Forget(asked, key) else asked;
      (Fallback(dropped, key), true)
  }

  function CloseSession(st: State, key: string, cloud: CloseAnswer, local: CloseAnswer): (State, Result<(), Failure>) {
    var (afterCloud, cloudOk) := CloseRoute(st, key, Cloud, cloud);
    var (afterLocal, localOk) := CloseRoute(afterCloud, key, Local, local);
    (Forget(afterLocal, key), if cloudOk && localOk then Ok(()) else Err(CloseFailed))
  }

  function CloseAll(st: State, cloud: CloseAnswer, local: CloseAnswer): (State, Result<(), Failure>) {
    if st.closed then (st, Ok(()))
    else
      var asked := st.calls + (if cloud == NotOffered then [] else [BackendClose(Cloud)])
                            + (if local == NotOffered then [] else [BackendClose(Local)]);
      (State(map[], [], None, true, asked),
       if cloud == CloseThrows || local == CloseThrows then Err(CloseFailed) else Ok(()))
  }

  /** The route of an action, and the table with that key as the latest one. */
  function Resolve(st: State, sessionId: Option<string>): (State, Result<Entry, Failure>) {
    var key := if sessionId.Some? then sessionId else st.latest;
    if key.None? then (st, Err(NoSession))
    else if Stripped(key.value) !in st.routes then (st, Err(NotFound))
    else (st.(latest := Some(Stripped(key.value))), Ok(st.routes[Stripped(key.value)]))
  }

  /** Some operations look at the closed flag first; after a close the table is empty either way. */
  function Act(st: State, sessionId: Option<string>, checksClosed: bool, supported: bool): (State, Result<Entry, Failure>) {
    if checksClosed && st.closed then (st, Err(BackendClosed))
    else
      var (st', route) := Resolve(st, sessionId);
      if route.Err? then (st', route)
      else if !supported then (st', Err(NotSupported))
      else (Log(st', Action(route.value.side, route.value.routedId)), route)
  }

  function RouteFor(c: Classification, o: Options): Option<Side> {
    match Decide(c, RouterOptions(o.allowPrivateUrls, o.hybridRouting, true))
    case ToCloud => Some(Cloud)
    case ToLocal => Some(Local)
    case RouteBlocked => None
    case RouteInvalid => None
  }

  function KeyFor(st: State, sessionId: Option<string>, freshKey: string): string {
    if sessionId.Some? then sessionId.value else if st.latest.Some? then st.latest.value else freshKey
  }

  function Record(st: State, key: string, side: Side): State {
    st.(routes := st.routes[key := Entry(side, RoutedId(key, side))],
        order := if key in st.routes then st.order else st.order + [key],
        latest := Some(key))
  }

  /** Where a navigation may end: nowhere in particular, or at a URL its own side may show. */
  predicate EndsWell(side: Side, finalUrl: Option<string>, reclassify: string -> Classification, o: Options) {
    finalUrl.None? || IsBlank(finalUrl.value) ||
    (&& !(side == Cloud && reclassify(finalUrl.value) in {PrivateOrInternal, Blocked, InvalidUrl})
     && !(side == Local && reclassify(finalUrl.value) in {Blocked, InvalidUrl})
     && RouteFor(reclassify(finalUrl.value), o).Some?)
  }

  /** After an unsafe ending the page is blanked, or else its session is closed. */
  function Retreat(st: State, key: string, side: Side, a: NavigateAnswers): State {
    var blanked := Log(st, Navigation(side, BLANK, RoutedId(key, side), None));
    if a.blanks then blanked else CloseRoute(blanked, key, side, a.closes).0
  }

  function Navigate(st: State, o: Options, url: string, sessionId: Option<string>, a: NavigateAnswers)
    : (State, Result<(string, Side), Failure>)
  {
    if st.closed then (st, Err(BackendClosed))
    else if RouteFor(a.classify(url), o).None? then (st, Err(NotRoutable))
    else
      var side, key := RouteFor(a.classify(url), o).value, KeyFor(st, sessionId, a.freshKey);
      var asked := Log(st, Navigation(side, url, RoutedId(key, side), Some(a.classify(url))));
      if a.delegate.None? then (asked, Err(DelegateFailed))
      else if !EndsWell(side, a.delegate.value, a.reclassify, o) then (Retreat(asked, key, side, a), Err(UnsafeRedirect))
      else (Record(asked, key, side), Ok((key, side)))
  }

  datatype Op =
    | DoNavigate(url: string, sessionId: Option<string>, answers: NavigateAnswers)
    | DoAct(sessionId: Option<string>, checksClosed: bool, supported: bool)
    | DoCloseSession(key: string, cloud: CloseAnswer, local: CloseAnswer)
    | DoClose(cloud: CloseAnswer, local: CloseAnswer)

  function Step(st: State, o: Options, op: Op): State {
    match op
    case DoNavigate(url, sessionId, a) => Navigate(st, o, url, sessionId, a).0
    case DoAct(sessionId, checks, supported) => Act(st, sessionId, checks, supported).0
    case DoCloseSession(key, cloud, local) => CloseSession(st, key, cloud, local).0
    case DoClose(cloud, local) => CloseAll(st, cloud, local).0
  }

  function Run(o: Options, ops: seq<Op>): State {
    if ops == [] then Initial else Step(Run(o, ops[..|ops| - 1]), o, ops[|ops| - 1])
  }

  // ---------------------------------------------------------------- which URLs a browser is asked to open

  /** The cloud opens public or blank pages; the local browser opens private or blank pages, and only where private
      URLs and hybrid routing are both allowed. */
  predicate CallIsSafe(call: Call, o: Options) {
    call.Navigation? ==>
      match call.side
      case Cloud => call.url == BLANK || call.judged == Some(Public)
      case Local => o.allowPrivateUrls && o.hybridRouting && (call.url == BLANK || call.judged == Some(PrivateOrInternal))
  }

  ghost predicate CallsAreSafe(st: State, o: Options) { forall c :: c in st.calls ==> CallIsSafe(c, o) }

  lemma RouteForIff(c: Classification, o: Options)
    ensures RouteFor(c, o) == Some(Cloud) <==> c == Public
    ensures RouteFor(c, o) == Some(Local) <==> c == PrivateOrInternal && o.allowPrivateUrls && o.hybridRouting
  {}

  lemma CloseRouteIsSafe(st: State, o: Options, key: string, side: Side, a: CloseAnswer)
    requires CallsAreSafe(st, o)
    ensures CallsAreSafe(CloseRoute(st, key, side, a).0, o)
  {}

  lemma NavigateIsSafe(st: State, o: Options, url: string, sessionId: Option<string>, a: NavigateAnswers)
    requires CallsAreSafe(st, o)
    ensures CallsAreSafe(Navigate(st, o, url, sessionId, a).0, o)
  {
    RouteForIff(a.classify(url), o);
    if !st.closed && RouteFor(a.classify(url), o).Some? {
      var side, key := RouteFor(a.classify(url), o).value, KeyFor(st, sessionId, a.freshKey);
      var asked := Log(st, Navigation(side, url, RoutedId(key, side), Some(a.classify(url))));
      var blanked := Log(asked, Navigation(side, BLANK, RoutedId(key, side), None));
      assert CallsAreSafe(asked, o);
      assert CallsAreSafe(blanked, o);
      CloseRouteIsSafe(blanked, o, key, side, a.closes);
    }
  }

  lemma StepIsSafe(st: State, o: Options, op: Op)
    requires CallsAreSafe(st, o)
    ensures CallsAreSafe(Step(st, o, op), o)
  {
    match op
    case DoNavigate(url, sessionId, a) => NavigateIsSafe(st, o, url, sessionId, a);
    case DoCloseSession(key, cloud, local) =>
      CloseRouteIsSafe(st, o, key, Cloud, cloud);
      CloseRouteIsSafe(CloseRoute(st, key, Cloud, cloud).0, o, key, Local, local);
    case DoAct(_, _, _) =>
    case DoClose(_, _) =>
  }

  /** Over every run, whatever the pages, the resolver and the delegates answer. */
  lemma {:induction false} RoutingIsSafe(o: Options, ops: seq<Op>)
    ensures CallsAreSafe(Run(o, ops), o)
  {
    if ops != [] {
      RoutingIsSafe(o, ops[..|ops| - 1]);
      StepIsSafe(Run(o, ops[..|ops| - 1]), o, ops[|ops| - 1]);
    }
  }

  /** A navigation that succeeds in the cloud and says where it ended, ended on a public URL. */
  lemma CloudEndsPublic(st: State, o: Options, url: string, sessionId: Option<string>, a: NavigateAnswers)
    requires Navigate(st, o, url, sessionId, a).1.Ok?
    ensures var (_, side) := Navigate(st, o, url, sessionId, a).1.value;
      var ended := a.delegate.value;
      ended.Some? && !IsBlank(ended.value) ==>
        if side == Cloud then a.reclassify(ended.value) == Public
        else a.reclassify(ended.value) == Public || (a.reclassify(ended.value) == PrivateOrInternal && o.allowPrivateUrls)
  {
    RouteForIff(a.classify(url), o);
  }

  // ---------------------------------------------------------------- which browser an action reaches

  ghost predicate TableOk(st: State) {
    && NoDuplicates(st.order)
    && (forall k :: k in st.routes <==> k in st.order)
    && (forall k :: k in st.routes ==> st.routes[k].routedId == RoutedId(k, st.routes[k].side))
    && (st.closed ==> st.routes == map[])
  }

  predicate Navigates(st: State, o: Options, op: Op, key: string, side: Side) {
    op.DoNavigate? && Navigate(st, o, op.url, op.sessionId, op.answers).1 == Ok((key, side))
  }

  /** What makes the table forget a key: closing it, closing everything, or a navigation on the key's own side that
      ended badly, could not be blanked, and had its session closed. */
  predicate Forgets(st: State, o: Options, op: Op, key: string)
    requires key in st.routes
  {
    match op
    case DoCloseSession(k, _, _) => k == key
    case DoClose(_, _) => !st.closed
    case DoAct(_, _, _) => false
    case DoNavigate(url, sessionId, a) =>
      && Navigate(st, o, url, sessionId, a).1 == Err(UnsafeRedirect)
      && KeyFor(st, sessionId, a.freshKey) == key
      && RouteFor(a.classify(url), o) == Some(st.routes[key].side)
      && !a.blanks && a.closes != CloseThrows
  }

  lemma CloseRouteKeeps(st: State, key: string, side: Side, a: CloseAnswer)
    requires TableOk(st)
    ensures var r := CloseRoute(st, key, side, a).0;
      && TableOk(r) && r.closed == st.closed
      && (forall k :: k in r.routes ==> k in st.routes && r.routes[k] == st.routes[k])
      && (forall k :: k in st.routes && k !in r.routes ==> k == key && st.routes[k].side == side && a != CloseThrows)
      && (a != CloseThrows && key in st.routes && st.routes[key].side == side ==> key !in r.routes)
  {}

  lemma NavigateKeepsTable(st: State, o: Options, url: string, sessionId: Option<string>, a: NavigateAnswers)
    requires TableOk(st)
    ensures TableOk(Navigate(st, o, url, sessionId, a).0)
  {
    if !st.closed && RouteFor(a.classify(url), o).Some? {
      var side, key := RouteFor(a.classify(url), o).value, KeyFor(st, sessionId, a.freshKey);
      var asked := Log(st, Navigation(side, url, RoutedId(key, side), Some(a.classify(url))));
      CloseRouteKeeps(Log(asked, Navigation(side, BLANK, RoutedId(key, side), None)), key, side, a.closes);
      RecordKeeps(asked, key, side);
    }
  }

  lemma RecordKeeps(st: State, key: string, side: Side)
    requires TableOk(st) && !st.closed
    ensures TableOk(Record(st, key, side))
  {}

  lemma StepKeepsTable(st: State, o: Options, op: Op)
    requires TableOk(st)
    ensures TableOk(Step(st, o, op))
  {
    match op
    case DoNavigate(url, sessionId, a) => NavigateKeepsTable(st, o, url, sessionId, a);
    case DoCloseSession(key, cloud, local) =>
      CloseRouteKeeps(st, key, Cloud, cloud);
      CloseRouteKeeps(CloseRoute(st, key, Cloud, cloud).0, key, Local, local);
    case DoAct(_, _, _) =>
    case DoClose(_, _) =>
  }

  /** One operation leaves a key's route, replaces it by a successful navigation, or forgets it: exactly as named. */
  lemma StepMovesRoute(st: State, o: Options, op: Op, key: string)
    requires TableOk(st)
    ensures var r := Step(st, o, op);
      if exists side :: Navigates(st, o, op, key, side) then
        key in r.routes && Navigates(st, o, op, key, r.routes[key].side)
      else if key !in st.routes || Forgets(st, o, op, key) then key !in r.routes
      else key in r.routes && r.routes[key] == st.routes[key]
  {
    match op
    case DoCloseSession(k, cloud, local) =>
      CloseRouteKeeps(st, k, Cloud, cloud);
      CloseRouteKeeps(CloseRoute(st, k, Cloud, cloud).0, k, Local, local);
    case DoNavigate(url, sessionId, a) => NavigateMovesRoute(st, o, op, key);
    case _ =>
  }

  lemma NavigateMovesRoute(st: State, o: Options, op: Op, key: string)
    requires TableOk(st) && op.DoNavigate?
    ensures var r := Step(st, o, op);
      if exists side :: Navigates(st, o, op, key, side) then
        key in r.routes && Navigates(st, o, op, key, r.routes[key].side)
      else if key !in st.routes || Forgets(st, o, op, key) then key !in r.routes
      else key in r.routes && r.routes[key] == st.routes[key]
  {
    var a, url := op.answers, op.url;
    if !st.closed && RouteFor(a.classify(url), o).Some? {
      var side, k := RouteFor(a.classify(url), o).value, KeyFor(st, op.sessionId, a.freshKey);
      var asked := Log(st, Navigation(side, url, RoutedId(k, side), Some(a.classify(url))));
      if a.delegate.Some? {
        if EndsWell(side, a.delegate.value, a.reclassify, o) {
          assert Navigates(st, o, op, k, side);
        } else {
          CloseRouteKeeps(Log(asked, Navigation(side, BLANK, RoutedId(k, side), None)), k, side, a.closes);
        }
      }
    }
  }

  lemma {:induction false} TableHolds(o: Options, ops: seq<Op>)
    ensures TableOk(Run(o, ops))
  {
    if ops != [] {
      TableHolds(o, ops[..|ops| - 1]);
      StepKeepsTable(Run(o, ops[..|ops| - 1]), o, ops[|ops| - 1]);
    }
  }

  /** The operation at `i` is the last successful navigation of the key. */
  ghost predicate LastNavigation(o: Options, ops: seq<Op>, key: string, side: Side, i: nat) {
    && i < |ops| && Navigates(Run(o, ops[..i]), o, ops[i], key, side)
    && forall j, s :: i < j < |ops| ==> !Navigates(Run(o, ops[..j]), o, ops[j], key, s)
  }

  /** A key has a route exactly when it was navigated and not forgotten since, and the route is the one its last
      successful navigation took. */
  lemma {:induction false} RouteIsLastNavigation(o: Options, ops: seq<Op>, key: string)
    requires key in Run(o, ops).routes
    ensures exists i :: LastNavigation(o, ops, key, Run(o, ops).routes[key].side, i)
  {
    var front, op := ops[..|ops| - 1], ops[|ops| - 1];
    var before, side := Run(o, front), Run(o, ops).routes[key].side;
    assert ops == front + [op];
    RouteBefore(o, front, op, key);
    if Navigates(before, o, op, key, side) {
      BecomesLast(o, front, before, op, key, side);
    } else {
      RouteIsLastNavigation(o, front, key);
      var i :| LastNavigation(o, front, key, side, i);
      StaysLast(o, front, before, op, key, side, i);
    }
  }

  lemma RouteBefore(o: Options, front: seq<Op>, op: Op, key: string)
    requires key in Run(o, front + [op]).routes
    ensures var before, entry := Run(o, front), Run(o, front + [op]).routes[key];
      || Navigates(before, o, op, key, entry.side)
      || (&& key in before.routes && before.routes[key] == entry
          && forall s :: !Navigates(before, o, op, key, s))
  {
    assert (front + [op])[..|front|] == front;
    TableHolds(o, front);
    StepMovesRoute(Run(o, front), o, op, key);
  }

  lemma BecomesLast(o: Options, front: seq<Op>, before: State, op: Op, key: string, side: Side)
    requires before == Run(o, front) && Navigates(before, o, op, key, side)
    ensures LastNavigation(o, front + [op], key, side, |front|)
  {
    assert (front + [op])[..|front|] == front;
  }

  lemma StaysLast(o: Options, front: seq<Op>, before: State, op: Op, key: string, side: Side, i: nat)
    requires before == Run(o, front) && LastNavigation(o, front, key, side, i)
    requires forall s :: !Navigates(before, o, op, key, s)
    ensures LastNavigation(o, front + [op], key, side, i)
  {
    var ops := front + [op];
    assert forall j :: 0 <= j <= |front| ==> front[..j] == ops[..j];
    assert ops[..|front|] == front;
    assert Navigates(Run(o, front[..i]), o, front[i], key, side);
    forall j, s | i < j < |ops| ensures !Navigates(Run(o, ops[..j]), o, ops[j], key, s) {
      if j < |front| { assert !Navigates(Run(o, front[..j]), o, front[j], key, s); }
    }
  }

  /** The operation neither navigates the key successfully nor forgets it. */
  ghost predicate LeavesRoute(st: State, o: Options, op: Op, key: string) {
    (forall s :: !Navigates(st, o, op, key, s)) && (key in st.routes ==> !Forgets(st, o, op, key))
  }

  /** A navigated key keeps its route until it is navigated again or forgotten. */
  lemma NavigatedStaysRouted(o: Options, ops: seq<Op>, key: string, side: Side, i: nat, n: nat)
    requires i < n <= |ops| && Navigates(Run(o, ops[..i]), o, ops[i], key, side)
    requires forall j :: i < j < n ==> LeavesRoute(Run(o, ops[..j]), o, ops[j], key)
    ensures RoutedTo(Run(o, ops[..n]), key, side)
  {
    RunNext(o, ops, i + 1);
    RouteStarts(o, ops[..i], ops[i], key, side);
    RouteLasts(o, ops, key, side, i + 1, n);
  }

  lemma RunNext(o: Options, ops: seq<Op>, n: nat)
    requires 0 < n <= |ops|
    ensures Run(o, ops[..n]) == Step(Run(o, ops[..n - 1]), o, ops[n - 1])
  {
    assert ops[..n][..n - 1] == ops[..n - 1];
  }

  lemma RouteLastsOnce(o: Options, ops: seq<Op>, key: string, side: Side, n: nat)
    requires 0 < n <= |ops| && RoutedTo(Run(o, ops[..n - 1]), key, side)
    requires LeavesRoute(Run(o, ops[..n - 1]), o, ops[n - 1], key)
    ensures RoutedTo(Run(o, ops[..n]), key, side)
  {
    RouteStays(o, ops[..n - 1], ops[n - 1], key, side);
    RunNext(o, ops, n);
  }

  lemma {:induction false} RouteLasts(o: Options, ops: seq<Op>, key: string, side: Side, i: nat, n: nat)
    requires i <= n <= |ops| && RoutedTo(Run(o, ops[..i]), key, side)
    requires forall j :: i <= j < n ==> LeavesRoute(Run(o, ops[..j]), o, ops[j], key)
    ensures RoutedTo(Run(o, ops[..n]), key, side)
    decreases n
  {
    if i < n {
      RouteLasts(o, ops, key, side, i, n - 1);
      RouteLastsOnce(o, ops, key, side, n);
    }
  }

  predicate RoutedTo(st: State, key: string, side: Side) {
    key in st.routes && st.routes[key] == Entry(side, RoutedId(key, side))
  }

  lemma RouteStarts(o: Options, front: seq<Op>, op: Op, key: string, side: Side)
    requires Navigates(Run(o, front), o, op, key, side)
    ensures RoutedTo(Step(Run(o, front), o, op), key, side)
  {
    TableHolds(o, front);
    StepMovesRoute(Run(o, front), o, op, key);
    StepKeepsTable(Run(o, front), o, op);
  }

  lemma RouteStays(o: Options, front: seq<Op>, op: Op, key: string, side: Side)
    requires RoutedTo(Run(o, front), key, side) && LeavesRoute(Run(o, front), o, op, key)
    ensures RoutedTo(Step(Run(o, front), o, op), key, side)
  {
    TableHolds(o, front);
    StepMovesRoute(Run(o, front), o, op, key);
  }

  /** An action reaches the browser and session of its key's last successful navigation. The key is the id without
      the local suffix, so for an id that does not carry the suffix it is the id itself. */
  lemma ActionsFollowNavigation(o: Options, ops: seq<Op>, id: string, checks: bool, supported: bool)
    ensures var st, key := Run(o, ops), Stripped(id);
      var (st', r) := Act(st, Some(id), checks, supported);
      && (r.Ok? <==> key in st.routes && supported)
      && (r.Ok? ==> st'.calls == st.calls + [Action(r.value.side, RoutedId(key, r.value.side))]
                    && exists i :: LastNavigation(o, ops, key, r.value.side, i))
      && (r.Err? ==> st'.calls == st.calls)
      && (!EndsWith(id, LOCAL_SUFFIX) ==> key == id)
      && (forall k: string :: id == k + "::local" ==> key == k)
  {
    TableHolds(o, ops);
    var key := Stripped(id);
    forall k: string | id == k + "::local" ensures key == k { assert id[|k|..] == LOCAL_SUFFIX; }
    if key in Run(o, ops).routes { RouteIsLastNavigation(o, ops, key); }
  }

  /** An action on a key in the table reaches the key's own entry exactly when the key does not carry the suffix; else it
      silently reaches the entry of the key without it, or finds none. */
  lemma ActionReachesOwnEntryIff(o: Options, ops: seq<Op>, key: string, checks: bool)
    requires key in Run(o, ops).routes
    ensures var st, r := Run(o, ops), Act(Run(o, ops), Some(key), checks, true).1;
      && (r == Ok(st.routes[key]) <==> !EndsWith(key, LOCAL_SUFFIX))
      && (EndsWith(key, LOCAL_SUFFIX) ==>
            r == (if Stripped(key) in st.routes then Ok(st.routes[Stripped(key)]) else Err(NotFound)))
  {
    TableHolds(o, ops);
    var st := Run(o, ops);
    if EndsWith(key, LOCAL_SUFFIX) {
      assert |LOCAL_SUFFIX| == 7 && |Stripped(key)| < |key|;
      if Stripped(key) in st.routes { EntriesDiffer(st, key, Stripped(key)); }
    }
  }

  lemma EntriesDiffer(st: State, k: string, l: string)
    requires TableOk(st) && k in st.routes && l in st.routes && k != l
    ensures st.routes[k] != st.routes[l]
  {
    if st.routes[k].side == st.routes[l].side == Local {
      assert (k + LOCAL_SUFFIX)[..|k|] == k && (l + LOCAL_SUFFIX)[..|l|] == l;
    }
  }

  /** A key that carries the suffix can be navigated, but then its actions find no session. */
  lemma SuffixedKeyIsLost(o: Options, url: string, key: string, a: NavigateAnswers)
    requires a.classify(url) == Public && a.delegate == Some(None)
    ensures var suffixed := key + LOCAL_SUFFIX;
      var st := Run(o, [DoNavigate(url, Some(suffixed), a)]);
      && suffixed in st.routes
      && Act(st, Some(suffixed), true, true).1 == Err(NotFound)
  {
    var suffixed := key + LOCAL_SUFFIX;
    var op := DoNavigate(url, Some(suffixed), a);
    assert [op][..0] == [];
    assert Run(o, []) == Initial && Run(o, [op]) == Step(Initial, o, op);
    assert Stripped(suffixed) == key && |key| < |suffixed|;
  }
}
