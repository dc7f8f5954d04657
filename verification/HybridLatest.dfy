/** Which browser key an operation without a session id uses: over every run, the key last taken, and after it is closed
    the routed key that was added last. */
module HybridLatest {
  import opened Wrappers
  import opened Text
  import opened UrlChecks
  import opened HybridBackend

  // ---------------------------------------------------------------- taking and losing the key in use

  /** The operation takes `key`: it navigates under it successfully, or acts on its route, supported or not. */
  predicate Takes(st: State, o: Options, op: Op, key: string) {
    match op
    case DoNavigate(url, sessionId, a) =>
      var r := Navigate(st, o, url, sessionId, a).1;
      r == Ok((key, Cloud)) || r == Ok((key, Local))
    case DoAct(sessionId, checks, _) =>
      var r := Act(st, sessionId, checks, true).1;
      r == Ok(Entry(Cloud, key)) || r == Ok(Entry(Local, key + "::local"))
    case _ => false
  }

  /** How the close of the side that serves `key` went. */
  function OwnClose(st: State, key: string, cloud: CloseAnswer, local: CloseAnswer): CloseAnswer
    requires key in st.routes
  {
    if st.routes[key].side == Cloud then cloud else local
  }

  predicate GoesThrough(st: State, key: string, cloud: CloseAnswer, local: CloseAnswer) {
    if key in st.routes then OwnClose(st, key, cloud, local) != CloseThrows
    else !(cloud == CloseThrows && local == CloseThrows)
  }

  /** The operation closes the session of the key in use and the close goes through: where the key is routed, on the side
      that serves it. A navigation does so when it ends badly and the page cannot be blanked. */
  predicate ClosesKey(st: State, o: Options, op: Op, key: string) {
    match op
    case DoCloseSession(k, cloud, local) => k == key && GoesThrough(st, key, cloud, local)
    case DoNavigate(url, sessionId, a) =>
      && Navigate(st, o, url, sessionId, a).1 == Err(UnsafeRedirect) && !a.blanks && a.closes != CloseThrows
      && (sessionId == Some(key) || (sessionId.None? && st.latest == Some(key)))
      && (key in st.routes ==> RouteFor(a.classify(url), o) == Some(st.routes[key].side))
    case _ => false
  }

  predicate ClosesAll(st: State, op: Op) { op.DoClose? && !st.closed }

  function LastOf(order: seq<string>): Option<string> { if order == [] then None else Some(order[|order| - 1]) }

  lemma ActLatest(st: State, o: Options, op: Op)
    requires TableOk(st) && op.DoAct?
    ensures var r := Step(st, o, op);
      && (forall k :: Takes(st, o, op, k) ==> r.latest == Some(k))
      && ((forall k :: !Takes(st, o, op, k)) ==> r.latest == st.latest)
      && r.order == st.order && r.routes == st.routes
  {
    var sid := if op.sessionId.Some? then op.sessionId else st.latest;
    if sid.Some? && Stripped(sid.value) in st.routes {
      var k := Stripped(sid.value);
      assert st.routes[k].routedId == RoutedId(k, st.routes[k].side);
      SuffixTells(k);
      if !op.checksClosed || !st.closed { assert Takes(st, o, op, k); }
    }
  }

  /** A routed id tells its key. */
  lemma SuffixTells(k: string)
    ensures forall l: string :: k + "::local" == l + "::local" ==> k == l
  {
    forall l: string | k + "::local" == l + "::local" ensures k == l {
      assert k == (k + "::local")[..|k|] && l == (l + "::local")[..|l|];
    }
  }

  /** Once the key is gone from the table, closing its other side leaves the table alone and falls back if it can. */
  lemma CloseRouteAgain(st: State, key: string, side: Side, a: CloseAnswer)
    requires TableOk(st) && key !in st.routes
    ensures var r := CloseRoute(st, key, side, a).0;
      && r.routes == st.routes && r.order == st.order
      && (st.latest == Some(key) && a != CloseThrows ==> r.latest == LastOf(st.order))
      && (st.latest != Some(key) || a == CloseThrows ==> r.latest == st.latest)
  {}

  /** Closing the side that does not serve the key changes nothing. */
  lemma CloseOtherRoute(st: State, key: string, side: Side, a: CloseAnswer)
    requires TableOk(st) && key in st.routes && st.routes[key].side != side
    ensures var r := CloseRoute(st, key, side, a).0;
      r.routes == st.routes && r.order == st.order && r.latest == st.latest
  {}

  lemma CloseOwnRoute(st: State, key: string, side: Side, a: CloseAnswer)
    requires TableOk(st) && key in st.routes && st.routes[key].side == side && a != CloseThrows
    ensures var r := CloseRoute(st, key, side, a).0;
      && key !in r.routes && r.order == Without(st.order, key)
      && r.latest == if st.latest == Some(key) then LastOf(r.order) else st.latest
  {
    var dropped := Forget(st, key);
    assert key !in dropped.routes && dropped.order == Without(st.order, key) && dropped.latest == st.latest;
  }

  lemma CloseThrowing(st: State, key: string, side: Side)
    ensures var r := CloseRoute(st, key, side, CloseThrows).0;
      r.routes == st.routes && r.order == st.order && r.latest == st.latest
  {}

  lemma LastIsAnother(order: seq<string>, key: string)
    requires key !in order
    ensures LastOf(order) != Some(key)
  {
    if order != [] { assert order[|order| - 1] in order; }
  }

  predicate Fallen(st: State, r: State, key: string, falls: bool) {
    && r.order == Without(st.order, key)
    && (if st.latest == Some(key) && falls then r.latest == LastOf(r.order) else r.latest == st.latest)
  }

  lemma CloseUnrouted(st: State, key: string, cloud: CloseAnswer, local: CloseAnswer)
    requires TableOk(st) && key !in st.routes
    ensures Fallen(st, CloseSession(st, key, cloud, local).0, key, !(cloud == CloseThrows && local == CloseThrows))
  {
    var first := CloseRoute(st, key, Cloud, cloud).0;
    CloseRouteKeeps(st, key, Cloud, cloud);
    WithoutAbsent(st.order, key);
    LastIsAnother(st.order, key);
    CloseRouteAgain(st, key, Cloud, cloud);
    CloseRouteAgain(first, key, Local, local);
  }

  lemma CloseCloudRouted(st: State, key: string, cloud: CloseAnswer, local: CloseAnswer)
    requires TableOk(st) && key in st.routes && st.routes[key].side == Cloud
    ensures Fallen(st, CloseSession(st, key, cloud, local).0, key, cloud != CloseThrows)
  {
    var first := CloseRoute(st, key, Cloud, cloud).0;
    CloseRouteKeeps(st, key, Cloud, cloud);
    WithoutAbsent(st.order, key);
    LastIsAnother(Without(st.order, key), key);
    if cloud == CloseThrows {
      CloseThrowing(st, key, Cloud);
      CloseOtherRoute(first, key, Local, local);
    } else {
      CloseOwnRoute(st, key, Cloud, cloud);
      CloseRouteAgain(first, key, Local, local);
    }
  }

  lemma CloseLocalRouted(st: State, key: string, cloud: CloseAnswer, local: CloseAnswer)
    requires TableOk(st) && key in st.routes && st.routes[key].side == Local
    ensures Fallen(st, CloseSession(st, key, cloud, local).0, key, local != CloseThrows)
  {
    var first := CloseRoute(st, key, Cloud, cloud).0;
    CloseRouteKeeps(st, key, Cloud, cloud);
    WithoutAbsent(st.order, key);
    CloseOtherRoute(st, key, Cloud, cloud);
    if local == CloseThrows { CloseThrowing(first, key, Local); } else { CloseOwnRoute(first, key, Local, local); }
  }

  lemma CloseSessionLatest(st: State, key: string, cloud: CloseAnswer, local: CloseAnswer)
    requires TableOk(st)
    ensures Fallen(st, CloseSession(st, key, cloud, local).0, key, GoesThrough(st, key, cloud, local))
  {
    if key !in st.routes {
      CloseUnrouted(st, key, cloud, local);
    } else if st.routes[key].side == Cloud {
      CloseCloudRouted(st, key, cloud, local);
    } else {
      CloseLocalRouted(st, key, cloud, local);
    }
  }

  lemma {:induction false} WithoutAbsent(s: seq<string>, x: string)
    ensures x !in s ==> Without(s, x) == s
    ensures Without(Without(s, x), x) == Without(s, x)
  {
    if s != [] {
      WithoutAbsent(s[1..], x);
      assert s == [s[0]] + s[1..];
      if s[0] != x {
        var rest := Without(s[1..], x);
        assert ([s[0]] + rest)[1..] == rest;
      }
    }
  }

  /** The key a navigation is made under. */
  function NavigatedKey(st: State, sessionId: Option<string>, freshKey: string): string {
    if sessionId.Some? then sessionId.value else if st.latest.Some? then st.latest.value else freshKey
  }

  lemma NavigateLatest(st: State, o: Options, op: Op)
    requires TableOk(st) && op.DoNavigate?
    ensures var r := Step(st, o, op);
      && (forall k :: Takes(st, o, op, k) ==> r.latest == Some(k))
      && ((forall k :: !Takes(st, o, op, k)) ==>
            if st.latest.Some? && ClosesKey(st, o, op, st.latest.value) then r.latest == LastOf(r.order)
            else r.latest == st.latest)
  {
    var a, url := op.answers, op.url;
    if !st.closed && RouteFor(a.classify(url), o).Some? {
      var side, key := RouteFor(a.classify(url), o).value, NavigatedKey(st, op.sessionId, a.freshKey);
      var asked := Log(st, Navigation(side, url, RoutedId(key, side), Some(a.classify(url))));
      if a.delegate.Some? {
        if EndsWell(side, a.delegate.value, a.reclassify, o) {
          assert Navigate(st, o, url, op.sessionId, a).1 == Ok((key, side));
          assert Takes(st, o, op, key);
        } else {
          RetreatLatest(asked, key, side, a);
        }
      }
    }
  }

  lemma RetreatLatest(st: State, key: string, side: Side, a: NavigateAnswers)
    requires TableOk(st)
    ensures var r := Retreat(st, key, side, a);
      if !a.blanks && a.closes != CloseThrows && st.latest == Some(key) && (key in st.routes ==> st.routes[key].side == side)
      then r.latest == LastOf(r.order) else r.latest == st.latest
  {
    var blanked := Log(st, Navigation(side, BLANK, RoutedId(key, side), None));
    if key !in st.routes {
      CloseRouteAgain(blanked, key, side, a.closes);
    } else if st.routes[key].side == side {
      if a.closes == CloseThrows { CloseThrowing(blanked, key, side); } else { CloseOwnRoute(blanked, key, side, a.closes); }
    } else {
      CloseOtherRoute(blanked, key, side, a.closes);
    }
  }

  /** What one operation does to the key in use: it is the key the operation takes; none after everything is closed; the
      last one of the table's order when its session was closed; and else the one there was. */
  lemma StepLatest(st: State, o: Options, op: Op)
    requires TableOk(st)
    ensures var r := Step(st, o, op);
      && (forall k :: Takes(st, o, op, k) ==> r.latest == Some(k))
      && ((forall k :: !Takes(st, o, op, k)) ==>
            if ClosesAll(st, op) then r.latest.None?
            else if st.latest.Some? && ClosesKey(st, o, op, st.latest.value) then r.latest == LastOf(r.order)
            else r.latest == st.latest)
  {
    match op
    case DoNavigate(_, _, _) => NavigateLatest(st, o, op);
    case DoAct(_, _, _) => ActLatest(st, o, op);
    case DoCloseSession(key, cloud, local) => CloseSessionLatest(st, key, cloud, local);
    case DoClose(_, _) =>
  }

  // ---------------------------------------------------------------- when each routed key was added

  /** For each routed key, the position of the operation that added it to the table. */
  function Ages(o: Options, ops: seq<Op>): (r: map<string, nat>)
    ensures r.Keys == Run(o, ops).routes.Keys
    ensures forall k :: k in r ==> r[k] < |ops|
    decreases |ops|
  {
    if ops == [] then map[]
    else
      var before := Ages(o, ops[..|ops| - 1]);
      map k | k in Run(o, ops).routes :: if k in before then before[k] else |ops| - 1
  }

  predicate SortedBy(order: seq<string>, ages: map<string, nat>) {
    && (forall p :: 0 <= p < |order| ==> order[p] in ages)
    && (forall p, q :: 0 <= p < q < |order| ==> ages[order[p]] < ages[order[q]])
  }

  lemma {:induction false} WithoutSorted(order: seq<string>, k: string, ages: map<string, nat>)
    requires SortedBy(order, ages)
    ensures SortedBy(Without(order, k), ages)
  {
    if order != [] {
      var tail, rest := order[1..], Without(order[1..], k);
      WithoutSorted(tail, k, ages);
      assert order == [order[0]] + tail;
      forall p | 0 <= p < |rest| ensures ages[order[0]] < ages[rest[p]] {
        assert rest[p] in tail;
        var q :| 0 <= q < |tail| && tail[q] == rest[p];
        assert order[q + 1] == rest[p];
      }
    }
  }

  lemma NavigateOrder(st: State, o: Options, url: string, sessionId: Option<string>, a: NavigateAnswers, key: string)
    requires TableOk(st) && key == NavigatedKey(st, sessionId, a.freshKey)
    ensures var r := Navigate(st, o, url, sessionId, a).0;
      r.order == st.order || r.order == Without(st.order, key) || (key !in st.order && r.order == st.order + [key])
  {
    if !st.closed && RouteFor(a.classify(url), o).Some? && a.delegate.Some? {
      var side := RouteFor(a.classify(url), o).value;
      var asked := Log(st, Navigation(side, url, RoutedId(key, side), Some(a.classify(url))));
      RetreatOrder(asked, key, side, a);
      RecordOrder(asked, key, side);
    }
  }

  lemma RetreatOrder(st: State, key: string, side: Side, a: NavigateAnswers)
    ensures Retreat(st, key, side, a).order in {st.order, Without(st.order, key)}
  {
    CloseRouteOrder(Log(st, Navigation(side, BLANK, RoutedId(key, side), None)), key, side, a.closes);
  }

  lemma RecordOrder(st: State, key: string, side: Side)
    ensures Record(st, key, side).order == if key in st.routes then st.order else st.order + [key]
  {}

  lemma CloseRouteOrder(st: State, key: string, side: Side, a: CloseAnswer)
    ensures CloseRoute(st, key, side, a).0.order in {st.order, Without(st.order, key)}
  {}

  /** One operation leaves the order of the keys, takes one out, empties it, or adds one at the end. */
  lemma StepOrder(st: State, o: Options, op: Op)
    requires TableOk(st)
    ensures var r := Step(st, o, op);
      || r.order == st.order || r.order == []
      || (exists k :: r.order == Without(st.order, k))
      || (exists k :: k !in st.order && r.order == st.order + [k])
  {
    match op
    case DoNavigate(url, sessionId, a) =>
      var key := NavigatedKey(st, sessionId, a.freshKey);
      NavigateOrder(st, o, url, sessionId, a, key);
    case DoCloseSession(key, cloud, local) =>
      CloseSessionLatest(st, key, cloud, local);
      assert Step(st, o, op).order == Without(st.order, key);
    case _ =>
  }

  lemma OrderStays(order: seq<string>, next: seq<string>, ages: map<string, nat>, later: map<string, nat>)
    requires SortedBy(order, ages)
    requires next == order || next == [] || exists k :: next == Without(order, k)
    requires forall k :: k in next ==> k in later && (k in ages ==> later[k] == ages[k])
    ensures SortedBy(next, later)
  {
    if k :| next == Without(order, k) { WithoutSorted(order, k, ages); }
  }

  lemma OrderGrows(order: seq<string>, k: string, ages: map<string, nat>, later: map<string, nat>, n: nat)
    requires SortedBy(order, ages) && k !in ages
    requires forall l :: l in order ==> l in later && later[l] == ages[l] < n
    requires k in later && later[k] == n
    ensures SortedBy(order + [k], later)
  {}

  /** The table's order is the order in which its keys were added. */
  lemma {:induction false} OrderIsByAge(o: Options, ops: seq<Op>)
    ensures SortedBy(Run(o, ops).order, Ages(o, ops))
    decreases |ops|
  {
    if ops != [] {
      var front, op := ops[..|ops| - 1], ops[|ops| - 1];
      var st, r := Run(o, front), Run(o, ops);
      OrderIsByAge(o, front);
      TableHolds(o, front);
      TableHolds(o, ops);
      StepOrder(st, o, op);
      if k :| k !in st.order && r.order == st.order + [k] {
        OrderGrows(st.order, k, Ages(o, front), Ages(o, ops), |front|);
      } else {
        OrderStays(st.order, r.order, Ages(o, front), Ages(o, ops));
      }
    }
  }

  /** `key` is routed and no routed key was added later. */
  predicate MostRecent(o: Options, ops: seq<Op>, key: string) {
    key in Run(o, ops).routes && forall k :: k in Run(o, ops).routes ==> Ages(o, ops)[k] <= Ages(o, ops)[key]
  }

  lemma LastIsMostRecent(o: Options, ops: seq<Op>)
    ensures LastOf(Run(o, ops).order).None? <==> Run(o, ops).routes == map[]
    ensures LastOf(Run(o, ops).order).Some? ==> MostRecent(o, ops, LastOf(Run(o, ops).order).value)
  {
    TableHolds(o, ops);
    OrderIsByAge(o, ops);
    LastIsOldest(Run(o, ops).order, Ages(o, ops));
    TableEmptyIff(Run(o, ops));
  }

  lemma TableEmptyIff(st: State)
    requires TableOk(st)
    ensures LastOf(st.order).None? <==> st.routes == map[]
  {
    if st.order != [] { assert st.order[0] in st.order; }
  }

  lemma LastIsOldest(order: seq<string>, ages: map<string, nat>)
    requires SortedBy(order, ages) && forall k :: k in ages ==> k in order
    ensures LastOf(order).Some? ==> LastOf(order).value in ages && forall k :: k in ages ==> ages[k] <= ages[LastOf(order).value]
  {
    forall k | k in ages ensures ages[k] <= ages[order[|order| - 1]] {
      var p :| 0 <= p < |order| && order[p] == k;
    }
  }

  // ---------------------------------------------------------------- over whole runs

  /** What an operation without a session id does, told by the key in use. */
  lemma WithoutIdUses(st: State, o: Options, checks: bool, supported: bool, url: string, a: NavigateAnswers)
    ensures st.latest.Some? ==>
      && Act(st, None, checks, supported) == Act(st, st.latest, checks, supported)
      && Navigate(st, o, url, None, a) == Navigate(st, o, url, st.latest, a)
    ensures st.latest.None? ==>
      && Act(st, None, checks, supported) == (st, Err(if checks && st.closed then BackendClosed else NoSession))
      && Navigate(st, o, url, None, a) == Navigate(st, o, url, Some(a.freshKey), a)
  {}

  /** A successful navigation runs under the id it was given, or else under the key in use or a fresh one. */
  lemma NavigationKeyIs(st: State, o: Options, url: string, sessionId: Option<string>, a: NavigateAnswers)
    requires Navigate(st, o, url, sessionId, a).1.Ok?
    ensures var key := Navigate(st, o, url, sessionId, a).1.value.0;
      && (sessionId.Some? ==> key == sessionId.value)
      && (sessionId.None? ==> key == if st.latest.Some? then st.latest.value else a.freshKey)
  {}

  lemma RunStep(o: Options, ops: seq<Op>, n: nat)
    requires n < |ops|
    ensures Run(o, ops[..n + 1]) == Step(Run(o, ops[..n]), o, ops[n]) && TableOk(Run(o, ops[..n]))
  {
    RunNext(o, ops, n + 1);
    TableHolds(o, ops[..n]);
  }

  /** A close that goes through forgets the key. */
  lemma ClosingForgets(st: State, o: Options, op: Op, key: string)
    requires TableOk(st) && key in st.routes
    ensures (st.latest == Some(key) && ClosesKey(st, o, op, key)) || ClosesAll(st, op) ==> key !in Step(st, o, op).routes
  {
    StepMovesRoute(st, o, op, key);
  }

  /** No other key is taken by the operation. */
  ghost predicate TakesNoOther(st: State, o: Options, op: Op, key: string) { forall k :: Takes(st, o, op, k) ==> k == key }

  lemma KeptOnce(o: Options, ops: seq<Op>, n: nat, key: string)
    requires n < |ops| && Run(o, ops[..n]).latest == Some(key)
    requires key in Run(o, ops[..n]).routes && key in Run(o, ops[..n + 1]).routes
    requires TakesNoOther(Run(o, ops[..n]), o, ops[n], key)
    ensures Run(o, ops[..n + 1]).latest == Some(key)
  {
    RunStep(o, ops, n);
    StepLatest(Run(o, ops[..n]), o, ops[n]);
    ClosingForgets(Run(o, ops[..n]), o, ops[n], key);
  }

  lemma TakenOnce(o: Options, ops: seq<Op>, i: nat, key: string)
    requires i < |ops| && Takes(Run(o, ops[..i]), o, ops[i], key)
    ensures Run(o, ops[..i + 1]).latest == Some(key)
  {
    RunStep(o, ops, i);
    StepLatest(Run(o, ops[..i]), o, ops[i]);
  }

  /** From after `i` up to `n` no other key is taken, and the key stays routed. */
  ghost predicate OnlyUsed(o: Options, ops: seq<Op>, i: nat, n: nat, key: string)
    requires n <= |ops|
  {
    && (forall j :: i < j < n ==> TakesNoOther(Run(o, ops[..j]), o, ops[j], key))
    && (forall j :: i < j <= n ==> key in Run(o, ops[..j]).routes)
  }

  lemma KeptAgain(o: Options, ops: seq<Op>, i: nat, j: nat, n: nat, key: string)
    requires i < j < n <= |ops| && OnlyUsed(o, ops, i, n, key) && Run(o, ops[..j]).latest == Some(key)
    ensures Run(o, ops[..j + 1]).latest == Some(key)
  {
    KeptOnce(o, ops, j, key);
  }

  /** The key in use before each operation, and at the end. */
  function Latests(o: Options, ops: seq<Op>): (r: seq<Option<string>>)
    ensures |r| == |ops| + 1 && forall j :: 0 <= j <= |ops| ==> r[j] == Run(o, ops[..j]).latest
  {
    seq(|ops| + 1, j requires 0 <= j <= |ops| => Run(o, ops[..j]).latest)
  }

  lemma {:induction false} Carried(latests: seq<Option<string>>, m: nat, n: nat, key: string)
    requires m <= n < |latests| && latests[m] == Some(key)
    requires forall j :: m <= j < n && latests[j] == Some(key) ==> latests[j + 1] == Some(key)
    ensures latests[n] == Some(key)
    decreases n
  {
    if m < n {
      Carried(latests, m, n - 1, key);
      assert latests[n - 1 + 1] == Some(key);
    }
  }

  lemma LatestLasts(o: Options, ops: seq<Op>, i: nat, n: nat, key: string)
    requires i < n <= |ops| && Run(o, ops[..i + 1]).latest == Some(key) && OnlyUsed(o, ops, i, n, key)
    ensures Run(o, ops[..n]).latest == Some(key)
  {
    var latests := Latests(o, ops);
    forall j | i + 1 <= j < n && latests[j] == Some(key) ensures latests[j + 1] == Some(key) {
      KeptAgain(o, ops, i, j, n, key);
    }
    Carried(latests, i + 1, n, key);
  }

  /** Over every run, an operation without a session id does what it would do with the id of the key taken last, as long
      as that key stays routed. */
  lemma UsedUntilForgotten(o: Options, ops: seq<Op>, i: nat, n: nat, key: string,
                           checks: bool, supported: bool, url: string, a: NavigateAnswers)
    requires i < n <= |ops| && Takes(Run(o, ops[..i]), o, ops[i], key) && OnlyUsed(o, ops, i, n, key)
    ensures var st := Run(o, ops[..n]);
      && Act(st, None, checks, supported) == Act(st, Some(key), checks, supported)
      && Navigate(st, o, url, None, a) == Navigate(st, o, url, Some(key), a)
  {
    TakenOnce(o, ops, i, key);
    LatestLasts(o, ops, i, n, key);
    WithoutIdUses(Run(o, ops[..n]), o, checks, supported, url, a);
  }

  /** When closing its session forgets the key in use, operations without a session id move on to the routed key that was
      added last, if there is one: exactly when the side that serves the key closed without throwing. Otherwise they go
      on naming the key, which is no longer routed. */
  lemma ForgottenFallsBackIff(o: Options, ops: seq<Op>, n: nat, key: string)
    requires n < |ops| && Run(o, ops[..n]).latest == Some(key) && key in Run(o, ops[..n]).routes
    requires key !in Run(o, ops[..n + 1]).routes && !ops[n].DoClose?
    ensures var st, r := Run(o, ops[..n]), Run(o, ops[..n + 1]);
      if ops[n].DoCloseSession? && OwnClose(st, key, ops[n].cloud, ops[n].local) == CloseThrows then r.latest == Some(key)
      else if r.routes == map[] then r.latest.None?
      else r.latest.Some? && MostRecent(o, ops[..n + 1], r.latest.value)
  {
    var st, op := Run(o, ops[..n]), ops[n];
    RunStep(o, ops, n);
    StepLatest(st, o, op);
    StepMovesRoute(st, o, op, key);
    LastIsMostRecent(o, ops[..n + 1]);
    ForgettersTakeNothing(st, o, op, key);
  }

  lemma ForgettersTakeNothing(st: State, o: Options, op: Op, key: string)
    requires TableOk(st) && st.latest == Some(key) && key in st.routes && key !in Step(st, o, op).routes && !op.DoClose?
    ensures forall k :: !Takes(st, o, op, k)
    ensures ClosesKey(st, o, op, key) <==>
      !(op.DoCloseSession? && OwnClose(st, key, op.cloud, op.local) == CloseThrows)
  {
    StepMovesRoute(st, o, op, key);
  }

  predicate Emptied(st: State) { st.closed && st.routes == map[] && st.latest.None? }

  lemma StaysEmptied(st: State, o: Options, op: Op)
    requires TableOk(st) && (Emptied(st) || (!st.closed && op.DoClose?))
    ensures Emptied(Step(st, o, op))
  {
    if op.DoCloseSession? { CloseSessionLatest(st, op.key, op.cloud, op.local); }
  }

  lemma StaysOpen(st: State, o: Options, op: Op)
    requires !st.closed && !op.DoClose?
    ensures !Step(st, o, op).closed
  {}

  lemma {:induction false} ClosedIsEmptied(o: Options, ops: seq<Op>)
    ensures Run(o, ops).closed <==> exists i :: 0 <= i < |ops| && ops[i].DoClose?
    ensures Run(o, ops).closed ==> Emptied(Run(o, ops))
    decreases |ops|
  {
    if ops != [] {
      var front, op := ops[..|ops| - 1], ops[|ops| - 1];
      ClosedIsEmptied(o, front);
      TableHolds(o, front);
      if Run(o, front).closed || op.DoClose? {
        StaysEmptied(Run(o, front), o, op);
        if !op.DoClose? {
          var i :| 0 <= i < |front| && front[i].DoClose?;
          assert ops[i].DoClose?;
        }
      } else {
        StaysOpen(Run(o, front), o, op);
        forall i | 0 <= i < |ops| ensures !ops[i].DoClose? {
          if i < |front| { assert front[i] == ops[i]; }
        }
      }
    }
  }

  /** Once everything was closed there is no key to use, for good: without an id no action finds a session, and no
      navigation succeeds. */
  lemma NothingAfterClose(o: Options, ops: seq<Op>, i: nat, checks: bool, supported: bool, url: string, a: NavigateAnswers)
    requires i < |ops| && ops[i].DoClose?
    ensures var st := Run(o, ops);
      && Act(st, None, checks, supported).1 == Err(if checks then BackendClosed else NoSession)
      && Navigate(st, o, url, None, a).1 == Err(BackendClosed)
  {
    ClosedIsEmptied(o, ops);
  }

  /** After two sessions "a" and "b", a failing close of "b" leaves it in use: an action without an id finds no session,
      though "a" is still routed. */
  lemma FailedCloseStrands(o: Options, url: string, a: NavigateAnswers, local: CloseAnswer)
    requires a.classify(url) == Public && a.delegate == Some(None)
    ensures var ops := [DoNavigate(url, Some("a"), a), DoNavigate(url, Some("b"), a), DoCloseSession("b", CloseThrows, local)];
      var st := Run(o, ops);
      "a" in st.routes && Act(st, None, true, true).1 == Err(NotFound) && Act(st, Some("a"), true, true).1 == Ok(Entry(Cloud, "a"))
  {
    var first, second := DoNavigate(url, Some("a"), a), DoNavigate(url, Some("b"), a);
    RunOfThree(o, first, second, DoCloseSession("b", CloseThrows, local));
    var one := Step(Initial, o, first);
    NavigatesPublicly(Initial, o, url, "a", a);
    NavigatesPublicly(one, o, url, "b", a);
    var two := Step(one, o, second);
    ThrowingClose(two, "b", local);
    ActOn(CloseSession(two, "b", CloseThrows, local).0, "a", "b");
  }

  lemma RunOfThree(o: Options, x: Op, y: Op, z: Op)
    ensures Run(o, [x, y, z]) == Step(Step(Step(Initial, o, x), o, y), o, z)
  {
    assert [x, y, z][..2] == [x, y] && [x, y][..1] == [x] && [x][..0] == [];
    assert Run(o, [x]) == Step(Initial, o, x);
    assert Run(o, [x, y]) == Step(Run(o, [x]), o, y);
  }

  lemma ActOn(st: State, key: string, gone: string)
    requires key in st.routes && gone !in st.routes && st.latest == Some(gone) && !st.closed && |key| == |gone| == 1
    ensures Act(st, None, true, true).1 == Err(NotFound) && Act(st, Some(key), true, true).1 == Ok(st.routes[key])
  {}

  lemma NavigatesPublicly(st: State, o: Options, url: string, key: string, a: NavigateAnswers)
    requires !st.closed && a.classify(url) == Public && a.delegate == Some(None)
    ensures var r := Step(st, o, DoNavigate(url, Some(key), a));
      !r.closed && r.latest == Some(key) && r.routes == st.routes[key := Entry(Cloud, key)]
  {
    RouteForIff(Public, o);
  }

  lemma ThrowingClose(st: State, key: string, local: CloseAnswer)
    requires key in st.routes && st.routes[key].side == Cloud && st.latest == Some(key)
    ensures var r := CloseSession(st, key, CloseThrows, local).0;
      r.latest == Some(key) && r.routes == st.routes - {key} && r.closed == st.closed
  {}

  // ---------------------------------------------------------------- when a navigation succeeds

  predicate MayOpen(c: Classification, o: Options) {
    c == Public || (c == PrivateOrInternal && o.allowPrivateUrls && o.hybridRouting)
  }

  /** Where a navigation may end: nowhere it says, or at a URL that may be opened; for one to a public URL, at a public one. */
  predicate MayEnd(c: Classification, ended: Option<string>, reclassify: string -> Classification, o: Options) {
    ended.None? || IsBlank(ended.value)
    || (MayOpen(reclassify(ended.value), o) && (c == Public ==> reclassify(ended.value) == Public))
  }

  /** A navigation succeeds exactly when the backend is open, the URL may be opened, the delegate does not throw and the
      page may end where it did: in the cloud for a public URL, else in the local browser. Every failure says why. */
  lemma NavigateOkIff(st: State, o: Options, url: string, sessionId: Option<string>, a: NavigateAnswers)
    ensures var r, c := Navigate(st, o, url, sessionId, a).1, a.classify(url);
      && (r == Err(BackendClosed) <==> st.closed)
      && (r == Err(NotRoutable) <==> !st.closed && !MayOpen(c, o))
      && (r == Err(DelegateFailed) <==> !st.closed && MayOpen(c, o) && a.delegate.None?)
      && (r == Err(UnsafeRedirect) <==>
            !st.closed && MayOpen(c, o) && a.delegate.Some? && !MayEnd(c, a.delegate.value, a.reclassify, o))
      && (r.Ok? <==> !st.closed && MayOpen(c, o) && a.delegate.Some? && MayEnd(c, a.delegate.value, a.reclassify, o))
      && (r.Ok? ==> r.value == (NavigatedKey(st, sessionId, a.freshKey), if c == Public then Cloud else Local))
  {
    var c := a.classify(url);
    RouteForIff(c, o);
    if a.delegate.Some? && a.delegate.value.Some? && MayOpen(c, o) {
      EndsWellIff(c, a.delegate.value, a.reclassify, o);
    }
  }

  lemma EndsWellIff(c: Classification, ended: Option<string>, reclassify: string -> Classification, o: Options)
    requires MayOpen(c, o)
    ensures EndsWell(if c == Public then Cloud else Local, ended, reclassify, o) <==> MayEnd(c, ended, reclassify, o)
  {
    if ended.Some? { RouteForIff(reclassify(ended.value), o); }
  }

  function IdOn(key: string, side: Side): string { if side == Cloud then key else key + "::local" }

  /** What a navigation asks of the browsers: to open the URL under the key's id, and after an unsafe ending to blank the
      page and, where that fails, to close the session. */
  lemma NavigateAsks(st: State, o: Options, url: string, sessionId: Option<string>, a: NavigateAnswers)
    requires !st.closed && MayOpen(a.classify(url), o)
    ensures var (r, result) := Navigate(st, o, url, sessionId, a);
      var side := if a.classify(url) == Public then Cloud else Local;
      var id := IdOn(NavigatedKey(st, sessionId, a.freshKey), side);
      r.calls == st.calls + [Navigation(side, url, id, Some(a.classify(url)))]
        + (if result != Err(UnsafeRedirect) then []
           else [Navigation(side, "about:blank", id, None)]
                + if a.blanks || a.closes == NotOffered then [] else [SessionClose(side, id)])
  {
    RouteForIff(a.classify(url), o);
    var side := if a.classify(url) == Public then Cloud else Local;
    var key := NavigatedKey(st, sessionId, a.freshKey);
    var asked := Log(st, Navigation(side, url, RoutedId(key, side), Some(a.classify(url))));
    RetreatAsks(asked, key, side, a);
  }

  lemma RetreatAsks(st: State, key: string, side: Side, a: NavigateAnswers)
    ensures Retreat(st, key, side, a).calls == st.calls + ([Navigation(side, "about:blank", IdOn(key, side), None)]
      + if a.blanks || a.closes == NotOffered then [] else [SessionClose(side, IdOn(key, side))])
  {}
}
