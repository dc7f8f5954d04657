/** The hybrid backend itself: a routing table changed in place by the operations it offers. */
module HybridBackendClass {
  import opened Wrappers
  import opened HybridBackend

  class Backend {
    const options: Options
    var routes: map<string, Entry>
    var order: seq<string>
    var latest: Option<string>
    var closed: bool
    var calls: seq<Call>

    ghost function Model(): State
      reads this
    {
      State(routes, order, latest, closed, calls)
    }

    constructor (options: Options)
      ensures Model() == Initial && this.options == options
    {
      this.options := options;
      routes, order, latest, closed, calls := map[], [], None, false, [];
    }

    method Open(url: string, sessionId: Option<string>, a: NavigateAnswers) returns (r: Result<(string, Side), Failure>)
      modifies this
      ensures (Model(), r) == Navigate(old(Model()), options, url, sessionId, a)
      ensures r.Ok? ==> r.value.0 in routes && routes[r.value.0] == Entry(r.value.1, RoutedId(r.value.0, r.value.1))
    {
      if closed { return Err(BackendClosed); }
      var judged := a.classify(url);
      var side := RouteFor(judged, options);
      if side.None? { return Err(NotRoutable); }
      var key := if sessionId.Some? then sessionId.value else if latest.Some? then latest.value else a.freshKey;
      calls := calls + [Navigation(side.value, url, RoutedId(key, side.value), Some(judged))];
      if a.delegate.None? { return Err(DelegateFailed); }
      if !EndsWell(side.value, a.delegate.value, a.reclassify, options) {
        calls := calls + [Navigation(side.value, BLANK, RoutedId(key, side.value), None)];
        if !a.blanks { var _ := CloseOne(key, side.value, a.closes); }
        return Err(UnsafeRedirect);
      }
      if key !in routes { order := order + [key]; }
      routes := routes[key := Entry(side.value, RoutedId(key, side.value))];
      latest := Some(key);
      return Ok((key, side.value));
    }

    method CloseOne(key: string, side: Side, a: CloseAnswer) returns (ok: bool)
      modifies this
      ensures (Model(), ok) == CloseRoute(old(Model()), key, side, a)
    {
      if a != NotOffered { calls := calls + [SessionClose(side, RoutedId(key, side))]; }
      if a == CloseThrows { return false; }
      if key in routes && routes[key].side == side {
        routes := routes - {key};
        order := Without(order, key);
      }
      if latest == Some(key) && key !in routes {
        latest := if order == [] then None else Some(order[|order| - 1]);
      }
      return true;
    }

    method CloseKey(key: string, cloud: CloseAnswer, local: CloseAnswer) returns (r: Result<(), Failure>)
      modifies this
      ensures (Model(), r) == CloseSession(old(Model()), key, cloud, local) && key !in routes
    {
      var cloudOk := CloseOne(key, Cloud, cloud);
      var localOk := CloseOne(key, Local, local);
      routes := routes - {key};
      order := Without(order, key);
      return if cloudOk && localOk then Ok(()) else Err(CloseFailed);
    }

    method Perform(sessionId: Option<string>, checksClosed: bool, supported: bool) returns (r: Result<Entry, Failure>)
      modifies this
      ensures (Model(), r) == Act(old(Model()), sessionId, checksClosed, supported)
    {
      if checksClosed && closed { return Err(BackendClosed); }
      var id := if sessionId.Some? then sessionId else latest;
      if id.None? { return Err(NoSession); }
      var key := Stripped(id.value);
      if key !in routes { return Err(NotFound); }
      latest := Some(key);
      if !supported { return Err(NotSupported); }
      var route := routes[key];
      calls := calls + [Action(route.side, route.routedId)];
      return Ok(route);
    }

    /** Both backends are closed even when the first one throws. */
    method Close(cloud: CloseAnswer, local: CloseAnswer) returns (r: Result<(), Failure>)
      modifies this
      ensures (Model(), r) == CloseAll(old(Model()), cloud, local) && closed
    {
      if closed { return Ok(()); }
      closed := true;
      if cloud != NotOffered { calls := calls + [BackendClose(Cloud)]; }
      if local != NotOffered { calls := calls + [BackendClose(Local)]; }
      routes, order, latest := map[], [], None;
      assert calls == old(calls) + (if cloud == NotOffered then [] else [BackendClose(Cloud)])
                                 + (if local == NotOffered then [] else [BackendClose(Local)]);
      return if cloud == CloseThrows || local == CloseThrows then Err(CloseFailed) else Ok(());
    }
  }
}
