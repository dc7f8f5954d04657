/** The stored sessions and the manager that owns them, updated in place. */
module SessionManager {
  import opened Wrappers
  import opened Text
  import opened TabSession
  import opened TabRuns

  class StoredSession {
    const owner: TargetId
    var targetId: TargetId
    var tabRef: string
    var active: Option<Attachment>
    var retired: seq<Attachment>
    var tabRefs: map<TargetId, string>
    var nextTabNumber: nat
    ghost var issued: map<string, TargetId>
    var obtained: seq<Attachment>
    ghost var closed: set<nat>

    ghost function Model(): Session
      reads this
    {
      Session(owner, targetId, tabRef, active, retired, tabRefs, nextTabNumber, issued, obtained, closed)
    }

    constructor (owner: TargetId)
      ensures Model() == Fresh(owner)
    {
      this.owner, targetId, tabRef, active, retired := owner, owner, TabRef(1), None, [];
      tabRefs, nextTabNumber := map[owner := TabRef(1)], 2;
      issued, obtained, closed := map[TabRef(1) := owner], [], {};
    }

    method RefOf(t: TargetId) returns (ref: string)
      modifies this`tabRefs, this`nextTabNumber, this`issued
      ensures Model() == Named(old(Model()), t) && t in tabRefs && ref == tabRefs[t]
    {
      if t in tabRefs { return tabRefs[t]; }
      ref := TabRef(nextTabNumber);
      nextTabNumber := nextTabNumber + 1;
      tabRefs := tabRefs[t := ref];
      issued := issued[ref := t];
    }

    method ListTabs(listing: Listing) returns (r: Result<seq<Tab>, Failure>)
      modifies this
      ensures (Model(), r) == TabSession.ListTabs(old(Model()), listing)
    {
      match listing
      case ListingUnsupported => return Err(NotSupported);
      case ListingThrows => return Err(ListingFailed);
      case Targets(ts) =>
        ForgetGone(ts);
        var tabs := NameAll(ts);
        return Ok(tabs);
    }

    method ForgetGone(ts: seq<TargetId>)
      modifies this`tabRefs
      ensures Model() == Swept(old(Model()), ts)
    {
      var keys := tabRefs.Keys;
      while keys != {}
        invariant keys <= old(tabRefs).Keys
        invariant forall t :: t in tabRefs <==> t in old(tabRefs) && (t in keys || t in ts || t == owner)
        invariant forall t :: t in tabRefs ==> tabRefs[t] == old(tabRefs)[t]
        decreases |keys|
      {
        var t :| t in keys;
        keys := keys - {t};
        if t !in ts && t != owner { tabRefs := tabRefs - {t}; }
      }
      assert tabRefs == Swept(old(Model()), ts).tabRefs;
    }

    method NameAll(ts: seq<TargetId>) returns (tabs: seq<Tab>)
      modifies this`tabRefs, this`nextTabNumber, this`issued
      ensures Model() == NamedAll(old(Model()), ts)
      ensures tabs == Tabs(Model(), ts)
    {
      tabs := [];
      for i := 0 to |ts|
        invariant Model() == NamedAll(old(Model()), ts[..i])
        invariant |tabs| == i
        invariant forall j :: 0 <= j < i ==> ts[j] in tabRefs && tabs[j] == Tab(ts[j], tabRefs[ts[j]], ts[j] == targetId)
      {
        assert ts[..i + 1][..i] == ts[..i];
        var ref := RefOf(ts[i]);
        tabs := tabs + [Tab(ts[i], ref, ts[i] == targetId)];
      }
      assert ts[..|ts|] == ts;
    }

    method SwitchTab(ref: string, a: SwitchAnswers) returns (r: Result<(), Failure>)
      modifies this
      ensures (Model(), r) == TabSession.SwitchTab(old(Model()), ref, a)
    {
      if !a.supported { return Err(NotSupported); }
      if !IsTabRef(ref) { return Err(InvalidRef); }
      var tabs := ListTabs(a.listing);
      if tabs.Err? { return Err(tabs.error); }
      var found := Find(tabs.value, ref);
      if found.None? { return Err(TabMissing); }
      r := Take(found.value.target, ref, a);
    }

    method Find(tabs: seq<Tab>, ref: string) returns (r: Option<Tab>)
      ensures r == FindTab(tabs, ref)
    {
      var i := 0;
      while i < |tabs|
        invariant i <= |tabs| && FindTab(tabs, ref) == FindTab(tabs[i..], ref)
      {
        if tabs[i].ref == ref { return Some(tabs[i]); }
        assert tabs[i..][1..] == tabs[i + 1..];
        i := i + 1;
      }
      return None;
    }

    method Take(t: TargetId, ref: string, a: SwitchAnswers) returns (r: Result<(), Failure>)
      modifies this
      ensures (Model(), r) == SwitchTo(old(Model()), t, ref, a)
    {
      if t == targetId { return if a.activates then Ok(()) else Err(SwitchFailed); }
      var next: Option<Attachment> := None;
      if t != owner {
        if !a.attaches { return Err(SwitchFailed); }
        next := Some(Attachment(|obtained|, t));
        obtained := obtained + [next.value];
      }
      if !a.activates {
        if next.Some? { Drop(next.value, a.closesNext); }
        return Err(SwitchFailed);
      }
      var previous := active;
      active, targetId, tabRef := next, t, ref;
      if previous.Some? { Drop(previous.value, a.closesPrevious); }
      return Ok(());
    }

    method Drop(a: Attachment, closes: bool)
      modifies this`retired, this`closed
      ensures Model() == Dropped(old(Model()), a, closes)
    {
      if closes { closed := closed + {a.id}; } else { retired := retired + [a]; }
    }

    method OpenTab(create: Creation, a: SwitchAnswers) returns (r: Result<(), Failure>)
      modifies this
      ensures (Model(), r) == TabSession.OpenTab(old(Model()), create, a)
    {
      match create
      case CreationUnsupported => return Err(NotSupported);
      case CreationThrows => return Err(CreateFailed);
      case Created(t) =>
        var ref := RefOf(t);
        var switched := SwitchTab(ref, a);
        if switched.Ok? { return Ok(()); }
        tabRefs := tabRefs - {t};
        return Err(OpenFailed);
    }

    /** Every close call is made, whatever the earlier ones do. */
    method Close(throws: Closing -> bool) returns (calls: seq<Closing>, failed: bool)
      ensures calls == CloseCalls(Model())
      ensures failed == CloseFails(Model(), throws)
    {
      failed, calls := false, [];
      var toClose := (if active.Some? then [active.value] else []) + retired;
      for i := 0 to |toClose|
        invariant |calls| == i && forall j :: 0 <= j < i ==> calls[j] == CloseAttachment(toClose[j])
        invariant failed <==> exists c :: c in calls && throws(c)
      {
        calls := calls + [CloseAttachment(toClose[i])];
        if throws(CloseAttachment(toClose[i])) { failed := true; }
      }
      assert calls == Attachments(Model());
      calls := calls + [CloseOwner(owner)];
      if throws(CloseOwner(owner)) { failed := true; }
    }
  }

  /** The keys whose closing fails, in the order given. */
  function FailingKeys(m: map<string, Session>, keys: seq<string>, throws: Closing -> bool): seq<string>
    requires forall k :: k in keys ==> k in m
  {
    if keys == [] then []
    else
      var rest := FailingKeys(m, keys[..|keys| - 1], throws);
      if CloseFails(m[keys[|keys| - 1]], throws) then rest + [keys[|keys| - 1]] else rest
  }

  datatype ManagerFailure = InvalidKey | SessionMissing | CreationFailed | CloseFailed(keys: seq<string>)

  class BrowserSessionManager {
    var sessions: map<string, StoredSession>
    /** The keys in the order they were added, as the source's map keeps them. */
    var order: seq<string>
    /** The keys the lifecycle collaborator has been told about. */
    var registered: set<string>

    ghost predicate Valid()
      reads this, sessions.Values
    {
      && NoDuplicates(order)
      && (forall k :: k in order <==> k in sessions)
      && (forall k, l :: k in sessions && l in sessions && k != l ==> sessions[k] != sessions[l])
      && registered == sessions.Keys
    }

    ghost function Model(): map<string, Session>
      reads this, sessions.Values
    {
      map k | k in sessions :: sessions[k].Model()
    }

    constructor ()
      ensures Valid() && Model() == map[]
    {
      sessions, order, registered := map[], [], {};
    }

    method Acquire(key: string, target: Option<TargetId>) returns (r: Result<StoredSession, ManagerFailure>)
      requires Valid()
      modifies this
      ensures Valid()
      ensures r.Ok? <==> !IsBlank(key) && (key in old(sessions) || target.Some?)
      ensures r.Ok? ==> key in sessions && r.value == sessions[key]
      ensures Model() == Acquired(old(Model()), key, target)
      ensures forall k :: k in old(sessions) ==> k in sessions && sessions[k] == old(sessions[k])
    {
      if IsBlank(key) { return Err(InvalidKey); }
      if key in sessions { return Ok(sessions[key]); }
      if target.None? { return Err(CreationFailed); }
      var session := new StoredSession(target.value);
      Add(key, session);
      return Ok(session);
    }

    method Add(key: string, session: StoredSession)
      requires Valid() && key !in sessions && session !in sessions.Values
      modifies this
      ensures Valid() && sessions == old(sessions)[key := session]
    {
      sessions := sessions[key := session];
      order := order + [key];
      registered := registered + {key};
    }

    method Remove(key: string) returns (session: StoredSession)
      requires Valid() && key in sessions
      modifies this
      ensures Valid() && session == old(sessions)[key] && sessions == old(sessions) - {key}
      ensures Model() == old(Model()) - {key}
    {
      session := sessions[key];
      registered := registered - {key};
      sessions := sessions - {key};
      order := Without(order, key);
    }

    method OpenTab(key: string, create: Creation, a: SwitchAnswers) returns (r: Result<Result<(), Failure>, ManagerFailure>)
      requires Valid()
      modifies sessions.Values
      ensures Valid()
      ensures r.Ok? <==> !IsBlank(key) && key in sessions
      ensures r.Ok? ==> r.value == TabSession.OpenTab(old(Model())[key], create, a).1
      ensures Model() == ManagerStep(old(Model()), DoInSession(key, DoOpen(create, a)))
    {
      if IsBlank(key) { return Err(InvalidKey); }
      if key !in sessions { return Err(SessionMissing); }
      assert sessions[key] in sessions.Values;
      var opening := sessions[key].OpenTab(create, a);
      return Ok(opening);
    }

    method SwitchTab(key: string, ref: string, a: SwitchAnswers) returns (r: Result<Result<(), Failure>, ManagerFailure>)
      requires Valid()
      modifies sessions.Values
      ensures Valid()
      ensures r.Ok? <==> !IsBlank(key) && key in sessions
      ensures r.Ok? ==> r.value == TabSession.SwitchTab(old(Model())[key], ref, a).1
      ensures Model() == ManagerStep(old(Model()), DoInSession(key, DoSwitch(ref, a)))
    {
      if IsBlank(key) { return Err(InvalidKey); }
      if key !in sessions { return Err(SessionMissing); }
      assert sessions[key] in sessions.Values;
      var switched := sessions[key].SwitchTab(ref, a);
      return Ok(switched);
    }

    method ListTabs(key: string, listing: Listing) returns (r: Result<Result<seq<Tab>, Failure>, ManagerFailure>)
      requires Valid()
      modifies sessions.Values
      ensures Valid()
      ensures r.Ok? <==> !IsBlank(key) && key in sessions
      ensures r.Ok? ==> r.value == TabSession.ListTabs(old(Model())[key], listing).1
      ensures Model() == ManagerStep(old(Model()), DoInSession(key, DoList(listing)))
    {
      if IsBlank(key) { return Err(InvalidKey); }
      if key !in sessions { return Err(SessionMissing); }
      assert sessions[key] in sessions.Values;
      var tabs := sessions[key].ListTabs(listing);
      return Ok(tabs);
    }

    /** The session is forgotten before anything is closed, so a failing close is not tried again. */
    method Close(key: string, throws: Closing -> bool) returns (calls: seq<Closing>, r: Result<(), ManagerFailure>)
      requires Valid()
      modifies this
      ensures Valid() && Model() == Forgotten(old(Model()), key)
      ensures calls == if IsBlank(key) || key !in old(sessions) then [] else CloseCalls(old(sessions)[key].Model())
      ensures r == if IsBlank(key) then Err(InvalidKey)
                   else if calls != [] && CloseFails(old(sessions)[key].Model(), throws) then Err(CloseFailed([key])) else Ok(())
    {
      if IsBlank(key) { return [], Err(InvalidKey); }
      if key !in sessions { return [], Ok(()); }
      var session := Remove(key);
      var failed;
      calls, failed := session.Close(throws);
      return calls, if failed then Err(CloseFailed([key])) else Ok(());
    }

    /** All sessions are forgotten at once; then each is closed in turn and the failing keys are reported together. */
    method CloseAll(throws: Closing -> bool) returns (calls: seq<seq<Closing>>, r: Result<(), ManagerFailure>)
      requires Valid()
      modifies this
      ensures Valid() && Model() == map[] && registered == {}
      ensures |calls| == |old(order)|
      ensures forall i :: 0 <= i < |calls| ==> calls[i] == CloseCalls(old(Model())[old(order)[i]])
      ensures var failing := FailingKeys(old(Model()), old(order), throws);
        r == if failing == [] then Ok(()) else Err(CloseFailed(failing))
    {
      var closing, stored := order, sessions;
      ghost var model := Model();
      sessions, order, registered := map[], [], {};
      var failures;
      calls, failures := CloseEach(closing, stored, model, throws);
      return calls, if failures == [] then Ok(()) else Err(CloseFailed(failures));
    }
  }

  method CloseEach(closing: seq<string>, stored: map<string, StoredSession>, ghost model: map<string, Session>,
                   throws: Closing -> bool)
    returns (calls: seq<seq<Closing>>, failures: seq<string>)
    requires forall k :: k in closing ==> k in stored && k in model && model[k] == stored[k].Model()
    ensures |calls| == |closing|
    ensures forall i :: 0 <= i < |calls| ==> calls[i] == CloseCalls(model[closing[i]])
    ensures failures == FailingKeys(model, closing, throws)
  {
    failures, calls := [], [];
    for i := 0 to |closing|
      invariant |calls| == i && forall j :: 0 <= j < i ==> calls[j] == CloseCalls(model[closing[j]])
      invariant failures == FailingKeys(model, closing[..i], throws)
    {
      assert closing[..i + 1][..i] == closing[..i];
      var attempted, failed := stored[closing[i]].Close(throws);
      calls := calls + [attempted];
      if failed { failures := failures + [closing[i]]; }
    }
    assert closing[..|closing|] == closing;
  }
}
