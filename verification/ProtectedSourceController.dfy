/** The source controller itself: a table of bindings changed in place. */
module ProtectedSourceController {
  import opened Wrappers
  import opened ProtectedSource

  class Controller {
    var bindings: map<Key, Binding>
    var nextHandle: Handle
    var released: seq<Handle>

    ghost function Model(): State
      reads this
    {
      State(bindings, nextHandle, released)
    }

    constructor ()
      ensures Model() == Initial
    {
      bindings, nextHandle, released := map[], 0, [];
    }

    method VerifyBeforeAuthorization(session: Session, s: Source, kind: string, a: Answers) returns (r: Result<(), Rejection>)
      modifies this
      ensures (Model(), r) == Authorize(old(Model()), session, s, kind, a)
      ensures r.Ok? <==> KeyOf(s) !in old(bindings) && KeyOf(s) in bindings
    {
      var context := Context(session, s, a);
      if context.Some? { return Err(context.value); }
      if KeyOf(s) in bindings { return Err(RequestNotActive); }
      var index := RefToIndex(s.ref);
      if index.None? { return Err(SourceMissing); }
      var document, object_ := None, None;
      if a.documentResolves {
        document := Some(nextHandle);
        nextHandle := nextHandle + 1;
      }
      if a.objectResolves {
        object_ := Some(nextHandle);
        nextHandle := nextHandle + 1;
      }
      if document.None? || object_.None? {
        ReleaseHandle(document);
        ReleaseHandle(object_);
        return Err(SourceMissing);
      }
      var rejection := Inspected(a.inspection, false);
      if rejection.Some? {
        ReleaseHandle(object_);
        ReleaseHandle(document);
        assert released == old(released) + [object_.value, document.value];
        return Err(rejection.value);
      }
      bindings := bindings[KeyOf(s) := Binding(s, kind, session.supervisor, object_.value, document.value, index.value,
                                               a.inspection.value.fingerprint)];
      return Ok(());
    }

    method ReleaseHandle(h: Option<Handle>)
      modifies this`released
      ensures released == if h.None? then old(released) else old(released) + [h.value]
    {
      if h.Some? { released := released + [h.value]; }
    }

    method VerifyBeforeDelivery(session: Session, s: Source, kind: string, a: Answers) returns (r: Result<(), Rejection>)
      ensures r == Check(Model(), session, s, kind, a)
    {
      var context := Context(session, s, a);
      if context.Some? { return Err(context.value); }
      if KeyOf(s) !in bindings { return Err(RequestNotActive); }
      var b := bindings[KeyOf(s)];
      if b.kind != kind || b.supervisor != session.supervisor || b.source != s { return Err(RequestNotActive); }
      if a.documentCurrent != Some(true) { return Err(SourceReplaced); }
      var rejection := Inspected(a.inspection, true);
      if rejection.Some? { return Err(rejection.value); }
      return if a.inspection.value.fingerprint != b.fingerprint then Err(SourceReplaced) else Ok(());
    }

    method ReadValue(session: Session, s: Source, kind: string, a: Answers, second: Option<Inspection>)
      returns (r: Result<string, Rejection>)
      ensures r == Read(Model(), session, s, kind, a, second)
      ensures r.Ok? ==> KeyOf(s) in bindings && second.Some? && second.value.fingerprint == bindings[KeyOf(s)].fingerprint
    {
      var verified := VerifyBeforeDelivery(session, s, kind, a);
      if verified.Err? { return Err(verified.error); }
      var b := bindings[KeyOf(s)];
      var rejection := Inspected(second, true);
      if rejection.Some? { return Err(rejection.value); }
      if second.value.fingerprint != b.fingerprint { return Err(SourceReplaced); }
      if second.value.value.None? { return Err(SourceEmpty); }
      return Ok(second.value.value.value);
    }

    method ReleaseSource(s: Source)
      modifies this
      ensures Model() == ReleaseBinding(old(Model()), s)
    {
      var key := KeyOf(s);
      if key !in bindings { return; }
      var b := bindings[key];
      bindings := bindings - {key};
      ReleaseHandle(Some(b.object_));
      ReleaseHandle(Some(b.document));
      assert released == old(released) + [b.object_, b.document];
    }
  }
}
