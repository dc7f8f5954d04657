/** What the binding table keeps over committed writes and over whole runs of several stores. */
module BindingRuns {
  import opened Wrappers
  import opened TextOrder
  import opened BindingTable

  /** The rows a record call has before eviction: the unexpired ones, then the new ids that were not bound. */
  function Pool(t: Table, store: Store, scope: string, ids: seq<string>, row: Row): Table {
    var kept := Unexpired(t, store.profile, row.createdAt);
    kept + map k | k in (set id | id in ids :: RowKey(store.profile, scope, id)) && k !in kept :: row
  }

  /** No id of the call is bound, unexpired, to another session, turn or direction. */
  ghost predicate AttributionFree(t: Table, store: Store, scope: string, ids: seq<string>, row: Row) {
    forall id :: id in ids && RowKey(store.profile, scope, id) in t ==>
      var bound := t[RowKey(store.profile, scope, id)];
      Expired(bound, row.createdAt) || SameAttribution(bound, row)
  }

  lemma WriteMeets(t: Table, store: Store, scope: string, ids: seq<string>, row: Row)
    requires store.maxBindings > 0
    ensures
      var w := Write(t, store, scope, ids, row);
      && (w.result.Ok? <==> AttributionFree(t, store, scope, ids, row))
      && (w.result.Err? ==> w == Outcome(t, Err(Immutable)))
      && (w.result.Ok? ==> KeepsLast(Pool(t, store, scope, ids, row), w.table, store.profile, store.maxBindings))
  {
    var kept := Unexpired(t, store.profile, row.createdAt);
    var i := InsertEach(kept, store.profile, scope, ids, row);
    InsertEachIff(kept, store.profile, scope, ids, row);
    if i.Ok? {
      InsertedIsPool(t, store, scope, ids, row);
      BoundedKeepsLast(i.value, store);
    }
  }

  lemma InsertedIsPool(t: Table, store: Store, scope: string, ids: seq<string>, row: Row)
    requires InsertEach(Unexpired(t, store.profile, row.createdAt), store.profile, scope, ids, row).Ok?
    ensures InsertEach(Unexpired(t, store.profile, row.createdAt), store.profile, scope, ids, row).value
         == Pool(t, store, scope, ids, row)
  {
    var kept := Unexpired(t, store.profile, row.createdAt);
    InsertEachIff(kept, store.profile, scope, ids, row);
    var i, pool := InsertEach(kept, store.profile, scope, ids, row).value, Pool(t, store, scope, ids, row);
    forall k ensures k in i <==> k in pool {
      assert k.profile == store.profile && k.scope == scope ==> k == RowKey(store.profile, scope, k.messageId);
    }
  }

  /** Exactly when a record call fails, and that it then changed nothing. */
  lemma RecordFailsIff(t: Table, store: Store, req: Request, now: int, digest: seq<string> -> string)
    requires store.maxBindings > 0
    ensures
      var r := Record(t, store, req, now, digest);
      var v := Validate(req);
      && (r.result.Err? <==>
            || v.Err?
            || (WrittenIds(req) != [] &&
                 (|| !TargetOk(store, req)
                  || now + store.retentionMs > MAX_TIME
                  || !AttributionFree(t, store, digest(ScopeFields(req.sessionKey)), WrittenIds(req),
                                      NewRow(store, req, v.value, now)))))
      && (r.result.Err? ==> r.table == t)
  {
    var v := Validate(req);
    if v.Ok? {
      WriteMeets(t, store, digest(ScopeFields(req.sessionKey)), WrittenIds(req), NewRow(store, req, v.value, now));
    }
  }

  /** After a committed record the profile holds the last rows, by creation, scope and id, of those unexpired or new. */
  lemma RecordKeepsLast(t: Table, store: Store, req: Request, now: int, digest: seq<string> -> string)
    requires store.maxBindings > 0
    requires Record(t, store, req, now, digest).result.Ok? && WrittenIds(req) != []
    ensures
      KeepsLast(Pool(t, store, digest(ScopeFields(req.sessionKey)), WrittenIds(req),
                     NewRow(store, req, Validate(req).value, now)),
                Record(t, store, req, now, digest).table, store.profile, store.maxBindings)
  {
    WriteMeets(t, store, digest(ScopeFields(req.sessionKey)), WrittenIds(req),
               NewRow(store, req, Validate(req).value, now));
  }

  lemma PruneKeepsLast(t: Table, store: Store, now: int)
    requires store.maxBindings > 0
    ensures KeepsLast(Unexpired(t, store.profile, now), Prune(t, store, now), store.profile, store.maxBindings)
  {
    BoundedKeepsLast(Unexpired(t, store.profile, now), store);
  }

  /** Stores of any profile write to the table; deleting a session or a message removes the rows that refer to it. */
  datatype Op =
    | DoRecord(store: Store, req: Request, now: int)
    | DoPrune(store: Store, now: int)
    | DropTargets(sessions: set<string>, turns: set<string>)

  predicate Dropped(op: Op, row: Row) {
    op.DropTargets? && (row.sessionId in op.sessions || row.turnId in op.turns)
  }

  ghost function Step(t: Table, op: Op, digest: seq<string> -> string): Table {
    match op
    case DoRecord(store, req, now) => Record(t, store, req, now, digest).table
    case DoPrune(store, now) => Prune(t, store, now)
    case DropTargets(_, _) => map k | k in t && !Dropped(op, t[k]) :: t[k]
  }

  ghost function Run(t: Table, ops: seq<Op>, digest: seq<string> -> string): Table {
    if ops == [] then t else Step(Run(t, ops[..|ops| - 1], digest), ops[|ops| - 1], digest)
  }

  predicate Writes(op: Op, profile: string) { !op.DropTargets? && op.store.profile == profile }

  predicate Settings(op: Op) { !op.DropTargets? ==> op.store.maxBindings > 0 && op.store.retentionMs > 0 }

  /** The op is a write of the row's own profile at a time when the row counts as expired. */
  predicate Expires(op: Op, k: RowKey, row: Row) { Writes(op, k.profile) && Expired(row, op.now) }

  /** The row lost its place: the profile is full of rows that come after it. */
  ghost predicate Evicted(op: Op, k: RowKey, row: Row, after: Table) {
    && Writes(op, k.profile)
    && |Rows(after, k.profile)| == op.store.maxBindings
    && forall o :: o in Rows(after, k.profile) ==> Before(after[k := row], k, o)
  }

  /** One operation leaves a row as it is unless the row expires, is evicted or loses its target. */
  lemma StepKeepsRow(t: Table, op: Op, k: RowKey, digest: seq<string> -> string)
    requires Settings(op) && k in t && !Expires(op, k, t[k])
    ensures var u := Step(t, op, digest);
      if k in u then u[k] == t[k] else Dropped(op, t[k]) || Evicted(op, k, t[k], u)
  {
    match op
    case DropTargets(_, _) =>
    case DoPrune(store, now) =>
      PruneKeepsLast(t, store, now);
      LeftOutIsEvicted(Unexpired(t, store.profile, now), op, k, Step(t, op, digest));
    case DoRecord(store, req, now) =>
      var r := Record(t, store, req, now, digest);
      RecordFailsIff(t, store, req, now, digest);
      if r.result.Ok? && WrittenIds(req) != [] {
        RecordKeepsLast(t, store, req, now, digest);
        LeftOutIsEvicted(Pool(t, store, digest(ScopeFields(req.sessionKey)), WrittenIds(req),
                              NewRow(store, req, Validate(req).value, now)), op, k, r.table);
      }
  }

  lemma LeftOutIsEvicted(pool: Table, op: Op, k: RowKey, after: Table)
    requires !op.DropTargets? && k in pool && KeepsLast(pool, after, op.store.profile, op.store.maxBindings)
    ensures k !in after ==> Evicted(op, k, pool[k], after)
  {
    if k !in after {
      if |Rows(pool, k.profile)| <= op.store.maxBindings {
        assert Rows(after, k.profile) <= Rows(pool, k.profile) - {k};
        Subset(Rows(after, k.profile), Rows(pool, k.profile) - {k});
      }
      forall o | o in Rows(after, k.profile) ensures Before(after[k := pool[k]], k, o) {
        assert Before(pool, k, o);
      }
    }
  }

  /** A live binding keeps its session, turn, direction and times for as long as it stays in the table. */
  lemma {:induction false} BindingsAreImmutable(t: Table, ops: seq<Op>, k: RowKey, digest: seq<string> -> string)
    requires forall i :: 0 <= i < |ops| ==> Settings(ops[i])
    requires k in t && forall i :: 0 <= i < |ops| ==> !Expires(ops[i], k, t[k])
    requires forall i :: 0 <= i <= |ops| ==> k in Run(t, ops[..i], digest)
    ensures k in Run(t, ops, digest) && Run(t, ops, digest)[k] == t[k]
  {
    assert ops[..|ops|] == ops;
    if ops != [] {
      var front := ops[..|ops| - 1];
      forall i | 0 <= i <= |front| ensures k in Run(t, front[..i], digest) { assert front[..i] == ops[..i]; }
      BindingsAreImmutable(t, front, k, digest);
      StepKeepsRow(Run(t, front, digest), ops[|ops| - 1], k, digest);
    }
  }

  /** A store never touches the rows of another profile. */
  lemma {:induction false} OtherProfilesUntouched(t: Table, ops: seq<Op>, k: RowKey, digest: seq<string> -> string)
    requires forall i :: 0 <= i < |ops| ==> Settings(ops[i]) && !ops[i].DropTargets? && ops[i].store.profile != k.profile
    ensures k in Run(t, ops, digest) <==> k in t
    ensures k in t ==> Run(t, ops, digest)[k] == t[k]
  {
    if ops != [] {
      OtherProfilesUntouched(t, ops[..|ops| - 1], k, digest);
      StepLeavesOthers(Run(t, ops[..|ops| - 1], digest), ops[|ops| - 1], k, digest);
    }
  }

  lemma StepLeavesOthers(t: Table, op: Op, k: RowKey, digest: seq<string> -> string)
    requires Settings(op) && !op.DropTargets? && op.store.profile != k.profile
    ensures k in Step(t, op, digest) <==> k in t
    ensures k in t ==> Step(t, op, digest)[k] == t[k]
  {
    match op
    case DoPrune(store, now) => PruneKeepsLast(t, store, now);
    case DoRecord(store, req, now) =>
      RecordFailsIff(t, store, req, now, digest);
      if Record(t, store, req, now, digest).result.Ok? && WrittenIds(req) != [] {
        RecordKeepsLast(t, store, req, now, digest);
      }
  }

  ghost predicate SomeCommit(t: Table, ops: seq<Op>, profile: string, digest: seq<string> -> string) {
    exists i :: 0 <= i < |ops| && Writes(ops[i], profile) && CommitsAt(Run(t, ops[..i], digest), ops[i], digest)
  }

  /** Once a profile is within its bound it stays there, and any committed write brings it there. */
  lemma {:induction false} BoundHolds(t: Table, ops: seq<Op>, profile: string, max: nat, digest: seq<string> -> string)
    requires forall i :: 0 <= i < |ops| ==> Settings(ops[i]) && (Writes(ops[i], profile) ==> ops[i].store.maxBindings == max)
    requires |Rows(t, profile)| <= max || SomeCommit(t, ops, profile, digest)
    ensures |Rows(Run(t, ops, digest), profile)| <= max
  {
    if ops != [] {
      var n := |ops| - 1;
      var front, last := ops[..n], ops[n];
      var u := Run(t, front, digest);
      if |Rows(t, profile)| > max {
        var i :| 0 <= i < |ops| && Writes(ops[i], profile) && CommitsAt(Run(t, ops[..i], digest), ops[i], digest);
        if i < n {
          assert front[..i] == ops[..i] && front[i] == ops[i];
          BoundHolds(t, front, profile, max, digest);
        } else {
          assert ops[..i] == front;
        }
      } else {
        BoundHolds(t, front, profile, max, digest);
      }
      StepBounds(u, last, profile, max, digest);
    }
  }

  ghost predicate CommitsAt(t: Table, op: Op, digest: seq<string> -> string) {
    match op
    case DoRecord(store, req, now) => WrittenIds(req) != [] && Record(t, store, req, now, digest).result.Ok?
    case DoPrune(_, _) => true
    case DropTargets(_, _) => false
  }

  lemma StepBounds(t: Table, op: Op, profile: string, max: nat, digest: seq<string> -> string)
    requires Settings(op) && (Writes(op, profile) ==> op.store.maxBindings == max)
    requires |Rows(t, profile)| <= max || (Writes(op, profile) && CommitsAt(t, op, digest))
    ensures |Rows(Step(t, op, digest), profile)| <= max
  {
    if Writes(op, profile) && CommitsAt(t, op, digest) {
      match op
      case DoPrune(store, now) => PruneKeepsLast(t, store, now);
      case DoRecord(store, req, now) => RecordKeepsLast(t, store, req, now, digest);
    } else {
      var u := Step(t, op, digest);
      if op.DropTargets? {
        assert Rows(u, profile) <= Rows(t, profile);
      } else if !CommitsAt(t, op, digest) {
        RecordFailsIff(t, op.store, op.req, op.now, digest);
      } else {
        forall k | k in Rows(u, profile) ensures k in t { StepLeavesOthers(t, op, k, digest); }
        assert Rows(u, profile) <= Rows(t, profile);
      }
      Subset(Rows(u, profile), Rows(t, profile));
    }
  }

  /** A message recorded and not evicted resolves at once to its turn, unless the expiry date needs a fifth digit in
      its year: such a date sorts before every ordinary one. */
  lemma RecordedResolvesIff(t: Table, store: Store, req: Request, now: int, id: string, digest: seq<string> -> string)
    requires store.maxBindings > 0 && store.retentionMs > 0 && FourDigitYear(now)
    requires Record(t, store, req, now, digest).result.Ok? && id in WrittenIds(req)
    ensures
      var u := Record(t, store, req, now, digest).table;
      var k := RowKey(store.profile, digest(ScopeFields(req.sessionKey)), id);
      var isNew := !(k in t && !Expired(t[k], now));
      var r := Resolve(u, store, req.sessionKey, id, now, digest);
      && r.Ok?
      && (r.value.Some? ==> SameAttribution(r.value.value, NewRow(store, req, Validate(req).value, now)))
      && (r.value.Some? <==> k in u && (isNew ==> FourDigitYear(now + store.retentionMs)))
  {
    WrittenIdIsValid(req, id);
    RecordedRow(t, store, req, now, id, digest);
    DateLessIsTimeOrder(now, now + store.retentionMs);
  }

  lemma WrittenIdIsValid(req: Request, id: string)
    requires Validate(req).Ok? && id in WrittenIds(req)
    ensures ScopeOk(req.sessionKey) && IdentifierOk(id, MAX_IDENTIFIER)
  {
    var i :| 0 <= i < |req.messageIds| && req.messageIds[i] == id;
  }

  lemma RecordedRow(t: Table, store: Store, req: Request, now: int, id: string, digest: seq<string> -> string)
    requires store.maxBindings > 0
    requires Record(t, store, req, now, digest).result.Ok? && id in WrittenIds(req)
    ensures Validate(req).Ok?
    ensures
      var u := Record(t, store, req, now, digest).table;
      var k := RowKey(store.profile, digest(ScopeFields(req.sessionKey)), id);
      var row := NewRow(store, req, Validate(req).value, now);
      && (k in u ==> u[k] == if k in t && !Expired(t[k], now) then t[k] else row)
      && (k in u && k in t && !Expired(t[k], now) ==> SameAttribution(t[k], row))
  {
    RecordKeepsLast(t, store, req, now, digest);
    RecordFailsIff(t, store, req, now, digest);
  }

  /** A retention of ten thousand years is accepted, and every binding it writes in 2026 is gone at once. */
  lemma LongRetentionExpiresAtOnce(t: Table, req: Request, digest: seq<string> -> string, id: string)
    requires var store := Store("p", 315576000000000, 10); var now := 1767225600000;
      && Record(t, store, req, now, digest).result.Ok? && id in WrittenIds(req)
      && RowKey("p", digest(ScopeFields(req.sessionKey)), id) !in t
    ensures var store := Store("p", 315576000000000, 10); var now := 1767225600000;
      Resolve(Record(t, store, req, now, digest).table, store, req.sessionKey, id, now, digest) == Ok(None)
  {
    RecordedResolvesIff(t, Store("p", 315576000000000, 10), req, 1767225600000, id, digest);
  }
}
