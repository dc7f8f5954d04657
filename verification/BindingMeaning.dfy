/** What recording and resolving mean for a caller: which requests are accepted, which ids of a request are written, what a
    resolved row says, and which rows a full profile gives up. */
module BindingMeaning {
  import opened Wrappers
  import opened TextOrder
  import opened IsoDates
  import opened BindingTable
  import opened BindingRuns

  // ---------------------------------------------------------------- acceptance

  /** Not empty, not too long, without control characters. */
  predicate Legible(s: string, max: nat) {
    s != "" && |s| <= max && forall c :: c in s ==> ' ' <= c < '\U{7F}' || c > '\U{9F}'
  }

  predicate LegibleIfGiven(s: Option<string>, max: nat) { s.Some? ==> Legible(s.value, max) }

  predicate LegibleKey(k: SessionKey) {
    && Legible(k.platform, 64) && LegibleIfGiven(k.chatType, 64) && Legible(k.chatId, 512)
    && LegibleIfGiven(k.accountId, 512) && LegibleIfGiven(k.threadId, 512) && LegibleIfGiven(k.userId, 512)
  }

  predicate LegibleRequest(req: Request) {
    && LegibleKey(req.sessionKey) && req.direction in {"inbound", "outbound"}
    && Legible(req.sessionId, 512) && Legible(req.turnId, 512)
    && forall id :: id in req.messageIds ==> Legible(id, 512)
  }

  lemma LegibleIff(s: string, max: nat)
    ensures IdentifierOk(s, max) <==> Legible(s, max)
  {
    if IdentifierOk(s, max) {
      forall c | c in s ensures ' ' <= c < '\U{7F}' || c > '\U{9F}' {
        var i :| 0 <= i < |s| && s[i] == c;
      }
    }
    if Legible(s, max) {
      forall i | 0 <= i < |s| ensures !IsControl(s[i]) { assert s[i] in s; }
    }
  }

  lemma LegibleIfGivenIff(s: Option<string>, max: nat)
    ensures OptionalOk(s, max) <==> LegibleIfGiven(s, max)
  {
    if s.Some? { LegibleIff(s.value, max); }
  }

  lemma LegibleKeyIff(k: SessionKey)
    ensures ScopeOk(k) <==> LegibleKey(k)
  {
    LegibleIff(k.platform, 64);
    LegibleIff(k.chatId, 512);
    LegibleIfGivenIff(k.chatType, 64);
    LegibleIfGivenIff(k.accountId, 512);
    LegibleIfGivenIff(k.threadId, 512);
    LegibleIfGivenIff(k.userId, 512);
  }

  lemma LegibleRequestIff(req: Request)
    ensures Validate(req).Ok? <==> LegibleRequest(req)
    ensures Validate(req).Ok? ==> (Validate(req).value == Inbound <==> req.direction == "inbound")
  {
    LegibleKeyIff(req.sessionKey);
    LegibleIff(req.sessionId, 512);
    LegibleIff(req.turnId, 512);
    if LegibleRequest(req) {
      forall i | 0 <= i < |req.messageIds| ensures IdentifierOk(req.messageIds[i], 512) {
        assert req.messageIds[i] in req.messageIds;
        LegibleIff(req.messageIds[i], 512);
      }
    }
    if Validate(req).Ok? {
      forall id | id in req.messageIds ensures Legible(id, 512) {
        var i :| 0 <= i < |req.messageIds| && req.messageIds[i] == id;
        LegibleIff(id, 512);
      }
    }
  }

  // ---------------------------------------------------------------- which ids are written

  /** The id first occurs at `i`, after fewer than 256 other ids. */
  ghost predicate WrittenAt(ids: seq<string>, id: string, i: nat) {
    i < |ids| && ids[i] == id && id !in ids[..i] && |set x | x in ids[..i]| < 256
  }

  lemma {:induction false} DistinctCounts(ids: seq<string>)
    ensures |Distinct(ids)| == |set x | x in ids|
    decreases |ids|
  {
    if ids == [] {
      assert (set x | x in ids) == {};
    } else {
      var front, last := ids[..|ids| - 1], ids[|ids| - 1];
      assert ids == front + [last];
      DistinctCounts(front);
      assert (set x | x in ids) == (set x | x in front) + {last};
      if last in front { assert (set x | x in ids) == (set x | x in front); }
    }
  }

  /** The first `n` ids keep their places. */
  lemma {:induction false} DistinctGrows(ids: seq<string>, n: nat)
    requires n <= |ids|
    ensures Distinct(ids[..n]) <= Distinct(ids)
    decreases |ids|
  {
    if n < |ids| {
      var front := ids[..|ids| - 1];
      DistinctGrows(front, n);
      assert front[..n] == ids[..n];
    } else {
      assert ids[..n] == ids;
    }
  }

  /** An id's place among the distinct ones is the number of distinct ids before it. */
  lemma PlaceOf(ids: seq<string>, i: nat)
    requires i < |ids| && ids[i] !in ids[..i]
    ensures var p := |set x | x in ids[..i]|;
      p < |Distinct(ids)| && Distinct(ids)[p] == ids[i]
  {
    DistinctCounts(ids[..i]);
    DistinctGrows(ids, i + 1);
    assert ids[..i + 1][..i] == ids[..i];
    assert Distinct(ids[..i + 1]) == Distinct(ids[..i]) + [ids[i]];
  }

  lemma {:induction false} FirstPlace(ids: seq<string>, id: string)
    requires id in ids
    ensures exists i: nat :: i < |ids| && ids[i] == id && id !in ids[..i]
    decreases |ids|
  {
    var front, last := ids[..|ids| - 1], ids[|ids| - 1];
    assert ids == front + [last];
    if id in front {
      FirstPlace(front, id);
      var i: nat :| i < |front| && front[i] == id && id !in front[..i];
      assert ids[i] == id && ids[..i] == front[..i];
    } else {
      assert ids[|front|] == id && ids[..|front|] == front;
    }
  }

  /** A request writes the ids that occur in it after fewer than 256 others: all of them up to 256. */
  lemma WrittenIff(req: Request, id: string)
    ensures id in WrittenIds(req) <==> exists i: nat :: WrittenAt(req.messageIds, id, i)
  {
    var ids, d := req.messageIds, Distinct(req.messageIds);
    if i: nat :| WrittenAt(ids, id, i) {
      PlaceOf(ids, i);
      var p := |set x | x in ids[..i]|;
      assert WrittenIds(req)[p] == id;
    }
    if id in WrittenIds(req) {
      FirstPlace(ids, id);
      var i: nat :| i < |ids| && ids[i] == id && id !in ids[..i];
      PlaceOf(ids, i);
      var q :| 0 <= q < |WrittenIds(req)| && WrittenIds(req)[q] == id;
      assert d[q] == id;
      assert WrittenAt(ids, id, i);
    }
  }

  // ---------------------------------------------------------------- what a resolved row says

  /** The row names the session, turn and direction of the request. */
  predicate Names(row: Row, req: Request) {
    row.sessionId == req.sessionId && row.turnId == req.turnId && (row.direction == Inbound <==> req.direction == "inbound")
  }

  /** A recorded id that resolves does so to the session, turn and direction it was recorded for; a row written by this
      very call also carries its channel and its dates. */
  lemma ResolvedNames(t: Table, store: Store, req: Request, now: int, id: string, digest: seq<string> -> string)
    requires store.maxBindings > 0
    requires Record(t, store, req, now, digest).result.Ok? && id in WrittenIds(req)
    ensures
      var u := Record(t, store, req, now, digest).table;
      var k := RowKey(store.profile, digest(ScopeFields(req.sessionKey)), id);
      var r := Resolve(u, store, req.sessionKey, id, now, digest);
      && r.Ok?
      && (r.value.Some? ==> Names(r.value.value, req))
      && (r.value.Some? && (k in t ==> Expired(t[k], now)) ==>
            r.value.value.channel == req.sessionKey.platform && r.value.value.createdAt == now
            && r.value.value.expiresAt == now + store.retentionMs)
  {
    WrittenIdIsValid(req, id);
    RecordedRow(t, store, req, now, id, digest);
    LegibleRequestIff(req);
  }

  /** A call without problems: its target is the turn's user message in this profile, its expiry can be written as a date,
      and every id it writes is free or bound, and not expired, to the same session, turn and direction. */
  ghost predicate Recordable(t: Table, store: Store, req: Request, now: int, digest: seq<string> -> string) {
    && req.session == Some(store.profile) && req.turn == Some(Turn(store.profile, "user", req.sessionId))
    && now + store.retentionMs <= MAX_TIME
    && forall id :: id in WrittenIds(req) ==>
         var k := RowKey(store.profile, digest(ScopeFields(req.sessionKey)), id);
         k in t && !Expired(t[k], now) ==> Names(t[k], req)
  }

  /** Recording succeeds exactly for a legible request that has no ids or no problems. */
  lemma RecordedIff(t: Table, store: Store, req: Request, now: int, digest: seq<string> -> string)
    requires store.maxBindings > 0
    ensures Record(t, store, req, now, digest).result.Ok? <==>
      LegibleRequest(req) && (req.messageIds == [] || Recordable(t, store, req, now, digest))
  {
    LegibleRequestIff(req);
    RecordFailsIff(t, store, req, now, digest);
    if Validate(req).Ok? { FreeIff(t, store, req, now, digest); }
    SomeWritten(req);
  }

  lemma SomeWritten(req: Request)
    ensures WrittenIds(req) == [] <==> req.messageIds == []
  {
    if req.messageIds != [] {
      assert req.messageIds[..0] == [] && (set x | x in req.messageIds[..0]) == {};
      assert WrittenAt(req.messageIds, req.messageIds[0], 0);
      WrittenIff(req, req.messageIds[0]);
    }
  }

  lemma FreeIff(t: Table, store: Store, req: Request, now: int, digest: seq<string> -> string)
    requires Validate(req).Ok?
    ensures var scope := digest(ScopeFields(req.sessionKey));
      AttributionFree(t, store, scope, WrittenIds(req), NewRow(store, req, Validate(req).value, now)) <==>
      forall id :: id in WrittenIds(req) ==>
        var k := RowKey(store.profile, scope, id); k in t && !Expired(t[k], now) ==> Names(t[k], req)
  {
    LegibleRequestIff(req);
  }

  // ---------------------------------------------------------------- which rows are given up

  ghost predicate Dated(t: Table) { forall k :: k in t ==> IsDate(t[k].createdAt) && IsDate(t[k].expiresAt) }

  /** Created earlier by the printed date, or at the same time with the smaller scope or id. */
  ghost predicate Older(t: Table, a: RowKey, b: RowKey)
    requires Dated(t) && a in t && b in t
  {
    var x, y := IsoText(t[a].createdAt), IsoText(t[b].createdAt);
    TextLess(x, y) || (x == y && (TextLess(a.scope, b.scope) || (a.scope == b.scope && TextLess(a.messageId, b.messageId))))
  }

  /** A row counts as expired exactly when its printed expiry does not come after the printed present. */
  lemma ExpiredIff(row: Row, now: int)
    requires IsDate(row.expiresAt) && IsDate(now)
    ensures Expired(row, now) <==> IsoText(row.expiresAt) == IsoText(now) || TextLess(IsoText(row.expiresAt), IsoText(now))
  {
    IsoOrder(now, row.expiresAt);
    TextOrderIsTotal(IsoText(now), IsoText(row.expiresAt));
  }

  lemma OlderIff(t: Table, a: RowKey, b: RowKey)
    requires Dated(t) && a in t && b in t
    ensures Before(t, a, b) <==> Older(t, a, b)
  {
    IsoOrder(t[a].createdAt, t[b].createdAt);
  }

  /** A full profile gives up its oldest rows: whatever pruning removes is expired, or older than all it leaves. */
  lemma PrunedAreOldest(t: Table, store: Store, now: int, gone: RowKey, kept: RowKey)
    requires store.maxBindings > 0 && Dated(t) && IsDate(now)
    requires gone in t && gone !in Prune(t, store, now) && kept in Prune(t, store, now) && kept.profile == store.profile
    ensures gone.profile == store.profile && kept in t
    ensures !TextLess(IsoText(now), IsoText(t[gone].expiresAt)) || Older(t, gone, kept)
  {
    PruneKeepsLast(t, store, now);
    IsoOrder(now, t[gone].expiresAt);
    var u := Unexpired(t, store.profile, now);
    if gone in u {
      assert Before(u, gone, kept);
      OlderIff(u, gone, kept);
    }
  }

  lemma PoolIsDated(t: Table, store: Store, scope: string, ids: seq<string>, row: Row)
    requires Dated(t) && IsDate(row.createdAt) && IsDate(row.expiresAt)
    ensures Dated(Pool(t, store, scope, ids, row))
  {}

  lemma GoneIsOlder(pool: Table, after: Table, store: Store, gone: RowKey, kept: RowKey)
    requires KeepsLast(pool, after, store.profile, store.maxBindings) && Dated(pool)
    requires gone in pool && gone !in after && kept in after && kept.profile == store.profile
    ensures gone.profile == store.profile && kept in pool && Older(pool, gone, kept)
  {
    assert Before(pool, gone, kept);
    OlderIff(pool, gone, kept);
  }

  /** So does recording, of the rows there are once the new ones are added. */
  lemma RecordGivesUpOldest(t: Table, store: Store, req: Request, now: int, digest: seq<string> -> string, gone: RowKey, kept: RowKey)
    requires store.maxBindings > 0 && store.retentionMs > 0 && Dated(t) && IsDate(now)
    requires Record(t, store, req, now, digest).result.Ok? && WrittenIds(req) != []
    requires var row := NewRow(store, req, Validate(req).value, now);
      var pool, u := Pool(t, store, digest(ScopeFields(req.sessionKey)), WrittenIds(req), row), Record(t, store, req, now, digest).table;
      gone in pool && gone !in u && kept in u && kept.profile == store.profile
    ensures var pool := Pool(t, store, digest(ScopeFields(req.sessionKey)), WrittenIds(req), NewRow(store, req, Validate(req).value, now));
      gone.profile == store.profile && Dated(pool) && kept in pool && Older(pool, gone, kept)
  {
    var row := NewRow(store, req, Validate(req).value, now);
    var pool := Pool(t, store, digest(ScopeFields(req.sessionKey)), WrittenIds(req), row);
    RecordKeepsLast(t, store, req, now, digest);
    RecordedIff(t, store, req, now, digest);
    SomeWritten(req);
    PoolIsDated(t, store, digest(ScopeFields(req.sessionKey)), WrittenIds(req), row);
    GoneIsOlder(pool, Record(t, store, req, now, digest).table, store, gone, kept);
  }
}
