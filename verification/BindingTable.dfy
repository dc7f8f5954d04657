/** The table that attributes platform messages to the turn they belong to: what one committed write does. */
module BindingTable {
  import opened Wrappers
  import opened TextOrder

  datatype Direction = Inbound | Outbound

  datatype RowKey = RowKey(profile: string, scope: string, messageId: string)

  datatype Row = Row(channel: string, sessionId: string, turnId: string, direction: Direction,
                     createdAt: int, expiresAt: int)

  type Table = map<RowKey, Row>

  /** The settings of one store; several stores share the table. */
  datatype Store = Store(profile: string, retentionMs: int, maxBindings: int)

  datatype SessionKey = SessionKey(platform: string, accountId: Option<string>, chatType: Option<string>,
                                   chatId: string, threadId: Option<string>, userId: Option<string>)

  datatype Turn = Turn(profile: string, role: string, sessionId: string)

  datatype Failure = Invalid(what: string) | TargetInvalid | Immutable | DateOutOfRange

  /** The digest is a parameter; `session` and `turn` are what the two lookups of the target found. */
  datatype Request = Request(sessionKey: SessionKey, messageIds: seq<string>, direction: string,
                             sessionId: string, turnId: string, session: Option<string>, turn: Option<Turn>)

  const MAX_IDENTIFIER := 512
  const MAX_IDS := 256

  predicate IsControl(c: char) { c < ' ' || '\U{7F}' <= c <= '\U{9F}' }

  predicate IdentifierOk(s: string, max: nat) {
    0 < |s| <= max && forall i :: 0 <= i < |s| ==> !IsControl(s[i])
  }

  predicate OptionalOk(s: Option<string>, max: nat) { s.None? || IdentifierOk(s.value, max) }

  predicate ScopeOk(k: SessionKey) {
    && IdentifierOk(k.platform, 64) && OptionalOk(k.accountId, MAX_IDENTIFIER) && OptionalOk(k.chatType, 64)
    && IdentifierOk(k.chatId, MAX_IDENTIFIER) && OptionalOk(k.threadId, MAX_IDENTIFIER)
    && OptionalOk(k.userId, MAX_IDENTIFIER)
  }

  function OrEmpty(s: Option<string>): string { if s.None? then "" else s.value }

  /** The six texts that are hashed. */
  function ScopeFields(k: SessionKey): seq<string> {
    [k.platform, OrEmpty(k.accountId), OrEmpty(k.chatType), k.chatId, OrEmpty(k.threadId), OrEmpty(k.userId)]
  }

  lemma ScopesStayApart(a: SessionKey, b: SessionKey, digest: seq<string> -> string)
    requires ScopeOk(a) && ScopeOk(b)
    requires forall x: seq<string>, y: seq<string> :: digest(x) == digest(y) ==> x == y
    ensures digest(ScopeFields(a)) == digest(ScopeFields(b)) ==> a == b
  {
    var x, y := ScopeFields(a), ScopeFields(b);
    if digest(x) == digest(y) {
      assert forall i :: 0 <= i < 6 ==> x[i] == y[i];
      assert x[0] == y[0] && x[1] == y[1] && x[2] == y[2] && x[3] == y[3] && x[4] == y[4] && x[5] == y[5];
    }
  }

  function ParseDirection(s: string): Option<Direction> {
    if s == "inbound" then Some(Inbound) else if s == "outbound" then Some(Outbound) else None
  }

  /** First occurrences, in order. */
  function Distinct(ids: seq<string>): (r: seq<string>)
    ensures NoDuplicates(r) && forall x :: x in r <==> x in ids
  {
    if ids == [] then []
    else
      var rest := Distinct(ids[..|ids| - 1]);
      assert ids == ids[..|ids| - 1] + [ids[|ids| - 1]];
      if ids[|ids| - 1] in rest then rest else rest + [ids[|ids| - 1]]
  }

  function WrittenIds(req: Request): (r: seq<string>)
    ensures NoDuplicates(r) && |r| <= MAX_IDS && forall x :: x in r ==> x in req.messageIds
    ensures |Distinct(req.messageIds)| <= MAX_IDS ==> forall x :: x in req.messageIds ==> x in r
  {
    var d := Distinct(req.messageIds);
    if |d| <= MAX_IDS then d else d[..MAX_IDS]
  }

  /** Whatever is rejected before the database is looked at. */
  function Validate(req: Request): Result<Direction, Failure> {
    if !IdentifierOk(req.sessionKey.platform, 64) then Err(Invalid("channel"))
    else if !ScopeOk(req.sessionKey) then Err(Invalid("scope"))
    else if ParseDirection(req.direction).None? then Err(Invalid("direction"))
    else if !IdentifierOk(req.sessionId, MAX_IDENTIFIER) then Err(Invalid("sessionId"))
    else if !IdentifierOk(req.turnId, MAX_IDENTIFIER) then Err(Invalid("turnId"))
    else if exists i :: 0 <= i < |req.messageIds| && !IdentifierOk(req.messageIds[i], MAX_IDENTIFIER)
      then Err(Invalid("platformMessageId"))
    else Ok(ParseDirection(req.direction).value)
  }

  predicate TargetOk(store: Store, req: Request) {
    && req.session == Some(store.profile)
    && req.turn.Some?
    && req.turn.value == Turn(store.profile, "user", req.sessionId)
  }

  predicate Expired(row: Row, now: int) { !DateLess(now, row.expiresAt) }

  function Unexpired(t: Table, profile: string, now: int): Table {
    map k | k in t && !(k.profile == profile && Expired(t[k], now)) :: t[k]
  }

  function Rows(t: Table, profile: string): set<RowKey> { set k | k in t && k.profile == profile }

  /** Eviction order of two rows of one profile. */
  predicate Before(t: Table, a: RowKey, b: RowKey)
    requires a in t && b in t
  {
    || DateLess(t[a].createdAt, t[b].createdAt)
    || (t[a].createdAt == t[b].createdAt && TextLess(a.scope, b.scope))
    || (t[a].createdAt == t[b].createdAt && a.scope == b.scope && TextLess(a.messageId, b.messageId))
  }

  lemma BeforeIsTotal(t: Table, a: RowKey, b: RowKey)
    requires a in t && b in t && a.profile == b.profile
    ensures Before(t, a, b) || Before(t, b, a) || a == b
    ensures !(Before(t, a, b) && Before(t, b, a))
  {
    TextOrderIsTotal(a.scope, b.scope);
    TextOrderIsTotal(a.messageId, b.messageId);
  }

  lemma BeforeIsTransitive(t: Table, a: RowKey, b: RowKey, c: RowKey)
    requires a in t && b in t && c in t && Before(t, a, b) && Before(t, b, c)
    ensures Before(t, a, c)
  {
    if t[a].createdAt == t[b].createdAt == t[c].createdAt {
      if TextLess(a.scope, b.scope) && TextLess(b.scope, c.scope) {
        TextOrderIsTransitive(a.scope, b.scope, c.scope);
      }
      if TextLess(a.messageId, b.messageId) && TextLess(b.messageId, c.messageId) {
        TextOrderIsTransitive(a.messageId, b.messageId, c.messageId);
      }
    }
  }

  ghost predicate IsFirst(t: Table, keys: set<RowKey>, k: RowKey) {
    && k in keys
    && forall o :: o in keys && o != k ==> k in t && o in t && Before(t, k, o)
  }

  lemma {:induction false} FirstExists(t: Table, profile: string, keys: set<RowKey>)
    requires keys != {} && keys <= Rows(t, profile)
    ensures exists k :: IsFirst(t, keys, k)
    decreases |keys|
  {
    var x :| x in keys;
    if keys == {x} {
      assert IsFirst(t, keys, x);
    } else {
      FirstExists(t, profile, keys - {x});
      var k :| IsFirst(t, keys - {x}, k);
      BeforeIsTotal(t, x, k);
      if Before(t, x, k) {
        forall o | o in keys && o != x ensures Before(t, x, o) {
          if o != k { BeforeIsTransitive(t, x, k, o); }
        }
        assert IsFirst(t, keys, x);
      } else {
        assert IsFirst(t, keys, k);
      }
    }
  }

  ghost function First(t: Table, profile: string): (k: RowKey)
    requires Rows(t, profile) != {}
    ensures IsFirst(t, Rows(t, profile), k)
  {
    FirstExists(t, profile, Rows(t, profile));
    var k :| IsFirst(t, Rows(t, profile), k);
    k
  }

  /** The first `n` rows of the profile taken away. */
  ghost function Evict(t: Table, profile: string, n: nat): Table {
    if n == 0 || Rows(t, profile) == {} then t
    else Evict(t - {First(t, profile)}, profile, n - 1)
  }

  function Excess(t: Table, store: Store): nat {
    if |Rows(t, store.profile)| > store.maxBindings >= 0 then |Rows(t, store.profile)| - store.maxBindings else 0
  }

  ghost function Bounded(t: Table, store: Store): Table { Evict(t, store.profile, Excess(t, store)) }

  /** `after` holds the last `max` rows of the profile's rows in `before`, and everything of the other profiles. */
  ghost predicate KeepsLast(before: Table, after: Table, profile: string, max: int) {
    && (forall k :: k in after ==> k in before && after[k] == before[k])
    && (forall k :: k in before && k.profile != profile ==> k in after)
    && |Rows(after, profile)| == (if |Rows(before, profile)| <= max then |Rows(before, profile)| else max)
    && (forall gone, kept :: gone in Rows(before, profile) && gone !in after && kept in Rows(after, profile)
         ==> Before(before, gone, kept))
  }

  lemma {:induction false} EvictKeepsLast(t: Table, profile: string, n: nat)
    requires n <= |Rows(t, profile)|
    ensures KeepsLast(t, Evict(t, profile, n), profile, |Rows(t, profile)| - n)
  {
    if n > 0 {
      assert Rows(t, profile) != {};
      var f := First(t, profile);
      var u := t - {f};
      assert Rows(u, profile) == Rows(t, profile) - {f};
      EvictKeepsLast(u, profile, n - 1);
      var after := Evict(u, profile, n - 1);
      forall gone, kept | gone in Rows(t, profile) && gone !in after && kept in Rows(after, profile)
        ensures Before(t, gone, kept)
      {
        if gone != f { assert Before(u, gone, kept); }
      }
    }
  }

  lemma BoundedKeepsLast(t: Table, store: Store)
    requires store.maxBindings > 0
    ensures KeepsLast(t, Bounded(t, store), store.profile, store.maxBindings)
  {
    EvictKeepsLast(t, store.profile, Excess(t, store));
  }

  /** Keeping the last rows leaves no choice. */
  lemma KeepsLastIsUnique(before: Table, x: Table, y: Table, profile: string, max: int)
    requires KeepsLast(before, x, profile, max) && KeepsLast(before, y, profile, max)
    ensures x == y
  {
    LastRowsAgree(before, x, y, profile, max);
    LastRowsAgree(before, y, x, profile, max);
    forall k ensures k in x <==> k in y {
      assert k.profile == profile ==> (k in x <==> k in Rows(x, profile)) && (k in y <==> k in Rows(y, profile));
    }
  }

  lemma LastRowsAgree(before: Table, x: Table, y: Table, profile: string, max: int)
    requires KeepsLast(before, x, profile, max) && KeepsLast(before, y, profile, max)
    ensures Rows(x, profile) <= Rows(y, profile)
  {
    var a, b := Rows(x, profile), Rows(y, profile);
    forall k | k in a ensures k in b {
      if k !in b {
        SameSize(a, b, k);
        var o :| o in b && o !in a;
        BeforeIsTotal(before, k, o);
        assert false;
      }
    }
  }

  lemma SameSize<T>(a: set<T>, b: set<T>, k: T)
    requires |a| == |b| && k in a && k !in b
    ensures exists o :: o in b && o !in a
  {
    if b <= a {
      assert b <= a - {k};
      Subset(b, a - {k});
    }
  }

  lemma {:induction false} Subset<T>(a: set<T>, b: set<T>)
    requires a <= b
    ensures |a| <= |b|
  {
    if a != {} {
      var x :| x in a;
      Subset(a - {x}, b - {x});
    }
  }

  function NewRow(store: Store, req: Request, d: Direction, now: int): Row {
    Row(req.sessionKey.platform, req.sessionId, req.turnId, d, now, now + store.retentionMs)
  }

  predicate SameAttribution(a: Row, b: Row) {
    a.sessionId == b.sessionId && a.turnId == b.turnId && a.direction == b.direction
  }

  /** An id that is bound keeps its row; a different attribution fails. */
  function InsertEach(t: Table, profile: string, scope: string, ids: seq<string>, row: Row): Result<Table, Failure>
    decreases |ids|
  {
    if ids == [] then Ok(t)
    else
      var k := RowKey(profile, scope, ids[0]);
      if k !in t then InsertEach(t[k := row], profile, scope, ids[1..], row)
      else if !SameAttribution(t[k], row) then Err(Immutable)
      else InsertEach(t, profile, scope, ids[1..], row)
  }

  /** Insertion succeeds exactly when no id is attributed elsewhere, and then adds the ids that were not bound. */
  lemma {:induction false} InsertEachIff(t: Table, profile: string, scope: string, ids: seq<string>, row: Row)
    ensures InsertEach(t, profile, scope, ids, row).Ok? <==>
      forall id :: id in ids && RowKey(profile, scope, id) in t ==> SameAttribution(t[RowKey(profile, scope, id)], row)
    ensures InsertEach(t, profile, scope, ids, row).Ok? ==>
      var r := InsertEach(t, profile, scope, ids, row).value;
      && (forall k :: k in r <==> k in t || (k.profile == profile && k.scope == scope && k.messageId in ids))
      && (forall k :: k in r ==> r[k] == if k in t then t[k] else row)
    ensures InsertEach(t, profile, scope, ids, row).Err? ==> InsertEach(t, profile, scope, ids, row).error == Immutable
    decreases |ids|
  {
    if ids != [] {
      assert ids == [ids[0]] + ids[1..];
      var k := RowKey(profile, scope, ids[0]);
      InsertEachIff(if k in t then t else t[k := row], profile, scope, ids[1..], row);
    }
  }

  datatype Outcome = Outcome(table: Table, result: Result<(), Failure>)

  /** One transaction: expiry, insertion and eviction, or nothing. */
  ghost function Write(t: Table, store: Store, scope: string, ids: seq<string>, row: Row): Outcome {
    var i := InsertEach(Unexpired(t, store.profile, row.createdAt), store.profile, scope, ids, row);
    if i.Err? then Outcome(t, Err(i.error)) else Outcome(Bounded(i.value, store), Ok(()))
  }

  /** A failed call leaves the table alone; a call without ids does nothing, not even expiry. */
  ghost function Record(t: Table, store: Store, req: Request, now: int, digest: seq<string> -> string): Outcome {
    var v := Validate(req);
    if v.Err? then Outcome(t, Err(v.error))
    else if WrittenIds(req) == [] then Outcome(t, Ok(()))
    else if !TargetOk(store, req) then Outcome(t, Err(TargetInvalid))
    else if now + store.retentionMs > MAX_TIME then Outcome(t, Err(DateOutOfRange))
    else Write(t, store, digest(ScopeFields(req.sessionKey)), WrittenIds(req), NewRow(store, req, v.value, now))
  }

  ghost function Prune(t: Table, store: Store, now: int): Table { Bounded(Unexpired(t, store.profile, now), store) }

  function Resolve(t: Table, store: Store, sessionKey: SessionKey, id: string, now: int,
                   digest: seq<string> -> string): Result<Option<Row>, Failure>
  {
    if !ScopeOk(sessionKey) then Err(Invalid("scope"))
    else if !IdentifierOk(id, MAX_IDENTIFIER) then Err(Invalid("platformMessageId"))
    else
      var k := RowKey(store.profile, digest(ScopeFields(sessionKey)), id);
      if k in t && DateLess(now, t[k].expiresAt) then Ok(Some(t[k])) else Ok(None)
  }
}
