/** The store itself: one shared table changed inside a transaction, with a rollback when a binding is refused. */
module BindingStore {
  import opened Wrappers
  import opened TextOrder
  import opened BindingTable

  class TurnStore {
    var table: Table
    const store: Store
    const digest: seq<string> -> string

    constructor (table: Table, store: Store, digest: seq<string> -> string)
      ensures this.table == table && this.store == store && this.digest == digest
    {
      this.table, this.store, this.digest := table, store, digest;
    }

    method Record(req: Request, now: int) returns (r: Result<(), Failure>)
      modifies this`table
      ensures Outcome(table, r) == BindingTable.Record(old(table), store, req, now, digest)
    {
      var v := Validate(req);
      if v.Err? { return Err(v.error); }
      var ids := WrittenIds(req);
      if ids == [] { return Ok(()); }
      if !TargetOk(store, req) { return Err(TargetInvalid); }
      if now + store.retentionMs > MAX_TIME { return Err(DateOutOfRange); }
      var begun := table;
      var expired := DeleteExpired(now);
      var inserted := InsertAll(digest(ScopeFields(req.sessionKey)), ids, NewRow(store, req, v.value, now));
      if inserted.Err? {
        table := begun;
        return inserted;
      }
      var excess := DeleteExcess();
      return Ok(());
    }

    /** Rows already inserted stay when a later id is refused: the caller rolls back. */
    method InsertAll(scope: string, ids: seq<string>, row: Row) returns (r: Result<(), Failure>)
      modifies this`table
      ensures var i := InsertEach(old(table), store.profile, scope, ids, row);
        if i.Ok? then r == Ok(()) && table == i.value else r == Err(i.error)
    {
      for i := 0 to |ids|
        invariant InsertEach(old(table), store.profile, scope, ids, row)
               == InsertEach(table, store.profile, scope, ids[i..], row)
      {
        assert ids[i..][0] == ids[i] && ids[i..][1..] == ids[i + 1..];
        var k := RowKey(store.profile, scope, ids[i]);
        if k in table {
          if !SameAttribution(table[k], row) { return Err(Immutable); }
        } else {
          table := table[k := row];
        }
      }
      return Ok(());
    }

    method DeleteExpired(now: int) returns (changes: int)
      modifies this`table
      ensures table == Unexpired(old(table), store.profile, now)
      ensures changes == |old(table)| - |table|
    {
      var before := |table|;
      table := Unexpired(table, store.profile, now);
      changes := before - |table|;
    }

    method DeleteExcess() returns (changes: nat)
      modifies this`table
      ensures table == Bounded(old(table), store) && changes == Excess(old(table), store)
    {
      changes := Excess(table, store);
      for i := 0 to changes
        invariant Evict(old(table), store.profile, changes) == Evict(table, store.profile, changes - i)
        invariant |Rows(table, store.profile)| >= changes - i
      {
        var k := FindFirst();
        assert Rows(table - {k}, store.profile) == Rows(table, store.profile) - {k};
        table := table - {k};
      }
    }

    method FindFirst() returns (k: RowKey)
      requires Rows(table, store.profile) != {}
      ensures k in table && k.profile == store.profile && k == First(table, store.profile)
    {
      var rest := Rows(table, store.profile);
      ghost var seen: set<RowKey> := {};
      k :| k in rest;
      seen, rest := {k}, rest - {k};
      while rest != {}
        invariant seen + rest == Rows(table, store.profile) && IsFirst(table, seen, k)
        decreases |rest|
      {
        var o :| o in rest;
        BeforeIsTotal(table, k, o);
        if Before(table, o, k) {
          forall x | x in seen && x != o ensures Before(table, o, x) {
            if x != k { BeforeIsTransitive(table, o, k, x); }
          }
          k := o;
        }
        seen, rest := seen + {o}, rest - {o};
      }
      assert seen == Rows(table, store.profile);
      BeforeIsTotal(table, k, First(table, store.profile));
    }

    method Prune(now: int) returns (expired: int, excess: nat)
      modifies this`table
      ensures table == BindingTable.Prune(old(table), store, now)
      ensures expired == |old(table)| - |Unexpired(old(table), store.profile, now)|
      ensures excess == Excess(Unexpired(old(table), store.profile, now), store)
    {
      expired := DeleteExpired(now);
      excess := DeleteExcess();
    }

    /** The row of this profile, scope and message, unless it is missing or has expired. */
    method Resolve(sessionKey: SessionKey, id: string, now: int) returns (r: Result<Option<Row>, Failure>)
      ensures r == BindingTable.Resolve(table, store, sessionKey, id, now, digest)
      ensures r.Ok? <==> ScopeOk(sessionKey) && IdentifierOk(id, MAX_IDENTIFIER)
      ensures var k := RowKey(store.profile, digest(ScopeFields(sessionKey)), id);
        r.Ok? ==> && (r.value.Some? <==> k in table && DateLess(now, table[k].expiresAt))
                  && (r.value.Some? ==> r.value.value == table[k])
    {
      if !ScopeOk(sessionKey) { return Err(Invalid("scope")); }
      if !IdentifierOk(id, MAX_IDENTIFIER) { return Err(Invalid("platformMessageId")); }
      var k := RowKey(store.profile, digest(ScopeFields(sessionKey)), id);
      if k !in table || !DateLess(now, table[k].expiresAt) { return Ok(None); }
      r := Ok(Some(table[k]));
    }
  }
}
