/**
  The database object: one connection, at most one open transaction, and a semaphore with one
  permit that the open transaction holds. Each method is proved against the functions of
  `Keystore`. A section protected by a lock is one step; waiting for the permit appears as a
  precondition that the permit is free.
 */
module Database {
  import opened Base
  import K = Keystore

  class Database {
    const backend: K.Backend
    var conn: Option<K.Rows>
    var transaction: Option<K.Tx>
    var permits: nat

    ghost predicate Valid()
      reads this
    {
      && K.Valid(State())
      && permits == if transaction.Some? then 0 else 1
    }

    ghost function State(): (db: K.Db)
      reads this
    {
      K.Db(backend, conn, transaction)
    }

    constructor Open(backend: K.Backend, rows: K.Rows)
      ensures Valid()
      ensures State() == K.Db(backend, Some(rows), None)
    {
      this.backend := backend;
      conn, transaction, permits := Some(rows), None, 1;
    }

    /** Completes once the permit is free. */
    method NewTransaction()
      requires Valid() && permits > 0
      modifies this
      ensures Valid() && State() == K.Begin(old(State())).0
      ensures old(transaction).None? && transaction.Some?
    {
      permits := permits - 1;
      transaction := Some(K.EMPTY_TX);
    }

    method TryNewImmediateTransaction() returns (r: Result<(), K.Error>)
      requires Valid()
      modifies this
      ensures Valid() && (State(), r) == K.Begin(old(State()))
    {
      if permits == 0 {
        return Err(K.TransactionInProgress);
      }
      permits := permits - 1;
      transaction := Some(K.EMPTY_TX);
      return Ok(());
    }

    method RollbackTransaction() returns (r: Result<(), K.Error>)
      requires Valid()
      modifies this
      ensures Valid() && (State(), r) == K.Rollback(old(State()))
    {
      if transaction.None? {
        return Err(K.MutatingOperationWithoutTransaction);
      }
      transaction, permits := None, permits + 1;
      return Ok(());
    }

    /** Writes every buffered save, then every buffered deletion, or nothing at all. */
    method CommitTransaction(io: bool) returns (r: Result<(), K.Error>)
      requires Valid()
      modifies this
      ensures Valid() && (State(), r) == K.Commit(old(State()), io)
    {
      if transaction.None? {
        return Err(K.MutatingOperationWithoutTransaction);
      }
      if conn.None? {
        return Err(K.Closed);
      }
      var tx := transaction.value;
      if tx.cache == map[] && tx.deleted == {} {
        transaction, permits := None, permits + 1;
        return Ok(());
      }
      var saved := SaveAll(backend, conn.value, tx);
      if saved.Err? {
        return Err(saved.error);
      }
      var rows := DeleteAll(backend, saved.value, tx);
      if !io {
        return Err(K.Io);
      }
      conn, transaction, permits := Some(rows), None, permits + 1;
      assert rows == K.Committed(backend, old(conn).value, tx);
      return Ok(());
    }

    method Save(rec: K.Record) returns (r: Result<(), K.Error>)
      requires Valid()
      modifies this`transaction
      ensures Valid() && (State(), r) == K.Save(old(State()), rec)
    {
      if transaction.None? {
        return Err(K.MutatingOperationWithoutTransaction);
      }
      var tx := transaction.value;
      tx := tx.(cache := tx.cache[rec.id := rec]);
      tx := tx.(deleted := tx.deleted - {rec.id});
      transaction := Some(tx);
      return Ok(());
    }

    method Remove(id: K.EntityId) returns (r: Result<(), K.Error>)
      requires Valid()
      modifies this`transaction
      ensures Valid() && (State(), r) == K.Remove(old(State()), id)
    {
      if transaction.None? {
        return Err(K.MutatingOperationWithoutTransaction);
      }
      var tx := transaction.value;
      if id in tx.cache {
        tx := tx.(cache := tx.cache - {id});
      }
      assert tx.cache == transaction.value.cache - {id};
      transaction := Some(tx.(deleted := tx.deleted + {id}));
      return Ok(());
    }

    method Get(id: K.EntityId) returns (r: Result<Option<K.Record>, K.Error>)
      requires Valid()
      ensures r == K.Get(State(), id)
      ensures conn.Some? && K.Reachable(backend, id.typ) ==> r == Ok(Lookup(K.View(State()), id))
    {
      if transaction.Some? {
        var known := K.TxGet(transaction.value, id);
        if known.Some? {
          return Ok(known.value);
        }
      }
      if conn.None? {
        return Err(K.Closed);
      }
      return Ok(K.RowGet(backend, conn.value, id));
    }

    /** `cached` and `persisted` are the orders in which the two tables hand out their rows. */
    method LoadAll(t: K.EntityType, cached: seq<K.Record>, persisted: seq<K.Record>)
      returns (r: Result<seq<K.Record>, K.Error>)
      requires Valid()
      requires conn.Some? ==> K.Lists(persisted, conn.value, K.IsType(t))
      requires transaction.Some? ==> K.Lists(cached, transaction.value.cache, K.IsType(t))
      ensures if conn.Some? then r.Ok? && K.Lists(r.value, K.View(State()), K.IsType(t)) else r == Err(K.Closed)
    {
      if conn.None? {
        return Err(K.Closed);
      }
      if transaction.None? {
        return Ok(persisted);
      }
      K.LoadAllListsView(conn.value, transaction.value, t, cached, persisted);
      return Ok(K.MergeRecords(transaction.value, cached, persisted));
    }

    /** Inside a transaction the number of rows is cast to 32 bits; outside, SQL reports what does not fit. */
    method Count(t: K.EntityType, cached: seq<K.Record>, persisted: seq<K.Record>) returns (r: Result<nat, K.Error>)
      requires Valid()
      requires conn.Some? ==> K.Lists(persisted, conn.value, K.IsType(t))
      requires transaction.Some? ==> K.Lists(cached, transaction.value.cache, K.IsType(t))
      ensures conn.None? ==> r == Err(K.Closed)
      ensures conn.Some? && |K.OfType(K.View(State()), t)| < 0x1_0000_0000 ==> r == Ok(|K.OfType(K.View(State()), t)|)
      ensures conn.Some? && |K.OfType(K.View(State()), t)| >= 0x1_0000_0000 ==>
                r == if transaction.Some? then Ok(|K.OfType(K.View(State()), t)| % 0x1_0000_0000)
                     else Err(K.CountOutOfRange)
    {
      if transaction.Some? {
        var records := LoadAll(t, cached, persisted);
        if records.Err? {
          return Err(records.error);
        }
        K.ListedCount(records.value, K.View(State()), t);
        return Ok(|records.value| % K.U32_LIMIT);
      }
      if conn.None? {
        return Err(K.Closed);
      }
      var n := |K.OfType(conn.value, t)|;
      return if n < K.U32_LIMIT then Ok(n) else Err(K.CountOutOfRange);
    }

    /** Rows matching `p`: persisted matches and cached matches are merged, in that order of filtering. */
    method Search(p: K.Record -> bool, cached: seq<K.Record>, persisted: seq<K.Record>)
      returns (r: Result<seq<K.Record>, K.Error>)
      requires Valid()
      requires conn.Some? ==> K.Lists(persisted, conn.value, p)
      requires transaction.Some? ==> K.Lists(cached, transaction.value.cache, p)
      ensures if conn.Some? then r.Ok? else r == Err(K.Closed)
      ensures r.Ok? ==> Distinct(r.value)
      ensures r.Ok? && transaction.None? ==> K.Lists(r.value, conn.value, p)
      ensures r.Ok? && transaction.Some? ==>
                && (forall x :: x in r.value <==> K.Hit(conn.value, transaction.value, p, x))
                && (K.Lists(r.value, K.View(State()), p) <==> !K.StaleMatch(conn.value, transaction.value, p))
    {
      if conn.None? {
        return Err(K.Closed);
      }
      if transaction.None? {
        return Ok(persisted);
      }
      K.SearchAgreesIff(conn.value, transaction.value, p, cached, persisted);
      K.MergedDistinct(transaction.value, cached, persisted);
      forall x ensures x in K.MergeRecords(transaction.value, cached, persisted) <==>
                       K.Hit(conn.value, transaction.value, p, x)
      {
        K.MergedContents(transaction.value, conn.value, p, cached, persisted, x);
      }
      return Ok(K.MergeRecords(transaction.value, cached, persisted));
    }

    /** Takes the connection away for good. Completes once the permit is free, and gives it back. */
    method Take() returns (r: Result<K.Rows, K.Error>)
      requires Valid() && permits > 0
      modifies this`conn
      ensures Valid() && conn.None? && transaction == old(transaction)
      ensures r == if old(conn).Some? then Ok(old(conn).value) else Err(K.Closed)
    {
      if conn.None? {
        return Err(K.Closed);
      }
      r := Ok(conn.value);
      conn := None;
    }
  }

  /** Inserts every cached row. Fails on the first one whose key is taken and may not be replaced. */
  method SaveAll(backend: K.Backend, rows: K.Rows, tx: K.Tx) returns (r: Result<K.Rows, K.Error>)
    ensures r.Err? <==> K.Conflicts(backend, rows, tx)
    ensures r.Err? ==> r.error == K.AlreadyExists
    ensures r.Ok? ==> r.value == rows + tx.cache
  {
    var todo := tx.cache.Keys;
    var done: K.Rows := rows;
    while todo != {}
      invariant todo <= tx.cache.Keys
      invariant done.Keys == rows.Keys + (tx.cache.Keys - todo)
      invariant forall id :: id in done ==> done[id] == if id in tx.cache && id !in todo then tx.cache[id] else rows[id]
      invariant forall id :: id in tx.cache && id !in todo && id in rows ==> K.Upserts(backend, id.typ)
      decreases todo
    {
      var id :| id in todo;
      if id in done && !K.Upserts(backend, id.typ) {
        assert id in rows;
        return Err(K.AlreadyExists);
      }
      done := done[id := tx.cache[id]];
      todo := todo - {id};
    }
    assert done == rows + tx.cache;
    return Ok(done);
  }

  /** Deletes every row marked as deleted, as far as the backend finds it. */
  method DeleteAll(backend: K.Backend, rows: K.Rows, tx: K.Tx) returns (r: K.Rows)
    ensures r == map id | id in rows && !(id in tx.deleted && K.Reachable(backend, id.typ)) :: rows[id]
  {
    var todo := tx.deleted;
    r := rows;
    while todo != {}
      invariant todo <= tx.deleted
      invariant r == map id | id in rows && !(id in tx.deleted - todo && K.Reachable(backend, id.typ)) :: rows[id]
      decreases todo
    {
      var id :| id in todo;
      r := K.RowDelete(backend, r, id);
      todo := todo - {id};
    }
  }
}
