/**
  The keystore: persisted rows, and the in-memory transaction that buffers saves and
  deletions until it is committed. Everything here is a value; `Database.dfy` holds the
  object whose methods are proved against these functions.
 */
module Keystore {
  import opened Base

  /** The collections whose rows are unique by primary key. */
  datatype EntityType =
    | HpkePrivateKey
    | KeyPackage
    | PskBundle
    | EncryptionKeyPair
    | EpochEncryptionKeyPair
    | StoredCredential
    | StoredBufferedCommit
    | PersistedMlsGroup
    | StoredE2eiEnrollment
    | E2eiAcmeCA
    | E2eiIntermediateCert
    | E2eiCrl
    | ProteusPrekey
    | ProteusSession
    | ConsumerData

  datatype EntityId = EntityId(typ: EntityType, key: Bytes)

  datatype Record = Record(id: EntityId, value: Bytes)

  type Rows = m: map<EntityId, Record> | forall id :: id in m ==> m[id].id == id

  /** Where rows are persisted. */
  datatype Backend = Sqlite | IndexedDb

  datatype Error =
    | Closed
    | TransactionInProgress
    | MutatingOperationWithoutTransaction
    | AlreadyExists
    | CountOutOfRange
    | Io

  datatype Tx = Tx(cache: Rows, deleted: set<EntityId>)

  datatype Db = Db(backend: Backend, conn: Option<Rows>, tx: Option<Tx>)

  const EMPTY_TX := Tx(map[], {})

  const U32_LIMIT: nat := 0x1_0000_0000

  /** Saving takes an id out of `deleted`, removing takes it out of `cache`. */
  ghost predicate ValidTx(tx: Tx) {
    tx.cache.Keys !! tx.deleted
  }

  ghost predicate Valid(db: Db) {
    db.tx.Some? ==> ValidTx(db.tx.value)
  }

  /**
    Ids of these types are strings. SQLite stores them as TEXT, but the generated lookup and
    deletion statements bind the key as a BLOB, and SQLite never equates the two.
   */
  predicate TextKeyed(t: EntityType) {
    t.E2eiIntermediateCert? || t.E2eiCrl? || t.ProteusSession?
  }

  /** Whether a persisted row of this type is found again by the bytes of its key. */
  predicate Reachable(backend: Backend, t: EntityType) {
    backend.IndexedDb? || !TextKeyed(t)
  }

  /** Whether saving replaces a persisted row with the same key instead of failing. */
  predicate Upserts(backend: Backend, t: EntityType) {
    backend.IndexedDb? || !(t.StoredCredential? || t.StoredE2eiEnrollment? || t.ProteusPrekey?)
  }

  // ----- The persisted rows -----

  function RowGet(backend: Backend, rows: Rows, id: EntityId): (r: Option<Record>) {
    if Reachable(backend, id.typ) then Lookup(rows, id) else None
  }

  function RowDelete(backend: Backend, rows: Rows, id: EntityId): (r: Rows) {
    if Reachable(backend, id.typ) then rows - {id} else rows
  }

  function OfType(rows: Rows, t: EntityType): (r: Rows) {
    map id | id in rows && id.typ == t :: rows[id]
  }

  // ----- The transaction -----

  function TxSave(tx: Tx, r: Record): (t: Tx) {
    Tx(tx.cache[r.id := r], tx.deleted - {r.id})
  }

  function TxRemove(tx: Tx, id: EntityId): (t: Tx) {
    Tx(tx.cache - {id}, tx.deleted + {id})
  }

  /** None: nothing known. Some(None): deleted here. Some(Some(r)): saved here. */
  function TxGet(tx: Tx, id: EntityId): (r: Option<Option<Record>>) {
    if id in tx.deleted then Some(None)
    else if id in tx.cache then Some(Some(tx.cache[id]))
    else None
  }

  predicate Knows(tx: Tx, id: EntityId) {
    id in tx.deleted || id in tx.cache
  }

  /** A cached row that cannot be inserted, because its key is taken and it does not upsert. */
  predicate Conflicts(backend: Backend, rows: Rows, tx: Tx) {
    exists id :: id in tx.cache && id in rows && !Upserts(backend, id.typ)
  }

  /** The rows after all buffered saves, then all buffered deletions. */
  function Committed(backend: Backend, rows: Rows, tx: Tx): (r: Rows) {
    var kept := rows + tx.cache;
    map id | id in kept && !(id in tx.deleted && Reachable(backend, id.typ)) :: kept[id]
  }

  /** The one map every read should answer from. */
  function Overlay(rows: Rows, tx: Tx): (r: Rows) {
    (rows + tx.cache) - tx.deleted
  }

  function View(db: Db): (r: Rows)
    requires db.conn.Some?
  {
    if db.tx.Some? then Overlay(db.conn.value, db.tx.value) else db.conn.value
  }

  // ----- The database operations -----

  function Begin(db: Db): (r: (Db, Result<(), Error>)) {
    if db.tx.Some? then (db, Err(TransactionInProgress)) else (db.(tx := Some(EMPTY_TX)), Ok(()))
  }

  function Save(db: Db, rec: Record): (r: (Db, Result<(), Error>)) {
    if db.tx.None? then (db, Err(MutatingOperationWithoutTransaction))
    else (db.(tx := Some(TxSave(db.tx.value, rec))), Ok(()))
  }

  function Remove(db: Db, id: EntityId): (r: (Db, Result<(), Error>)) {
    if db.tx.None? then (db, Err(MutatingOperationWithoutTransaction))
    else (db.(tx := Some(TxRemove(db.tx.value, id))), Ok(()))
  }

  /** `io` tells whether the underlying storage accepts the writes. */
  function Commit(db: Db, io: bool): (r: (Db, Result<(), Error>)) {
    if db.tx.None? then (db, Err(MutatingOperationWithoutTransaction))
    else if db.conn.None? then (db, Err(Closed))
    else if db.tx.value == EMPTY_TX then (db.(tx := None), Ok(()))
    else if Conflicts(db.backend, db.conn.value, db.tx.value) then (db, Err(AlreadyExists))
    else if !io then (db, Err(Io))
    else (Db(db.backend, Some(Committed(db.backend, db.conn.value, db.tx.value)), None), Ok(()))
  }

  function Rollback(db: Db): (r: (Db, Result<(), Error>)) {
    if db.tx.None? then (db, Err(MutatingOperationWithoutTransaction)) else (db.(tx := None), Ok(()))
  }

  function Get(db: Db, id: EntityId): (r: Result<Option<Record>, Error>) {
    if db.tx.Some? && TxGet(db.tx.value, id).Some? then Ok(TxGet(db.tx.value, id).value)
    else if db.conn.None? then Err(Closed)
    else Ok(RowGet(db.backend, db.conn.value, id))
  }

  // ----- Merging lists of records -----

  function UniqueById(s: seq<Record>, seen: set<EntityId>): (r: seq<Record>) {
    if s == [] then []
    else if s[0].id in seen then UniqueById(s[1..], seen)
    else [s[0]] + UniqueById(s[1..], seen + {s[0].id})
  }

  function WithoutDeleted(s: seq<Record>, deleted: set<EntityId>): (r: seq<Record>) {
    if s == [] then []
    else if s[0].id in deleted then WithoutDeleted(s[1..], deleted)
    else [s[0]] + WithoutDeleted(s[1..], deleted)
  }

  /** Cached records first, so that they win over persisted ones with the same id. */
  function MergeRecords(tx: Tx, cached: seq<Record>, persisted: seq<Record>): (r: seq<Record>) {
    WithoutDeleted(UniqueById(cached + persisted, {}), tx.deleted)
  }

  function IsType(t: EntityType): (p: Record -> bool) {
    (r: Record) => r.id.typ == t
  }

  /** `s` lists the records of `rows` that satisfy `p`, each once, in some order. */
  ghost predicate Lists(s: seq<Record>, rows: Rows, p: Record -> bool) {
    && (forall r :: r in s <==> r.id in rows && rows[r.id] == r && p(r))
    && Distinct(s)
  }

  // ----- What merging computes -----

  function FirstWith(s: seq<Record>, id: EntityId): (r: Option<Record>) {
    if s == [] then None
    else if s[0].id == id then Some(s[0])
    else FirstWith(s[1..], id)
  }

  lemma UniqueKeepsFirst(s: seq<Record>, seen: set<EntityId>, x: Record)
    ensures x in UniqueById(s, seen) <==> x.id !in seen && FirstWith(s, x.id) == Some(x)
  {
  }

  lemma UniqueIsDistinct(s: seq<Record>, seen: set<EntityId>)
    ensures Distinct(UniqueById(s, seen))
  {
    if s != [] && s[0].id !in seen {
      var rest := UniqueById(s[1..], seen + {s[0].id});
      UniqueKeepsFirst(s[1..], seen + {s[0].id}, s[0]);
      assert s[0] !in rest;
    }
  }

  lemma WithoutDeletedContents(s: seq<Record>, deleted: set<EntityId>, x: Record)
    ensures x in WithoutDeleted(s, deleted) <==> x in s && x.id !in deleted
  {
  }

  lemma WithoutDeletedDistinct(s: seq<Record>, deleted: set<EntityId>)
    requires Distinct(s)
    ensures Distinct(WithoutDeleted(s, deleted))
  {
    if s != [] {
      WithoutDeletedDistinct(s[1..], deleted);
      WithoutDeletedContents(s[1..], deleted, s[0]);
    }
  }

  lemma FirstWithAppend(a: seq<Record>, b: seq<Record>, id: EntityId)
    ensures FirstWith(a + b, id) == if FirstWith(a, id).Some? then FirstWith(a, id) else FirstWith(b, id)
  {
    if a == [] {
      assert a + b == b;
    } else {
      assert (a + b)[1..] == a[1..] + b;
    }
  }

  lemma FirstWithIsMember(s: seq<Record>, id: EntityId)
    ensures FirstWith(s, id).Some? ==> FirstWith(s, id).value in s && FirstWith(s, id).value.id == id
    ensures FirstWith(s, id).None? ==> forall r :: r in s ==> r.id != id
  {
    if s != [] && s[0].id != id {
      FirstWithIsMember(s[1..], id);
      assert forall r :: r in s ==> r == s[0] || r in s[1..];
    }
  }

  lemma FirstListed(s: seq<Record>, rows: Rows, p: Record -> bool, id: EntityId)
    requires Lists(s, rows, p)
    ensures FirstWith(s, id) == if id in rows && p(rows[id]) then Some(rows[id]) else None
  {
    FirstWithIsMember(s, id);
    if id in rows && p(rows[id]) {
      assert rows[id] in s;
    }
  }

  /** What a search returns: the buffered match under an id, or, if there is none, the persisted match. */
  ghost predicate Hit(rows: Rows, tx: Tx, p: Record -> bool, x: Record) {
    && x.id !in tx.deleted
    && (if x.id in tx.cache && p(tx.cache[x.id]) then x == tx.cache[x.id]
        else x.id in rows && p(rows[x.id]) && x == rows[x.id])
  }

  /** Merging keeps a cached match if there is one, else a persisted match, minus the deleted ids. */
  lemma MergedContents(tx: Tx, rows: Rows, p: Record -> bool, cached: seq<Record>, persisted: seq<Record>, x: Record)
    requires Lists(cached, tx.cache, p) && Lists(persisted, rows, p)
    ensures x in MergeRecords(tx, cached, persisted) <==> Hit(rows, tx, p, x)
  {
    WithoutDeletedContents(UniqueById(cached + persisted, {}), tx.deleted, x);
    UniqueKeepsFirst(cached + persisted, {}, x);
    FirstWithAppend(cached, persisted, x.id);
    FirstListed(cached, tx.cache, p, x.id);
    FirstListed(persisted, rows, p, x.id);
  }

  lemma MergedDistinct(tx: Tx, cached: seq<Record>, persisted: seq<Record>)
    ensures Distinct(MergeRecords(tx, cached, persisted))
  {
    UniqueIsDistinct(cached + persisted, {});
    WithoutDeletedDistinct(UniqueById(cached + persisted, {}), tx.deleted);
  }

  /** A persisted match hidden by a cached version of the same row that no longer matches. */
  ghost predicate StaleMatch(rows: Rows, tx: Tx, p: Record -> bool) {
    exists id :: id in rows && p(rows[id]) && id in tx.cache && !p(tx.cache[id]) && id !in tx.deleted
  }

  /**
    Searching filters the persisted rows, filters the cached ones, and merges last. That lists
    the matching part of the view exactly when no buffered save moves a persisted match out of
    the searched set; otherwise the outdated persisted row is returned.
   */
  lemma SearchAgreesIff(rows: Rows, tx: Tx, p: Record -> bool, cached: seq<Record>, persisted: seq<Record>)
    requires ValidTx(tx)
    requires Lists(cached, tx.cache, p) && Lists(persisted, rows, p)
    ensures Lists(MergeRecords(tx, cached, persisted), Overlay(rows, tx), p) <==> !StaleMatch(rows, tx, p)
  {
    var merged := MergeRecords(tx, cached, persisted);
    var view := Overlay(rows, tx);
    MergedDistinct(tx, cached, persisted);
    forall x ensures x in merged <==> Hit(rows, tx, p, x) {
      MergedContents(tx, rows, p, cached, persisted, x);
    }
    if StaleMatch(rows, tx, p) {
      var id :| id in rows && p(rows[id]) && id in tx.cache && !p(tx.cache[id]) && id !in tx.deleted;
      assert rows[id] in merged;
      assert view[id] == tx.cache[id];
    }
  }

  /** A group re-parented inside the transaction is still returned, in its old form, as a child of its old parent. */
  lemma SearchCanReturnStaleRow(old_: Record, new_: Record, p: Record -> bool)
    requires old_.id == new_.id && p(old_) && !p(new_)
    ensures var rows: Rows, tx := map[old_.id := old_], Tx(map[old_.id := new_], {});
            && Lists([], tx.cache, p) && Lists([old_], rows, p)
            && MergeRecords(tx, [], [old_]) == [old_]
            && Lookup(Overlay(rows, tx), old_.id) == Some(new_)
  {
    assert old_ in [old_];
    assert [] + [old_] == [old_];
    assert UniqueById([old_], {}) == [old_] + UniqueById([], {old_.id});
    assert WithoutDeleted([old_], {}) == [old_] + WithoutDeleted([], {});
  }

  /** Loading a whole collection selects on the id alone, so it always lists the view. */
  lemma LoadAllListsView(rows: Rows, tx: Tx, t: EntityType, cached: seq<Record>, persisted: seq<Record>)
    requires ValidTx(tx)
    requires Lists(cached, tx.cache, IsType(t)) && Lists(persisted, rows, IsType(t))
    ensures Lists(MergeRecords(tx, cached, persisted), Overlay(rows, tx), IsType(t))
    ensures |MergeRecords(tx, cached, persisted)| == |OfType(Overlay(rows, tx), t)|
  {
    SearchAgreesIff(rows, tx, IsType(t), cached, persisted);
    ListedCount(MergeRecords(tx, cached, persisted), Overlay(rows, tx), t);
  }

  lemma ListedCount(s: seq<Record>, rows: Rows, t: EntityType)
    requires Lists(s, rows, IsType(t))
    ensures |s| == |OfType(rows, t)|
  {
    var ids := set r | r in s :: r.id;
    DistinctLength(s);
    var keys := OfType(rows, t).Keys;
    assert keys == ids by {
      forall id | id in keys ensures id in ids { assert rows[id] in s; }
    }
    SameSize(Elements(s), rows);
    assert ids == set r | r in Elements(s) :: r.id;
  }

  /** Records of one row map are counted by their ids. */
  lemma SameSize(rs: set<Record>, rows: Rows)
    requires forall r :: r in rs ==> r.id in rows && rows[r.id] == r
    ensures |rs| == |set r | r in rs :: r.id|
  {
    if rs == {} {
      assert (set r | r in rs :: r.id) == {};
    } else {
      var x :| x in rs;
      SameSize(rs - {x}, rows);
      assert (set r | r in rs :: r.id) == (set r | r in rs - {x} :: r.id) + {x.id};
    }
  }

  // ----- Reads and commits against the view -----

  /** Lookup by key answers from the view exactly when the rows not mentioned in the transaction are reachable. */
  lemma GetAgreesIff(db: Db)
    requires Valid(db) && db.conn.Some?
    ensures (forall id :: Get(db, id) == Ok(Lookup(View(db), id))) <==>
            (forall id :: id in db.conn.value && !(db.tx.Some? && Knows(db.tx.value, id)) ==>
              Reachable(db.backend, id.typ))
  {
    forall id ensures Get(db, id) == Ok(Lookup(View(db), id)) <==>
                      (id in db.conn.value && !(db.tx.Some? && Knows(db.tx.value, id)) ==>
                        Reachable(db.backend, id.typ))
    {
    }
    if forall id :: Get(db, id) == Ok(Lookup(View(db), id)) {
      forall id | id in db.conn.value && !(db.tx.Some? && Knows(db.tx.value, id))
        ensures Reachable(db.backend, id.typ)
      {
        assert Get(db, id) == Ok(Lookup(View(db), id));
      }
    }
  }

  /** With no connection, only the ids the transaction mentions can still be read. */
  lemma ClosedGetIff(db: Db, id: EntityId)
    requires db.conn.None?
    ensures Get(db, id).Ok? <==> db.tx.Some? && Knows(db.tx.value, id)
    ensures Commit(db, true).1.Err? && Commit(db, true).0 == db
  {
  }

  /** A successful commit leaves the view unchanged exactly when every deleted persisted row is reachable. */
  lemma CommitKeepsViewIff(db: Db, io: bool)
    requires Valid(db) && Commit(db, io).1.Ok?
    ensures View(Commit(db, io).0) == View(db) <==>
            (forall id :: id in db.tx.value.deleted && id in db.conn.value ==> Reachable(db.backend, id.typ))
  {
    var after := Commit(db, io).0;
    var tx, rows := db.tx.value, db.conn.value;
    if tx == EMPTY_TX {
      assert Overlay(rows, tx) == rows;
    } else {
      if forall id :: id in tx.deleted && id in rows ==> Reachable(db.backend, id.typ) {
        assert View(after) == View(db);
      }
      if id :| id in tx.deleted && id in rows && !Reachable(db.backend, id.typ) {
        assert id in View(after) && id !in View(db);
      }
    }
  }

  /** These ids are written as text and looked up as bytes by SQLite. */
  lemma ReachableIff(backend: Backend, t: EntityType)
    ensures Reachable(backend, t) <==> backend == IndexedDb || t !in {E2eiIntermediateCert, E2eiCrl, ProteusSession}
    ensures Upserts(backend, t) <==>
            backend == IndexedDb || t !in {StoredCredential, StoredE2eiEnrollment, ProteusPrekey}
  {
  }

  /** Row by row, what a successful commit leaves: on SQLite a deleted row with a text id stays. */
  lemma CommitLeaves(db: Db, io: bool, id: EntityId)
    requires Valid(db) && Commit(db, io).1.Ok?
    ensures var rows, tx := db.conn.value, db.tx.value;
            Lookup(Commit(db, io).0.conn.value, id) ==
            if id in tx.cache then Some(tx.cache[id])
            else if id in tx.deleted
              && (db.backend == IndexedDb || id.typ !in {E2eiIntermediateCert, E2eiCrl, ProteusSession})
            then None
            else Lookup(rows, id)
  {
  }

  /** Replacing a row that does not upsert, by removing and saving it, can never be committed. */
  lemma ReplacingPlainRowNeverCommits(db: Db, rec: Record, io: bool)
    requires db.tx.Some? && db.conn.Some? && rec.id in db.conn.value && !Upserts(db.backend, rec.id.typ)
    ensures var replaced := Save(Remove(db, rec.id).0, rec).0;
            && Lookup(View(replaced), rec.id) == Some(rec)
            && Commit(replaced, io) == (replaced, Err(AlreadyExists))
  {
    var replaced := Save(Remove(db, rec.id).0, rec).0;
    assert rec.id in replaced.tx.value.cache;
  }

  // ----- Whole runs against a pair of maps -----

  datatype Op =
    | OpBegin
    | OpSave(rec: Record)
    | OpRemove(id: EntityId)
    | OpCommit(io: bool)
    | OpRollback
    | OpGet(id: EntityId)
    // the two lists are the order in which the hash map and the connection hand out their rows
    | OpLoadAll(typ: EntityType, cached: seq<Record>, persisted: seq<Record>)
    | OpCount(typ: EntityType, cached: seq<Record>, persisted: seq<Record>)
    | OpSearch(p: Record -> bool, cached: seq<Record>, persisted: seq<Record>)

  datatype Out =
    | Outcome(result: Result<(), Error>)
    | Found(found: Result<Option<Record>, Error>)
    | Listed(records: seq<Record>)
    | Counted(count: Result<nat, Error>)

  /** What reading a whole collection merges. */
  function Merged(db: Db, cached: seq<Record>, persisted: seq<Record>): (r: seq<Record>) {
    if db.tx.Some? then MergeRecords(db.tx.value, cached, persisted) else persisted
  }

  function Step(db: Db, op: Op): (r: (Db, Out))
    requires db.conn.Some?
    ensures r.0.conn.Some? && r.0.backend == db.backend
  {
    match op
    case OpBegin => var (d, o) := Begin(db); (d, Outcome(o))
    case OpSave(rec) => var (d, o) := Save(db, rec); (d, Outcome(o))
    case OpRemove(id) => var (d, o) := Remove(db, id); (d, Outcome(o))
    case OpCommit(io) => var (d, o) := Commit(db, io); (d, Outcome(o))
    case OpRollback => var (d, o) := Rollback(db); (d, Outcome(o))
    case OpGet(id) => (db, Found(Get(db, id)))
    case OpLoadAll(_, cached, persisted) => (db, Listed(Merged(db, cached, persisted)))
    case OpCount(_, cached, persisted) => (db, Counted(CountOf(db.tx.Some?, |Merged(db, cached, persisted)|)))
    case OpSearch(_, cached, persisted) => (db, Listed(Merged(db, cached, persisted)))
  }

  /** Inside a transaction the count is cast to 32 bits; outside, SQL refuses what does not fit. */
  function CountOf(inside: bool, n: nat): (r: Result<nat, Error>)
    ensures n < 0x1_0000_0000 ==> r == Ok(n)
    ensures n >= 0x1_0000_0000 ==> r == if inside then Ok(n % 0x1_0000_0000) else Err(CountOutOfRange)
  {
    if inside then Ok(n % U32_LIMIT) else if n < U32_LIMIT then Ok(n) else Err(CountOutOfRange)
  }

  /** The two lists are orders of the rows that match. */
  ghost predicate Ordered(db: Db, p: Record -> bool, cached: seq<Record>, persisted: seq<Record>)
    requires db.conn.Some?
  {
    && Lists(persisted, db.conn.value, p)
    && (db.tx.Some? ==> Lists(cached, db.tx.value.cache, p))
  }

  /** The enumeration orders an operation carries are orders of the actual tables. */
  ghost predicate Enabled(db: Db, op: Op)
    requires db.conn.Some?
  {
    match op
    case OpLoadAll(t, cached, persisted) => Ordered(db, IsType(t), cached, persisted)
    case OpCount(t, cached, persisted) => Ordered(db, IsType(t), cached, persisted)
    case OpSearch(p, cached, persisted) => Ordered(db, p, cached, persisted)
    case _ => true
  }

  function Run(db: Db, ops: seq<Op>): (r: (Db, seq<Out>))
    requires db.conn.Some?
    ensures r.0.conn.Some? && r.0.backend == db.backend && |r.1| == |ops|
    decreases ops
  {
    if ops == [] then (db, [])
    else
      var (d, o) := Step(db, ops[0]);
      var (d', os) := Run(d, ops[1..]);
      (d', [o] + os)
  }

  ghost predicate AllEnabled(db: Db, ops: seq<Op>)
    requires db.conn.Some?
    decreases ops
  {
    ops == [] || (Enabled(db, ops[0]) && AllEnabled(Step(db, ops[0]).0, ops[1..]))
  }

  /** What a caller should see: the committed rows, and a private copy while a transaction is open. */
  datatype TwoMaps = TwoMaps(committed: Rows, working: Option<Rows>)

  function Visible(m: TwoMaps): (r: Rows) {
    if m.working.Some? then m.working.value else m.committed
  }

  /** `ok` says whether a commit went through. */
  function TwoMapsStep(m: TwoMaps, op: Op, ok: bool): (r: TwoMaps) {
    match op
    case OpBegin => if m.working.None? then m.(working := Some(m.committed)) else m
    case OpSave(rec) => if m.working.None? then m else m.(working := Some(m.working.value[rec.id := rec]))
    case OpRemove(id) => if m.working.None? then m else m.(working := Some(m.working.value - {id}))
    case OpCommit(_) => if m.working.Some? && ok then TwoMaps(m.working.value, None) else m
    case OpRollback => m.(working := None)
    case _ => m
  }

  /** What the reference says about one output. */
  ghost predicate Explains(m: TwoMaps, op: Op, out: Out) {
    match op
    case OpBegin => out == Outcome(if m.working.None? then Ok(()) else Err(TransactionInProgress))
    case OpSave(_) => out == Outcome(if m.working.Some? then Ok(()) else Err(MutatingOperationWithoutTransaction))
    case OpRemove(_) => out == Outcome(if m.working.Some? then Ok(()) else Err(MutatingOperationWithoutTransaction))
    case OpCommit(_) => out.Outcome? && (m.working.None? ==> out.result == Err(MutatingOperationWithoutTransaction))
    case OpRollback => out == Outcome(if m.working.Some? then Ok(()) else Err(MutatingOperationWithoutTransaction))
    case OpGet(id) => out == Found(Ok(Lookup(Visible(m), id)))
    case OpLoadAll(t, _, _) => out.Listed? && Lists(out.records, Visible(m), IsType(t))
    case OpCount(t, _, _) => out == Counted(CountOf(m.working.Some?, |OfType(Visible(m), t)|))
    case OpSearch(p, _, _) =>
      && out.Listed? && Distinct(out.records) && (forall x :: x in out.records <==> Searched(m, p, x))
      && (Lists(out.records, Visible(m), p) <==> !MovedOut(m, p))
  }

  /** A visible match, or the committed match under an id that is visible in a form that no longer matches. */
  ghost predicate Searched(m: TwoMaps, p: Record -> bool, x: Record) {
    && x.id in Visible(m)
    && (if p(Visible(m)[x.id]) then x == Visible(m)[x.id]
        else x.id in m.committed && p(m.committed[x.id]) && x == m.committed[x.id])
  }

  /** The working copy has a row in a form that no longer matches, while the committed form does. */
  ghost predicate MovedOut(m: TwoMaps, p: Record -> bool) {
    && m.working.Some?
    && exists id :: id in m.committed && p(m.committed[id]) && id in m.working.value && !p(m.working.value[id])
  }

  ghost predicate AllExplained(m: TwoMaps, ops: seq<Op>, outs: seq<Out>)
    requires |ops| == |outs|
    decreases ops
  {
    ops == [] ||
    (&& Explains(m, ops[0], outs[0])
     && AllExplained(TwoMapsStep(m, ops[0], outs[0] == Outcome(Ok(()))), ops[1..], outs[1..]))
  }

  function Abstract(db: Db): (m: TwoMaps)
    requires db.conn.Some?
  {
    TwoMaps(db.conn.value, if db.tx.Some? then Some(View(db)) else None)
  }

  /** Every id the transaction deletes is found by its key. */
  ghost predicate DeletedReachable(db: Db) {
    db.tx.Some? ==> forall id :: id in db.tx.value.deleted ==> Reachable(db.backend, id.typ)
  }

  /** Deletions and lookups by key need a key that is found again; everything else does not. */
  predicate OpReachable(backend: Backend, op: Op) {
    match op
    case OpRemove(id) => Reachable(backend, id.typ)
    case OpGet(id) => Reachable(backend, id.typ)
    case _ => true
  }

  /** One operation does to the pair of maps what the reference says. */
  ghost predicate Refines(db: Db, op: Op)
    requires db.conn.Some?
  {
    var (after, out) := Step(db, op);
    && Valid(after) && DeletedReachable(after)
    && Explains(Abstract(db), op, out)
    && Abstract(after) == TwoMapsStep(Abstract(db), op, out == Outcome(Ok(())))
  }

  lemma BeginRefines(db: Db)
    requires Valid(db) && db.conn.Some? && DeletedReachable(db)
    ensures Refines(db, OpBegin)
  {
    assert Overlay(db.conn.value, EMPTY_TX) == db.conn.value;
  }

  lemma SavedView(db: Db, rec: Record)
    requires db.conn.Some? && db.tx.Some?
    ensures View(Save(db, rec).0) == View(db)[rec.id := rec]
  {
    var after, view := View(Save(db, rec).0), View(db)[rec.id := rec];
    assert forall id :: id in after <==> id in view;
    assert after == view;
  }

  lemma SaveRefines(db: Db, rec: Record)
    requires Valid(db) && db.conn.Some? && DeletedReachable(db)
    ensures Refines(db, OpSave(rec))
  {
    if db.tx.Some? {
      SavedView(db, rec);
    }
  }

  lemma RemoveRefines(db: Db, id: EntityId)
    requires Valid(db) && db.conn.Some? && DeletedReachable(db) && Reachable(db.backend, id.typ)
    ensures Refines(db, OpRemove(id))
  {
    if db.tx.Some? {
      assert View(Remove(db, id).0) == View(db) - {id};
    }
  }

  lemma CommitRefines(db: Db, io: bool)
    requires Valid(db) && db.conn.Some? && DeletedReachable(db)
    ensures Refines(db, OpCommit(io))
  {
    if Commit(db, io).1.Ok? {
      CommitKeepsViewIff(db, io);
    }
  }

  lemma LoadAllRefines(db: Db, t: EntityType, cached: seq<Record>, persisted: seq<Record>)
    requires Valid(db) && db.conn.Some? && DeletedReachable(db)
    requires Enabled(db, OpLoadAll(t, cached, persisted))
    ensures Refines(db, OpLoadAll(t, cached, persisted))
  {
    if db.tx.Some? {
      LoadAllListsView(db.conn.value, db.tx.value, t, cached, persisted);
    }
  }

  lemma CountRefines(db: Db, t: EntityType, cached: seq<Record>, persisted: seq<Record>)
    requires Valid(db) && db.conn.Some? && DeletedReachable(db)
    requires Enabled(db, OpCount(t, cached, persisted))
    ensures Refines(db, OpCount(t, cached, persisted))
  {
    if db.tx.Some? {
      LoadAllListsView(db.conn.value, db.tx.value, t, cached, persisted);
    } else {
      ListedCount(persisted, db.conn.value, t);
    }
  }

  lemma StaleMatchIffMovedOut(db: Db, p: Record -> bool)
    requires Valid(db) && db.conn.Some? && db.tx.Some?
    ensures StaleMatch(db.conn.value, db.tx.value, p) <==> MovedOut(Abstract(db), p)
  {
    var rows, tx, view := db.conn.value, db.tx.value, View(db);
    if StaleMatch(rows, tx, p) {
      var id :| id in rows && p(rows[id]) && id in tx.cache && !p(tx.cache[id]) && id !in tx.deleted;
      assert view[id] == tx.cache[id];
    }
    if id :| id in rows && p(rows[id]) && id in view && !p(view[id]) {
      assert view[id] != rows[id];
      assert id in tx.cache && tx.cache[id] == view[id];
    }
  }

  lemma SearchRefines(db: Db, p: Record -> bool, cached: seq<Record>, persisted: seq<Record>)
    requires Valid(db) && db.conn.Some? && DeletedReachable(db)
    requires Enabled(db, OpSearch(p, cached, persisted))
    ensures Refines(db, OpSearch(p, cached, persisted))
  {
    if db.tx.Some? {
      SearchAgreesIff(db.conn.value, db.tx.value, p, cached, persisted);
      StaleMatchIffMovedOut(db, p);
      MergedDistinct(db.tx.value, cached, persisted);
      forall x ensures x in Merged(db, cached, persisted) <==> Searched(Abstract(db), p, x) {
        MergedContents(db.tx.value, db.conn.value, p, cached, persisted, x);
        HitIffSearched(db, p, x);
      }
    }
  }

  lemma HitIffSearched(db: Db, p: Record -> bool, x: Record)
    requires Valid(db) && db.conn.Some? && db.tx.Some?
    ensures Hit(db.conn.value, db.tx.value, p, x) <==> Searched(Abstract(db), p, x)
  {
    var rows, tx, view := db.conn.value, db.tx.value, View(db);
    assert x.id in view <==> (x.id in rows || x.id in tx.cache) && x.id !in tx.deleted;
    assert x.id in view ==> view[x.id] == if x.id in tx.cache then tx.cache[x.id] else rows[x.id];
  }

  lemma StepRefines(db: Db, op: Op)
    requires Valid(db) && db.conn.Some? && DeletedReachable(db)
    requires Enabled(db, op) && OpReachable(db.backend, op)
    ensures Refines(db, op)
  {
    match op
    case OpBegin => BeginRefines(db);
    case OpSave(rec) => SaveRefines(db, rec);
    case OpRemove(id) => RemoveRefines(db, id);
    case OpCommit(io) => CommitRefines(db, io);
    case OpRollback =>
    case OpGet(id) =>
    case OpLoadAll(t, cached, persisted) => LoadAllRefines(db, t, cached, persisted);
    case OpCount(t, cached, persisted) => CountRefines(db, t, cached, persisted);
    case OpSearch(p, cached, persisted) => SearchRefines(db, p, cached, persisted);
  }

  /** In every run, every read answers from one map, and commits and rollbacks move that map as a caller expects. */
  lemma {:induction false} RunRefinesTwoMaps(db: Db, ops: seq<Op>)
    requires Valid(db) && db.conn.Some? && DeletedReachable(db)
    requires AllEnabled(db, ops)
    requires forall op :: op in ops ==> OpReachable(db.backend, op)
    ensures AllExplained(Abstract(db), ops, Run(db, ops).1)
    decreases ops
  {
    if ops != [] {
      StepRefines(db, ops[0]);
      RunRefinesTwoMaps(Step(db, ops[0]).0, ops[1..]);
    }
  }

  /** Operations that leave the transaction open. */
  predicate StaysOpen(op: Op) {
    !op.OpCommit? && !op.OpRollback?
  }

  lemma {:induction false} OpenRunKeepsRows(db: Db, ops: seq<Op>)
    requires db.conn.Some? && db.tx.Some?
    requires forall op :: op in ops ==> StaysOpen(op)
    ensures Run(db, ops).0.conn == db.conn && Run(db, ops).0.tx.Some?
    decreases ops
  {
    if ops != [] {
      assert StaysOpen(ops[0]);
      OpenRunKeepsRows(Step(db, ops[0]).0, ops[1..]);
    }
  }

  /**
    A refused commit never happened: everything after it, reads, further writes, another commit or a
    rollback, goes exactly as if it had not been attempted. The buffered writes stay visible.
   */
  lemma RefusedCommitNeverHappened(db: Db, io: bool, ops: seq<Op>)
    requires db.conn.Some? && Commit(db, io).1.Err?
    ensures var (after, outs) := Run(db, [OpCommit(io)] + ops);
            after == Run(db, ops).0 && outs[1..] == Run(db, ops).1
  {
    assert ([OpCommit(io)] + ops)[1..] == ops;
  }

  lemma {:induction false} RunAppend(db: Db, a: seq<Op>, b: seq<Op>)
    requires db.conn.Some?
    ensures Run(db, a + b).0 == Run(Run(db, a).0, b).0
    decreases a
  {
    if a == [] {
      assert a + b == b;
    } else {
      assert (a + b)[1..] == a[1..] + b;
      RunAppend(Step(db, a[0]).0, a[1..], b);
    }
  }

  /** A transaction that ends in a rollback leaves no trace in the database. */
  lemma RolledBackNeverHappened(db: Db, ops: seq<Op>)
    requires db.conn.Some? && db.tx.None?
    requires forall op :: op in ops ==> StaysOpen(op)
    ensures Run(db, [OpBegin] + ops + [OpRollback]).0 == db
  {
    var begun := Begin(db).0;
    assert [OpBegin] + ops + [OpRollback] == [OpBegin] + (ops + [OpRollback]);
    RunAppend(db, [OpBegin], ops + [OpRollback]);
    assert Run(db, [OpBegin]).0 == begun;
    RunAppend(begun, ops, [OpRollback]);
    OpenRunKeepsRows(begun, ops);
    var last := Run(begun, ops).0;
    assert Run(last, [OpRollback]).0 == Rollback(last).0;
  }

  // ----- When a transaction commits -----

  datatype Write = Saved | Removed

  function WriteOf(op: Op, id: EntityId): (w: Option<Write>) {
    if op.OpSave? && op.rec.id == id then Some(Saved)
    else if op.OpRemove? && op.id == id then Some(Removed)
    else None
  }

  /** The last thing a transaction did to a row. */
  function LastWrite(ops: seq<Op>, id: EntityId): (w: Option<Write>) {
    if ops == [] then None
    else if LastWrite(ops[1..], id).Some? then LastWrite(ops[1..], id)
    else WriteOf(ops[0], id)
  }

  lemma {:induction false} BufferedWrites(db: Db, ops: seq<Op>, id: EntityId)
    requires db.conn.Some? && db.tx.Some?
    requires forall op :: op in ops ==> StaysOpen(op)
    ensures Run(db, ops).0.tx.Some?
    ensures var tx, w := Run(db, ops).0.tx.value, LastWrite(ops, id);
            && (id in tx.cache <==> if w.Some? then w.value.Saved? else id in db.tx.value.cache)
            && (id in tx.deleted <==> if w.Some? then w.value.Removed? else id in db.tx.value.deleted)
    decreases ops
  {
    if ops != [] {
      assert StaysOpen(ops[0]);
      BufferedWrites(Step(db, ops[0]).0, ops[1..], id);
    }
  }

  ghost predicate WroteNothing(ops: seq<Op>) {
    forall id :: LastWrite(ops, id).None?
  }

  /** No row left saved is of a type without upsert and already persisted. */
  ghost predicate Insertable(backend: Backend, rows: Rows, ops: seq<Op>) {
    forall id :: id in rows && LastWrite(ops, id) == Some(Saved) ==> Upserts(backend, id.typ)
  }

  lemma BufferIsEmptyIff(db: Db, ops: seq<Op>)
    requires db.conn.Some? && db.tx == Some(EMPTY_TX)
    requires forall op :: op in ops ==> StaysOpen(op)
    ensures Run(db, ops).0.tx == Some(EMPTY_TX) <==> WroteNothing(ops)
  {
    forall id ensures LastWrite(ops, id).None? <==>
                      var tx := Run(db, ops).0.tx; tx.Some? && id !in tx.value.cache && id !in tx.value.deleted {
      BufferedWrites(db, ops, id);
    }
    OpenRunKeepsRows(db, ops);
    var tx := Run(db, ops).0.tx.value;
    if WroteNothing(ops) {
      assert forall id :: LastWrite(ops, id).None? ==> id !in tx.cache && id !in tx.deleted;
      assert tx.cache == map[] && tx.deleted == {};
    }
  }

  lemma ConflictsIff(db: Db, ops: seq<Op>)
    requires db.conn.Some? && db.tx == Some(EMPTY_TX)
    requires forall op :: op in ops ==> StaysOpen(op)
    ensures Run(db, ops).0.tx.Some?
    ensures Conflicts(db.backend, db.conn.value, Run(db, ops).0.tx.value) <==>
            !Insertable(db.backend, db.conn.value, ops)
  {
    OpenRunKeepsRows(db, ops);
    var rows, tx := db.conn.value, Run(db, ops).0.tx.value;
    if Conflicts(db.backend, rows, tx) {
      var id :| id in tx.cache && id in rows && !Upserts(db.backend, id.typ);
      BufferedWrites(db, ops, id);
    }
    if !Insertable(db.backend, rows, ops) {
      var id :| id in rows && LastWrite(ops, id) == Some(Saved) && !Upserts(db.backend, id.typ);
      BufferedWrites(db, ops, id);
    }
  }

  /**
    A transaction commits exactly when it wrote nothing, or the storage accepts the writes and no row it leaves
    saved is of a type without upsert and already persisted. Removing that row first does not help.
   */
  lemma CommitOfRunIff(db: Db, ops: seq<Op>, io: bool)
    requires db.conn.Some? && db.tx.None?
    requires forall op :: op in ops ==> StaysOpen(op)
    ensures Commit(Run(db, [OpBegin] + ops).0, io).1.Ok? <==>
            WroteNothing(ops) || (io && Insertable(db.backend, db.conn.value, ops))
    ensures Commit(Run(db, [OpBegin] + ops).0, io).1.Err? ==>
              Commit(Run(db, [OpBegin] + ops).0, io).1 ==
              Err(if Insertable(db.backend, db.conn.value, ops) then Io else AlreadyExists)
  {
    var begun := Begin(db).0;
    assert ([OpBegin] + ops)[1..] == ops;
    OpenRunKeepsRows(begun, ops);
    BufferIsEmptyIff(begun, ops);
    ConflictsIff(begun, ops);
  }
}
