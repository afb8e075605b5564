/**
  Proteus sessions: a cache of live sessions over the keystore. Every operation that advances a
  session saves it. The reference below has no cache and reloads the session each time.
 */
module ProteusModel {
  import opened Base
  import K = Keystore

  type Id = Bytes

  /**
    The Proteus library. Encrypting and decrypting advance the session; decrypting and accepting
    a first message may also use up prekeys.
   */
  datatype Lib<!S> = Lib(
    ser: S -> Bytes,
    deser: Bytes -> Option<S>,
    fromPrekey: (Bytes, nat) -> Option<S>,
    fromMessage: (Bytes, Bytes) -> (Bytes, Option<(S, Bytes)>),
    encrypt: (S, Bytes) -> (S, Option<Bytes>),
    decrypt: (S, Bytes, Bytes) -> (S, Bytes, Option<Bytes>))

  /** A serialised session reads back as itself, and a failed operation leaves the session alone. */
  ghost predicate Lawful<S(!new)>(lib: Lib<S>) {
    && (forall s :: lib.deser(lib.ser(s)) == Some(s))
    && (forall s, p :: lib.encrypt(s, p).1.None? ==> lib.encrypt(s, p).0 == s)
    && (forall s, k, c :: lib.decrypt(s, k, c).2.None? ==> lib.decrypt(s, k, c).0 == s)
  }

  datatype Error = NotFound | Library | Store(error: K.Error)

  datatype Central<S> = Central(db: K.Db, prekeys: Bytes, cache: map<Id, S>)

  function SessionRow(id: Id): (r: K.EntityId) {
    K.EntityId(K.ProteusSession, id)
  }

  function SessionRecord<S>(lib: Lib<S>, id: Id, s: S): (r: K.Record) {
    K.Record(SessionRow(id), lib.ser(s))
  }

  function SaveSession<S>(lib: Lib<S>, db: K.Db, id: Id, s: S): (r: (K.Db, Result<(), Error>)) {
    var (after, o) := K.Save(db, SessionRecord(lib, id, s));
    (after, if o.Ok? then Ok(()) else Err(Store(o.error)))
  }

  function LoadSession<S>(lib: Lib<S>, db: K.Db, id: Id): (r: Result<Option<S>, Error>) {
    match K.Get(db, SessionRow(id))
    case Err(e) => Err(Store(e))
    case Ok(None) => Ok(None)
    case Ok(Some(rec)) => if lib.deser(rec.value).None? then Err(Library) else Ok(lib.deser(rec.value))
  }

  // ----- With the cache -----

  /** Room is made by throwing out any set of other entries. */
  function CacheInsert<S>(cache: map<Id, S>, id: Id, s: S, evict: set<Id>): (r: map<Id, S>) {
    (cache - evict)[id := s]
  }

  /** The state afterwards, and the session if there is one. */
  function GetOrFetch<S>(
    lib: Lib<S>, c: Central<S>, id: Id, evict: set<Id>
  ): (r: (Central<S>, Result<Option<S>, Error>))
    ensures r.1.Ok? && r.1.value.Some? ==> id in r.0.cache && r.0.cache[id] == r.1.value.value
  {
    if id in c.cache then (c, Ok(Some(c.cache[id])))
    else
      var loaded := LoadSession(lib, c.db, id);
      if loaded.Ok? && loaded.value.Some?
      then (c.(cache := CacheInsert(c.cache, id, loaded.value.value, evict)), loaded)
      else (c, loaded)
  }

  /** Stores the advanced session in the cache and saves it. */
  function Advance<S>(lib: Lib<S>, c: Central<S>, id: Id, s: S): (r: (Central<S>, Result<(), Error>)) {
    var (db, o) := SaveSession(lib, c.db, id, s);
    (c.(db := db, cache := c.cache[id := s]), o)
  }

  function Encrypt<S>(
    lib: Lib<S>, c: Central<S>, id: Id, plaintext: Bytes, evict: set<Id>
  ): (r: (Central<S>, Result<Bytes, Error>)) {
    var (d, found) := GetOrFetch(lib, c, id, evict);
    if found.Err? then (d, Err(found.error))
    else if found.value.None? then (d, Err(NotFound))
    else
      var (s, out) := lib.encrypt(found.value.value, plaintext);
      if out.None? then (d.(cache := d.cache[id := s]), Err(Library))
      else
        var (e, saved) := Advance(lib, d, id, s);
        (e, if saved.Ok? then Ok(out.value) else Err(saved.error))
  }

  function Decrypt<S>(
    lib: Lib<S>, c: Central<S>, id: Id, ciphertext: Bytes, evict: set<Id>
  ): (r: (Central<S>, Result<Bytes, Error>)) {
    var (d, found) := GetOrFetch(lib, c, id, evict);
    if found.Err? then (d, Err(found.error))
    else if found.value.None? then (d, Err(NotFound))
    else
      var (s, keys, out) := lib.decrypt(found.value.value, d.prekeys, ciphertext);
      if out.None? then (d.(cache := d.cache[id := s], prekeys := keys), Err(Library))
      else
        var (e, saved) := Advance(lib, d.(prekeys := keys), id, s);
        (e, if saved.Ok? then Ok(out.value) else Err(saved.error))
  }

  /** Sessions that are not found are skipped; the first error ends the batch. */
  function EncryptBatched<S>(
    lib: Lib<S>, c: Central<S>, ids: seq<Id>, plaintext: Bytes, evicts: seq<set<Id>>, acc: map<Id, Bytes>)
    : (r: (Central<S>, Result<map<Id, Bytes>, Error>))
    requires |evicts| == |ids|
    decreases ids
  {
    if ids == [] then (c, Ok(acc))
    else
      var (d, out) := Encrypt(lib, c, ids[0], plaintext, evicts[0]);
      if out == Err(NotFound) then EncryptBatched(lib, d, ids[1..], plaintext, evicts[1..], acc)
      else if out.Err? then (d, Err(out.error))
      else EncryptBatched(lib, d, ids[1..], plaintext, evicts[1..], acc[ids[0] := out.value])
  }

  /** A batch stops at its first error, and otherwise goes on where its first part left off. */
  lemma {:induction false} BatchAppend<S>(lib: Lib<S>, c: Central<S>, a: seq<Id>, b: seq<Id>, plaintext: Bytes,
                                          ea: seq<set<Id>>, eb: seq<set<Id>>, acc: map<Id, Bytes>)
    requires |ea| == |a| && |eb| == |b|
    ensures var (d, r) := EncryptBatched(lib, c, a, plaintext, ea, acc);
            EncryptBatched(lib, c, a + b, plaintext, ea + eb, acc) ==
            if r.Err? then (d, r) else EncryptBatched(lib, d, b, plaintext, eb, r.value)
    decreases a
  {
    if a == [] {
      assert a + b == b && ea + eb == eb;
    } else {
      assert (a + b)[1..] == a[1..] + b && (ea + eb)[1..] == ea[1..] + eb;
      var (d, out) := Encrypt(lib, c, a[0], plaintext, ea[0]);
      if out == Err(NotFound) {
        BatchAppend(lib, d, a[1..], b, plaintext, ea[1..], eb, acc);
      } else if out.Ok? {
        BatchAppend(lib, d, a[1..], b, plaintext, ea[1..], eb, acc[a[0] := out.value]);
      }
    }
  }

  lemma {:induction false} BatchSnoc<S>(
    lib: Lib<S>, c: Central<S>, ids: seq<Id>, id: Id, plaintext: Bytes, evicts: seq<set<Id>>, evict: set<Id>)
    requires |evicts| == |ids|
    ensures var (d, r) := EncryptBatched(lib, c, ids, plaintext, evicts, map[]);
            r.Ok? ==>
              var (e, out) := Encrypt(lib, d, id, plaintext, evict);
              EncryptBatched(lib, c, ids + [id], plaintext, evicts + [evict], map[]) ==
              (e, if out == Err(NotFound) then r else if out.Err? then Err(out.error) else Ok(r.value[id := out.value]))
  {
    BatchAppend(lib, c, ids, [id], plaintext, evicts, [evict], map[]);
    var (d, r) := EncryptBatched(lib, c, ids, plaintext, evicts, map[]);
    if r.Ok? {
      assert [id][1..] == [] && [evict][1..] == [];
    }
  }

  ghost function NoEvictions(n: nat): (e: seq<set<Id>>)
    ensures |e| == n
  {
    seq(n, _ => {})
  }

  lemma {:induction false} BatchStops<S>(
    lib: Lib<S>, c: Central<S>, ids: seq<Id>, i: nat, plaintext: Bytes, evicts: seq<set<Id>>)
    requires i <= |ids| && |evicts| == i
    ensures var r := EncryptBatched(lib, c, ids[..i], plaintext, evicts, map[]);
            r.1.Err? ==> EncryptBatched(lib, c, ids, plaintext, evicts + NoEvictions(|ids| - i), map[]) == r
  {
    assert ids[..i] + ids[i..] == ids;
    BatchAppend(lib, c, ids[..i], ids[i..], plaintext, evicts, NoEvictions(|ids| - i), map[]);
  }

  /** One more session of a batch that has succeeded so far; an error ends the batch. */
  lemma {:induction false} BatchNext<S>(lib: Lib<S>, c: Central<S>, ids: seq<Id>, i: nat, plaintext: Bytes,
                                        evicts: seq<set<Id>>, evict: set<Id>, d: Central<S>, acc: map<Id, Bytes>)
    requires i < |ids| && |evicts| == i
    requires (d, Ok(acc)) == EncryptBatched(lib, c, ids[..i], plaintext, evicts, map[])
    ensures var (e, out) := Encrypt(lib, d, ids[i], plaintext, evict);
            if out.Ok? || out == Err(NotFound) then
              EncryptBatched(lib, c, ids[..i + 1], plaintext, evicts + [evict], map[]) ==
              (e, Ok(if out.Ok? then acc[ids[i] := out.value] else acc))
            else
              EncryptBatched(lib, c, ids, plaintext, evicts + [evict] + NoEvictions(|ids| - i - 1), map[]) ==
                (e, Err(out.error))
  {
    BatchSnoc(lib, c, ids[..i], ids[i], plaintext, evicts, evict);
    assert ids[..i] + [ids[i]] == ids[..i + 1];
    BatchStops(lib, c, ids, i + 1, plaintext, evicts + [evict]);
  }

  function FromPrekey<S>(
    lib: Lib<S>, c: Central<S>, id: Id, bundle: Bytes, random: nat, evict: set<Id>
  ): (r: (Central<S>, Result<Bytes, Error>)) {
    var s := lib.fromPrekey(bundle, random);
    if s.None? then (c, Err(Library))
    else
      var (e, saved) := Advance(lib, c.(cache := CacheInsert(c.cache, id, s.value, evict)), id, s.value);
      (e, if saved.Ok? then Ok([]) else Err(saved.error))
  }

  function FromMessage<S>(
    lib: Lib<S>, c: Central<S>, id: Id, envelope: Bytes, evict: set<Id>
  ): (r: (Central<S>, Result<Bytes, Error>)) {
    var (keys, made) := lib.fromMessage(envelope, c.prekeys);
    if made.None? then (c.(prekeys := keys), Err(Library))
    else
      var (s, payload) := made.value;
      var (e, saved) := Advance(lib, c.(prekeys := keys, cache := CacheInsert(c.cache, id, s, evict)), id, s);
      (e, if saved.Ok? then Ok(payload) else Err(saved.error))
  }

  function Save<S>(lib: Lib<S>, c: Central<S>, id: Id, evict: set<Id>): (r: (Central<S>, Result<Bytes, Error>)) {
    var (d, found) := GetOrFetch(lib, c, id, evict);
    if found.Err? then (d, Err(found.error))
    else if found.value.None? then (d, Ok([]))
    else
      var (db, saved) := SaveSession(lib, d.db, id, found.value.value);
      (d.(db := db), if saved.Ok? then Ok([]) else Err(saved.error))
  }

  /** The cache entry goes only if the store accepted the deletion; the caller is not told. */
  function Delete<S>(lib: Lib<S>, c: Central<S>, id: Id): (r: (Central<S>, Result<Bytes, Error>)) {
    var (db, o) := K.Remove(c.db, SessionRow(id));
    (if o.Ok? then c.(db := db, cache := c.cache - {id}) else c, Ok([]))
  }

  function Exists<S>(lib: Lib<S>, c: Central<S>, id: Id, evict: set<Id>): (r: (Central<S>, Result<Bytes, Error>)) {
    var (d, found) := GetOrFetch(lib, c, id, evict);
    (d, if found.Ok? && found.value.Some? then Ok([1]) else Ok([0]))
  }

  // ----- Whole runs -----

  datatype Call =
    | DoEncrypt(id: Id, plaintext: Bytes)
    | DoDecrypt(id: Id, ciphertext: Bytes)
    | DoBatch(ids: seq<Id>, plaintext: Bytes)
    | DoFromPrekey(id: Id, bundle: Bytes, random: nat)
    | DoFromMessage(id: Id, envelope: Bytes)
    | DoSave(id: Id)
    | DoDelete(id: Id)
    | DoExists(id: Id)
    | DoBegin
    | DoCommit(io: bool)

  datatype Out =
    | One(one: Result<Bytes, Error>)
    | Many(many: Result<map<Id, Bytes>, Error>)
    | Tx(tx: Result<(), K.Error>)

  /** `evicts` chooses what is thrown out at each insertion. */
  function Step<S>(lib: Lib<S>, c: Central<S>, call: Call, evicts: seq<set<Id>>): (r: (Central<S>, Out))
    requires |evicts| == if call.DoBatch? then |call.ids| else 1
  {
    match call
    case DoEncrypt(id, p) => var (d, o) := Encrypt(lib, c, id, p, evicts[0]); (d, One(o))
    case DoDecrypt(id, x) => var (d, o) := Decrypt(lib, c, id, x, evicts[0]); (d, One(o))
    case DoBatch(ids, p) => var (d, o) := EncryptBatched(lib, c, ids, p, evicts, map[]); (d, Many(o))
    case DoFromPrekey(id, b, n) => var (d, o) := FromPrekey(lib, c, id, b, n, evicts[0]); (d, One(o))
    case DoFromMessage(id, m) => var (d, o) := FromMessage(lib, c, id, m, evicts[0]); (d, One(o))
    case DoSave(id) => var (d, o) := Save(lib, c, id, evicts[0]); (d, One(o))
    case DoDelete(id) => var (d, o) := Delete(lib, c, id); (d, One(o))
    case DoExists(id) => var (d, o) := Exists(lib, c, id, evicts[0]); (d, One(o))
    case DoBegin => var (db, o) := K.Begin(c.db); (c.(db := db), Tx(o))
    case DoCommit(io) => var (db, o) := K.Commit(c.db, io); (c.(db := db), Tx(o))
  }

  // ----- Without the cache -----

  datatype Stored = Stored(db: K.Db, prekeys: Bytes)

  function Backing<S>(c: Central<S>): (r: Stored) {
    Stored(c.db, c.prekeys)
  }

  function RefPut<S>(lib: Lib<S>, st: Stored, id: Id, s: S, out: Bytes): (r: (Stored, Result<Bytes, Error>)) {
    var (db, saved) := SaveSession(lib, st.db, id, s);
    (st.(db := db), if saved.Ok? then Ok(out) else Err(saved.error))
  }

  function RefEncrypt<S>(lib: Lib<S>, st: Stored, id: Id, plaintext: Bytes): (r: (Stored, Result<Bytes, Error>)) {
    match LoadSession(lib, st.db, id)
    case Err(e) => (st, Err(e))
    case Ok(None) => (st, Err(NotFound))
    case Ok(Some(s)) =>
      var (s', out) := lib.encrypt(s, plaintext);
      if out.None? then (st, Err(Library)) else RefPut(lib, st, id, s', out.value)
  }

  function RefDecrypt<S>(lib: Lib<S>, st: Stored, id: Id, ciphertext: Bytes): (r: (Stored, Result<Bytes, Error>)) {
    match LoadSession(lib, st.db, id)
    case Err(e) => (st, Err(e))
    case Ok(None) => (st, Err(NotFound))
    case Ok(Some(s)) =>
      var (s', keys, out) := lib.decrypt(s, st.prekeys, ciphertext);
      if out.None? then (st.(prekeys := keys), Err(Library)) else RefPut(lib, st.(prekeys := keys), id, s', out.value)
  }

  function RefBatch<S>(lib: Lib<S>, st: Stored, ids: seq<Id>, plaintext: Bytes, acc: map<Id, Bytes>)
    : (r: (Stored, Result<map<Id, Bytes>, Error>))
    decreases ids
  {
    if ids == [] then (st, Ok(acc))
    else
      var (t, out) := RefEncrypt(lib, st, ids[0], plaintext);
      if out == Err(NotFound) then RefBatch(lib, t, ids[1..], plaintext, acc)
      else if out.Err? then (t, Err(out.error))
      else RefBatch(lib, t, ids[1..], plaintext, acc[ids[0] := out.value])
  }

  function RefStep<S>(lib: Lib<S>, st: Stored, call: Call): (r: (Stored, Out)) {
    match call
    case DoEncrypt(id, p) => var (t, o) := RefEncrypt(lib, st, id, p); (t, One(o))
    case DoDecrypt(id, x) => var (t, o) := RefDecrypt(lib, st, id, x); (t, One(o))
    case DoBatch(ids, p) => var (t, o) := RefBatch(lib, st, ids, p, map[]); (t, Many(o))
    case DoFromPrekey(id, b, n) =>
      var s := lib.fromPrekey(b, n);
      if s.None? then (st, One(Err(Library)))
      else var (t, o) := RefPut(lib, st, id, s.value, []); (t, One(o))
    case DoFromMessage(id, m) =>
      var (keys, made) := lib.fromMessage(m, st.prekeys);
      if made.None? then (st.(prekeys := keys), One(Err(Library)))
      else var (t, o) := RefPut(lib, st.(prekeys := keys), id, made.value.0, made.value.1); (t, One(o))
    case DoSave(id) =>
      (match LoadSession(lib, st.db, id)
       case Err(e) => (st, One(Err(e)))
       case Ok(None) => (st, One(Ok([])))
       case Ok(Some(s)) => var (t, o) := RefPut(lib, st, id, s, []); (t, One(o)))
    case DoDelete(id) => (st.(db := K.Remove(st.db, SessionRow(id)).0), One(Ok([])))
    case DoExists(id) =>
      var l := LoadSession(lib, st.db, id); (st, One(if l.Ok? && l.value.Some? then Ok([1]) else Ok([0])))
    case DoBegin => var (db, o) := K.Begin(st.db); (st.(db := db), Tx(o))
    case DoCommit(io) => var (db, o) := K.Commit(st.db, io); (st.(db := db), Tx(o))
  }

  // ----- The cache is invisible -----

  /** A cached session is what the store holds. */
  ghost predicate Coherent<S>(lib: Lib<S>, c: Central<S>) {
    forall id :: id in c.cache ==> LoadSession(lib, c.db, id) == Ok(Some(c.cache[id]))
  }

  /** Committed sessions are found again by their id, or none is cached. */
  predicate SurvivesCommit<S>(c: Central<S>) {
    K.Reachable(c.db.backend, K.ProteusSession) || c.cache.Keys == {}
  }

  /** Sessions are used inside an open transaction, no commit fails, and the cache survives each commit. */
  predicate Proper<S>(c: Central<S>, call: Call) {
    match call
    case DoBegin => true
    case DoCommit(io) => c.db.tx.None? || (K.Commit(c.db, io).1.Ok? && SurvivesCommit(c))
    case _ => c.db.tx.Some?
  }

  lemma LoadAfterSave<S(!new)>(lib: Lib<S>, db: K.Db, id: Id, s: S, q: Id)
    requires Lawful(lib) && db.tx.Some?
    ensures var (after, o) := SaveSession(lib, db, id, s);
            && o.Ok? && after.tx.Some?
            && LoadSession(lib, after, q) == if q == id then Ok(Some(s)) else LoadSession(lib, db, q)
  {
  }

  lemma FetchIsLoad<S(!new)>(lib: Lib<S>, c: Central<S>, id: Id, evict: set<Id>)
    requires Coherent(lib, c)
    ensures var (d, r) := GetOrFetch(lib, c, id, evict);
            r == LoadSession(lib, c.db, id) && Coherent(lib, d) && d.db == c.db && d.prekeys == c.prekeys
  {
  }

  lemma AdvanceKeeps<S(!new)>(lib: Lib<S>, c: Central<S>, id: Id, s: S)
    requires Lawful(lib) && c.db.tx.Some?
    requires forall q :: q in c.cache && q != id ==> LoadSession(lib, c.db, q) == Ok(Some(c.cache[q]))
    ensures var (d, o) := Advance(lib, c, id, s);
            && o.Ok? && Coherent(lib, d) && d.prekeys == c.prekeys
            && d.db == SaveSession(lib, c.db, id, s).0 && d.db.tx.Some?
  {
    forall q ensures LoadSession(lib, SaveSession(lib, c.db, id, s).0, q) ==
                     if q == id then Ok(Some(s)) else LoadSession(lib, c.db, q)
    {
      LoadAfterSave(lib, c.db, id, s, q);
    }
    LoadAfterSave(lib, c.db, id, s, id);
  }

  lemma EncryptTransparent<S(!new)>(lib: Lib<S>, c: Central<S>, id: Id, plaintext: Bytes, evict: set<Id>)
    requires Lawful(lib) && Coherent(lib, c) && c.db.tx.Some?
    ensures var (d, o) := Encrypt(lib, c, id, plaintext, evict);
            Coherent(lib, d) && d.db.tx.Some? && (Backing(d), o) == RefEncrypt(lib, Backing(c), id, plaintext)
  {
    FetchIsLoad(lib, c, id, evict);
    var (d, found) := GetOrFetch(lib, c, id, evict);
    if found.Ok? && found.value.Some? {
      var (s, out) := lib.encrypt(found.value.value, plaintext);
      if out.Some? {
        AdvanceKeeps(lib, d, id, s);
      }
    }
  }

  lemma DecryptTransparent<S(!new)>(lib: Lib<S>, c: Central<S>, id: Id, ciphertext: Bytes, evict: set<Id>)
    requires Lawful(lib) && Coherent(lib, c) && c.db.tx.Some?
    ensures var (d, o) := Decrypt(lib, c, id, ciphertext, evict);
            Coherent(lib, d) && d.db.tx.Some? && (Backing(d), o) == RefDecrypt(lib, Backing(c), id, ciphertext)
  {
    FetchIsLoad(lib, c, id, evict);
    var (d, found) := GetOrFetch(lib, c, id, evict);
    if found.Ok? && found.value.Some? {
      var (s, keys, out) := lib.decrypt(found.value.value, d.prekeys, ciphertext);
      if out.Some? {
        AdvanceKeeps(lib, d.(prekeys := keys), id, s);
      }
    }
  }

  lemma {:induction false} BatchTransparent<S(!new)>(
    lib: Lib<S>, c: Central<S>, ids: seq<Id>, plaintext: Bytes, evicts: seq<set<Id>>, acc: map<Id, Bytes>)
    requires Lawful(lib) && Coherent(lib, c) && c.db.tx.Some? && |evicts| == |ids|
    ensures var (d, o) := EncryptBatched(lib, c, ids, plaintext, evicts, acc);
            Coherent(lib, d) && d.db.tx.Some? && (Backing(d), o) == RefBatch(lib, Backing(c), ids, plaintext, acc)
    decreases ids
  {
    if ids != [] {
      EncryptTransparent(lib, c, ids[0], plaintext, evicts[0]);
      var (d, out) := Encrypt(lib, c, ids[0], plaintext, evicts[0]);
      BatchTransparent(lib, d, ids[1..], plaintext, evicts[1..], acc);
      if out.Ok? {
        BatchTransparent(lib, d, ids[1..], plaintext, evicts[1..], acc[ids[0] := out.value]);
      }
    }
  }

  lemma CreateTransparent<S(!new)>(lib: Lib<S>, c: Central<S>, call: Call, evicts: seq<set<Id>>)
    requires Lawful(lib) && Coherent(lib, c) && c.db.tx.Some?
    requires |evicts| == 1 && (call.DoFromPrekey? || call.DoFromMessage?)
    ensures var (d, o) := Step(lib, c, call, evicts);
            Coherent(lib, d) && (Backing(d), o) == RefStep(lib, Backing(c), call)
  {
    match call
    case DoFromPrekey(id, b, n) =>
      var s := lib.fromPrekey(b, n);
      if s.Some? {
        AdvanceKeeps(lib, c.(cache := CacheInsert(c.cache, id, s.value, evicts[0])), id, s.value);
      }
    case DoFromMessage(id, m) =>
      var (keys, made) := lib.fromMessage(m, c.prekeys);
      if made.Some? {
        var cache := CacheInsert(c.cache, id, made.value.0, evicts[0]);
        AdvanceKeeps(lib, c.(prekeys := keys, cache := cache), id, made.value.0);
      }
  }

  lemma SaveTransparent<S(!new)>(lib: Lib<S>, c: Central<S>, id: Id, evicts: seq<set<Id>>)
    requires Lawful(lib) && Coherent(lib, c) && c.db.tx.Some? && |evicts| == 1
    ensures var (d, o) := Step(lib, c, DoSave(id), evicts);
            Coherent(lib, d) && (Backing(d), o) == RefStep(lib, Backing(c), DoSave(id))
  {
    FetchIsLoad(lib, c, id, evicts[0]);
    var (d, found) := GetOrFetch(lib, c, id, evicts[0]);
    if found.Ok? && found.value.Some? {
      AdvanceKeeps(lib, d, id, found.value.value);
      assert d.cache[id := found.value.value] == d.cache;
    }
  }

  lemma LoadAfterCommit<S>(lib: Lib<S>, db: K.Db, io: bool, id: Id)
    requires K.Valid(db) && db.conn.Some? && K.Reachable(db.backend, K.ProteusSession)
    ensures LoadSession(lib, K.Commit(db, io).0, id) == LoadSession(lib, db, id)
  {
  }

  /**
    A successful commit keeps the cache equal to the store exactly when committed sessions are found again, or none is
    cached.
   */
  lemma CommitKeepsCoherentIff<S(!new)>(lib: Lib<S>, c: Central<S>, io: bool)
    requires Coherent(lib, c) && K.Valid(c.db) && K.Commit(c.db, io).1.Ok?
    ensures Coherent(lib, c.(db := K.Commit(c.db, io).0)) <==> SurvivesCommit(c)
  {
    var after := c.(db := K.Commit(c.db, io).0);
    if K.Reachable(c.db.backend, K.ProteusSession) {
      forall id { LoadAfterCommit(lib, c.db, io, id); }
    } else if c.cache.Keys != {} {
      var id :| id in c.cache.Keys;
      assert id in after.cache && LoadSession(lib, after.db, id) == Ok(None);
    }
  }

  lemma LoadAfterRemove<S>(lib: Lib<S>, db: K.Db, id: Id, q: Id)
    requires db.tx.Some?
    ensures LoadSession(lib, K.Remove(db, SessionRow(id)).0, q) == if q == id then Ok(None) else LoadSession(lib, db, q)
  {
  }

  lemma DeleteTransparent<S(!new)>(lib: Lib<S>, c: Central<S>, id: Id)
    requires Coherent(lib, c) && c.db.tx.Some?
    ensures Coherent(lib, Delete(lib, c, id).0) && Delete(lib, c, id).1 == Ok([])
    ensures Backing(Delete(lib, c, id).0) == Backing(c).(db := K.Remove(c.db, SessionRow(id)).0)
  {
    var d := Delete(lib, c, id).0;
    forall q | q in d.cache ensures LoadSession(lib, d.db, q) == Ok(Some(d.cache[q])) {
      LoadAfterRemove(lib, c.db, id, q);
    }
  }

  lemma EndsTransparent<S(!new)>(lib: Lib<S>, c: Central<S>, call: Call, evicts: seq<set<Id>>)
    requires Coherent(lib, c) && Proper(c, call) && K.Valid(c.db) && c.db.conn.Some?
    requires |evicts| == 1 && (call.DoBegin? || call.DoCommit?)
    ensures var (d, o) := Step(lib, c, call, evicts);
            Coherent(lib, d) && (Backing(d), o) == RefStep(lib, Backing(c), call)
  {
    if call.DoCommit? && c.db.tx.Some? {
      CommitKeepsCoherentIff(lib, c, call.io);
    }
  }

  lemma StepTransparent<S(!new)>(lib: Lib<S>, c: Central<S>, call: Call, evicts: seq<set<Id>>)
    requires Lawful(lib) && Coherent(lib, c) && Proper(c, call)
    requires K.Valid(c.db) && c.db.conn.Some?
    requires |evicts| == if call.DoBatch? then |call.ids| else 1
    ensures var (d, o) := Step(lib, c, call, evicts);
            Coherent(lib, d) && (Backing(d), o) == RefStep(lib, Backing(c), call)
  {
    match call
    case DoEncrypt(id, p) => EncryptTransparent(lib, c, id, p, evicts[0]);
    case DoDecrypt(id, x) => DecryptTransparent(lib, c, id, x, evicts[0]);
    case DoBatch(ids, p) => BatchTransparent(lib, c, ids, p, evicts, map[]);
    case DoFromPrekey(_, _, _) => CreateTransparent(lib, c, call, evicts);
    case DoFromMessage(_, _) => CreateTransparent(lib, c, call, evicts);
    case DoSave(id) => SaveTransparent(lib, c, id, evicts);
    case DoDelete(id) => DeleteTransparent(lib, c, id);
    case DoExists(id) => FetchIsLoad(lib, c, id, evicts[0]);
    case DoBegin => EndsTransparent(lib, c, call, evicts);
    case DoCommit(_) => EndsTransparent(lib, c, call, evicts);
  }

  // ----- Runs -----

  predicate Fits(calls: seq<Call>, evicts: seq<seq<set<Id>>>) {
    && |evicts| == |calls|
    && forall i :: 0 <= i < |calls| ==> |evicts[i]| == if calls[i].DoBatch? then |calls[i].ids| else 1
  }

  function Run<S>(lib: Lib<S>, c: Central<S>, calls: seq<Call>, evicts: seq<seq<set<Id>>>): (r: (Central<S>, seq<Out>))
    requires Fits(calls, evicts)
  {
    if calls == [] then (c, [])
    else
      var n := |calls| - 1;
      var (before, outs) := Run(lib, c, calls[..n], evicts[..n]);
      var (after, out) := Step(lib, before, calls[n], evicts[n]);
      (after, outs + [out])
  }

  function RefRun<S>(lib: Lib<S>, st: Stored, calls: seq<Call>): (r: (Stored, seq<Out>)) {
    if calls == [] then (st, [])
    else
      var n := |calls| - 1;
      var (before, outs) := RefRun(lib, st, calls[..n]);
      var (after, out) := RefStep(lib, before, calls[n]);
      (after, outs + [out])
  }

  /** Every call of the run is proper where it happens. */
  ghost predicate AllProper<S>(lib: Lib<S>, c: Central<S>, calls: seq<Call>, evicts: seq<seq<set<Id>>>)
    requires Fits(calls, evicts)
  {
    forall n :: 0 <= n < |calls| ==> Proper(Run(lib, c, calls[..n], evicts[..n]).0, calls[n])
  }

  lemma {:induction false} RefBatchKeepsStore<S>(
    lib: Lib<S>, st: Stored, ids: seq<Id>, plaintext: Bytes, acc: map<Id, Bytes>)
    requires K.Valid(st.db)
    ensures var t := RefBatch(lib, st, ids, plaintext, acc).0;
            K.Valid(t.db) && t.db.conn == st.db.conn && t.db.backend == st.db.backend
    decreases ids
  {
    if ids != [] {
      var (t, out) := RefEncrypt(lib, st, ids[0], plaintext);
      RefBatchKeepsStore(lib, t, ids[1..], plaintext, acc);
      if out.Ok? {
        RefBatchKeepsStore(lib, t, ids[1..], plaintext, acc[ids[0] := out.value]);
      }
    }
  }

  lemma RefStepKeepsStore<S>(lib: Lib<S>, st: Stored, call: Call)
    requires K.Valid(st.db) && st.db.conn.Some?
    ensures var t := RefStep(lib, st, call).0; K.Valid(t.db) && t.db.conn.Some? && t.db.backend == st.db.backend
  {
    if call.DoBatch? {
      RefBatchKeepsStore(lib, st, call.ids, call.plaintext, map[]);
    }
  }

  /**
    On every backend and in every run whose commits succeed and find the cache able to survive them, whatever is
    evicted and whenever, the outputs and the stored sessions are those of reloading the session each time.
   */
  lemma {:induction false} CacheTransparent<S(!new)>(
    lib: Lib<S>, c: Central<S>, calls: seq<Call>, evicts: seq<seq<set<Id>>>)
    requires Lawful(lib) && Coherent(lib, c) && K.Valid(c.db) && c.db.conn.Some?
    requires Fits(calls, evicts) && AllProper(lib, c, calls, evicts)
    ensures var (after, outs) := Run(lib, c, calls, evicts);
            && Coherent(lib, after) && K.Valid(after.db) && after.db.conn.Some? && after.db.backend == c.db.backend
            && (Backing(after), outs) == RefRun(lib, Backing(c), calls)
  {
    if calls != [] {
      var n := |calls| - 1;
      var init, ev := calls[..n], evicts[..n];
      forall k | 0 <= k < n ensures Proper(Run(lib, c, init[..k], ev[..k]).0, init[k]) {
        assert init[..k] == calls[..k] && ev[..k] == evicts[..k];
      }
      CacheTransparent(lib, c, init, ev);
      var before := Run(lib, c, init, ev).0;
      assert Proper(before, calls[n]);
      StepTransparent(lib, before, calls[n], evicts[n]);
      RefStepKeepsStore(lib, Backing(before), calls[n]);
    }
  }

  /**
    Where text ids are not found by key, a committed session is lost to everyone but the cache:
    with the entry kept it still encrypts, with the entry evicted it does not exist.
   */
  lemma TextIdsBreakTransparency<S(!new)>(lib: Lib<S>, rows: K.Rows, id: Id, s: S, plaintext: Bytes)
    requires Lawful(lib) && lib.encrypt(s, plaintext).1.Some?
    ensures var open := K.Db(K.Sqlite, Some(rows), Some(K.EMPTY_TX));
            var created := Advance(lib, Central(open, [], map[]), id, s).0;
            var (db, o) := K.Commit(created.db, true);
            var later := created.(db := K.Begin(db).0);
            && Coherent(lib, created) && o.Ok? && !Coherent(lib, later)
            && Encrypt(lib, later, id, plaintext, {}).1.Ok?
            && Encrypt(lib, later.(cache := map[]), id, plaintext, {}).1 == Err(NotFound)
            && RefEncrypt(lib, Backing(later), id, plaintext).1 == Err(NotFound)
  {
    var open := K.Db(K.Sqlite, Some(rows), Some(K.EMPTY_TX));
    var created := Advance(lib, Central(open, [], map[]), id, s).0;
    AdvanceKeeps(lib, Central(open, [], map[]), id, s);
    assert id in created.cache;
    assert SessionRow(id) in created.db.tx.value.cache;
    var later := created.(db := K.Begin(K.Commit(created.db, true).0).0);
    assert LoadSession(lib, later.db, id) == Ok(None);
  }

  /**
    Rolling back keeps the cache equal to the store exactly when, for every cached session the transaction saved,
    the persisted row is found and holds that very session.
   */
  lemma CoherentAfterRollbackIff<S(!new)>(lib: Lib<S>, c: Central<S>)
    requires c.db.tx.Some? && c.db.conn.Some? && Coherent(lib, c)
    ensures Coherent(lib, c.(db := K.Rollback(c.db).0)) <==>
            forall id :: id in c.cache && SessionRow(id) in c.db.tx.value.cache ==>
              && K.Reachable(c.db.backend, K.ProteusSession) && SessionRow(id) in c.db.conn.value
              && lib.deser(c.db.conn.value[SessionRow(id)].value) == Some(c.cache[id])
  {
    var after := c.(db := K.Rollback(c.db).0);
    assert after.db == c.db.(tx := None);
    forall id | id in c.cache ensures SessionRow(id) !in c.db.tx.value.deleted {
      assert LoadSession(lib, c.db, id) == Ok(Some(c.cache[id]));
    }
    if Coherent(lib, after) {
      forall id | id in c.cache && SessionRow(id) in c.db.tx.value.cache
        ensures K.Reachable(c.db.backend, K.ProteusSession) && SessionRow(id) in c.db.conn.value
        ensures lib.deser(c.db.conn.value[SessionRow(id)].value) == Some(c.cache[id])
      {
        assert id in after.cache;
      }
    }
  }

  // ----- What each operation stores and returns -----

  /** This session is stored under the id now, and nothing else has changed. */
  ghost predicate StoresOnly<S>(lib: Lib<S>, before: K.Db, after: K.Db, id: Id, s: S) {
    forall q :: LoadSession(lib, after, q) == if q == id then Ok(Some(s)) else LoadSession(lib, before, q)
  }

  lemma SavedOnly<S(!new)>(lib: Lib<S>, db: K.Db, id: Id, s: S)
    requires Lawful(lib) && db.tx.Some?
    ensures StoresOnly(lib, db, SaveSession(lib, db, id, s).0, id, s)
  {
    forall q { LoadAfterSave(lib, db, id, s, q); }
  }

  /** Encrypting returns what the library encrypts with the stored session, and stores the session it advanced to. */
  lemma EncryptStores<S(!new)>(lib: Lib<S>, c: Central<S>, id: Id, plaintext: Bytes, evict: set<Id>)
    requires Lawful(lib) && Coherent(lib, c) && c.db.tx.Some?
    ensures var (d, r) := Encrypt(lib, c, id, plaintext, evict);
            match LoadSession(lib, c.db, id)
            case Err(e) => r == Err(e) && d.db == c.db
            case Ok(None) => r == Err(NotFound) && d.db == c.db
            case Ok(Some(s)) =>
              var (next, out) := lib.encrypt(s, plaintext);
              if out.None? then r == Err(Library) && d.db == c.db
              else r == Ok(out.value) && StoresOnly(lib, c.db, d.db, id, next)
  {
    EncryptTransparent(lib, c, id, plaintext, evict);
    if LoadSession(lib, c.db, id).Ok? && LoadSession(lib, c.db, id).value.Some? {
      SavedOnly(lib, c.db, id, lib.encrypt(LoadSession(lib, c.db, id).value.value, plaintext).0);
    }
  }

  /** Decrypting does the same, and uses up the prekeys the library used up. */
  lemma DecryptStores<S(!new)>(lib: Lib<S>, c: Central<S>, id: Id, ciphertext: Bytes, evict: set<Id>)
    requires Lawful(lib) && Coherent(lib, c) && c.db.tx.Some?
    ensures var (d, r) := Decrypt(lib, c, id, ciphertext, evict);
            match LoadSession(lib, c.db, id)
            case Err(e) => r == Err(e) && d.db == c.db && d.prekeys == c.prekeys
            case Ok(None) => r == Err(NotFound) && d.db == c.db && d.prekeys == c.prekeys
            case Ok(Some(s)) =>
              var (next, keys, out) := lib.decrypt(s, c.prekeys, ciphertext);
              && d.prekeys == keys
              && if out.None? then r == Err(Library) && d.db == c.db
                 else r == Ok(out.value) && StoresOnly(lib, c.db, d.db, id, next)
  {
    DecryptTransparent(lib, c, id, ciphertext, evict);
    if LoadSession(lib, c.db, id).Ok? && LoadSession(lib, c.db, id).value.Some? {
      SavedOnly(lib, c.db, id, lib.decrypt(LoadSession(lib, c.db, id).value.value, c.prekeys, ciphertext).0);
    }
  }

  /** A session created from a prekey bundle is cached and stored. */
  lemma CreatedFromPrekey<S(!new)>(lib: Lib<S>, c: Central<S>, id: Id, bundle: Bytes, random: nat, evict: set<Id>)
    requires Lawful(lib) && c.db.tx.Some?
    ensures var (d, r) := FromPrekey(lib, c, id, bundle, random, evict);
            match lib.fromPrekey(bundle, random)
            case None => r == Err(Library) && d == c
            case Some(s) => r == Ok([]) && StoresOnly(lib, c.db, d.db, id, s) && Lookup(d.cache, id) == Some(s)
  {
    if lib.fromPrekey(bundle, random).Some? {
      SavedOnly(lib, c.db, id, lib.fromPrekey(bundle, random).value);
    }
  }

  /** A session created from a first message is cached and stored, and the message is returned. */
  lemma CreatedFromMessage<S(!new)>(lib: Lib<S>, c: Central<S>, id: Id, envelope: Bytes, evict: set<Id>)
    requires Lawful(lib) && c.db.tx.Some?
    ensures var (d, r) := FromMessage(lib, c, id, envelope, evict);
            var (keys, made) := lib.fromMessage(envelope, c.prekeys);
            && d.prekeys == keys
            && match made
               case None => r == Err(Library) && d.db == c.db
               case Some((s, payload)) =>
                 r == Ok(payload) && StoresOnly(lib, c.db, d.db, id, s) && Lookup(d.cache, id) == Some(s)
  {
    var made := lib.fromMessage(envelope, c.prekeys).1;
    if made.Some? {
      SavedOnly(lib, c.db, id, made.value.0);
    }
  }

  /** A deleted session is gone from cache and store, and no other is. */
  lemma DeletedIsGone<S(!new)>(lib: Lib<S>, c: Central<S>, id: Id, q: Id)
    requires c.db.tx.Some?
    ensures var d := Delete(lib, c, id).0;
            && LoadSession(lib, d.db, q) == (if q == id then Ok(None) else LoadSession(lib, c.db, q))
            && Lookup(d.cache, q) == (if q == id then None else Lookup(c.cache, q))
  {
    LoadAfterRemove(lib, c.db, id, q);
  }

  ghost predicate IsStored<S>(lib: Lib<S>, db: K.Db, id: Id) {
    LoadSession(lib, db, id).Ok? && LoadSession(lib, db, id).value.Some?
  }

  /** A batch that succeeds has a message for exactly the sessions of the list that exist. */
  lemma {:induction false} BatchReaches<S(!new)>(
    lib: Lib<S>, c: Central<S>, ids: seq<Id>, plaintext: Bytes, evicts: seq<set<Id>>, acc: map<Id, Bytes>, id: Id)
    requires Lawful(lib) && Coherent(lib, c) && c.db.tx.Some? && |evicts| == |ids|
    ensures var r := EncryptBatched(lib, c, ids, plaintext, evicts, acc).1;
            r.Ok? ==> (id in r.value <==> id in acc || (id in ids && IsStored(lib, c.db, id)))
    decreases ids
  {
    if ids != [] {
      EncryptTransparent(lib, c, ids[0], plaintext, evicts[0]);
      EncryptStores(lib, c, ids[0], plaintext, evicts[0]);
      var (d, out) := Encrypt(lib, c, ids[0], plaintext, evicts[0]);
      assert id in ids <==> id == ids[0] || id in ids[1..];
      if out == Err(NotFound) {
        BatchReaches(lib, d, ids[1..], plaintext, evicts[1..], acc, id);
      } else if out.Ok? {
        assert IsStored(lib, d.db, id) <==> IsStored(lib, c.db, id);
        BatchReaches(lib, d, ids[1..], plaintext, evicts[1..], acc[ids[0] := out.value], id);
      }
    }
  }

  /** A session exists exactly when one is stored; asking for it, or saving it again, changes no stored session. */
  lemma ExistsIff<S(!new)>(lib: Lib<S>, c: Central<S>, id: Id, evict: set<Id>)
    requires Lawful(lib) && Coherent(lib, c) && c.db.tx.Some?
    ensures Exists(lib, c, id, evict).0.db == c.db
    ensures Exists(lib, c, id, evict).1 == (if IsStored(lib, c.db, id) then Ok([1]) else Ok([0]))
    ensures var (d, r) := Save(lib, c, id, evict);
            if IsStored(lib, c.db, id)
            then r == Ok([]) && StoresOnly(lib, c.db, d.db, id, LoadSession(lib, c.db, id).value.value)
            else d.db == c.db
  {
    FetchIsLoad(lib, c, id, evict);
    if IsStored(lib, c.db, id) {
      SavedOnly(lib, c.db, id, LoadSession(lib, c.db, id).value.value);
    }
  }
}
