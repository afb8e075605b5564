/** The object behind `ProteusModel`: live sessions in a bounded cache, and the database they are saved to. */
module ProteusCentral {
  import opened Base
  import opened ProteusModel
  import K = Keystore
  import D = Database
  import Lru

  const CAPACITY: nat := 200

  class ProteusCentral<S(==, !new)> {
    const lib: Lib<S>
    const database: D.Database
    var prekeys: Bytes
    var entries: seq<(Id, S)>

    ghost predicate Valid()
      reads this, database
    {
      database.Valid() && Lru.Wf(entries, CAPACITY)
    }

    ghost function State(): (c: Central<S>)
      reads this, database
    {
      Central(database.State(), prekeys, Lru.AsMap(entries))
    }

    constructor (lib: Lib<S>, database: D.Database, prekeys: Bytes)
      requires database.Valid()
      ensures Valid() && this.lib == lib && this.database == database
      ensures State() == Central(database.State(), prekeys, map[])
    {
      this.lib, this.database, this.prekeys, entries := lib, database, prekeys, [];
    }

    /** The entry just inserted is always there, and only the least recently used one may go. */
    method Insert(id: Id, s: S)
      requires Valid()
      modifies this`entries
      ensures Valid() && Lru.Find(entries, id) == Some(s)
      ensures State() ==
              old(State()).(cache := CacheInsert(old(State()).cache, id, s, Lru.Evicted(old(entries), id, CAPACITY)))
    {
      Lru.InsertAsMap(entries, id, s, CAPACITY);
      entries := Lru.Insert(entries, id, s, CAPACITY);
    }

    /** Changes a cached session in place. */
    method Update(id: Id, s: S)
      requires Valid() && Lru.Find(entries, id).Some?
      modifies this`entries
      ensures Valid() && State() == old(State()).(cache := old(State()).cache[id := s])
    {
      Insert(id, s);
      assert old(State()).cache - {} == old(State()).cache;
    }

    method GetOrFetch(id: Id) returns (r: Result<Option<S>, Error>)
      requires Valid()
      modifies this`entries
      ensures Valid()
      ensures (State(), r) == ProteusModel.GetOrFetch(lib, old(State()), id, Lru.Evicted(old(entries), id, CAPACITY))
    {
      if Lru.Find(entries, id).Some? {
        r := Ok(Lru.Find(entries, id));
        Lru.TouchAsMap(entries, id, CAPACITY);
        entries := Lru.Touch(entries, id);
        return;
      }
      var row := database.Get(SessionRow(id));
      if row.Err? {
        return Err(Store(row.error));
      }
      if row.value.None? {
        return Ok(None);
      }
      var session := lib.deser(row.value.value.value);
      if session.None? {
        return Err(Library);
      }
      Insert(id, session.value);
      return Ok(session);
    }

    method SessionSaveByRef(id: Id, s: S) returns (r: Result<(), Error>)
      requires Valid()
      modifies database`transaction
      ensures Valid() && (database.State(), r) == SaveSession(lib, old(database.State()), id, s)
    {
      var saved := database.Save(SessionRecord(lib, id, s));
      return if saved.Ok? then Ok(()) else Err(Store(saved.error));
    }

    method Encrypt(id: Id, plaintext: Bytes) returns (r: Result<Bytes, Error>)
      requires Valid()
      modifies this`entries, database`transaction
      ensures Valid()
      ensures (State(), r) ==
              ProteusModel.Encrypt(lib, old(State()), id, plaintext, Lru.Evicted(old(entries), id, CAPACITY))
    {
      var found := GetOrFetch(id);
      if found.Err? {
        return Err(found.error);
      }
      if found.value.None? {
        return Err(NotFound);
      }
      var (session, out) := lib.encrypt(found.value.value, plaintext);
      Update(id, session);
      if out.None? {
        return Err(Library);
      }
      var saved := SessionSaveByRef(id, session);
      return if saved.Ok? then Ok(out.value) else Err(saved.error);
    }

    method Decrypt(id: Id, ciphertext: Bytes) returns (r: Result<Bytes, Error>)
      requires Valid()
      modifies this`entries, this`prekeys, database`transaction
      ensures Valid()
      ensures (State(), r) ==
              ProteusModel.Decrypt(lib, old(State()), id, ciphertext, Lru.Evicted(old(entries), id, CAPACITY))
    {
      var found := GetOrFetch(id);
      if found.Err? {
        return Err(found.error);
      }
      if found.value.None? {
        return Err(NotFound);
      }
      var (session, keys, out) := lib.decrypt(found.value.value, prekeys, ciphertext);
      prekeys := keys;
      Update(id, session);
      if out.None? {
        return Err(Library);
      }
      var saved := SessionSaveByRef(id, session);
      return if saved.Ok? then Ok(out.value) else Err(saved.error);
    }

    /** `evicts` reports what the cache threw out for each session of the list. */
    method EncryptBatched(
      ids: seq<Id>, plaintext: Bytes
    ) returns (r: Result<map<Id, Bytes>, Error>, ghost evicts: seq<set<Id>>)
      requires Valid()
      modifies this`entries, database`transaction
      ensures Valid() && |evicts| == |ids|
      ensures (State(), r) == ProteusModel.EncryptBatched(lib, old(State()), ids, plaintext, evicts, map[])
    {
      var acc: map<Id, Bytes> := map[];
      evicts := [];
      for i := 0 to |ids|
        invariant Valid() && |evicts| == i
        invariant (State(), Ok(acc)) ==
                  ProteusModel.EncryptBatched(lib, old(State()), ids[..i], plaintext, evicts, map[])
      {
        ghost var evict := Lru.Evicted(entries, ids[i], CAPACITY);
        BatchNext(lib, old(State()), ids, i, plaintext, evicts, evict, State(), acc);
        var out := Encrypt(ids[i], plaintext);
        evicts := evicts + [evict];
        if out.Err? && out != Err(NotFound) {
          return Err(out.error), evicts + NoEvictions(|ids| - i - 1);
        }
        acc := if out.Ok? then acc[ids[i] := out.value] else acc;
      }
      assert ids[..|ids|] == ids;
      return Ok(acc), evicts;
    }

    method SessionFromPrekey(id: Id, bundle: Bytes, random: nat) returns (r: Result<Bytes, Error>)
      requires Valid()
      modifies this`entries, database`transaction
      ensures Valid()
      ensures (State(), r) == FromPrekey(lib, old(State()), id, bundle, random, Lru.Evicted(old(entries), id, CAPACITY))
    {
      var session := lib.fromPrekey(bundle, random);
      if session.None? {
        return Err(Library);
      }
      Insert(id, session.value);
      assert State().cache == State().cache[id := session.value];
      var saved := SessionSaveByRef(id, session.value);
      return if saved.Ok? then Ok([]) else Err(saved.error);
    }

    method SessionFromMessage(id: Id, envelope: Bytes) returns (r: Result<Bytes, Error>)
      requires Valid()
      modifies this`entries, this`prekeys, database`transaction
      ensures Valid()
      ensures (State(), r) == FromMessage(lib, old(State()), id, envelope, Lru.Evicted(old(entries), id, CAPACITY))
    {
      var (keys, made) := lib.fromMessage(envelope, prekeys);
      prekeys := keys;
      if made.None? {
        return Err(Library);
      }
      Insert(id, made.value.0);
      assert State().cache == State().cache[id := made.value.0];
      var saved := SessionSaveByRef(id, made.value.0);
      return if saved.Ok? then Ok(made.value.1) else Err(saved.error);
    }

    method SessionSave(id: Id) returns (r: Result<Bytes, Error>)
      requires Valid()
      modifies this`entries, database`transaction
      ensures Valid()
      ensures (State(), r) == ProteusModel.Save(lib, old(State()), id, Lru.Evicted(old(entries), id, CAPACITY))
    {
      var found := GetOrFetch(id);
      if found.Err? {
        return Err(found.error);
      }
      if found.value.Some? {
        var saved := SessionSaveByRef(id, found.value.value);
        if saved.Err? {
          return Err(saved.error);
        }
      }
      return Ok([]);
    }

    method SessionDelete(id: Id) returns (r: Result<Bytes, Error>)
      requires Valid()
      modifies this`entries, database`transaction
      ensures Valid() && (State(), r) == Delete(lib, old(State()), id)
    {
      var removed := database.Remove(SessionRow(id));
      if removed.Ok? {
        Lru.WithoutAsMap(entries, id, CAPACITY);
        entries := Lru.Without(entries, id);
      }
      return Ok([]);
    }

    method SessionExists(id: Id) returns (r: bool)
      requires Valid()
      modifies this`entries
      ensures Valid()
      ensures (State(), if r then Ok([1]) else Ok([0])) ==
              Exists(lib, old(State()), id, Lru.Evicted(old(entries), id, CAPACITY))
    {
      var found := GetOrFetch(id);
      return found.Ok? && found.value.Some?;
    }
  }
}
