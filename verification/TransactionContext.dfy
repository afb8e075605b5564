/** The objects behind `ContextModel`: conversation cache, shared core, and transaction context. */
module TransactionContext {
  import opened Base
  import opened ContextModel
  import K = Keystore
  import D = Database
  import Lru

  /** A live conversation; every holder of the reference sees a change to its group. */
  class Conversation {
    const id: ConvId
    var group: Group
    var changed: bool

    ghost function Object(): (o: Object)
      reads this
    {
      ContextModel.Object(group, changed)
    }

    constructor (g: Group)
      ensures Object() == ContextModel.Object(g, false) && id == g.id
    {
      id, group, changed := g.id, g, false;
    }
  }

  class ConversationCache {
    var entries: seq<(ConvId, Conversation)>

    ghost predicate Valid()
      reads this
    {
      Lru.Wf(entries, CAPACITY)
    }

    constructor ()
      ensures Valid() && entries == []
    {
      entries := [];
    }

    method Get(id: ConvId) returns (r: Option<Conversation>)
      requires Valid()
      modifies this
      ensures Valid() && r == Lru.Find(old(entries), id) && entries == Lru.Touch(old(entries), id)
    {
      r := Lru.Find(entries, id);
      Lru.TouchFinds(entries, id, CAPACITY, id);
      if r.Some? {
        entries := [(id, r.value)] + Lru.Without(entries, id);
      }
    }

    /** Does not change the order. */
    method Exists(id: ConvId, database: D.Database) returns (r: Result<bool, Error>)
      requires Valid() && database.Valid()
      ensures Lru.Find(entries, id).Some? ==> r == Ok(true)
      ensures Lru.Find(entries, id).None? ==>
                match K.Get(database.State(), GroupRow(id))
                case Ok(row) => r == Ok(row.Some?)
                case Err(e) => r == Err(Store(e))
    {
      if Lru.Find(entries, id).Some? {
        return Ok(true);
      }
      var row := database.Get(GroupRow(id));
      return if row.Ok? then Ok(row.value.Some?) else Err(Store(row.error));
    }

    method Insert(g: Group) returns (r: Conversation)
      requires Valid()
      modifies this
      ensures Valid() && fresh(r) && r.Object() == Object(g, false) && r.id == g.id
      ensures entries == Lru.Insert(old(entries), g.id, r, CAPACITY)
      ensures Lru.Find(entries, g.id) == Some(r)
    {
      r := new Conversation(g);
      Lru.InsertFinds(entries, g.id, r, CAPACITY, g.id);
      entries := Lru.Insert(entries, g.id, r, CAPACITY);
    }

    method Remove(id: ConvId) returns (r: Option<Conversation>)
      requires Valid()
      modifies this
      ensures Valid() && r == Lru.Find(old(entries), id) && entries == Lru.Without(old(entries), id)
      ensures Lru.Find(entries, id).None?
    {
      r := Lru.Find(entries, id);
      Lru.WithoutWf(entries, id, CAPACITY);
      Lru.FindWithout(entries, id, id);
      entries := Lru.Without(entries, id);
    }

    method Clear()
      modifies this
      ensures Valid() && entries == []
    {
      entries := [];
    }

    /**
      A hit is handed out as it is. A miss is loaded; an inactive group is dropped from the
      store and reported as missing, any other is cached under its own id.
     */
    method GetOrFetch(codec: Codec, id: ConvId, database: D.Database) returns (r: Result<Option<Conversation>, Error>)
      requires Valid() && database.Valid()
      modifies this, database
      ensures Valid() && database.Valid()
      ensures Lru.Find(old(entries), id).Some? ==>
                && r == Ok(Lru.Find(old(entries), id)) && entries == Lru.Touch(old(entries), id)
                && database.State() == old(database.State())
      ensures Lru.Find(old(entries), id).None? ==>
                match Load(codec, old(database.State()), id)
                case Err(e) => r == Err(e) && entries == old(entries) && database.State() == old(database.State())
                case Ok(None) => r == Ok(None) && entries == old(entries) && database.State() == old(database.State())
                case Ok(Some(g)) =>
                  if g.active then
                    && r.Ok? && r.value.Some? && fresh(r.value.value) && r.value.value.Object() == Object(g, false)
                    && entries == Lru.Insert(old(entries), g.id, r.value.value, CAPACITY)
                    && database.State() == old(database.State())
                  else
                    && entries == old(entries) && database.State() == K.Remove(old(database.State()), GroupRow(id)).0
                    && r == (if old(database.State()).tx.Some? then Ok(None)
                             else Err(Store(K.MutatingOperationWithoutTransaction)))
    {
      if Lru.Find(entries, id).Some? {
        var hit := Get(id);
        return Ok(hit);
      }
      var row := database.Get(GroupRow(id));
      if row.Err? {
        return Err(Store(row.error));
      }
      if row.value.None? {
        return Ok(None);
      }
      var decoded := codec.deser(row.value.value.value);
      if decoded.None? {
        return Err(Undecodable);
      }
      if !decoded.value.active {
        var removed := database.Remove(GroupRow(id));
        return if removed.Err? then Err(Store(removed.error)) else Ok(None);
      }
      var handle := Insert(decoded.value);
      return Ok(Some(handle));
    }
  }

  class CoreCrypto {
    const database: D.Database
    const conversations: ConversationCache
    var session: bool
    var delivered: seq<Event>

    ghost predicate Valid()
      reads this, database, conversations
    {
      database.Valid() && conversations.Valid()
    }

    ghost function Shared(): (s: Shared<Conversation>)
      reads this, database, conversations
    {
      ContextModel.Shared(database.State(), session, conversations.entries, delivered)
    }

    constructor (database: D.Database)
      requires database.Valid()
      ensures Valid() && this.database == database && fresh(conversations)
      ensures Shared() == ContextModel.Shared(database.State(), false, [], [])
    {
      this.database := database;
      conversations := new ConversationCache();
      session, delivered := false, [];
    }

    method NotifyEpochChanged(e: Event)
      modifies this`delivered
      ensures delivered == old(delivered) + [e]
    {
      delivered := delivered + [e];
    }
  }

  class TransactionContext {
    const core: CoreCrypto
    var inner: Inner

    /** Completes once the permit is free. */
    constructor New(core: CoreCrypto)
      requires core.Valid() && core.database.permits > 0
      modifies core.database
      ensures this.core == core && core.Valid() && inner == Inner.Valid([])
      ensures core.Shared() == old(core.Shared()).(db := K.Begin(old(core.database.State())).0)
    {
      this.core := core;
      inner := Inner.Valid([]);
      new;
      core.database.NewTransaction();
    }

    method QueueEpochChanged(e: Event) returns (r: Result<(), Error>)
      modifies this
      ensures (inner, r) == QueueEpoch(old(inner), e)
    {
      if inner.Invalid? {
        return Err(InvalidTransactionContext);
      }
      inner := Inner.Valid(inner.queue + [e]);
      return Ok(());
    }

    method Finish(io: bool) returns (r: Result<(), Error>)
      requires core.Valid()
      modifies this, core, core.database, core.conversations
      ensures core.Valid() && (core.Shared(), inner, r) == ContextModel.Finish(old(core.Shared()), old(inner), io)
    {
      if inner.Invalid? {
        return Err(InvalidTransactionContext);
      }
      var committed := core.database.CommitTransaction(io);
      if core.session {
        if committed.Ok? {
          var todo := inner.queue;
          while todo != []
            invariant core.delivered + todo == old(core.delivered) + old(inner).queue
            invariant core.database.State() == K.Commit(old(core.database.State()), io).0 && core.Valid()
            invariant core.session == old(core.session) && core.conversations.entries == old(core.conversations.entries)
            decreases |todo|
          {
            core.NotifyEpochChanged(todo[0]);
            todo := todo[1..];
          }
          assert core.delivered + todo == core.delivered;
        } else {
          core.conversations.Clear();
        }
      }
      inner := Inner.Invalid;
      return if committed.Ok? then Ok(()) else Err(Store(committed.error));
    }

    method Abort() returns (r: Result<(), Error>)
      requires core.Valid()
      modifies this, core.database, core.conversations
      ensures core.Valid() && (core.Shared(), inner, r) == ContextModel.Abort(old(core.Shared()), old(inner))
    {
      if inner.Invalid? {
        return Err(InvalidTransactionContext);
      }
      if core.session {
        core.conversations.Clear();
      }
      var rolledBack := core.database.RollbackTransaction();
      inner := Inner.Invalid;
      return if rolledBack.Ok? then Ok(()) else Err(Store(rolledBack.error));
    }

    /**
      Runs an operation on the group behind a handle. The operation leaves `after` in memory in any case. It is
      written to the store if the operation succeeded and the group is marked as changed, by this operation or
      by an earlier one that failed.
     */
    method MutateGroup(codec: Codec, handle: Conversation, after: Group, succeeds: bool) returns (r: Result<(), Error>)
      requires core.Valid() && after.id == handle.id == handle.group.id
      modifies handle, core.database
      ensures core.Valid()
      ensures inner.Invalid? ==>
                && r == Err(InvalidTransactionContext)
                && handle.Object() == old(handle.Object()) && core.Shared() == old(core.Shared())
      ensures inner.Valid? ==>
                var marked := Marked(old(handle.Object()), after);
                var (db, saved) := K.Save(old(core.database.State()), GroupRecord(codec, after));
                if succeeds && marked
                then && core.Shared() == old(core.Shared()).(db := db) && (r.Ok? <==> saved.Ok?)
                     && handle.Object() == Object(after, saved.Err?)
                else && core.Shared() == old(core.Shared()) && (r.Ok? <==> succeeds)
                     && handle.Object() == Object(after, marked)
    {
      if inner.Invalid? {
        return Err(InvalidTransactionContext);
      }
      handle.changed := handle.changed || after != handle.group;
      handle.group := after;
      if !succeeds {
        return Err(OperationFailed);
      }
      if handle.changed {
        var saved := core.database.Save(GroupRecord(codec, after));
        if saved.Err? {
          return Err(Store(saved.error));
        }
        handle.changed := false;
      }
      return Ok(());
    }
  }
}
