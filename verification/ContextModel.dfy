/**
  Transaction contexts and the conversation cache, as a state machine over values.

  A context is a handle shared by all its clones, so a context id stands for all of them. The
  cache maps a conversation id to a handle; the group behind the handle is mutated in place and
  written through to the open transaction. Calls here run one after the other; `Permits.dfy` and
  `Notifications.dfy` interleave them. `TransactionContext.dfy` holds the objects.
 */
module ContextModel {
  import opened Base
  import K = Keystore
  import Lru

  type ConvId = Bytes

  type Event = (ConvId, nat)

  datatype Group = Group(id: ConvId, state: Bytes, active: bool)

  datatype Codec = Codec(ser: Group -> Bytes, deser: Bytes -> Option<Group>)

  datatype Error =
    | InvalidTransactionContext
    | MlsNotInitialized
    | Store(error: K.Error)
    | Undecodable
    | OperationFailed
    | Blocked

  const CAPACITY: nat := 200

  ghost predicate Inverse(codec: Codec) {
    forall g: Group :: codec.deser(codec.ser(g)) == Some(g)
  }

  function GroupRow(conv: ConvId): (id: K.EntityId) {
    K.EntityId(K.PersistedMlsGroup, conv)
  }

  function GroupRecord(codec: Codec, g: Group): (r: K.Record) {
    K.Record(GroupRow(g.id), codec.ser(g))
  }

  /** Reading a conversation from the keystore. */
  function Load(codec: Codec, db: K.Db, conv: ConvId): (r: Result<Option<Group>, Error>) {
    match K.Get(db, GroupRow(conv))
    case Err(e) => Err(Store(e))
    case Ok(None) => Ok(None)
    case Ok(Some(rec)) =>
      if codec.deser(rec.value).None? then Err(Undecodable) else Ok(codec.deser(rec.value))
  }

  // ----- What contexts share: database, cache, observer -----

  /** `H` is what the cache hands out. */
  datatype Shared<H> = Shared(db: K.Db, session: bool, cache: seq<(ConvId, H)>, delivered: seq<Event>)

  datatype Inner = Valid(queue: seq<Event>) | Invalid

  function QueueEpoch(inner: Inner, e: Event): (r: (Inner, Result<(), Error>)) {
    match inner
    case Valid(q) => (Valid(q + [e]), Ok(()))
    case Invalid => (inner, Err(InvalidTransactionContext))
  }

  /** Commit; announce the queued epochs, or forget every cached conversation if the commit failed. */
  function Finish<H>(s: Shared<H>, inner: Inner, io: bool): (r: (Shared<H>, Inner, Result<(), Error>)) {
    match inner
    case Invalid => (s, inner, Err(InvalidTransactionContext))
    case Valid(q) =>
      var (db, outcome) := K.Commit(s.db, io);
      var t := s.(db := db);
      match outcome
      case Ok(_) => (if s.session then t.(delivered := s.delivered + q) else t, Invalid, Ok(()))
      case Err(e) => (if s.session then t.(cache := []) else t, Invalid, Err(Store(e)))
  }

  /** Forget every cached conversation and roll back. */
  function Abort<H>(s: Shared<H>, inner: Inner): (r: (Shared<H>, Inner, Result<(), Error>)) {
    match inner
    case Invalid => (s, inner, Err(InvalidTransactionContext))
    case Valid(_) =>
      var (db, outcome) := K.Rollback(s.db);
      var t := s.(db := db, cache := if s.session then [] else s.cache);
      (t, Invalid, if outcome.Ok? then Ok(()) else Err(Store(outcome.error)))
  }

  // ----- Handles -----

  type Handle = nat

  /** A live group, and whether it was changed since it was last persisted. */
  datatype Object = Object(group: Group, changed: bool)

  datatype Core = Core(shared: Shared<Handle>, heap: map<Handle, Object>, next: Handle, contexts: map<nat, Inner>)

  function Cached(core: Core, conv: ConvId): (r: Option<Handle>) {
    Lru.Find(core.shared.cache, conv)
  }

  /** Conversation operations touch neither contexts nor observers. */
  predicate Frame(before: Core, after: Core) {
    && after.contexts == before.contexts
    && after.shared.delivered == before.shared.delivered
    && after.shared.session == before.shared.session
  }

  function WithDb(core: Core, db: K.Db): (r: Core) {
    core.(shared := core.shared.(db := db))
  }

  /** `ConversationCache::get_or_fetch`. */
  function Fetch(codec: Codec, core: Core, conv: ConvId): (r: (Core, Result<Option<Handle>, Error>))
    ensures Frame(core, r.0)
  {
    if Cached(core, conv).Some? then
      (core.(shared := core.shared.(cache := Lru.Touch(core.shared.cache, conv))), Ok(Cached(core, conv)))
    else
      match Load(codec, core.shared.db, conv)
      case Err(e) => (core, Err(e))
      case Ok(None) => (core, Ok(None))
      case Ok(Some(g)) =>
        if !g.active then
          var (db, outcome) := K.Remove(core.shared.db, GroupRow(conv));
          if outcome.Err? then (core, Err(Store(outcome.error))) else (WithDb(core, db), Ok(None))
        else
          Place(core, g)
  }

  /** Puts a new conversation object into the cache. */
  function Place(core: Core, g: Group): (r: (Core, Result<Option<Handle>, Error>))
    ensures Frame(core, r.0)
  {
    var h := core.next;
    var cache := Lru.Insert(core.shared.cache, g.id, h, CAPACITY);
    (core.(shared := core.shared.(cache := cache), heap := core.heap[h := Object(g, false)], next := h + 1),
     Ok(Some(h)))
  }

  /** The mark stays when an operation fails, so that the next one to succeed persists its change too. */
  function Marked(o: Object, after: Group): (b: bool) {
    o.changed || after != o.group
  }

  /** `ConversationMut::mutate_group`: the operation leaves `after` behind; only if it succeeds is that persisted. */
  function Mutate(codec: Codec, core: Core, h: Handle, after: Group, succeeds: bool): (r: (Core, Result<(), Error>))
    requires h in core.heap && after.id == core.heap[h].group.id
    ensures Frame(core, r.0)
  {
    var marked := Marked(core.heap[h], after);
    var touched := core.(heap := core.heap[h := Object(after, marked)]);
    if !succeeds then (touched, Err(OperationFailed))
    else if !marked then (touched, Ok(()))
    else
      var (db, outcome) := K.Save(core.shared.db, GroupRecord(codec, after));
      if outcome.Err? then (touched, Err(Store(outcome.error)))
      else (WithDb(core.(heap := core.heap[h := Object(after, false)]), db), Ok(()))
  }

  // ----- Coherence -----

  ghost predicate SomeValid(contexts: map<nat, Inner>) {
    exists c :: c in contexts && contexts[c].Valid?
  }

  ghost predicate AtMostOneValid(contexts: map<nat, Inner>) {
    forall a, b :: a in contexts && contexts[a].Valid? && b in contexts && contexts[b].Valid? ==> a == b
  }

  ghost predicate Inv(codec: Codec, core: Core) {
    && K.Valid(core.shared.db) && core.shared.db.conn.Some?
    && core.shared.session
    && (SomeValid(core.contexts) ==> core.shared.db.tx.Some?)
    && AtMostOneValid(core.contexts)
    && Lru.Wf(core.shared.cache, CAPACITY)
    && (forall h :: h in core.heap ==> h < core.next)
    && (forall c :: Cached(core, c).Some? ==>
          Cached(core, c).value in core.heap && core.heap[Cached(core, c).value].group.id == c)
    && StoreWellFormed(codec, core.shared.db)
  }

  /** A stored group lies under its own id. */
  ghost predicate RowsWellFormed(codec: Codec, rows: K.Rows) {
    forall c :: GroupRow(c) in rows && codec.deser(rows[GroupRow(c)].value).Some? ==>
      codec.deser(rows[GroupRow(c)].value).value.id == c
  }

  ghost predicate StoreWellFormed(codec: Codec, db: K.Db) {
    && (db.conn.Some? ==> RowsWellFormed(codec, db.conn.value))
    && (db.tx.Some? ==> RowsWellFormed(codec, db.tx.value.cache))
  }

  lemma LoadedHasOwnId(codec: Codec, db: K.Db, conv: ConvId)
    requires StoreWellFormed(codec, db)
    ensures Load(codec, db, conv).Ok? && Load(codec, db, conv).value.Some? ==>
            Load(codec, db, conv).value.value.id == conv
  {
  }

  /** Every cached conversation is what a load from the visible rows gives. */
  ghost predicate Coherent(codec: Codec, core: Core) {
    forall c :: Cached(core, c).Some? ==>
      && Cached(core, c).value in core.heap
      && Load(codec, core.shared.db, c) == Ok(Some(core.heap[Cached(core, c).value].group))
  }

  ghost predicate CoherentExcept(codec: Codec, core: Core, conv: ConvId) {
    forall c :: Cached(core, c).Some? && c != conv ==>
      && Cached(core, c).value in core.heap
      && Load(codec, core.shared.db, c) == Ok(Some(core.heap[Cached(core, c).value].group))
  }

  lemma LoadAfterSave(codec: Codec, db: K.Db, g: Group, conv: ConvId)
    requires Inverse(codec) && db.tx.Some?
    ensures var after := K.Save(db, GroupRecord(codec, g)).0;
            && Load(codec, after, conv) == (if conv == g.id then Ok(Some(g)) else Load(codec, db, conv))
            && (StoreWellFormed(codec, db) ==> StoreWellFormed(codec, after))
  {
  }

  lemma LoadAfterRemove(codec: Codec, db: K.Db, id: K.EntityId, conv: ConvId)
    requires db.tx.Some?
    ensures Load(codec, K.Remove(db, id).0, conv) == if id == GroupRow(conv) then Ok(None) else Load(codec, db, conv)
    ensures StoreWellFormed(codec, db) ==> StoreWellFormed(codec, K.Remove(db, id).0)
  {
  }

  /** A successful commit does not change what is loaded. */
  lemma LoadAfterCommit(codec: Codec, db: K.Db, io: bool, conv: ConvId)
    requires K.Valid(db) && db.conn.Some?
    ensures Load(codec, K.Commit(db, io).0, conv) == Load(codec, db, conv)
    ensures StoreWellFormed(codec, db) ==> StoreWellFormed(codec, K.Commit(db, io).0)
  {
  }

  lemma PlaceKeeps(codec: Codec, core: Core, g: Group)
    requires Inv(codec, core) && CoherentExcept(codec, core, g.id) && Load(codec, core.shared.db, g.id) == Ok(Some(g))
    ensures var (after, r) := Place(core, g);
            && Inv(codec, after) && Coherent(codec, after)
            && Cached(after, g.id) == Some(r.value.value) && after.heap[r.value.value] == Object(g, false)
            && (forall c :: Cached(after, c).Some? && c != g.id ==> Cached(after, c) == Cached(core, c))
  {
    var (after, r) := Place(core, g);
    Lru.InsertFinds(core.shared.cache, g.id, core.next, CAPACITY, g.id);
    forall c ensures Cached(after, c).Some? && c != g.id ==> Cached(after, c) == Cached(core, c) {
      Lru.InsertFinds(core.shared.cache, g.id, core.next, CAPACITY, c);
    }
  }

  /** A lookup, hit or miss, with or without eviction, keeps the cache coherent. */
  lemma FetchKeeps(codec: Codec, core: Core, conv: ConvId)
    requires Inv(codec, core) && Coherent(codec, core)
    ensures var (after, r) := Fetch(codec, core, conv);
            && Inv(codec, after) && Coherent(codec, after)
            && after.contexts == core.contexts && after.shared.delivered == core.shared.delivered
            && (r.Ok? && r.value.Some? ==> Cached(after, conv) == r.value)
            && (forall c :: Cached(after, c).Some? && c != conv ==> Cached(after, c) == Cached(core, c))
            && (forall h :: h in core.heap ==> h in after.heap && after.heap[h] == core.heap[h])
  {
    if Cached(core, conv).Some? {
      var after := Fetch(codec, core, conv).0;
      forall c ensures Cached(after, c) == Cached(core, c) && Lru.Wf(after.shared.cache, CAPACITY) {
        Lru.TouchFinds(core.shared.cache, conv, CAPACITY, c);
      }
    } else {
      LoadedHasOwnId(codec, core.shared.db, conv);
      match Load(codec, core.shared.db, conv)
      case Err(_) =>
      case Ok(None) =>
      case Ok(Some(g)) =>
        if g.active {
          PlaceKeeps(codec, core, g);
        } else if core.shared.db.tx.Some? {
          assert forall c :: Cached(Fetch(codec, core, conv).0, c) == Cached(core, c);
          forall c ensures Load(codec, K.Remove(core.shared.db, GroupRow(conv)).0, c) ==
                           if GroupRow(conv) == GroupRow(c) then Ok(None) else Load(codec, core.shared.db, c)
          {
            LoadAfterRemove(codec, core.shared.db, GroupRow(conv), c);
          }
        }
    }
  }

  /** What loads give after a mutation through a handle. */
  lemma LoadAfterMutate(codec: Codec, core: Core, h: Handle, after: Group, succeeds: bool, conv: ConvId)
    requires Inverse(codec) && core.shared.db.tx.Some? && h in core.heap && after.id == core.heap[h].group.id
    ensures var saves := succeeds && Marked(core.heap[h], after);
            Load(codec, Mutate(codec, core, h, after, succeeds).0.shared.db, conv) ==
            if saves && conv == after.id then Ok(Some(after)) else Load(codec, core.shared.db, conv)
    ensures StoreWellFormed(codec, core.shared.db) ==>
              StoreWellFormed(codec, Mutate(codec, core, h, after, succeeds).0.shared.db)
  {
    LoadAfterSave(codec, core.shared.db, after, conv);
  }

  /**
    Mutating through a handle keeps the cache coherent exactly when, if the group is persisted, the cache
    holds no other object for that conversation with a different group, and, if the operation fails, the
    handle is not the cached one or the group was left alone.
   */
  lemma MutateCoherentIff(codec: Codec, core: Core, h: Handle, after: Group, succeeds: bool)
    requires Inverse(codec) && Inv(codec, core) && Coherent(codec, core) && core.shared.db.tx.Some?
    requires h in core.heap && after.id == core.heap[h].group.id
    ensures var cached := Cached(core, after.id);
            Coherent(codec, Mutate(codec, core, h, after, succeeds).0) <==>
            if succeeds
            then Marked(core.heap[h], after) && cached.Some? && cached.value != h ==>
                   core.heap[cached.value].group == after
            else cached != Some(h) || after == core.heap[h].group
  {
    var done := Mutate(codec, core, h, after, succeeds).0;
    assert forall c :: Cached(done, c) == Cached(core, c);
    forall c ensures Load(codec, done.shared.db, c) ==
                     if succeeds && Marked(core.heap[h], after) && c == after.id then Ok(Some(after))
                     else Load(codec, core.shared.db, c)
    {
      LoadAfterMutate(codec, core, h, after, succeeds, c);
    }
    if Cached(core, after.id).Some? {
      var other := Cached(core, after.id).value;
      assert Cached(done, after.id) == Some(other);
      assert Load(codec, core.shared.db, after.id) == Ok(Some(core.heap[other].group));
    }
  }

  lemma MutateKeepsInv(codec: Codec, core: Core, h: Handle, after: Group, succeeds: bool)
    requires Inverse(codec) && Inv(codec, core) && core.shared.db.tx.Some?
    requires h in core.heap && after.id == core.heap[h].group.id
    ensures var (done, r) := Mutate(codec, core, h, after, succeeds);
            && Inv(codec, done) && (r.Ok? <==> succeeds)
            && done.contexts == core.contexts && done.shared.delivered == core.shared.delivered
            && done.shared.cache == core.shared.cache
            && done.heap == core.heap[h := Object(after, !succeeds && Marked(core.heap[h], after))]
  {
    var done := Mutate(codec, core, h, after, succeeds).0;
    LoadAfterMutate(codec, core, h, after, succeeds, after.id);
    assert forall c :: Cached(done, c) == Cached(core, c);
  }

  /**
    A handle that outlives its cache entry: once the conversation has been evicted and fetched
    again, a change made through the old handle leaves the cached object stale.
   */
  lemma HeldHandleGoesStale(codec: Codec, core: Core, h: Handle, g: Group, after: Group)
    requires Inverse(codec) && Inv(codec, core) && Coherent(codec, core) && core.shared.db.tx.Some?
    requires h in core.heap && core.heap[h].group == g && g.active && Load(codec, core.shared.db, g.id) == Ok(Some(g))
    requires Cached(core, g.id).None?
    requires after.id == g.id && after != g
    ensures var fetched := Fetch(codec, core, g.id).0;
            Coherent(codec, fetched) && !Coherent(codec, Mutate(codec, fetched, h, after, true).0)
  {
    FetchKeeps(codec, core, g.id);
    PlaceKeeps(codec, core, g);
    MutateCoherentIff(codec, Fetch(codec, core, g.id).0, h, after, true);
  }

  // ----- Operations of a caller -----

  datatype Op =
    | New(ctx: nat)
    // look a conversation up and run an operation on it, which changes it and then succeeds or fails
    | Visit(ctx: nat, conv: ConvId, edit: Group -> Group, succeeds: bool)
    // the same through a handle that is already held
    | Use(ctx: nat, conv: ConvId, handle: Handle, edit: Group -> Group, succeeds: bool)
    | Create(ctx: nat, group: Group)
    | Wipe(ctx: nat, conv: ConvId)
    | SaveRow(ctx: nat, rec: K.Record)
    | RemoveRow(ctx: nat, id: K.EntityId)
    | ReadRow(id: K.EntityId)
    | Queue(ctx: nat, event: Event)
    | End(ctx: nat, io: bool)
    | Drop(ctx: nat)

  datatype Out =
    | Conversation(found: Result<Option<Group>, Error>)
    | Row(row: Result<Option<K.Record>, K.Error>)
    | Unit(result: Result<(), Error>)

  function InnerOf(contexts: map<nat, Inner>, ctx: nat): (r: Inner) {
    if ctx in contexts then contexts[ctx] else Invalid
  }

  function StoreOutcome(r: Result<(), K.Error>): (o: Out) {
    Unit(if r.Ok? then Ok(()) else Err(Store(r.error)))
  }

  function UseStep(codec: Codec, core: Core, h: Handle, edit: Group -> Group, succeeds: bool): (r: (Core, Out))
    ensures Frame(core, r.0)
  {
    if h in core.heap && edit(core.heap[h].group).id == core.heap[h].group.id then
      var g := core.heap[h].group;
      var (after, r) := Mutate(codec, core, h, edit(g), succeeds);
      (after, if r.Ok? then Conversation(Ok(Some(g))) else Unit(Err(r.error)))
    else (core, Unit(Err(OperationFailed)))
  }

  function VisitStep(codec: Codec, core: Core, conv: ConvId, edit: Group -> Group, succeeds: bool): (r: (Core, Out))
    ensures Frame(core, r.0)
  {
    var (fetched, found) := Fetch(codec, core, conv);
    if found.Err? then (fetched, Conversation(Err(found.error)))
    else if found.value.None? then (fetched, Conversation(Ok(None)))
    else UseStep(codec, fetched, found.value.value, edit, succeeds)
  }

  function WipeStep(codec: Codec, core: Core, conv: ConvId): (r: (Core, Out))
    ensures Frame(core, r.0)
  {
    var (fetched, found) := Fetch(codec, core, conv);
    if found.Err? then (fetched, Conversation(Err(found.error)))
    else if found.value.None? then (fetched, Conversation(Ok(None)))
    else
      var (db, outcome) := K.Remove(fetched.shared.db, GroupRow(conv));
      var s := fetched.shared.(db := db, cache := Lru.Without(fetched.shared.cache, conv));
      (if outcome.Ok? then fetched.(shared := s) else fetched, StoreOutcome(outcome))
  }

  function CreateStep(codec: Codec, core: Core, g: Group): (r: (Core, Out))
    ensures Frame(core, r.0)
  {
    var (db, outcome) := K.Save(core.shared.db, GroupRecord(codec, g));
    (if outcome.Ok? then Place(WithDb(core, db), g).0 else core, StoreOutcome(outcome))
  }

  function Step(codec: Codec, core: Core, op: Op): (r: (Core, Out)) {
    if op.ReadRow? then (core, Row(K.Get(core.shared.db, op.id)))
    else if op.New? then
      if op.ctx in core.contexts || core.shared.db.tx.Some? then (core, Unit(Err(Blocked)))
      else (WithDb(core, K.Begin(core.shared.db).0).(contexts := core.contexts[op.ctx := Valid([])]), Unit(Ok(())))
    else
      var inner := InnerOf(core.contexts, op.ctx);
      if inner.Invalid? then (core, Unit(Err(InvalidTransactionContext)))
      else
        match op
        case Visit(_, conv, edit, succeeds) => VisitStep(codec, core, conv, edit, succeeds)
        case Use(_, _, h, edit, succeeds) => UseStep(codec, core, h, edit, succeeds)
        case Create(_, g) => CreateStep(codec, core, g)
        case Wipe(_, conv) => WipeStep(codec, core, conv)
        case SaveRow(_, rec) => var (db, o) := K.Save(core.shared.db, rec); (WithDb(core, db), StoreOutcome(o))
        case RemoveRow(_, id) => var (db, o) := K.Remove(core.shared.db, id); (WithDb(core, db), StoreOutcome(o))
        case Queue(ctx, e) =>
          var (i, o) := QueueEpoch(inner, e); (core.(contexts := core.contexts[ctx := i]), Unit(o))
        case End(ctx, io) =>
          var (s, i, o) := Finish(core.shared, inner, io);
          (core.(shared := s, contexts := core.contexts[ctx := i]), Unit(o))
        case Drop(ctx) =>
          var (s, i, o) := Abort(core.shared, inner);
          (core.(shared := s, contexts := core.contexts[ctx := i]), Unit(o))
  }

  function Run(codec: Codec, core: Core, ops: seq<Op>): (r: (Core, seq<Out>))
    ensures |r.1| == |ops|
  {
    if ops == [] then (core, [])
    else
      var (before, outs) := Run(codec, core, ops[..|ops| - 1]);
      var (after, out) := Step(codec, before, ops[|ops| - 1]);
      (after, outs + [out])
  }

  // ----- The same operations without a cache -----

  datatype Plain = Plain(db: K.Db, delivered: seq<Event>, contexts: map<nat, Inner>)

  function Uncached(core: Core): (p: Plain) {
    Plain(core.shared.db, core.shared.delivered, core.contexts)
  }

  /** Load, dropping an inactive group from the store. */
  function PlainFetch(codec: Codec, db: K.Db, conv: ConvId): (r: (K.Db, Result<Option<Group>, Error>)) {
    match Load(codec, db, conv)
    case Err(e) => (db, Err(e))
    case Ok(None) => (db, Ok(None))
    case Ok(Some(g)) =>
      if g.active then (db, Ok(Some(g)))
      else
        var (after, outcome) := K.Remove(db, GroupRow(conv));
        if outcome.Err? then (db, Err(Store(outcome.error))) else (after, Ok(None))
  }

  /** An operation that changes a group persists the change if it succeeds. */
  function PlainUse(codec: Codec, p: Plain, g: Group, edit: Group -> Group, succeeds: bool): (r: (Plain, Out)) {
    if edit(g).id != g.id || !succeeds then (p, Unit(Err(OperationFailed)))
    else if edit(g) == g then (p, Conversation(Ok(Some(g))))
    else (p.(db := K.Save(p.db, GroupRecord(codec, edit(g))).0), Conversation(Ok(Some(g))))
  }

  function PlainStep(codec: Codec, p: Plain, op: Op): (r: (Plain, Out)) {
    if op.ReadRow? then (p, Row(K.Get(p.db, op.id)))
    else if op.New? then
      if op.ctx in p.contexts || p.db.tx.Some? then (p, Unit(Err(Blocked)))
      else (p.(db := K.Begin(p.db).0, contexts := p.contexts[op.ctx := Valid([])]), Unit(Ok(())))
    else
      var inner := InnerOf(p.contexts, op.ctx);
      if inner.Invalid? then (p, Unit(Err(InvalidTransactionContext)))
      else
        match op
        case Visit(_, conv, edit, succeeds) =>
          var (db, found) := PlainFetch(codec, p.db, conv);
          if found.Ok? && found.value.Some? then PlainUse(codec, p.(db := db), found.value.value, edit, succeeds)
          else (p.(db := db), Conversation(found))
        case Use(_, conv, _, edit, succeeds) =>
          var found := Load(codec, p.db, conv);
          if found.Ok? && found.value.Some? then PlainUse(codec, p, found.value.value, edit, succeeds)
          else (p, Unit(Err(OperationFailed)))
        case Create(_, g) => var (db, o) := K.Save(p.db, GroupRecord(codec, g)); (p.(db := db), StoreOutcome(o))
        case Wipe(_, conv) =>
          var (db, found) := PlainFetch(codec, p.db, conv);
          if found.Ok? && found.value.Some?
          then var (gone, o) := K.Remove(db, GroupRow(conv)); (p.(db := gone), StoreOutcome(o))
          else (p.(db := db), Conversation(found))
        case SaveRow(_, rec) => var (db, o) := K.Save(p.db, rec); (p.(db := db), StoreOutcome(o))
        case RemoveRow(_, id) => var (db, o) := K.Remove(p.db, id); (p.(db := db), StoreOutcome(o))
        case Queue(ctx, e) => (p.(contexts := p.contexts[ctx := Valid(inner.queue + [e])]), Unit(Ok(())))
        case End(ctx, io) =>
          var (db, o) := K.Commit(p.db, io);
          var delivered := if o.Ok? then p.delivered + inner.queue else p.delivered;
          (Plain(db, delivered, p.contexts[ctx := Invalid]), StoreOutcome(o))
        case Drop(ctx) =>
          var (db, o) := K.Rollback(p.db); (p.(db := db, contexts := p.contexts[ctx := Invalid]), StoreOutcome(o))
  }

  function PlainRun(codec: Codec, p: Plain, ops: seq<Op>): (r: (Plain, seq<Out>))
    ensures |r.1| == |ops|
  {
    if ops == [] then (p, [])
    else
      var (before, outs) := PlainRun(codec, p, ops[..|ops| - 1]);
      var (after, out) := PlainStep(codec, before, ops[|ops| - 1]);
      (after, outs + [out])
  }

  // ----- The cache is invisible -----

  /** Cached groups are active and have no change that was not persisted. */
  ghost predicate CachedClean(core: Core) {
    forall c :: Cached(core, c).Some? && Cached(core, c).value in core.heap ==>
      core.heap[Cached(core, c).value].group.active && !core.heap[Cached(core, c).value].changed
  }

  /** The operation keeps groups under their id and active, and leaves them alone if it fails. */
  ghost predicate Tame(edit: Group -> Group, succeeds: bool) {
    forall g: Group :: edit(g).id == g.id && (g.active ==> edit(g).active) && (!succeeds ==> edit(g) == g)
  }

  /** Groups are changed by tame operations on a conversation just looked up, and written no other way. */
  ghost predicate Disciplined(op: Op) {
    match op
    case Visit(_, _, edit, succeeds) => Tame(edit, succeeds)
    case Use(_, _, _, _, _) => false
    case Create(_, g) => g.active
    case SaveRow(_, rec) => !rec.id.typ.PersistedMlsGroup?
    case RemoveRow(_, id) => !id.typ.PersistedMlsGroup?
    case _ => true
  }

  /** The handle is the cached one, or nothing is cached and it still is what a load gives. */
  ghost predicate Current(codec: Codec, core: Core, conv: ConvId, h: Handle) {
    && h in core.heap && core.heap[h].group.id == conv
    && (Cached(core, conv) == Some(h)
        || (&& Cached(core, conv).None? && Load(codec, core.shared.db, conv) == Ok(Some(core.heap[h].group))
            && core.heap[h].group.active && !core.heap[h].changed))
  }

  /** The operation is disciplined, or a tame one through a handle that is current. */
  ghost predicate Allowed(codec: Codec, core: Core, op: Op) {
    Disciplined(op) || (op.Use? && Tame(op.edit, op.succeeds) && Current(codec, core, op.conv, op.handle))
  }

  ghost predicate AllAllowed(codec: Codec, core: Core, ops: seq<Op>) {
    ops == [] ||
    (AllAllowed(codec, core, ops[..|ops| - 1]) && Allowed(codec, Run(codec, core, ops[..|ops| - 1]).0, ops[|ops| - 1]))
  }

  lemma {:induction false} DisciplinedIsAllowed(codec: Codec, core: Core, ops: seq<Op>)
    requires forall op :: op in ops ==> Disciplined(op)
    ensures AllAllowed(codec, core, ops)
  {
    if ops != [] {
      assert forall op :: op in ops[..|ops| - 1] ==> op in ops;
      DisciplinedIsAllowed(codec, core, ops[..|ops| - 1]);
    }
  }

  ghost predicate Good(codec: Codec, core: Core) {
    Inv(codec, core) && Coherent(codec, core) && CachedClean(core)
  }

  /** One operation gives the same output and leaves the same store as it would without a cache. */
  ghost predicate Transparent(codec: Codec, core: Core, op: Op) {
    var (after, out) := Step(codec, core, op);
    Good(codec, after) && (Uncached(after), out) == PlainStep(codec, Uncached(core), op)
  }

  lemma FetchTransparent(codec: Codec, core: Core, conv: ConvId)
    requires Good(codec, core)
    ensures var (after, r) := Fetch(codec, core, conv);
            var (db, found) := PlainFetch(codec, core.shared.db, conv);
            && Good(codec, after) && after.shared.db == db
            && after.contexts == core.contexts && after.shared.delivered == core.shared.delivered
            && (if r.Err? then found == Err(r.error)
                else if r.value.None? then found == Ok(None)
                else && Cached(after, conv) == r.value && r.value.value in after.heap
                     && found == Ok(Some(after.heap[r.value.value].group))
                     && !after.heap[r.value.value].changed && after.heap[r.value.value].group.active)
  {
    FetchKeeps(codec, core, conv);
    var after := Fetch(codec, core, conv).0;
    forall c | Cached(after, c).Some?
      ensures after.heap[Cached(after, c).value].group.active && !after.heap[Cached(after, c).value].changed
    {
      assert Load(codec, after.shared.db, c) == Ok(Some(after.heap[Cached(after, c).value].group));
      if c != conv { assert Cached(after, c) == Cached(core, c); }
    }
  }

  /** A tame operation through a current handle, in the middle of a step. */
  lemma UseKeepsGood(codec: Codec, core: Core, conv: ConvId, h: Handle, edit: Group -> Group, succeeds: bool)
    requires Inverse(codec) && Good(codec, core) && core.shared.db.tx.Some?
    requires Tame(edit, succeeds) && Current(codec, core, conv, h)
    ensures var (after, out) := UseStep(codec, core, h, edit, succeeds);
            && Good(codec, after)
            && (Uncached(after), out) == PlainUse(codec, Uncached(core), core.heap[h].group, edit, succeeds)
            && Load(codec, core.shared.db, conv) == Ok(Some(core.heap[h].group))
  {
    var g := core.heap[h].group;
    var after := Mutate(codec, core, h, edit(g), succeeds).0;
    MutateKeepsInv(codec, core, h, edit(g), succeeds);
    MutateCoherentIff(codec, core, h, edit(g), succeeds);
    forall c | Cached(after, c).Some?
      ensures after.heap[Cached(after, c).value].group.active && !after.heap[Cached(after, c).value].changed
    {
      assert Cached(core, c) == Cached(after, c);
    }
  }

  lemma VisitTransparent(codec: Codec, core: Core, op: Op)
    requires Inverse(codec) && Good(codec, core) && Disciplined(op) && op.Visit?
    ensures Transparent(codec, core, op)
  {
    if InnerOf(core.contexts, op.ctx).Valid? {
      assert SomeValid(core.contexts);
      FetchTransparent(codec, core, op.conv);
      var (fetched, found) := Fetch(codec, core, op.conv);
      if found.Ok? && found.value.Some? {
        assert fetched.shared.db.tx.Some?;
        UseKeepsGood(codec, fetched, op.conv, found.value.value, op.edit, op.succeeds);
      }
    }
  }

  lemma UseTransparent(codec: Codec, core: Core, op: Op)
    requires Inverse(codec) && Good(codec, core) && Allowed(codec, core, op) && op.Use?
    ensures Transparent(codec, core, op)
  {
    if InnerOf(core.contexts, op.ctx).Valid? {
      assert SomeValid(core.contexts);
      UseKeepsGood(codec, core, op.conv, op.handle, op.edit, op.succeeds);
    }
  }

  lemma CreateTransparent(codec: Codec, core: Core, op: Op)
    requires Inverse(codec) && Good(codec, core) && Disciplined(op) && op.Create?
    ensures Transparent(codec, core, op)
  {
    if InnerOf(core.contexts, op.ctx).Valid? {
      assert SomeValid(core.contexts);
      var g := op.group;
      var saved := WithDb(core, K.Save(core.shared.db, GroupRecord(codec, g)).0);
      forall c ensures Load(codec, saved.shared.db, c) ==
                       if c == g.id then Ok(Some(g)) else Load(codec, core.shared.db, c)
      {
        LoadAfterSave(codec, core.shared.db, g, c);
      }
      assert forall c :: Cached(saved, c) == Cached(core, c);
      PlaceKeeps(codec, saved, g);
      var after := Step(codec, core, op).0;
      forall c | Cached(after, c).Some?
        ensures after.heap[Cached(after, c).value].group.active && !after.heap[Cached(after, c).value].changed
      {
        if c != g.id { assert Cached(after, c) == Cached(core, c); }
      }
    }
  }

  lemma WipeTransparent(codec: Codec, core: Core, op: Op)
    requires Good(codec, core) && op.Wipe?
    ensures Transparent(codec, core, op)
  {
    if InnerOf(core.contexts, op.ctx).Valid? {
      assert SomeValid(core.contexts);
      FetchTransparent(codec, core, op.conv);
      var (fetched, found) := Fetch(codec, core, op.conv);
      if found.Ok? && found.value.Some? {
        var after := Step(codec, core, op).0;
        assert fetched.shared.db.tx.Some?;
        Lru.WithoutWf(fetched.shared.cache, op.conv, CAPACITY);
        forall c ensures Cached(after, c) == if c == op.conv then None else Cached(fetched, c) {
          Lru.FindWithout(fetched.shared.cache, op.conv, c);
        }
        forall c ensures Load(codec, after.shared.db, c) ==
                         if c == op.conv then Ok(None) else Load(codec, fetched.shared.db, c)
        {
          LoadAfterRemove(codec, fetched.shared.db, GroupRow(op.conv), c);
        }
      }
    }
  }

  /** The database changes, but not what is loaded from it, and the cache stays or empties. */
  lemma StoreTransparent(codec: Codec, core: Core, after: Core)
    requires Good(codec, core)
    requires after.heap == core.heap && after.next == core.next
    requires after.shared.session && (after.shared.cache == core.shared.cache || after.shared.cache == [])
    requires K.Valid(after.shared.db) && after.shared.db.conn.Some?
    requires StoreWellFormed(codec, after.shared.db)
    requires after.shared.cache == core.shared.cache ==>
             forall c :: Load(codec, after.shared.db, c) == Load(codec, core.shared.db, c)
    requires SomeValid(after.contexts) ==> after.shared.db.tx.Some?
    requires AtMostOneValid(after.contexts)
    ensures Good(codec, after)
  {
    if after.shared.cache == core.shared.cache {
      assert forall c :: Cached(after, c) == Cached(core, c);
    } else {
      assert forall c :: Cached(after, c).None?;
    }
  }

  lemma EndTransparent(codec: Codec, core: Core, op: Op)
    requires Good(codec, core) && op.End?
    ensures Transparent(codec, core, op)
  {
    if InnerOf(core.contexts, op.ctx).Valid? {
      assert SomeValid(core.contexts);
      var after := Step(codec, core, op).0;
      forall c ensures Load(codec, after.shared.db, c) == Load(codec, core.shared.db, c) {
        LoadAfterCommit(codec, core.shared.db, op.io, c);
      }
      assert forall a :: a in after.contexts ==> !after.contexts[a].Valid?;
      StoreTransparent(codec, core, after);
    }
  }

  lemma DropTransparent(codec: Codec, core: Core, op: Op)
    requires Good(codec, core) && op.Drop?
    ensures Transparent(codec, core, op)
  {
    if InnerOf(core.contexts, op.ctx).Valid? {
      assert SomeValid(core.contexts);
      var after := Step(codec, core, op).0;
      assert forall a :: a in after.contexts ==> !after.contexts[a].Valid?;
      assert forall c :: Cached(after, c).None?;
    }
  }

  lemma NewTransparent(codec: Codec, core: Core, op: Op)
    requires Good(codec, core) && op.New?
    ensures Transparent(codec, core, op)
  {
    if op.ctx !in core.contexts && core.shared.db.tx.None? {
      var after := Step(codec, core, op).0;
      assert forall a :: a in core.contexts ==> !core.contexts[a].Valid?;
      assert forall c :: Load(codec, after.shared.db, c) == Load(codec, core.shared.db, c);
      StoreTransparent(codec, core, after);
    }
  }

  lemma RowTransparent(codec: Codec, core: Core, op: Op)
    requires Good(codec, core) && Disciplined(op) && (op.SaveRow? || op.RemoveRow?)
    ensures Transparent(codec, core, op)
  {
    var after := Step(codec, core, op).0;
    if InnerOf(core.contexts, op.ctx).Valid? {
      assert SomeValid(core.contexts);
      assert forall c :: Load(codec, after.shared.db, c) == Load(codec, core.shared.db, c);
      StoreTransparent(codec, core, after);
    }
  }

  lemma QueueTransparent(codec: Codec, core: Core, op: Op)
    requires Good(codec, core) && op.Queue?
    ensures Transparent(codec, core, op)
  {
    var after := Step(codec, core, op).0;
    if InnerOf(core.contexts, op.ctx).Valid? {
      assert SomeValid(core.contexts);
      StoreTransparent(codec, core, after);
    }
  }

  lemma StepTransparent(codec: Codec, core: Core, op: Op)
    requires Inverse(codec) && Good(codec, core) && Allowed(codec, core, op)
    ensures Transparent(codec, core, op)
  {
    match op
    case New(_) => NewTransparent(codec, core, op);
    case Visit(_, _, _, _) => VisitTransparent(codec, core, op);
    case Use(_, _, _, _, _) => UseTransparent(codec, core, op);
    case Create(_, _) => CreateTransparent(codec, core, op);
    case Wipe(_, _) => WipeTransparent(codec, core, op);
    case SaveRow(_, _) => RowTransparent(codec, core, op);
    case RemoveRow(_, _) => RowTransparent(codec, core, op);
    case ReadRow(_) =>
    case Queue(_, _) => QueueTransparent(codec, core, op);
    case End(_, _) => EndTransparent(codec, core, op);
    case Drop(_) => DropTransparent(codec, core, op);
  }

  /**
    In every run the cache is coherent and within its capacity after every step, and no output
    and no stored row depends on it.
   */
  lemma {:induction false} RunTransparent(codec: Codec, core: Core, ops: seq<Op>)
    requires Inverse(codec) && Good(codec, core) && AllAllowed(codec, core, ops)
    ensures var (after, outs) := Run(codec, core, ops);
            Good(codec, after) && (Uncached(after), outs) == PlainRun(codec, Uncached(core), ops)
  {
    if ops != [] {
      var init, last := ops[..|ops| - 1], ops[|ops| - 1];
      RunTransparent(codec, core, init);
      StepTransparent(codec, Run(codec, core, init).0, last);
    }
  }

  // ----- What each operation stores -----

  /** This group is what loads give for the conversation now, and nothing else has changed. */
  ghost predicate LoadsOnly(codec: Codec, before: K.Db, after: K.Db, conv: ConvId, g: Option<Group>) {
    forall c :: Load(codec, after, c) == if c == conv then Ok(g) else Load(codec, before, c)
  }

  /** A conversation that was created is stored and cached. */
  lemma CreatedIsFound(codec: Codec, core: Core, ctx: nat, g: Group)
    requires Inverse(codec) && Good(codec, core) && InnerOf(core.contexts, ctx).Valid? && g.active
    ensures var (after, out) := Step(codec, core, Create(ctx, g));
            && out == Unit(Ok(())) && LoadsOnly(codec, core.shared.db, after.shared.db, g.id, Some(g))
            && Cached(after, g.id).Some? && after.heap[Cached(after, g.id).value] == Object(g, false)
  {
    assert SomeValid(core.contexts);
    var saved := WithDb(core, K.Save(core.shared.db, GroupRecord(codec, g)).0);
    forall c { LoadAfterSave(codec, core.shared.db, g, c); }
    assert forall c :: Cached(saved, c) == Cached(core, c);
    PlaceKeeps(codec, saved, g);
  }

  /** A conversation that was wiped is gone from store and cache. */
  lemma WipedIsGone(codec: Codec, core: Core, ctx: nat, conv: ConvId)
    requires Good(codec, core) && InnerOf(core.contexts, ctx).Valid?
    requires Step(codec, core, Wipe(ctx, conv)).1 == Unit(Ok(()))
    ensures var after := Step(codec, core, Wipe(ctx, conv)).0;
            Cached(after, conv).None? && LoadsOnly(codec, core.shared.db, after.shared.db, conv, None)
  {
    assert SomeValid(core.contexts);
    FetchTransparent(codec, core, conv);
    var fetched := Fetch(codec, core, conv).0;
    Lru.FindWithout(fetched.shared.cache, conv, conv);
    forall c { LoadAfterRemove(codec, fetched.shared.db, GroupRow(conv), c); }
  }

  /** An operation on an active conversation is given its group, and what it makes of it is stored. */
  lemma VisitedIsStored(codec: Codec, core: Core, ctx: nat, conv: ConvId, edit: Group -> Group, g: Group)
    requires Inverse(codec) && Good(codec, core) && InnerOf(core.contexts, ctx).Valid? && Tame(edit, true)
    requires Load(codec, core.shared.db, conv) == Ok(Some(g)) && g.active
    ensures var (after, out) := Step(codec, core, Visit(ctx, conv, edit, true));
            out == Conversation(Ok(Some(g))) && LoadsOnly(codec, core.shared.db, after.shared.db, conv, Some(edit(g)))
  {
    assert SomeValid(core.contexts);
    VisitTransparent(codec, core, Visit(ctx, conv, edit, true));
    LoadedHasOwnId(codec, core.shared.db, conv);
    forall c { LoadAfterSave(codec, core.shared.db, edit(g), c); }
  }

  /**
    A change made by an operation that failed is persisted by the next one that succeeds, even if that changes
    nothing.
   */
  lemma FailedChangeIsPersistedLater(codec: Codec, core: Core, h: Handle, after: Group)
    requires Inverse(codec) && core.shared.db.tx.Some? && h in core.heap && after.id == core.heap[h].group.id
    requires after != core.heap[h].group
    ensures var failed := Mutate(codec, core, h, after, false).0;
            && failed.shared.db == core.shared.db && h in failed.heap && failed.heap[h].group == after
            && Load(codec, Mutate(codec, failed, h, after, true).0.shared.db, after.id) == Ok(Some(after))
  {
    var failed := Mutate(codec, core, h, after, false).0;
    LoadAfterMutate(codec, failed, h, after, true, after.id);
  }

  // ----- An aborted transaction never happened -----

  /** The operation belongs to this context, and does not end it. */
  predicate Inside(op: Op, ctx: nat) {
    op.ReadRow? || (op.ctx == ctx && !op.End? && !op.Drop? && !op.New?)
  }

  /** What no operation inside a transaction can change. */
  ghost predicate SameOutside(before: Core, after: Core, ctx: nat) {
    && after.shared.db.conn == before.shared.db.conn && after.shared.db.backend == before.shared.db.backend
    && after.shared.db.tx.Some?
    && after.shared.session == before.shared.session && after.shared.delivered == before.shared.delivered
    && ctx in after.contexts && after.contexts[ctx].Valid?
    && after.contexts == before.contexts[ctx := after.contexts[ctx]]
    && ((forall h :: h in before.heap ==> h < before.next) ==> forall h :: h in after.heap ==> h < after.next)
  }

  /** Conversation and row operations, whether they succeed, fail, or write what they should not. */
  lemma FetchStaysInside(codec: Codec, core: Core, conv: ConvId)
    requires core.shared.db.tx.Some?
    ensures var after := Fetch(codec, core, conv).0;
            && after.shared.db.conn == core.shared.db.conn && after.shared.db.backend == core.shared.db.backend
            && after.shared.db.tx.Some?
            && ((forall h :: h in core.heap ==> h < core.next) ==> forall h :: h in after.heap ==> h < after.next)
  {
  }

  lemma InsideStep(codec: Codec, core: Core, op: Op, ctx: nat)
    requires core.shared.db.tx.Some? && ctx in core.contexts && core.contexts[ctx].Valid? && Inside(op, ctx)
    ensures SameOutside(core, Step(codec, core, op).0, ctx)
  {
    assert core.contexts == core.contexts[ctx := core.contexts[ctx]];
    if op.Visit? || op.Wipe? {
      FetchStaysInside(codec, core, op.conv);
    }
  }

  lemma {:induction false} InsideRun(codec: Codec, core: Core, ops: seq<Op>, ctx: nat)
    requires core.shared.db.tx.Some? && ctx in core.contexts && core.contexts[ctx].Valid?
    requires forall op :: op in ops ==> Inside(op, ctx)
    ensures SameOutside(core, Run(codec, core, ops).0, ctx)
  {
    if ops == [] {
      assert core.contexts == core.contexts[ctx := core.contexts[ctx]];
    } else {
      var init, last := ops[..|ops| - 1], ops[|ops| - 1];
      assert forall op :: op in init ==> op in ops;
      InsideRun(codec, core, init, ctx);
      InsideStep(codec, Run(codec, core, init).0, last, ctx);
    }
  }

  lemma UpdatesCommute(m: map<nat, Inner>, a: nat, x: Inner, b: nat, y: Inner)
    requires a != b
    ensures m[a := x][b := y] == m[b := y][a := x]
  {
  }

  /** A context that is gone does not influence operations that do not name it. */
  lemma {:induction false} SpentContextIsIrrelevant(codec: Codec, p: Plain, ops: seq<Op>, ctx: nat)
    requires ctx !in p.contexts
    requires forall op :: op in ops ==> op.ReadRow? || op.ctx != ctx
    ensures var q := p.(contexts := p.contexts[ctx := Invalid]);
            var (e, outs) := PlainRun(codec, p, ops);
            ctx !in e.contexts && PlainRun(codec, q, ops) == (e.(contexts := e.contexts[ctx := Invalid]), outs)
  {
    if ops != [] {
      var init, last := ops[..|ops| - 1], ops[|ops| - 1];
      assert forall op :: op in init ==> op in ops;
      SpentContextIsIrrelevant(codec, p, init, ctx);
      var e := PlainRun(codec, p, init).0;
      var f := e.(contexts := e.contexts[ctx := Invalid]);
      assert last in ops;
      if !last.ReadRow? {
        assert InnerOf(e.contexts, last.ctx) == InnerOf(f.contexts, last.ctx);
        var after := PlainStep(codec, e, last).0.contexts;
        if last.ctx in after {
          UpdatesCommute(e.contexts, last.ctx, after[last.ctx], ctx, Invalid);
        }
      }
    }
  }

  lemma {:induction false} RunAppend(codec: Codec, core: Core, a: seq<Op>, b: seq<Op>)
    ensures Run(codec, core, a + b).0 == Run(codec, Run(codec, core, a).0, b).0
  {
    if b == [] {
      assert a + b == a;
    } else {
      assert (a + b)[..|a + b| - 1] == a + b[..|b| - 1];
      RunAppend(codec, core, a, b[..|b| - 1]);
    }
  }

  /** Beginning a transaction, doing anything in it, and aborting. */
  function Aborted(codec: Codec, core: Core, ctx: nat, ops: seq<Op>): (r: Core) {
    Step(codec, Run(codec, Step(codec, core, New(ctx)).0, ops).0, Drop(ctx)).0
  }

  /** An abort leaves the database as it was and an empty cache, whatever was done to rows, groups and handles. */
  lemma AbortRestores(codec: Codec, core: Core, ctx: nat, ops: seq<Op>)
    requires Good(codec, core) && ctx !in core.contexts && core.shared.db.tx.None?
    requires forall op :: op in ops ==> Inside(op, ctx)
    ensures var after := Aborted(codec, core, ctx, ops);
            && Good(codec, after) && after.shared.db == core.shared.db && after.shared.cache == []
            && Uncached(after) == Uncached(core).(contexts := core.contexts[ctx := Invalid])
  {
    var begun := Step(codec, core, New(ctx)).0;
    InsideRun(codec, begun, ops, ctx);
    var last, after := Run(codec, begun, ops).0, Aborted(codec, core, ctx, ops);
    assert after.contexts == core.contexts[ctx := Invalid];
    assert forall c :: Cached(after, c).None?;
    assert forall a :: a in core.contexts ==> !core.contexts[a].Valid?;
  }

  /**
    Whatever is done inside a transaction that ends in an abort (changes that fail, changes through any handle,
    groups deactivated or their rows overwritten), the database is the one before, and every later
    operation, database read or conversation lookup, answers as if the transaction had never been opened.
   */
  lemma AbortedNeverHappened(codec: Codec, core: Core, ctx: nat, ops: seq<Op>, later: seq<Op>)
    requires Inverse(codec) && Good(codec, core)
    requires ctx !in core.contexts && core.shared.db.tx.None?
    requires forall op :: op in ops ==> Inside(op, ctx)
    requires forall op :: op in later ==> Disciplined(op) && (op.ReadRow? || op.ctx != ctx)
    ensures var aborted := Run(codec, core, [New(ctx)] + ops + [Drop(ctx)]).0;
            && aborted.shared.db == core.shared.db
            && Run(codec, aborted, later).1 == Run(codec, core, later).1
            && Run(codec, aborted, later).0.shared.db == Run(codec, core, later).0.shared.db
  {
    var aborted := Run(codec, core, [New(ctx)] + ops + [Drop(ctx)]).0;
    assert aborted == Aborted(codec, core, ctx, ops) by {
      RunAppend(codec, core, [New(ctx)] + ops, [Drop(ctx)]);
      RunAppend(codec, core, [New(ctx)], ops);
    }
    AbortRestores(codec, core, ctx, ops);
    DisciplinedIsAllowed(codec, core, later);
    DisciplinedIsAllowed(codec, aborted, later);
    RunTransparent(codec, core, later);
    RunTransparent(codec, aborted, later);
    SpentContextIsIrrelevant(codec, Uncached(core), later, ctx);
  }

  /**
    Ending a transaction from a state in which the cache may have drifted from the store, after failed changes:
    an abort and a refused commit make it coherent again; a successful commit leaves it as coherent as it was.
   */
  lemma EndRestoresCoherence(codec: Codec, core: Core, ctx: nat, io: bool)
    requires Inv(codec, core) && InnerOf(core.contexts, ctx).Valid?
    ensures Good(codec, Step(codec, core, Drop(ctx)).0)
    ensures var after := Step(codec, core, End(ctx, io)).0;
            if K.Commit(core.shared.db, io).1.Err? then Good(codec, after)
            else Coherent(codec, after) <==> Coherent(codec, core)
  {
    var dropped, ended := Step(codec, core, Drop(ctx)).0, Step(codec, core, End(ctx, io)).0;
    assert SomeValid(core.contexts);
    assert forall a :: a in dropped.contexts ==> !dropped.contexts[a].Valid?;
    assert forall c :: Cached(dropped, c).None?;
    forall c ensures Load(codec, ended.shared.db, c) == Load(codec, core.shared.db, c) {
      LoadAfterCommit(codec, core.shared.db, io, c);
    }
    if K.Commit(core.shared.db, io).1.Err? {
      assert forall a :: a in ended.contexts ==> !ended.contexts[a].Valid?;
      assert forall c :: Cached(ended, c).None?;
    } else {
      assert forall c :: Cached(ended, c) == Cached(core, c);
      if Coherent(codec, ended) {
        forall c | Cached(core, c).Some?
          ensures Load(codec, core.shared.db, c) == Ok(Some(core.heap[Cached(core, c).value].group))
        {
          assert Cached(ended, c).Some?;
        }
      }
    }
  }

  // ----- Epoch notifications -----

  /** The events a context queued, in order. */
  function QueuedBy(ops: seq<Op>, outs: seq<Out>, ctx: nat): (r: seq<Event>)
    requires |ops| == |outs|
  {
    if ops == [] then []
    else
      var n := |ops| - 1;
      var before := QueuedBy(ops[..n], outs[..n], ctx);
      if ops[n].Queue? && ops[n].ctx == ctx && outs[n] == Unit(Ok(())) then before + [ops[n].event] else before
  }

  /** For every commit that succeeded, in order, what the committing context had queued. */
  function Announced(ops: seq<Op>, outs: seq<Out>): (r: seq<Event>)
    requires |ops| == |outs|
  {
    if ops == [] then []
    else
      var n := |ops| - 1;
      var before := Announced(ops[..n], outs[..n]);
      if ops[n].End? && outs[n] == Unit(Ok(())) then before + QueuedBy(ops[..n], outs[..n], ops[n].ctx) else before
  }

  /** What one operation does to contexts and to the observer. */
  ghost predicate Delivers(before: Core, op: Op, after: Core, out: Out) {
    var ok := out == Unit(Ok(()));
    && after.shared.session == before.shared.session
    && if op.New? && ok then
         && op.ctx !in before.contexts
         && after.contexts == before.contexts[op.ctx := Valid([])] && after.shared.delivered == before.shared.delivered
       else if op.ReadRow? || op.New? || InnerOf(before.contexts, op.ctx).Invalid? then
         && !ok && after.contexts == before.contexts && after.shared.delivered == before.shared.delivered
       else
         var q := before.contexts[op.ctx].queue;
         if op.Queue? then
           && ok && after.contexts == before.contexts[op.ctx := Valid(q + [op.event])]
           && after.shared.delivered == before.shared.delivered
         else if op.End? || op.Drop? then
           && after.contexts == before.contexts[op.ctx := Invalid]
           && after.shared.delivered == before.shared.delivered + if op.End? && ok then q else []
         else
           after.contexts == before.contexts && after.shared.delivered == before.shared.delivered
  }

  lemma StepDelivers(codec: Codec, core: Core, op: Op)
    requires core.shared.session
    ensures var (after, out) := Step(codec, core, op); Delivers(core, op, after, out)
  {
  }

  /** The log is what was announced, and each usable context holds what it queued. */
  ghost predicate LogMatches(start: seq<Event>, ops: seq<Op>, outs: seq<Out>, core: Core)
    requires |ops| == |outs|
  {
    && core.shared.session
    && core.shared.delivered == start + Announced(ops, outs)
    && (forall c :: c in core.contexts && core.contexts[c].Valid? ==> core.contexts[c].queue == QueuedBy(ops, outs, c))
    && (forall c :: c !in core.contexts ==> QueuedBy(ops, outs, c) == [])
  }

  lemma LogStep(start: seq<Event>, ops: seq<Op>, outs: seq<Out>, before: Core, op: Op, after: Core, out: Out)
    requires |ops| == |outs| && LogMatches(start, ops, outs, before) && Delivers(before, op, after, out)
    ensures LogMatches(start, ops + [op], outs + [out], after)
  {
    var ops', outs' := ops + [op], outs + [out];
    assert ops'[..|ops|] == ops && outs'[..|ops|] == outs;
    forall c ensures QueuedBy(ops', outs', c) ==
                     QueuedBy(ops, outs, c) + if op.Queue? && op.ctx == c && out == Unit(Ok(())) then [op.event] else []
    {
    }
    if op.End? && out == Unit(Ok(())) {
      var q := before.contexts[op.ctx].queue;
      assert start + Announced(ops, outs) + q == start + (Announced(ops, outs) + q);
    }
  }

  /**
    When calls run one after the other, the observer receives exactly the queues of the contexts whose commit
    succeeded, in commit order and queue order: nothing from failed or aborted ones.
   */
  lemma {:induction false} DeliveredIsAnnounced(codec: Codec, core: Core, ops: seq<Op>)
    requires core.contexts == map[] && core.shared.session
    ensures LogMatches(core.shared.delivered, ops, Run(codec, core, ops).1, Run(codec, core, ops).0)
  {
    if ops != [] {
      var init, last := ops[..|ops| - 1], ops[|ops| - 1];
      var (before, outs) := Run(codec, core, init);
      var (after, out) := Step(codec, before, last);
      DeliveredIsAnnounced(codec, core, init);
      StepDelivers(codec, before, last);
      LogStep(core.shared.delivered, init, outs, before, last, after, out);
      assert ops == init + [last];
    }
  }

  /** A call on a context that has ended fails and changes nothing. */
  lemma EndedCallIsInert(codec: Codec, core: Core, op: Op)
    requires !op.ReadRow? && op.ctx in core.contexts && core.contexts[op.ctx].Invalid?
    ensures Step(codec, core, op).0 == core
    ensures Step(codec, core, op).1 == Unit(Err(if op.New? then Blocked else InvalidTransactionContext))
  {
  }

  lemma StepKeepsEnded(codec: Codec, core: Core, op: Op, ctx: nat)
    requires ctx in core.contexts && core.contexts[ctx].Invalid?
    ensures var e := Step(codec, core, op).0; ctx in e.contexts && e.contexts[ctx].Invalid?
  {
  }

  /** After the first commit or abort, no call on any clone of the context ever changes anything again. */
  lemma {:induction false} EndedIsInert(codec: Codec, core: Core, ops: seq<Op>, ctx: nat, op: Op)
    requires ctx in core.contexts && core.contexts[ctx].Valid?
    requires ops != [] && (ops[0] == Drop(ctx) || (ops[0].End? && ops[0].ctx == ctx))
    requires !op.ReadRow? && !op.New? && op.ctx == ctx
    ensures var e := Run(codec, core, ops).0;
            && ctx in e.contexts && e.contexts[ctx].Invalid?
            && Step(codec, e, op) == (e, Unit(Err(InvalidTransactionContext)))
  {
    var init, last := ops[..|ops| - 1], ops[|ops| - 1];
    if init == [] {
      assert Run(codec, core, ops).0 == Step(codec, core, ops[0]).0;
    } else {
      EndedIsInert(codec, core, init, ctx, op);
      StepKeepsEnded(codec, Run(codec, core, init).0, last, ctx);
    }
    EndedCallIsInert(codec, Run(codec, core, ops).0, op);
  }
}
