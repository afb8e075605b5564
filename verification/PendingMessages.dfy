/**
  Buffered messages of a conversation. They have no primary key of their own: inside a
  transaction they are keyed by a hash of conversation id and body, on disk they form a plain
  list, and they are deleted per conversation. The deletion mark is the conversation id.
 */
module PendingMessages {
  import opened Base

  datatype Msg = Msg(conv: Bytes, body: Bytes)

  datatype Tx = Tx(cache: map<Bytes, Msg>, deleted: set<Bytes>)

  const EMPTY_TX := Tx(map[], {})

  /** The hash is fed the conversation id and the body one after the other, with no separator. */
  function Key(hash: Bytes -> Bytes, m: Msg): (r: Bytes) {
    hash(m.conv + m.body)
  }

  function Save(hash: Bytes -> Bytes, tx: Tx, m: Msg): (r: Tx) {
    Tx(tx.cache[Key(hash, m) := m], tx.deleted - {Key(hash, m)})
  }

  function Clear(tx: Tx, conv: Bytes): (r: Tx) {
    Tx(map k | k in tx.cache && tx.cache[k].conv != conv :: tx.cache[k], tx.deleted + {conv})
  }

  function UniqueByKey(hash: Bytes -> Bytes, s: seq<Msg>, seen: set<Bytes>): (r: seq<Msg>) {
    if s == [] then []
    else if Key(hash, s[0]) in seen then UniqueByKey(hash, s[1..], seen)
    else [s[0]] + UniqueByKey(hash, s[1..], seen + {Key(hash, s[0])})
  }

  function Visible(hash: Bytes -> Bytes, s: seq<Msg>, deleted: set<Bytes>): (r: seq<Msg>) {
    if s == [] then []
    else if Key(hash, s[0]) in deleted then Visible(hash, s[1..], deleted)
    else [s[0]] + Visible(hash, s[1..], deleted)
  }

  function OfConversation(s: seq<Msg>, conv: Bytes): (r: seq<Msg>) {
    if s == [] then []
    else if s[0].conv == conv then [s[0]] + OfConversation(s[1..], conv)
    else OfConversation(s[1..], conv)
  }

  /** `order` is the order in which the hash map hands out the buffered messages. */
  function Find(hash: Bytes -> Bytes, rows: seq<Msg>, tx: Tx, order: seq<Msg>, conv: Bytes): (r: seq<Msg>) {
    Visible(hash, UniqueByKey(hash, OfConversation(order, conv) + OfConversation(rows, conv), {}), tx.deleted)
  }

  function DeleteMarked(rows: seq<Msg>, deleted: set<Bytes>): (r: seq<Msg>) {
    if rows == [] then []
    else if rows[0].conv in deleted then DeleteMarked(rows[1..], deleted)
    else [rows[0]] + DeleteMarked(rows[1..], deleted)
  }

  /** All buffered messages are inserted first; then every marked conversation is deleted. */
  function Commit(rows: seq<Msg>, tx: Tx, order: seq<Msg>): (r: seq<Msg>) {
    DeleteMarked(rows + order, tx.deleted)
  }

  ghost predicate Orders(order: seq<Msg>, tx: Tx) {
    forall m :: m in order <==> m in tx.cache.Values
  }

  // ----- What the list functions keep -----

  /** The first message with a key. */
  function FirstWithKey(hash: Bytes -> Bytes, s: seq<Msg>, k: Bytes): (r: Option<Msg>) {
    if s == [] then None else if Key(hash, s[0]) == k then Some(s[0]) else FirstWithKey(hash, s[1..], k)
  }

  /** Of the messages with one key, the first is kept. */
  lemma UniqueKeepsFirst(hash: Bytes -> Bytes, s: seq<Msg>, seen: set<Bytes>, x: Msg)
    ensures x in UniqueByKey(hash, s, seen) <==> FirstWithKey(hash, s, Key(hash, x)) == Some(x) && Key(hash, x) !in seen
  {
  }

  lemma VisibleContents(hash: Bytes -> Bytes, s: seq<Msg>, deleted: set<Bytes>, x: Msg)
    ensures x in Visible(hash, s, deleted) <==> x in s && Key(hash, x) !in deleted
  {
  }

  lemma OfConversationContents(s: seq<Msg>, conv: Bytes, x: Msg)
    ensures x in OfConversation(s, conv) <==> x in s && x.conv == conv
  {
  }

  lemma DeleteMarkedContents(rows: seq<Msg>, deleted: set<Bytes>, x: Msg)
    ensures x in DeleteMarked(rows, deleted) <==> x in rows && x.conv !in deleted
  {
  }

  // ----- Keys -----

  /**
    Unless the hash itself collides on them, two messages share a key exactly when their conversation id and body
    run together to the same bytes; that never happens to different messages whose ids have one length.
   */
  lemma KeyCollisionIff(hash: Bytes -> Bytes, a: Msg, b: Msg)
    requires hash(a.conv + a.body) == hash(b.conv + b.body) ==> a.conv + a.body == b.conv + b.body
    ensures Key(hash, a) == Key(hash, b) <==> a.conv + a.body == b.conv + b.body
    ensures |a.conv| == |b.conv| ==> (Key(hash, a) == Key(hash, b) <==> a == b)
  {
    if |a.conv| == |b.conv| && a.conv + a.body == b.conv + b.body {
      assert a.conv == (a.conv + a.body)[..|a.conv|] == b.conv;
      assert a.body == (a.conv + a.body)[|a.conv|..] == b.body;
    }
  }

  /** Buffering a message of another conversation with the same key silently drops the first one. */
  lemma CollidingSaveDropsMessage(hash: Bytes -> Bytes, conv: Bytes, split: Bytes, body: Bytes)
    requires split != []
    ensures var first, second := Msg(conv, split + body), Msg(conv + split, body);
            && first.conv != second.conv
            && first in Save(hash, EMPTY_TX, first).cache.Values
            && first !in Save(hash, Save(hash, EMPTY_TX, first), second).cache.Values
  {
    var first, second := Msg(conv, split + body), Msg(conv + split, body);
    assert conv + (split + body) == conv + split + body;
    assert |conv + split| > |conv|;
    var one := Save(hash, EMPTY_TX, first);
    assert one.cache[Key(hash, first)] == first;
    assert Save(hash, one, second).cache == map[Key(hash, second) := second];
  }

  // ----- Whole transactions -----

  datatype Op = SaveOp(msg: Msg) | ClearOp(conv: Bytes)

  function Run(hash: Bytes -> Bytes, ops: seq<Op>): (tx: Tx) {
    if ops == [] then EMPTY_TX
    else
      var last, before := ops[|ops| - 1], Run(hash, ops[..|ops| - 1]);
      match last
      case SaveOp(m) => Save(hash, before, m)
      case ClearOp(c) => Clear(before, c)
  }

  /** The messages saved and not cleared since. */
  ghost function Live(ops: seq<Op>): set<Msg> {
    if ops == [] then {}
    else
      var last, before := ops[|ops| - 1], Live(ops[..|ops| - 1]);
      match last
      case SaveOp(m) => before + {m}
      case ClearOp(c) => set m | m in before && m.conv != c
  }

  /** What the caller means: clearing removes what was there, saving adds. */
  ghost predicate Intended(rows: seq<Msg>, ops: seq<Op>, m: Msg) {
    m in Live(ops) || (m in rows && ClearOp(m.conv) !in ops)
  }

  /** The message last saved under a key, unless its conversation was cleared since. */
  function LiveAt(hash: Bytes -> Bytes, ops: seq<Op>, k: Bytes): (r: Option<Msg>) {
    if ops == [] then None
    else
      var last, before := ops[|ops| - 1], LiveAt(hash, ops[..|ops| - 1], k);
      match last
      case SaveOp(m) => if Key(hash, m) == k then Some(m) else before
      case ClearOp(c) => if before.Some? && before.value.conv == c then None else before
  }

  /** The message has not been displaced by a later one with the same key. */
  ghost predicate Kept(hash: Bytes -> Bytes, ops: seq<Op>, m: Msg) {
    LiveAt(hash, ops, Key(hash, m)) == Some(m)
  }

  /** The conversation was cleared, and no message saved since has its id for a key. */
  predicate Marked(hash: Bytes -> Bytes, ops: seq<Op>, conv: Bytes) {
    if ops == [] then false
    else
      var last := ops[|ops| - 1];
      last == ClearOp(conv) ||
      (Marked(hash, ops[..|ops| - 1], conv) && !(last.SaveOp? && Key(hash, last.msg) == conv))
  }

  /** For every run: the buffer holds under each key the message kept there, and the marks are as defined. */
  lemma {:induction false} RunBuffers(hash: Bytes -> Bytes, ops: seq<Op>, k: Bytes)
    ensures Lookup(Run(hash, ops).cache, k) == LiveAt(hash, ops, k)
    ensures LiveAt(hash, ops, k).Some? ==> Key(hash, LiveAt(hash, ops, k).value) == k
    ensures k in Run(hash, ops).deleted <==> Marked(hash, ops, k)
  {
    if ops != [] {
      RunBuffers(hash, ops[..|ops| - 1], k);
    }
  }

  lemma {:induction false} KeptIsLive(hash: Bytes -> Bytes, ops: seq<Op>, k: Bytes)
    ensures LiveAt(hash, ops, k).Some? ==> LiveAt(hash, ops, k).value in Live(ops)
  {
    if ops != [] {
      KeptIsLive(hash, ops[..|ops| - 1], k);
    }
  }

  lemma {:induction false} MarkedWasCleared(hash: Bytes -> Bytes, ops: seq<Op>, conv: Bytes)
    requires Marked(hash, ops, conv)
    ensures ClearOp(conv) in ops
  {
    if ops[|ops| - 1] != ClearOp(conv) {
      MarkedWasCleared(hash, ops[..|ops| - 1], conv);
    }
  }

  lemma OrderIsKept(hash: Bytes -> Bytes, ops: seq<Op>, order: seq<Msg>, m: Msg)
    requires Orders(order, Run(hash, ops))
    ensures m in order <==> Kept(hash, ops, m)
  {
    var cache := Run(hash, ops).cache;
    if m in order {
      var k :| k in cache && cache[k] == m;
      RunBuffers(hash, ops, k);
    }
    if Kept(hash, ops, m) {
      RunBuffers(hash, ops, Key(hash, m));
      assert cache[Key(hash, m)] == m;
    }
  }

  /** Exactly which messages a commit leaves, for every hash and every run. */
  lemma CommittedContents(hash: Bytes -> Bytes, rows: seq<Msg>, ops: seq<Op>, order: seq<Msg>, m: Msg)
    requires Orders(order, Run(hash, ops))
    ensures m in Commit(rows, Run(hash, ops), order) <==>
            (Kept(hash, ops, m) || m in rows) && !Marked(hash, ops, m.conv)
  {
    OrderIsKept(hash, ops, order, m);
    RunBuffers(hash, ops, m.conv);
    DeleteMarkedContents(rows + order, Run(hash, ops).deleted, m);
  }

  lemma {:induction false} FirstAppend(hash: Bytes -> Bytes, a: seq<Msg>, b: seq<Msg>, k: Bytes)
    ensures FirstWithKey(hash, a + b, k) ==
            if FirstWithKey(hash, a, k).Some? then FirstWithKey(hash, a, k) else FirstWithKey(hash, b, k)
  {
    if a == [] {
      assert a + b == b;
    } else {
      assert (a + b)[1..] == a[1..] + b;
      FirstAppend(hash, a[1..], b, k);
    }
  }

  lemma {:induction false} FirstIsMember(hash: Bytes -> Bytes, s: seq<Msg>, k: Bytes)
    ensures var f := FirstWithKey(hash, s, k);
            if f.Some? then f.value in s && Key(hash, f.value) == k else forall m :: m in s ==> Key(hash, m) != k
  {
    if s != [] {
      FirstIsMember(hash, s[1..], k);
    }
  }

  /** Whether a message of this conversation is buffered under the key. */
  ghost predicate Shadows(hash: Bytes -> Bytes, ops: seq<Op>, conv: Bytes, k: Bytes) {
    LiveAt(hash, ops, k).Some? && LiveAt(hash, ops, k).value.conv == conv
  }

  lemma FirstBuffered(hash: Bytes -> Bytes, ops: seq<Op>, order: seq<Msg>, conv: Bytes, k: Bytes)
    requires Orders(order, Run(hash, ops))
    ensures FirstWithKey(hash, OfConversation(order, conv), k) ==
            if Shadows(hash, ops, conv, k) then LiveAt(hash, ops, k) else None
  {
    var mine := OfConversation(order, conv);
    FirstIsMember(hash, mine, k);
    RunBuffers(hash, ops, k);
    var first := FirstWithKey(hash, mine, k);
    if first.Some? {
      OfConversationContents(order, conv, first.value);
      OrderIsKept(hash, ops, order, first.value);
    }
    if Shadows(hash, ops, conv, k) {
      var m := LiveAt(hash, ops, k).value;
      OrderIsKept(hash, ops, order, m);
      OfConversationContents(order, conv, m);
    }
  }

  /**
    Exactly which messages a lookup inside the transaction returns, for every hash and every run: the ones kept, and
    the persisted ones that no buffered message of the conversation shadows, unless the key equals a deletion mark.
   */
  lemma FoundContents(hash: Bytes -> Bytes, rows: seq<Msg>, ops: seq<Op>, order: seq<Msg>, conv: Bytes, m: Msg)
    requires Orders(order, Run(hash, ops))
    ensures var k := Key(hash, m);
            m in Find(hash, rows, Run(hash, ops), order, conv) <==>
            && m.conv == conv && !Marked(hash, ops, k)
            && (if Shadows(hash, ops, conv, k) then Kept(hash, ops, m)
                else FirstWithKey(hash, OfConversation(rows, conv), k) == Some(m))
  {
    var k, mine, theirs := Key(hash, m), OfConversation(order, conv), OfConversation(rows, conv);
    VisibleContents(hash, UniqueByKey(hash, mine + theirs, {}), Run(hash, ops).deleted, m);
    UniqueKeepsFirst(hash, mine + theirs, {}, m);
    FirstAppend(hash, mine, theirs, k);
    FirstBuffered(hash, ops, order, conv, k);
    RunBuffers(hash, ops, k);
    FirstIsMember(hash, theirs, k);
    if FirstWithKey(hash, theirs, k).Some? {
      OfConversationContents(rows, conv, FirstWithKey(hash, theirs, k).value);
    }
  }

  // ----- What the caller means -----

  /** Every message saved in the conversation and not cleared since is buffered still, or persisted anyway. */
  ghost predicate NoneDisplaced(hash: Bytes -> Bytes, rows: seq<Msg>, ops: seq<Op>, conv: Bytes) {
    forall m :: m in Live(ops) && m.conv == conv ==> Kept(hash, ops, m) || m in rows
  }

  /**
    For one conversation and any hash, a commit stores what the caller means exactly when: if it is marked for
    deletion, nothing was saved in it since it was cleared; and if not, no message was displaced by another with
    its key, and clearing it, if it was cleared at all, took nothing away.
   */
  lemma CommitMeetsIntentIff(hash: Bytes -> Bytes, rows: seq<Msg>, ops: seq<Op>, order: seq<Msg>, conv: Bytes)
    requires Orders(order, Run(hash, ops))
    ensures (forall m: Msg :: m.conv == conv ==>
               (m in Commit(rows, Run(hash, ops), order) <==> Intended(rows, ops, m))) <==>
            if Marked(hash, ops, conv) then forall m :: m in Live(ops) ==> m.conv != conv
            else && NoneDisplaced(hash, rows, ops, conv)
                 && (ClearOp(conv) in ops ==> forall m :: m in rows && m.conv == conv ==> m in Live(ops))
  {
    var after := Commit(rows, Run(hash, ops), order);
    forall m ensures m in after <==> (Kept(hash, ops, m) || m in rows) && !Marked(hash, ops, m.conv) {
      CommittedContents(hash, rows, ops, order, m);
    }
    forall m ensures Kept(hash, ops, m) ==> m in Live(ops) {
      KeptIsLive(hash, ops, Key(hash, m));
    }
    if Marked(hash, ops, conv) {
      MarkedWasCleared(hash, ops, conv);
    }
  }

  ghost predicate AtHand(rows: seq<Msg>, ops: seq<Op>, m: Msg) {
    m in rows || SaveOp(m) in ops
  }

  /** Keys of the messages at hand neither collide nor equal a cleared conversation id. */
  ghost predicate NoClash(hash: Bytes -> Bytes, rows: seq<Msg>, ops: seq<Op>) {
    && (forall a, b :: AtHand(rows, ops, a) && AtHand(rows, ops, b) && Key(hash, a) == Key(hash, b) ==> a == b)
    && (forall a, c :: AtHand(rows, ops, a) && ClearOp(c) in ops ==> Key(hash, a) != c)
  }

  lemma {:induction false} LiveWereSaved(ops: seq<Op>, m: Msg)
    requires m in Live(ops)
    ensures SaveOp(m) in ops
  {
    var last := |ops| - 1;
    assert forall op :: op in ops[..last] ==> op in ops;
    if ops[last] != SaveOp(m) {
      LiveWereSaved(ops[..last], m);
    }
  }

  /** Without clashes nothing is displaced, and a cleared conversation stays marked. */
  lemma {:induction false} NoClashKeepsAll(hash: Bytes -> Bytes, rows: seq<Msg>, ops: seq<Op>, m: Msg)
    requires NoClash(hash, rows, ops)
    ensures m in Live(ops) <==> Kept(hash, ops, m)
    ensures Marked(hash, ops, m.conv) <==> ClearOp(m.conv) in ops
    ensures AtHand(rows, ops, m) ==> !Marked(hash, ops, Key(hash, m))
  {
    KeptIsLive(hash, ops, Key(hash, m));
    if Marked(hash, ops, Key(hash, m)) {
      MarkedWasCleared(hash, ops, Key(hash, m));
    }
    if ops != [] {
      var last, init := ops[|ops| - 1], ops[..|ops| - 1];
      assert forall op :: op in ops <==> op in init || op == last by { assert ops == init + [last]; }
      NoClashKeepsAll(hash, rows, init, m);
      if m in Live(init) { LiveWereSaved(init, m); }
    }
  }

  /**
    Inside the transaction, with no keys clashing, a lookup after clearing a conversation answers as the caller
    means exactly when no persisted message of it is left to show.
   */
  lemma FindMeetsIntentIff(hash: Bytes -> Bytes, rows: seq<Msg>, ops: seq<Op>, order: seq<Msg>, conv: Bytes)
    requires NoClash(hash, rows, ops) && Orders(order, Run(hash, ops))
    ensures (forall m: Msg :: m.conv == conv ==>
               (m in Find(hash, rows, Run(hash, ops), order, conv) <==> Intended(rows, ops, m))) <==>
            (ClearOp(conv) in ops ==> forall m :: m in rows && m.conv == conv ==> m in Live(ops))
  {
    var found := Find(hash, rows, Run(hash, ops), order, conv);
    forall m ensures m in found <==> m.conv == conv && (m in Live(ops) || m in rows) {
      FoundWithoutClash(hash, rows, ops, order, conv, m);
    }
    if m :| m in rows && m.conv == conv && m !in Live(ops) && ClearOp(conv) in ops {
      assert !Intended(rows, ops, m) && m in found;
    }
  }

  lemma FoundWithoutClash(hash: Bytes -> Bytes, rows: seq<Msg>, ops: seq<Op>, order: seq<Msg>, conv: Bytes, m: Msg)
    requires NoClash(hash, rows, ops) && Orders(order, Run(hash, ops))
    ensures m in Find(hash, rows, Run(hash, ops), order, conv) <==> m.conv == conv && (m in Live(ops) || m in rows)
  {
    var k, theirs := Key(hash, m), OfConversation(rows, conv);
    FoundContents(hash, rows, ops, order, conv, m);
    NoClashKeepsAll(hash, rows, ops, m);
    KeptIsLive(hash, ops, k);
    RunBuffers(hash, ops, k);
    FirstIsMember(hash, theirs, k);
    OfConversationContents(rows, conv, m);
    if m in Live(ops) { LiveWereSaved(ops, m); }
    if LiveAt(hash, ops, k).Some? { LiveWereSaved(ops, LiveAt(hash, ops, k).value); }
    if FirstWithKey(hash, theirs, k).Some? { OfConversationContents(rows, conv, FirstWithKey(hash, theirs, k).value); }
  }
}
