/**
  Nested transactional operations of the PKI environment. An operation is a list of steps, any
  of which may fail and end it; `Transactionally` runs one inside a transaction, opening one
  only if none is open.
 */
module PkiModel {
  import opened Base
  import K = Keystore

  datatype Action =
    | Save(rec: K.Record)
    | Fail
    | Transactionally(body: seq<Action>)

  datatype Error = Failed | Store(error: K.Error)

  function Lift(r: Result<(), K.Error>): (o: Result<(), Error>) {
    if r.Ok? then Ok(()) else Err(Store(r.error))
  }

  /** Runs the steps in order, up to the first that fails. */
  function Exec(db: K.Db, acts: seq<Action>, io: bool): (r: (K.Db, Result<(), Error>))
    decreases acts, 1
  {
    if acts == [] then (db, Ok(()))
    else
      var (d, o) := ExecOne(db, acts[0], io);
      if o.Err? then (d, o) else Exec(d, acts[1..], io)
  }

  function ExecOne(db: K.Db, act: Action, io: bool): (r: (K.Db, Result<(), Error>))
    decreases act, 0
  {
    match act
    case Save(rec) => var (d, o) := K.Save(db, rec); (d, Lift(o))
    case Fail => (db, Err(Failed))
    case Transactionally(body) =>
      var (begun, opening) := K.Begin(db);
      var created := opening.Ok?;
      var (d, o) := Exec(begun, body, io);
      if !created then (d, o)
      else
        var (e, ended) := if o.Ok? then K.Commit(d, io) else K.Rollback(d);
        (e, if ended.Err? then Lift(ended) else o)
  }

  // ----- What a program means, nesting aside -----

  /** Whether no step fails. */
  predicate Succeeds(acts: seq<Action>)
    decreases acts, 1
  {
    acts == [] || (SucceedsOne(acts[0]) && Succeeds(acts[1..]))
  }

  predicate SucceedsOne(act: Action)
    decreases act, 0
  {
    match act
    case Save(_) => true
    case Fail => false
    case Transactionally(body) => Succeeds(body)
  }

  /** The records saved up to the first failing step. */
  function Saved(acts: seq<Action>): (r: seq<K.Record>)
    decreases acts, 1
  {
    if acts == [] then []
    else if SucceedsOne(acts[0]) then SavedOne(acts[0]) + Saved(acts[1..])
    else SavedOne(acts[0])
  }

  function SavedOne(act: Action): (r: seq<K.Record>)
    decreases act, 0
  {
    match act
    case Save(rec) => [rec]
    case Fail => []
    case Transactionally(body) => Saved(body)
  }

  function SaveEach(tx: K.Tx, recs: seq<K.Record>): (r: K.Tx)
    decreases recs
  {
    if recs == [] then tx else SaveEach(K.TxSave(tx, recs[0]), recs[1..])
  }

  /** The last record saved under each id. */
  function LastById(recs: seq<K.Record>): (m: K.Rows)
    ensures forall rec :: rec in recs ==> rec.id in m
    ensures forall id :: id in m ==> m[id] in recs
  {
    if recs == [] then map[]
    else LastById(recs[..|recs| - 1])[recs[|recs| - 1].id := recs[|recs| - 1]]
  }

  lemma {:induction false} SaveEachAppend(tx: K.Tx, a: seq<K.Record>, b: seq<K.Record>)
    ensures SaveEach(tx, a + b) == SaveEach(SaveEach(tx, a), b)
    decreases a
  {
    if a == [] {
      assert a + b == b;
    } else {
      assert (a + b)[1..] == a[1..] + b;
      SaveEachAppend(K.TxSave(tx, a[0]), a[1..], b);
    }
  }

  lemma {:induction false} SaveEachSnoc(tx: K.Tx, recs: seq<K.Record>)
    requires recs != []
    ensures SaveEach(tx, recs) == K.TxSave(SaveEach(tx, recs[..|recs| - 1]), recs[|recs| - 1])
  {
    var init, last := recs[..|recs| - 1], recs[|recs| - 1];
    SaveEachAppend(tx, init, [last]);
    assert recs == init + [last];
    assert [last][1..] == [];
  }

  lemma {:induction false} SaveEachFromEmpty(recs: seq<K.Record>)
    ensures SaveEach(K.EMPTY_TX, recs) == K.Tx(LastById(recs), {})
  {
    if recs != [] {
      var n := |recs| - 1;
      SaveEachFromEmpty(recs[..n]);
      SaveEachSnoc(K.EMPTY_TX, recs);
    }
  }

  lemma {:induction false} ExecAppend(db: K.Db, a: seq<Action>, b: seq<Action>, io: bool)
    ensures var (d, o) := Exec(db, a, io); Exec(db, a + b, io) == if o.Err? then (d, o) else Exec(d, b, io)
    decreases a
  {
    if a == [] {
      assert a + b == b;
    } else {
      assert (a + b)[1..] == a[1..] + b;
      ExecAppend(ExecOne(db, a[0], io).0, a[1..], b, io);
    }
  }

  lemma ExecSingle(db: K.Db, act: Action, io: bool)
    ensures Exec(db, [act], io) == ExecOne(db, act, io)
  {
    var (d, o) := ExecOne(db, act, io);
    assert [act][1..] == [];
    assert o.Ok? ==> o.value == ();
  }

  // ----- Inside an open transaction nothing is ended -----

  /**
    Run inside an open transaction, to any depth of nesting, an operation buffers exactly the
    records up to its first failure, and neither commits nor rolls back.
   */
  lemma {:induction false} JoinedOnlyBuffers(db: K.Db, acts: seq<Action>, io: bool)
    requires db.tx.Some?
    ensures Exec(db, acts, io) ==
            (db.(tx := Some(SaveEach(db.tx.value, Saved(acts)))), if Succeeds(acts) then Ok(()) else Err(Failed))
    decreases acts, 1
  {
    if acts != [] {
      JoinedOnlyBuffersOne(db, acts[0], io);
      var (d, o) := ExecOne(db, acts[0], io);
      if o.Ok? {
        JoinedOnlyBuffers(d, acts[1..], io);
        SaveEachAppend(db.tx.value, SavedOne(acts[0]), Saved(acts[1..]));
      }
    }
  }

  lemma {:induction false} JoinedOnlyBuffersOne(db: K.Db, act: Action, io: bool)
    requires db.tx.Some?
    ensures ExecOne(db, act, io) ==
            (db.(tx := Some(SaveEach(db.tx.value, SavedOne(act)))), if SucceedsOne(act) then Ok(()) else Err(Failed))
    decreases act, 0
  {
    match act
    case Save(rec) =>
      assert SaveEach(db.tx.value, [rec]) == SaveEach(K.TxSave(db.tx.value, rec), []);
    case Fail =>
    case Transactionally(body) => JoinedOnlyBuffers(db, body, io);
  }

  // ----- The outermost call decides -----

  /**
    Started with no open transaction, the outermost call either fails and leaves the database as
    it was, or has its commit refused and leaves the transaction open, or stores every record of
    the whole nest at once.
   */
  lemma OutermostDecides(db: K.Db, body: seq<Action>, io: bool)
    requires db.tx.None?
    ensures var (after, r) := ExecOne(db, Transactionally(body), io);
            var buffered := db.(tx := Some(K.Tx(LastById(Saved(body)), {})));
            if !Succeeds(body) then after == db && r == Err(Failed)
            else if K.Commit(buffered, io).1.Err? then after == buffered && r == Lift(K.Commit(buffered, io).1)
            else after == db.(conn := Some(db.conn.value + LastById(Saved(body)))) && r == Ok(())
  {
    var begun := K.Begin(db).0;
    JoinedOnlyBuffers(begun, body, io);
    SaveEachFromEmpty(Saved(body));
    var buffered := db.(tx := Some(K.Tx(LastById(Saved(body)), {})));
    assert Exec(begun, body, io).0 == buffered;
    if Succeeds(body) && K.Commit(buffered, io).1.Ok? {
      if buffered.tx.value == K.EMPTY_TX {
        assert db.conn.value + LastById(Saved(body)) == db.conn.value;
      } else {
        assert K.Committed(db.backend, db.conn.value, buffered.tx.value) == db.conn.value + LastById(Saved(body));
      }
    }
  }

  // ----- Adding an intermediate certificate -----

  datatype Response = Response(status: nat, body: Bytes)

  /** Every request was answered, with a status of success. */
  ghost predicate AllAnswered(uris: seq<Bytes>, answers: seq<Option<Response>>)
    requires |answers| == |uris|
  {
    forall i :: 0 <= i < |uris| ==> answers[i].Some? && 200 <= answers[i].value.status <= 299
  }

  /** The last request for this URI. */
  ghost predicate LastFor(uris: seq<Bytes>, u: Bytes, i: int) {
    0 <= i < |uris| && uris[i] == u && forall j :: i < j < |uris| ==> uris[j] != u
  }

  /**
    Fetches in order; a failed request or a status outside 200..299 ends it. Under each URI lies the body of the last
    answer to it.
   */
  function FetchCrls(uris: seq<Bytes>, answers: seq<Option<Response>>): (r: Option<map<Bytes, Bytes>>)
    requires |answers| == |uris|
    ensures r.Some? <==> AllAnswered(uris, answers)
    ensures r.Some? ==> forall u :: u in r.value <==> u in uris
    ensures r.Some? ==> forall u, i :: LastFor(uris, u, i) ==> r.value[u] == answers[i].value.body
  {
    if uris == [] then Some(map[])
    else
      var n := |uris| - 1;
      var before := FetchCrls(uris[..n], answers[..n]);
      assert forall u, i :: LastFor(uris, u, i) && i < n ==> LastFor(uris[..n], u, i);
      if before.None? || answers[n].None? || !(200 <= answers[n].value.status < 300) then None
      else Some(before.value[uris[n] := answers[n].value.body])
  }

  function CrlRecord(dp: Bytes, der: Bytes): (r: K.Record) {
    K.Record(K.EntityId(K.E2eiCrl, dp), der)
  }

  /** Validating one list may fail; saving it is a nested transactional call. */
  function SaveCrl(dp: Bytes, crl: Bytes, validate: Bytes -> Option<Bytes>): (r: seq<Action>) {
    if validate(crl).None? then [Fail] else [Transactionally([Save(CrlRecord(dp, validate(crl).value))])]
  }

  function SaveCrls(crls: map<Bytes, Bytes>, order: seq<Bytes>, validate: Bytes -> Option<Bytes>): (r: seq<Action>)
    requires forall u :: u in order ==> u in crls
  {
    if order == [] then []
    else
      var n := |order| - 1;
      SaveCrls(crls, order[..n], validate) + SaveCrl(order[n], crls[order[n]], validate)
  }

  lemma {:induction false} SaveCrlsAppend(
    crls: map<Bytes, Bytes>, a: seq<Bytes>, b: seq<Bytes>, validate: Bytes -> Option<Bytes>)
    requires forall u :: u in a + b ==> u in crls
    ensures (forall u :: u in a ==> u in crls) && SaveCrls(crls, a, validate) <= SaveCrls(crls, a + b, validate)
    decreases b
  {
    forall u | u in a ensures u in crls { assert u in a + b; }
    if b == [] {
      assert a + b == a;
    } else {
      var n := |b| - 1;
      assert (a + b)[..|a + b| - 1] == a + b[..n];
      assert forall u :: u in a + b[..n] ==> u in a + b;
      SaveCrlsAppend(crls, a, b[..n], validate);
    }
  }

  /** Walking one list further. */
  lemma SaveCrlsStep(
    db: K.Db, crls: map<Bytes, Bytes>, done: seq<Bytes>, dp: Bytes, validate: Bytes -> Option<Bytes>, io: bool)
    requires dp in crls && forall u :: u in done ==> u in crls
    ensures forall u :: u in done + [dp] ==> u in crls
    ensures var (d, o) := Exec(db, SaveCrls(crls, done, validate), io);
            o.Ok? ==>
              Exec(db, SaveCrls(crls, done + [dp], validate), io) == Exec(d, SaveCrl(dp, crls[dp], validate), io)
  {
    assert (done + [dp])[..|done|] == done;
    ExecAppend(db, SaveCrls(crls, done, validate), SaveCrl(dp, crls[dp], validate), io);
  }

  /** After a failure, the lists not yet walked do not matter. */
  lemma SaveCrlsStopped(
    db: K.Db, crls: map<Bytes, Bytes>, a: seq<Bytes>, b: seq<Bytes>, validate: Bytes -> Option<Bytes>, io: bool)
    requires forall u :: u in a + b ==> u in crls
    ensures forall u :: u in a ==> u in crls
    ensures Exec(db, SaveCrls(crls, a, validate), io).1.Err? ==>
              Exec(db, SaveCrls(crls, a + b, validate), io) == Exec(db, SaveCrls(crls, a, validate), io)
  {
    SaveCrlsAppend(crls, a, b, validate);
    var all, part := SaveCrls(crls, a + b, validate), SaveCrls(crls, a, validate);
    assert all == part + all[|part|..];
    ExecAppend(db, part, all[|part|..], io);
  }

  /** `uris` is None when the distribution points cannot be extracted; `order` is the hash map's order. */
  function AddIntermediate(cert: K.Record, uris: Option<seq<Bytes>>, answers: seq<Option<Response>>,
                           order: seq<Bytes>, validate: Bytes -> Option<Bytes>): (r: seq<Action>)
    requires uris.Some? ==> |answers| == |uris.value|
    requires uris.Some? && FetchCrls(uris.value, answers).Some? ==> forall u :: u in order ==> u in uris.value
  {
    [Save(cert)] +
    (if uris.None? || FetchCrls(uris.value, answers).None? then [Fail]
     else SaveCrls(FetchCrls(uris.value, answers).value, order, validate))
  }

  lemma {:induction false} SequenceMeaning(a: seq<Action>, b: seq<Action>)
    ensures Succeeds(a + b) <==> Succeeds(a) && Succeeds(b)
    ensures Saved(a + b) == if Succeeds(a) then Saved(a) + Saved(b) else Saved(a)
    decreases a
  {
    if a == [] {
      assert a + b == b;
    } else {
      assert (a + b)[1..] == a[1..] + b;
      SequenceMeaning(a[1..], b);
    }
  }

  lemma SaveCrlMeaning(dp: Bytes, crl: Bytes, validate: Bytes -> Option<Bytes>)
    ensures Succeeds(SaveCrl(dp, crl, validate)) <==> validate(crl).Some?
    ensures validate(crl).Some? ==> Saved(SaveCrl(dp, crl, validate)) == [CrlRecord(dp, validate(crl).value)]
  {
    if validate(crl).Some? {
      var save := Save(CrlRecord(dp, validate(crl).value));
      assert [Transactionally([save])][1..] == [] && [save][1..] == [];
      assert Succeeds([save]) && Saved([save]) == [save.rec];
      assert SucceedsOne(Transactionally([save]));
    }
  }

  /** If every list validates, each is saved under its distribution point. */
  lemma {:induction false} SaveCrlsMeaning(crls: map<Bytes, Bytes>, order: seq<Bytes>, validate: Bytes -> Option<Bytes>)
    requires forall u :: u in order ==> u in crls
    ensures Succeeds(SaveCrls(crls, order, validate)) <==> forall u :: u in order ==> validate(crls[u]).Some?
    ensures Succeeds(SaveCrls(crls, order, validate)) ==>
              forall rec :: rec in Saved(SaveCrls(crls, order, validate)) <==>
                            exists u :: u in order && rec == CrlRecord(u, validate(crls[u]).value)
  {
    if order != [] {
      var n := |order| - 1;
      var init, last := order[..n], order[n];
      assert order == init + [last];
      SaveCrlsMeaning(crls, init, validate);
      SequenceMeaning(SaveCrls(crls, init, validate), SaveCrl(last, crls[last], validate));
      SaveCrlMeaning(last, crls[last], validate);
    }
  }

  lemma {:induction false} SaveThen(rec: K.Record, rest: seq<Action>)
    ensures Succeeds([Save(rec)] + rest) <==> Succeeds(rest)
    ensures Saved([Save(rec)] + rest) == [rec] + Saved(rest)
  {
    assert ([Save(rec)] + rest)[1..] == rest;
  }

  /** What the whole operation saves, if no step of it fails. */
  lemma {:induction false} AddIntermediateMeaning(
    cert: K.Record, uris: Option<seq<Bytes>>, answers: seq<Option<Response>>,
    order: seq<Bytes>, validate: Bytes -> Option<Bytes>, rec: K.Record)
    requires uris.Some? ==> |answers| == |uris.value|
    requires uris.Some? && FetchCrls(uris.value, answers).Some? ==> forall u :: u in order <==> u in uris.value
    requires Succeeds(AddIntermediate(cert, uris, answers, order, validate))
    ensures uris.Some? && FetchCrls(uris.value, answers).Some?
    ensures forall u :: u in uris.value ==> validate(FetchCrls(uris.value, answers).value[u]).Some?
    ensures rec in Saved(AddIntermediate(cert, uris, answers, order, validate)) <==>
            || rec == cert
            || exists u ::
                 u in uris.value && rec == CrlRecord(u, validate(FetchCrls(uris.value, answers).value[u]).value)
  {
    SaveThen(cert, [Fail]);
    assert !Succeeds([Fail]);
    var crls := FetchCrls(uris.value, answers).value;
    SaveThen(cert, SaveCrls(crls, order, validate));
    SaveCrlsMeaning(crls, order, validate);
  }

  lemma {:induction false} SomeLast(uris: seq<Bytes>, u: Bytes) returns (i: nat)
    requires u in uris
    ensures LastFor(uris, u, i)
  {
    i := |uris| - 1;
    if uris[i] != u {
      i := SomeLast(uris[..i], u);
    }
  }

  /** Every list that was fetched is accepted. */
  ghost predicate AllValid(uris: seq<Bytes>, answers: seq<Option<Response>>, validate: Bytes -> Option<Bytes>)
    requires |answers| == |uris| && AllAnswered(uris, answers)
  {
    forall u, i :: LastFor(uris, u, i) ==> validate(answers[i].value.body).Some?
  }

  /**
    What lies under an id afterwards: the certificate, the accepted form of the list last fetched, or what was there.
   */
  ghost predicate Holds(rows: K.Rows, cert: K.Record, uris: seq<Bytes>, answers: seq<Option<Response>>,
                        validate: Bytes -> Option<Bytes>, id: K.EntityId, found: Option<K.Record>)
    requires |answers| == |uris| && AllAnswered(uris, answers) && AllValid(uris, answers, validate)
  {
    if id == cert.id then found == Some(cert)
    else if id.typ == K.E2eiCrl && id.key in uris then
      forall i :: LastFor(uris, id.key, i) ==>
        found == Some(K.Record(K.EntityId(K.E2eiCrl, id.key), validate(answers[i].value.body).value))
    else found == Lookup(rows, id)
  }

  /** Exactly when no step of the operation fails. */
  lemma AddIntermediateSucceedsIff(cert: K.Record, uris: Option<seq<Bytes>>, answers: seq<Option<Response>>,
                                   order: seq<Bytes>, validate: Bytes -> Option<Bytes>)
    requires uris.Some? ==> |answers| == |uris.value|
    requires uris.Some? && AllAnswered(uris.value, answers) ==> forall u :: u in order <==> u in uris.value
    ensures Succeeds(AddIntermediate(cert, uris, answers, order, validate)) <==>
            uris.Some? && AllAnswered(uris.value, answers) && AllValid(uris.value, answers, validate)
  {
    SaveThen(cert, [Fail]);
    assert !Succeeds([Fail]);
    if uris.Some? && AllAnswered(uris.value, answers) {
      var crls := FetchCrls(uris.value, answers).value;
      SaveThen(cert, SaveCrls(crls, order, validate));
      SaveCrlsMeaning(crls, order, validate);
      forall u | u in order && AllValid(uris.value, answers, validate) ensures validate(crls[u]).Some? {
        var i := SomeLast(uris.value, u);
      }
    }
  }

  lemma AddedRows(rows: K.Rows, cert: K.Record, uris: Option<seq<Bytes>>, answers: seq<Option<Response>>,
                  order: seq<Bytes>, validate: Bytes -> Option<Bytes>, id: K.EntityId)
    requires cert.id.typ == K.E2eiIntermediateCert
    requires uris.Some? ==> |answers| == |uris.value|
    requires uris.Some? && AllAnswered(uris.value, answers) ==> forall u :: u in order <==> u in uris.value
    requires Succeeds(AddIntermediate(cert, uris, answers, order, validate))
    ensures uris.Some? && AllAnswered(uris.value, answers) && AllValid(uris.value, answers, validate)
    ensures Holds(rows, cert, uris.value, answers, validate, id,
                  Lookup(rows + LastById(Saved(AddIntermediate(cert, uris, answers, order, validate))), id))
  {
    AddIntermediateSucceedsIff(cert, uris, answers, order, validate);
    var m, crls :=
      LastById(Saved(AddIntermediate(cert, uris, answers, order, validate))), FetchCrls(uris.value, answers).value;
    AddIntermediateMeaning(cert, uris, answers, order, validate, cert);
    if id.typ == K.E2eiCrl && id.key in uris.value {
      AddIntermediateMeaning(cert, uris, answers, order, validate, CrlRecord(id.key, validate(crls[id.key]).value));
    }
    if id in m {
      AddIntermediateMeaning(cert, uris, answers, order, validate, m[id]);
    }
  }

  /**
    Adding an intermediate certificate with no open transaction: it fails exactly when a distribution point cannot be
    read, a request goes unanswered or a list is refused, and then nothing is stored; otherwise exactly the certificate
    and the list of every distribution point are, in whatever order they were saved, unless the commit was refused.
   */
  lemma AddIntermediateAllOrNothing(db: K.Db, cert: K.Record, uris: Option<seq<Bytes>>, answers: seq<Option<Response>>,
                                    order: seq<Bytes>, validate: Bytes -> Option<Bytes>, io: bool, id: K.EntityId)
    requires db.tx.None? && db.conn.Some? && cert.id.typ == K.E2eiIntermediateCert
    requires uris.Some? ==> |answers| == |uris.value|
    requires uris.Some? && AllAnswered(uris.value, answers) ==> forall u :: u in order <==> u in uris.value
    ensures var (after, r) := ExecOne(db, Transactionally(AddIntermediate(cert, uris, answers, order, validate)), io);
            if !(uris.Some? && AllAnswered(uris.value, answers) && AllValid(uris.value, answers, validate))
            then after == db && r == Err(Failed)
            else match r
                 case Err(e) => e.Store? && after.conn == db.conn && after.tx.Some?
                 case Ok(_) => && after.tx.None? && after.conn.Some?
                               && Holds(db.conn.value, cert, uris.value, answers, validate, id,
                                  Lookup(after.conn.value, id))
  {
    var body := AddIntermediate(cert, uris, answers, order, validate);
    AddIntermediateSucceedsIff(cert, uris, answers, order, validate);
    OutermostDecides(db, body, io);
    if Succeeds(body) {
      AddedRows(db.conn.value, cert, uris, answers, order, validate, id);
    }
  }

  /** Joining a transaction that is already open, a failing operation leaves its first half behind in it. */
  lemma JoinedFailureLeavesFirstHalf(db: K.Db, cert: K.Record, validate: Bytes -> Option<Bytes>, io: bool)
    requires db.tx.Some?
    ensures var (after, r) := ExecOne(db, Transactionally(AddIntermediate(cert, None, [], [], validate)), io);
            r == Err(Failed) && after == K.Save(db, cert).0
  {
    var body := AddIntermediate(cert, None, [], [], validate);
    assert body == [Save(cert), Fail];
    assert body[1..] == [Fail];
    JoinedOnlyBuffers(db, body, io);
    assert Saved([Fail]) == [];
    assert Saved(body) == [cert] + [];
    assert SaveEach(db.tx.value, [cert]) == SaveEach(K.TxSave(db.tx.value, cert), []);
  }
}
