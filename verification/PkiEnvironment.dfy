/** The object behind `PkiModel`: operations that open a transaction on the shared database, or join one. */
module PkiEnvironment {
  import opened Base
  import opened PkiModel
  import K = Keystore
  import D = Database

  /** Asks each URI in turn; `answers` is what the HTTP hook returns. */
  method FetchCrlList(uris: seq<Bytes>, answers: seq<Option<Response>>) returns (r: Option<map<Bytes, Bytes>>)
    requires |answers| == |uris|
    ensures r == FetchCrls(uris, answers)
    ensures r.Some? <==> AllAnswered(uris, answers)
    ensures r.Some? ==> forall u, i :: LastFor(uris, u, i) ==> u in r.value && r.value[u] == answers[i].value.body
  {
    var crls: map<Bytes, Bytes> := map[];
    for i := 0 to |uris|
      invariant Some(crls) == FetchCrls(uris[..i], answers[..i])
    {
      assert uris[..i + 1][..i] == uris[..i] && answers[..i + 1][..i] == answers[..i];
      if answers[i].None? || !(200 <= answers[i].value.status < 300) {
        FetchFailureStays(uris, answers, i + 1);
        return None;
      }
      crls := crls[uris[i] := answers[i].value.body];
    }
    assert uris[..|uris|] == uris && answers[..|uris|] == answers;
    return Some(crls);
  }

  lemma {:induction false} FetchFailureStays(uris: seq<Bytes>, answers: seq<Option<Response>>, n: nat)
    requires |answers| == |uris| && n <= |uris| && FetchCrls(uris[..n], answers[..n]).None?
    ensures FetchCrls(uris, answers).None?
    decreases |uris|
  {
    if n == |uris| {
      assert uris[..n] == uris && answers[..n] == answers;
    } else {
      var last := |uris| - 1;
      assert uris[..last][..n] == uris[..n] && answers[..last][..n] == answers[..n];
      FetchFailureStays(uris[..last], answers[..last], n);
    }
  }

  class PkiEnvironment {
    const database: D.Database

    constructor (database: D.Database)
      ensures this.database == database
    {
      this.database := database;
    }

    /** Only the call that opened the transaction ends it. */
    method EndTransaction(created: bool, outcome: Result<(), Error>, io: bool) returns (r: Result<(), Error>)
      requires database.Valid()
      modifies database
      ensures database.Valid()
      ensures !created ==> database.State() == old(database.State()) && r == outcome
      ensures created ==>
                var (after, ended) :=
                  if outcome.Ok? then K.Commit(old(database.State()), io) else K.Rollback(old(database.State()));
                database.State() == after && r == if ended.Err? then Lift(ended) else outcome
    {
      if created {
        var ended: Result<(), K.Error>;
        if outcome.Ok? {
          ended := database.CommitTransaction(io);
        } else {
          ended := database.RollbackTransaction();
        }
        if ended.Err? {
          return Err(Store(ended.error));
        }
      }
      return outcome;
    }

    method SaveCrl(dp: Bytes, crl: Bytes, validate: Bytes -> Option<Bytes>, io: bool) returns (r: Result<(), Error>)
      requires database.Valid()
      modifies database
      ensures database.Valid()
      ensures (database.State(), r) == Exec(old(database.State()), PkiModel.SaveCrl(dp, crl, validate), io)
    {
      ghost var start := database.State();
      var der := validate(crl);
      if der.None? {
        ExecSingle(start, Fail, io);
        return Err(Failed);
      }
      ghost var save := Save(CrlRecord(dp, der.value));
      ExecSingle(start, Transactionally([save]), io);
      var opening := database.TryNewImmediateTransaction();
      ExecSingle(database.State(), save, io);
      var saved := database.Save(CrlRecord(dp, der.value));
      r := EndTransaction(opening.Ok?, Lift(saved), io);
    }

    /** `order` reports the order in which the hash map of lists was walked. */
    method AddIntermediateCert(cert: K.Record, uris: Option<seq<Bytes>>, answers: seq<Option<Response>>,
                               validate: Bytes -> Option<Bytes>, io: bool)
      returns (r: Result<(), Error>, ghost order: seq<Bytes>)
      requires database.Valid()
      requires uris.Some? ==> |answers| == |uris.value|
      modifies database
      ensures database.Valid()
      ensures uris.Some? && FetchCrls(uris.value, answers).Some? ==> forall u :: u in order <==> u in uris.value
      ensures (database.State(), r) ==
              ExecOne(old(database.State()), Transactionally(AddIntermediate(cert, uris, answers, order, validate)), io)
    {
      var opening := database.TryNewImmediateTransaction();
      var outcome: Result<(), Error>;
      outcome, order := SaveCertAndCrls(cert, uris, answers, validate, io);
      r := EndTransaction(opening.Ok?, outcome, io);
    }

    method SaveCertAndCrls(cert: K.Record, uris: Option<seq<Bytes>>, answers: seq<Option<Response>>,
                           validate: Bytes -> Option<Bytes>, io: bool)
      returns (r: Result<(), Error>, ghost order: seq<Bytes>)
      requires database.Valid()
      requires uris.Some? ==> |answers| == |uris.value|
      modifies database
      ensures database.Valid()
      ensures uris.Some? && FetchCrls(uris.value, answers).Some? ==> forall u :: u in order <==> u in uris.value
      ensures (database.State(), r) ==
              Exec(old(database.State()), AddIntermediate(cert, uris, answers, order, validate), io)
    {
      ghost var start := database.State();
      var saved := database.Save(cert);
      ghost var mid := database.State();
      ExecSingle(start, Save(cert), io);
      order := [];
      if uris.None? {
        ExecAppend(start, [Save(cert)], [Fail], io);
        ExecSingle(mid, Fail, io);
        return if saved.Ok? then Err(Failed) else Err(Store(saved.error)), order;
      }
      var crls := FetchCrlList(uris.value, answers);
      if crls.None? {
        ExecAppend(start, [Save(cert)], [Fail], io);
        ExecSingle(mid, Fail, io);
        return if saved.Ok? then Err(Failed) else Err(Store(saved.error)), order;
      }
      if saved.Err? {
        order := SeqOf(crls.value.Keys);
        ExecAppend(start, [Save(cert)], SaveCrls(crls.value, order, validate), io);
        return Err(Store(saved.error)), order;
      }
      r, order := SaveCrlMap(crls.value, validate, io);
      ExecAppend(start, [Save(cert)], SaveCrls(crls.value, order, validate), io);
    }

    method SaveCrlMap(crls: map<Bytes, Bytes>, validate: Bytes -> Option<Bytes>, io: bool)
      returns (r: Result<(), Error>, ghost order: seq<Bytes>)
      requires database.Valid()
      modifies database
      ensures database.Valid() && (forall u :: u in order <==> u in crls)
      ensures (database.State(), r) == Exec(old(database.State()), SaveCrls(crls, order, validate), io)
    {
      ghost var start := database.State();
      var todo := crls.Keys;
      order := [];
      while todo != {}
        invariant database.Valid() && todo <= crls.Keys
        invariant forall u :: u in order <==> u in crls && u !in todo
        invariant (database.State(), Ok(())) == Exec(start, SaveCrls(crls, order, validate), io)
        decreases todo
      {
        var dp :| dp in todo;
        SaveCrlsStep(start, crls, order, dp, validate, io);
        order := order + [dp];
        r := SaveCrl(dp, crls[dp], validate, io);
        todo := todo - {dp};
        if r.Err? {
          ghost var rest := SeqOf(todo);
          SaveCrlsStopped(start, crls, order, rest, validate, io);
          order := order + rest;
          return;
        }
      }
      return Ok(()), order;
    }
  }
}
