/** Removing key packages together with their private keys, one by one or for a whole credential. */
module KeyPackages {
  import opened Base
  import K = Keystore
  import D = Database

  /** The parts of a key package that matter here: its two public keys and the signature key of its leaf. */
  datatype Package = Package(init: Bytes, encryption: Bytes, signature: Bytes)

  /** Deserialization and hashing of a key package; both may fail. */
  datatype Codec = Codec(decode: Bytes -> Option<Package>, refOf: Package -> Option<Bytes>)

  datatype Error = Store(error: K.Error) | Undecodable | NoRef | NoCredential

  function PackageId(ref: Bytes): (id: K.EntityId) {
    K.EntityId(K.KeyPackage, ref)
  }

  function InitId(p: Package): (id: K.EntityId) {
    K.EntityId(K.HpkePrivateKey, p.init)
  }

  function EncryptionId(p: Package): (id: K.EntityId) {
    K.EntityId(K.EncryptionKeyPair, p.encryption)
  }

  // ----- Removal as a function of the database -----

  function Fault(r: Result<(), K.Error>): (e: Option<Error>) {
    if r.Err? then Some(Store(r.error)) else None
  }

  /** Three removals, stopping at the first that fails. */
  function RemoveThree(db: K.Db, a: K.EntityId, b: K.EntityId, e: K.EntityId): (r: (K.Db, Option<Error>))
    ensures r.0.conn == db.conn
  {
    var (d1, r1) := K.Remove(db, a);
    if Fault(r1).Some? then (d1, Fault(r1))
    else
      var (d2, r2) := K.Remove(d1, b);
      if Fault(r2).Some? then (d2, Fault(r2))
      else
        var (d3, r3) := K.Remove(d2, e);
        (d3, Fault(r3))
  }

  /** `remove_key_package` */
  function RemoveOne(c: Codec, db: K.Db, ref: Bytes): (r: (K.Db, Option<Error>))
    ensures r.0.conn == db.conn
  {
    var row := K.Get(db, PackageId(ref));
    if row.Err? then (db, Some(Store(row.error)))
    else if row.value.None? then (db, None)
    else
      var p := c.decode(row.value.value.value);
      if p.None? then (db, Some(Undecodable))
      else RemoveThree(db, PackageId(ref), InitId(p.value), EncryptionId(p.value))
  }

  /** Every package is attempted; the first error is kept. */
  function RemoveAll(c: Codec, db: K.Db, packages: seq<Package>): (r: (K.Db, Option<Error>))
    ensures r.0.conn == db.conn
  {
    if packages == [] then (db, None)
    else
      var n := |packages| - 1;
      var (before, first) := RemoveAll(c, db, packages[..n]);
      var ref := c.refOf(packages[n]);
      if ref.None? then (before, if first.Some? then first else Some(NoRef))
      else
        var (after, err) := RemoveOne(c, before, ref.value);
        (after, if first.Some? then first else err)
  }

  /** The decodable packages in a listing that carry the signature key, in order. */
  function Matching(c: Codec, listed: seq<K.Record>, signature: Bytes): (r: seq<Package>) {
    if listed == [] then []
    else
      var n := |listed| - 1;
      var p := c.decode(listed[n].value);
      Matching(c, listed[..n], signature) + if p.Some? && p.value.signature == signature then [p.value] else []
  }

  /** The packages are attempted in the order of the listing. */
  lemma {:induction false} MatchingInOrder(c: Codec, listed: seq<K.Record>, signature: Bytes, k: nat)
    requires k < |listed|
    ensures var p, rest := c.decode(listed[k].value), Matching(c, listed[k + 1..], signature);
            Matching(c, listed, signature) ==
            Matching(c, listed[..k], signature) +
              (if p.Some? && p.value.signature == signature then [p.value] else []) + rest
  {
    var n := |listed| - 1;
    var own := var p := c.decode(listed[k].value); if p.Some? && p.value.signature == signature then [p.value] else [];
    if k == n {
      assert listed[k + 1..] == [];
      assert Matching(c, listed, signature) == Matching(c, listed[..k], signature) + own + [];
    } else {
      MatchingInOrder(c, listed[..n], signature, k);
      assert listed[..n][..k] == listed[..k] && listed[..n][k + 1..] == listed[k + 1..][..n - k - 1];
      assert listed[k + 1..][n - k - 1] == listed[n];
    }
  }

  lemma {:induction false} MatchingContents(c: Codec, listed: seq<K.Record>, signature: Bytes, p: Package)
    ensures p in Matching(c, listed, signature) <==>
            p.signature == signature && exists r :: r in listed && c.decode(r.value) == Some(p)
  {
    if listed != [] {
      var n := |listed| - 1;
      assert listed == listed[..n] + [listed[n]];
      MatchingContents(c, listed[..n], signature, p);
    }
  }

  // ----- What is gone -----

  ghost predicate Open(db: K.Db) {
    db.conn.Some? && db.tx.Some? && K.Valid(db)
  }

  /** The rows that go with the package stored under a reference. */
  function GoneAt(c: Codec, view: K.Rows, ref: Bytes): (ids: set<K.EntityId>)
    ensures var id := K.EntityId(K.KeyPackage, ref);
            ids == if id in view && c.decode(view[id].value).Some?
                   then var p := c.decode(view[id].value).value;
                        {id, K.EntityId(K.HpkePrivateKey, p.init), K.EntityId(K.EncryptionKeyPair, p.encryption)}
                   else {}
  {
    if PackageId(ref) !in view || c.decode(view[PackageId(ref)].value).None? then {}
    else
      var p := c.decode(view[PackageId(ref)].value).value;
      {PackageId(ref), InitId(p), EncryptionId(p)}
  }

  function Gone(c: Codec, view: K.Rows, packages: seq<Package>): (ids: set<K.EntityId>) {
    if packages == [] then {}
    else
      var n := |packages| - 1;
      var ref := c.refOf(packages[n]);
      Gone(c, view, packages[..n]) + if ref.Some? then GoneAt(c, view, ref.value) else {}
  }

  lemma {:induction false} GoneContents(c: Codec, view: K.Rows, packages: seq<Package>, id: K.EntityId)
    ensures id in Gone(c, view, packages) <==>
            exists p :: p in packages && c.refOf(p).Some? && id in GoneAt(c, view, c.refOf(p).value)
  {
    if packages != [] {
      var n := |packages| - 1;
      assert packages == packages[..n] + [packages[n]];
      GoneContents(c, view, packages[..n], id);
    }
  }

  lemma RemoveFromView(db: K.Db, id: K.EntityId)
    requires Open(db)
    ensures var (next, result) := K.Remove(db, id);
            result.Ok? && Open(next) && K.View(next) == K.View(db) - {id}
  {
    var next := K.Remove(db, id).0;
    assert K.View(next) == K.View(db) - {id};
  }

  lemma RemoveThreeView(db: K.Db, a: K.EntityId, b: K.EntityId, e: K.EntityId)
    requires Open(db)
    ensures var (next, err) := RemoveThree(db, a, b, e);
            err.None? && Open(next) && K.View(next) == K.View(db) - {a, b, e}
  {
    var d1 := K.Remove(db, a).0;
    var d2 := K.Remove(d1, b).0;
    RemoveFromView(db, a);
    RemoveFromView(d1, b);
    RemoveFromView(d2, e);
    assert K.View(db) - {a} - {b} - {e} == K.View(db) - {a, b, e};
  }

  /** One removal takes exactly the package and its two private keys, or fails on a package it cannot read. */
  lemma RemoveOneView(c: Codec, db: K.Db, ref: Bytes)
    requires Open(db)
    ensures var (next, err) := RemoveOne(c, db, ref);
            var view := K.View(db);
            && Open(next) && K.View(next) == view - GoneAt(c, view, ref)
            && err == (if PackageId(ref) in view && c.decode(view[PackageId(ref)].value).None? then Some(Undecodable)
               else None)
  {
    var view := K.View(db);
    assert K.Get(db, PackageId(ref)) == Ok(Lookup(view, PackageId(ref)));
    if PackageId(ref) in view && c.decode(view[PackageId(ref)].value).Some? {
      var p := c.decode(view[PackageId(ref)].value).value;
      RemoveThreeView(db, PackageId(ref), InitId(p), EncryptionId(p));
    } else {
      assert view - {} == view;
    }
  }

  /** A package row that is gone took its private keys with it. */
  lemma GoneTogether(c: Codec, view: K.Rows, packages: seq<Package>, ref: Bytes)
    requires PackageId(ref) in Gone(c, view, packages)
    ensures GoneAt(c, view, ref) <= Gone(c, view, packages)
  {
    GoneContents(c, view, packages, PackageId(ref));
    var p :| p in packages && c.refOf(p).Some? && PackageId(ref) in GoneAt(c, view, c.refOf(p).value);
    assert c.refOf(p).value == ref;
    forall id | id in GoneAt(c, view, ref) ensures id in Gone(c, view, packages) {
      GoneContents(c, view, packages, id);
    }
  }

  /** Whether removing this package fails, judged by the rows before the whole run. */
  ghost predicate Fails(c: Codec, view: K.Rows, p: Package) {
    c.refOf(p).None? ||
    (PackageId(c.refOf(p).value) in view && c.decode(view[PackageId(c.refOf(p).value)].value).None?)
  }

  lemma SameGone(c: Codec, view: K.Rows, gone: set<K.EntityId>, ref: Bytes)
    requires PackageId(ref) in gone ==> GoneAt(c, view, ref) <= gone
    ensures view - gone - GoneAt(c, view - gone, ref) == view - (gone + GoneAt(c, view, ref))
  {
    if PackageId(ref) in gone {
      assert gone + GoneAt(c, view, ref) == gone;
      assert GoneAt(c, view - gone, ref) == {};
    } else {
      assert GoneAt(c, view - gone, ref) == GoneAt(c, view, ref);
    }
  }

  lemma GoneDecodes(c: Codec, view: K.Rows, packages: seq<Package>, ref: Bytes)
    ensures PackageId(ref) in Gone(c, view, packages) ==>
            PackageId(ref) in view && c.decode(view[PackageId(ref)].value).Some?
  {
    GoneContents(c, view, packages, PackageId(ref));
  }

  /** The rows left are the rows before without those of every package removed, in whichever order. */
  lemma {:induction false} RemoveAllView(c: Codec, db: K.Db, packages: seq<Package>)
    requires Open(db)
    ensures var next := RemoveAll(c, db, packages).0;
            Open(next) && K.View(next) == K.View(db) - Gone(c, K.View(db), packages)
  {
    var view := K.View(db);
    if packages == [] {
      assert view - {} == view;
    } else {
      var n := |packages| - 1;
      RemoveAllView(c, db, packages[..n]);
      var before := RemoveAll(c, db, packages[..n]).0;
      var gone, ref := Gone(c, view, packages[..n]), c.refOf(packages[n]);
      if ref.None? {
        assert gone + {} == gone;
      } else {
        RemoveOneView(c, before, ref.value);
        if PackageId(ref.value) in gone {
          GoneTogether(c, view, packages[..n], ref.value);
        }
        SameGone(c, view, gone, ref.value);
      }
    }
  }

  ghost predicate NoneFails(c: Codec, view: K.Rows, packages: seq<Package>) {
    forall p :: p in packages ==> !Fails(c, view, p)
  }

  lemma NoneFailsSnoc(c: Codec, view: K.Rows, packages: seq<Package>)
    requires packages != []
    ensures var n := |packages| - 1;
            NoneFails(c, view, packages) <==> NoneFails(c, view, packages[..n]) && !Fails(c, view, packages[n])
  {
    var n := |packages| - 1;
    assert packages == packages[..n] + [packages[n]];
    assert packages[n] in packages;
  }

  /** An error is reported exactly when, judged by the rows before, some removal must fail. */
  lemma {:induction false} RemoveAllFailsIff(c: Codec, db: K.Db, packages: seq<Package>)
    requires Open(db)
    ensures RemoveAll(c, db, packages).1.None? <==> NoneFails(c, K.View(db), packages)
  {
    var view := K.View(db);
    if packages != [] {
      var n := |packages| - 1;
      NoneFailsSnoc(c, view, packages);
      RemoveAllFailsIff(c, db, packages[..n]);
      RemoveAllView(c, db, packages[..n]);
      var before, ref := RemoveAll(c, db, packages[..n]).0, c.refOf(packages[n]);
      if ref.Some? {
        RemoveOneView(c, before, ref.value);
        GoneDecodes(c, view, packages[..n], ref.value);
        assert RemoveOne(c, before, ref.value).1.None? <==> !Fails(c, view, packages[n]);
      }
    }
  }

  // ----- Which error is reported -----

  /** What goes wrong with one package, judged by the rows before the whole run. */
  ghost function ErrorOf(c: Codec, view: K.Rows, inside: bool, p: Package): Option<Error> {
    var ref := c.refOf(p);
    if ref.None? then Some(NoRef)
    else
      var id := K.EntityId(K.KeyPackage, ref.value);
      if id !in view then None
      else if c.decode(view[id].value).None? then Some(Undecodable)
      else if inside then None
      else Some(Store(K.MutatingOperationWithoutTransaction))
  }

  /** The error is that of the first package that has one. */
  ghost predicate IsFirstError(
    c: Codec, view: K.Rows, inside: bool, packages: seq<Package>, err: Option<Error>)
  {
    if err.None? then forall i :: 0 <= i < |packages| ==> ErrorOf(c, view, inside, packages[i]).None?
    else exists i :: && 0 <= i < |packages| && err == ErrorOf(c, view, inside, packages[i])
                     && forall j :: 0 <= j < i ==> ErrorOf(c, view, inside, packages[j]).None?
  }

  lemma FirstErrorSnoc(
    c: Codec, view: K.Rows, inside: bool, packages: seq<Package>, first: Option<Error>, last: Option<Error>)
    requires packages != [] && IsFirstError(c, view, inside, packages[..|packages| - 1], first)
    requires last == ErrorOf(c, view, inside, packages[|packages| - 1])
    ensures IsFirstError(c, view, inside, packages, if first.Some? then first else last)
  {
    var init := packages[..|packages| - 1];
    assert forall i :: 0 <= i < |init| ==> init[i] == packages[i];
    if first.None? {
      forall i | 0 <= i < |init| ensures ErrorOf(c, view, inside, packages[i]).None? {
        assert ErrorOf(c, view, inside, init[i]).None?;
      }
    } else {
      var i :| && 0 <= i < |init| && first == ErrorOf(c, view, inside, init[i])
               && forall j :: 0 <= j < i ==> ErrorOf(c, view, inside, init[j]).None?;
      forall j | 0 <= j < i ensures ErrorOf(c, view, inside, packages[j]).None? {
        assert ErrorOf(c, view, inside, init[j]).None?;
      }
      assert first == ErrorOf(c, view, inside, packages[i]);
    }
  }

  /** Inside a transaction: the first package without a reference, or stored in a form that cannot be read. */
  lemma {:induction false} FirstErrorInside(c: Codec, db: K.Db, packages: seq<Package>)
    requires Open(db)
    ensures IsFirstError(c, K.View(db), true, packages, RemoveAll(c, db, packages).1)
  {
    if packages != [] {
      var n := |packages| - 1;
      var view, p := K.View(db), packages[n];
      FirstErrorInside(c, db, packages[..n]);
      RemoveAllView(c, db, packages[..n]);
      var (before, first) := RemoveAll(c, db, packages[..n]);
      if c.refOf(p).Some? {
        RemoveOneView(c, before, c.refOf(p).value);
        GoneDecodes(c, view, packages[..n], c.refOf(p).value);
        assert RemoveOne(c, before, c.refOf(p).value).1 == ErrorOf(c, view, true, p);
      }
      FirstErrorSnoc(c, view, true, packages, first, ErrorOf(c, view, true, p));
    }
  }

  /** Without a transaction nothing is removed, and a package that could be is an error too. */
  lemma {:induction false} FirstErrorOutside(c: Codec, db: K.Db, packages: seq<Package>)
    requires db.conn.Some? && db.tx.None?
    ensures RemoveAll(c, db, packages).0 == db
    ensures IsFirstError(c, K.View(db), false, packages, RemoveAll(c, db, packages).1)
  {
    if packages != [] {
      var n := |packages| - 1;
      FirstErrorOutside(c, db, packages[..n]);
      var p := packages[n];
      if c.refOf(p).Some? {
        assert RemoveOne(c, db, c.refOf(p).value) == (db, ErrorOf(c, K.View(db), false, p));
      }
      FirstErrorSnoc(c, K.View(db), false, packages, RemoveAll(c, db, packages[..n]).1,
        ErrorOf(c, K.View(db), false, p));
    }
  }

  // ----- What the caller wants -----

  /** Some readable package with this signature key is still there. */
  ghost predicate Remains(c: Codec, view: K.Rows, signature: Bytes) {
    exists ref :: Holds(c, view, ref, signature)
  }

  ghost predicate Holds(c: Codec, view: K.Rows, ref: Bytes, signature: Bytes) {
    && PackageId(ref) in view
    && c.decode(view[PackageId(ref)].value).Some? && c.decode(view[PackageId(ref)].value).value.signature == signature
  }

  /** Some package with this signature key has this reference. */
  ghost predicate IsRefOfOne(c: Codec, view: K.Rows, signature: Bytes, ref: Bytes) {
    exists other ::
      Holds(c, view, other, signature) && c.refOf(c.decode(view[PackageId(other)].value).value) == Some(ref)
  }

  /** Every package with this signature key is stored under the reference of one of them. */
  ghost predicate FiledByRef(c: Codec, view: K.Rows, signature: Bytes) {
    forall ref :: Holds(c, view, ref, signature) ==> IsRefOfOne(c, view, signature, ref)
  }

  lemma MatchingHeld(c: Codec, view: K.Rows, listed: seq<K.Record>, signature: Bytes, p: Package)
    requires K.Lists(listed, view, K.IsType(K.KeyPackage))
    ensures p in Matching(c, listed, signature) <==>
            exists ref :: Holds(c, view, ref, signature) && c.decode(view[PackageId(ref)].value) == Some(p)
  {
    MatchingContents(c, listed, signature, p);
    if p in Matching(c, listed, signature) {
      var r :| r in listed && c.decode(r.value) == Some(p);
      assert r.id == PackageId(r.id.key);
      assert Holds(c, view, r.id.key, signature);
    }
    if ref :| Holds(c, view, ref, signature) && c.decode(view[PackageId(ref)].value) == Some(p) {
      assert view[PackageId(ref)] in listed;
    }
  }

  lemma GoneIsRef(c: Codec, view: K.Rows, listed: seq<K.Record>, signature: Bytes, ref: Bytes)
    requires K.Lists(listed, view, K.IsType(K.KeyPackage))
    requires PackageId(ref) in Gone(c, view, Matching(c, listed, signature))
    ensures IsRefOfOne(c, view, signature, ref)
  {
    var packages := Matching(c, listed, signature);
    GoneContents(c, view, packages, PackageId(ref));
    var p :| p in packages && c.refOf(p).Some? && PackageId(ref) in GoneAt(c, view, c.refOf(p).value);
    MatchingHeld(c, view, listed, signature, p);
  }

  lemma RefIsGone(c: Codec, view: K.Rows, listed: seq<K.Record>, signature: Bytes, ref: Bytes)
    requires K.Lists(listed, view, K.IsType(K.KeyPackage))
    requires Holds(c, view, ref, signature) && IsRefOfOne(c, view, signature, ref)
    ensures PackageId(ref) in Gone(c, view, Matching(c, listed, signature))
  {
    var other :| Holds(c, view, other, signature) && c.refOf(c.decode(view[PackageId(other)].value).value) == Some(ref);
    var p := c.decode(view[PackageId(other)].value).value;
    MatchingHeld(c, view, listed, signature, p);
    assert PackageId(ref) in GoneAt(c, view, ref);
    GoneContents(c, view, Matching(c, listed, signature), PackageId(ref));
  }

  /** All packages of the credential are gone exactly when they were stored under their references. */
  lemma AllRemovedIff(c: Codec, db: K.Db, listed: seq<K.Record>, signature: Bytes)
    requires Open(db) && K.Lists(listed, K.View(db), K.IsType(K.KeyPackage))
    ensures !Remains(c, K.View(RemoveAll(c, db, Matching(c, listed, signature)).0), signature)
            <==> FiledByRef(c, K.View(db), signature)
  {
    var view, packages := K.View(db), Matching(c, listed, signature);
    var gone := Gone(c, view, packages);
    RemoveAllView(c, db, packages);
    assert forall ref :: Holds(c, view - gone, ref, signature) <==>
      Holds(c, view, ref, signature) && PackageId(ref) !in gone;
    forall ref | Holds(c, view, ref, signature)
      ensures PackageId(ref) in gone <==> IsRefOfOne(c, view, signature, ref)
    {
      if PackageId(ref) in gone { GoneIsRef(c, view, listed, signature, ref); }
      if IsRefOfOne(c, view, signature, ref) { RefIsGone(c, view, listed, signature, ref); }
    }
  }

  /** A readable package stored under the reference of one of the given packages. */
  ghost predicate RemovedRef(c: Codec, view: K.Rows, packages: seq<Package>, ref: Bytes) {
    && PackageId(ref) in view && c.decode(view[PackageId(ref)].value).Some?
    && exists q :: q in packages && c.refOf(q) == Some(ref)
  }

  lemma GoneByRef(c: Codec, view: K.Rows, packages: seq<Package>, id: K.EntityId)
    ensures id in Gone(c, view, packages) <==>
            exists ref :: RemovedRef(c, view, packages, ref) && id in GoneAt(c, view, ref)
  {
    GoneContents(c, view, packages, id);
    if id in Gone(c, view, packages) {
      var q :| q in packages && c.refOf(q).Some? && id in GoneAt(c, view, c.refOf(q).value);
      assert RemovedRef(c, view, packages, c.refOf(q).value);
    }
  }

  /** A private key survives exactly when no removed package uses it. */
  lemma PrivateKeySurvivesIff(c: Codec, db: K.Db, packages: seq<Package>, p: Package)
    requires Open(db)
    ensures var view, left := K.View(db), K.View(RemoveAll(c, db, packages).0);
            && (InitId(p) in left <==> InitId(p) in view && !exists ref ::
                  RemovedRef(c, view, packages, ref) && c.decode(view[PackageId(ref)].value).value.init == p.init)
            && (EncryptionId(p) in left <==> EncryptionId(p) in view && !exists ref ::
                  && RemovedRef(c, view, packages, ref)
                  && c.decode(view[PackageId(ref)].value).value.encryption == p.encryption)
  {
    var view := K.View(db);
    RemoveAllView(c, db, packages);
    GoneByRef(c, view, packages, InitId(p));
    GoneByRef(c, view, packages, EncryptionId(p));
    forall ref | RemovedRef(c, view, packages, ref)
      ensures InitId(p) in GoneAt(c, view, ref) <==> c.decode(view[PackageId(ref)].value).value.init == p.init
      ensures EncryptionId(p) in GoneAt(c, view, ref) <==>
              c.decode(view[PackageId(ref)].value).value.encryption == p.encryption
    {
    }
  }

  // ----- The operations on the database object -----

  method RemoveKeyPackage(c: Codec, db: D.Database, ref: Bytes) returns (err: Option<Error>)
    requires db.Valid()
    modifies db`transaction
    ensures db.Valid() && (db.State(), err) == RemoveOne(c, old(db.State()), ref)
  {
    var row := db.Get(PackageId(ref));
    if row.Err? {
      return Some(Store(row.error));
    }
    if row.value.None? {
      return None;
    }
    var p := c.decode(row.value.value.value);
    if p.None? {
      return Some(Undecodable);
    }
    var r := db.Remove(PackageId(ref));
    if Fault(r).None? {
      r := db.Remove(InitId(p.value));
      if Fault(r).None? {
        r := db.Remove(EncryptionId(p.value));
      }
    }
    return Fault(r);
  }

  /** `cached` and `persisted` are the orders in which the two tables hand out their rows. */
  method RemoveKeyPackagesFor(
    c: Codec, db: D.Database, signature: Option<Bytes>, cached: seq<K.Record>, persisted: seq<K.Record>
  ) returns (err: Option<Error>, ghost listed: seq<K.Record>)
    requires db.Valid()
    requires db.conn.Some? ==> K.Lists(persisted, db.conn.value, K.IsType(K.KeyPackage))
    requires db.transaction.Some? ==> K.Lists(cached, db.transaction.value.cache, K.IsType(K.KeyPackage))
    modifies db`transaction
    ensures db.Valid()
    ensures signature.None? ==> err == Some(NoCredential) && db.State() == old(db.State())
    ensures signature.Some? && db.conn.None? ==> err == Some(Store(K.Closed)) && db.State() == old(db.State())
    ensures signature.Some? && db.conn.Some? ==>
              && K.Lists(listed, K.View(old(db.State())), K.IsType(K.KeyPackage))
              && (db.State(), err) == RemoveAll(c, old(db.State()), Matching(c, listed, signature.value))
              && IsFirstError(c, K.View(old(db.State())), old(db.transaction).Some?,
                              Matching(c, listed, signature.value), err)
  {
    listed := [];
    if signature.None? {
      return Some(NoCredential), listed;
    }
    var loaded := db.LoadAll(K.KeyPackage, cached, persisted);
    if loaded.Err? {
      return Some(Store(loaded.error)), listed;
    }
    listed := loaded.value;
    var packages := Matching(c, loaded.value, signature.value);
    err := None;
    for i := 0 to |packages|
      invariant db.Valid()
      invariant (db.State(), err) == RemoveAll(c, old(db.State()), packages[..i])
    {
      assert packages[..i + 1][..i] == packages[..i];
      var ref := c.refOf(packages[i]);
      var failed := Some(NoRef);
      if ref.Some? {
        failed := RemoveKeyPackage(c, db, ref.value);
      }
      if err.None? {
        err := failed;
      }
    }
    assert packages[..|packages|] == packages;
    if old(db.transaction).Some? {
      FirstErrorInside(c, old(db.State()), packages);
    } else {
      FirstErrorOutside(c, old(db.State()), packages);
    }
  }
}
