/**
  Replay nonces over whole runs of the acquisition, against any server: which requests are sent,
  and with which nonce (sections 6.5 and 7.2 of RFC 8555).
 */
module Nonces {
  import opened Base
  import opened Acme
  import opened Acquisition

  datatype Kind = AccountKind | OrderKind | ReadKind | DpopKind | OidcKind | FinalizeKind

  function KindOf(p: Payload): (k: Kind) {
    match p
    case NewAccount => AccountKind
    case NewOrder(_, _, _, _) => OrderKind
    case PostAsGet => ReadKind
    case AccessToken(_) => DpopKind
    case IdToken(_) => OidcKind
    case SigningRequest(_) => FinalizeKind
  }

  const ORDERING := [AccountKind, OrderKind]
  const PROVING := [ReadKind, ReadKind, DpopKind]
  const REDEEMING := [OidcKind, FinalizeKind, ReadKind]

  predicate Signed(e: Entry) {
    e.Http? && e.request.Post?
  }

  /** The signed requests, in the order they were sent. */
  function Kinds(t: Trace): (k: seq<Kind>) {
    if t == [] then []
    else
      var n := |t| - 1;
      Kinds(t[..n]) + if Signed(t[n]) then [KindOf(t[n].request.jws.payload)] else []
  }

  /** The nonce in the last answer to an HTTP request. */
  function LastNonce(t: Trace): (nonce: Option<string>) {
    if t == [] then None
    else
      var n := |t| - 1;
      if !t[n].Http? then LastNonce(t[..n])
      else if t[n].response.None? then None
      else t[n].response.value.replayNonce
  }

  /** Every signed request carries the nonce of the answer immediately before it. */
  ghost predicate Threaded(t: Trace) {
    t == [] ||
    var n := |t| - 1;
    Threaded(t[..n]) && (Signed(t[n]) ==> LastNonce(t[..n]) == Some(t[n].request.jws.nonce))
  }

  /** No two answers carry the same nonce. */
  ghost predicate FreshNonces(t: Trace) {
    forall i, j :: 0 <= i < j < |t| && NonceAt(t, i).Some? ==> NonceAt(t, i) != NonceAt(t, j)
  }

  function NonceAt(t: Trace, i: nat): (nonce: Option<string>)
    requires i < |t|
  {
    if t[i].Http? && t[i].response.Some? then t[i].response.value.replayNonce else None
  }

  lemma {:induction false} LastNonceFrom(t: Trace) returns (k: nat)
    requires LastNonce(t).Some?
    ensures k < |t| && NonceAt(t, k) == LastNonce(t)
    ensures forall i :: k < i < |t| ==> !t[i].Http?
  {
    k := |t| - 1;
    if !t[k].Http? {
      k := LastNonceFrom(t[..|t| - 1]);
    }
  }

  lemma {:induction false} ThreadedPrefix(t: Trace, n: nat)
    requires Threaded(t) && n <= |t|
    ensures Threaded(t[..n])
  {
    if n < |t| {
      ThreadedPrefix(t[..|t| - 1], n);
      assert t[..|t| - 1][..n] == t[..n];
    } else {
      assert t[..n] == t;
    }
  }

  lemma {:induction false} ThreadedAt(t: Trace, n: nat)
    requires Threaded(t) && n < |t| && Signed(t[n])
    ensures LastNonce(t[..n]) == Some(t[n].request.jws.nonce)
  {
    ThreadedPrefix(t, n + 1);
    assert t[..n + 1][..n] == t[..n];
  }

  /** With fresh answers, no two requests carry the same nonce. */
  lemma {:induction false} NonceUsedOnce(t: Trace, i: nat, j: nat)
    requires Threaded(t) && FreshNonces(t)
    requires i < j < |t| && Signed(t[i]) && Signed(t[j])
    ensures t[i].request.jws.nonce != t[j].request.jws.nonce
  {
    ThreadedAt(t, i);
    ThreadedAt(t, j);
    var a := LastNonceFrom(t[..i]);
    var b := LastNonceFrom(t[..j]);
    assert t[..j][i] == t[i];
    assert a < i <= b;
    assert NonceAt(t, a) == NonceAt(t[..i], a) && NonceAt(t, b) == NonceAt(t[..j], b);
  }

  // ----- Pieces of a run -----

  /**
    A piece of a run that starts with a nonce: it only appends, sends a prefix of the expected requests
    (all of them when it succeeds), and threads the nonce to the next piece.
   */
  ghost predicate Piece(t: Trace, nonce: string, u: Trace, done: bool, next: Option<string>, kinds: seq<Kind>) {
    && t <= u && Kinds(t) <= Kinds(u) <= Kinds(t) + kinds
    && (done ==> Kinds(u) == Kinds(t) + kinds)
    && (Threaded(t) && LastNonce(t) == Some(nonce) ==> Threaded(u) && (next.Some? ==> LastNonce(u) == next))
  }

  lemma Compose(
    t: Trace, n: string, u: Trace, m: string, k1: seq<Kind>, v: Trace, done: bool, next: Option<string>,
    k2: seq<Kind>)
    requires Piece(t, n, u, true, Some(m), k1) && Piece(u, m, v, done, next, k2)
    ensures Piece(t, n, v, done, next, k1 + k2)
  {
    assert Kinds(t) + k1 + k2 == Kinds(t) + (k1 + k2);
  }

  lemma Stop(t: Trace, n: string, u: Trace, done: bool, next: Option<string>, k1: seq<Kind>, k2: seq<Kind>)
    requires Piece(t, n, u, done, next, k1)
    ensures Piece(t, n, u, false, None, k1 + k2)
  {
    assert Kinds(t) + k1 + k2 == Kinds(t) + (k1 + k2);
  }

  lemma Nothing(t: Trace, n: string, k: seq<Kind>)
    ensures Piece(t, n, t, false, None, k)
    ensures Piece(t, n, t, true, Some(n), [])
  {
    assert Kinds(t) + [] == Kinds(t);
  }

  /** A hook other than HTTP changes neither the requests nor the nonce. */
  lemma OtherHook(t: Trace, n: string, e: Entry)
    requires !e.Http?
    ensures Piece(t, n, t + [e], true, Some(n), [])
  {
    assert (t + [e])[..|t|] == t;
    assert Kinds(t) + [] == Kinds(t);
  }

  lemma SignedRequest(t: Trace, jws: Jws, response: Option<Response>)
    ensures var next := if response.None? then None else response.value.replayNonce;
            Piece(t, jws.nonce, t + [Http(Post(jws.url, jws), response)], true, next, [KindOf(jws.payload)])
  {
    assert (t + [Http(Post(jws.url, jws), response)])[..|t|] == t;
  }

  lemma AccountRequestPiece(
    w: World, l: Library, t: Trace, key: Key, account: Account, url: Url, payload: Payload, nonce: string)
    ensures var r := AccountRequest(w, l, t, key, account, url, payload, nonce);
            Piece(t, nonce, r.trace, r.result.Ok?,
                  if r.result.Ok? then Some(r.result.value.nonce) else None, [KindOf(payload)])
  {
    Nothing(t, nonce, [KindOf(payload)]);
    if AccountUrl(l, account).Ok? && l.signs(key) {
      var jws := Jws(nonce, url, Some(AccountUrl(l, account).value), payload, key);
      SignedRequest(t, jws, w.http(t, Post(url, jws)));
    }
  }

  // ----- First half -----

  /** Opening replaces the nonce and signs nothing. */
  lemma {:induction false} OpenThreads(w: World, l: Library, t: Trace, a: Initialized)
    ensures var r := Open(w, l, t, a);
            && t <= r.trace && Kinds(r.trace) == Kinds(t)
            && (Threaded(t) ==> Threaded(r.trace))
            && (r.result.Ok? ==> LastNonce(r.trace) == Some(r.result.value.nonce))
  {
    if l.validUrl(a.config.directoryUrl) {
      var get := Get(a.config.directoryUrl);
      var listed := w.http(t, get);
      var u := t + [Http(get, listed)];
      assert u[..|t|] == t;
      if listed.Some? && l.directory(listed.value.body).Some? {
        var head := Head(l.directory(listed.value.body).value.newNonce);
        var e := Http(head, w.http(u, head));
        assert (u + [e])[..|u|] == u;
      }
    }
  }

  lemma CreateAccountPiece(w: World, l: Library, t: Trace, a: Initialized, o: Opened)
    ensures var r := CreateAccount(w, l, t, a, o);
            Piece(t, o.nonce, r.trace, r.result.Ok?,
                  if r.result.Ok? then Some(r.result.value.0) else None, [AccountKind])
  {
    Nothing(t, o.nonce, [AccountKind]);
    if l.signs(a.acmeKey) {
      var jws := Jws(o.nonce, o.directory.newAccount, None, NewAccount, a.acmeKey);
      SignedRequest(t, jws, w.http(t, Post(jws.url, jws)));
    }
  }

  lemma CreateOrderPiece(w: World, l: Library, t: Trace, a: Initialized, url: Url, account: Account, nonce: string)
    ensures var r := CreateOrder(w, l, t, a, url, account, nonce);
            Piece(t, nonce, r.trace, r.result.Ok?, if r.result.Ok? then Some(r.result.value.0) else None, [OrderKind])
  {
    Nothing(t, nonce, [OrderKind]);
    var handle := l.qualify(a.config.handle, a.config.clientId.domain);
    if AccountUrl(l, account).Ok? && handle.Some? {
      var payload := NewOrder(a.config.clientId, handle.value, a.config.displayName, a.config.clientId.domain);
      AccountRequestPiece(w, l, t, a.acmeKey, account, url, payload, nonce);
    }
  }

  lemma GetChallengePiece(w: World, l: Library, t: Trace, a: Initialized, account: Account, url: Url, nonce: string)
    ensures var r := GetChallenge(w, l, t, a, account, url, nonce);
            Piece(t, nonce, r.trace, r.result.Ok?, if r.result.Ok? then Some(r.result.value.0) else None, [ReadKind])
  {
    AccountRequestPiece(w, l, t, a.acmeKey, account, url, PostAsGet, nonce);
  }

  lemma GetChallengesPiece(
    w: World, l: Library, t: Trace, a: Initialized, account: Account, order: Order, nonce: string)
    ensures var r := GetChallenges(w, l, t, a, account, order, nonce);
            Piece(t, nonce, r.trace, r.result.Ok?,
                  if r.result.Ok? then Some(r.result.value.nonce) else None, [ReadKind, ReadKind])
  {
    var first := GetChallenge(w, l, t, a, account, order.authorizations.0, nonce);
    GetChallengePiece(w, l, t, a, account, order.authorizations.0, nonce);
    assert [ReadKind] + [ReadKind] == [ReadKind, ReadKind];
    if first.result.Err? {
      Stop(t, nonce, first.trace, false, None, [ReadKind], [ReadKind]);
    } else {
      var n := first.result.value.0;
      var second := GetChallenge(w, l, first.trace, a, account, order.authorizations.1, n);
      GetChallengePiece(w, l, first.trace, a, account, order.authorizations.1, n);
      var next := if second.result.Ok? then Some(second.result.value.0) else None;
      Compose(t, nonce, first.trace, n, [ReadKind], second.trace, second.result.Ok?, next, [ReadKind]);
    }
  }

  lemma FetchAccessTokenPiece(w: World, l: Library, t: Trace, a: Initialized, challenge: Challenge, nonce: string)
    ensures Piece(t, nonce, FetchAccessToken(w, l, t, a, challenge).trace, true, Some(nonce), [])
  {
    var r := FetchAccessToken(w, l, t, a, challenge);
    var asked := t + [BackendNonce(w.backendNonce(t))];
    OtherHook(t, nonce, BackendNonce(w.backendNonce(t)));
    if r.trace != asked {
      OtherHook(asked, nonce, r.trace[|asked|]);
      assert r.trace == asked + [r.trace[|asked|]];
      Compose(t, nonce, asked, nonce, [], r.trace, true, Some(nonce), []);
    }
  }

  lemma AnswerChallengePiece(
    w: World, l: Library, t: Trace, a: Initialized, account: Account, challenge: Challenge, payload: Payload,
    nonce: string)
    ensures var r := AnswerChallenge(w, l, t, a, account, challenge, payload, nonce);
            Piece(t, nonce, r.trace, r.result.Ok?,
                  if r.result.Ok? then Some(r.result.value) else None, [KindOf(payload)])
  {
    AccountRequestPiece(w, l, t, a.acmeKey, account, challenge.url, payload, nonce);
  }

  /** Answering a challenge after something that kept the nonce. */
  lemma AnswerAfter(
    w: World, l: Library, t: Trace, u: Trace, a: Initialized, account: Account, challenge: Challenge, payload: Payload,
    nonce: string)
    requires Piece(t, nonce, u, true, Some(nonce), [])
    ensures var r := AnswerChallenge(w, l, u, a, account, challenge, payload, nonce);
            Piece(t, nonce, r.trace, r.result.Ok?,
                  if r.result.Ok? then Some(r.result.value) else None, [KindOf(payload)])
  {
    var r := AnswerChallenge(w, l, u, a, account, challenge, payload, nonce);
    AnswerChallengePiece(w, l, u, a, account, challenge, payload, nonce);
    var next := if r.result.Ok? then Some(r.result.value) else None;
    Compose(t, nonce, u, nonce, [], r.trace, r.result.Ok?, next, [KindOf(payload)]);
    assert [] + [KindOf(payload)] == [KindOf(payload)];
  }

  lemma AnswerDpopPiece(w: World, l: Library, t: Trace, a: Initialized, account: Account, c: Challenges)
    ensures var r := AnswerDpop(w, l, t, a, account, c);
            Piece(t, c.nonce, r.trace, r.result.Ok?, if r.result.Ok? then Some(r.result.value) else None, [DpopKind])
  {
    var token := FetchAccessToken(w, l, t, a, c.dpop);
    FetchAccessTokenPiece(w, l, t, a, c.dpop, c.nonce);
    if token.result.Err? {
      Stop(t, c.nonce, token.trace, true, Some(c.nonce), [], [DpopKind]);
      assert [] + [DpopKind] == [DpopKind];
    } else {
      AnswerAfter(w, l, t, token.trace, a, account, c.dpop, AccessToken(token.result.value), c.nonce);
    }
  }

  lemma ProvePossessionPiece(w: World, l: Library, t: Trace, a: Initialized, o: Ordered)
    ensures var r := ProvePossession(w, l, t, a, o);
            Piece(t, o.nonce, r.trace, r.result.Ok?, if r.result.Ok? then Some(r.result.value.nonce) else None, PROVING)
  {
    var challenges := GetChallenges(w, l, t, a, o.account, o.order, o.nonce);
    GetChallengesPiece(w, l, t, a, o.account, o.order, o.nonce);
    var fetches := [ReadKind, ReadKind];
    assert fetches + [DpopKind] == PROVING;
    if challenges.result.Err? {
      Stop(t, o.nonce, challenges.trace, false, None, fetches, [DpopKind]);
    } else {
      var c := challenges.result.value;
      var r := AnswerDpop(w, l, challenges.trace, a, o.account, c);
      AnswerDpopPiece(w, l, challenges.trace, a, o.account, c);
      var next := if r.result.Ok? then Some(r.result.value) else None;
      Compose(t, o.nonce, challenges.trace, c.nonce, fetches, r.trace, r.result.Ok?, next, [DpopKind]);
    }
  }

  /** A run from its very beginning, before any nonce is known. */
  ghost predicate FromStart(t: Trace, u: Trace, done: bool, next: Option<string>, kinds: seq<Kind>) {
    && t <= u && Kinds(t) <= Kinds(u) <= Kinds(t) + kinds
    && (done ==> Kinds(u) == Kinds(t) + kinds)
    && (Threaded(t) ==> Threaded(u) && (next.Some? ==> LastNonce(u) == next))
  }

  lemma Continue(
    t: Trace, u: Trace, m: string, k1: seq<Kind>, v: Trace, done: bool, next: Option<string>, k2: seq<Kind>)
    requires FromStart(t, u, true, Some(m), k1) && Piece(u, m, v, done, next, k2)
    ensures FromStart(t, v, done, next, k1 + k2)
  {
    assert Kinds(t) + k1 + k2 == Kinds(t) + (k1 + k2);
  }

  lemma Halt(t: Trace, u: Trace, done: bool, next: Option<string>, k1: seq<Kind>, k2: seq<Kind>)
    requires FromStart(t, u, done, next, k1)
    ensures FromStart(t, u, false, None, k1 + k2)
  {
    assert Kinds(t) + k1 + k2 == Kinds(t) + (k1 + k2);
  }

  lemma PlaceOrderThreads(w: World, l: Library, t: Trace, a: Initialized)
    ensures var r := PlaceOrder(w, l, t, a);
            FromStart(t, r.trace, r.result.Ok?, if r.result.Ok? then Some(r.result.value.nonce) else None, ORDERING)
  {
    var start := Open(w, l, t, a);
    OpenThreads(w, l, t, a);
    assert Kinds(t) + [] == Kinds(t);
    assert [] + [AccountKind] == [AccountKind] && [AccountKind] + [OrderKind] == ORDERING;
    if start.result.Err? {
      assert FromStart(t, start.trace, false, None, []);
      Halt(t, start.trace, false, None, [], ORDERING);
      assert [] + ORDERING == ORDERING;
    } else {
      var o := start.result.value;
      var account := CreateAccount(w, l, start.trace, a, o);
      CreateAccountPiece(w, l, start.trace, a, o);
      var next := if account.result.Ok? then Some(account.result.value.0) else None;
      Continue(t, start.trace, o.nonce, [], account.trace, account.result.Ok?, next, [AccountKind]);
      if account.result.Err? {
        Halt(t, account.trace, false, None, [AccountKind], [OrderKind]);
      } else {
        var (n, acct) := account.result.value;
        var order := CreateOrder(w, l, account.trace, a, o.directory.newOrder, acct, n);
        CreateOrderPiece(w, l, account.trace, a, o.directory.newOrder, acct, n);
        var last := if order.result.Ok? then Some(order.result.value.0) else None;
        Continue(t, account.trace, n, [AccountKind], order.trace, order.result.Ok?, last, [OrderKind]);
      }
    }
  }

  /** The first half, against any server; its result carries the nonce of the last answer. */
  lemma CompleteDpopThreads(w: World, l: Library, t: Trace, a: Initialized)
    ensures var r := CompleteDpop(w, l, t, a);
            FromStart(t, r.trace, r.result.Ok?,
                      if r.result.Ok? then Some(r.result.value.nonce) else None, ORDERING + PROVING)
  {
    var ordered := PlaceOrder(w, l, t, a);
    PlaceOrderThreads(w, l, t, a);
    if ordered.result.Err? {
      Halt(t, ordered.trace, false, None, ORDERING, PROVING);
    } else {
      var o := ordered.result.value;
      var r := ProvePossession(w, l, ordered.trace, a, o);
      ProvePossessionPiece(w, l, ordered.trace, a, o);
      var next := if r.result.Ok? then Some(r.result.value.nonce) else None;
      Continue(t, ordered.trace, o.nonce, ORDERING, r.trace, r.result.Ok?, next, PROVING);
    }
  }

  // ----- Second half -----

  lemma FetchIdTokenPiece(w: World, l: Library, t: Trace, c: Completed)
    ensures Piece(t, c.nonce, FetchIdToken(w, l, t, c).trace, true, Some(c.nonce), [])
  {
    Nothing(t, c.nonce, []);
    var r := FetchIdToken(w, l, t, c);
    if r.trace != t {
      OtherHook(t, c.nonce, r.trace[|t|]);
      assert r.trace == t + [r.trace[|t|]];
    }
  }

  lemma FinalizeOrderPiece(w: World, l: Library, t: Trace, c: Completed, nonce: string)
    ensures var r := FinalizeOrder(w, l, t, c, nonce);
            Piece(t, nonce, r.trace, r.result.Ok?,
                  if r.result.Ok? then Some(r.result.value.nonce) else None, [FinalizeKind])
  {
    Nothing(t, nonce, [FinalizeKind]);
    var id := Coalesce(l.identifier, c.order);
    if id.Ok? && l.csr(c.start.config.alg, id.value, c.start.signKey).Some? {
      var payload := SigningRequest(l.csr(c.start.config.alg, id.value, c.start.signKey).value);
      AccountRequestPiece(w, l, t, c.start.acmeKey, c.account, c.order.finalize, payload, nonce);
    }
  }

  lemma FetchCertificatesPiece(w: World, l: Library, t: Trace, c: Completed, f: Finalized)
    ensures var r := FetchCertificates(w, l, t, c, f);
            Piece(t, f.nonce, r.trace, r.result.Ok?, None, [ReadKind])
  {
    Nothing(t, f.nonce, [ReadKind]);
    var kid := AccountUrl(l, c.account);
    if kid.Ok? && l.signs(c.start.acmeKey) {
      var jws := Jws(f.nonce, f.certificate, Some(kid.value), PostAsGet, c.start.acmeKey);
      SignedRequest(t, jws, w.http(t, Post(f.certificate, jws)));
    }
  }

  lemma CollectCredentialPiece(w: World, l: Library, t: Trace, c: Completed, nonce: string)
    ensures var r := CollectCredential(w, l, t, c, nonce);
            Piece(t, nonce, r.trace, r.result.Ok?, None, [FinalizeKind, ReadKind])
  {
    var finalized := FinalizeOrder(w, l, t, c, nonce);
    FinalizeOrderPiece(w, l, t, c, nonce);
    assert [FinalizeKind] + [ReadKind] == [FinalizeKind, ReadKind];
    if finalized.result.Err? {
      Stop(t, nonce, finalized.trace, false, None, [FinalizeKind], [ReadKind]);
    } else {
      var f := finalized.result.value;
      var fetched := FetchCertificates(w, l, finalized.trace, c, f);
      FetchCertificatesPiece(w, l, finalized.trace, c, f);
      Compose(t, nonce, finalized.trace, f.nonce, [FinalizeKind], fetched.trace, fetched.result.Ok?, None, [ReadKind]);
    }
  }

  lemma RedeemTokenPiece(w: World, l: Library, t: Trace, c: Completed, idToken: string)
    ensures var r := RedeemToken(w, l, t, c, idToken);
            Piece(t, c.nonce, r.trace, r.result.Ok?, None, REDEEMING)
  {
    var answered := AnswerChallenge(w, l, t, c.start, c.account, c.oidc, IdToken(idToken), c.nonce);
    AnswerChallengePiece(w, l, t, c.start, c.account, c.oidc, IdToken(idToken), c.nonce);
    var rest := [FinalizeKind, ReadKind];
    assert [OidcKind] + rest == REDEEMING;
    if answered.result.Err? {
      Stop(t, c.nonce, answered.trace, false, None, [OidcKind], rest);
    } else {
      var n := answered.result.value;
      var r := CollectCredential(w, l, answered.trace, c, n);
      CollectCredentialPiece(w, l, answered.trace, c, n);
      Compose(t, c.nonce, answered.trace, n, [OidcKind], r.trace, r.result.Ok?, None, rest);
    }
  }

  lemma CompleteOidcPiece(w: World, l: Library, t: Trace, c: Completed)
    ensures var r := CompleteOidc(w, l, t, c);
            Piece(t, c.nonce, r.trace, r.result.Ok?, None, REDEEMING)
  {
    var token := FetchIdToken(w, l, t, c);
    FetchIdTokenPiece(w, l, t, c);
    assert [] + REDEEMING == REDEEMING;
    if token.result.Err? {
      Stop(t, c.nonce, token.trace, true, Some(c.nonce), [], REDEEMING);
    } else {
      var r := RedeemToken(w, l, token.trace, c, token.result.value);
      RedeemTokenPiece(w, l, token.trace, c, token.result.value);
      Compose(t, c.nonce, token.trace, c.nonce, [], r.trace, r.result.Ok?, None, REDEEMING);
    }
  }

  // ----- Whole runs -----

  /**
    Whatever the server and the hooks answer, the requests of an acquisition are a prefix of the eight
    of the protocol, in order, and all eight on success; and each carries the nonce of the answer before it.
   */
  lemma {:induction false} AcquisitionThreads(w: World, l: Library, t: Trace, a: Initialized)
    ensures var r := Acquire(w, l, t, a);
            && Kinds(t) <= Kinds(r.trace) <= Kinds(t) + (ORDERING + PROVING + REDEEMING)
            && (r.result.Ok? ==> Kinds(r.trace) == Kinds(t) + (ORDERING + PROVING + REDEEMING))
            && (Threaded(t) ==> Threaded(r.trace))
  {
    var half := CompleteDpop(w, l, t, a);
    CompleteDpopThreads(w, l, t, a);
    if half.result.Err? {
      Halt(t, half.trace, false, None, ORDERING + PROVING, REDEEMING);
    } else {
      var c := half.result.value;
      var r := CompleteOidc(w, l, half.trace, c);
      CompleteOidcPiece(w, l, half.trace, c);
      Continue(t, half.trace, c.nonce, ORDERING + PROVING, r.trace, r.result.Ok?, None, REDEEMING);
    }
  }

  lemma {:induction false} QuietKeepsNonce(t: Trace, quiet: Trace)
    requires forall e :: e in quiet ==> !e.Http?
    ensures LastNonce(t + quiet) == LastNonce(t)
    ensures Threaded(t) ==> Threaded(t + quiet)
  {
    if quiet == [] {
      assert t + quiet == t;
    } else {
      var n := |quiet| - 1;
      QuietKeepsNonce(t, quiet[..n]);
      assert (t + quiet)[..|t + quiet| - 1] == t + quiet[..n];
      assert (t + quiet)[|t + quiet| - 1] == quiet[n];
    }
  }

  /** Resuming from the snapshot in place of the original continues the same chain of nonces. */
  lemma {:induction false} ResumedThreads(w: World, l: Library, t: Trace, a: Initialized, quiet: Trace)
    requires Threaded(t) && CompleteDpop(w, l, t, a).result.Ok?
    requires var c := CompleteDpop(w, l, t, a).result.value; l.deserialize(l.serialize(c)) == Some(c)
    requires forall e :: e in quiet ==> !e.Http?
    ensures var half := CompleteDpop(w, l, t, a);
            var r := Resume(w, l, half.trace + quiet, l.serialize(half.result.value));
            Threaded(r.trace) && r == CompleteOidc(w, l, half.trace + quiet, half.result.value)
  {
    var half := CompleteDpop(w, l, t, a);
    CompleteDpopThreads(w, l, t, a);
    QuietKeepsNonce(half.trace, quiet);
    CompleteOidcPiece(w, l, half.trace + quiet, half.result.value);
  }

  lemma AnswerSent(
    w: World, l: Library, t: Trace, a: Initialized, account: Account, challenge: Challenge, payload: Payload,
    nonce: string)
    ensures var r := AnswerChallenge(w, l, t, a, account, challenge, payload, nonce);
            if AccountUrl(l, account).Err? || !l.signs(a.acmeKey) then r.trace == t && r.result.Err?
            else |r.trace| == |t| + 1 && t <= r.trace && Signed(r.trace[|t|]) && r.trace[|t|].request.jws.nonce == nonce
  {
  }

  lemma RedeemExtends(w: World, l: Library, t: Trace, c: Completed, idToken: string)
    ensures var answered := AnswerChallenge(w, l, t, c.start, c.account, c.oidc, IdToken(idToken), c.nonce);
            var u := RedeemToken(w, l, t, c, idToken).trace;
            answered.trace <= u && (answered.result.Err? ==> u == answered.trace)
  {
    var answered := AnswerChallenge(w, l, t, c.start, c.account, c.oidc, IdToken(idToken), c.nonce);
    if answered.result.Ok? {
      CollectCredentialPiece(w, l, answered.trace, c, answered.result.value);
    }
  }

  lemma FirstRequestSent(w: World, l: Library, t: Trace, c: Completed, idToken: string)
    ensures var u := RedeemToken(w, l, t, c, idToken).trace;
            && t <= u && (u == t || (|t| < |u| && Signed(u[|t|]) && u[|t|].request.jws.nonce == c.nonce))
            && (u != t <==> AccountUrl(l, c.account).Ok? && l.signs(c.start.acmeKey))
  {
    AnswerSent(w, l, t, c.start, c.account, c.oidc, IdToken(idToken), c.nonce);
    RedeemExtends(w, l, t, c, idToken);
  }

  /** At most one quiet step, then at most one run of requests that starts with the given nonce. */
  ghost predicate StartsWith(t: Trace, mid: Trace, u: Trace, nonce: string) {
    && (mid == t || (|mid| == |t| + 1 && t <= mid && !mid[|t|].Http?))
    && mid <= u
    && (u == mid || (|mid| < |u| && Signed(u[|mid|]) && u[|mid|].request.jws.nonce == nonce))
  }

  /** The guards before the first request: a thumbprint, an identity token, an account URL and a key that signs. */
  predicate WillSend(w: World, l: Library, t: Trace, c: Completed) {
    && l.thumbprint(c.start.acmeKey).Some? && w.authenticate(t, l.serialize(c)).Some?
    && AccountUrl(l, c.account).Ok? && l.signs(c.start.acmeKey)
  }

  lemma OidcStartsWith(w: World, l: Library, t: Trace, c: Completed) returns (mid: Trace)
    ensures StartsWith(t, mid, CompleteOidc(w, l, t, c).trace, c.nonce)
    ensures CompleteOidc(w, l, t, c).trace != mid <==> WillSend(w, l, t, c)
  {
    var token := FetchIdToken(w, l, t, c);
    mid := token.trace;
    if token.result.Ok? {
      FirstRequestSent(w, l, token.trace, c, token.result.value);
    }
  }

  lemma {:induction false} KindsGrow(t: Trace, n: nat)
    requires n <= |t|
    ensures |Kinds(t[..n])| <= |Kinds(t)|
  {
    if n < |t| {
      KindsGrow(t[..|t| - 1], n);
      assert t[..|t| - 1][..n] == t[..n];
    } else {
      assert t[..n] == t;
    }
  }

  lemma {:induction false} KindsSnoc(t: Trace, e: Entry)
    ensures Kinds(t + [e]) == Kinds(t) + if Signed(e) then [KindOf(e.request.jws.payload)] else []
  {
    assert (t + [e])[..|t|] == t;
  }

  lemma {:induction false} SignedGrows(t: Trace, u: Trace)
    requires t <= u && |t| < |u| && Signed(u[|t|])
    ensures |Kinds(t)| < |Kinds(u)|
  {
    KindsSnoc(t, u[|t|]);
    assert t + [u[|t|]] == u[..|t| + 1];
    KindsGrow(u, |t| + 1);
  }

  lemma {:induction false} MidKeeps(t: Trace, mid: Trace, u: Trace, nonce: string)
    requires StartsWith(t, mid, u, nonce)
    ensures LastNonce(mid) == LastNonce(t) && Kinds(mid) == Kinds(t)
    ensures Threaded(t) ==> Threaded(mid)
  {
    assert mid[..|t|] == t;
  }

  /** A run that signs anything uses the nonce of its state first. */
  lemma {:induction false} FirstRequestNonce(t: Trace, mid: Trace, u: Trace, nonce: string)
    requires StartsWith(t, mid, u, nonce) && u != mid
    ensures |mid| < |u| && Signed(u[|mid|]) && u[|mid|].request.jws.nonce == nonce
    ensures Threaded(u) ==> LastNonce(t) == Some(nonce)
  {
    MidKeeps(t, mid, u, nonce);
    if Threaded(u) {
      ThreadedAt(u, |mid|);
      assert u[..|mid|] == mid;
    }
  }

  /** The second half signs something exactly when its guards hold. */
  lemma {:induction false} SendsIff(w: World, l: Library, t: Trace, c: Completed)
    ensures Kinds(CompleteOidc(w, l, t, c).trace) != Kinds(t) <==> WillSend(w, l, t, c)
  {
    var u := CompleteOidc(w, l, t, c).trace;
    var mid := OidcStartsWith(w, l, t, c);
    MidKeeps(t, mid, u, c.nonce);
    if WillSend(w, l, t, c) {
      SignedGrows(mid, u);
    }
  }

  /**
    Running the second half twice from the same state: the nonces stay threaded exactly when the guards of the
    second run stop it before its first request, or the server happened to give the first nonce out again.
   */
  lemma {:induction false} RunTwiceIff(w: World, l: Library, t: Trace, c: Completed)
    requires Threaded(t) && LastNonce(t) == Some(c.nonce)
    ensures var first := CompleteOidc(w, l, t, c).trace;
            Threaded(CompleteOidc(w, l, first, c).trace) <==>
            !WillSend(w, l, first, c) || LastNonce(first) == Some(c.nonce)
  {
    var first := CompleteOidc(w, l, t, c).trace;
    var second := CompleteOidc(w, l, first, c).trace;
    CompleteOidcPiece(w, l, t, c);
    CompleteOidcPiece(w, l, first, c);
    var mid := OidcStartsWith(w, l, first, c);
    MidKeeps(first, mid, second, c.nonce);
    if WillSend(w, l, first, c) {
      FirstRequestNonce(first, mid, second, c.nonce);
    }
  }

  /** If both runs get past their guards, two requests carry the same nonce. */
  lemma {:induction false} RunTwiceReuses(w: World, l: Library, t: Trace, c: Completed) returns (i: nat, j: nat)
    requires WillSend(w, l, t, c) && WillSend(w, l, CompleteOidc(w, l, t, c).trace, c)
    ensures var second := CompleteOidc(w, l, CompleteOidc(w, l, t, c).trace, c).trace;
            i < j < |second| && Signed(second[i]) && Signed(second[j]) &&
            second[i].request.jws.nonce == second[j].request.jws.nonce
  {
    var first := CompleteOidc(w, l, t, c).trace;
    var second := CompleteOidc(w, l, first, c).trace;
    var before := OidcStartsWith(w, l, t, c);
    var between := OidcStartsWith(w, l, first, c);
    FirstRequestNonce(t, before, first, c.nonce);
    FirstRequestNonce(first, between, second, c.nonce);
    i, j := |before|, |between|;
    assert between[i] == first[i] && second[i] == between[i];
  }
}
