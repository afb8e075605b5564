/** What a run of the acquisition can end with, whatever the server and the hooks answer. */
module Outcomes {
  import opened Base
  import opened Acme
  import opened Acquisition
  import ClientIds

  // ----- Success -----

  /** The certificate is for the signing key, and says exactly what the configuration says. */
  ghost predicate Matches(l: Library, a: Initialized, leaf: Certificate) {
    && l.certificateAlg(leaf) == a.config.alg
    && l.publicKey(a.config.alg, a.signKey) == Some(l.certificateKey(leaf))
    && exists id :: l.identity(leaf) == Some(id) && Names(l, a.config, id)
  }

  ghost predicate Names(l: Library, c: Config, id: Identity) {
    && l.clientId(id.clientId) == Some(c.clientId)
    && id.displayName == c.displayName
    && l.qualify(c.handle, c.domain) == Some(id.handle)
    && id.domain == c.domain
  }

  lemma LeafAcceptedIff(l: Library, a: Initialized, leaf: Certificate)
    ensures LeafFault(l, a, leaf).None? <==> Matches(l, a, leaf)
  {
    if LeafFault(l, a, leaf).None? {
      assert Names(l, a.config, l.identity(leaf).value);
    }
  }

  /** One comparison with the configuration, and the error it stands for. */
  datatype Check = Check(passes: bool, fault: Error)

  ghost function LeafChecks(l: Library, a: Initialized, leaf: Certificate, id: Identity): seq<Check> {
    var c := a.config;
    [ Check(l.certificateAlg(leaf) == c.alg, AlgorithmMismatch),
      Check(l.publicKey(c.alg, a.signKey) == Some(l.certificateKey(leaf)), KeyMismatch),
      Check(l.clientId(id.clientId).Some?, InvalidClientId),
      Check(l.clientId(id.clientId) == Some(c.clientId), ClientIdMismatch),
      Check(id.displayName == c.displayName, DisplayNameMismatch),
      Check(l.qualify(c.handle, c.domain) == Some(id.handle), HandleMismatch),
      Check(id.domain == c.domain, DomainMismatch) ]
  }

  /** A certificate that does not match is refused with the first mismatch. */
  lemma FirstMismatch(l: Library, a: Initialized, leaf: Certificate, id: Identity, k: nat)
    requires l.publicKey(a.config.alg, a.signKey).Some? && l.qualify(a.config.handle, a.config.domain).Some?
    requires l.identity(leaf) == Some(id) && k < 7 && !LeafChecks(l, a, leaf, id)[k].passes
    requires forall j :: 0 <= j < k ==> LeafChecks(l, a, leaf, id)[j].passes
    ensures LeafFault(l, a, leaf) == Some(LeafChecks(l, a, leaf, id)[k].fault)
  {
    var checks := LeafChecks(l, a, leaf, id);
    assert k > 0 ==> checks[0].passes;
    assert k > 1 ==> checks[1].passes;
    assert k > 2 ==> checks[2].passes;
    assert k > 3 ==> checks[3].passes;
    assert k > 4 ==> checks[4].passes;
    assert k > 5 ==> checks[5].passes;
  }

  /** Exactly which chains are accepted. */
  lemma ChainAcceptedIff(l: Library, a: Initialized, anchors: seq<Certificate>, certs: seq<Certificate>)
    ensures ChainFault(l, a, anchors, certs).None? <==>
            && certs != [] && l.validChain(anchors, certs[1..], certs[0])
            && Matches(l, a, certs[0]) && l.keyIdentifiers(certs[0])
  {
    if certs != [] {
      LeafAcceptedIff(l, a, certs[0]);
    }
  }

  /** A credential is only ever returned with a validated, matching, non-empty chain. */
  lemma OidcSuccess(w: World, l: Library, t: Trace, c: Completed)
    requires CompleteOidc(w, l, t, c).result.Ok?
    ensures var r := CompleteOidc(w, l, t, c);
            var chain := r.result.value.chain;
            && r.result.value.key == c.start.signKey && chain != []
            && l.validChain(w.anchors(r.trace), chain[1..], chain[0]) && Matches(l, c.start, chain[0])
  {
    var r := CompleteOidc(w, l, t, c);
    ChainAcceptedIff(l, c.start, w.anchors(r.trace), r.result.value.chain);
  }

  lemma DpopKeepsStart(w: World, l: Library, t: Trace, a: Initialized)
    requires CompleteDpop(w, l, t, a).result.Ok?
    ensures CompleteDpop(w, l, t, a).result.value.start == a
  {
  }

  lemma AcquisitionSuccess(w: World, l: Library, t: Trace, a: Initialized)
    requires Acquire(w, l, t, a).result.Ok?
    ensures var r := Acquire(w, l, t, a);
            var chain := r.result.value.chain;
            && r.result.value.key == a.signKey && chain != []
            && l.validChain(w.anchors(r.trace), chain[1..], chain[0]) && Matches(l, a, chain[0])
  {
    var half := CompleteDpop(w, l, t, a);
    DpopKeepsStart(w, l, t, a);
    OidcSuccess(w, l, half.trace, half.result.value);
  }

  // ----- Panics -----

  /** What the caller can see to beforehand. */
  ghost predicate Usable(l: Library, a: Initialized) {
    && l.validUrl(a.config.directoryUrl)
    && l.publicKey(a.config.alg, a.signKey).Some?
    && l.qualify(a.config.handle, a.config.domain).Some?
  }

  ghost predicate NoPanic<T>(r: Run<T>) {
    r.result != Err(Panic)
  }

  lemma RequestNoPanic(
    w: World, l: Library, t: Trace, key: Key, account: Account, url: Url, payload: Payload, nonce: string)
    ensures NoPanic(AccountRequest(w, l, t, key, account, url, payload, nonce))
  {
  }

  lemma OrderNoPanic(l: Library, o: Order, now: int, swap: bool)
    ensures OrderFault(l.identifier, o, now, swap) != Some(Panic)
    ensures Coalesce(l.identifier, o) != Err(Panic)
  {
  }

  lemma GetChallengeNoPanic(w: World, l: Library, t: Trace, a: Initialized, account: Account, url: Url, nonce: string)
    ensures NoPanic(GetChallenge(w, l, t, a, account, url, nonce))
  {
    RequestNoPanic(w, l, t, a.acmeKey, account, url, PostAsGet, nonce);
  }

  lemma GetChallengesNoPanic(
    w: World, l: Library, t: Trace, a: Initialized, account: Account, order: Order, nonce: string)
    ensures NoPanic(GetChallenges(w, l, t, a, account, order, nonce))
  {
    var first := GetChallenge(w, l, t, a, account, order.authorizations.0, nonce);
    GetChallengeNoPanic(w, l, t, a, account, order.authorizations.0, nonce);
    if first.result.Ok? {
      GetChallengeNoPanic(w, l, first.trace, a, account, order.authorizations.1, first.result.value.0);
    }
  }

  lemma AnswerNoPanic(
    w: World, l: Library, t: Trace, a: Initialized, account: Account, challenge: Challenge, payload: Payload,
    nonce: string)
    ensures NoPanic(AnswerChallenge(w, l, t, a, account, challenge, payload, nonce))
  {
    RequestNoPanic(w, l, t, a.acmeKey, account, challenge.url, payload, nonce);
  }

  lemma OpenNoPanic(w: World, l: Library, t: Trace, a: Initialized)
    requires l.validUrl(a.config.directoryUrl)
    ensures NoPanic(Open(w, l, t, a))
  {
  }

  lemma CreateAccountNoPanic(w: World, l: Library, t: Trace, a: Initialized, o: Opened)
    ensures NoPanic(CreateAccount(w, l, t, a, o))
  {
  }

  lemma CreateOrderNoPanic(w: World, l: Library, t: Trace, a: Initialized, url: Url, account: Account, nonce: string)
    ensures NoPanic(CreateOrder(w, l, t, a, url, account, nonce))
  {
    var handle := l.qualify(a.config.handle, a.config.clientId.domain);
    if AccountUrl(l, account).Ok? && handle.Some? {
      var payload := NewOrder(a.config.clientId, handle.value, a.config.displayName, a.config.clientId.domain);
      RequestNoPanic(w, l, t, a.acmeKey, account, url, payload, nonce);
      var sent := AccountRequest(w, l, t, a.acmeKey, account, url, payload, nonce);
      if sent.result.Ok? && l.order(sent.result.value.body).Some? {
        OrderNoPanic(l, l.order(sent.result.value.body).value, w.now(sent.trace), w.swap(sent.trace));
      }
    }
  }

  lemma PlaceOrderNoPanic(w: World, l: Library, t: Trace, a: Initialized)
    requires l.validUrl(a.config.directoryUrl)
    ensures NoPanic(PlaceOrder(w, l, t, a))
  {
    var start := Open(w, l, t, a);
    OpenNoPanic(w, l, t, a);
    if start.result.Ok? {
      var account := CreateAccount(w, l, start.trace, a, start.result.value);
      CreateAccountNoPanic(w, l, start.trace, a, start.result.value);
      if account.result.Ok? {
        CreateOrderNoPanic(w, l, account.trace, a, start.result.value.directory.newOrder,
                           account.result.value.1, account.result.value.0);
      }
    }
  }

  lemma ProvePossessionNoPanic(w: World, l: Library, t: Trace, a: Initialized, o: Ordered)
    ensures NoPanic(ProvePossession(w, l, t, a, o))
  {
    var challenges := GetChallenges(w, l, t, a, o.account, o.order, o.nonce);
    GetChallengesNoPanic(w, l, t, a, o.account, o.order, o.nonce);
    if challenges.result.Ok? {
      var c := challenges.result.value;
      var token := FetchAccessToken(w, l, challenges.trace, a, c.dpop);
      if token.result.Ok? {
        AnswerNoPanic(w, l, token.trace, a, o.account, c.dpop, AccessToken(token.result.value), c.nonce);
      }
    }
  }

  lemma FinalizeNoPanic(w: World, l: Library, t: Trace, c: Completed, nonce: string)
    ensures NoPanic(FinalizeOrder(w, l, t, c, nonce))
  {
    OrderNoPanic(l, c.order, w.now(t), w.swap(t));
    var id := Coalesce(l.identifier, c.order);
    if id.Ok? && l.csr(c.start.config.alg, id.value, c.start.signKey).Some? {
      var payload := SigningRequest(l.csr(c.start.config.alg, id.value, c.start.signKey).value);
      RequestNoPanic(w, l, t, c.start.acmeKey, c.account, c.order.finalize, payload, nonce);
    }
  }

  lemma RedeemTokenNoPanic(w: World, l: Library, t: Trace, c: Completed, idToken: string)
    requires l.publicKey(c.start.config.alg, c.start.signKey).Some?
    requires l.qualify(c.start.config.handle, c.start.config.domain).Some?
    ensures NoPanic(RedeemToken(w, l, t, c, idToken))
  {
    var answered := AnswerChallenge(w, l, t, c.start, c.account, c.oidc, IdToken(idToken), c.nonce);
    AnswerNoPanic(w, l, t, c.start, c.account, c.oidc, IdToken(idToken), c.nonce);
    if answered.result.Ok? {
      FinalizeNoPanic(w, l, answered.trace, c, answered.result.value);
    }
  }

  /** With a usable configuration nothing the server answers makes any of the expectations fail. */
  lemma NeverPanics(w: World, l: Library, t: Trace, a: Initialized)
    requires Usable(l, a)
    ensures NoPanic(Acquire(w, l, t, a))
  {
    var ordered := PlaceOrder(w, l, t, a);
    PlaceOrderNoPanic(w, l, t, a);
    if ordered.result.Ok? {
      ProvePossessionNoPanic(w, l, ordered.trace, a, ordered.result.value);
    }
    var half := CompleteDpop(w, l, t, a);
    if half.result.Ok? {
      DpopKeepsStart(w, l, t, a);
      var token := FetchIdToken(w, l, half.trace, half.result.value);
      if token.result.Ok? {
        RedeemTokenNoPanic(w, l, token.trace, half.result.value, token.result.value);
      }
    }
  }

  // ----- What is posted, and which answers are accepted -----

  /** The entry posts this payload to this URL, in the name of the account. */
  ghost predicate Posted(l: Library, e: Entry, key: Key, account: Account, url: Url, payload: Payload) {
    && e.Http? && e.request.Post? && e.request.url == url
    && e.request.jws.url == url && e.request.jws.key == key && e.request.jws.payload == payload
    && account.orders.Some? && e.request.jws.kid.Some? && e.request.jws.kid == l.accountUrl(account.orders.value)
  }

  /** A request in the name of the account is posted once or not at all; a result is read from its answer. */
  lemma RequestSends(
    w: World, l: Library, t: Trace, key: Key, account: Account, url: Url, payload: Payload, nonce: string)
    ensures var r := AccountRequest(w, l, t, key, account, url, payload, nonce);
            && (r.trace == t
                || (|r.trace| == |t| + 1 && t <= r.trace && Posted(l, r.trace[|t|], key, account, url, payload)))
            && (r.result.Ok? ==> r.trace != t && r.trace[|t|].response.Some?
                                 && r.trace[|t|].response.value.body == r.result.value.body)
  {
    var kid := AccountUrl(l, account);
    if kid.Ok? && l.signs(key) {
      var jws := Jws(nonce, url, Some(kid.value), payload, key);
      var e := Http(Post(url, jws), w.http(t, Post(url, jws)));
      assert AccountRequest(w, l, t, key, account, url, payload, nonce).trace == t + [e];
      assert (t + [e])[|t|] == e;
    }
  }

  /** A GET of the directory and a HEAD for the first nonce. */
  ghost predicate Asked(l: Library, a: Initialized, get: Entry, head: Entry, d: Directory) {
    && get.Http? && get.request == Get(a.config.directoryUrl)
    && get.response.Some? && l.directory(get.response.value.body) == Some(d)
    && head.Http? && head.request == Head(d.newNonce)
  }

  /** The account is asked for without a key id, and the one answered is valid. */
  ghost predicate AccountOpened(l: Library, a: Initialized, e: Entry, url: Url, account: Account) {
    && e.Http? && e.request.Post? && e.request.url == url && e.request.jws.url == url
    && e.request.jws.kid == None && e.request.jws.payload == NewAccount && e.request.jws.key == a.acmeKey
    && e.response.Some? && l.account(e.response.value.body) == Some(account)
    && account.status == AccountValid && account.orders.Some?
  }

  /** The order is for the configured client, and the one answered is pending, consistent and in time. */
  ghost predicate OrderOpened(
    l: Library, a: Initialized, e: Entry, account: Account, url: Url, handle: string, order: Order, now: int)
  {
    && l.qualify(a.config.handle, a.config.clientId.domain) == Some(handle)
    && Posted(l, e, a.acmeKey, account, url,
              NewOrder(a.config.clientId, handle, a.config.displayName, a.config.clientId.domain))
    && e.response.Some? && l.order(e.response.value.body) == Some(order)
    && order.status == OrderPending && SamePerson(l.identifier, order) && InTime(order, now)
  }

  lemma OpenAsks(w: World, l: Library, t: Trace, a: Initialized)
    requires Open(w, l, t, a).result.Ok?
    ensures var r := Open(w, l, t, a);
            |r.trace| == |t| + 2 && t <= r.trace
            && Asked(l, a, r.trace[|t|], r.trace[|t| + 1], r.result.value.directory)
  {
    var get := Get(a.config.directoryUrl);
    var u := t + [Http(get, w.http(t, get))];
    var d := l.directory(w.http(t, get).value.body).value;
    var head := Http(Head(d.newNonce), w.http(u, Head(d.newNonce)));
    assert Open(w, l, t, a).trace == u + [head];
    assert (u + [head])[|t|] == u[|t|] && (u + [head])[|t| + 1] == head;
  }

  lemma CreateAccountPosts(w: World, l: Library, t: Trace, a: Initialized, o: Opened)
    requires CreateAccount(w, l, t, a, o).result.Ok?
    ensures var r := CreateAccount(w, l, t, a, o);
            && |r.trace| == |t| + 1 && t <= r.trace
            && AccountOpened(l, a, r.trace[|t|], o.directory.newAccount, r.result.value.1)
  {
    var jws := Jws(o.nonce, o.directory.newAccount, None, NewAccount, a.acmeKey);
    var e := Http(Post(jws.url, jws), w.http(t, Post(jws.url, jws)));
    assert CreateAccount(w, l, t, a, o).trace == t + [e];
    assert (t + [e])[|t|] == e;
  }

  lemma CreateOrderPosts(w: World, l: Library, t: Trace, a: Initialized, url: Url, account: Account, nonce: string)
    returns (handle: string)
    requires CreateOrder(w, l, t, a, url, account, nonce).result.Ok?
    ensures var r := CreateOrder(w, l, t, a, url, account, nonce);
            && |r.trace| == |t| + 1 && t <= r.trace
            && OrderOpened(l, a, r.trace[|t|], account, url, handle, r.result.value.1, w.now(r.trace))
  {
    var r := CreateOrder(w, l, t, a, url, account, nonce);
    handle := l.qualify(a.config.handle, a.config.clientId.domain).value;
    var payload := NewOrder(a.config.clientId, handle, a.config.displayName, a.config.clientId.domain);
    RequestSends(w, l, t, a.acmeKey, account, url, payload, nonce);
    OrderAcceptedIff(l.identifier, r.result.value.1, w.now(r.trace), w.swap(r.trace));
  }

  /** When an order has been placed, exactly these four requests were made, and these answers accepted. */
  lemma OrderPlaced(w: World, l: Library, t: Trace, a: Initialized) returns (d: Directory, handle: string)
    requires PlaceOrder(w, l, t, a).result.Ok?
    ensures var (u, o) := (PlaceOrder(w, l, t, a).trace, PlaceOrder(w, l, t, a).result.value);
            && |u| == |t| + 4 && t <= u && Asked(l, a, u[|t|], u[|t| + 1], d)
            && AccountOpened(l, a, u[|t| + 2], d.newAccount, o.account)
            && OrderOpened(l, a, u[|t| + 3], o.account, d.newOrder, handle, o.order, w.now(u))
  {
    var start := Open(w, l, t, a);
    OpenAsks(w, l, t, a);
    d := start.result.value.directory;
    handle := AccountAndOrder(w, l, start.trace, a, start.result.value);
    PrefixesOf(t, start.trace, PlaceOrder(w, l, t, a).trace);
  }

  /** The part of placing an order after the first nonce. */
  lemma AccountAndOrder(w: World, l: Library, t: Trace, a: Initialized, s: Opened) returns (handle: string)
    requires CreateAccount(w, l, t, a, s).result.Ok?
    requires var made := CreateAccount(w, l, t, a, s);
             CreateOrder(w, l, made.trace, a, s.directory.newOrder, made.result.value.1, made.result.value.0).result.Ok?
    ensures var made := CreateAccount(w, l, t, a, s);
            var account := made.result.value.1;
            var r := CreateOrder(w, l, made.trace, a, s.directory.newOrder, account, made.result.value.0);
            && |r.trace| == |t| + 2 && t <= r.trace
            && AccountOpened(l, a, r.trace[|t|], s.directory.newAccount, account)
            && OrderOpened(l, a, r.trace[|t| + 1], account, s.directory.newOrder, handle, r.result.value.1,
               w.now(r.trace))
  {
    var made := CreateAccount(w, l, t, a, s);
    CreateAccountPosts(w, l, t, a, s);
    handle := CreateOrderPosts(w, l, made.trace, a, s.directory.newOrder, made.result.value.1, made.result.value.0);
  }

  /** The entry reads an authorization in the name of the account, and the one answered is usable. */
  ghost predicate AuthorizedBy(
    l: Library, a: Initialized, e: Entry, account: Account, url: Url, z: Authorization, now: int)
  {
    && Posted(l, e, a.acmeKey, account, url, PostAsGet)
    && e.response.Some? && l.authorization(e.response.value.body) == Some(z)
    && (match z.identifier case Device(_) => z.challenge.typ == WireDpop case User(_) => z.challenge.typ == WireOidc)
    && (z.expires.Some? ==> now <= z.expires.value)
    && (exists token :: |token| >= 16 && z.challenge.token == ClientIds.Encode(token))
    && z.status == AuthzPending
  }

  lemma ChallengeOf(
    w: World, l: Library, t: Trace, a: Initialized, account: Account, url: Url, nonce: string
  ) returns (z: Authorization)
    requires GetChallenge(w, l, t, a, account, url, nonce).result.Ok?
    ensures var r := GetChallenge(w, l, t, a, account, url, nonce);
            && |r.trace| == |t| + 1 && t <= r.trace
            && AuthorizedBy(l, a, r.trace[|t|], account, url, z, w.now(r.trace)) && r.result.value.1 == z.challenge
  {
    var r := GetChallenge(w, l, t, a, account, url, nonce);
    RequestSends(w, l, t, a.acmeKey, account, url, PostAsGet, nonce);
    z := l.authorization(r.trace[|t|].response.value.body).value;
    AuthorizationAcceptedIff(z, w.now(r.trace));
  }

  /** The device's challenge first, the user's second, in whichever order the server gave them. */
  lemma ChallengesByIdentifier(
    w: World, l: Library, t: Trace, a: Initialized, account: Account, order: Order, nonce: string)
    returns (y: Authorization, z: Authorization)
    requires GetChallenges(w, l, t, a, account, order, nonce).result.Ok?
    ensures var r := GetChallenges(w, l, t, a, account, order, nonce);
            && |r.trace| == |t| + 2 && t <= r.trace
            && AuthorizedBy(l, a, r.trace[|t|], account, order.authorizations.0, y, w.now(r.trace[..|t| + 1]))
            && AuthorizedBy(l, a, r.trace[|t| + 1], account, order.authorizations.1, z, w.now(r.trace))
            && y.identifier.Device? != z.identifier.Device?
            && r.result.value.dpop == (if y.identifier.Device? then y else z).challenge
            && r.result.value.oidc == (if y.identifier.Device? then z else y).challenge
  {
    var first := GetChallenge(w, l, t, a, account, order.authorizations.0, nonce);
    y := ChallengeOf(w, l, t, a, account, order.authorizations.0, nonce);
    z := ChallengeOf(w, l, first.trace, a, account, order.authorizations.1, first.result.value.0);
    assert GetChallenges(w, l, t, a, account, order, nonce).trace[..|t| + 1] == first.trace;
  }

  lemma FinalizeSends(w: World, l: Library, t: Trace, c: Completed, nonce: string)
    requires FinalizeOrder(w, l, t, c, nonce).trace != t
    ensures OrderFault(l.identifier, c.order, w.now(t), w.swap(t)).None? && Coalesce(l.identifier, c.order).Ok?
    ensures var e := FinalizeOrder(w, l, t, c, nonce).trace[|t|];
            && e.Http? && e.request.Post? && e.request.jws.payload.SigningRequest?
            && l.csr(c.start.config.alg, Coalesce(l.identifier, c.order).value, c.start.signKey) ==
               Some(e.request.jws.payload.csr)
  {
    var csr := l.csr(c.start.config.alg, Coalesce(l.identifier, c.order).value, c.start.signKey);
    RequestSends(w, l, t, c.start.acmeKey, c.account, c.order.finalize, SigningRequest(csr.value), nonce);
  }

  /** The certificate request is made for an identity that both identifiers of the order agree on. */
  lemma RequestedIdentity(w: World, l: Library, t: Trace, c: Completed, nonce: string) returns (id: CanonicalIdentifier)
    requires FinalizeOrder(w, l, t, c, nonce).trace != t
    ensures var e := FinalizeOrder(w, l, t, c, nonce).trace[|t|];
            && e.Http? && e.request.Post? && e.request.jws.payload.SigningRequest?
            && l.csr(c.start.config.alg, id, c.start.signKey) == Some(e.request.jws.payload.csr)
    ensures Describes(l.identifier, c.order.identifiers.0, id) && Describes(l.identifier, c.order.identifiers.1, id)
  {
    FinalizeSends(w, l, t, c, nonce);
    id := Coalesce(l.identifier, c.order).value;
    CoalescedDescribesBoth(l.identifier, c.order, w.now(t), w.swap(t));
  }

  // ----- What each token is bound to -----

  lemma AnswerPosts(
    w: World, l: Library, t: Trace, a: Initialized, account: Account, challenge: Challenge, payload: Payload,
    nonce: string)
    requires AnswerChallenge(w, l, t, a, account, challenge, payload, nonce).result.Ok?
    ensures var u := AnswerChallenge(w, l, t, a, account, challenge, payload, nonce).trace;
            && |u| == |t| + 1 && t <= u && Posted(l, u[|t|], a.acmeKey, account, challenge.url, payload)
            && ValidNow(l, u[|t|])
  {
    RequestSends(w, l, t, a.acmeKey, account, challenge.url, payload, nonce);
  }

  /** The server answered that the challenge is valid. */
  ghost predicate ValidNow(l: Library, e: Entry) {
    && e.Http? && e.response.Some? && l.challenge(e.response.value.body).Some?
    && l.challenge(e.response.value.body).value.status == Some(ChallengeValid)
  }

  lemma TokenFetched(w: World, l: Library, t: Trace, a: Initialized, challenge: Challenge)
    requires FetchAccessToken(w, l, t, a, challenge).result.Ok?
    ensures var r := FetchAccessToken(w, l, t, a, challenge);
            && |r.trace| == |t| + 2 && t <= r.trace && r.trace[|t|].BackendNonce? && r.trace[|t| + 1].BackendToken?
            && r.trace[|t| + 1].token == Some(r.result.value)
            && ProofFor(l, a, challenge, r.trace[|t|].nonce, r.trace[|t| + 1].dpop)
  {
  }

  /** The proof names this client and this challenge, and is signed by the account key over the backend's nonce. */
  ghost predicate ProofFor(l: Library, a: Initialized, challenge: Challenge, nonce: Option<string>, d: Dpop) {
    && Some(d.backendNonce) == nonce && d.key == a.acmeKey
    && d.audience == challenge.url && d.target == challenge.target && d.challenge == challenge.token
    && d.clientId == a.config.clientId && d.name == a.config.displayName && d.team == a.config.team
    && l.qualify(a.config.handle, a.config.clientId.domain) == Some(d.handle)
  }

  /**
    When the DPoP challenge is completed, exactly three things happened: the backend gave a nonce, the proof over
    that nonce and that challenge was exchanged for a token, and that token was posted to that challenge.
   */
  lemma DpopTokenBound(w: World, l: Library, t: Trace, a: Initialized, account: Account, c: Challenges)
    requires AnswerDpop(w, l, t, a, account, c).result.Ok?
    ensures var u := AnswerDpop(w, l, t, a, account, c).trace;
            && |u| == |t| + 3 && t <= u && u[|t|].BackendNonce? && u[|t| + 1].BackendToken?
            && ProofFor(l, a, c.dpop, u[|t|].nonce, u[|t| + 1].dpop)
            && u[|t| + 1].token.Some?
            && Posted(l, u[|t| + 2], a.acmeKey, account, c.dpop.url, AccessToken(u[|t| + 1].token.value))
            && ValidNow(l, u[|t| + 2])
  {
    var token := FetchAccessToken(w, l, t, a, c.dpop);
    TokenFetched(w, l, t, a, c.dpop);
    AnswerPosts(w, l, token.trace, a, account, c.dpop, AccessToken(token.result.value), c.nonce);
    var u := AnswerDpop(w, l, t, a, account, c).trace;
    assert u[..|t| + 2] == token.trace;
    assert u[|t|] == token.trace[|t|] && u[|t| + 1] == token.trace[|t| + 1];
  }

  /**
    When the first half succeeds, exactly nine things happened: the order was placed with four requests, the two
    authorizations were read, and the device's challenge was answered; the state keeps the account, the order and the
    user's challenge.
   */
  lemma FirstHalf(w: World, l: Library, t: Trace, a: Initialized)
    returns (d: Directory, handle: string, y: Authorization, z: Authorization)
    requires CompleteDpop(w, l, t, a).result.Ok?
    ensures var (u, c) := (CompleteDpop(w, l, t, a).trace, CompleteDpop(w, l, t, a).result.value);
            && c.start == a && |u| == |t| + 9 && t <= u
            && Asked(l, a, u[|t|], u[|t| + 1], d)
            && AccountOpened(l, a, u[|t| + 2], d.newAccount, c.account)
            && OrderOpened(l, a, u[|t| + 3], c.account, d.newOrder, handle, c.order, w.now(u[..|t| + 4]))
            && AuthorizedBy(l, a, u[|t| + 4], c.account, c.order.authorizations.0, y, w.now(u[..|t| + 5]))
            && AuthorizedBy(l, a, u[|t| + 5], c.account, c.order.authorizations.1, z, w.now(u[..|t| + 6]))
            && y.identifier.Device? != z.identifier.Device?
            && c.oidc == (if y.identifier.Device? then z else y).challenge
            && var dpop := (if y.identifier.Device? then y else z).challenge;
            && u[|t| + 6].BackendNonce? && u[|t| + 7].BackendToken? && u[|t| + 7].token.Some?
            && ProofFor(l, a, dpop, u[|t| + 6].nonce, u[|t| + 7].dpop)
            && Posted(l, u[|t| + 8], a.acmeKey, c.account, dpop.url, AccessToken(u[|t| + 7].token.value))
            && ValidNow(l, u[|t| + 8])
  {
    var ordered := PlaceOrder(w, l, t, a);
    d, handle := OrderPlaced(w, l, t, a);
    var o := ordered.result.value;
    var challenges := GetChallenges(w, l, ordered.trace, a, o.account, o.order, o.nonce);
    y, z := ChallengesByIdentifier(w, l, ordered.trace, a, o.account, o.order, o.nonce);
    DpopTokenBound(w, l, challenges.trace, a, o.account, challenges.result.value);
    PrefixesOf(ordered.trace, challenges.trace, CompleteDpop(w, l, t, a).trace);
  }

  lemma PrefixesOf(a: Trace, b: Trace, c: Trace)
    requires a <= b <= c
    ensures forall i :: 0 <= i < |a| ==> a[i] == b[i] == c[i]
    ensures forall i :: 0 <= i < |b| ==> b[i] == c[i]
    ensures forall n :: 0 <= n <= |a| ==> a[..n] == c[..n]
    ensures forall n :: 0 <= n <= |b| ==> b[..n] == c[..n]
    ensures a == c[..|a|] && b == c[..|b|]
  {
  }

  lemma FinalizePosts(w: World, l: Library, t: Trace, c: Completed, nonce: string)
    requires FinalizeOrder(w, l, t, c, nonce).result.Ok?
    ensures var r, id := FinalizeOrder(w, l, t, c, nonce), Coalesce(l.identifier, c.order);
            && |r.trace| == |t| + 1 && t <= r.trace && id.Ok?
            && l.csr(c.start.config.alg, id.value, c.start.signKey).Some?
            && Posted(l, r.trace[|t|], c.start.acmeKey, c.account, c.order.finalize,
                      SigningRequest(l.csr(c.start.config.alg, id.value, c.start.signKey).value))
            && r.trace[|t|].response.Some?
            && l.certificateUrl(r.trace[|t|].response.value.body) == Some(r.result.value.certificate)
  {
    var csr := l.csr(c.start.config.alg, Coalesce(l.identifier, c.order).value, c.start.signKey);
    RequestSends(w, l, t, c.start.acmeKey, c.account, c.order.finalize, SigningRequest(csr.value), nonce);
  }

  lemma FetchPosts(w: World, l: Library, t: Trace, c: Completed, f: Finalized)
    requires FetchCertificates(w, l, t, c, f).result.Ok?
    ensures var u := FetchCertificates(w, l, t, c, f).trace;
            |u| == |t| + 1 && t <= u && Posted(l, u[|t|], c.start.acmeKey, c.account, f.certificate, PostAsGet)
  {
    var jws := Jws(f.nonce, f.certificate, Some(AccountUrl(l, c.account).value), PostAsGet, c.start.acmeKey);
    var e := Http(Post(f.certificate, jws), w.http(t, Post(f.certificate, jws)));
    assert FetchCertificates(w, l, t, c, f).trace == t + [e];
    assert (t + [e])[|t|] == e;
  }

  lemma CollectPosts(w: World, l: Library, t: Trace, c: Completed, nonce: string)
    requires CollectCredential(w, l, t, c, nonce).result.Ok?
    ensures var u, key := CollectCredential(w, l, t, c, nonce).trace, c.start.acmeKey;
            && |u| == |t| + 2 && t <= u
            && u[|t|].Http? && u[|t|].request.Post? && u[|t|].request.jws.payload.SigningRequest?
            && Posted(l, u[|t|], key, c.account, c.order.finalize, u[|t|].request.jws.payload)
            && u[|t|].response.Some? && l.certificateUrl(u[|t|].response.value.body).Some?
            && Posted(l, u[|t| + 1], key, c.account, l.certificateUrl(u[|t|].response.value.body).value, PostAsGet)
  {
    var finalized := FinalizeOrder(w, l, t, c, nonce);
    FinalizePosts(w, l, t, c, nonce);
    FetchPosts(w, l, finalized.trace, c, finalized.result.value);
    assert CollectCredential(w, l, t, c, nonce).trace[|t|] == finalized.trace[|t|];
  }

  lemma RedeemPosts(w: World, l: Library, t: Trace, c: Completed, idToken: string)
    requires RedeemToken(w, l, t, c, idToken).result.Ok?
    ensures var u, key := RedeemToken(w, l, t, c, idToken).trace, c.start.acmeKey;
            && |u| == |t| + 3 && t <= u
            && Posted(l, u[|t|], key, c.account, c.oidc.url, IdToken(idToken)) && ValidNow(l, u[|t|])
            && u[|t| + 1].Http? && u[|t| + 1].request.Post? && u[|t| + 1].request.jws.payload.SigningRequest?
            && Posted(l, u[|t| + 1], key, c.account, c.order.finalize, u[|t| + 1].request.jws.payload)
            && u[|t| + 1].response.Some? && l.certificateUrl(u[|t| + 1].response.value.body).Some?
            && Posted(l, u[|t| + 2], key, c.account, l.certificateUrl(u[|t| + 1].response.value.body).value, PostAsGet)
  {
    var answered := AnswerChallenge(w, l, t, c.start, c.account, c.oidc, IdToken(idToken), c.nonce);
    AnswerPosts(w, l, t, c.start, c.account, c.oidc, IdToken(idToken), c.nonce);
    CollectPosts(w, l, answered.trace, c, answered.result.value);
    assert RedeemToken(w, l, t, c, idToken).trace[|t|] == answered.trace[|t|];
  }

  /**
    When the second half succeeds, exactly four things happened: the application got a snapshot of this very state
    and gave an identity token, that token was posted to the OIDC challenge, the order was finalized, and the chain was
    fetched from the URL of that answer.
   */
  lemma OidcTokenBound(w: World, l: Library, t: Trace, c: Completed)
    requires CompleteOidc(w, l, t, c).result.Ok?
    ensures var u, key := CompleteOidc(w, l, t, c).trace, c.start.acmeKey;
            && |u| == |t| + 4 && t <= u
            && u[|t|].Authenticated? && u[|t|].snapshot == l.serialize(c) && u[|t|].idToken.Some?
            && u[|t|].target == c.oidc.target && u[|t|].url == c.oidc.url
            && l.thumbprint(key).Some? && u[|t|].keyAuth == c.oidc.token + ['.' as int] + l.thumbprint(key).value
            && Posted(l, u[|t| + 1], key, c.account, c.oidc.url, IdToken(u[|t|].idToken.value))
            && ValidNow(l, u[|t| + 1])
            && u[|t| + 2].Http? && u[|t| + 2].request.Post? && u[|t| + 2].request.jws.payload.SigningRequest?
            && Posted(l, u[|t| + 2], key, c.account, c.order.finalize, u[|t| + 2].request.jws.payload)
            && u[|t| + 2].response.Some? && l.certificateUrl(u[|t| + 2].response.value.body).Some?
            && Posted(l, u[|t| + 3], key, c.account, l.certificateUrl(u[|t| + 2].response.value.body).value, PostAsGet)
  {
    var token := FetchIdToken(w, l, t, c);
    RedeemPosts(w, l, token.trace, c, token.result.value);
    var u := CompleteOidc(w, l, t, c).trace;
    assert u[|t|] == token.trace[|t|];
  }

  // ----- Success is possible -----

  const PERSON := WireIdentifier(Some("id"), "handle", "name", "domain")

  const ORDER :=
    Order(OrderPending, "finalize", (Device("device"), User("user")), ("user-authz", "device-authz"), None, None, None)

  function TokenBytes(): (t: Bytes) {
    ClientIds.Encode(seq(16, _ => 0))
  }

  lemma TokenDecodes()
    ensures ClientIds.Decode(TokenBytes()) == Some(seq(16, _ => 0))
  {
    ClientIds.DecodeEncode(seq(16, _ => 0));
  }

  function AuthorizationFor(body: Bytes): (z: Option<Authorization>) {
    var dpop := Challenge(WireDpop, "dpop", None, TokenBytes(), "target");
    var oidc := Challenge(WireOidc, "oidc", None, TokenBytes(), "target");
    if body == [1] then Some(Authorization(AuthzPending, None, dpop, Device("device")))
    else Some(Authorization(AuthzPending, None, oidc, User("user")))
  }

  /** A server that plays along, offering the user's authorization first. */
  function Friendly(): (w: World) {
    World(
      (t: Trace, r: Request) => Some(Response(Some("nonce"), if r.url == "device-authz" then [1] else [0])),
      (t: Trace) => Some("backend"),
      (t: Trace, d: Dpop) => Some("access"),
      (t: Trace, snapshot: Bytes) => Some("identity"),
      (t: Trace) => 0,
      (t: Trace) => true,
      (t: Trace) => [])
  }

  function Simple(a: Initialized, c: Completed): (l: Library) {
    Library(
      (u: Url) => true,
      (b: Bytes) => Some(Directory("nonce", "account", "order")),
      (b: Bytes) => Some(Account(AccountValid, Some("orders"))),
      (u: Url) => Some("me"),
      (b: Bytes) => Some(ORDER),
      (j: string) => Some(PERSON),
      (b: Bytes) => AuthorizationFor(b),
      (b: Bytes) => Some(Challenge(WireDpop, "dpop", Some(ChallengeValid), [], "target")),
      (b: Bytes) => Some("certificate"),
      (b: Bytes) => Some([[7]]),
      (b: Bytes) => Some(b),
      (k: Key) => true,
      (k: Key) => Some([]),
      (h: string, d: string) => Some(h),
      (alg: int, id: CanonicalIdentifier, k: Key) => Some([]),
      (anchors: seq<Certificate>, between: seq<Certificate>, leaf: Certificate) => true,
      (x: Certificate) => a.config.alg,
      (x: Certificate) => [],
      (alg: int, k: Key) => Some([]),
      (x: Certificate) => Some(Identity("id", a.config.handle, a.config.displayName, a.config.domain)),
      (j: string) => Some(a.config.clientId),
      (x: Certificate) => true,
      (state: Completed) => [],
      (b: Bytes) => Some(c))
  }

  const ACCOUNT := Account(AccountValid, Some("orders"))

  function Half(a: Initialized): (c: Completed) {
    Completed(a, "nonce", ACCOUNT, ORDER, Challenge(WireOidc, "oidc", None, TokenBytes(), "target"))
  }

  lemma OrderIsFine(a: Initialized, c: Completed)
    ensures OrderFault(Simple(a, c).identifier, ORDER, 0, true).None?
    ensures Coalesce(Simple(a, c).identifier, ORDER).Ok?
  {
    OrderAcceptedIff(Simple(a, c).identifier, ORDER, 0, true);
  }

  lemma OrderIsPlaced(a: Initialized, c: Completed)
    ensures PlaceOrder(Friendly(), Simple(a, c), [], a).result == Ok(Ordered("nonce", ACCOUNT, ORDER))
  {
    var w, l := Friendly(), Simple(a, c);
    var start := Open(w, l, [], a);
    assert start.result == Ok(Opened("nonce", Directory("nonce", "account", "order")));
    var account := CreateAccount(w, l, start.trace, a, start.result.value);
    assert account.result == Ok(("nonce", ACCOUNT));
    OrderIsCreated(a, c, account.trace);
  }

  lemma OrderIsCreated(a: Initialized, c: Completed, t: Trace)
    ensures CreateOrder(Friendly(), Simple(a, c), t, a, "order", ACCOUNT, "nonce").result == Ok(("nonce", ORDER))
  {
    OrderIsFine(a, c);
  }

  lemma PossessionIsProved(a: Initialized, c: Completed, t: Trace)
    ensures ProvePossession(Friendly(), Simple(a, c), t, a, Ordered("nonce", ACCOUNT, ORDER)).result == Ok(Half(a))
  {
    TokenDecodes();
    var w, l := Friendly(), Simple(a, c);
    var first := GetChallenge(w, l, t, a, ACCOUNT, "user-authz", "nonce");
    assert first.result == Ok(("nonce", AuthorizationFor([0]).value.challenge));
    var second := GetChallenge(w, l, first.trace, a, ACCOUNT, "device-authz", "nonce");
    assert second.result == Ok(("nonce", AuthorizationFor([1]).value.challenge));
  }

  lemma LeafIsFine(a: Initialized, c: Completed)
    ensures ChainFault(Simple(a, c), a, [], [[7]]).None?
  {
  }

  lemma TokenIsRedeemed(a: Initialized, c: Completed, t: Trace)
    ensures CompleteOidc(Friendly(), Simple(a, c), t, Half(a)).result.Ok?
  {
    OrderIsFine(a, c);
    LeafIsFine(a, c);
    var w, l := Friendly(), Simple(a, c);
    var token := FetchIdToken(w, l, t, Half(a));
    var answered := AnswerChallenge(w, l, token.trace, a, ACCOUNT, Half(a).oidc, IdToken("identity"), "nonce");
    assert answered.result == Ok("nonce");
    var finalized := FinalizeOrder(w, l, answered.trace, Half(a), "nonce");
    assert finalized.result == Ok(Finalized("nonce", "certificate"));
    CertificateIsFetched(a, c, finalized.trace);
  }

  lemma CertificateIsFetched(a: Initialized, c: Completed, t: Trace)
    ensures FetchCertificates(Friendly(), Simple(a, c), t, Half(a), Finalized("nonce", "certificate")).result ==
            Ok([[7]])
  {
    OrderIsFine(a, c);
    var l := Simple(a, c);
    assert DecodeAll(l.certificate, [[7]]).value == [[7]];
  }

  /** The statements about success are not empty: for every configuration some server leads to it. */
  lemma SuccessIsPossible(a: Initialized, c: Completed)
    ensures Acquire(Friendly(), Simple(a, c), [], a).result.Ok?
  {
    OrderIsPlaced(a, c);
    var ordered := PlaceOrder(Friendly(), Simple(a, c), [], a);
    PossessionIsProved(a, c, ordered.trace);
    TokenIsRedeemed(a, c, CompleteDpop(Friendly(), Simple(a, c), [], a).trace);
  }
}
