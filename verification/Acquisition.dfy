/**
  Acquisition of an X.509 credential: the ACME client of RFC 8555 with the DPoP and OIDC challenges
  of Wire. The server, the application's hooks, the clock and the hash set's iteration order are an
  oracle that may answer anything, depending on everything that happened before.
 */
module Acquisition {
  import opened Base
  import opened Acme

  datatype ClientId = ClientId(user: string, device: int, domain: string)

  datatype Config = Config(directoryUrl: Url, alg: int, displayName: string, clientId: ClientId,
                           handle: string, domain: string, team: Option<string>)

  /** What a certificate says about its subject. */
  datatype Identity = Identity(clientId: string, handle: string, displayName: string, domain: string)

  // ----- Messages -----

  datatype Payload =
    | NewAccount
    | NewOrder(clientId: ClientId, handle: string, name: string, domain: string)
    | PostAsGet
    | AccessToken(accessToken: string)
    | IdToken(idToken: string)
    | SigningRequest(csr: Bytes)

  /** A signed request. */
  datatype Jws = Jws(nonce: string, url: Url, kid: Option<Url>, payload: Payload, key: Key)

  datatype Request = Get(url: Url) | Head(url: Url) | Post(url: Url, jws: Jws)

  datatype Response = Response(replayNonce: Option<string>, body: Bytes)

  datatype Dpop = Dpop(target: Url, challenge: Bytes, handle: string, team: Option<string>, name: string,
                       clientId: ClientId, backendNonce: string, audience: Url, key: Key)

  /** One call to a hook, with its answer. */
  datatype Entry =
    | Http(request: Request, response: Option<Response>)
    | BackendNonce(nonce: Option<string>)
    | BackendToken(dpop: Dpop, token: Option<string>)
    | Authenticated(target: Url, keyAuth: Bytes, url: Url, snapshot: Bytes, idToken: Option<string>)

  type Trace = seq<Entry>

  // ----- The world -----

  datatype World = World(
    http: (Trace, Request) -> Option<Response>,
    backendNonce: Trace -> Option<string>,
    backendToken: (Trace, Dpop) -> Option<string>,
    authenticate: (Trace, Bytes) -> Option<string>,
    now: Trace -> int,
    swap: Trace -> bool,
    anchors: Trace -> seq<Certificate>)

  /** Parsers and cryptography. */
  datatype Library = Library(
    validUrl: Url -> bool,
    directory: Bytes -> Option<Directory>,
    account: Bytes -> Option<Account>,
    accountUrl: Url -> Option<Url>,
    order: Bytes -> Option<Order>,
    identifier: IdentifierParser,
    authorization: Bytes -> Option<Authorization>,
    challenge: Bytes -> Option<Challenge>,
    certificateUrl: Bytes -> Option<Url>,
    pems: Bytes -> Option<seq<Bytes>>,
    certificate: Bytes -> Option<Certificate>,
    signs: Key -> bool,
    thumbprint: Key -> Option<Bytes>,
    qualify: (string, string) -> Option<string>,
    csr: (int, CanonicalIdentifier, Key) -> Option<Bytes>,
    validChain: (seq<Certificate>, seq<Certificate>, Certificate) -> bool,
    certificateAlg: Certificate -> int,
    certificateKey: Certificate -> Bytes,
    publicKey: (int, Key) -> Option<Bytes>,
    identity: Certificate -> Option<Identity>,
    clientId: string -> Option<ClientId>,
    keyIdentifiers: Certificate -> bool,
    serialize: Completed -> Bytes,
    deserialize: Bytes -> Option<Completed>)

  /** `X509CredentialAcquisition<Initialized>` */
  datatype Initialized = Initialized(config: Config, signKey: Key, acmeKey: Key)

  /** `X509CredentialAcquisition<DpopChallengeCompleted>` */
  datatype Completed = Completed(start: Initialized, nonce: string, account: Account, order: Order, oidc: Challenge)

  /** What happened so far, and what came out. */
  datatype Run<+T> = Run(trace: Trace, result: Result<T, Error>)

  datatype Reply = Reply(nonce: string, body: Bytes)

  // ----- Requests -----

  function Send(w: World, t: Trace, request: Request): (r: Run<Response>) {
    var response := w.http(t, request);
    Run(t + [Http(request, response)], if response.None? then Err(HookFailed) else Ok(response.value))
  }

  /** `acme_request` */
  function AcmeRequest(w: World, t: Trace, jws: Jws): (r: Run<Reply>) {
    var sent := Send(w, t, Post(jws.url, jws));
    if sent.result.Err? then Run(sent.trace, Err(sent.result.error))
    else if sent.result.value.replayNonce.None? then Run(sent.trace, Err(MissingHeader))
    else Run(sent.trace, Ok(Reply(sent.result.value.replayNonce.value, sent.result.value.body)))
  }

  function Sign(
    l: Library, key: Key, nonce: string, url: Url, kid: Option<Url>, payload: Payload
  ): (r: Result<Jws, Error>) {
    if l.signs(key) then Ok(Jws(nonce, url, kid, payload, key)) else Err(SigningFailed)
  }

  /** `AcmeAccount::acct_url` */
  function AccountUrl(l: Library, account: Account): (r: Result<Url, Error>) {
    if account.orders.None? || l.accountUrl(account.orders.value).None? then Err(Malformed)
    else Ok(l.accountUrl(account.orders.value).value)
  }

  /** Signs a request in the name of the account and sends it. */
  function AccountRequest(
    w: World, l: Library, t: Trace, key: Key, account: Account, url: Url, payload: Payload, nonce: string
  ): (r: Run<Reply>) {
    var kid := AccountUrl(l, account);
    if kid.Err? then Run(t, Err(kid.error))
    else
      var jws := Sign(l, key, nonce, url, Some(kid.value), payload);
      if jws.Err? then Run(t, Err(jws.error)) else AcmeRequest(w, t, jws.value)
  }

  // ----- First half: up to the DPoP challenge -----

  datatype Opened = Opened(nonce: string, directory: Directory)

  /** Fetches the directory and the first nonce. */
  function Open(w: World, l: Library, t: Trace, a: Initialized): (r: Run<Opened>) {
    if !l.validUrl(a.config.directoryUrl) then Run(t, Err(Panic))
    else
      var listed := Send(w, t, Get(a.config.directoryUrl));
      if listed.result.Err? then Run(listed.trace, Err(listed.result.error))
      else
        var directory := l.directory(listed.result.value.body);
        if directory.None? then Run(listed.trace, Err(Malformed))
        else
          var head := Send(w, listed.trace, Head(directory.value.newNonce));
          if head.result.Err? then Run(head.trace, Err(head.result.error))
          else if head.result.value.replayNonce.None? then Run(head.trace, Err(MissingHeader))
          else Run(head.trace, Ok(Opened(head.result.value.replayNonce.value, directory.value)))
  }

  /** `new_account_response` */
  function AccountOf(l: Library, body: Bytes): (r: Result<Account, Error>) {
    var account := l.account(body);
    if account.None? || account.value.orders.None? then Err(Malformed)
    else if !account.value.status.AccountValid? then Err(AccountUnusable)
    else Ok(account.value)
  }

  function CreateAccount(w: World, l: Library, t: Trace, a: Initialized, o: Opened): (r: Run<(string, Account)>) {
    var jws := Sign(l, a.acmeKey, o.nonce, o.directory.newAccount, None, NewAccount);
    if jws.Err? then Run(t, Err(jws.error))
    else
      var sent := AcmeRequest(w, t, jws.value);
      if sent.result.Err? then Run(sent.trace, Err(sent.result.error))
      else
        var account := AccountOf(l, sent.result.value.body);
        if account.Err? then Run(sent.trace, Err(account.error))
        else Run(sent.trace, Ok((sent.result.value.nonce, account.value)))
  }

  /** `new_order_response` */
  function OrderOf(w: World, l: Library, t: Trace, body: Bytes): (r: Result<Order, Error>) {
    var order := l.order(body);
    if order.None? then Err(Malformed)
    else if !order.value.status.OrderPending? then Err(OrderNotPending)
    else
      var fault := OrderFault(l.identifier, order.value, w.now(t), w.swap(t));
      if fault.Some? then Err(fault.value) else Ok(order.value)
  }

  function CreateOrder(
    w: World, l: Library, t: Trace, a: Initialized, url: Url, account: Account, nonce: string
  ): (r: Run<(string, Order)>) {
    var id := a.config.clientId;
    var handle := l.qualify(a.config.handle, id.domain);
    if AccountUrl(l, account).Err? then Run(t, Err(Malformed))
    else if handle.None? then Run(t, Err(InvalidHandle))
    else
      var payload := NewOrder(id, handle.value, a.config.displayName, id.domain);
      var sent := AccountRequest(w, l, t, a.acmeKey, account, url, payload, nonce);
      if sent.result.Err? then Run(sent.trace, Err(sent.result.error))
      else
        var order := OrderOf(w, l, sent.trace, sent.result.value.body);
        if order.Err? then Run(sent.trace, Err(order.error))
        else Run(sent.trace, Ok((sent.result.value.nonce, order.value)))
  }

  /** `new_authz_response` */
  function AuthorizationOf(w: World, l: Library, t: Trace, body: Bytes): (r: Result<Authorization, Error>) {
    var z := l.authorization(body);
    if z.None? then Err(Malformed)
    else
      var fault := AuthorizationFault(z.value, w.now(t));
      if fault.Some? then Err(fault.value) else Ok(z.value)
  }

  /** `get_challenge`, which keeps only the challenge of the authorization. */
  function GetChallenge(
    w: World, l: Library, t: Trace, a: Initialized, account: Account, url: Url, nonce: string
  ): (r: Run<(string, Challenge)>) {
    var sent := AccountRequest(w, l, t, a.acmeKey, account, url, PostAsGet, nonce);
    if sent.result.Err? then Run(sent.trace, Err(sent.result.error))
    else
      var z := AuthorizationOf(w, l, sent.trace, sent.result.value.body);
      if z.Err? then Run(sent.trace, Err(z.error))
      else Run(sent.trace, Ok((sent.result.value.nonce, z.value.challenge)))
  }

  datatype Challenges = Challenges(nonce: string, dpop: Challenge, oidc: Challenge)

  /** `get_challenges` */
  function GetChallenges(
    w: World, l: Library, t: Trace, a: Initialized, account: Account, order: Order, nonce: string
  ): (r: Run<Challenges>) {
    var first := GetChallenge(w, l, t, a, account, order.authorizations.0, nonce);
    if first.result.Err? then Run(first.trace, Err(first.result.error))
    else
      var second := GetChallenge(w, l, first.trace, a, account, order.authorizations.1, first.result.value.0);
      if second.result.Err? then Run(second.trace, Err(second.result.error))
      else
        var both := Arrange(first.result.value.1, second.result.value.1);
        if both.Err? then Run(second.trace, Err(both.error))
        else Run(second.trace, Ok(Challenges(second.result.value.0, both.value.0, both.value.1)))
  }

  /** Obtains the access token of the Wire server for the DPoP challenge. */
  function FetchAccessToken(w: World, l: Library, t: Trace, a: Initialized, challenge: Challenge): (r: Run<string>) {
    var c, backend := a.config, w.backendNonce(t);
    var asked := t + [BackendNonce(backend)];
    if backend.None? then Run(asked, Err(HookFailed))
    else
      var handle := l.qualify(c.handle, c.clientId.domain);
      if handle.None? then Run(asked, Err(InvalidHandle))
      else if !l.signs(a.acmeKey) then Run(asked, Err(SigningFailed))
      else
        var dpop := Dpop(challenge.target, challenge.token, handle.value, c.team, c.displayName, c.clientId,
                         backend.value, challenge.url, a.acmeKey);
        var token := w.backendToken(asked, dpop);
        Run(asked + [BackendToken(dpop, token)], if token.None? then Err(HookFailed) else Ok(token.value))
  }

  /** `new_chall_response` */
  predicate ChallengeAccepted(l: Library, body: Bytes) {
    l.challenge(body).Some? && l.challenge(body).value.status == Some(ChallengeValid)
  }

  /** Answers a challenge; the result is the next nonce. */
  function AnswerChallenge(
    w: World, l: Library, t: Trace, a: Initialized, account: Account, challenge: Challenge, payload: Payload,
    nonce: string
  ): (r: Run<string>) {
    var sent := AccountRequest(w, l, t, a.acmeKey, account, challenge.url, payload, nonce);
    if sent.result.Err? then Run(sent.trace, Err(sent.result.error))
    else if !ChallengeAccepted(l, sent.result.value.body) then Run(sent.trace, Err(ChallengeNotValid))
    else Run(sent.trace, Ok(sent.result.value.nonce))
  }

  /** The requests that lead to an account and an order. */
  datatype Ordered = Ordered(nonce: string, account: Account, order: Order)

  function PlaceOrder(w: World, l: Library, t: Trace, a: Initialized): (r: Run<Ordered>) {
    var start := Open(w, l, t, a);
    if start.result.Err? then Run(start.trace, Err(start.result.error))
    else
      var account := CreateAccount(w, l, start.trace, a, start.result.value);
      if account.result.Err? then Run(account.trace, Err(account.result.error))
      else
        var order := CreateOrder(w, l, account.trace, a, start.result.value.directory.newOrder,
                                 account.result.value.1, account.result.value.0);
        if order.result.Err? then Run(order.trace, Err(order.result.error))
        else Run(order.trace, Ok(Ordered(order.result.value.0, account.result.value.1, order.result.value.1)))
  }

  /** Proves possession of the key to the Wire server, and through it to the ACME server. */
  function AnswerDpop(
    w: World, l: Library, t: Trace, a: Initialized, account: Account, c: Challenges
  ): (r: Run<string>) {
    var token := FetchAccessToken(w, l, t, a, c.dpop);
    if token.result.Err? then Run(token.trace, Err(token.result.error))
    else AnswerChallenge(w, l, token.trace, a, account, c.dpop, AccessToken(token.result.value), c.nonce)
  }

  /** The requests that answer the DPoP challenge of an order. */
  function ProvePossession(w: World, l: Library, t: Trace, a: Initialized, o: Ordered): (r: Run<Completed>) {
    var challenges := GetChallenges(w, l, t, a, o.account, o.order, o.nonce);
    if challenges.result.Err? then Run(challenges.trace, Err(challenges.result.error))
    else
      var c := challenges.result.value;
      var answered := AnswerDpop(w, l, challenges.trace, a, o.account, c);
      if answered.result.Err? then Run(answered.trace, Err(answered.result.error))
      else Run(answered.trace, Ok(Completed(a, answered.result.value, o.account, o.order, c.oidc)))
  }

  /** `complete_dpop_challenge` */
  function CompleteDpop(w: World, l: Library, t: Trace, a: Initialized): (r: Run<Completed>) {
    var ordered := PlaceOrder(w, l, t, a);
    if ordered.result.Err? then Run(ordered.trace, Err(ordered.result.error))
    else ProvePossession(w, l, ordered.trace, a, ordered.result.value)
  }

  // ----- Second half: OIDC challenge, finalization, certificate -----

  /** Hands a snapshot to the application and waits for the identity token. */
  function FetchIdToken(w: World, l: Library, t: Trace, c: Completed): (r: Run<string>) {
    var thumbprint := l.thumbprint(c.start.acmeKey);
    if thumbprint.None? then Run(t, Err(Malformed))
    else
      var snapshot := l.serialize(c);
      var token := w.authenticate(t, snapshot);
      var entry := Authenticated(c.oidc.target, c.oidc.token + [46] + thumbprint.value, c.oidc.url, snapshot, token);
      Run(t + [entry], if token.None? then Err(HookFailed) else Ok(token.value))
  }

  datatype Finalized = Finalized(nonce: string, certificate: Url)

  /** `finalize_req` and `finalize_response` */
  function FinalizeOrder(w: World, l: Library, t: Trace, c: Completed, nonce: string): (r: Run<Finalized>) {
    var a := c.start;
    var fault, id := OrderFault(l.identifier, c.order, w.now(t), w.swap(t)), Coalesce(l.identifier, c.order);
    if AccountUrl(l, c.account).Err? then Run(t, Err(Malformed))
    else if fault.Some? then Run(t, Err(fault.value))
    else if id.Err? then Run(t, Err(id.error))
    else
      var csr := l.csr(a.config.alg, id.value, a.signKey);
      if csr.None? then Run(t, Err(SigningFailed))
      else
        var sent := AccountRequest(w, l, t, a.acmeKey, c.account, c.order.finalize, SigningRequest(csr.value), nonce);
        if sent.result.Err? then Run(sent.trace, Err(sent.result.error))
        else
          var url := l.certificateUrl(sent.result.value.body);
          if url.None? then Run(sent.trace, Err(Malformed))
          else Run(sent.trace, Ok(Finalized(sent.result.value.nonce, url.value)))
  }

  /** Fetches the chain; the nonce of this last answer is not read. */
  function FetchCertificates(w: World, l: Library, t: Trace, c: Completed, f: Finalized): (r: Run<seq<Certificate>>)
    ensures r.result.Ok? ==> r.result.value != []
  {
    var kid := AccountUrl(l, c.account);
    if kid.Err? then Run(t, Err(kid.error))
    else
      var jws := Sign(l, c.start.acmeKey, f.nonce, f.certificate, Some(kid.value), PostAsGet);
      if jws.Err? then Run(t, Err(jws.error))
      else
        var sent := Send(w, t, Post(f.certificate, jws.value));
        if sent.result.Err? then Run(sent.trace, Err(sent.result.error))
        else
          var now, swap := w.now(sent.trace), w.swap(sent.trace);
          Run(sent.trace, Certificates(l.identifier, l.certificate, c.order, now, swap, l.pems(sent.result.value.body)))
  }

  /** `verify_leaf_certificate`, after path validation */
  function LeafFault(l: Library, a: Initialized, leaf: Certificate): (fault: Option<Error>) {
    var c, key, id := a.config, l.publicKey(a.config.alg, a.signKey), l.identity(leaf);
    if l.certificateAlg(leaf) != c.alg then Some(AlgorithmMismatch)
    else if key.None? then Some(Panic)
    else if key.value != l.certificateKey(leaf) then Some(KeyMismatch)
    else if id.None? then Some(InvalidCertificate)
    else if l.clientId(id.value.clientId).None? then Some(InvalidClientId)
    else if l.clientId(id.value.clientId).value != c.clientId then Some(ClientIdMismatch)
    else if id.value.displayName != c.displayName then Some(DisplayNameMismatch)
    else if l.qualify(c.handle, c.domain).None? then Some(Panic)
    else if id.value.handle != l.qualify(c.handle, c.domain).value then Some(HandleMismatch)
    else if id.value.domain != c.domain then Some(DomainMismatch)
    else None
  }

  /** `verify_cert_chain` */
  function ChainFault(
    l: Library, a: Initialized, anchors: seq<Certificate>, certs: seq<Certificate>
  ): (fault: Option<Error>) {
    if certs == [] then Some(Panic)
    else if !l.validChain(anchors, certs[1..], certs[0]) then Some(InvalidCertificate)
    else if LeafFault(l, a, certs[0]).Some? then LeafFault(l, a, certs[0])
    else if !l.keyIdentifiers(certs[0]) then Some(InvalidCertificate)
    else None
  }

  /** The credential: the signing key pair and its certificate chain. */
  datatype Credential = Credential(key: Key, chain: seq<Certificate>)

  /** From the completed challenges to the credential. */
  function CollectCredential(w: World, l: Library, t: Trace, c: Completed, nonce: string): (r: Run<Credential>) {
    var finalized := FinalizeOrder(w, l, t, c, nonce);
    if finalized.result.Err? then Run(finalized.trace, Err(finalized.result.error))
    else
      var fetched := FetchCertificates(w, l, finalized.trace, c, finalized.result.value);
      if fetched.result.Err? then Run(fetched.trace, Err(fetched.result.error))
      else
        var fault := ChainFault(l, c.start, w.anchors(fetched.trace), fetched.result.value);
        if fault.Some? then Run(fetched.trace, Err(fault.value))
        else Run(fetched.trace, Ok(Credential(c.start.signKey, fetched.result.value)))
  }

  /** From the identity token to the credential. */
  function RedeemToken(w: World, l: Library, t: Trace, c: Completed, idToken: string): (r: Run<Credential>) {
    var answered := AnswerChallenge(w, l, t, c.start, c.account, c.oidc, IdToken(idToken), c.nonce);
    if answered.result.Err? then Run(answered.trace, Err(answered.result.error))
    else CollectCredential(w, l, answered.trace, c, answered.result.value)
  }

  /** `complete_oidc_challenge` */
  function CompleteOidc(w: World, l: Library, t: Trace, c: Completed): (r: Run<Credential>) {
    var token := FetchIdToken(w, l, t, c);
    if token.result.Err? then Run(token.trace, Err(token.result.error))
    else RedeemToken(w, l, token.trace, c, token.result.value)
  }

  /** The whole acquisition. */
  function Acquire(w: World, l: Library, t: Trace, a: Initialized): (r: Run<Credential>) {
    var half := CompleteDpop(w, l, t, a);
    if half.result.Err? then Run(half.trace, Err(half.result.error))
    else CompleteOidc(w, l, half.trace, half.result.value)
  }

  /** `deserialize` followed by `complete_oidc_challenge` */
  function Resume(w: World, l: Library, t: Trace, snapshot: Bytes): (r: Run<Credential>) {
    var c := l.deserialize(snapshot);
    if c.None? then Run(t, Err(Malformed)) else CompleteOidc(w, l, t, c.value)
  }
}
