/**
  What the ACME client checks in the server's answers: accounts, orders, authorizations,
  challenges and the final list of certificates. Parsing and cryptography are parameters.
 */
module Acme {
  import opened Base
  import ClientIds

  type Url = string

  /** A key pair in PEM form. */
  type Key = Bytes

  type Certificate = Bytes

  datatype Identifier = User(json: string) | Device(json: string)

  datatype WireIdentifier = WireIdentifier(clientId: Option<string>, handle: string, name: string, domain: string)

  /** The identity the certificate request is made for. */
  datatype CanonicalIdentifier = CanonicalIdentifier(clientId: string, handle: string, name: string, domain: string)

  datatype Error =
    | HookFailed
    | MissingHeader
    | Malformed
    | SigningFailed
    | AccountUnusable
    | OrderNotPending
    | WrongIdentifiers
    | Expired
    | NotYetValid
    | NoClientId
    | AuthorizationNotPending
    | InvalidChallengeType
    | InvalidToken
    | ChallengeNotValid
    | NoCertificates
    | InvalidHandle
    | InvalidCertificate
    | AlgorithmMismatch
    | KeyMismatch
    | InvalidClientId
    | ClientIdMismatch
    | DisplayNameMismatch
    | HandleMismatch
    | DomainMismatch
    | Panic

  datatype Directory = Directory(newNonce: Url, newAccount: Url, newOrder: Url)

  datatype AccountStatus = AccountValid | AccountDeactivated | AccountRevoked

  datatype Account = Account(status: AccountStatus, orders: Option<Url>)

  datatype OrderStatus = OrderPending | OrderReady | OrderProcessing | OrderValid | OrderInvalid

  datatype Order = Order(
    status: OrderStatus,
    finalize: Url,
    identifiers: (Identifier, Identifier),
    authorizations: (Url, Url),
    expires: Option<int>,
    notBefore: Option<int>,
    notAfter: Option<int>)

  datatype ChallengeType = WireDpop | WireOidc | OtherChallenge

  datatype ChallengeStatus = ChallengePending | ChallengeProcessing | ChallengeValid | ChallengeInvalid

  datatype Challenge = Challenge(typ: ChallengeType, url: Url, status: Option<ChallengeStatus>, token: Bytes,
                                 target: Url)

  datatype AuthorizationStatus =
    AuthzPending | AuthzValid | AuthzInvalid | AuthzRevoked | AuthzDeactivated | AuthzExpired

  datatype Authorization =
    Authorization(status: AuthorizationStatus, expires: Option<int>, challenge: Challenge, identifier: Identifier)

  /** Parses the JSON text of an identifier. */
  type IdentifierParser = string -> Option<WireIdentifier>

  function Past(limit: Option<int>, now: int): (b: bool) {
    limit.Some? && limit.value < now
  }

  // ----- Orders -----

  /** The distinct identifiers, in the order a hash set happens to give them. */
  function Identifiers(o: Order, swap: bool): (ids: seq<Identifier>) {
    var (a, b) := o.identifiers;
    if a == b then [a] else if swap then [b, a] else [a, b]
  }

  function ParseAll(parse: IdentifierParser, ids: seq<Identifier>): (r: Option<seq<WireIdentifier>>)
    ensures r.Some? ==> |r.value| == |ids|
  {
    if ids == [] then Some([])
    else
      var first, rest := parse(ids[0].json), ParseAll(parse, ids[1..]);
      if first.None? || rest.None? then None else Some([first.value] + rest.value)
  }

  predicate Agree(a: WireIdentifier, b: WireIdentifier) {
    a.handle == b.handle && a.name == b.name && a.domain == b.domain
  }

  /** `AcmeOrder::verify`: what is wrong with the order, if anything. */
  function OrderFault(parse: IdentifierParser, o: Order, now: int, swap: bool): (fault: Option<Error>) {
    var ids := ParseAll(parse, Identifiers(o, swap));
    if ids.None? then Some(Malformed)
    else if |ids.value| != 2 || !Agree(ids.value[0], ids.value[1]) then Some(WrongIdentifiers)
    else if Past(o.expires, now) || Past(o.notAfter, now) then Some(Expired)
    else if o.notBefore.Some? && now < o.notBefore.value then Some(NotYetValid)
    else None
  }

  /** Both identifiers parse, differ, and describe the same person. */
  ghost predicate SamePerson(parse: IdentifierParser, o: Order) {
    var (a, b) := o.identifiers;
    a != b && parse(a.json).Some? && parse(b.json).Some? &&
    var x, y := parse(a.json).value, parse(b.json).value;
    x.handle == y.handle && x.name == y.name && x.domain == y.domain
  }

  /** The clock is within every limit the order sets. */
  ghost predicate InTime(o: Order, now: int) {
    && (o.expires.Some? ==> now <= o.expires.value)
    && (o.notAfter.Some? ==> now <= o.notAfter.value)
    && (o.notBefore.Some? ==> o.notBefore.value <= now)
  }

  function One(parse: IdentifierParser, a: Identifier): (r: Option<seq<WireIdentifier>>) {
    if parse(a.json).None? then None else Some([parse(a.json).value])
  }

  lemma ParseOne(parse: IdentifierParser, a: Identifier)
    ensures ParseAll(parse, [a]) == One(parse, a)
  {
    var none: seq<WireIdentifier> := [];
    assert [a][1..] == [];
    if parse(a.json).Some? {
      assert [parse(a.json).value] + none == [parse(a.json).value];
    }
  }

  lemma ParsePair(parse: IdentifierParser, a: Identifier, b: Identifier)
    ensures ParseAll(parse, [a]) == One(parse, a)
    ensures ParseAll(parse, [a, b]) ==
            if parse(a.json).None? || parse(b.json).None? then None
            else Some([parse(a.json).value, parse(b.json).value])
  {
    ParseOne(parse, a);
    ParseOne(parse, b);
    assert [a, b][1..] == [b];
    if parse(a.json).Some? && parse(b.json).Some? {
      var x, y := parse(a.json).value, parse(b.json).value;
      assert [x] + [y] == [x, y];
    }
  }

  /** What is accepted, and which error is given otherwise, in terms of the order alone. */
  lemma OrderAcceptedIff(parse: IdentifierParser, o: Order, now: int, swap: bool)
    ensures OrderFault(parse, o, now, swap).None? <==> SamePerson(parse, o) && InTime(o, now)
    ensures var (fault, (a, b)) := (OrderFault(parse, o, now, swap), o.identifiers);
            && (fault == Some(Malformed) <==> parse(a.json).None? || parse(b.json).None?)
            && (fault == Some(WrongIdentifiers) <==>
                  parse(a.json).Some? && parse(b.json).Some? && !SamePerson(parse, o))
            && (fault == Some(NotYetValid) ==> o.notBefore.Some? && now < o.notBefore.value)
            && (fault == Some(Expired) ==>
                  (o.expires.Some? && o.expires.value < now) || (o.notAfter.Some? && o.notAfter.value < now))
  {
    var (a, b) := o.identifiers;
    ParsePair(parse, a, b);
    ParsePair(parse, b, a);
  }

  /** The verdict, and the error, do not depend on the iteration order of the hash set. */
  lemma OrderVerdictIgnoresSetOrder(parse: IdentifierParser, o: Order, now: int)
    ensures OrderFault(parse, o, now, true) == OrderFault(parse, o, now, false)
  {
    var (a, b) := o.identifiers;
    ParsePair(parse, a, b);
    ParsePair(parse, b, a);
  }

  /** `try_get_coalesce_identifier`: the identity of the first device identifier. */
  function Coalesce(parse: IdentifierParser, o: Order): (r: Result<CanonicalIdentifier, Error>) {
    var (a, b) := o.identifiers;
    if !a.Device? && !b.Device? then Err(WrongIdentifiers)
    else
      var id := parse(if a.Device? then a.json else b.json);
      if id.None? then Err(Malformed)
      else if id.value.clientId.None? then Err(NoClientId)
      else Ok(CanonicalIdentifier(id.value.clientId.value, id.value.handle, id.value.name, id.value.domain))
  }

  ghost predicate Describes(parse: IdentifierParser, id: Identifier, c: CanonicalIdentifier) {
    var w := parse(id.json);
    w.Some? && w.value.handle == c.handle && w.value.name == c.name && w.value.domain == c.domain
  }

  /** An accepted order and the identity taken from it, for its first device, agree in both identifiers. */
  lemma CoalescedDescribesBoth(parse: IdentifierParser, o: Order, now: int, swap: bool)
    requires OrderFault(parse, o, now, swap).None? && Coalesce(parse, o).Ok?
    ensures var c, (a, b) := Coalesce(parse, o).value, o.identifiers;
            && Describes(parse, a, c) && Describes(parse, b, c)
            && var d := if a.Device? then a else b;
               d.Device? && parse(d.json).Some? && parse(d.json).value.clientId == Some(c.clientId)
  {
    OrderAcceptedIff(parse, o, now, swap);
  }

  // ----- Authorizations and challenges -----

  const TOKEN_LENGTH := 16

  predicate TypeMatches(z: Authorization) {
    if z.identifier.Device? then z.challenge.typ.WireDpop? else z.challenge.typ.WireOidc?
  }

  /** `new_authz_response`: what is wrong with the authorization, if anything. */
  function AuthorizationFault(z: Authorization, now: int): (fault: Option<Error>) {
    var token := ClientIds.Decode(z.challenge.token);
    if !TypeMatches(z) then Some(InvalidChallengeType)
    else if Past(z.expires, now) then Some(Expired)
    else if token.None? || |token.value| < TOKEN_LENGTH then Some(InvalidToken)
    else if !z.status.AuthzPending? then Some(AuthorizationNotPending)
    else None
  }

  /** Exactly which authorizations are accepted. */
  lemma AuthorizationAcceptedIff(z: Authorization, now: int)
    ensures AuthorizationFault(z, now).None? <==>
            && (match z.identifier
                case Device(_) => z.challenge.typ == WireDpop
                case User(_) => z.challenge.typ == WireOidc)
            && (z.expires.Some? ==> now <= z.expires.value)
            && (exists token :: |token| >= 16 && z.challenge.token == ClientIds.Encode(token))
            && z.status == AuthzPending
  {
    var token := ClientIds.Decode(z.challenge.token);
    if token.Some? {
      ClientIds.EncodeDecode(z.challenge.token);
    }
    if t :| |t| >= 16 && z.challenge.token == ClientIds.Encode(t) {
      ClientIds.DecodeEncode(t);
    }
  }

  /** Puts the two challenges in the order DPoP, OIDC. */
  function Arrange(a: Challenge, b: Challenge): (r: Result<(Challenge, Challenge), Error>) {
    if a.typ.WireDpop? && b.typ.WireOidc? then Ok((a, b))
    else if a.typ.WireOidc? && b.typ.WireDpop? then Ok((b, a))
    else Err(InvalidChallengeType)
  }

  /** Whichever order the server chose, the device's challenge comes first and the user's second. */
  lemma ArrangedByIdentifier(y: Authorization, z: Authorization, now: int, later: int)
    requires AuthorizationFault(y, now).None? && AuthorizationFault(z, later).None?
    ensures Arrange(y.challenge, z.challenge) == Arrange(z.challenge, y.challenge)
    ensures Arrange(y.challenge, z.challenge).Ok? <==> y.identifier.Device? != z.identifier.Device?
    ensures y.identifier.Device? && z.identifier.User? ==>
            Arrange(y.challenge, z.challenge) == Ok((y.challenge, z.challenge))
  {
  }

  // ----- Certificates -----

  function DecodeAll(decode: Bytes -> Option<Certificate>, pems: seq<Bytes>): (r: Option<seq<Certificate>>)
    ensures r.Some? <==> forall i :: 0 <= i < |pems| ==> decode(pems[i]).Some?
    ensures r.Some? ==> |r.value| == |pems| && forall i :: 0 <= i < |pems| ==> decode(pems[i]) == Some(r.value[i])
  {
    if pems == [] then Some([])
    else
      var n := |pems| - 1;
      var before, last := DecodeAll(decode, pems[..n]), decode(pems[n]);
      if before.None? || last.None? then None else Some(before.value + [last.value])
  }

  /** `certificate_response`, given the blocks found in the answer. */
  function Certificates(
    parse: IdentifierParser, decode: Bytes -> Option<Certificate>, o: Order, now: int, swap: bool,
    pems: Option<seq<Bytes>>
  ): (r: Result<seq<Certificate>, Error>)
    ensures r.Ok? ==> r.value != []
  {
    var fault := OrderFault(parse, o, now, swap);
    if fault.Some? then Err(fault.value)
    else if pems.None? then Err(Malformed)
    else if pems.value == [] then Err(NoCertificates)
    else
      var certs := DecodeAll(decode, pems.value);
      if certs.None? then Err(Malformed) else Ok(certs.value)
  }

  /** Success returns exactly the decoded blocks, in order, and only for an order that verifies. */
  lemma CertificatesIff(
    parse: IdentifierParser, decode: Bytes -> Option<Certificate>, o: Order, now: int, swap: bool,
    pems: Option<seq<Bytes>>, certs: seq<Certificate>)
    ensures Certificates(parse, decode, o, now, swap, pems) == Ok(certs) <==>
            && SamePerson(parse, o) && InTime(o, now)
            && pems.Some? && pems.value != [] && |certs| == |pems.value|
            && forall i :: 0 <= i < |certs| ==> decode(pems.value[i]) == Some(certs[i])
  {
    OrderAcceptedIff(parse, o, now, swap);
    if pems.Some? && DecodeAll(decode, pems.value).Some? && |certs| == |pems.value| {
      var all := DecodeAll(decode, pems.value).value;
      if forall i :: 0 <= i < |certs| ==> decode(pems.value[i]) == Some(certs[i]) {
        assert all == certs;
      }
    }
  }

  /** The loop of `certificate_response`, which stops at the first block that is not a certificate. */
  method CertificateResponse(
    parse: IdentifierParser, decode: Bytes -> Option<Certificate>, o: Order, now: int, swap: bool,
    pems: Option<seq<Bytes>>
  ) returns (r: Result<seq<Certificate>, Error>)
    ensures r == Certificates(parse, decode, o, now, swap, pems)
  {
    var fault := OrderFault(parse, o, now, swap);
    if fault.Some? {
      return Err(fault.value);
    }
    if pems.None? {
      return Err(Malformed);
    }
    if pems.value == [] {
      return Err(NoCertificates);
    }
    var certs := [];
    for i := 0 to |pems.value|
      invariant DecodeAll(decode, pems.value[..i]) == Some(certs)
    {
      var cert := decode(pems.value[i]);
      assert pems.value[..i + 1][..i] == pems.value[..i];
      if cert.None? {
        return Err(Malformed);
      }
      certs := certs + [cert.value];
    }
    assert pems.value[..|pems.value|] == pems.value;
    return Ok(certs);
  }
}
