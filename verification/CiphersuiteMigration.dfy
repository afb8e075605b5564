/**
  The migration that maps credentials to ciphersuites: two signature schemes belong to two
  ciphersuites each, and the groups in use decide.
 */
module CiphersuiteMigration {
  import opened Base

  const U32 := 0x1_0000_0000

  // Numbers of the MLS ciphersuites.
  const ED25519_AES := 1
  const P256 := 2
  const ED25519_CHACHA := 3
  const ED448_AES := 4
  const P521 := 5
  const ED448_CHACHA := 6
  const P384 := 7

  datatype Scheme = EcdsaP256 | EcdsaP384 | EcdsaP521 | Ed25519 | Ed448

  /** Counters of 32 bits. */
  datatype Occurrences = Occurrences(ed25519Aes: int, ed25519Chacha: int, ed448Aes: int, ed448Chacha: int)

  const AMBIGUOUS := {ED25519_AES, ED25519_CHACHA, ED448_AES, ED448_CHACHA}

  function Of(o: Occurrences, suite: int): (n: Option<int>)
    ensures n.Some? <==> suite in AMBIGUOUS
  {
    if suite == ED25519_AES then Some(o.ed25519Aes)
    else if suite == ED25519_CHACHA then Some(o.ed25519Chacha)
    else if suite == ED448_AES then Some(o.ed448Aes)
    else if suite == ED448_CHACHA then Some(o.ed448Chacha)
    else None
  }

  function Bump(o: Occurrences, suite: int): (r: Occurrences) {
    if suite == ED25519_AES then o.(ed25519Aes := (o.ed25519Aes + 1) % U32)
    else if suite == ED25519_CHACHA then o.(ed25519Chacha := (o.ed25519Chacha + 1) % U32)
    else if suite == ED448_AES then o.(ed448Aes := (o.ed448Aes + 1) % U32)
    else if suite == ED448_CHACHA then o.(ed448Chacha := (o.ed448Chacha + 1) % U32)
    else o
  }

  function Tally(suiteOf: Bytes -> Option<int>, groups: seq<Bytes>): (r: Option<Occurrences>)
    ensures r.Some? <==> forall g :: g in groups ==> suiteOf(g).Some?
  {
    if groups == [] then Some(Occurrences(0, 0, 0, 0))
    else
      var n := |groups| - 1;
      var before, last := Tally(suiteOf, groups[..n]), suiteOf(groups[n]);
      assert groups == groups[..n] + [groups[n]];
      if before.None? || last.None? then None else Some(Bump(before.value, last.value))
  }

  /** `count_ciphersuite_occurences`: one pass over the groups, stopping at one that cannot be read. */
  method CountOccurrences(suiteOf: Bytes -> Option<int>, groups: seq<Bytes>) returns (r: Option<Occurrences>)
    ensures r == Tally(suiteOf, groups)
  {
    var o := Occurrences(0, 0, 0, 0);
    for i := 0 to |groups|
      invariant Tally(suiteOf, groups[..i]) == Some(o)
    {
      var suite := suiteOf(groups[i]);
      if suite.None? {
        return None;
      }
      assert groups[..i + 1][..i] == groups[..i];
      o := Bump(o, suite.value);
    }
    assert groups[..|groups|] == groups;
    return Some(o);
  }

  // ----- What is counted -----

  function Count(suiteOf: Bytes -> Option<int>, groups: seq<Bytes>, suite: int): (n: nat)
    ensures n <= |groups|
  {
    if groups == [] then 0
    else
      var n := |groups| - 1;
      Count(suiteOf, groups[..n], suite) + if suiteOf(groups[n]) == Some(suite) then 1 else 0
  }

  lemma WrappedIncrement(n: nat)
    ensures (n % U32 + 1) % U32 == (n + 1) % U32
  {
  }

  lemma {:induction false} TallyCounts(suiteOf: Bytes -> Option<int>, groups: seq<Bytes>, suite: int)
    requires Tally(suiteOf, groups).Some? && suite in AMBIGUOUS
    ensures Of(Tally(suiteOf, groups).value, suite) == Some(Count(suiteOf, groups, suite) % U32)
  {
    if groups != [] {
      var n := |groups| - 1;
      TallyCounts(suiteOf, groups[..n], suite);
      WrappedIncrement(Count(suiteOf, groups[..n], suite));
    }
  }

  lemma {:induction false} CountWithout(suiteOf: Bytes -> Option<int>, groups: seq<Bytes>, k: nat, suite: int)
    requires k < |groups|
    ensures Count(suiteOf, groups, suite) ==
            Count(suiteOf, groups[..k] + groups[k + 1..], suite) + if suiteOf(groups[k]) == Some(suite) then 1 else 0
  {
    var n := |groups| - 1;
    var rest := groups[..k] + groups[k + 1..];
    if k == n {
      assert rest == groups[..n];
    } else {
      CountWithout(suiteOf, groups[..n], k, suite);
      assert rest[..n - 1] == groups[..n][..k] + groups[..n][k + 1..];
      assert rest[n - 1] == groups[n];
    }
  }

  lemma MultisetWithout(s: seq<Bytes>, k: nat)
    requires k < |s|
    ensures multiset(s[..k] + s[k + 1..]) == multiset(s) - multiset{s[k]}
  {
    assert s == s[..k] + [s[k]] + s[k + 1..];
  }

  lemma {:induction false} CountIgnoresOrder(suiteOf: Bytes -> Option<int>, g: seq<Bytes>, h: seq<Bytes>, suite: int)
    requires multiset(g) == multiset(h)
    ensures Count(suiteOf, g, suite) == Count(suiteOf, h, suite)
    decreases |g|
  {
    if g == [] {
      assert |h| == |multiset(h)| == |multiset(g)| == 0;
    } else {
      var n := |g| - 1;
      assert g[n] in multiset(g);
      var k :| 0 <= k < |h| && h[k] == g[n];
      var rest := h[..k] + h[k + 1..];
      MultisetWithout(g, n);
      MultisetWithout(h, k);
      assert g[..n] + g[n + 1..] == g[..n];
      CountIgnoresOrder(suiteOf, g[..n], rest, suite);
      CountWithout(suiteOf, h, k, suite);
    }
  }

  /** The order in which the groups are listed does not matter. */
  lemma TallyIgnoresOrder(suiteOf: Bytes -> Option<int>, g: seq<Bytes>, h: seq<Bytes>)
    requires multiset(g) == multiset(h)
    ensures Tally(suiteOf, g) == Tally(suiteOf, h)
  {
    forall x ensures x in g <==> x in h {
      assert x in g <==> x in multiset(g);
      assert x in h <==> x in multiset(h);
    }
    if Tally(suiteOf, g).Some? {
      var a, b := Tally(suiteOf, g).value, Tally(suiteOf, h).value;
      forall s | s in AMBIGUOUS ensures Of(a, s) == Of(b, s) {
        TallyCounts(suiteOf, g, s);
        TallyCounts(suiteOf, h, s);
        CountIgnoresOrder(suiteOf, g, h, s);
      }
      assert Of(a, ED25519_AES) == Of(b, ED25519_AES) && Of(a, ED25519_CHACHA) == Of(b, ED25519_CHACHA);
      assert Of(a, ED448_AES) == Of(b, ED448_AES) && Of(a, ED448_CHACHA) == Of(b, ED448_CHACHA);
    }
  }

  // ----- The two choices -----

  function Pick(aes: int, a: int, chacha: int, b: int): (r: Option<int>) {
    if a == 0 && b == 0 then None else if a >= b then Some(aes) else Some(chacha)
  }

  /** `make_ciphersuite_for_signature_scheme` */
  function SuiteFor(o: Occurrences, scheme: Scheme): (r: Option<int>) {
    match scheme
    case EcdsaP256 => Some(P256)
    case EcdsaP384 => Some(P384)
    case EcdsaP521 => Some(P521)
    case Ed25519 => Pick(ED25519_AES, o.ed25519Aes, ED25519_CHACHA, o.ed25519Chacha)
    case Ed448 => Pick(ED448_AES, o.ed448Aes, ED448_CHACHA, o.ed448Chacha)
  }

  /** `make_least_used_ciphersuite` */
  function LeastUsed(o: Occurrences, a: int, b: int): (r: Option<int>) {
    var m, n := Of(o, a), Of(o, b);
    if m.None? || n.None? || (m.value == 0 && n.value == 0) then None
    else if m.value < n.value then Some(a)
    else if m.value > n.value then Some(b)
    else if a > b then Some(a) else Some(b)
  }

  function SchemeOf(suite: int): (r: Option<Scheme>) {
    match suite
    case 1 => Some(Ed25519)
    case 2 => Some(EcdsaP256)
    case 3 => Some(Ed25519)
    case 4 => Some(Ed448)
    case 5 => Some(EcdsaP521)
    case 6 => Some(Ed448)
    case 7 => Some(EcdsaP384)
    case _ => None
  }

  /** The two ciphersuites of an ambiguous scheme. */
  function Pair(scheme: Scheme): (p: (int, int))
    ensures p == if scheme.Ed25519? then (1, 3) else (4, 6)
  {
    if scheme.Ed25519? then (ED25519_AES, ED25519_CHACHA) else (ED448_AES, ED448_CHACHA)
  }

  /** The choice inverts the map from ciphersuites to signature schemes. */
  lemma ChoiceInverts(o: Occurrences, scheme: Scheme)
    ensures SuiteFor(o, scheme).Some? ==> SchemeOf(SuiteFor(o, scheme).value) == Some(scheme)
  {
  }

  lemma LeastUsedIsSymmetric(o: Occurrences, a: int, b: int)
    ensures LeastUsed(o, a, b) == LeastUsed(o, b, a)
  {
  }

  /**
    Of two suites that are counted, it is one with the fewer groups, and of two with equally many the higher number.
   */
  lemma LeastUsedIsLeast(o: Occurrences, a: int, b: int)
    ensures LeastUsed(o, a, b).None? <==>
            a !in AMBIGUOUS || b !in AMBIGUOUS || (Of(o, a) == Some(0) && Of(o, b) == Some(0))
    ensures LeastUsed(o, a, b).Some? ==>
              var s := LeastUsed(o, a, b).value;
              && s in {a, b} && Of(o, s).value <= Of(o, a).value && Of(o, s).value <= Of(o, b).value
              && (Of(o, a) == Of(o, b) ==> a <= s && b <= s)
  {
  }

  /** The suite a credential is mapped to and the suite given up are the two different members, or both undefined. */
  lemma ChosenAndLeastUsedDiffer(o: Occurrences, scheme: Scheme)
    requires scheme.Ed25519? || scheme.Ed448?
    ensures var (aes, chacha) := Pair(scheme);
            match (SuiteFor(o, scheme), LeastUsed(o, aes, chacha))
            case (Some(kept), Some(lost)) => (kept, lost) == (aes, chacha) || (kept, lost) == (chacha, aes)
            case (None, None) => true
            case _ => false
  {
  }

  lemma {:induction false} ExactCount(suiteOf: Bytes -> Option<int>, groups: seq<Bytes>, suite: int)
    requires Tally(suiteOf, groups).Some? && |groups| < U32 && suite in AMBIGUOUS
    ensures Of(Tally(suiteOf, groups).value, suite) == Some(Count(suiteOf, groups, suite))
  {
    TallyCounts(suiteOf, groups, suite);
  }

  /** With fewer than 2^32 groups, the choice keeps at least half of the groups of the scheme. */
  lemma {:induction false} ChoiceKeepsMajority(suiteOf: Bytes -> Option<int>, groups: seq<Bytes>, scheme: Scheme)
    requires Tally(suiteOf, groups).Some? && |groups| < U32
    requires scheme.Ed25519? || scheme.Ed448?
    ensures var (aes, chacha) := Pair(scheme);
            var a, b := Count(suiteOf, groups, aes), Count(suiteOf, groups, chacha);
            match SuiteFor(Tally(suiteOf, groups).value, scheme)
            case None => a == 0 && b == 0
            case Some(kept) => kept in {aes, chacha} && a + b > 0 && 2 * Count(suiteOf, groups, kept) >= a + b
                               && (a == b ==> kept == aes)
  {
    var (aes, chacha) := Pair(scheme);
    ExactCount(suiteOf, groups, aes);
    ExactCount(suiteOf, groups, chacha);
  }

  /** Without that bound the counters wrap, and a scheme in use can look unused. */
  lemma WrappedCounterHidesGroups(suiteOf: Bytes -> Option<int>, groups: seq<Bytes>)
    requires |groups| == U32 && forall g :: g in groups ==> suiteOf(g) == Some(ED25519_AES)
    ensures Tally(suiteOf, groups).Some? && SuiteFor(Tally(suiteOf, groups).value, Ed25519) == None
    ensures Count(suiteOf, groups, ED25519_AES) == |groups|
  {
    AllCounted(suiteOf, groups);
    TallyCounts(suiteOf, groups, ED25519_AES);
    TallyCounts(suiteOf, groups, ED25519_CHACHA);
  }

  lemma {:induction false} AllCounted(suiteOf: Bytes -> Option<int>, groups: seq<Bytes>)
    requires forall g :: g in groups ==> suiteOf(g) == Some(ED25519_AES)
    ensures Count(suiteOf, groups, ED25519_AES) == |groups| && Count(suiteOf, groups, ED25519_CHACHA) == 0
  {
    if groups != [] {
      AllCounted(suiteOf, groups[..|groups| - 1]);
    }
  }
}
