/** The scan over certification paths that decides whether a certificate is accepted. */
module PathScan {
  import opened Base

  datatype Status = Valid | RevocationNotDetermined | RevocationNotAvailable | Rejected(code: int)

  datatype Error = PathsUnavailable | NoPathsFound | NoStatus | Invalid(status: Status)

  /**
    The two checks of a path. The first depends on whether CRL checking has been switched on, since
    both share one settings object; either may leave no status behind.
   */
  datatype Checks<!P> = Checks(validate: (P, bool) -> Option<Status>, revocation: P -> Option<Status>)

  /** A missing CRL is not a failure. */
  ghost predicate Fine(s: Option<Status>) {
    s in {Some(Valid), Some(RevocationNotDetermined), Some(RevocationNotAvailable)}
  }

  /** `check_cpr`: a missing status is a failure, and any other is reported as it is. */
  function StatusFault(s: Option<Status>): (fault: Option<Error>)
    ensures fault.None? <==> Fine(s)
    ensures !Fine(s) ==> fault == Some(if s.None? then NoStatus else Invalid(s.value))
  {
    match s
    case None => Some(NoStatus)
    case Some(Rejected(_)) => Some(Invalid(s.value))
    case Some(_) => None
  }

  // ----- What the scan should do -----

  /** CRL checking is on when a path is reached: revocation is asked for and an earlier path was fine without it. */
  ghost predicate SwitchedOn<P>(c: Checks<P>, paths: seq<P>, revocation: bool, i: nat)
    requires i <= |paths|
  {
    revocation && exists j :: 0 <= j < i && Fine(c.validate(paths[j], false))
  }

  /** The path is fine with the setting it is reached with, and not revoked if that is asked for. */
  ghost predicate Passes<P>(c: Checks<P>, paths: seq<P>, revocation: bool, i: nat)
    requires i < |paths|
  {
    && Fine(c.validate(paths[i], SwitchedOn(c, paths, revocation, i)))
    && (revocation ==> Fine(c.revocation(paths[i])))
  }

  ghost predicate SomePathPasses<P>(c: Checks<P>, paths: seq<P>, revocation: bool) {
    exists i :: 0 <= i < |paths| && Passes(c, paths, revocation, i)
  }

  /** The first check that was not fine. */
  ghost function FailedStatus<P>(c: Checks<P>, paths: seq<P>, revocation: bool, i: nat): Option<Status>
    requires i < |paths|
  {
    var s := c.validate(paths[i], SwitchedOn(c, paths, revocation, i));
    if Fine(s) then c.revocation(paths[i]) else s
  }

  lemma SwitchedOnNext<P>(c: Checks<P>, paths: seq<P>, revocation: bool, i: nat)
    requires i < |paths|
    ensures var on := SwitchedOn(c, paths, revocation, i);
            SwitchedOn(c, paths, revocation, i + 1) <==> on || (revocation && Fine(c.validate(paths[i], on)))
  {
  }

  /**
    `validate_cert_internal`: accepts exactly when some path passes every check that is asked for, and otherwise reports
    the status that failed on the last path; it never falls through to acceptance.
   */
  method ValidateCert<P>(c: Checks<P>, found: Option<seq<P>>, revocation: bool) returns (fault: Option<Error>)
    ensures found.None? ==> fault == Some(PathsUnavailable)
    ensures found == Some([]) ==> fault == Some(NoPathsFound)
    ensures fault.None? <==> found.Some? && SomePathPasses(c, found.value, revocation)
    ensures fault.Some? && found.Some? && found.value != [] ==>
              var s := FailedStatus(c, found.value, revocation, |found.value| - 1);
              !Fine(s) && fault == Some(if s.None? then NoStatus else Invalid(s.value))
  {
    if found.None? {
      return Some(PathsUnavailable);
    }
    var paths := found.value;
    if paths == [] {
      return Some(NoPathsFound);
    }
    var result: Option<Error>, crls := None, false;
    for i := 0 to |paths|
      invariant crls == SwitchedOn(c, paths, revocation, i)
      invariant forall j :: 0 <= j < i ==> !Passes(c, paths, revocation, j)
      invariant i > 0 ==> result == StatusFault(FailedStatus(c, paths, revocation, i - 1)) && result.Some?
    {
      SwitchedOnNext(c, paths, revocation, i);
      var r := StatusFault(c.validate(paths[i], crls));
      if r.None? && revocation {
        crls := true;
        r := StatusFault(c.revocation(paths[i]));
      }
      if r.None? {
        assert Passes(c, paths, revocation, i);
        return None;
      }
      result := r;
    }
    return result;
  }

  /** Checking revocation never accepts what the plain check rejects, although the settings are shared. */
  lemma RevocationNeverWidens<P>(c: Checks<P>, paths: seq<P>)
    requires SomePathPasses(c, paths, true)
    ensures SomePathPasses(c, paths, false)
  {
    var i :| 0 <= i < |paths| && Passes(c, paths, true, i);
    var j := i;
    if SwitchedOn(c, paths, true, i) {
      j :| 0 <= j < i && Fine(c.validate(paths[j], false));
    }
    assert Passes(c, paths, false, j);
  }

  /** When the plain check ignores the shared setting, the order of the paths does not matter. */
  lemma AcceptedIffSomePath<P(!new)>(c: Checks<P>, paths: seq<P>, revocation: bool)
    requires forall p: P :: c.validate(p, true) == c.validate(p, false)
    ensures SomePathPasses(c, paths, revocation) <==>
            exists p :: p in paths && Fine(c.validate(p, false)) && (revocation ==> Fine(c.revocation(p)))
  {
    if SomePathPasses(c, paths, revocation) {
      var i :| 0 <= i < |paths| && Passes(c, paths, revocation, i);
      assert paths[i] in paths;
    }
    if p :| p in paths && Fine(c.validate(p, false)) && (revocation ==> Fine(c.revocation(p))) {
      var i :| 0 <= i < |paths| && paths[i] == p;
      assert Passes(c, paths, revocation, i);
    }
  }
}
