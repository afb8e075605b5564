/**
  Who holds the single transaction permit, over every interleaving of context creation, PKI
  operations, commits, rollbacks, closes and dropped calls. Each step is one stretch of code between
  two awaits, so `finish` is several: it commits, announces the queued epochs one by one, and only then
  makes the context invalid. A caller may drop the call at any of these points.
 */
module Permits {
  import opened Base

  type Actor = nat

  type Event = (Bytes, nat)

  /** How far one caller has come. */
  datatype Phase =
    | Opening                        // a context being created: permit acquired, transaction not yet installed
    | Valid(queue: seq<Event>)       // a usable transaction context
    | Committed(queue: seq<Event>)   // inside `finish`: committed, announcing not begun
    | Draining(queue: seq<Event>)    // inside `finish`: announcing, these are left
    | Refused(queue: seq<Event>)     // inside `finish`: the commit failed
    | Invalid                        // a context that was finished or aborted
    | Starting                       // a PKI operation: permit acquired, transaction not yet installed
    | Owning                         // a PKI operation inside the transaction it created
    | Joined                         // a PKI operation that found the permit taken
    | Taking                         // close or wipe: permit acquired, connection not yet taken
    | Done

  /** A commit names who made it and who had opened the transaction. */
  datatype System = System(
    free: nat,
    connected: bool,
    tx: Option<Actor>,
    actors: map<Actor, Phase>,
    commits: seq<(Actor, Actor)>,
    delivered: seq<(Actor, Event)>)

  const INITIAL := System(1, true, None, map[], [], [])

  datatype Step =
    | OpenAcquire(a: Actor)
    | OpenInstall(a: Actor)
    | Queue(a: Actor, event: Event)
    | Finish(a: Actor, accepted: bool)
    | BeginDrain(a: Actor)
    | Notify(a: Actor)
    | Invalidate(a: Actor)
    // the future of `finish` is dropped before it made the context invalid
    | DropFinish(a: Actor)
    | Abort(a: Actor)
    | TryAcquire(a: Actor)
    | Install(a: Actor)
    | CommitOwn(a: Actor, accepted: bool)
    | RollbackOwn(a: Actor)
    | LeaveJoined(a: Actor)
    | TakeAcquire(a: Actor)
    | TakeConnection(a: Actor)
    // the future is dropped while it still holds the permit
    | Cancel(a: Actor)
    // the caller drops a context, or the future of a PKI operation, without ending the transaction
    | Forget(a: Actor)

  predicate Usable(s: System, a: Actor) {
    a in s.actors && s.actors[a].Valid?
  }

  predicate At(s: System, a: Actor, p: Phase) {
    a in s.actors && s.actors[a] == p
  }

  predicate InFlightPhase(p: Phase) {
    p.Opening? || p.Starting? || p.Taking?
  }

  /** Inside `finish`, between its first and its last await. */
  predicate FinishingPhase(p: Phase) {
    p.Committed? || p.Draining? || p.Refused?
  }

  predicate Enabled(s: System, step: Step) {
    var a := step.a;
    if step.OpenAcquire? || step.TakeAcquire? then a !in s.actors && s.free > 0
    else if step.TryAcquire? then a !in s.actors
    else
      a in s.actors &&
      var p := s.actors[a];
      match step
      case OpenInstall(_) => p.Opening?
      case Queue(_, _) => p.Valid?
      case Finish(_, _) => p.Valid?
      case BeginDrain(_) => p.Committed?
      case Notify(_) => p.Draining? && p.queue != []
      case Invalidate(_) => p.Refused? || p == Draining([])
      case DropFinish(_) => FinishingPhase(p)
      case Abort(_) => p.Valid?
      case Install(_) => p.Starting?
      case CommitOwn(_, _) => p.Owning?
      case RollbackOwn(_) => p.Owning?
      case LeaveJoined(_) => p.Joined?
      case TakeConnection(_) => p.Taking?
      case Cancel(_) => InFlightPhase(p)
      case Forget(_) => p.Valid? || p.Owning?
  }

  function Enter(s: System, a: Actor, p: Phase): (r: System) {
    s.(actors := s.actors[a := p])
  }

  predicate Commits(s: System, accepted: bool) {
    s.tx.Some? && s.connected && accepted
  }

  /** `Database::commit_transaction`: on success the transaction, and with it the permit, is dropped. */
  function CommitTransaction(s: System, a: Actor, accepted: bool): (r: System) {
    if Commits(s, accepted) then s.(tx := None, free := s.free + 1, commits := s.commits + [(a, s.tx.value)]) else s
  }

  function RollbackTransaction(s: System): (r: System) {
    if s.tx.Some? then s.(tx := None, free := s.free + 1) else s
  }

  /** Dropping the drain of the queue drops the events that are left in it. */
  function AfterDrop(p: Phase): (q: Phase)
    requires FinishingPhase(p)
  {
    if p.Draining? then Valid([]) else Valid(p.queue)
  }

  function Next(s: System, step: Step): (r: System)
    requires Enabled(s, step)
  {
    var a := step.a;
    match step
    case OpenAcquire(_) => Enter(s, a, Opening).(free := s.free - 1)
    case OpenInstall(_) => Enter(s, a, Valid([])).(tx := Some(a))
    case Queue(_, e) => Enter(s, a, Valid(s.actors[a].queue + [e]))
    case Finish(_, accepted) =>
      var q := s.actors[a].queue;
      Enter(CommitTransaction(s, a, accepted), a, if Commits(s, accepted) then Committed(q) else Refused(q))
    case BeginDrain(_) => Enter(s, a, Draining(s.actors[a].queue))
    case Notify(_) =>
      var q := s.actors[a].queue;
      Enter(s, a, Draining(q[1..])).(delivered := s.delivered + [(a, q[0])])
    case Invalidate(_) => Enter(s, a, Invalid)
    case DropFinish(_) => Enter(s, a, AfterDrop(s.actors[a]))
    case Abort(_) => Enter(RollbackTransaction(s), a, Invalid)
    case TryAcquire(_) => if s.free > 0 then Enter(s, a, Starting).(free := s.free - 1) else Enter(s, a, Joined)
    case Install(_) => Enter(s, a, Owning).(tx := Some(a))
    case CommitOwn(_, accepted) => Enter(CommitTransaction(s, a, accepted), a, Done)
    case RollbackOwn(_) => Enter(RollbackTransaction(s), a, Done)
    case LeaveJoined(_) => Enter(s, a, Done)
    case TakeAcquire(_) => Enter(s, a, Taking).(free := s.free - 1)
    case TakeConnection(_) => Enter(s, a, Done).(connected := false, free := s.free + 1)
    case Cancel(_) => Enter(s, a, Done).(free := s.free + 1)
    case Forget(_) => Enter(s, a, if s.actors[a].Valid? then Invalid else Done)
  }

  function Run(s: System, steps: seq<Step>): (r: System) {
    if steps == [] then s
    else
      var before, last := Run(s, steps[..|steps| - 1]), steps[|steps| - 1];
      if Enabled(before, last) then Next(before, last) else before
  }

  ghost predicate IsRun(s: System, steps: seq<Step>) {
    steps == [] ||
    (IsRun(s, steps[..|steps| - 1]) && Enabled(Run(s, steps[..|steps| - 1]), steps[|steps| - 1]))
  }

  // ----- The permit is conserved -----

  ghost function InFlight(s: System): set<Actor> {
    set a | a in s.actors && InFlightPhase(s.actors[a])
  }

  /** Where the opener of the open transaction can be: still in charge, or gone. */
  predicate OpenerPhase(p: Phase) {
    p.Valid? || p.Refused? || p.Owning? || p.Invalid? || p.Done?
  }

  /** The permit is in exactly one place. */
  ghost predicate Inv(s: System) {
    && s.free + |InFlight(s)| + (if s.tx.Some? then 1 else 0) == 1
    && (s.tx.Some? ==> s.tx.value in s.actors && OpenerPhase(s.actors[s.tx.value]))
  }

  function Flight(p: Phase): (n: nat) {
    if InFlightPhase(p) then 1 else 0
  }

  /** Moving one actor to another phase changes the number of permits in flight accordingly. */
  lemma FlightCount(s: System, a: Actor, n: System)
    requires n.actors.Keys == s.actors.Keys + {a}
    requires forall b :: b in s.actors && b != a ==> n.actors[b] == s.actors[b]
    ensures |InFlight(n)| ==
            |InFlight(s)| + Flight(n.actors[a]) - (if a in s.actors then Flight(s.actors[a]) else 0)
  {
    var others := InFlight(s) - {a};
    assert InFlight(s) == if a in s.actors && InFlightPhase(s.actors[a]) then others + {a} else others;
    assert forall b :: b in InFlight(n) <==> b in others || (b == a && InFlightPhase(n.actors[a]));
    assert InFlight(n) == if InFlightPhase(n.actors[a]) then others + {a} else others;
  }

  lemma NoFlightWhileOpen(s: System)
    requires Inv(s) && s.tx.Some?
    ensures s.free == 0
    ensures forall a :: a in s.actors ==> !InFlightPhase(s.actors[a])
  {
    assert InFlight(s) == {};
    forall a | a in s.actors ensures !InFlightPhase(s.actors[a]) {
      assert a !in InFlight(s);
    }
  }

  lemma NextKeepsInv(s: System, step: Step)
    requires Inv(s) && Enabled(s, step)
    ensures Inv(Next(s, step))
  {
    FlightCount(s, step.a, Next(s, step));
    if s.tx.Some? {
      NoFlightWhileOpen(s);
    }
  }

  /**
    In every interleaving, dropped calls included, free permits, permits in flight and open transactions
    add up to one.
   */
  lemma {:induction false} PermitConserved(s: System, steps: seq<Step>)
    requires Inv(s) && IsRun(s, steps)
    ensures Inv(Run(s, steps))
  {
    if steps != [] {
      PermitConserved(s, steps[..|steps| - 1]);
      NextKeepsInv(Run(s, steps[..|steps| - 1]), steps[|steps| - 1]);
    }
  }

  lemma InitialInv()
    ensures Inv(INITIAL)
  {
    assert InFlight(INITIAL) == {};
  }

  /** Installing a transaction never overwrites an open one. */
  lemma InstallFindsNoTransaction(steps: seq<Step>, step: Step)
    requires IsRun(INITIAL, steps) && Enabled(Run(INITIAL, steps), step)
    requires step.OpenInstall? || step.Install?
    ensures Run(INITIAL, steps).tx.None? && Run(INITIAL, steps).free == 0
  {
    InitialInv();
    PermitConserved(INITIAL, steps);
    var s := Run(INITIAL, steps);
    assert InFlight(s) == (InFlight(s) - {step.a}) + {step.a};
  }

  /**
    A PKI operation that finds the permit taken joins a transaction; there is none to join exactly when
    the permit is in flight, with a context or operation that has not installed its transaction yet.
   */
  lemma JoinsNothingIff(s: System, a: Actor)
    requires Inv(s) && a !in s.actors
    ensures At(Next(s, TryAcquire(a)), a, Joined) && Next(s, TryAcquire(a)).tx.None? <==> InFlight(s) != {}
  {
    if InFlight(s) != {} {
      assert |InFlight(s)| >= 1;
    }
  }

  // ----- One context at a time, unless a finish was dropped -----

  /** These calls end whichever transaction is open. */
  predicate Ends(step: Step) {
    step.Finish? || step.Abort? || step.CommitOwn? || step.RollbackOwn?
  }

  /** At most one context is usable, and whoever could end a transaction now is the one who opened it. */
  ghost predicate Orderly(s: System) {
    && (forall a, b :: Usable(s, a) && Usable(s, b) ==> a == b)
    && (forall step :: Ends(step) && Enabled(s, step) ==> s.tx == Some(step.a))
  }

  /** The call of `finish` had committed when it was dropped: the context stays usable without a transaction. */
  predicate Strands(s: System, step: Step) {
    step.DropFinish? && step.a in s.actors && (s.actors[step.a].Committed? || s.actors[step.a].Draining?)
  }

  ghost predicate NeverStrands(s: System, steps: seq<Step>) {
    steps == [] ||
    (NeverStrands(s, steps[..|steps| - 1]) && !Strands(Run(s, steps[..|steps| - 1]), steps[|steps| - 1]))
  }

  ghost predicate AlwaysOrderly(s: System, steps: seq<Step>) {
    Orderly(Run(s, steps)) && (steps != [] ==> AlwaysOrderly(s, steps[..|steps| - 1]))
  }

  /** Whoever is in charge of a transaction, or was just refused its commit, opened it. */
  ghost predicate InCharge(s: System) {
    forall a :: a in s.actors && (s.actors[a].Valid? || s.actors[a].Refused? || s.actors[a].Owning?) ==> s.tx == Some(a)
  }

  lemma InChargeIsOrderly(s: System)
    requires InCharge(s)
    ensures Orderly(s)
  {
  }

  lemma StepKeepsInCharge(s: System, step: Step)
    requires Inv(s) && InCharge(s) && Enabled(s, step) && !Strands(s, step)
    ensures InCharge(Next(s, step))
  {
    if s.tx.Some? {
      NoFlightWhileOpen(s);
    }
  }

  lemma StrandedIsDisorderly(s: System, step: Step)
    requires Inv(s) && Enabled(s, step) && Strands(s, step)
    ensures !Orderly(Next(s, step))
  {
    var n := Next(s, step);
    assert Ends(Abort(step.a)) && Enabled(n, Abort(step.a));
  }

  lemma {:induction false} NeverStrandedInCharge(s: System, steps: seq<Step>)
    requires Inv(s) && InCharge(s) && IsRun(s, steps) && NeverStrands(s, steps)
    ensures InCharge(Run(s, steps))
  {
    if steps != [] {
      NeverStrandedInCharge(s, steps[..|steps| - 1]);
      PermitConserved(s, steps[..|steps| - 1]);
      StepKeepsInCharge(Run(s, steps[..|steps| - 1]), steps[|steps| - 1]);
    }
  }

  /**
    In every run, at most one context is usable and only the opener can end its transaction, at every point,
    exactly when no call of `finish` was dropped between its commit and the invalidation.
   */
  lemma {:induction false} AlwaysOrderlyIff(s: System, steps: seq<Step>)
    requires Inv(s) && InCharge(s) && IsRun(s, steps)
    ensures AlwaysOrderly(s, steps) <==> NeverStrands(s, steps)
  {
    if steps == [] {
      InChargeIsOrderly(s);
    } else {
      var init, last := steps[..|steps| - 1], steps[|steps| - 1];
      AlwaysOrderlyIff(s, init);
      PermitConserved(s, init);
      if NeverStrands(s, init) {
        NeverStrandedInCharge(s, init);
        var before := Run(s, init);
        if Strands(before, last) {
          StrandedIsDisorderly(before, last);
        } else {
          StepKeepsInCharge(before, last);
          InChargeIsOrderly(Next(before, last));
        }
      }
    }
  }

  /** The same for whole runs from the start; then every commit was made by the opener of its transaction. */
  lemma {:induction false} CommitsAreByOpener(steps: seq<Step>, i: nat)
    requires IsRun(INITIAL, steps) && NeverStrands(INITIAL, steps) && i < |Run(INITIAL, steps).commits|
    ensures Run(INITIAL, steps).commits[i].0 == Run(INITIAL, steps).commits[i].1
  {
    var init, last := steps[..|steps| - 1], steps[|steps| - 1];
    var before := Run(INITIAL, init);
    InitialInv();
    NeverStrandedInCharge(INITIAL, init);
    if i < |before.commits| {
      CommitsAreByOpener(init, i);
    }
  }

  /** A context stranded by a dropped `finish` lets a second one in, and then commits its transaction. */
  lemma StrandedContextInterferes(s: System, a: Actor, b: Actor)
    requires Inv(s) && Usable(s, a) && s.tx.None? && s.free == 1 && s.connected && b !in s.actors
    ensures var both := Run(s, [OpenAcquire(b), OpenInstall(b)]);
            && IsRun(s, [OpenAcquire(b), OpenInstall(b)]) && Usable(both, a) && Usable(both, b)
            && Enabled(both, Finish(a, true)) && Next(both, Finish(a, true)).commits == s.commits + [(a, b)]
  {
    var one, two := [OpenAcquire(b)], [OpenAcquire(b), OpenInstall(b)];
    assert one[..0] == [] && two[..1] == one;
    var mid := Next(s, OpenAcquire(b));
    assert Run(s, one) == mid && IsRun(s, one);
    assert Run(s, two) == Next(mid, OpenInstall(b));
  }

  /** The shortest run that gets there: open, commit, drop the call. */
  lemma DroppedFinishStrands(a: Actor)
    ensures var steps := [OpenAcquire(a), OpenInstall(a), Finish(a, true), DropFinish(a)];
            var s := Run(INITIAL, steps);
            IsRun(INITIAL, steps) && Inv(s) && Usable(s, a) && s.tx.None? && s.free == 1 && s.connected
  {
    var steps := [OpenAcquire(a), OpenInstall(a), Finish(a, true), DropFinish(a)];
    assert steps[..3][..2] == steps[..2] && steps[..2][..1] == steps[..1] && steps[..1][..0] == [];
    var s1 := Next(INITIAL, OpenAcquire(a));
    assert Run(INITIAL, steps[..1]) == s1 && IsRun(INITIAL, steps[..1]);
    var s2 := Next(s1, OpenInstall(a));
    assert Run(INITIAL, steps[..2]) == s2 && IsRun(INITIAL, steps[..2]);
    var s3 := Next(s2, Finish(a, true));
    assert Run(INITIAL, steps[..3]) == s3 && IsRun(INITIAL, steps[..3]);
    InitialInv();
    PermitConserved(INITIAL, steps);
  }

  // ----- A transaction nobody can end -----

  /** The opener of the open transaction has let go of it. */
  ghost predicate Orphaned(s: System) {
    s.tx.Some? && (At(s, s.tx.value, Invalid) || At(s, s.tx.value, Done))
  }

  /** A step orphans the transaction exactly when it ends a refused commit, or the opener walks away. */
  lemma OrphansIff(s: System, step: Step)
    requires Inv(s) && InCharge(s) && Enabled(s, step) && !Orphaned(s)
    ensures Orphaned(Next(s, step)) <==>
            || (step.Invalidate? && s.actors[step.a].Refused?)
            || (step.CommitOwn? && !Commits(s, step.accepted))
            || step.Forget?
  {
    if s.tx.Some? {
      NoFlightWhileOpen(s);
    }
  }

  lemma OrphanedStep(s: System, step: Step)
    requires Inv(s) && InCharge(s) && Enabled(s, step) && Orphaned(s)
    ensures Orphaned(Next(s, step)) && Next(s, step).tx == s.tx
    ensures Next(s, step).commits == s.commits && Next(s, step).connected == s.connected
    ensures !step.OpenAcquire? && !step.TakeAcquire?
    ensures step.TryAcquire? ==> At(Next(s, step), step.a, Joined)
  {
    NoFlightWhileOpen(s);
  }

  /**
    Once the transaction is orphaned nothing ends it: in every continuation that strands no context, nothing
    is ever committed again, the connection is never taken, and no context is ever created.
   */
  lemma {:induction false} OrphanedForever(s: System, steps: seq<Step>)
    requires Inv(s) && InCharge(s) && Orphaned(s) && IsRun(s, steps) && NeverStrands(s, steps)
    ensures var e := Run(s, steps);
            Orphaned(e) && e.tx == s.tx && e.commits == s.commits && e.connected == s.connected
    ensures forall step :: step in steps ==> !step.OpenAcquire? && !step.TakeAcquire?
  {
    if steps != [] {
      var init, last := steps[..|steps| - 1], steps[|steps| - 1];
      OrphanedForever(s, init);
      PermitConserved(s, init);
      NeverStrandedInCharge(s, init);
      OrphanedStep(Run(s, init), last);
      assert steps == init + [last];
    }
  }
}
