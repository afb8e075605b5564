/**
  The handle an application holds on an acquisition, with any number of concurrent `finalize` calls.
  A call takes the state out under the lock, works without the lock, and locks again to mark the end.
 */
module AcquisitionHandle {
  import opened Base

  datatype Handle = Initialized | DpopChallengeCompleted | InProgress | Finalized

  datatype Outcome = Credential | Failed | AlreadyInProgress | AlreadyFinalized

  datatype Call =
    | Waiting
    | Working(dpopDone: bool)
    | Returned(outcome: Outcome, took: bool)
    | Dropped(took: bool)

  datatype State = State(handle: Handle, calls: seq<Call>)

  datatype Step =
    | Take(call: nat)
    | FailDpop(call: nat)
    | PassDpop(call: nat)
    | Finish(call: nat, acquired: bool)
    | Drop(call: nat)

  predicate Fresh(h: Handle) {
    h.Initialized? || h.DpopChallengeCompleted?
  }

  /** The call has taken the acquisition out of the handle. */
  predicate Took(c: Call) {
    match c
    case Waiting => false
    case Working(_) => true
    case Returned(_, took) => took
    case Dropped(took) => took
  }

  /** The first locked section of `finalize`. */
  function TakeState(h: Handle): (c: Call) {
    match h
    case Initialized => Working(false)
    case DpopChallengeCompleted => Working(true)
    case InProgress => Returned(AlreadyInProgress, false)
    case Finalized => Returned(AlreadyFinalized, false)
  }

  predicate Enabled(s: State, step: Step) {
    step.call < |s.calls| &&
    var c := s.calls[step.call];
    match step
    case Take(_) => c.Waiting?
    case FailDpop(_) => c.Working? && !c.dpopDone
    case PassDpop(_) => c.Working? && !c.dpopDone
    case Finish(_, _) => c.Working? && c.dpopDone
    case Drop(_) => c.Waiting? || c.Working?
  }

  /** One step of one call; a failed DPoP challenge returns before the handle is locked again. */
  function Next(s: State, step: Step): (r: State)
    requires Enabled(s, step)
    ensures |r.calls| == |s.calls|
  {
    var i := step.call;
    match step
    case Take(_) => State(InProgress, s.calls[i := TakeState(s.handle)])
    case FailDpop(_) => s.(calls := s.calls[i := Returned(Failed, true)])
    case PassDpop(_) => s.(calls := s.calls[i := Working(true)])
    case Finish(_, acquired) => State(Finalized, s.calls[i := Returned(if acquired then Credential else Failed, true)])
    case Drop(_) => s.(calls := s.calls[i := Dropped(Took(s.calls[i]))])
  }

  ghost predicate Runs(s: State, steps: seq<Step>)
    decreases steps
  {
    steps == [] || (Enabled(s, steps[0]) && Runs(Next(s, steps[0]), steps[1..]))
  }

  function After(s: State, steps: seq<Step>): (r: State)
    requires Runs(s, steps)
    ensures |r.calls| == |s.calls|
    decreases steps
  {
    if steps == [] then s else After(Next(s, steps[0]), steps[1..])
  }

  ghost predicate Start(s: State) {
    Fresh(s.handle) && forall i :: 0 <= i < |s.calls| ==> s.calls[i].Waiting?
  }

  // ----- Safety -----

  /** At most one call took the acquisition, and none while the handle still holds it. */
  ghost predicate Inv(s: State) {
    && (forall i, j :: 0 <= i < j < |s.calls| ==> !(Took(s.calls[i]) && Took(s.calls[j])))
    && (Fresh(s.handle) ==> forall i :: 0 <= i < |s.calls| ==> !Took(s.calls[i]))
    && (s.handle.Finalized? ==> forall i :: 0 <= i < |s.calls| ==> !s.calls[i].Working?)
    && (forall i :: 0 <= i < |s.calls| && s.calls[i].Returned? ==>
          (s.calls[i].outcome in {Credential, Failed} <==> s.calls[i].took))
  }

  lemma NextKeepsInv(s: State, step: Step)
    requires Inv(s) && Enabled(s, step)
    ensures Inv(Next(s, step))
    ensures !Fresh(s.handle) ==> !Fresh(Next(s, step).handle)
  {
  }

  lemma {:induction false} RunKeepsInv(s: State, steps: seq<Step>)
    requires Inv(s) && Runs(s, steps)
    ensures Inv(After(s, steps))
    ensures !Fresh(s.handle) ==> !Fresh(After(s, steps).handle)
    decreases steps
  {
    if steps != [] {
      NextKeepsInv(s, steps[0]);
      RunKeepsInv(Next(s, steps[0]), steps[1..]);
    }
  }

  /** In every interleaving at most one call gets a result of the acquisition, credential or failure. */
  lemma AtMostOneTakes(s: State, steps: seq<Step>, i: nat, j: nat)
    requires Start(s) && Runs(s, steps) && i < |After(s, steps).calls| && j < |After(s, steps).calls| && i != j
    ensures var calls := After(s, steps).calls;
            && !(Took(calls[i]) && Took(calls[j]))
            && (calls[i].Returned? && calls[i].outcome.Credential? ==>
                  !(calls[j].Returned? && calls[j].outcome in {Credential, Failed}))
  {
    RunKeepsInv(s, steps);
  }

  /** The handle never goes back to a state that holds the acquisition. */
  lemma NeverFreshAgain(s: State, before: seq<Step>, rest: seq<Step>)
    requires Start(s) && Runs(s, before) && Runs(After(s, before), rest) && !Fresh(After(s, before).handle)
    ensures !Fresh(After(After(s, before), rest).handle)
  {
    RunKeepsInv(s, before);
    RunKeepsInv(After(s, before), rest);
  }

  // ----- What late calls are told -----

  /** The acquisition ran to its end, and no call has looked at the handle since. */
  ghost predicate FinishedUnseen(steps: seq<Step>) {
    steps != [] &&
    var last := steps[|steps| - 1];
    last.Finish? || (!last.Take? && FinishedUnseen(steps[..|steps| - 1]))
  }

  lemma {:induction false} RunsSnoc(s: State, steps: seq<Step>)
    requires steps != [] && Runs(s, steps)
    ensures var n := |steps| - 1;
            && Runs(s, steps[..n]) && Enabled(After(s, steps[..n]), steps[n])
            && After(s, steps) == Next(After(s, steps[..n]), steps[n])
    decreases steps
  {
    var n := |steps| - 1;
    if n > 0 {
      RunsSnoc(Next(s, steps[0]), steps[1..]);
      assert steps[..n][1..] == steps[1..][..n - 1];
      assert steps[1..][n - 1] == steps[n];
    }
  }

  lemma {:induction false} FinalizedIff(s: State, steps: seq<Step>)
    requires Start(s) && Runs(s, steps)
    ensures After(s, steps).handle.Finalized? <==> FinishedUnseen(steps)
  {
    if steps != [] {
      RunsSnoc(s, steps);
      FinalizedIff(s, steps[..|steps| - 1]);
    }
  }

  /**
    A call is told that the acquisition has been finalized exactly when it is the first to look after the
    end: looking puts the handle back to "in progress", which is what every later call is told.
   */
  lemma ToldFinalizedIff(s: State, steps: seq<Step>, call: nat)
    requires Start(s) && Runs(s, steps) && Enabled(After(s, steps), Take(call))
    ensures var calls := Next(After(s, steps), Take(call)).calls;
            calls[call] == Returned(AlreadyFinalized, false) <==> FinishedUnseen(steps)
  {
    FinalizedIff(s, steps);
  }

  /** Nobody is working and the handle says "in progress". */
  ghost predicate Stuck(s: State) {
    s.handle.InProgress? && forall i :: 0 <= i < |s.calls| ==> !s.calls[i].Working?
  }

  /** From there on every call is told "in progress", for ever. */
  lemma {:induction false} StuckForever(s: State, steps: seq<Step>)
    requires Stuck(s) && Runs(s, steps)
    ensures Stuck(After(s, steps))
    ensures forall i :: 0 <= i < |s.calls| && s.calls[i].Waiting? && !After(s, steps).calls[i].Waiting? ==>
              After(s, steps).calls[i] in {Returned(AlreadyInProgress, false), Dropped(false)}
    decreases steps
  {
    if steps != [] {
      StuckForever(Next(s, steps[0]), steps[1..]);
      ReturnedStays(Next(s, steps[0]), steps[1..]);
    }
  }

  lemma {:induction false} ReturnedStays(s: State, steps: seq<Step>)
    requires Runs(s, steps)
    ensures forall i :: 0 <= i < |s.calls| && (s.calls[i].Returned? || s.calls[i].Dropped?) ==>
            After(s, steps).calls[i] == s.calls[i]
    decreases steps
  {
    if steps != [] {
      ReturnedStays(Next(s, steps[0]), steps[1..]);
    }
  }

  /** A failed DPoP challenge, or a dropped call, leaves the handle stuck. */
  lemma FailureSticks(s: State, steps: seq<Step>, step: Step)
    requires Start(s) && Runs(s, steps) && Enabled(After(s, steps), step)
    requires step.FailDpop? || (step.Drop? && After(s, steps).calls[step.call].Working?)
    ensures Stuck(Next(After(s, steps), step))
  {
    RunKeepsInv(s, steps);
  }

  // ----- What the call that took the acquisition returns -----

  /** A call at work has passed DPoP, in this run or before it, and a call that finished returned what it acquired. */
  ghost predicate Tracked(s: State, steps: seq<Step>, e: State, i: nat)
    requires i < |e.calls|
  {
    match e.calls[i]
    case Waiting => forall step :: step in steps ==> step.call != i
    case Working(done) =>
      && (done <==> s.handle.DpopChallengeCompleted? || PassDpop(i) in steps)
      && (PassDpop(i) in steps ==> s.handle.Initialized?)
      && (forall step :: step in steps && step.call == i ==> step.Take? || step.PassDpop?)
    case Returned(outcome, _) =>
      forall acquired :: Finish(i, acquired) in steps ==>
        && outcome == (if acquired then Credential else Failed)
        && (PassDpop(i) in steps <==> s.handle.Initialized?)
    case Dropped(_) => forall acquired :: Finish(i, acquired) !in steps
  }

  lemma TrackedStep(s: State, steps: seq<Step>, e: State, step: Step, i: nat)
    requires Start(s) && i < |e.calls| && Tracked(s, steps, e, i) && Enabled(e, step)
    requires (Fresh(e.handle) ==> e.handle == s.handle)
    ensures Tracked(s, steps + [step], Next(e, step), i)
  {
    var more := steps + [step];
    assert forall x :: x in more <==> x in steps || x == step;
  }

  lemma {:induction false} FreshIsUnchanged(s: State, steps: seq<Step>)
    requires Runs(s, steps) && Fresh(After(s, steps).handle)
    ensures After(s, steps).handle == s.handle
  {
    if steps != [] {
      RunsSnoc(s, steps);
      FreshIsUnchanged(s, steps[..|steps| - 1]);
    }
  }

  lemma {:induction false} RunTracked(s: State, steps: seq<Step>, i: nat)
    requires Start(s) && Runs(s, steps) && i < |s.calls|
    ensures Tracked(s, steps, After(s, steps), i)
  {
    if steps != [] {
      var init, last := steps[..|steps| - 1], steps[|steps| - 1];
      RunsSnoc(s, steps);
      RunTracked(s, init, i);
      if Fresh(After(s, init).handle) {
        FreshIsUnchanged(s, init);
      }
      TrackedStep(s, init, After(s, init), last, i);
      assert init + [last] == steps;
    }
  }

  /**
    In every interleaving, a call whose acquisition ran to its end returns the credential exactly when one was
    acquired, and it passed the DPoP challenge itself exactly when the handle had not.
   */
  lemma FinishedCallReturns(s: State, steps: seq<Step>, i: nat, acquired: bool)
    requires Start(s) && Runs(s, steps) && Finish(i, acquired) in steps
    ensures i < |s.calls| && After(s, steps).calls[i] == Returned(if acquired then Credential else Failed, true)
    ensures PassDpop(i) in steps <==> s.handle.Initialized?
  {
    StepsAreCalls(s, steps, Finish(i, acquired));
    RunTracked(s, steps, i);
    var start := s;
    RunKeepsInv(start, steps);
    var call := After(s, steps).calls[i];
    assert call.Returned?;
  }

  lemma {:induction false} StepsAreCalls(s: State, steps: seq<Step>, step: Step)
    requires Runs(s, steps) && step in steps
    ensures step.call < |s.calls|
    decreases steps
  {
    if steps[0] != step {
      StepsAreCalls(Next(s, steps[0]), steps[1..], step);
    }
  }
}
