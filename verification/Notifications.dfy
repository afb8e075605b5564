/**
  Epoch notifications over every interleaving of finishing contexts. The permit is released by the
  commit, before the queue is announced, so another context can open, commit and announce meanwhile.
 */
module Notifications {
  import opened Base
  import opened Permits

  // ----- Each queue, once and in order -----

  /** The events announced for one context, in order. */
  function By(log: seq<(Actor, Event)>, a: Actor): (r: seq<Event>) {
    if log == [] then []
    else
      var n := |log| - 1;
      By(log[..n], a) + if log[n].0 == a then [log[n].1] else []
  }

  /** The events one context queued, in order. */
  function QueuedBy(steps: seq<Step>, a: Actor): (r: seq<Event>) {
    if steps == [] then []
    else
      var n := |steps| - 1;
      QueuedBy(steps[..n], a) + if steps[n].Queue? && steps[n].a == a then [steps[n].event] else []
  }

  /** The context has made a commit. */
  ghost predicate HasCommitted(s: System, a: Actor) {
    exists c :: c in s.commits && c.0 == a
  }

  /** What has been announced and what is left make up the queue. */
  ghost predicate Balanced(phase: Option<Phase>, announced: seq<Event>, committed: bool, queued: seq<Event>) {
    match phase
    case None => announced == [] && queued == [] && !committed
    case Some(Valid(q)) => announced == [] && q == queued && !committed
    case Some(Refused(q)) => announced == [] && q == queued && !committed
    case Some(Committed(q)) => announced == [] && q == queued && committed
    case Some(Draining(q)) => announced + q == queued && committed
    case Some(Invalid) => announced == if committed then queued else []
    case Some(Done) => announced == [] && queued == []
    case Some(_) => announced == [] && queued == [] && !committed
  }

  ghost predicate Accounted(s: System, a: Actor, queued: seq<Event>) {
    Balanced(Lookup(s.actors, a), By(s.delivered, a), HasCommitted(s, a), queued)
  }

  lemma BySnoc(log: seq<(Actor, Event)>, x: (Actor, Event), a: Actor)
    ensures By(log + [x], a) == By(log, a) + if x.0 == a then [x.1] else []
  {
    assert (log + [x])[..|log|] == log;
  }

  lemma CommittedSnoc(s: System, n: System, c: (Actor, Actor), a: Actor)
    requires n.commits == s.commits + [c]
    ensures HasCommitted(n, a) <==> HasCommitted(s, a) || c.0 == a
  {
    assert c in n.commits;
    if HasCommitted(s, a) {
      var d :| d in s.commits && d.0 == a;
      assert d in n.commits;
    }
  }

  lemma StepAnnounces(s: System, step: Step, a: Actor)
    requires Enabled(s, step)
    ensures By(Next(s, step).delivered, a) ==
            By(s.delivered, a) + if step.Notify? && step.a == a then [s.actors[a].queue[0]] else []
    ensures HasCommitted(Next(s, step), a) <==>
            HasCommitted(s, a) || (step.a == a && Next(s, step).commits != s.commits)
  {
    var n := Next(s, step);
    if step.Notify? {
      BySnoc(s.delivered, (step.a, s.actors[step.a].queue[0]), a);
    }
    if n.commits != s.commits {
      CommittedSnoc(s, n, n.commits[|s.commits|], a);
    }
  }

  lemma OthersKeepPhase(s: System, step: Step, a: Actor)
    requires Enabled(s, step) && step.a != a
    ensures Lookup(Next(s, step).actors, a) == Lookup(s.actors, a)
  {
  }

  lemma {:induction false} SameAccount(s: System, n: System, a: Actor, queued: seq<Event>)
    requires Accounted(s, a, queued) && Lookup(n.actors, a) == Lookup(s.actors, a)
    requires By(n.delivered, a) == By(s.delivered, a) && (HasCommitted(n, a) <==> HasCommitted(s, a))
    ensures Accounted(n, a, queued)
  {
  }

  /** Steps of others leave the account of a context alone. */
  lemma {:induction false} OthersKeepAccount(s: System, step: Step, a: Actor, queued: seq<Event>)
    requires Enabled(s, step) && Accounted(s, a, queued) && step.a != a
    ensures Accounted(Next(s, step), a, queued)
  {
    StepAnnounces(s, step, a);
    OthersKeepPhase(s, step, a);
    SameAccount(s, Next(s, step), a, queued);
  }

  lemma {:induction false} NotifyKeepsAccount(s: System, a: Actor, queued: seq<Event>)
    requires Enabled(s, Notify(a)) && Accounted(s, a, queued)
    ensures Accounted(Next(s, Notify(a)), a, queued)
  {
    StepAnnounces(s, Notify(a), a);
    var announced, q := By(s.delivered, a), s.actors[a].queue;
    assert announced + q == announced + [q[0]] + q[1..];
  }

  lemma {:induction false} OwnStepKeepsAccount(s: System, step: Step, queued: seq<Event>)
    requires Enabled(s, step) && !Strands(s, step) && !step.Notify? && Accounted(s, step.a, queued)
    ensures Accounted(Next(s, step), step.a, if step.Queue? then queued + [step.event] else queued)
  {
    StepAnnounces(s, step, step.a);
    assert By(Next(s, step).delivered, step.a) == By(s.delivered, step.a);
  }

  /**
    In every interleaving in which no `finish` is dropped after its commit, each context whose commit went through
    has its queue announced once and in queue order, as far as it has come; no other context has anything announced.
   */
  lemma {:induction false} AnnouncedOnceInOrder(steps: seq<Step>, a: Actor)
    requires IsRun(INITIAL, steps) && NeverStrands(INITIAL, steps)
    ensures Accounted(Run(INITIAL, steps), a, QueuedBy(steps, a))
  {
    if steps != [] {
      var init, last := steps[..|steps| - 1], steps[|steps| - 1];
      AnnouncedOnceInOrder(init, a);
      var s := Run(INITIAL, init);
      assert QueuedBy(init, a) + [] == QueuedBy(init, a);
      if last.a != a {
        OthersKeepAccount(s, last, a, QueuedBy(init, a));
      } else if last.Notify? {
        NotifyKeepsAccount(s, a, QueuedBy(init, a));
      } else {
        OwnStepKeepsAccount(s, last, QueuedBy(init, a));
      }
    }
  }

  // ----- With dropped calls -----

  /** The events one context queued, without those left when a call of its `finish` was dropped while announcing. */
  function KeptBy(steps: seq<Step>, a: Actor): (r: seq<Event>) {
    if steps == [] then []
    else
      var n := |steps| - 1;
      var before, kept, last := Run(INITIAL, steps[..n]), KeptBy(steps[..n], a), steps[n];
      if last.a != a then kept
      else if last.Queue? then kept + [last.event]
      else if last.DropFinish? then WithoutLast(kept, Left(before, a))
      else kept
  }

  /** How many events a context is in the middle of announcing. */
  function Left(s: System, a: Actor): (n: nat) {
    if a in s.actors && s.actors[a].Draining? then |s.actors[a].queue| else 0
  }

  function WithoutLast(q: seq<Event>, n: nat): (r: seq<Event>) {
    if n <= |q| then q[..|q| - n] else []
  }

  /** What has been announced and what is left make up what was kept; of a context that has ended, a beginning. */
  ghost predicate Settled(phase: Option<Phase>, announced: seq<Event>, kept: seq<Event>) {
    match phase
    case None => announced == kept == []
    case Some(Opening) => announced == kept == []
    case Some(Valid(q)) => announced + q == kept
    case Some(Committed(q)) => announced + q == kept
    case Some(Draining(q)) => announced + q == kept
    case Some(Refused(q)) => announced + q == kept
    case Some(_) => announced <= kept
  }

  lemma {:induction false} NotifySettles(s: System, a: Actor, kept: seq<Event>)
    requires Enabled(s, Notify(a)) && Settled(Lookup(s.actors, a), By(s.delivered, a), kept)
    ensures var n := Next(s, Notify(a)); Settled(Lookup(n.actors, a), By(n.delivered, a), kept)
  {
    StepAnnounces(s, Notify(a), a);
    var announced, q := By(s.delivered, a), s.actors[a].queue;
    assert announced + q == announced + [q[0]] + q[1..];
  }

  lemma {:induction false} OwnStepSettles(s: System, step: Step, announced: seq<Event>, kept: seq<Event>)
    requires Enabled(s, step) && !step.Notify? && Settled(Lookup(s.actors, step.a), announced, kept)
    ensures Settled(Lookup(Next(s, step).actors, step.a), announced,
                    if step.Queue? then kept + [step.event]
                    else if step.DropFinish? then WithoutLast(kept, Left(s, step.a))
                    else kept)
  {
    if step.Queue? {
      var q := s.actors[step.a].queue;
      assert announced + q + [step.event] == announced + (q + [step.event]);
    } else if step.DropFinish? && s.actors[step.a].Draining? {
      var q := s.actors[step.a].queue;
      assert (announced + q)[..|announced|] == announced + [];
    }
  }

  /**
    In every interleaving, dropped calls included, what is announced for a context is the beginning of what it queued
    without the events lost to dropped calls, and the whole of it but for what its queue still holds.
   */
  lemma {:induction false} AnnouncedOrLost(steps: seq<Step>, a: Actor)
    requires IsRun(INITIAL, steps)
    ensures Settled(Lookup(Run(INITIAL, steps).actors, a), By(Run(INITIAL, steps).delivered, a), KeptBy(steps, a))
  {
    if steps != [] {
      var init, last := steps[..|steps| - 1], steps[|steps| - 1];
      AnnouncedOrLost(init, a);
      var s := Run(INITIAL, init);
      StepAnnounces(s, last, a);
      if last.a != a {
        OthersKeepPhase(s, last, a);
      } else if last.Notify? {
        NotifySettles(s, a, KeptBy(init, a));
      } else {
        OwnStepSettles(s, last, By(s.delivered, a), KeptBy(init, a));
      }
    }
  }

  // ----- The order of different contexts -----

  function Tag(a: Actor, q: seq<Event>): (r: seq<(Actor, Event)>)
    ensures |r| == |q| && forall i :: 0 <= i < |q| ==> r[i] == (a, q[i])
  {
    seq(|q|, i requires 0 <= i < |q| => (a, q[i]))
  }

  /** What a context that has committed has still to announce. */
  function Pending(s: System, a: Actor): (q: seq<Event>) {
    if a in s.actors && (s.actors[a].Committed? || s.actors[a].Draining?) then s.actors[a].queue else []
  }

  /** In commit order, the queues the committing contexts held. */
  function Announced(s: System, steps: seq<Step>): (r: seq<(Actor, Event)>) {
    if steps == [] then []
    else
      var before, last := Run(s, steps[..|steps| - 1]), steps[|steps| - 1];
      Announced(s, steps[..|steps| - 1]) +
      if last.Finish? && Enabled(before, last) && Commits(before, last.accepted)
      then Tag(last.a, before.actors[last.a].queue) else []
  }

  /** What is still to come, in commit order. */
  function Rest(s: System, commits: seq<(Actor, Actor)>): (r: seq<(Actor, Event)>) {
    if commits == [] then [] else Tag(commits[0].0, Pending(s, commits[0].0)) + Rest(s, commits[1..])
  }

  /** Nobody who committed before this context has anything left to announce. */
  ghost predicate FirstInLine(s: System, a: Actor) {
    forall i, j :: 0 <= i < j < |s.commits| && s.commits[j].0 == a ==> Pending(s, s.commits[i].0) == []
  }

  /** Every announcement is made by the first in line. */
  ghost predicate InLine(s: System, steps: seq<Step>) {
    steps == [] ||
    var before, last := Run(s, steps[..|steps| - 1]), steps[|steps| - 1];
    InLine(s, steps[..|steps| - 1]) && (last.Notify? ==> FirstInLine(before, last.a))
  }

  /** At every point the log is the beginning of the queues in commit order. */
  ghost predicate AlwaysConcatenation(s: System, steps: seq<Step>) {
    && Run(s, steps).delivered <= Announced(s, steps)
    && (steps != [] ==> AlwaysConcatenation(s, steps[..|steps| - 1]))
  }

  /** Nobody commits twice, and whoever has something to announce has committed. */
  ghost predicate CommitsOnce(s: System) {
    && (forall i, j :: 0 <= i < j < |s.commits| ==> s.commits[i].0 != s.commits[j].0)
    && (forall a :: Pending(s, a) != [] ==> HasCommitted(s, a))
    && (forall a :: HasCommitted(s, a) ==> Spoken(s, a))
  }

  predicate Spoken(s: System, a: Actor) {
    a in s.actors && (s.actors[a].Committed? || s.actors[a].Draining? || s.actors[a].Invalid? || s.actors[a].Done?)
  }

  lemma StepCommitsOnce(s: System, step: Step)
    requires CommitsOnce(s) && Enabled(s, step) && !Strands(s, step)
    ensures CommitsOnce(Next(s, step))
  {
    var n := Next(s, step);
    forall a ensures HasCommitted(n, a) <==> HasCommitted(s, a) || (n.commits != s.commits && step.a == a) {
      if n.commits != s.commits {
        CommittedSnoc(s, n, n.commits[|s.commits|], a);
      }
    }
    forall a ensures Pending(n, a) != [] ==> HasCommitted(n, a) {
      if a == step.a && Pending(n, a) != [] && !step.Finish? {
        assert Pending(s, a) != [];
      }
    }
    if n.commits != s.commits {
      forall i | 0 <= i < |s.commits| ensures s.commits[i].0 != step.a {
        assert s.commits[i] in s.commits;
        assert s.commits[i].0 == step.a ==> HasCommitted(s, step.a);
      }
    }
  }

  lemma {:induction false} RunCommitsOnce(steps: seq<Step>)
    requires IsRun(INITIAL, steps) && NeverStrands(INITIAL, steps)
    ensures CommitsOnce(Run(INITIAL, steps))
  {
    if steps != [] {
      RunCommitsOnce(steps[..|steps| - 1]);
      StepCommitsOnce(Run(INITIAL, steps[..|steps| - 1]), steps[|steps| - 1]);
    }
  }

  ghost predicate OnceEach(commits: seq<(Actor, Actor)>) {
    forall i, j :: 0 <= i < j < |commits| ==> commits[i].0 != commits[j].0
  }

  lemma {:induction false} SameRest(s: System, n: System, commits: seq<(Actor, Actor)>)
    requires forall c :: c in commits ==> Pending(n, c.0) == Pending(s, c.0)
    ensures Rest(n, commits) == Rest(s, commits)
  {
    if commits != [] {
      assert commits[0] in commits;
      SameRest(s, n, commits[1..]);
    }
  }

  lemma {:induction false} RestSnoc(s: System, commits: seq<(Actor, Actor)>, c: (Actor, Actor))
    ensures Rest(s, commits + [c]) == Rest(s, commits) + Tag(c.0, Pending(s, c.0))
  {
    if commits == [] {
      assert ([] + [c])[1..] == [];
    } else {
      assert (commits + [c])[1..] == commits[1..] + [c];
      RestSnoc(s, commits[1..], c);
    }
  }

  lemma {:induction false} OwnNotifyTakesHead(s: System, a: Actor, commits: seq<(Actor, Actor)>)
    requires Enabled(s, Notify(a)) && OnceEach(commits) && commits != [] && commits[0].0 == a
    ensures Rest(s, commits) == [(a, s.actors[a].queue[0])] + Rest(Next(s, Notify(a)), commits)
  {
    var n, q := Next(s, Notify(a)), s.actors[a].queue;
    forall c | c in commits[1..] ensures Pending(n, c.0) == Pending(s, c.0) {
      var i :| 0 < i < |commits| && commits[i] == c;
      assert commits[0].0 != commits[i].0;
    }
    SameRest(s, n, commits[1..]);
    var rest := Rest(s, commits[1..]);
    assert Tag(a, q) + rest == [(a, q[0])] + (Tag(a, q[1..]) + rest);
  }

  /** An announcement by the first in line takes the head of what is to come. */
  lemma {:induction false} NotifyTakesHead(s: System, a: Actor, commits: seq<(Actor, Actor)>, j: nat)
    requires Enabled(s, Notify(a)) && OnceEach(commits) && j < |commits| && commits[j].0 == a
    requires forall i :: 0 <= i < j ==> Pending(s, commits[i].0) == []
    ensures Rest(s, commits) == [(a, s.actors[a].queue[0])] + Rest(Next(s, Notify(a)), commits)
  {
    if j == 0 {
      OwnNotifyTakesHead(s, a, commits);
    } else {
      assert commits[0].0 != commits[j].0;
      NotifyTakesHead(s, a, commits[1..], j - 1);
    }
  }

  /** If someone is before it in line, a context is not at the head of what is to come. */
  lemma {:induction false} HeadIsBefore(s: System, commits: seq<(Actor, Actor)>, i: nat, j: nat)
    requires OnceEach(commits) && i < j < |commits| && Pending(s, commits[i].0) != []
    ensures Rest(s, commits) != [] && Rest(s, commits)[0].0 != commits[j].0
  {
    if Pending(s, commits[0].0) == [] {
      HeadIsBefore(s, commits[1..], i - 1, j - 1);
    } else {
      assert commits[0].0 != commits[j].0;
    }
  }

  /** The log and what is to come are together what was announced by the commits. */
  ghost predicate Ledger(s: System, announced: seq<(Actor, Event)>) {
    s.delivered + Rest(s, s.commits) == announced
  }

  lemma {:induction false} LedgerGrows(s: System, n: System, c: (Actor, Actor), announced: seq<(Actor, Event)>)
    requires Ledger(s, announced) && n.delivered == s.delivered && n.commits == s.commits + [c]
    requires forall d :: d in s.commits ==> Pending(n, d.0) == Pending(s, d.0)
    ensures Ledger(n, announced + Tag(c.0, Pending(n, c.0)))
  {
    SameRest(s, n, s.commits);
    RestSnoc(n, s.commits, c);
    var rest, own := Rest(s, s.commits), Tag(c.0, Pending(n, c.0));
    assert s.delivered + (rest + own) == s.delivered + rest + own;
  }

  lemma {:induction false} CommitKeepsLedger(s: System, step: Step, announced: seq<(Actor, Event)>)
    requires CommitsOnce(s) && Ledger(s, announced) && Enabled(s, step) && Next(s, step).commits != s.commits
    ensures Ledger(Next(s, step), announced + if step.Finish? then Tag(step.a, s.actors[step.a].queue) else [])
  {
    var n := Next(s, step);
    forall c | c in s.commits ensures Pending(n, c.0) == Pending(s, c.0) {
      assert HasCommitted(s, c.0);
      assert c.0 != step.a;
    }
    LedgerGrows(s, n, (step.a, s.tx.value), announced);
    if !step.Finish? {
      assert Tag(step.a, []) == [];
    }
  }

  lemma {:induction false} NotifyKeepsLedger(s: System, a: Actor, announced: seq<(Actor, Event)>)
    requires CommitsOnce(s) && Ledger(s, announced) && Enabled(s, Notify(a)) && FirstInLine(s, a)
    ensures Ledger(Next(s, Notify(a)), announced)
  {
    assert HasCommitted(s, a);
    var c :| c in s.commits && c.0 == a;
    var j :| 0 <= j < |s.commits| && s.commits[j] == c;
    NotifyTakesHead(s, a, s.commits, j);
  }

  lemma {:induction false} OthersKeepLedger(s: System, step: Step, announced: seq<(Actor, Event)>)
    requires Ledger(s, announced) && Enabled(s, step) && !Strands(s, step)
    requires !step.Notify? && Next(s, step).commits == s.commits
    ensures Ledger(Next(s, step), announced)
  {
    SameRest(s, Next(s, step), s.commits);
  }

  lemma {:induction false} InLineKeepsLedger(steps: seq<Step>)
    requires IsRun(INITIAL, steps) && NeverStrands(INITIAL, steps) && InLine(INITIAL, steps)
    ensures Ledger(Run(INITIAL, steps), Announced(INITIAL, steps))
  {
    if steps != [] {
      var init, last := steps[..|steps| - 1], steps[|steps| - 1];
      InLineKeepsLedger(init);
      RunCommitsOnce(init);
      var s, before := Run(INITIAL, init), Announced(INITIAL, init);
      assert before + [] == before;
      if last.Notify? {
        NotifyKeepsLedger(s, last.a, before);
      } else if Next(s, last).commits != s.commits {
        CommitKeepsLedger(s, last, before);
      } else {
        OthersKeepLedger(s, last, before);
      }
    }
  }

  lemma OutOfLineBreaksOrder(s: System, a: Actor, announced: seq<(Actor, Event)>)
    requires CommitsOnce(s) && Ledger(s, announced) && Enabled(s, Notify(a)) && !FirstInLine(s, a)
    ensures !(Next(s, Notify(a)).delivered <= announced)
  {
    var i, j :| 0 <= i < j < |s.commits| && s.commits[j].0 == a && Pending(s, s.commits[i].0) != [];
    HeadIsBefore(s, s.commits, i, j);
    assert announced[|s.delivered|] == Rest(s, s.commits)[0];
    assert Next(s, Notify(a)).delivered[|s.delivered|].0 == a;
  }

  /**
    At every point of a run the log is the beginning of the committed queues in commit order exactly when every
    announcement was made by a context with nobody before it in line.
   */
  lemma {:induction false} AlwaysConcatenationIff(steps: seq<Step>)
    requires IsRun(INITIAL, steps) && NeverStrands(INITIAL, steps)
    ensures AlwaysConcatenation(INITIAL, steps) <==> InLine(INITIAL, steps)
  {
    if steps != [] {
      var init, last := steps[..|steps| - 1], steps[|steps| - 1];
      AlwaysConcatenationIff(init);
      if InLine(INITIAL, steps) {
        InLineKeepsLedger(steps);
      } else if InLine(INITIAL, init) {
        InLineKeepsLedger(init);
        RunCommitsOnce(init);
        OutOfLineBreaksOrder(Run(INITIAL, init), last.a, Announced(INITIAL, init));
        assert Announced(INITIAL, steps) == Announced(INITIAL, init) + [];
      }
    }
  }

  lemma {:induction false} NothingToCome(s: System, commits: seq<(Actor, Actor)>)
    requires forall a :: Pending(s, a) == []
    ensures Rest(s, commits) == []
  {
    if commits != [] {
      NothingToCome(s, commits[1..]);
    }
  }

  /** And once nobody is left announcing, the log is exactly those queues. */
  lemma IdleLogIsConcatenation(steps: seq<Step>)
    requires IsRun(INITIAL, steps) && NeverStrands(INITIAL, steps) && InLine(INITIAL, steps)
    requires forall a :: Pending(Run(INITIAL, steps), a) == []
    ensures Run(INITIAL, steps).delivered == Announced(INITIAL, steps)
  {
    InLineKeepsLedger(steps);
    NothingToCome(Run(INITIAL, steps), Run(INITIAL, steps).commits);
  }

  // ----- When contexts overlap -----

  /** No context commits while another is still announcing. */
  ghost predicate NoOverlap(s: System, steps: seq<Step>) {
    steps == [] ||
    var before, last := Run(s, steps[..|steps| - 1]), steps[|steps| - 1];
    && NoOverlap(s, steps[..|steps| - 1])
    && (last.Finish? && Commits(before, last.accepted) ==> forall a :: Pending(before, a) == [])
  }

  ghost predicate OneAnnounces(s: System) {
    forall a, b :: Pending(s, a) != [] && Pending(s, b) != [] ==> a == b
  }

  lemma {:induction false} NoOverlapOneAnnounces(steps: seq<Step>)
    requires IsRun(INITIAL, steps) && NeverStrands(INITIAL, steps) && NoOverlap(INITIAL, steps)
    ensures OneAnnounces(Run(INITIAL, steps))
  {
    if steps != [] {
      var init, last := steps[..|steps| - 1], steps[|steps| - 1];
      NoOverlapOneAnnounces(init);
      var s := Run(INITIAL, init);
      forall a ensures Pending(Next(s, last), a) != [] ==>
                       Pending(s, a) != [] || (last.Finish? && Commits(s, last.accepted) && a == last.a) {
      }
    }
  }

  /** Contexts that do not overlap announce in line, so the log is the concatenation of their queues. */
  lemma {:induction false} NoOverlapIsInLine(steps: seq<Step>)
    requires IsRun(INITIAL, steps) && NeverStrands(INITIAL, steps) && NoOverlap(INITIAL, steps)
    ensures InLine(INITIAL, steps)
  {
    if steps != [] {
      var init, last := steps[..|steps| - 1], steps[|steps| - 1];
      NoOverlapIsInLine(init);
      NoOverlapOneAnnounces(init);
      RunCommitsOnce(init);
      var s := Run(INITIAL, init);
      if last.Notify? {
        assert Pending(s, last.a) != [];
      }
    }
  }

  lemma {:induction false} RunSnoc(s: System, steps: seq<Step>, step: Step)
    requires IsRun(s, steps) && Enabled(Run(s, steps), step)
    ensures IsRun(s, steps + [step]) && Run(s, steps + [step]) == Next(Run(s, steps), step)
    ensures NeverStrands(s, steps) && !step.DropFinish? ==> NeverStrands(s, steps + [step])
  {
    assert (steps + [step])[..|steps|] == steps;
  }

  /** While one context is announcing, another can open, commit and announce in between. */
  lemma AnnouncementsInterleave(s: System, a: Actor, b: Actor, e: Event) returns (steps: seq<Step>)
    requires Inv(s) && Enabled(s, Notify(a)) && s.free == 1 && s.connected && b !in s.actors
    ensures IsRun(s, steps) && Run(s, steps).delivered == s.delivered + [(b, e), (a, s.actors[a].queue[0])]
  {
    steps := [OpenAcquire(b)];
    assert [] + steps == steps;
    RunSnoc(s, [], OpenAcquire(b));
    RunSnoc(s, steps, OpenInstall(b));
    steps := steps + [OpenInstall(b)];
    RunSnoc(s, steps, Queue(b, e));
    steps := steps + [Queue(b, e)];
    RunSnoc(s, steps, Finish(b, true));
    steps := steps + [Finish(b, true)];
    RunSnoc(s, steps, BeginDrain(b));
    steps := steps + [BeginDrain(b)];
    RunSnoc(s, steps, Notify(b));
    steps := steps + [Notify(b)];
    RunSnoc(s, steps, Notify(a));
    steps := steps + [Notify(a)];
  }

  /** Going before someone in line loses the order. */
  lemma {:induction false} OutOfTurn(steps: seq<Step>, i: nat, j: nat)
    requires IsRun(INITIAL, steps) && NeverStrands(INITIAL, steps)
    requires var s := Run(INITIAL, steps);
             i < j < |s.commits| && Pending(s, s.commits[i].0) != [] && Enabled(s, Notify(s.commits[j].0))
    ensures var more := steps + [Notify(Run(INITIAL, steps).commits[j].0)];
            IsRun(INITIAL, more) && NeverStrands(INITIAL, more) && !AlwaysConcatenation(INITIAL, more)
  {
    var s := Run(INITIAL, steps);
    var b := s.commits[j].0;
    RunSnoc(INITIAL, steps, Notify(b));
    var more := steps + [Notify(b)];
    assert more[..|more| - 1] == steps;
    assert !FirstInLine(s, b);
    AlwaysConcatenationIff(more);
  }

  /** Whenever two contexts are left announcing, the later one can go first, and the order is lost. */
  lemma {:induction false} OverlapCanBreakOrder(steps: seq<Step>, i: nat, j: nat) returns (more: seq<Step>)
    requires IsRun(INITIAL, steps) && NeverStrands(INITIAL, steps)
    requires var s := Run(INITIAL, steps);
             i < j < |s.commits| && Pending(s, s.commits[i].0) != [] && Pending(s, s.commits[j].0) != []
    ensures steps <= more && IsRun(INITIAL, more) && NeverStrands(INITIAL, more)
    ensures !AlwaysConcatenation(INITIAL, more)
  {
    var s := Run(INITIAL, steps);
    var b := s.commits[j].0;
    RunCommitsOnce(steps);
    assert s.commits[i].0 != b;
    var begun := steps;
    if s.actors[b].Committed? {
      RunSnoc(INITIAL, steps, BeginDrain(b));
      begun := steps + [BeginDrain(b)];
    }
    OutOfTurn(begun, i, j);
    more := begun + [Notify(b)];
  }
}
