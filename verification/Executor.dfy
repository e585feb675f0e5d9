/** The bounded executor: a semaphore permit is taken before a task is handed to the thread
    pool and given back by a callback on the task's future. A task may finish before its
    callback is attached. */
module Executor {
  import opened Collections

  /** How far one submission has got; the flag says whether its task has finished. */
  datatype Stage =
    | Acquired
    | Refused
    | Accepted(finished: bool)
    | Attached(finished: bool)
    | Released(ran: bool)

  /** The semaphore, the submissions, the releases made so far in order, and whether the
      bounded semaphore was ever released beyond its initial value. */
  datatype Pool = Pool(permits: nat, stages: map<nat, Stage>, releases: seq<nat>, overflowed: bool)

  /** One atomic action on submission id, by the submitting thread or by a worker. */
  datatype Action =
    | Acquire(id: nat)
    | Accept(id: nat)
    | Refuse(id: nat)
    | ReleaseRefused(id: nat)
    | Finish(id: nat)
    | Attach(id: nat)
    | RunCallback(id: nat)

  function Start(capacity: nat): Pool {
    Pool(capacity, map[], [], false)
  }

  function Release(capacity: nat, s: Pool, id: nat, ran: bool): Pool {
    if s.permits >= capacity then s.(overflowed := true)
    else s.(permits := s.permits + 1, stages := s.stages[id := Released(ran)], releases := s.releases + [id])
  }

  /** An action that is not enabled changes nothing; acquiring waits while no permit is free. */
  function Step(capacity: nat, s: Pool, a: Action): Pool {
    var id := a.id;
    if a.Acquire? then
      if id in s.stages || s.permits == 0 then s
      else s.(permits := s.permits - 1, stages := s.stages[id := Acquired])
    else if id !in s.stages then s
    else
      match a
      case Accept(_) => if s.stages[id].Acquired? then s.(stages := s.stages[id := Accepted(false)]) else s
      case Refuse(_) => if s.stages[id].Acquired? then s.(stages := s.stages[id := Refused]) else s
      case ReleaseRefused(_) => if s.stages[id].Refused? then Release(capacity, s, id, false) else s
      case Finish(_) =>
        if s.stages[id] == Accepted(false) then s.(stages := s.stages[id := Accepted(true)])
        else if s.stages[id] == Attached(false) then s.(stages := s.stages[id := Attached(true)])
        else s
      case Attach(_) =>
        // On a finished future the callback runs at once, in the submitting thread.
        if s.stages[id] == Accepted(false) then s.(stages := s.stages[id := Attached(false)])
        else if s.stages[id] == Accepted(true) then Release(capacity, s, id, true)
        else s
      case RunCallback(_) => if s.stages[id] == Attached(true) then Release(capacity, s, id, true) else s
  }

  function Run(capacity: nat, s: Pool, actions: seq<Action>): Pool {
    if actions == [] then s
    else Step(capacity, Run(capacity, s, actions[..|actions| - 1]), actions[|actions| - 1])
  }

  function Holding(s: Pool): set<nat> {
    set id | id in s.stages && !s.stages[id].Released?
  }

  /** The pool has accepted the task and not finished it. */
  predicate Runs(s: Pool, id: nat) {
    id in s.stages && (s.stages[id] == Accepted(false) || s.stages[id] == Attached(false))
  }

  ghost predicate Inv(capacity: nat, s: Pool) {
    && s.permits + |Holding(s)| == capacity
    && !s.overflowed
    && forall id :: multiset(s.releases)[id] == if id in s.stages && s.stages[id].Released? then 1 else 0
  }

  lemma HoldingStep(s: Pool, id: nat, stage: Stage)
    ensures var s' := s.(stages := s.stages[id := stage]);
            Holding(s') == if stage.Released? then Holding(s) - {id} else Holding(s) + {id}
  {
  }

  lemma ReleaseKeepsInv(capacity: nat, s: Pool, id: nat, ran: bool)
    requires Inv(capacity, s) && id in s.stages && !s.stages[id].Released?
    ensures Inv(capacity, Release(capacity, s, id, ran))
    ensures Release(capacity, s, id, ran).stages == s.stages[id := Released(ran)]
  {
    assert id in Holding(s);
    HoldingStep(s, id, Released(ran));
    assert Holding(Release(capacity, s, id, ran)) == Holding(s) - {id};
  }

  lemma MoveKeepsInv(capacity: nat, s: Pool, id: nat, stage: Stage)
    requires Inv(capacity, s) && id in s.stages && !s.stages[id].Released? && !stage.Released?
    ensures Inv(capacity, s.(stages := s.stages[id := stage]))
  {
    HoldingStep(s, id, stage);
    assert Holding(s) + {id} == Holding(s);
  }

  lemma StepKeepsInv(capacity: nat, s: Pool, a: Action)
    requires Inv(capacity, s)
    ensures Inv(capacity, Step(capacity, s, a))
  {
    var id, s' := a.id, Step(capacity, s, a);
    if s' != s {
      if a.Acquire? {
        HoldingStep(s, id, Acquired);
        assert Holding(s') == Holding(s) + {id};
      } else if a.ReleaseRefused? || a.RunCallback? || (a.Attach? && s.stages[id] == Accepted(true)) {
        ReleaseKeepsInv(capacity, s, id, !a.ReleaseRefused?);
      } else {
        MoveKeepsInv(capacity, s, id, s'.stages[id]);
      }
    }
  }

  lemma {:induction false} RunKeepsInv(capacity: nat, actions: seq<Action>)
    ensures Inv(capacity, Run(capacity, Start(capacity), actions))
  {
    if actions != [] {
      RunKeepsInv(capacity, actions[..|actions| - 1]);
      StepKeepsInv(capacity, Run(capacity, Start(capacity), actions[..|actions| - 1]), actions[|actions| - 1]);
    }
  }

  /** Under every interleaving of submissions, refusals, completions and callbacks: free and
      held permits add up to bound + maxWorkers, the accepted unfinished tasks never exceed
      that number, the semaphore is never over-released, and every submission has released
      exactly once when it is over and not before. */
  lemma PermitsConserved(bound: nat, maxWorkers: nat, actions: seq<Action>)
    ensures var s := Run(bound + maxWorkers, Start(bound + maxWorkers), actions);
            && s.permits + |Holding(s)| == bound + maxWorkers
            && (forall tasks: set<nat> :: (forall id :: id in tasks ==> Runs(s, id)) ==> |tasks| <= bound + maxWorkers)
            && !s.overflowed
            && forall id :: multiset(s.releases)[id] == if id in s.stages && s.stages[id].Released? then 1 else 0
  {
    RunKeepsInv(bound + maxWorkers, actions);
    var s := Run(bound + maxWorkers, Start(bound + maxWorkers), actions);
    forall tasks: set<nat> | forall id :: id in tasks ==> Runs(s, id) ensures |tasks| <= bound + maxWorkers {
      SubsetCount(tasks, Holding(s));
    }
  }

  /** The race: whether the task finishes before or after its callback is attached, the
      submission ends released, once. */
  lemma RaceReleasesOnce(capacity: nat, s: Pool, id: nat)
    requires Inv(capacity, s) && id in s.stages && s.stages[id] == Accepted(false)
    ensures var early := Run(capacity, s, [Finish(id), Attach(id), RunCallback(id)]);
            var late := Run(capacity, s, [Attach(id), Finish(id), RunCallback(id)]);
            && early == late && id in early.stages
            && early.stages[id] == Released(true) && early.permits == s.permits + 1
            && early.releases == s.releases + [id]
  {
    assert id in Holding(s);
    RunThree(capacity, s, Finish(id), Attach(id), RunCallback(id));
    RunThree(capacity, s, Attach(id), Finish(id), RunCallback(id));
  }

  lemma RunThree(capacity: nat, s: Pool, a: Action, b: Action, c: Action)
    ensures Run(capacity, s, [a, b, c]) == Step(capacity, Step(capacity, Step(capacity, s, a), b), c)
  {
    assert [a, b, c][..2] == [a, b] && [a, b][..1] == [a] && [a][..0] == [];
    assert Run(capacity, s, [a]) == Step(capacity, s, a);
    assert Run(capacity, s, [a, b]) == Step(capacity, Step(capacity, s, a), b);
  }

  /** The steps that start and end a task, and no others, change whether it runs. */
  lemma RunsExactly(capacity: nat, s: Pool, a: Action, id: nat)
    requires Inv(capacity, s)
    ensures Runs(Step(capacity, s, a), id) <==>
              if a == Accept(id) && id in s.stages && s.stages[id].Acquired? then true
              else if a == Finish(id) then false
              else Runs(s, id)
  {
  }

  /** Giving back a permit while all are free is an over-release, and nothing else is. */
  lemma OverflowExactly(capacity: nat, s: Pool, a: Action)
    ensures Step(capacity, s, a).overflowed <==>
              || s.overflowed
              || (&& s.permits >= capacity && a.id in s.stages
                  && (|| (a.ReleaseRefused? && s.stages[a.id].Refused?)
                      || (a.RunCallback? && s.stages[a.id] == Attached(true))
                      || (a.Attach? && s.stages[a.id] == Accepted(true))))
  {
  }

  datatype SubmitEnd = Blocks | Raises | Future

  /** The executor object, with each method taken at one go: the thread pool may refuse a
      task, and may have finished it before its callback is attached. */
  class BoundedExecutor {
    const capacity: nat
    var permits: nat
    var stages: map<nat, Stage>
    ghost var releases: seq<nat>

    ghost function Contents(): Pool
      reads this
    {
      Pool(permits, stages, releases, false)
    }

    constructor (bound: nat, maxWorkers: nat)
      ensures capacity == bound + maxWorkers && Contents() == Start(bound + maxWorkers)
    {
      capacity := bound + maxWorkers;
      permits, stages, releases := bound + maxWorkers, map[], [];
    }

    /** Carry out one enabled action. */
    method Act(a: Action)
      requires Inv(capacity, Contents()) && Step(capacity, Contents(), a) != Contents()
      modifies this
      ensures Contents() == Step(capacity, old(Contents()), a) && Inv(capacity, Contents())
    {
      StepKeepsInv(capacity, Contents(), a);
      var id := a.id;
      match a
      case Acquire(_) => permits, stages := permits - 1, stages[id := Acquired];
      case Accept(_) => stages := stages[id := Accepted(false)];
      case Refuse(_) => stages := stages[id := Refused];
      case ReleaseRefused(_) =>
        permits, stages, releases := permits + 1, stages[id := Released(false)], releases + [id];
      case Finish(_) =>
        stages := stages[id := if stages[id].Accepted? then Accepted(true) else Attached(true)];
      case Attach(_) =>
        if stages[id] == Accepted(false) {
          stages := stages[id := Attached(false)];
        } else {
          permits, stages, releases := permits + 1, stages[id := Released(true)], releases + [id];
        }
      case RunCallback(_) => permits, stages, releases := permits + 1, stages[id := Released(true)], releases + [id];
    }

    /** Submit a task under a new id. A refused task gives its permit back at once; an accepted
        one keeps it unless the task has finished before its callback is attached. */
    method Submit(id: nat, accepts: bool, finishesFirst: bool) returns (end: SubmitEnd)
      requires Inv(capacity, Contents()) && id !in stages
      modifies this
      ensures Inv(capacity, Contents())
      ensures end == if old(permits) == 0 then Blocks else if accepts then Future else Raises
      ensures end.Blocks? ==> Contents() == old(Contents())
      ensures end.Raises? ==> Contents() == Pool(
                old(permits), old(stages)[id := Released(false)], old(releases) + [id], false)
      ensures end.Future? && finishesFirst ==> Contents() == Pool(
                old(permits), old(stages)[id := Released(true)], old(releases) + [id], false)
      ensures end.Future? && !finishesFirst ==> Contents() == Pool(
                old(permits) - 1, old(stages)[id := Attached(false)], old(releases), false)
    {
      if permits == 0 {
        return Blocks;
      }
      Take(id);
      if accepts {
        Hand(id, finishesFirst);
        SameOverride(old(stages), id, Acquired, if finishesFirst then Released(true) else Attached(false));
        return Future;
      } else {
        TurnDown(id);
        SameOverride(old(stages), id, Acquired, Released(false));
        return Raises;
      }
    }

    /** Take a free permit for a new submission. */
    method Take(id: nat)
      requires Inv(capacity, Contents()) && id !in stages && permits > 0
      modifies this
      ensures Inv(capacity, Contents())
      ensures Contents() == Pool(old(permits) - 1, old(stages)[id := Acquired], old(releases), false)
    {
      Act(Acquire(id));
    }

    /** The pool refuses a task whose permit is taken. */
    method TurnDown(id: nat)
      requires Inv(capacity, Contents()) && id in stages && stages[id].Acquired?
      modifies this
      ensures Inv(capacity, Contents())
      ensures Contents() == Pool(old(permits) + 1, old(stages)[id := Released(false)], old(releases) + [id], false)
    {
      Act(Refuse(id));
      HeldPermit(capacity, Contents(), id);
      Act(ReleaseRefused(id));
    }

    /** The pool accepts a task whose permit is taken, and the callback is attached. */
    method Hand(id: nat, finishesFirst: bool)
      requires Inv(capacity, Contents()) && id in stages && stages[id].Acquired?
      modifies this
      ensures Inv(capacity, Contents())
      ensures finishesFirst ==>
                Contents() == Pool(old(permits) + 1, old(stages)[id := Released(true)], old(releases) + [id], false)
      ensures !finishesFirst ==>
                Contents() == Pool(old(permits), old(stages)[id := Attached(false)], old(releases), false)
    {
      ghost var was := stages;
      Act(Accept(id));
      SameOverride(was, id, Accepted(false), Attached(false));
      if finishesFirst {
        FinishEarly(id);
        SameOverride(was, id, Accepted(false), Released(true));
      } else {
        Act(Attach(id));
      }
    }

    /** The task finishes before its callback is attached, so attaching it gives the permit back. */
    method FinishEarly(id: nat)
      requires Inv(capacity, Contents()) && id in stages && stages[id] == Accepted(false)
      modifies this
      ensures Inv(capacity, Contents())
      ensures Contents() == Pool(old(permits) + 1, old(stages)[id := Released(true)], old(releases) + [id], false)
    {
      ghost var was := stages;
      Act(Finish(id));
      HeldPermit(capacity, Contents(), id);
      Act(Attach(id));
      SameOverride(was, id, Accepted(true), Released(true));
    }

    /** A running task finishes and its callback gives the permit back. */
    method Complete(id: nat)
      requires Inv(capacity, Contents()) && id in stages && stages[id] == Attached(false)
      modifies this
      ensures Inv(capacity, Contents())
      ensures Contents() == Pool(old(permits) + 1, old(stages)[id := Released(true)], old(releases) + [id], false)
    {
      Act(Finish(id));
      HeldPermit(capacity, Contents(), id);
      Act(RunCallback(id));
    }
  }

  lemma SameOverride(stages: map<nat, Stage>, id: nat, first: Stage, last: Stage)
    ensures stages[id := first][id := last] == stages[id := last]
  {
  }

  /** While a submission holds a permit, not all permits are free. */
  lemma HeldPermit(capacity: nat, s: Pool, id: nat)
    requires Inv(capacity, s) && id in s.stages && !s.stages[id].Released?
    ensures s.permits < capacity
  {
    assert id in Holding(s);
  }
}
