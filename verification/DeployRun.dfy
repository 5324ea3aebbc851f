/**
 One call of `deploy`, statement by statement, on the shared state: every statement is a step of the
 lock protocol, and the other replicas take any number of steps in between.
 */
module DeployRun {
  import opened Wrappers
  import opened DeployLock

  class Cluster {
    var state: State

    /** Where everything started, and the steps of all replicas since then. */
    ghost const start: State
    ghost var trace: seq<Step>

    ghost predicate Valid()
      reads this
    {
      Initial(start) && CanRun(start, trace) && After(start, trace) == state
    }

    constructor (s: State)
      requires Initial(s)
      ensures Valid() && state == s && start == s
    {
      state, start, trace := s, s, [];
    }

    lemma StateIsSafe()
      requires Valid()
      ensures Inv(state, Applied(start.table))
    {
      InitialIsSafe(start);
      EveryInterleavingIsSafe(start, Applied(start.table), trace);
    }

    method Perform(step: Step)
      requires Valid() && Enabled(state, step)
      modifies this
      ensures Valid() && old(trace) <= trace && state == Do(old(state), step)
    {
      OneMoreStep(start, trace, step);
      trace := trace + [step];
      state := Do(state, step);
    }

    /** While this replica is not running, the others take some steps. */
    method Others(i: nat)
      requires Valid() && i < |state.replicas|
      modifies this
      ensures Valid() && old(trace) <= trace
      ensures i < |state.replicas| && state.replicas[i] == old(state.replicas[i])
    {
      hide CanRun, After, Enabled, Do, Initial;
      var remaining: nat := *;
      while remaining > 0
        invariant Valid() && old(trace) <= trace
        invariant i < |state.replicas| && state.replicas[i] == old(state.replicas[i])
      {
        var step: Step := *;
        if Enabled(state, step) && step.i != i {
          OtherStepSpares(state, step, i);
          Perform(step);
        }
        remaining := remaining - 1;
      }
    }

    /** Probe for the table and count it, or throw; the run then leaves, or its `finally` is due. */
    method ReadApplied(i: nat) returns (ok: bool)
      requires Valid() && i < |state.replicas|
      requires state.replicas[i].phase.ProbingBefore? || state.replicas[i].phase.ProbingAfter?
      modifies this
      ensures Valid() && old(trace) <= trace && i < |state.replicas|
      ensures state.replicas[i].files == old(state.replicas[i].files)
      ensures old(state.replicas[i].phase.ProbingBefore?) && ok ==> state.replicas[i].phase.Locking?
      ensures old(state.replicas[i].phase.ProbingBefore?) && !ok ==> state.replicas[i].phase == Done(Threw)
      ensures old(state.replicas[i].phase.ProbingAfter?) && ok ==> state.replicas[i].phase.Migrating?
      ensures old(state.replicas[i].phase.ProbingAfter?) && !ok ==> state.replicas[i].phase == Unlocking(Threw)
    {
      hide Inv, Initial, CanRun, After, Pinned;
      var fails: bool := *;
      if fails {
        Perform(QueryThrows(i));
        return false;
      }
      Perform(Probe(i));
      var phase := state.replicas[i].phase;
      if phase.CountingBefore? || phase.CountingAfter? {
        Others(i);
        fails := *;
        if fails {
          Perform(QueryThrows(i));
          return false;
        }
        StateIsSafe();
        TableIsThere(state, Applied(start.table), i);
        Perform(Count(i));
      }
      return true;
    }

    /** The `try` block: read again, then migrate. */
    method UnderLock(i: nat) returns (outcome: Outcome)
      requires Valid() && i < |state.replicas| && state.replicas[i].phase.ProbingAfter?
      modifies this
      ensures Valid() && old(trace) <= trace && i < |state.replicas|
      ensures state.replicas[i].phase == Unlocking(outcome)
      ensures state.replicas[i].files == old(state.replicas[i].files)
    {
      hide Inv, Initial, CanRun, After, Pinned, Pending;
      var ok := ReadApplied(i);
      if !ok {
        return Threw;
      }
      Others(i);
      var fails: bool, createsTable: bool := *, *;
      if fails {
        Perform(MigrateThrows(i, createsTable));
        return Threw;
      }
      Perform(Migrate(i));
      return state.replicas[i].phase.outcome;
    }

    /**
     However the run ends, its connection is back in the pool and its lock released; what a successful
     run reports is in the table, was not there at the start, and nobody else reports it. It was added in
     the order of the run's files, all of which are in the table.
     */
    method Deploy(i: nat, session: Session) returns (outcome: Outcome)
      requires Valid() && i < |state.replicas|
      requires state.replicas[i].phase.Starting? && !Pinned(state, session)
      modifies this
      ensures Valid() && old(trace) <= trace && i < |state.replicas|
      ensures state.replicas[i].phase == Done(outcome) && state.replicas[i].session == None
      ensures outcome.Returned? ==> Succeeded(old(state.replicas[i].files), outcome.applied, Applied(state.table))
      ensures outcome.Returned? ==>
                && Within(outcome.applied, Applied(state.table))
                && Disjoint(outcome.applied, Applied(start.table))
                && forall k :: 0 <= k < |state.replicas| && k != i ==>
                     Disjoint(AppliedBy(state.replicas[k]), outcome.applied)
    {
      hide Inv, Initial, CanRun, After, Pinned, Within, Disjoint, AppliedBy, Succeeded;
      StateIsSafe();
      Perform(Connect(i, session));
      Others(i);
      var ok := ReadApplied(i);
      if !ok {
        StateIsSafe();
        FinishedRun(state, Applied(start.table), i);
        return Threw;
      }
      Others(i);
      StateIsSafe();
      RunningHasSession(state, Applied(start.table), i);
      var timesOut: bool := *;
      if timesOut || !Enabled(state, TakeLock(i)) {
        Perform(TimeOut(i));
        return Threw;
      }
      Perform(TakeLock(i));
      outcome := UnderLock(i);
      Others(i);
      StateIsSafe();
      RunningHasSession(state, Applied(start.table), i);
      Perform(Unlock(i));
      DeployKeepsOrder(start, trace);
      assert RunSucceeded(state, i);
      StateIsSafe();
      FinishedRun(state, Applied(start.table), i);
    }
  }

  lemma {:induction false} OneMoreStep(s: State, steps: seq<Step>, step: Step)
    requires CanRun(s, steps) && Enabled(After(s, steps), step)
    ensures CanRun(s, steps + [step]) && After(s, steps + [step]) == Do(After(s, steps), step)
    decreases |steps|
  {
    hide Enabled, Do;
    if steps == [] {
      assert [step][1..] == [];
      assert steps + [step] == [step];
    } else {
      assert (steps + [step])[1..] == steps[1..] + [step];
      OneMoreStep(Do(s, steps[0]), steps[1..], step);
    }
  }

  lemma OtherStepSpares(s: State, step: Step, i: nat)
    requires Enabled(s, step) && i < |s.replicas| && step.i != i
    ensures i < |Do(s, step).replicas| && Do(s, step).replicas[i] == s.replicas[i]
  {
  }

  lemma TableIsThere(s: State, initial: seq<string>, i: nat)
    requires Inv(s, initial) && i < |s.replicas|
    requires s.replicas[i].phase.CountingBefore? || s.replicas[i].phase.CountingAfter?
    ensures s.table.Some?
  {
    assert CountsFit(s, initial, s.replicas[i]);
  }

  lemma RunningHasSession(s: State, initial: seq<string>, i: nat)
    requires Inv(s, initial) && i < |s.replicas|
    ensures s.replicas[i].session.Some? <==> !s.replicas[i].phase.Starting? && !s.replicas[i].phase.Done?
  {
    hide TableFits;
    assert LockExact(s, i);
  }

  lemma FinishedRun(s: State, initial: seq<string>, i: nat)
    requires Inv(s, initial) && i < |s.replicas| && s.replicas[i].phase.Done?
    ensures s.replicas[i].session == None
    ensures s.replicas[i].phase.outcome.Returned? ==>
              var applied := s.replicas[i].phase.outcome.applied;
              && Within(applied, Applied(s.table)) && Disjoint(applied, initial)
              && forall k :: 0 <= k < |s.replicas| && k != i ==> Disjoint(AppliedBy(s.replicas[k]), applied)
  {
    RunningHasSession(s, initial, i);
    forall k | 0 <= k < |s.replicas| && k != i
      ensures Disjoint(AppliedBy(s.replicas[k]), AppliedBy(s.replicas[i]))
    {
      if i < k {
        assert Disjoint(AppliedBy(s.replicas[i]), AppliedBy(s.replicas[k]));
      }
    }
  }
}
