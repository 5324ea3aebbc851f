/**
 Migrating on deploy: any number of replicas start at once, and a session-scoped advisory lock lets
 one of them migrate at a time. Every query is one step, and steps of different replicas interleave.
 */
module DeployLock {
  import opened Wrappers

  type Session = nat

  datatype Outcome = Returned(applied: seq<string>, waited: bool) | Threw

  /** Where a run is; in the last three phases but one it is inside the `try`. */
  datatype Phase =
    | Starting
    | ProbingBefore
    | CountingBefore
    | Locking(before: nat)
    | ProbingAfter(before: nat)
    | CountingAfter(before: nat)
    | Migrating(before: nat, after: nat)
    | Unlocking(outcome: Outcome)
    | Done(outcome: Outcome)

  /** One replica: its migration files, its phase and its pinned connection. */
  datatype Replica = Replica(files: seq<string>, phase: Phase, session: Option<Session>)

  /** An advisory lock counts how often its session took it. */
  datatype Lock = Free | Held(holder: Session, depth: nat)

  /** The migration table is absent until the first migrator creates it. */
  datatype State = State(replicas: seq<Replica>, table: Option<seq<string>>, lock: Lock)

  function Applied(table: Option<seq<string>>): seq<string> {
    if table.Some? then table.value else []
  }

  predicate InTry(phase: Phase) {
    phase.ProbingAfter? || phase.CountingAfter? || phase.Migrating? || phase.Unlocking?
  }

  predicate Distinct(names: seq<string>) {
    forall i, j :: 0 <= i < j < |names| ==> names[i] != names[j]
  }

  /** The files that are not applied yet, in file order. */
  function Pending(files: seq<string>, applied: seq<string>): (r: seq<string>)
    ensures forall m :: m in r <==> m in files && m !in applied
  {
    if files == [] then []
    else if files[0] in applied then Pending(files[1..], applied)
    else [files[0]] + Pending(files[1..], applied)
  }

  // ---- Steps ------------------------------------------------------------------------------

  datatype Step =
    | Connect(i: nat, session: Session)
    | Probe(i: nat)
    | Count(i: nat)
    | TakeLock(i: nat)
    | TimeOut(i: nat)
    | Migrate(i: nat)
    | MigrateThrows(i: nat, createsTable: bool)
    | QueryThrows(i: nat)
    | Unlock(i: nat)

  predicate Pinned(s: State, session: Session) {
    exists k :: 0 <= k < |s.replicas| && s.replicas[k].session == Some(session)
  }

  predicate Enabled(s: State, step: Step) {
    step.i < |s.replicas| &&
    var r := s.replicas[step.i];
    match step
    case Connect(_, session) => r.phase.Starting? && !Pinned(s, session)
    case Probe(_) => r.phase.ProbingBefore? || r.phase.ProbingAfter?
    case Count(_) => (r.phase.CountingBefore? || r.phase.CountingAfter?) && s.table.Some?
    case TakeLock(_) => r.phase.Locking? && r.session.Some? && (s.lock.Free? || s.lock.holder == r.session.value)
    case TimeOut(_) => r.phase.Locking?
    case Migrate(_) => r.phase.Migrating?
    case MigrateThrows(_, _) => r.phase.Migrating?
    case QueryThrows(_) =>
      r.phase.ProbingBefore? || r.phase.CountingBefore? || r.phase.ProbingAfter? || r.phase.CountingAfter?
    case Unlock(_) => r.phase.Unlocking? && r.session.Some?
  }

  function SetReplica(s: State, i: nat, r: Replica): State
    requires i < |s.replicas|
  {
    s.(replicas := s.replicas[i := r])
  }

  /** Leaving the callback: the outcome is final and the connection goes back to the pool. */
  function Leave(r: Replica, outcome: Outcome): Replica {
    r.(phase := Done(outcome), session := None)
  }

  function Do(s: State, step: Step): State
    requires Enabled(s, step)
  {
    var i, r := step.i, s.replicas[step.i];
    match step
    case Connect(_, session) => SetReplica(s, i, r.(phase := ProbingBefore, session := Some(session)))
    case Probe(_) =>
      SetReplica(s, i, r.(phase :=
        match r.phase
        case ProbingBefore => if s.table.Some? then CountingBefore else Locking(0)
        case ProbingAfter(before) => if s.table.Some? then CountingAfter(before) else Migrating(before, 0)
        case other => other))
    case Count(_) =>
      var n := |Applied(s.table)|;
      SetReplica(s, i, r.(phase :=
        match r.phase
        case CountingBefore => Locking(n)
        case CountingAfter(before) => Migrating(before, n)
        case other => other))
    case TakeLock(_) =>
      SetReplica(s, i, r.(phase := ProbingAfter(r.phase.before)))
        .(lock := Held(r.session.value, if s.lock.Free? then 1 else s.lock.depth + 1))
    case TimeOut(_) => SetReplica(s, i, Leave(r, Threw))
    case Migrate(_) =>
      var pending := Pending(r.files, Applied(s.table));
      SetReplica(s, i, r.(phase := Unlocking(Returned(pending, r.phase.after != r.phase.before))))
        .(table := Some(Applied(s.table) + pending))
    case MigrateThrows(_, createsTable) =>
      SetReplica(s, i, r.(phase := Unlocking(Threw)))
        .(table := if createsTable then Some(Applied(s.table)) else s.table)
    case QueryThrows(_) =>
      SetReplica(s, i, if InTry(r.phase) then r.(phase := Unlocking(Threw)) else Leave(r, Threw))
    case Unlock(_) =>
      SetReplica(s, i, Leave(r, r.phase.outcome))
        .(lock :=
          match s.lock
          case Held(holder, depth) =>
            if holder != r.session.value then s.lock else if depth > 1 then Held(holder, depth - 1) else Free
          case Free => Free)
  }

  predicate Holds(s: State, i: nat)
    requires i < |s.replicas|
  {
    s.lock.Held? && s.replicas[i].session == Some(s.lock.holder)
  }

  // ---- What every step keeps --------------------------------------------------------------

  /** What a run has applied; nothing unless its migration succeeded. */
  function AppliedBy(r: Replica): seq<string> {
    match r.phase
    case Unlocking(Returned(applied, _)) => applied
    case Done(Returned(applied, _)) => applied
    case _ => []
  }

  predicate SessionsSeparate(s: State) {
    forall i, j :: 0 <= i < j < |s.replicas| && s.replicas[i].session.Some? ==>
      s.replicas[i].session != s.replicas[j].session
  }

  /** Being inside the `try` and holding the lock, once, are the same thing. */
  predicate LockExact(s: State, i: nat)
    requires i < |s.replicas|
  {
    var r := s.replicas[i];
    && (r.session.Some? <==> !r.phase.Starting? && !r.phase.Done?)
    && (InTry(r.phase) <==> s.lock.Held? && r.session == Some(s.lock.holder))
  }

  /** A held lock belongs to a run, and was taken once. */
  predicate LockOwned(s: State) {
    s.lock.Held? ==> s.lock.depth == 1 && Pinned(s, s.lock.holder)
  }

  /** The counts a run has read are consistent with the table, which only grows. */
  predicate CountsFit(s: State, initial: seq<string>, r: Replica) {
    var n := |Applied(s.table)|;
    match r.phase
    case Locking(before) => |initial| <= before <= n
    case CountingBefore => s.table.Some?
    case ProbingAfter(before) => |initial| <= before <= n
    case CountingAfter(before) => |initial| <= before <= n && s.table.Some?
    case Migrating(before, after) => |initial| <= before <= after == n
    case _ => true
  }

  /** The table is the initial one plus what the runs applied, each name from one source. */
  predicate TableFits(s: State, initial: seq<string>) {
    var applied := Applied(s.table);
    && Distinct(applied)
    && initial <= applied
    && (forall i :: 0 <= i < |s.replicas| ==> Distinct(AppliedBy(s.replicas[i])))
    && (forall i :: 0 <= i < |s.replicas| ==> Disjoint(AppliedBy(s.replicas[i]), initial))
    && (forall i, j :: 0 <= i < j < |s.replicas| ==> Disjoint(AppliedBy(s.replicas[i]), AppliedBy(s.replicas[j])))
    && (forall m :: m in applied ==> m in initial || AppliedBySome(s, m))
    && (forall i :: 0 <= i < |s.replicas| ==> Within(AppliedBy(s.replicas[i]), applied))
  }

  predicate Disjoint(a: seq<string>, b: seq<string>) {
    forall m :: m in a ==> m !in b
  }

  predicate Within(a: seq<string>, b: seq<string>) {
    forall m :: m in a ==> m in b
  }

  predicate AppliedBySome(s: State, m: string) {
    exists i :: 0 <= i < |s.replicas| && m in AppliedBy(s.replicas[i])
  }

  ghost predicate Inv(s: State, initial: seq<string>) {
    && SessionsSeparate(s)
    && (forall i :: 0 <= i < |s.replicas| ==> LockExact(s, i))
    && LockOwned(s)
    && (forall i :: 0 <= i < |s.replicas| ==> CountsFit(s, initial, s.replicas[i]))
    && (forall i :: 0 <= i < |s.replicas| ==> Distinct(s.replicas[i].files))
    && TableFits(s, initial)
  }

  /** Before anything runs. */
  predicate Initial(s: State) {
    && s.lock.Free?
    && Distinct(Applied(s.table))
    && forall i :: 0 <= i < |s.replicas| ==>
         s.replicas[i].phase.Starting? && s.replicas[i].session.None? && Distinct(s.replicas[i].files)
  }

  lemma InitialIsSafe(s: State)
    requires Initial(s)
    ensures Inv(s, Applied(s.table))
  {
  }

  /** Only one run is between lock and unlock. */
  lemma Exclusion(s: State, initial: seq<string>, i: nat, j: nat)
    requires Inv(s, initial) && i < j < |s.replicas|
    ensures !(InTry(s.replicas[i].phase) && InTry(s.replicas[j].phase))
  {
    hide TableFits;
    assert LockExact(s, i) && LockExact(s, j);
  }

  lemma StepKeepsLock(s: State, initial: seq<string>, step: Step)
    requires Inv(s, initial) && Enabled(s, step)
    ensures var t := Do(s, step);
            && SessionsSeparate(t) && LockOwned(t)
            && (forall i :: 0 <= i < |t.replicas| ==> LockExact(t, i))
            && (forall i :: 0 <= i < |t.replicas| ==> Distinct(t.replicas[i].files))
  {
    hide TableFits, CountsFit, Pending, Distinct;
    var i, t := step.i, Do(s, step);
    assert LockExact(s, i);
    assert forall k :: 0 <= k < |s.replicas| && k != i ==> t.replicas[k] == s.replicas[k];
    forall k | 0 <= k < |t.replicas|
      ensures LockExact(t, k)
    {
      assert LockExact(s, k);
    }
    if t.lock.Held? {
      if step.TakeLock? {
        assert t.replicas[i].session == Some(t.lock.holder);
      } else {
        var k :| 0 <= k < |s.replicas| && s.replicas[k].session == Some(s.lock.holder);
        assert LockExact(s, k);
        assert t.replicas[k].session == Some(t.lock.holder);
      }
    }
  }

  lemma StepKeepsCounts(s: State, initial: seq<string>, step: Step, k: nat)
    requires Inv(s, initial) && Enabled(s, step) && k < |s.replicas|
    ensures CountsFit(Do(s, step), initial, Do(s, step).replicas[k])
  {
    hide LockExact, Distinct, Disjoint, Within, AppliedBySome, Pending, SessionsSeparate;
    var i := step.i;
    assert CountsFit(s, initial, s.replicas[i]) && CountsFit(s, initial, s.replicas[k]);
    if k < i {
      Exclusion(s, initial, k, i);
    } else if i < k {
      Exclusion(s, initial, i, k);
    }
  }

  lemma {:induction false} PendingIsDistinct(files: seq<string>, applied: seq<string>)
    requires Distinct(files)
    ensures Distinct(Pending(files, applied))
  {
    if files == [] {
    } else {
      assert forall i, j :: 0 <= i < j < |files[1..]|
                       ==> files[1..][i] == files[i + 1] && files[1..][j] == files[j + 1];
      PendingIsDistinct(files[1..], applied);
      HeadIsElsewhere(files);
    }
  }

  lemma HeadIsElsewhere(names: seq<string>)
    requires Distinct(names) && names != []
    ensures names[0] !in names[1..]
  {
  }

  lemma DistinctUnion(a: seq<string>, b: seq<string>)
    requires Distinct(a) && Distinct(b) && Disjoint(b, a)
    ensures Distinct(a + b)
  {
    forall i, j | 0 <= i < j < |a + b|
      ensures (a + b)[i] != (a + b)[j]
    {
      if i < |a| <= j {
        assert (a + b)[j] in b && (a + b)[i] in a;
      }
    }
  }

  /** A successful migration adds exactly its pending files. */
  lemma MigrateApplies(s: State, i: nat)
    requires Enabled(s, Migrate(i))
    ensures var t, pending := Do(s, Migrate(i)), Pending(s.replicas[i].files, Applied(s.table));
            && |t.replicas| == |s.replicas|
            && Applied(t.table) == Applied(s.table) + pending
            && AppliedBy(s.replicas[i]) == []
            && AppliedBy(t.replicas[i]) == pending
            && forall k :: 0 <= k < |s.replicas| && k != i ==> AppliedBy(t.replicas[k]) == AppliedBy(s.replicas[k])
  {
    hide Pending;
  }

  lemma MigrateKeepsTable(s: State, initial: seq<string>, i: nat)
    requires Inv(s, initial) && Enabled(s, Migrate(i))
    ensures TableFits(Do(s, Migrate(i)), initial)
  {
    hide LockExact, CountsFit, SessionsSeparate, LockOwned, Do, AppliedBy, Pending, Distinct, AppliedBySome;
    var t := Do(s, Migrate(i));
    var applied, pending := Applied(s.table), Pending(s.replicas[i].files, Applied(s.table));
    MigrateApplies(s, i);
    PendingIsDistinct(s.replicas[i].files, applied);
    DistinctUnion(applied, pending);
    forall m | m in Applied(t.table)
      ensures m in initial || AppliedBySome(t, m)
    {
      MigratedBySome(s, i, initial, m);
    }
    forall k, l | 0 <= k < l < |t.replicas|
      ensures Disjoint(AppliedBy(t.replicas[k]), AppliedBy(t.replicas[l]))
    {
      assert Within(AppliedBy(s.replicas[k]), applied) && Within(AppliedBy(s.replicas[l]), applied);
    }
  }

  lemma MigratedBySome(s: State, i: nat, initial: seq<string>, m: string)
    requires Enabled(s, Migrate(i)) && m in Applied(Do(s, Migrate(i)).table)
    requires m in Applied(s.table) ==> m in initial || AppliedBySome(s, m)
    ensures m in initial || AppliedBySome(Do(s, Migrate(i)), m)
  {
    hide Do, AppliedBy, Pending;
    var t := Do(s, Migrate(i));
    MigrateApplies(s, i);
    if m in AppliedBy(t.replicas[i]) {
    } else if m !in initial {
      var k :| 0 <= k < |s.replicas| && m in AppliedBy(s.replicas[k]);
      assert m in AppliedBy(t.replicas[k]);
    }
  }

  lemma OtherStepsKeepTable(s: State, initial: seq<string>, step: Step)
    requires Inv(s, initial) && Enabled(s, step) && !step.Migrate?
    ensures TableFits(Do(s, step), initial)
  {
    hide LockExact, CountsFit, SessionsSeparate, LockOwned, Pending, Distinct, Disjoint, Within;
    var t := Do(s, step);
    forall k | 0 <= k < |s.replicas|
      ensures AppliedBy(t.replicas[k]) == AppliedBy(s.replicas[k])
    {
    }
    forall m | m in Applied(s.table) && m !in initial
      ensures AppliedBySome(t, m)
    {
      var k :| 0 <= k < |s.replicas| && m in AppliedBy(s.replicas[k]);
      assert m in AppliedBy(t.replicas[k]);
    }
  }

  lemma StepKeepsInv(s: State, initial: seq<string>, step: Step)
    requires Inv(s, initial) && Enabled(s, step)
    ensures Inv(Do(s, step), initial)
  {
    hide TableFits, CountsFit, LockExact, SessionsSeparate, LockOwned, Do, Distinct;
    var t := Do(s, step);
    StepKeepsLock(s, initial, step);
    StepKeepsCount(s, step);
    forall k | 0 <= k < |t.replicas|
      ensures CountsFit(t, initial, t.replicas[k])
    {
      StepKeepsCounts(s, initial, step, k);
    }
    if step.Migrate? {
      MigrateKeepsTable(s, initial, step.i);
    } else {
      OtherStepsKeepTable(s, initial, step);
    }
  }

  lemma StepKeepsCount(s: State, step: Step)
    requires Enabled(s, step)
    ensures |Do(s, step).replicas| == |s.replicas|
  {
  }

  // ---- Every interleaving -----------------------------------------------------------------

  ghost predicate CanRun(s: State, steps: seq<Step>)
    decreases |steps|
  {
    steps == [] || (Enabled(s, steps[0]) && CanRun(Do(s, steps[0]), steps[1..]))
  }

  ghost function After(s: State, steps: seq<Step>): State
    requires CanRun(s, steps)
    decreases |steps|
  {
    if steps == [] then s else After(Do(s, steps[0]), steps[1..])
  }

  lemma {:induction false} EveryInterleavingIsSafe(s: State, initial: seq<string>, steps: seq<Step>)
    requires Inv(s, initial) && CanRun(s, steps)
    ensures Inv(After(s, steps), initial)
    decreases |steps|
  {
    hide Inv, Do;
    if steps == [] {
    } else {
      StepKeepsInv(s, initial, steps[0]);
      EveryInterleavingIsSafe(Do(s, steps[0]), initial, steps[1..]);
    }
  }

  /**
   In every interleaving of any number of replicas, with time-outs and failures anywhere: one run at
   a time is past the lock, no idle connection holds it, and what the successful runs report
   partitions what was added to the table, each migration applied once.
   */
  lemma DeployIsExclusive(s: State, steps: seq<Step>)
    requires Initial(s) && CanRun(s, steps)
    ensures var t, initial := After(s, steps), Applied(s.table);
            && (forall i, j :: 0 <= i < j < |t.replicas| ==>
                  !(InTry(t.replicas[i].phase) && InTry(t.replicas[j].phase)))
            && (t.lock.Held? ==>
                  exists i :: 0 <= i < |t.replicas| && Holds(t, i) && InTry(t.replicas[i].phase))
            && TableFits(t, initial)
  {
    hide TableFits, CountsFit, Distinct;
    InitialIsSafe(s);
    EveryInterleavingIsSafe(s, Applied(s.table), steps);
    var t := After(s, steps);
    forall i, j | 0 <= i < j < |t.replicas|
      ensures !(InTry(t.replicas[i].phase) && InTry(t.replicas[j].phase))
    {
      Exclusion(t, Applied(s.table), i, j);
    }
    if t.lock.Held? {
      var k :| 0 <= k < |t.replicas| && t.replicas[k].session == Some(t.lock.holder);
      assert LockExact(t, k) && Holds(t, k);
    }
  }

  // ---- In which order ---------------------------------------------------------------------

  /** Index i of one list and index a of another hold the same name. */
  predicate Stands(names: seq<string>, i: int, files: seq<string>, a: int) {
    0 <= i < |names| && 0 <= a < |files| && names[i] == files[a]
  }

  /** Of two names, the earlier one stands earlier in the files too. */
  ghost predicate InFileOrder(names: seq<string>, files: seq<string>) {
    && (forall i :: 0 <= i < |names| ==> names[i] in files)
    && forall i, j, a, b :: i < j && Stands(names, i, files, a) && Stands(names, j, files, b) ==> a < b
  }

  /** The names were added to the table one after the other, in their order. */
  ghost predicate IsBlock(names: seq<string>, table: seq<string>) {
    exists before, after :: table == before + names + after
  }

  /** What a run that succeeded has done: its files are all there, and it added its own in file order. */
  ghost predicate Succeeded(files: seq<string>, applied: seq<string>, table: seq<string>) {
    InFileOrder(applied, files) && IsBlock(applied, table) && Within(files, table)
  }

  lemma {:induction false} PendingKeepsOrder(files: seq<string>, applied: seq<string>)
    requires Distinct(files)
    ensures InFileOrder(Pending(files, applied), files)
    ensures Disjoint(files, applied) ==> Pending(files, applied) == files
  {
    if files == [] {
    } else {
      var rest, later := files[1..], Pending(files[1..], applied);
      TailIsDistinct(files);
      PendingKeepsOrder(rest, applied);
      OneMoreInOrder(files, later);
      assert files == [files[0]] + rest;
      if Disjoint(files, applied) {
        assert forall m :: m in rest ==> m in files;
      }
    }
  }

  lemma TailIsDistinct(files: seq<string>)
    requires Distinct(files) && files != []
    ensures Distinct(files[1..])
  {
    assert forall i, j :: 0 <= i < j < |files[1..]|
                     ==> files[1..][i] == files[i + 1] && files[1..][j] == files[j + 1];
  }

  lemma OneMoreInOrder(files: seq<string>, later: seq<string>)
    requires Distinct(files) && files != [] && InFileOrder(later, files[1..])
    ensures InFileOrder(later, files) && InFileOrder([files[0]] + later, files)
  {
    var rest, more := files[1..], [files[0]] + later;
    HeadIsElsewhere(files);
    forall i, a | Stands(later, i, files, a)
      ensures a > 0 && Stands(later, i, rest, a - 1)
    {
      assert later[i] in rest;
    }
    forall i, j, a, b | i < j && Stands(more, i, files, a) && Stands(more, j, files, b)
      ensures a < b
    {
      assert Stands(later, j - 1, files, b);
      if i > 0 {
        assert Stands(later, i - 1, files, a);
        assert Stands(later, i - 1, rest, a - 1) && Stands(later, j - 1, rest, b - 1);
      }
    }
    forall i, j, a, b | i < j && Stands(later, i, files, a) && Stands(later, j, files, b)
      ensures a < b
    {
      assert Stands(later, i, rest, a - 1) && Stands(later, j, rest, b - 1);
    }
  }

  /**
   A migration that goes through reports exactly those of its files that were not in the table, in the
   order of the files, and adds them to the table in that order.
   */
  lemma MigrationKeepsOrder(s: State, i: nat)
    requires Enabled(s, Migrate(i)) && Distinct(s.replicas[i].files)
    ensures Do(s, Migrate(i)).replicas[i].phase.Unlocking?
    ensures var t, files := Do(s, Migrate(i)), s.replicas[i].files;
            var outcome := t.replicas[i].phase.outcome;
            && outcome.Returned?
            && (forall m :: m in outcome.applied <==> m in files && m !in Applied(s.table))
            && t.table == Some(Applied(s.table) + outcome.applied)
            && Succeeded(files, outcome.applied, Applied(t.table))
            && (Disjoint(files, Applied(s.table)) ==> outcome.applied == files)
  {
    var files, before := s.replicas[i].files, Applied(s.table);
    PendingKeepsOrder(files, before);
    var pending := Pending(files, before);
    assert before + pending == before + pending + [];
  }

  /** Every successful run, as long as the other replicas go on. */
  ghost predicate RunsSucceeded(s: State) {
    forall i :: 0 <= i < |s.replicas| ==> RunSucceeded(s, i)
  }

  ghost predicate RunSucceeded(s: State, i: nat)
    requires i < |s.replicas|
  {
    var r := s.replicas[i];
    && (r.phase.Unlocking? && r.phase.outcome.Returned? ==>
          Succeeded(r.files, r.phase.outcome.applied, Applied(s.table)))
    && (r.phase.Done? && r.phase.outcome.Returned? ==>
          Succeeded(r.files, r.phase.outcome.applied, Applied(s.table)))
  }

  lemma SuccessLasts(files: seq<string>, applied: seq<string>, table: seq<string>, more: seq<string>)
    requires Succeeded(files, applied, table)
    ensures Succeeded(files, applied, table + more)
  {
    hide InFileOrder;
    var before, after :| table == before + applied + after;
    assert table + more == before + applied + (after + more);
  }

  lemma TableGrows(s: State, step: Step) returns (more: seq<string>)
    requires Enabled(s, step)
    ensures Applied(Do(s, step).table) == Applied(s.table) + more
  {
    more := Applied(Do(s, step).table)[|Applied(s.table)|..];
  }

  lemma StepKeepsSuccess(s: State, step: Step, k: nat)
    requires Enabled(s, step) && k < |s.replicas| && Distinct(s.replicas[k].files) && RunSucceeded(s, k)
    ensures k < |Do(s, step).replicas| && RunSucceeded(Do(s, step), k)
  {
    hide Succeeded, Pending, Distinct;
    var t, r := Do(s, step), s.replicas[k];
    var more := TableGrows(s, step);
    if step == Migrate(k) {
      MigrationKeepsOrder(s, k);
    } else if (r.phase.Unlocking? || r.phase.Done?) && r.phase.outcome.Returned? {
      SuccessLasts(r.files, r.phase.outcome.applied, Applied(s.table), more);
    }
  }

  lemma {:induction false} RunKeepsSuccess(s: State, initial: seq<string>, steps: seq<Step>)
    requires Inv(s, initial) && CanRun(s, steps) && RunsSucceeded(s)
    ensures RunsSucceeded(After(s, steps))
    decreases |steps|
  {
    hide Do, RunSucceeded, LockExact, CountsFit, TableFits, LockOwned, SessionsSeparate, Distinct, Enabled;
    if steps == [] {
    } else {
      var t := Do(s, steps[0]);
      StepKeepsInv(s, initial, steps[0]);
      StepKeepsCount(s, steps[0]);
      forall k | 0 <= k < |t.replicas|
        ensures RunSucceeded(t, k)
      {
        StepKeepsSuccess(s, steps[0], k);
      }
      RunKeepsSuccess(t, initial, steps[1..]);
    }
  }

  /**
   In every interleaving, each run that has succeeded reports its migrations in the order of its files,
   the table has them one after the other in that order, and all of the run's files are in the table.
   */
  lemma DeployKeepsOrder(s: State, steps: seq<Step>)
    requires Initial(s) && CanRun(s, steps)
    ensures RunsSucceeded(After(s, steps))
  {
    hide CanRun, After, Inv;
    InitialIsSafe(s);
    RunKeepsSuccess(s, Applied(s.table), steps);
  }

  lemma {:induction false} RunsCompose(s: State, first: seq<Step>, second: seq<Step>)
    requires CanRun(s, first) && CanRun(After(s, first), second)
    ensures CanRun(s, first + second) && After(s, first + second) == After(After(s, first), second)
    decreases |first|
  {
    hide Enabled, Do;
    if first == [] {
      assert first + second == second;
    } else {
      assert (first + second)[1..] == first[1..] + second;
      RunsCompose(Do(s, first[0]), first[1..], second);
    }
  }

  lemma OneStep(s: State, step: Step)
    requires Enabled(s, step)
    ensures CanRun(s, [step]) && After(s, [step]) == Do(s, step)
  {
    hide Enabled, Do;
    assert [step][1..] == [];
  }

  /** Reading how many migrations are applied, with nobody in between. */
  function Reading(s: State, i: nat): seq<Step> {
    if s.table.Some? then [Probe(i)] + [Count(i)] else [Probe(i)]
  }

  lemma ReadingCounts(s: State, i: nat)
    requires i < |s.replicas| && (s.replicas[i].phase.ProbingBefore? || s.replicas[i].phase.ProbingAfter?)
    ensures CanRun(s, Reading(s, i))
    ensures var r, n := s.replicas[i], |Applied(s.table)|;
            After(s, Reading(s, i))
            == SetReplica(s, i, r.(
                 phase := if r.phase.ProbingBefore? then Locking(n) else Migrating(r.phase.before, n)))
  {
    hide CanRun, After;
    OneStep(s, Probe(i));
    if s.table.Some? {
      var t := Do(s, Probe(i));
      OneStep(t, Count(i));
      RunsCompose(s, [Probe(i)], [Count(i)]);
    }
  }

  /** A replica that is left alone succeeds, has not waited, and gives the lock back. */
  lemma AloneSucceeds(s: State, i: nat, session: Session) returns (steps: seq<Step>, applied: seq<string>)
    requires Initial(s) && i < |s.replicas|
    ensures CanRun(s, steps) && i < |After(s, steps).replicas|
    ensures var t, files := After(s, steps), s.replicas[i].files;
            && t.replicas[i] == Replica(files, Done(Returned(applied, false)), None)
            && t.table == Some(Applied(s.table) + applied) && t.lock == Free
            && (forall m :: m in applied <==> m in files && m !in Applied(s.table))
            && InFileOrder(applied, files)
  {
    hide Pending, Distinct, InFileOrder, CanRun, After, Reading, IsBlock, Within;
    OneStep(s, Connect(i, session));
    var connected := Do(s, Connect(i, session));
    ReadingCounts(connected, i);
    var waiting := After(connected, Reading(connected, i));
    OneStep(waiting, TakeLock(i));
    var locked := Do(waiting, TakeLock(i));
    ReadingCounts(locked, i);
    var ready := After(locked, Reading(locked, i));
    OneStep(ready, Migrate(i));
    MigrationKeepsOrder(ready, i);
    var migrated := Do(ready, Migrate(i));
    OneStep(migrated, Unlock(i));
    applied := migrated.replicas[i].phase.outcome.applied;
    RunsCompose(ready, [Migrate(i)], [Unlock(i)]);
    RunsCompose(locked, Reading(locked, i), [Migrate(i)] + [Unlock(i)]);
    steps := Reading(locked, i) + ([Migrate(i)] + [Unlock(i)]);
    RunsCompose(waiting, [TakeLock(i)], steps);
    steps := [TakeLock(i)] + steps;
    RunsCompose(connected, Reading(connected, i), steps);
    steps := Reading(connected, i) + steps;
    RunsCompose(s, [Connect(i, session)], steps);
    steps := [Connect(i, session)] + steps;
  }

  // ---- What `waited` means ----------------------------------------------------------------

  /** At the moment of migrating, `waited` says that the table grew after the first read. */
  lemma WaitedMeansGrown(s: State, initial: seq<string>, i: nat)
    requires Inv(s, initial) && Enabled(s, Migrate(i))
    ensures Do(s, Migrate(i)).replicas[i].phase.Unlocking?
    ensures Do(s, Migrate(i)).replicas[i].phase.outcome.waited
       <==> |Applied(s.table)| > s.replicas[i].phase.before
  {
    assert CountsFit(s, initial, s.replicas[i]);
  }

  predicate SameFiles(s: State, files: seq<string>) {
    forall i :: 0 <= i < |s.replicas| ==> s.replicas[i].files == files
  }

  /** Once anything was added, everything was. */
  predicate AllOrNothing(s: State, initial: seq<string>, files: seq<string>) {
    |Applied(s.table)| > |initial| ==> Within(files, Applied(s.table))
  }

  lemma StepKeepsAllOrNothing(s: State, initial: seq<string>, files: seq<string>, step: Step)
    requires SameFiles(s, files) && AllOrNothing(s, initial, files) && Enabled(s, step)
    ensures SameFiles(Do(s, step), files) && AllOrNothing(Do(s, step), initial, files)
  {
    if step.Migrate? {
      assert s.replicas[step.i].files == files;
    }
  }

  lemma {:induction false} RunKeepsAllOrNothing(s: State, initial: seq<string>, files: seq<string>, steps: seq<Step>)
    requires SameFiles(s, files) && AllOrNothing(s, initial, files) && CanRun(s, steps)
    ensures SameFiles(After(s, steps), files) && AllOrNothing(After(s, steps), initial, files)
    decreases |steps|
  {
    hide Do, SameFiles, AllOrNothing;
    if steps == [] {
    } else {
      StepKeepsAllOrNothing(s, initial, files, steps[0]);
      RunKeepsAllOrNothing(Do(s, steps[0]), initial, files, steps[1..]);
    }
  }

  /** When every replica ships the same migrations, a run that waited finds nothing left to apply. */
  lemma WaitedAppliesNothing(s: State, files: seq<string>, steps: seq<Step>, i: nat)
    requires Initial(s) && SameFiles(s, files) && CanRun(s, steps)
    requires Enabled(After(s, steps), Migrate(i))
    ensures var outcome := Do(After(s, steps), Migrate(i)).replicas[i].phase.outcome;
            outcome.waited ==> outcome.applied == []
  {
    hide TableFits, LockExact, SessionsSeparate, LockOwned, Distinct;
    var t := After(s, steps);
    InitialIsSafe(s);
    EveryInterleavingIsSafe(s, Applied(s.table), steps);
    RunKeepsAllOrNothing(s, Applied(s.table), files, steps);
    assert CountsFit(t, Applied(s.table), t.replicas[i]);
    var pending := Pending(t.replicas[i].files, Applied(t.table));
    assert pending != [] ==> pending[0] in pending;
    assert t.replicas[i].files == files;
  }
}
