/**
 The phase machine of a backup task. Its status is persisted by one patch at the end of each reconcile; a process
 that dies before the patch leaves the status as it was, and the step runs again.
 */
module BackupController {
  import opened Basics
  import Scheduler

  datatype Phase =
    | New | Pending | Validating | Preparing | CollectingResources | RunningPreHooks | CreatingSnapshots
    | Packaging | Uploading | Verifying | GeneratingRecord
    | Completed | PartiallyFailed | Failed | Cancelled

  datatype StartTime = NotStarted | StartedAt(at: int)

  /** The part of the status the machine works on. */
  datatype Status = Status(phase: Phase, percent: nat, attempt: nat, started: StartTime, checkpoints: seq<Phase>)

  datatype RetryPolicy = RetryPolicy(maxAttempts: int, backoff: int, maxBackoff: int)

  /** The frozen execution spec, as far as the machine reads it. */
  datatype Spec = Spec(timeout: int, retry: RetryPolicy)

  /** How the step of the current phase ends. */
  datatype Answer =
    | Succeeds            // the step's work is done
    | SucceedsPartially   // there were no snapshots to take, or the finished record is partial
    | Pends               // snapshots are not ready, or the record is not verified yet
    | Fails(retryable: bool)
    | Dies                // the process stops before the status patch

  /** What one reconcile sees. */
  datatype Observation = Observation(now: int, deleted: bool, cancelRequested: bool, answer: Answer)

  const DEFAULT_TIMEOUT: int := 14_400 * SECOND
  const CHECKPOINT_LIMIT: nat := 30
  const MAX_SHIFT: nat := 6

  /** The phases in the order they are passed. */
  const ORDER: seq<Phase> := [
    Pending, Validating, Preparing, CollectingResources, RunningPreHooks, CreatingSnapshots, Packaging, Uploading,
    Verifying, GeneratingRecord]

  predicate Terminal(phase: Phase) {
    phase in {Completed, PartiallyFailed, Failed, Cancelled}
  }

  predicate Committed(phase: Phase) {
    phase in {Uploading, Verifying, GeneratingRecord} || Terminal(phase)
  }

  /** The steps that can ask to be called again. */
  predicate CanPend(phase: Phase) {
    phase == RunningPreHooks || phase == GeneratingRecord
  }

  // ---- one step ----

  function Timeout(spec: Spec): int {
    if spec.timeout > 0 then spec.timeout else DEFAULT_TIMEOUT
  }

  predicate TimedOut(started: StartTime, timeout: int, now: int) {
    started.StartedAt? && timeout > 0 && now > started.at + timeout
  }

  function AppendCheckpoint(checkpoints: seq<Phase>, phase: Phase): seq<Phase> {
    var all := checkpoints + [phase];
    if |all| > CHECKPOINT_LIMIT then all[|all| - CHECKPOINT_LIMIT..] else all
  }

  /** The phase a finished step leads to. */
  function Following(phase: Phase, partially: bool): Phase
    requires !Terminal(phase)
  {
    match phase
    case New => Pending
    case Pending => Validating
    case Validating => Preparing
    case Preparing => CollectingResources
    case CollectingResources => RunningPreHooks
    case RunningPreHooks => CreatingSnapshots
    case CreatingSnapshots => Packaging
    case Packaging => Uploading
    case Uploading => Verifying
    case Verifying => GeneratingRecord
    case GeneratingRecord => if partially then PartiallyFailed else Completed
  }

  /** The percentage it reports; generating the record reports none. */
  function Percent(phase: Phase, partially: bool, before: nat): nat {
    match phase
    case Pending => 0
    case Validating => 5
    case Preparing => 10
    case CollectingResources => 35
    case RunningPreHooks => 40
    case CreatingSnapshots => if partially then 55 else 60
    case Packaging => 70
    case Uploading => 85
    case Verifying => 95
    case Completed => 100
    case PartiallyFailed => 100
    case _ => before
  }

  /** The phases entered through `transition`, which starts the clock. */
  predicate StartsClock(phase: Phase) {
    phase in {Validating, Preparing, RunningPreHooks, CreatingSnapshots}
  }

  function Advance(s: Status, partially: bool, now: int): Status
    requires !Terminal(s.phase)
  {
    var phase := Following(s.phase, partially);
    Status(phase, Percent(phase, partially, s.percent), s.attempt,
           if StartsClock(phase) && s.started.NotStarted? then StartedAt(Scheduler.Floor(now)) else s.started,
           if Terminal(phase) then s.checkpoints else AppendCheckpoint(s.checkpoints, phase))
  }

  /** fail: count the attempt, and end the task unless the error may be retried. */
  function Fail(spec: Spec, s: Status, retryable: bool): Status {
    if retryable && s.attempt + 1 < spec.retry.maxAttempts then s.(attempt := s.attempt + 1)
    else s.(attempt := s.attempt + 1, phase := Failed)
  }

  /** The status after one reconcile. */
  function Step(spec: Spec, s: Status, o: Observation): Status {
    if Terminal(s.phase) || o.answer == Dies then s
    else if o.deleted || (o.cancelRequested && !Committed(s.phase)) then s.(phase := Cancelled)
    else if TimedOut(s.started, Timeout(spec), o.now) then Fail(spec, s, false)
    else if s.phase == New then Advance(s, false, o.now)
    else if o.answer.Fails? then Fail(spec, s, o.answer.retryable)
    else if o.answer == Pends && CanPend(s.phase) then s
    else Advance(s, o.answer == SucceedsPartially, o.now)
  }

  /** Does this reconcile get as far as the step of the current phase? */
  predicate StepRuns(spec: Spec, s: Status, o: Observation) {
    && !Terminal(s.phase) && s.phase != New
    && !o.deleted && !(o.cancelRequested && !Committed(s.phase))
    && !TimedOut(s.started, Timeout(spec), o.now)
  }

  /** Does the step report that its work is done? */
  predicate Reports(o: Observation) {
    !o.answer.Fails? && !o.answer.Dies?
  }

  function Shift(attempt: nat): nat
    requires attempt > 0
  {
    if attempt - 1 < MAX_SHIFT then attempt - 1 else MAX_SHIFT
  }

  function Pow2(n: nat): nat {
    if n == 0 then 1 else 2 * Pow2(n - 1)
  }

  /** The pause before attempt number `attempt` is repeated, in 64-bit nanoseconds. */
  function RetryDelay(retry: RetryPolicy, attempt: nat): int {
    var delay := Wrap64(retry.backoff * Pow2(if attempt == 0 then 0 else Shift(attempt)));
    if retry.maxBackoff > 0 && delay > retry.maxBackoff then retry.maxBackoff else delay
  }

  const START := Status(New, 0, 0, NotStarted, [])

  // ---- the code ----

  datatype Requeue = Done | Now | Later | After(delay: int)

  /** The task object: `persisted` is what the API server holds. */
  class BackupTask {
    const spec: Spec
    var persisted: Status

    constructor (spec: Spec)
      ensures this.spec == spec && persisted == START
    {
      this.spec, persisted := spec, START;
    }

    method Patch(status: Status)
      modifies this
      ensures persisted == status
    {
      persisted := status;
    }

    method Transition(status: Status, phase: Phase, percent: nat, now: int) returns (requeue: Requeue)
      modifies this
      ensures persisted == Status(phase, percent, status.attempt,
        if status.started.NotStarted? && phase != Pending then StartedAt(Scheduler.Floor(now)) else status.started,
        AppendCheckpoint(status.checkpoints, phase))
    {
      var next := status.(phase := phase, percent := percent);
      if status.started.NotStarted? && phase != Pending {
        next := next.(started := StartedAt(Scheduler.Floor(now)));
      }
      next := next.(checkpoints := AppendCheckpoint(next.checkpoints, phase));
      Patch(next);
      return Now;
    }

    method FailStep(retryable: bool) returns (requeue: Requeue)
      requires !Terminal(persisted.phase)
      modifies this
      ensures persisted == Fail(spec, old(persisted), retryable)
      ensures requeue == if Terminal(persisted.phase) then Done else After(RetryDelay(spec.retry, persisted.attempt))
    {
      var status := persisted.(attempt := persisted.attempt + 1);
      if retryable && status.attempt < spec.retry.maxAttempts {
        Patch(status);
        return After(RetryDelay(spec.retry, status.attempt));
      }
      Patch(status.(phase := Failed));
      return Done;
    }

    method Reconcile(o: Observation) returns (requeue: Requeue)
      modifies this
      ensures persisted == Step(spec, old(persisted), o)
    {
      var s := persisted;
      if Terminal(s.phase) || o.answer == Dies {
        return Done;
      }
      if o.deleted || (o.cancelRequested && !Committed(s.phase)) {
        Patch(s.(phase := Cancelled));
        return Done;
      }
      if TimedOut(s.started, Timeout(spec), o.now) {
        requeue := FailStep(false);
        return;
      }
      if s.phase == New {
        requeue := Transition(s, Pending, 0, o.now);
        return;
      }
      if o.answer.Fails? {
        requeue := FailStep(o.answer.retryable);
        return;
      }
      var partially := o.answer == SucceedsPartially;
      match s.phase
      case Pending => requeue := Transition(s, Validating, 5, o.now);
      case Validating => requeue := Transition(s, Preparing, 10, o.now);
      case Preparing =>
        Patch(s.(phase := CollectingResources, percent := 35,
          checkpoints := AppendCheckpoint(s.checkpoints, CollectingResources)));
        requeue := Now;
      case CollectingResources => requeue := Transition(s, RunningPreHooks, 40, o.now);
      case RunningPreHooks =>
        if o.answer == Pends {
          return Later;
        }
        requeue := Transition(s, CreatingSnapshots, if partially then 55 else 60, o.now);
      case CreatingSnapshots =>
        Patch(s.(phase := Packaging, percent := 70, checkpoints := AppendCheckpoint(s.checkpoints, Packaging)));
        requeue := Now;
      case Packaging =>
        Patch(s.(phase := Uploading, percent := 85, checkpoints := AppendCheckpoint(s.checkpoints, Uploading)));
        requeue := Now;
      case Uploading =>
        Patch(s.(phase := Verifying, percent := 95, checkpoints := AppendCheckpoint(s.checkpoints, Verifying)));
        requeue := Now;
      case Verifying =>
        Patch(s.(phase := GeneratingRecord, checkpoints := AppendCheckpoint(s.checkpoints, GeneratingRecord)));
        requeue := Later;
      case GeneratingRecord =>
        if o.answer == Pends {
          return Later;
        }
        Patch(s.(phase := if partially then PartiallyFailed else Completed, percent := 100));
        requeue := Done;
    }
  }

  // ---- what every reachable status looks like ----

  function Rank(phase: Phase): nat {
    match phase
    case New => 0
    case Pending => 1
    case Validating => 2
    case Preparing => 3
    case CollectingResources => 4
    case RunningPreHooks => 5
    case CreatingSnapshots => 6
    case Packaging => 7
    case Uploading => 8
    case Verifying => 9
    case GeneratingRecord => 10
    case _ => 11
  }

  /** May the task show `percent` after passing `passed` phases? */
  predicate PercentFits(passed: nat, percent: nat) {
    if passed <= 1 then percent == 0
    else if passed == 2 then percent == 5
    else if passed == 3 then percent == 10
    else if passed == 4 then percent == 35
    else if passed == 5 then percent == 40
    else if passed == 6 then percent == 55 || percent == 60
    else if passed == 7 then percent == 70
    else if passed == 8 then percent == 85
    else percent == 95
  }

  function Tries(spec: Spec): nat {
    if spec.retry.maxAttempts > 1 then spec.retry.maxAttempts else 1
  }

  ghost predicate Inv(spec: Spec, s: Status) {
    var passed := |s.checkpoints|;
    && passed <= |ORDER| && s.checkpoints == ORDER[..passed]
    && (!Terminal(s.phase) ==> Rank(s.phase) == passed && PercentFits(passed, s.percent) && s.attempt < Tries(spec))
    && (s.started.StartedAt? <==> passed >= 2)
    && (s.phase in {Completed, PartiallyFailed} ==> passed == |ORDER| && s.percent == 100)
    && (s.phase in {Failed, Cancelled} ==> PercentFits(passed, s.percent))
  }

  lemma NextCheckpoint(s: Status)
    requires !Terminal(s.phase) && s.phase != GeneratingRecord
    requires s.checkpoints == ORDER[..Rank(s.phase)]
    ensures Rank(s.phase) < |ORDER| && Following(s.phase, true) == Following(s.phase, false) == ORDER[Rank(s.phase)]
    ensures AppendCheckpoint(s.checkpoints, ORDER[Rank(s.phase)]) == ORDER[..Rank(s.phase) + 1]
    ensures Rank(ORDER[Rank(s.phase)]) == Rank(s.phase) + 1
  {
    assert ORDER[..Rank(s.phase) + 1] == ORDER[..Rank(s.phase)] + [ORDER[Rank(s.phase)]];
  }

  ghost predicate Forward(s: Status, t: Status) {
    Rank(s.phase) <= Rank(t.phase) && s.percent <= t.percent && s.checkpoints <= t.checkpoints
  }

  lemma StopForward(spec: Spec, s: Status, retryable: bool)
    requires Inv(spec, s) && !Terminal(s.phase)
    ensures Inv(spec, Fail(spec, s, retryable)) && Forward(s, Fail(spec, s, retryable))
    ensures Inv(spec, s.(phase := Cancelled)) && Forward(s, s.(phase := Cancelled))
  {
  }

  /** A reconcile does nothing, stops the task, counts a failure, or advances. */
  lemma StepCases(spec: Spec, s: Status, o: Observation)
    requires !Terminal(s.phase)
    ensures var t := Step(spec, s, o);
      || t == s || t == s.(phase := Cancelled) || t == Fail(spec, s, true) || t == Fail(spec, s, false)
      || t == Advance(s, true, o.now) || t == Advance(s, false, o.now)
  {
  }

  lemma AdvanceForward(spec: Spec, s: Status, partially: bool, now: int)
    requires Inv(spec, s) && !Terminal(s.phase)
    ensures Inv(spec, Advance(s, partially, now)) && Forward(s, Advance(s, partially, now))
  {
    if s.phase != GeneratingRecord {
      NextCheckpoint(s);
      var phase := ORDER[Rank(s.phase)];
      assert PercentFits(Rank(phase), Percent(phase, partially, s.percent));
    }
  }

  /** One reconcile keeps the invariant, and never goes back. */
  lemma StepForward(spec: Spec, s: Status, o: Observation)
    requires Inv(spec, s)
    ensures Inv(spec, Step(spec, s, o)) && Forward(s, Step(spec, s, o))
  {
    if !Terminal(s.phase) {
      StepCases(spec, s, o);
      StopForward(spec, s, true);
      StopForward(spec, s, false);
      AdvanceForward(spec, s, false, o.now);
      AdvanceForward(spec, s, true, o.now);
    }
  }

  // ---- runs ----

  /** The status after the first `n` reconciles. */
  function Run(spec: Spec, observations: seq<Observation>, n: nat): Status
    requires n <= |observations|
  {
    if n == 0 then START else Step(spec, Run(spec, observations, n - 1), observations[n - 1])
  }

  lemma {:induction false} RunKeepsInv(spec: Spec, observations: seq<Observation>, n: nat)
    requires n <= |observations|
    ensures Inv(spec, Run(spec, observations, n))
  {
    if n > 0 {
      RunKeepsInv(spec, observations, n - 1);
      StepForward(spec, Run(spec, observations, n - 1), observations[n - 1]);
    }
  }

  ghost predicate Extends(s: Status, t: Status) {
    Forward(s, t) && (Terminal(s.phase) ==> t == s)
  }

  lemma ExtendsStep(spec: Spec, s: Status, t: Status, o: Observation)
    requires Inv(spec, t) && Extends(s, t)
    ensures Extends(s, Step(spec, t, o))
  {
    StepForward(spec, t, o);
  }

  lemma {:induction false} RunExtends(spec: Spec, observations: seq<Observation>, s: Status, i: nat, j: nat)
    requires i <= j <= |observations| && s == Run(spec, observations, i)
    ensures Extends(s, Run(spec, observations, j))
    decreases j
  {
    if i < j {
      RunExtends(spec, observations, s, i, j - 1);
      RunKeepsInv(spec, observations, j - 1);
      ExtendsStep(spec, s, Run(spec, observations, j - 1), observations[j - 1]);
    }
  }

  /** Along every run rank, percentage and checkpoints only grow, and terminal statuses are final. */
  lemma RunForward(spec: Spec, observations: seq<Observation>, i: nat, j: nat)
    requires i <= j <= |observations|
    ensures var s, t := Run(spec, observations, i), Run(spec, observations, j);
      && Rank(s.phase) <= Rank(t.phase) && s.percent <= t.percent && s.checkpoints <= t.checkpoints
      && (Terminal(s.phase) ==> t == s)
  {
    RunExtends(spec, observations, Run(spec, observations, i), i, j);
  }

  /** The checkpoints are exactly the phases passed, in order; a finished backup has passed all of them. */
  lemma CheckpointsAreThePhases(spec: Spec, observations: seq<Observation>, n: nat)
    requires n <= |observations|
    ensures var s := Run(spec, observations, n);
      && |s.checkpoints| <= |ORDER| && s.checkpoints == ORDER[..|s.checkpoints|]
      && (!Terminal(s.phase) && s.phase != New ==> s.checkpoints != [] && s.checkpoints[|s.checkpoints| - 1] == s.phase)
      && (s.phase in {Completed, PartiallyFailed} ==> s.checkpoints == ORDER && s.percent == 100)
  {
    RunKeepsInv(spec, observations, n);
    assert ORDER[..|ORDER|] == ORDER;
  }

  // ---- cancelling ----

  /** When a reconcile cancels a task. Past the commit point only deleting the object does. */
  lemma CancelIff(spec: Spec, s: Status, o: Observation)
    requires s.phase !in {Completed, PartiallyFailed, Failed, Cancelled}
    ensures Step(spec, s, o).phase == Cancelled <==>
      o.answer != Dies && (o.deleted || (o.cancelRequested && s.phase !in {Uploading, Verifying, GeneratingRecord}))
  {
  }

  lemma {:induction false} CommittedIsNotCancelled(spec: Spec, observations: seq<Observation>, i: nat, j: nat)
    requires i <= j <= |observations|
    requires Committed(Run(spec, observations, i).phase) && Run(spec, observations, i).phase != Cancelled
    requires forall k :: i <= k < j ==> !observations[k].deleted
    ensures Committed(Run(spec, observations, j).phase) && Run(spec, observations, j).phase != Cancelled
  {
    if i < j {
      CommittedIsNotCancelled(spec, observations, i, j - 1);
      var s := Run(spec, observations, j - 1);
      if !Terminal(s.phase) {
        CancelIff(spec, s, observations[j - 1]);
      }
    }
  }

  // ---- failures and retries ----

  /** The reconcile of a task that is not finished, deleted or cancelled, by a process that lives. */
  predicate Alive(s: Status, o: Observation) {
    && s.phase !in {Completed, PartiallyFailed, Failed, Cancelled}
    && o.answer != Dies && !o.deleted && (o.cancelRequested ==> s.phase in {Uploading, Verifying, GeneratingRecord})
  }

  predicate TimeIsUp(spec: Spec, s: Status, now: int) {
    s.started.StartedAt? && now > s.started.at + if spec.timeout > 0 then spec.timeout else 14_400 * SECOND
  }

  /** The reconcile counts a failure: the task timed out, or its step failed. */
  predicate Failing(spec: Spec, s: Status, o: Observation) {
    Alive(s, o) && (TimeIsUp(spec, s, o.now) || (s.phase != New && o.answer.Fails?))
  }

  /** A step that fails retryably is tried again in its phase exactly while attempts are left. */
  lemma RetryIff(spec: Spec, s: Status, o: Observation)
    requires Alive(s, o) && s.phase != New && o.answer.Fails? && !TimeIsUp(spec, s, o.now)
    ensures var t := Step(spec, s, o);
      && t.attempt == s.attempt + 1
      && t.percent == s.percent && t.started == s.started && t.checkpoints == s.checkpoints
      && t.phase == if o.answer.retryable && s.attempt + 1 < spec.retry.maxAttempts then s.phase else Failed
  {
  }

  /** The failures among the first `n` reconciles. */
  function Failures(spec: Spec, observations: seq<Observation>, n: nat): nat
    requires n <= |observations|
  {
    if n == 0 then 0
    else
      Failures(spec, observations, n - 1)
      + if Failing(spec, Run(spec, observations, n - 1), observations[n - 1]) then 1 else 0
  }

  /** A failure that ends the task, as failure number `n`. */
  predicate Fatal(spec: Spec, s: Status, o: Observation, n: nat) {
    && Failing(spec, s, o)
    && (TimeIsUp(spec, s, o.now) || (o.answer.Fails? && !o.answer.retryable) || n == Max(1, spec.retry.maxAttempts))
  }

  lemma StepFails(spec: Spec, s: Status, o: Observation)
    requires Inv(spec, s)
    ensures Step(spec, s, o).attempt == s.attempt + if Failing(spec, s, o) then 1 else 0
    ensures Step(spec, s, o).phase == Failed <==> s.phase == Failed || Fatal(spec, s, o, s.attempt + 1)
  {
  }

  lemma {:induction false} AttemptsAreFailures(spec: Spec, observations: seq<Observation>, n: nat)
    requires n <= |observations|
    ensures Run(spec, observations, n).attempt == Failures(spec, observations, n)
  {
    if n > 0 {
      AttemptsAreFailures(spec, observations, n - 1);
      RunKeepsInv(spec, observations, n - 1);
      StepFails(spec, Run(spec, observations, n - 1), observations[n - 1]);
    }
  }

  predicate FatalAt(spec: Spec, observations: seq<Observation>, i: nat)
    requires i < |observations|
  {
    Fatal(spec, Run(spec, observations, i), observations[i], Failures(spec, observations, i) + 1)
  }

  /**
   Over every run: a task is Failed exactly when some reconcile of it timed out, failed without retry, or was its
   failure number max(1, maxAttempts).
   */
  lemma {:induction false} FailedIff(spec: Spec, observations: seq<Observation>, n: nat)
    requires n <= |observations|
    ensures Run(spec, observations, n).phase == Failed <==> exists i :: 0 <= i < n && FatalAt(spec, observations, i)
  {
    if n > 0 {
      FailedIff(spec, observations, n - 1);
      AttemptsAreFailures(spec, observations, n - 1);
      RunKeepsInv(spec, observations, n - 1);
      StepFails(spec, Run(spec, observations, n - 1), observations[n - 1]);
      assert FatalAt(spec, observations, n - 1) <==>
        Fatal(spec, Run(spec, observations, n - 1), observations[n - 1], Run(spec, observations, n - 1).attempt + 1);
    }
  }

  // ---- verification comes first ----

  /** A task that got past Uploading did so in one reconcile, whose verification succeeded. */
  lemma {:induction false} VerifiedBefore(spec: Spec, observations: seq<Observation>, n: nat) returns (i: nat)
    requires n <= |observations|
    requires Run(spec, observations, n).phase in {Verifying, GeneratingRecord, Completed, PartiallyFailed}
    ensures i < n
    ensures Run(spec, observations, i).phase == Uploading && Run(spec, observations, i + 1).phase == Verifying
    ensures !observations[i].answer.Fails? && !observations[i].answer.Dies?
  {
    i := n - 1;
    var s := Run(spec, observations, n - 1);
    if s.phase != Uploading {
      i := VerifiedBefore(spec, observations, n - 1);
    }
  }

  // ---- termination ----

  /** Phases left and attempts left. */
  function Fuel(spec: Spec, s: Status): int {
    if Terminal(s.phase) then 0 else |ORDER| - Rank(s.phase) + Tries(spec) - s.attempt
  }

  /** A reconcile that finds the task finished, dies, or has to wait. */
  predicate Idle(spec: Spec, s: Status, o: Observation) {
    || Terminal(s.phase)
    || o.answer == Dies
    || (&& o.answer == Pends && CanPend(s.phase) && !o.deleted && !(o.cancelRequested && !Committed(s.phase))
        && !TimedOut(s.started, Timeout(spec), o.now))
  }

  lemma IdleIff(spec: Spec, s: Status, o: Observation)
    requires Inv(spec, s)
    ensures Step(spec, s, o) == s <==> Idle(spec, s, o)
  {
  }

  lemma StepBurnsFuel(spec: Spec, s: Status, o: Observation)
    requires Inv(spec, s)
    ensures 0 <= Fuel(spec, Step(spec, s, o)) <= Fuel(spec, s)
    ensures !Idle(spec, s, o) ==> Fuel(spec, Step(spec, s, o)) < Fuel(spec, s)
  {
    StepForward(spec, s, o);
    IdleIff(spec, s, o);
  }

  /** The reconciles among the first `n` that are not idle. */
  function Active(spec: Spec, observations: seq<Observation>, n: nat): nat
    requires n <= |observations|
  {
    if n == 0 then 0
    else
      Active(spec, observations, n - 1)
      + if Idle(spec, Run(spec, observations, n - 1), observations[n - 1]) then 0 else 1
  }

  /** Every task ends after at most 10 + max(1, maxAttempts) of them. */
  lemma {:induction false} Terminates(spec: Spec, observations: seq<Observation>, n: nat)
    requires n <= |observations|
    ensures Active(spec, observations, n) + Fuel(spec, Run(spec, observations, n)) <= |ORDER| + Tries(spec)
    ensures Active(spec, observations, n) >= |ORDER| + Tries(spec) ==> Terminal(Run(spec, observations, n).phase)
  {
    if n > 0 {
      Terminates(spec, observations, n - 1);
      RunKeepsInv(spec, observations, n - 1);
      StepBurnsFuel(spec, Run(spec, observations, n - 1), observations[n - 1]);
    }
    RunKeepsInv(spec, observations, n);
  }

  /** Waiting ends with the timeout: the first reconcile after it that is not a crash ends the task. */
  lemma TimeoutEndsTheTask(spec: Spec, observations: seq<Observation>, n: nat)
    requires n < |observations| && CanPend(Run(spec, observations, n).phase)
    requires observations[n].answer != Dies
    ensures Run(spec, observations, n).started.StartedAt?
    ensures observations[n].now > Run(spec, observations, n).started.at + Timeout(spec) ==>
      Terminal(Run(spec, observations, n + 1).phase)
  {
    RunKeepsInv(spec, observations, n);
  }

  // ---- retry delays ----

  lemma {:induction false} Pow2Facts(m: nat, n: nat)
    requires m <= n
    ensures 1 <= Pow2(m) <= Pow2(n)
  {
    if n > 0 {
      Pow2Facts(if m == n then m - 1 else m, n - 1);
    }
  }

  lemma ShiftBound(attempt: nat)
    requires attempt > 0
    ensures 1 <= Pow2(Shift(attempt)) <= 64
  {
    assert Pow2(3) == 8;
    assert Pow2(MAX_SHIFT) == 64;
    Pow2Facts(Shift(attempt), MAX_SHIFT);
  }

  const MAX_BACKOFF_EXACT: int := 0x1ff_ffff_ffff_ffff

  /** No delay overflows exactly when the backoff is at most a sixty-fourth of the largest 64-bit duration. */
  lemma DelayExactIff(backoff: int)
    requires 0 <= backoff <= INT64_MAX
    ensures (forall attempt: nat :: attempt > 0 ==>
              Wrap64(backoff * Pow2(Shift(attempt))) == backoff * Pow2(Shift(attempt)))
      <==> backoff <= MAX_BACKOFF_EXACT
  {
    if backoff <= MAX_BACKOFF_EXACT {
      forall attempt: nat | attempt > 0
        ensures Wrap64(backoff * Pow2(Shift(attempt))) == backoff * Pow2(Shift(attempt))
      {
        ShiftBound(attempt);
        ScaleBounds(backoff, Pow2(Shift(attempt)));
      }
    } else {
      assert Pow2(3) == 8;
      assert Shift(7) == 6 && Pow2(Shift(7)) == 64;
      assert Wrap64(backoff * Pow2(Shift(7))) != backoff * Pow2(Shift(7));
    }
  }

  /** One nanosecond more, and the seventh attempt is repeated after a negative delay. */
  lemma DelayWraps(maxAttempts: int, maxBackoff: int)
    ensures RetryDelay(RetryPolicy(maxAttempts, MAX_BACKOFF_EXACT + 1, maxBackoff), 7) < 0
  {
    assert Pow2(3) == 8;
    assert Pow2(Shift(7)) == 64;
  }

  lemma ScaleBounds(backoff: int, factor: nat)
    requires backoff >= 0 && 1 <= factor <= 64
    ensures backoff <= backoff * factor <= backoff * 64
  {
  }

  lemma ScaleMonotone(backoff: int, a: nat, b: nat)
    requires backoff >= 0 && a <= b
    ensures backoff * a <= backoff * b
  {
  }

  lemma ExactDelay(retry: RetryPolicy, attempt: nat)
    requires 0 <= retry.backoff <= MAX_BACKOFF_EXACT && attempt > 0
    ensures var delay := retry.backoff * Pow2(Shift(attempt));
      && retry.backoff <= delay <= 64 * retry.backoff
      && RetryDelay(retry, attempt) ==
        if retry.maxBackoff > 0 && delay > retry.maxBackoff then retry.maxBackoff else delay
  {
    ShiftBound(attempt);
    ScaleBounds(retry.backoff, Pow2(Shift(attempt)));
    NoWrap(retry.backoff * Pow2(Shift(attempt)));
  }

  lemma NoWrap(x: int)
    requires 0 <= x <= INT64_MAX
    ensures Wrap64(x) == x
  {
  }

  /** Then delays grow with the attempt, up to 64 times the backoff, and never exceed a positive cap. */
  lemma DelayBounds(retry: RetryPolicy, attempt: nat, later: nat)
    requires 0 <= retry.backoff <= MAX_BACKOFF_EXACT && 0 < attempt <= later
    ensures 0 <= RetryDelay(retry, attempt) <= RetryDelay(retry, later) <= 64 * retry.backoff
    ensures retry.maxBackoff > 0 ==> RetryDelay(retry, later) <= retry.maxBackoff
    ensures retry.maxBackoff <= 0 || retry.maxBackoff >= retry.backoff ==> retry.backoff <= RetryDelay(retry, attempt)
  {
    ExactDelay(retry, attempt);
    ExactDelay(retry, later);
    Pow2Facts(Shift(attempt), Shift(later));
    ScaleMonotone(retry.backoff, Pow2(Shift(attempt)), Pow2(Shift(later)));
  }
}
