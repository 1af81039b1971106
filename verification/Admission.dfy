/**
 Admission of backup tasks: defaulting, and the rule that lets the execution spec be filled in once. Field groups the
 rules do not look into are kept as opaque text.
 */
module Admission {
  import opened Basics

  datatype Reference = Reference(name: string, uid: string)

  datatype Source = Source(kind: string, policyRef: Option<Reference>)

  datatype Retention = Retention(maxCopies: int, minCopies: int, maxAgeDays: int, deleteSnapshots: bool)

  datatype RetryPolicy = RetryPolicy(maxAttempts: int, backoff: int, maxBackoff: int, codes: seq<string>)

  /** `scope` is everything defaulting leaves alone: namespaces, resources, selectors, hooks, claims. */
  datatype Selection = Selection(
    scope: string, pvcFailurePolicy: string, pvcLifecycle: string, pvcSnapshotTimeout: int, consistencyMode: string)

  datatype Execution = Execution(
    repositoryRef: Reference, selection: Selection, retention: Retention, timeout: int, retry: RetryPolicy,
    failurePolicy: string, allowPartialRecord: bool)

  datatype TaskSpec = TaskSpec(
    identity: string, trigger: string, source: Source, parent: Option<Reference>, scheduledAt: Option<int>,
    execution: Option<Execution>, hash: string, policyGeneration: int, repositoryGeneration: int,
    cancelRequested: bool, cancelReason: string, idempotencyKey: string)

  datatype PolicySpec = PolicySpec(
    selection: Selection, repositoryRef: Reference, timezone: string, concurrencyPolicy: string,
    missedRunPolicy: string, startingDeadline: int, maxCatchUpRuns: int, retention: Retention, retry: RetryPolicy,
    timeout: int)

  const POLICY := "Policy"
  const ONE_TIME := "OneTime"

  // ---- updates ----

  /** The phases in which a spec may still be filled in. */
  predicate Early(phase: string) {
    phase == "" || phase == "Pending"
  }

  /** The fields no update may change. */
  predicate SameIdentity(a: TaskSpec, b: TaskSpec) {
    && a.identity == b.identity && a.trigger == b.trigger && a.parent == b.parent
    && a.scheduledAt == b.scheduledAt && a.idempotencyKey == b.idempotencyKey
  }

  predicate SameExecution(a: TaskSpec, b: TaskSpec) {
    && a.source == b.source && a.execution == b.execution && a.hash == b.hash
    && a.policyGeneration == b.policyGeneration && a.repositoryGeneration == b.repositoryGeneration
  }

  /** A policy task without an execution spec gets one. */
  predicate Resolves(a: TaskSpec, b: TaskSpec) {
    a.execution.None? && b.execution.Some? && a.source.kind == POLICY
  }

  /** An execution spec without a hash gets its hash, and its repository reference may be completed. */
  predicate Completes(a: TaskSpec, b: TaskSpec) {
    && a.execution.Some? && a.hash == "" && b.hash != "" && b.execution.Some?
    && b.execution.value == a.execution.value.(repositoryRef := b.execution.value.repositoryRef)
    && (a.source.kind != POLICY ==> b.source == a.source && b.policyGeneration == a.policyGeneration)
  }

  /** The updates that are accepted; `valid` is the validation of the new spec by itself. */
  predicate Accepts(valid: TaskSpec -> bool, phase: string, a: TaskSpec, b: TaskSpec) {
    && valid(b) && SameIdentity(a, b) && (a.cancelRequested ==> b.cancelRequested)
    && (SameExecution(a, b) || (Early(phase) && (Resolves(a, b) || Completes(a, b))))
  }

  /** How an admission request ends; a panic fails the request without a verdict on the update. */
  datatype Verdict = Accepted | Rejected | Panics

  /** The second freeze branch is entered without looking whether the new spec is there. */
  predicate EntersWithoutSpec(phase: string, a: TaskSpec, b: TaskSpec) {
    Early(phase) && a.execution.Some? && a.hash == "" && b.hash != "" && b.execution.None?
  }

  /**
   ValidateUpdate of a backup task: overwrite what may change in copies, then compare the copies. It panics exactly
   on an early update that sets the hash of an unhashed spec and removes the spec.
   */
  method ValidateUpdate(valid: TaskSpec -> bool, phase: string, previous: TaskSpec, next: TaskSpec)
    returns (verdict: Verdict)
    ensures verdict == Panics <==> EntersWithoutSpec(phase, previous, next)
    ensures verdict == Accepted <==> Accepts(valid, phase, previous, next)
  {
    var oldSpec := previous.(cancelRequested := false, cancelReason := "");
    var newSpec := next.(cancelRequested := false, cancelReason := "");
    if phase == "" || phase == "Pending" {
      if previous.execution.None? && next.execution.Some? && previous.source.kind == POLICY {
        oldSpec := oldSpec.(source := newSpec.source, execution := newSpec.execution, hash := newSpec.hash);
        oldSpec := oldSpec.(policyGeneration := newSpec.policyGeneration);
        oldSpec := oldSpec.(repositoryGeneration := newSpec.repositoryGeneration);
      } else if previous.execution.Some? && previous.hash == "" && next.hash != "" {
        if next.execution.None? {
          return Panics; // the code dereferences the missing spec
        }
        var execution := oldSpec.execution.value.(repositoryRef := newSpec.execution.value.repositoryRef);
        oldSpec := oldSpec.(execution := Some(execution));
        oldSpec := oldSpec.(hash := newSpec.hash, repositoryGeneration := newSpec.repositoryGeneration);
        if previous.source.kind == POLICY {
          oldSpec := oldSpec.(source := newSpec.source, policyGeneration := newSpec.policyGeneration);
        }
      }
    }
    if oldSpec != newSpec {
      return Rejected;
    }
    if previous.cancelRequested && !next.cancelRequested {
      return Rejected;
    }
    return if valid(next) then Accepted else Rejected;
  }

  // ---- runs of accepted updates ----

  /** The stored specs of one task, and the phase each update met. */
  ghost predicate IsHistory(valid: TaskSpec -> bool, specs: seq<TaskSpec>, phases: seq<string>) {
    && |specs| == |phases| + 1
    && forall i :: 0 <= i < |phases| ==> Accepts(valid, phases[i], specs[i], specs[i + 1])
  }

  /** Once the execution spec is there, only its repository reference may still change. */
  lemma {:induction false} ExecutionIsFrozen(valid: TaskSpec -> bool, specs: seq<TaskSpec>, phases: seq<string>, i: nat,
                                             j: nat)
    requires IsHistory(valid, specs, phases) && i <= j < |specs| && specs[i].execution.Some?
    ensures specs[j].execution.Some?
    ensures specs[j].execution.value
      == specs[i].execution.value.(repositoryRef := specs[j].execution.value.repositoryRef)
  {
    if i < j {
      ExecutionIsFrozen(valid, specs, phases, i, j - 1);
      assert Accepts(valid, phases[j - 1], specs[j - 1], specs[j]);
    }
  }

  /** Once its hash is there too, nothing but the cancel fields changes. */
  lemma {:induction false} HashedIsConstant(valid: TaskSpec -> bool, specs: seq<TaskSpec>, phases: seq<string>, i: nat,
                                            j: nat)
    requires IsHistory(valid, specs, phases) && i <= j < |specs| && specs[i].execution.Some? && specs[i].hash != ""
    ensures specs[j] == specs[i].(cancelRequested := specs[j].cancelRequested, cancelReason := specs[j].cancelReason)
  {
    if i < j {
      HashedIsConstant(valid, specs, phases, i, j - 1);
      assert Accepts(valid, phases[j - 1], specs[j - 1], specs[j]);
    }
  }

  /** Identity never changes, and a requested cancellation is not taken back. */
  lemma {:induction false} IdentityAndCancel(valid: TaskSpec -> bool, specs: seq<TaskSpec>, phases: seq<string>, i: nat,
                                             j: nat)
    requires IsHistory(valid, specs, phases) && i <= j < |specs|
    ensures SameIdentity(specs[i], specs[j])
    ensures specs[i].cancelRequested ==> specs[j].cancelRequested
  {
    if i < j {
      IdentityAndCancel(valid, specs, phases, i, j - 1);
      assert Accepts(valid, phases[j - 1], specs[j - 1], specs[j]);
    }
  }

  // ---- defaulting ----

  function DurationOr(current: int, fallback: int): int {
    if current <= 0 then fallback else current
  }

  function Or(value: string, fallback: string): string {
    if value == "" then fallback else value
  }

  function OrNumber(value: int, fallback: int): int {
    if value == 0 then fallback else value
  }

  function DefaultRetry(p: RetryPolicy): RetryPolicy {
    RetryPolicy(OrNumber(p.maxAttempts, 3), DurationOr(p.backoff, 30 * SECOND),
                DurationOr(p.maxBackoff, 600 * SECOND), p.codes)
  }

  function DefaultRetention(r: Retention): Retention {
    Retention(OrNumber(r.maxCopies, 7), OrNumber(r.minCopies, 1), OrNumber(r.maxAgeDays, 30), r.deleteSnapshots)
  }

  function DefaultSelection(s: Selection): Selection {
    Selection(s.scope, Or(s.pvcFailurePolicy, "ContinueAndMarkPartial"),
      Or(s.pvcLifecycle, "RetainAfterRecordDeletion"),
              DurationOr(s.pvcSnapshotTimeout, 600 * SECOND), Or(s.consistencyMode, "CrashConsistent"))
  }

  function DefaultExecution(e: Execution): Execution {
    Execution(e.repositoryRef, DefaultSelection(e.selection), DefaultRetention(e.retention),
              DurationOr(e.timeout, 14_400 * SECOND), DefaultRetry(e.retry),
              Or(e.failurePolicy, "Continue"), e.allowPartialRecord)
  }

  /** A one-time task keeps one copy unless told otherwise. */
  function OneCopy(e: Execution): Execution {
    if e.retention.maxCopies == 0 then e.(retention := e.retention.(maxCopies := 1)) else e
  }

  function DefaultKind(t: TaskSpec): string {
    if t.source.kind != "" then t.source.kind
    else if t.source.policyRef.Some? then POLICY
    else if t.execution.Some? then ONE_TIME
    else ""
  }

  function DefaultTask(t: TaskSpec): TaskSpec {
    var kind := DefaultKind(t);
    t.(trigger := Or(t.trigger, "Manual"),
       source := t.source.(kind := kind),
       execution :=
         if t.execution.None? then None
         else Some(DefaultExecution(if kind == ONE_TIME then OneCopy(t.execution.value) else t.execution.value)))
  }

  function DefaultPolicy(p: PolicySpec): PolicySpec {
    PolicySpec(DefaultSelection(p.selection), p.repositoryRef, Or(p.timezone, "Etc/UTC"),
               Or(p.concurrencyPolicy, "Forbid"), Or(p.missedRunPolicy, "Skip"),
               DurationOr(p.startingDeadline, 3600 * SECOND), OrNumber(p.maxCatchUpRuns, 1),
               DefaultRetention(p.retention), DefaultRetry(p.retry), DurationOr(p.timeout, 14_400 * SECOND))
  }

  const NO_SELECTION := Selection("", "", "", 0, "")
  const NO_RETENTION := Retention(0, 0, 0, false)
  const NO_RETRY := RetryPolicy(0, 0, 0, [])

  /** What a policy that says nothing gets. */
  lemma DefaultsOfNothing(repository: Reference)
    ensures DefaultPolicy(PolicySpec(NO_SELECTION, repository, "", "", "", 0, 0, NO_RETENTION, NO_RETRY, 0)) ==
      PolicySpec(Selection("", "ContinueAndMarkPartial", "RetainAfterRecordDeletion", 600 * SECOND, "CrashConsistent"),
                 repository, "Etc/UTC", "Forbid", "Skip", 3600 * SECOND, 1, Retention(7, 1, 30, false),
                 RetryPolicy(3, 30 * SECOND, 600 * SECOND, []), 4 * 3600 * SECOND)
  {
  }

  const NO_EXECUTION := Execution(Reference("", ""), NO_SELECTION, NO_RETENTION, 0, NO_RETRY, "", false)

  function BareTask(policy: Option<Reference>): TaskSpec {
    TaskSpec("", "", Source("", policy), None, None, Some(NO_EXECUTION), "", 0, 0, false, "", "")
  }

  /** A task that says nothing is manual; it is one-time and keeps one copy, unless it refers to a policy. */
  lemma TaskDefaultsOfNothing(policy: Option<Reference>)
    ensures DefaultTask(BareTask(policy)) ==
      BareTask(policy).(
        trigger := "Manual", source := Source(if policy.Some? then "Policy" else "OneTime", policy),
        execution := Some(
          Execution(Reference("", ""),
                    Selection("", "ContinueAndMarkPartial", "RetainAfterRecordDeletion", 600 * SECOND,
                              "CrashConsistent"),
                    Retention(if policy.Some? then 7 else 1, 1, 30, false), 4 * 3600 * SECOND,
                    RetryPolicy(3, 30 * SECOND, 600 * SECOND, []), "Continue", false)))
  {
  }

  class BackupTask {
    var spec: TaskSpec

    constructor (spec: TaskSpec)
      ensures this.spec == spec
    {
      this.spec := spec;
    }

    /** Default: assigns the fields one after the other. */
    method Default()
      modifies this
      ensures spec == DefaultTask(old(spec))
    {
      if spec.trigger == "" {
        spec := spec.(trigger := "Manual");
      }
      if spec.source.kind == "" {
        if spec.source.policyRef.Some? {
          spec := spec.(source := spec.source.(kind := POLICY));
        } else if spec.execution.Some? {
          spec := spec.(source := spec.source.(kind := ONE_TIME));
        }
      }
      if spec.execution.Some? {
        var e := spec.execution.value;
        if spec.source.kind == ONE_TIME && e.retention.maxCopies == 0 {
          e := e.(retention := e.retention.(maxCopies := 1));
        }
        e := DefaultBackupExecution(e);
        spec := spec.(execution := Some(e));
      }
    }
  }

  method DefaultBackupExecution(spec: Execution) returns (e: Execution)
    ensures e == DefaultExecution(spec)
  {
    e := spec.(selection := DefaultSelection(spec.selection));
    e := e.(retention := DefaultRetention(e.retention));
    e := e.(timeout := DurationOr(e.timeout, 14_400 * SECOND));
    e := e.(retry := DefaultRetry(e.retry));
    if e.failurePolicy == "" {
      e := e.(failurePolicy := "Continue");
    }
  }

  /** Which specs defaulting leaves alone. */
  predicate IsDefaulted(e: Execution) {
    && e.selection.pvcFailurePolicy != "" && e.selection.pvcLifecycle != "" && e.selection.pvcSnapshotTimeout > 0
    && e.selection.consistencyMode != ""
    && e.retention.maxCopies != 0 && e.retention.minCopies != 0 && e.retention.maxAgeDays != 0
    && e.timeout > 0 && e.retry.maxAttempts != 0 && e.retry.backoff > 0 && e.retry.maxBackoff > 0
    && e.failurePolicy != ""
  }

  lemma DefaultExecutionIff(e: Execution)
    ensures DefaultExecution(e) == e <==> IsDefaulted(e)
    ensures IsDefaulted(DefaultExecution(e))
  {
  }

  /** Defaulting twice is defaulting once, for tasks, execution specs and policies. */
  lemma DefaultingIsIdempotent(t: TaskSpec, p: PolicySpec)
    ensures DefaultTask(DefaultTask(t)) == DefaultTask(t)
    ensures DefaultPolicy(DefaultPolicy(p)) == DefaultPolicy(p)
  {
    var once := DefaultTask(t);
    if once.execution.Some? {
      DefaultExecutionIff(if DefaultKind(t) == ONE_TIME then OneCopy(t.execution.value) else t.execution.value);
      DefaultExecutionIff(once.execution.value);
    }
  }

  // ---- the policy path ----

  /** policyExecutionSpec, with the identity of the repository filled in. */
  function FromPolicy(p: PolicySpec, repositoryUid: string): Execution {
    Execution(p.repositoryRef.(uid := repositoryUid), p.selection, p.retention, p.timeout, p.retry, "Continue", true)
  }

  /** The task the policy controller creates for one scheduled instant. */
  function ScheduledTask(p: PolicySpec, identity: string, policy: Reference, repositoryUid: string, at: int,
                         key: string, generations: (int, int), hash: Execution -> string): TaskSpec
  {
    var execution := FromPolicy(p, repositoryUid);
    TaskSpec(identity, "Schedule", Source(POLICY, Some(policy)), None, Some(at), Some(execution), hash(execution),
             generations.0, generations.1, false, "", key)
  }

  /** The check of validate: the stored hash is the hash of the stored spec. */
  predicate HashMatches(t: TaskSpec, hash: Execution -> string) {
    t.execution.Some? && t.hash == hash(t.execution.value)
  }

  /** Defaulting is the identity on the tasks of a defaulted policy, so what is stored is what was hashed. */
  lemma PolicyTasksAreStoredAsSent(p: PolicySpec, identity: string, policy: Reference, repositoryUid: string, at: int,
                                   key: string, generations: (int, int), hash: Execution -> string)
    ensures var task := ScheduledTask(DefaultPolicy(p), identity, policy, repositoryUid, at, key, generations, hash);
      DefaultTask(task) == task && HashMatches(DefaultTask(task), hash)
  {
    DefaultExecutionIff(FromPolicy(DefaultPolicy(p), repositoryUid));
  }

  /** When the controller fills in a task: the execution spec, the repository identity or the hash is missing. */
  predicate NeedsFillIn(t: TaskSpec) {
    if t.execution.None? then t.source.kind == POLICY && t.source.policyRef.Some?
    else t.execution.value.repositoryRef.uid == "" || t.hash == ""
  }

  /** The task it then sends. */
  function FilledIn(t: TaskSpec, p: PolicySpec, policyUid: string, repositoryUid: string, generations: (int, int),
                    hash: Execution -> string): TaskSpec
    requires NeedsFillIn(t)
  {
    if t.execution.None? then
      var execution := FromPolicy(p, repositoryUid);
      t.(source := t.source.(policyRef := Some(t.source.policyRef.value.(uid := policyUid))),
         execution := Some(execution), hash := hash(execution),
         policyGeneration := generations.0, repositoryGeneration := generations.1)
    else
      var execution := t.execution.value.(repositoryRef := t.execution.value.repositoryRef.(uid := repositoryUid));
      t.(execution := Some(execution), hash := hash(execution), repositoryGeneration := generations.1)
  }

  /**
   The controller's own update stores the right hash and survives defaulting. It is accepted exactly for valid specs in
   an early phase of tasks that came without a hash, or without a spec; a task that was created with a hash but without
   the identity of its repository can never be filled in.
   */
  lemma ControllerUpdateIff(valid: TaskSpec -> bool, phase: string, t: TaskSpec, p: PolicySpec, policyUid: string,
                            repositoryUid: string, generations: (int, int), hash: Execution -> string)
    requires DefaultTask(t) == t && NeedsFillIn(t)
    requires repositoryUid != "" && forall e :: hash(e) != ""
    ensures var next := FilledIn(t, DefaultPolicy(p), policyUid, repositoryUid, generations, hash);
      && DefaultTask(next) == next && HashMatches(next, hash)
      && (Accepts(valid, phase, t, next) <==> valid(next) && Early(phase) && (t.execution.None? || t.hash == ""))
  {
    if t.execution.None? {
      DefaultExecutionIff(FromPolicy(DefaultPolicy(p), repositoryUid));
    } else {
      DefaultExecutionIff(t.execution.value);
      DefaultExecutionIff(t.execution.value.(repositoryRef := t.execution.value.repositoryRef.(uid := repositoryUid)));
    }
  }

  /**
   And the check passes for the rest of the task's life: whatever updates are submitted, defaulted and accepted, the
   stored hash stays the hash of the stored spec.
   */
  lemma HashCheckAlwaysPasses(valid: TaskSpec -> bool, p: PolicySpec, identity: string, policy: Reference,
                              repositoryUid: string, at: int, key: string, generations: (int, int),
                              hash: Execution -> string, specs: seq<TaskSpec>, phases: seq<string>, n: nat)
    requires IsHistory(valid, specs, phases) && n < |specs|
    requires specs[0] == DefaultTask(ScheduledTask(DefaultPolicy(p), identity, policy, repositoryUid, at, key,
      generations, hash))
    requires hash(FromPolicy(DefaultPolicy(p), repositoryUid)) != ""
    ensures HashMatches(specs[n], hash)
    ensures specs[n].execution == Some(FromPolicy(DefaultPolicy(p), repositoryUid))
  {
    PolicyTasksAreStoredAsSent(p, identity, policy, repositoryUid, at, key, generations, hash);
    HashedIsConstant(valid, specs, phases, 0, n);
  }

  // ---- inputs at which admission fails the controller or itself ----

  const SAMPLE_EXECUTION := Execution(
    Reference("nas", ""),
    Selection("all", "ContinueAndMarkPartial", "RetainAfterRecordDeletion", 600 * SECOND, "CrashConsistent"),
    Retention(1, 1, 30, false), 14_400 * SECOND, RetryPolicy(3, 30 * SECOND, 600 * SECOND, []), "Continue", true)

  /** A one-time task as it is stored, with the hash its creator gave it. */
  function OneTimeTask(hash: string): TaskSpec {
    TaskSpec("cluster-a", "Manual", Source(ONE_TIME, None), None, None, Some(SAMPLE_EXECUTION), hash, 0, 0, false,
             "", "")
  }

  /** A pending one-time task, and an update that sets the hash and drops the spec: the request panics. */
  lemma UpdateThatPanics()
    ensures var stored := OneTimeTask("");
      DefaultTask(stored) == stored && EntersWithoutSpec("Pending", stored, stored.(execution := None, hash := "0"))
  {
    DefaultExecutionIff(SAMPLE_EXECUTION);
  }

  /** A one-time task created with a hash and without the repository's identity: the fill-in is always refused. */
  lemma PresetHashIsStuck(valid: TaskSpec -> bool, phase: string, p: PolicySpec, generations: (int, int),
                          hash: Execution -> string)
    requires forall e :: hash(e) != ""
    ensures var stored := OneTimeTask("0");
      && DefaultTask(stored) == stored && NeedsFillIn(stored)
      && !Accepts(valid, phase, stored, FilledIn(stored, DefaultPolicy(p), "", "uid-1", generations, hash))
  {
    DefaultExecutionIff(SAMPLE_EXECUTION);
    ControllerUpdateIff(valid, phase, OneTimeTask("0"), p, "", "uid-1", generations, hash);
  }

  // ---- restore tasks ----

  /** `body` is the whole restore spec but for the cancel fields. */
  datatype RestoreSpec = RestoreSpec(body: string, cancelRequested: bool, cancelReason: string)

  method ValidateRestoreUpdate(valid: RestoreSpec -> bool, previous: RestoreSpec, next: RestoreSpec)
    returns (accepted: bool)
    ensures accepted <==> AcceptsRestore(valid, previous, next)
  {
    var oldSpec := previous.(cancelRequested := false, cancelReason := "");
    var newSpec := next.(cancelRequested := false, cancelReason := "");
    if oldSpec != newSpec {
      return false;
    }
    if previous.cancelRequested && !next.cancelRequested {
      return false;
    }
    return valid(next);
  }

  predicate AcceptsRestore(valid: RestoreSpec -> bool, a: RestoreSpec, b: RestoreSpec) {
    valid(b) && a.body == b.body && (a.cancelRequested ==> b.cancelRequested)
  }

  lemma {:induction false} RestoreSpecIsConstant(valid: RestoreSpec -> bool, specs: seq<RestoreSpec>, i: nat, j: nat)
    requires forall k :: 0 <= k < |specs| - 1 ==> AcceptsRestore(valid, specs[k], specs[k + 1])
    requires i <= j < |specs|
    ensures specs[j].body == specs[i].body && (specs[i].cancelRequested ==> specs[j].cancelRequested)
  {
    if i < j {
      RestoreSpecIsConstant(valid, specs, i, j - 1);
      assert AcceptsRestore(valid, specs[j - 1], specs[j - 1 + 1]);
    }
  }
}
