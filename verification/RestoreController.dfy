/**
 The restore task's own book-keeping: stages are applied one by one, each ends in one status patch, and a crash
 before that patch repeats the stage. The counters must add up whatever happens.
 */
module RestoreController {
  import opened Plan
  import opened RenameFollowing
  import opened Restorer
  import opened Sorting
  import opened Stages
  import Conflict
  import References
  import Settling

  datatype Phase = PreChecking | Restored(stage: Stage) | Verifying | Completed | PartiallyFailed

  datatype Progress = Progress(
    total: nat, processed: nat, created: nat, updated: nat, skipped: nat, renamed: nat, failed: nat, boundPVCs: nat)

  datatype Status = Status(phase: Phase, progress: Progress)

  datatype StageResult = StageDone | Aborted | Died

  /** The status subresource of the task: what survives a crash. */
  class StatusStore {
    var status: Status

    constructor (initial: Status)
      ensures status == initial
    {
      status := initial;
    }

    method Patch(s: Status)
      modifies this
      ensures status == s
    {
      status := s;
    }
  }

  // ---- counting ----

  function Tally(p: Progress, o: Outcome): Progress {
    var q := p.(processed := p.processed + 1);
    match o
    case Done(Created, _) => q.(created := q.created + 1)
    case Done(Updated, _) => q.(updated := q.updated + 1)
    case Done(Recreated, _) => q.(updated := q.updated + 1)
    case Done(Skipped, _) => q.(skipped := q.skipped + 1)
    case Done(Renamed, _) => q.(renamed := q.renamed + 1)
    case _ => q.(failed := q.failed + 1)
  }

  function TallyAll(p: Progress, outcomes: seq<Outcome>): Progress {
    if outcomes == [] then p else Tally(TallyAll(p, outcomes[..|outcomes| - 1]), outcomes[|outcomes| - 1])
  }

  predicate Balanced(p: Progress) {
    p.processed == p.created + p.updated + p.skipped + p.renamed + p.failed
  }

  lemma AllDoneWithLast(outcomes: seq<Outcome>)
    requires outcomes != []
    ensures AllDone(outcomes) <==> AllDone(outcomes[..|outcomes| - 1]) && outcomes[|outcomes| - 1].Done?
  {
    assert outcomes == outcomes[..|outcomes| - 1] + [outcomes[|outcomes| - 1]];
  }

  predicate AllDone(outcomes: seq<Outcome>) {
    forall o :: o in outcomes ==> o.Done?
  }

  lemma TallyStep(p: Progress, o: Outcome)
    ensures var q := Tally(p, o);
      && q.processed == p.processed + 1 && (Balanced(p) <==> Balanced(q))
      && q.failed == p.failed + (if o.Done? then 0 else 1)
      && q.total == p.total && q.boundPVCs == p.boundPVCs
  {
  }

  lemma {:induction false} TallyFacts(p: Progress, outcomes: seq<Outcome>)
    ensures var q := TallyAll(p, outcomes);
      && q.processed == p.processed + |outcomes|
      && (Balanced(p) <==> Balanced(q))
      && q.failed >= p.failed
      && (q.failed == p.failed <==> AllDone(outcomes))
      && q.total == p.total && q.boundPVCs == p.boundPVCs
  {
    if outcomes != [] {
      var init, last := outcomes[..|outcomes| - 1], outcomes[|outcomes| - 1];
      TallyFacts(p, init);
      AllDoneWithLast(outcomes);
      TallyStep(TallyAll(p, init), last);
    }
  }

  predicate HasVerb(o: Outcome, v: Verb) {
    o.Done? && o.verb == v
  }

  function CountVerb(outcomes: seq<Outcome>, v: Verb): nat {
    |Filter(outcomes, (o: Outcome) => HasVerb(o, v))|
  }

  function CountFailures(outcomes: seq<Outcome>): nat {
    |Filter(outcomes, (o: Outcome) => !o.Done?)|
  }

  /** Each counter counts its own kind of outcome. */
  lemma {:induction false} TallyByKind(p: Progress, outcomes: seq<Outcome>)
    ensures var q := TallyAll(p, outcomes);
      && q.created == p.created + CountVerb(outcomes, Created)
      && q.updated == p.updated + CountVerb(outcomes, Updated) + CountVerb(outcomes, Recreated)
      && q.skipped == p.skipped + CountVerb(outcomes, Skipped)
      && q.renamed == p.renamed + CountVerb(outcomes, Renamed)
      && q.failed == p.failed + CountFailures(outcomes)
  {
    if outcomes != [] {
      TallyByKind(p, outcomes[..|outcomes| - 1]);
    }
  }

  lemma TallyOne(p: Progress, outcomes: seq<Outcome>, o: Outcome)
    ensures TallyAll(p, outcomes + [o]) == Tally(TallyAll(p, outcomes), o)
  {
    assert (outcomes + [o])[..|outcomes|] == outcomes;
  }

  // ---- one stage ----

  /** One attempt at a stage: where it starts, and what the API server answers. */
  datatype Attempt = Attempt(policy: Conflict.Policy, payload: Payload, objects: Objects, items: seq<Item>,
    apis: seq<Api>)

  ghost predicate Valid(a: Attempt) {
    |a.items| == |a.apis|
  }

  /** The world after the first `n` items of the attempt. */
  function WorldAt(a: Attempt, n: nat): World
    requires Valid(a) && n <= |a.items|
  {
    RunTo(a.policy, a.payload, World(a.objects, map[]), a.items, a.apis, n)
  }

  /** The outcomes of the first `n` items. */
  function OutcomesTo(a: Attempt, n: nat): (outcomes: seq<Outcome>)
    requires Valid(a) && n <= |a.items|
    ensures |outcomes| == n
  {
    if n == 0 then []
    else OutcomesTo(a, n - 1) + [OutcomeOf(a.policy, a.payload, World(a.objects, map[]), a.items, a.apis, n - 1)]
  }

  function StatusAt(a: Attempt, before: Status, n: nat): Status
    requires Valid(a) && n <= |a.items|
  {
    before.(progress := TallyAll(before.progress, OutcomesTo(a, n)))
  }

  lemma StatusStep(a: Attempt, before: Status, n: nat)
    requires Valid(a) && n < |a.items|
    ensures var outcome := Apply(a.policy, a.payload, WorldAt(a, n), a.items[n], a.apis[n]).outcome;
      && StatusAt(a, before, n + 1).phase == before.phase
      && StatusAt(a, before, n + 1).progress == Tally(StatusAt(a, before, n).progress, outcome)
      && OutcomesTo(a, n + 1)[n] == outcome
  {
    TallyOne(before.progress, OutcomesTo(a, n),
      OutcomeOf(a.policy, a.payload, World(a.objects, map[]), a.items, a.apis, n));
  }

  /** Item `n` of the attempt. */
  method ApplyNext(restorer: ResourceRestorer, ghost a: Attempt, item: Item, api: Api, ghost n: nat)
    returns (outcome: Outcome)
    requires Valid(a) && n < |a.items| && a.items[n] == item && a.apis[n] == api
    requires restorer.policy == a.policy && restorer.payload == a.payload && restorer.Now() == WorldAt(a, n)
    modifies restorer, restorer.cluster
    ensures restorer.Now() == WorldAt(a, n + 1)
    ensures outcome == Apply(a.policy, a.payload, WorldAt(a, n), item, api).outcome
  {
    Settling.RunToStep(a.policy, a.payload, World(a.objects, map[]), a.items, a.apis, n + 1);
    outcome := restorer.ApplyItem(item, api);
  }

  method ApplyAndCount(restorer: ResourceRestorer, ghost a: Attempt, ghost before: Status, item: Item, api: Api,
                       status: Status, ghost n: nat)
    returns (next: Status, ok: bool)
    requires Valid(a) && n < |a.items| && a.items[n] == item && a.apis[n] == api
    requires restorer.policy == a.policy && restorer.payload == a.payload && restorer.Now() == WorldAt(a, n)
    requires status == StatusAt(a, before, n)
    modifies restorer, restorer.cluster
    ensures restorer.Now() == WorldAt(a, n + 1)
    ensures next == StatusAt(a, before, n + 1) && (ok <==> OutcomesTo(a, n + 1)[n].Done?)
  {
    StatusStep(a, before, n);
    var outcome := ApplyNext(restorer, a, item, api, n);
    return status.(progress := Tally(status.progress, outcome)), outcome.Done?;
  }

  lemma {:induction false} StagePrefix(plan: seq<Item>, stage: Stage, k: nat)
    requires k <= |plan|
    ensures StageItems(plan[..k], stage) <= StageItems(plan, stage)
    decreases |plan| - k
  {
    if k < |plan| {
      StagePrefix(plan, stage, k + 1);
      assert plan[..k + 1][..k] == plan[..k];
    } else {
      assert plan[..k] == plan;
    }
  }

  /** Whether item `k` of the plan is in the stage, and where in it. */
  lemma NextStageItem(plan: seq<Item>, stage: Stage, k: nat)
    requires k < |plan|
    ensures var m := |StageItems(plan[..k], stage)|;
      if StageIncludes(stage, plan[k])
      then m < |StageItems(plan, stage)| && StageItems(plan, stage)[m] == plan[k]
        && |StageItems(plan[..k + 1], stage)| == m + 1
      else |StageItems(plan[..k + 1], stage)| == m
  {
    StagePrefix(plan, stage, k + 1);
    assert plan[..k + 1][..k] == plan[..k];
  }

  /**
   applyStage. The process may die before item number `stop` of the stage, or, at `stop == |items|`, before the
   status patch. A stage that is done has applied exactly its items, in order, and counted every outcome; one that
   dies leaves the persisted status as it was; under FailFast the first failure is counted and ends the stage.
   */
  method ApplyStage(store: StatusStore, cluster: Cluster, policy: Conflict.Policy, payload: Payload, plan: seq<Item>,
                    stage: Stage, failFast: bool, apis: seq<Api>, stop: nat)
    returns (result: StageResult, ghost n: nat)
    requires |apis| == |StageItems(plan, stage)|
    modifies store, cluster
    ensures n <= |apis|
    ensures var a := Attempt(policy, payload, old(cluster.objects), StageItems(plan, stage), apis);
      && cluster.objects == WorldAt(a, n).objects
      && (result.StageDone? ==>
            n == |apis| && store.status == StatusAt(a, old(store.status), n).(phase := Restored(stage)))
      && (result.Aborted? ==>
            && failFast && n > 0 && !OutcomesTo(a, n)[n - 1].Done?
            && store.status == StatusAt(a, old(store.status), n))
      && (result.Died? ==> n == stop && store.status == old(store.status))
  {
    ghost var a := Attempt(policy, payload, cluster.objects, StageItems(plan, stage), apis);
    var restorer := new ResourceRestorer(policy, payload, cluster);
    var status, m, end := ApplyItems(restorer, a, store.status, plan, stage, failFast, apis, stop);
    n := m;
    if end == Died || (end == StageDone && m == stop) {
      return Died, m;
    }
    if end == Aborted {
      store.Patch(status);
      return Aborted, m;
    }
    store.Patch(status.(phase := Restored(stage)));
    return StageDone, m;
  }

  /** The body of the loop: items of other stages are passed over. */
  method ApplyIfIncluded(restorer: ResourceRestorer, ghost a: Attempt, ghost before: Status, plan: seq<Item>, k: nat,
                         stage: Stage, failFast: bool, apis: seq<Api>, stop: nat, status: Status, m: nat)
    returns (next: Status, n: nat, end: StageResult)
    requires a.items == StageItems(plan, stage) && a.apis == apis && Valid(a)
    requires k < |plan| && m == |StageItems(plan[..k], stage)| <= |apis|
    requires restorer.policy == a.policy && restorer.payload == a.payload && restorer.Now() == WorldAt(a, m)
    requires status == StatusAt(a, before, m)
    modifies restorer, restorer.cluster
    ensures n <= |apis| && restorer.Now() == WorldAt(a, n) && next == StatusAt(a, before, n)
    ensures end == Died ==> n == stop
    ensures end == Aborted ==> failFast && n > 0 && !OutcomesTo(a, n)[n - 1].Done?
    ensures end == StageDone ==> n == |StageItems(plan[..k + 1], stage)|
  {
    NextStageItem(plan, stage, k);
    if !StageIncludes(stage, plan[k]) {
      return status, m, StageDone;
    }
    if m == stop {
      return status, m, Died;
    }
    var ok;
    next, ok := ApplyAndCount(restorer, a, before, plan[k], apis[m], status, m);
    n, end := m + 1, if !ok && failFast then Aborted else StageDone;
  }

  /** The loop over the plan. */
  method ApplyItems(restorer: ResourceRestorer, ghost a: Attempt, before: Status, plan: seq<Item>, stage: Stage,
                    failFast: bool, apis: seq<Api>, stop: nat)
    returns (status: Status, m: nat, end: StageResult)
    requires a.items == StageItems(plan, stage) && a.apis == apis && Valid(a)
    requires restorer.policy == a.policy && restorer.payload == a.payload && restorer.Now() == WorldAt(a, 0)
    modifies restorer, restorer.cluster
    ensures m <= |apis| && restorer.Now() == WorldAt(a, m) && status == StatusAt(a, before, m)
    ensures end == Died ==> m == stop
    ensures end == Aborted ==> failFast && m > 0 && !OutcomesTo(a, m)[m - 1].Done?
    ensures end == StageDone ==> m == |apis|
  {
    status, m, end := before, 0, StageDone;
    var k := 0;
    assert StageItems(plan[..0], stage) == [];
    while k < |plan|
      invariant 0 <= k <= |plan| && m == |StageItems(plan[..k], stage)| <= |apis|
      invariant restorer.Now() == WorldAt(a, m) && status == StatusAt(a, before, m)
      invariant end == StageDone
    {
      status, m, end := ApplyIfIncluded(restorer, a, before, plan, k, stage, failFast, apis, stop, status, m);
      if end != StageDone {
        return;
      }
      k := k + 1;
    }
    assert plan[..k] == plan;
  }

  // ---- verification ----

  datatype VerifyResult = Waiting | Finished | DiedVerifying

  function Missing(plan: seq<Item>, objects: Objects): seq<Item> {
    Filter(plan, (item: Item) => TargetOf(item) !in objects)
  }

  function Claims(plan: seq<Item>, objects: Objects): seq<Item> {
    Filter(plan, (item: Item) => TargetOf(item) in objects && item.kind == PVC)
  }

  /** Missing and claimed are counted item by item. */
  lemma MissingAndClaims(plan: seq<Item>, objects: Objects, item: Item)
    ensures multiset(Missing(plan, objects))[item] == if TargetOf(item) in objects then 0 else multiset(plan)[item]
    ensures multiset(Claims(plan, objects))[item] ==
      if TargetOf(item) in objects && item.kind == "PersistentVolumeClaim" then multiset(plan)[item] else 0
  {
    FilterCounts(plan, (x: Item) => TargetOf(x) !in objects, item);
    FilterCounts(plan, (x: Item) => TargetOf(x) in objects && x.kind == PVC, item);
  }

  lemma NothingMissingIff(plan: seq<Item>, objects: Objects)
    ensures |Missing(plan, objects)| == 0 <==> forall item :: item in plan ==> TargetOf(item) in objects
  {
    FilterMembers(plan, (item: Item) => TargetOf(item) !in objects);
    if |Missing(plan, objects)| > 0 {
      assert Missing(plan, objects)[0] in Missing(plan, objects);
    }
  }

  predicate Unbound(item: Item, objects: Objects, bound: set<Target>) {
    TargetOf(item) in objects && item.kind == PVC && TargetOf(item) !in bound
  }

  function CountMissing(p: Progress, missing: nat): Progress {
    p.(failed := p.failed + missing)
  }

  function Conclude(p: Progress): Status {
    Status(if p.failed > 0 then PartiallyFailed else Completed, p)
  }

  /**
   verifyRestore and the completion that follows it: two status patches, of which `patches` get through. A claim
   that is not bound yet makes the task wait with nothing patched.
   */
  method VerifyRestore(store: StatusStore, plan: seq<Item>, objects: Objects, bound: set<Target>, patches: nat)
    returns (result: VerifyResult)
    modifies store
    ensures result.Waiting? <==> exists item :: item in plan && Unbound(item, objects, bound)
    ensures result.Waiting? || patches == 0 ==> store.status == old(store.status)
    ensures !result.Waiting? && patches > 0 ==>
      var counted := CountMissing(old(store.status).progress,
        |Missing(plan, objects)|).(boundPVCs := |Claims(plan, objects)|);
      store.status == if patches == 1 then Status(old(store.status).phase, counted) else Conclude(counted)
    ensures !result.Waiting? ==> (result.Finished? <==> patches >= 2)
    ensures result.Finished? ==>
      (store.status.phase == Completed
       <==> old(store.status).progress.failed == 0 && forall item :: item in plan ==> TargetOf(item) in objects)
  {
    var status := store.status;
    var claims, i := 0, 0;
    while i < |plan|
      invariant 0 <= i <= |plan|
      invariant forall item :: item in plan[..i] ==> !Unbound(item, objects, bound)
      invariant claims == |Claims(plan[..i], objects)|
      invariant status.phase == store.status.phase
      invariant status.progress == CountMissing(store.status.progress, |Missing(plan[..i], objects)|)
    {
      var item := plan[i];
      assert plan[..i + 1] == plan[..i] + [item];
      assert plan[..i + 1][..i] == plan[..i];
      if TargetOf(item) !in objects {
        status := status.(progress := status.progress.(failed := status.progress.failed + 1));
      } else if item.kind == PVC {
        if TargetOf(item) !in bound {
          assert item in plan && Unbound(item, objects, bound);
          return Waiting;
        }
        claims := claims + 1;
      }
      i := i + 1;
    }
    assert plan[..i] == plan;
    status := status.(progress := status.progress.(boundPVCs := claims));
    if patches == 0 {
      return DiedVerifying;
    }
    store.Patch(status);
    if patches == 1 {
      return DiedVerifying;
    }
    NothingMissingIff(plan, objects);
    store.Patch(Conclude(status.progress));
    return Finished;
  }

  // ---- whole runs under failurePolicy Continue ----

  datatype Event =
    | StageEnd(stage: Stage, attempt: Attempt) // a stage runs to its end
    | Crash                                 // the process dies before a patch, or waits
    | BeginVerify
    | VerifyCut(missing: nat, claims: nat)  // verification dies between its two patches
    | Verify(missing: nat, claims: nat)

  function NextStage(phase: Phase): seq<Stage> {
    match phase
    case PreChecking => [Namespaces]
    case Restored(Namespaces) => [ClusterResources]
    case Restored(ClusterResources) => [Pvcs]
    case Restored(Pvcs) => [NamespacedResources]
    case _ => []
  }

  ghost predicate Enabled(plan: seq<Item>, s: Status, e: Event) {
    match e
    case StageEnd(stage, a) => NextStage(s.phase) == [stage] && Valid(a) && a.items == StageItems(plan, stage)
    case Crash => true
    case BeginVerify => s.phase == Restored(NamespacedResources)
    case VerifyCut(missing, _) => s.phase == Verifying && missing <= |plan|
    case Verify(missing, _) => s.phase == Verifying && missing <= |plan|
  }

  function Step(plan: seq<Item>, s: Status, e: Event): Status {
    match e
    case StageEnd(stage, a) => if |a.items| == |a.apis| then StatusAt(a, s, |a.items|).(phase := Restored(stage)) else s
    case Crash => s
    case BeginVerify => s.(phase := Verifying)
    case VerifyCut(missing, claims) => s.(progress := CountMissing(s.progress, missing).(boundPVCs := claims))
    case Verify(missing, claims) => Conclude(CountMissing(s.progress, missing).(boundPVCs := claims))
  }

  function Start(plan: seq<Item>): Status {
    Status(PreChecking, Progress(|plan|, 0, 0, 0, 0, 0, 0, 0))
  }

  /** A run lists the statuses along with the events between them. */
  ghost predicate IsRun(plan: seq<Item>, states: seq<Status>, events: seq<Event>) {
    && |states| == |events| + 1 && states[0] == Start(plan)
    && forall n {:trigger Follows(plan, states, events, n)} :: 0 <= n < |events| ==> Follows(plan, states, events, n)
  }

  ghost predicate Follows(plan: seq<Item>, states: seq<Status>, events: seq<Event>, n: nat)
    requires n < |events| < |states|
  {
    Enabled(plan, states[n], events[n]) && states[n + 1] == Step(plan, states[n], events[n])
  }

  /** How many items the stages up to a phase hold. */
  function StagesDone(plan: seq<Item>, phase: Phase): nat {
    var a, b := |StageItems(plan, Namespaces)|, |StageItems(plan, ClusterResources)|;
    var c, d := |StageItems(plan, Pvcs)|, |StageItems(plan, NamespacedResources)|;
    match phase
    case PreChecking => 0
    case Restored(Namespaces) => a
    case Restored(ClusterResources) => a + b
    case Restored(Pvcs) => a + b + c
    case _ => a + b + c + d
  }

  /** Missing objects counted by verification, once for every patch that counted them. */
  function MissingCounted(events: seq<Event>, n: nat): nat
    requires n <= |events|
  {
    if n == 0 then 0
    else
      var e := events[n - 1];
      MissingCounted(events, n - 1) + (if e.VerifyCut? || e.Verify? then e.missing else 0)
  }

  /** Nothing went wrong in the first `n` events. */
  predicate Clean(events: seq<Event>, n: nat)
    requires n <= |events|
  {
    if n == 0 then true
    else
      var e := events[n - 1];
      && Clean(events, n - 1)
      && (e.StageEnd? && |e.attempt.items| == |e.attempt.apis| ==> AllDone(OutcomesTo(e.attempt, |e.attempt.items|)))
      && (e.VerifyCut? || e.Verify? ==> e.missing == 0)
  }

  function Accounted(p: Progress): nat {
    p.created + p.updated + p.skipped + p.renamed + p.failed
  }

  /** What an event may do to the books. */
  predicate Booked(plan: seq<Item>, s: Status, e: Event, t: Status) {
    && t.progress.processed == StagesDone(plan, t.phase) && t.progress.total == s.progress.total
    && Accounted(t.progress) - t.progress.processed
      == Accounted(s.progress) - s.progress.processed + (if e.VerifyCut? || e.Verify? then e.missing else 0)
    && t.progress.failed >= s.progress.failed
    && (t.progress.failed == s.progress.failed <==>
          && (e.StageEnd? ==>
                |e.attempt.items| == |e.attempt.apis| && AllDone(OutcomesTo(e.attempt, |e.attempt.items|)))
          && (e.VerifyCut? || e.Verify? ==> e.missing == 0))
    && (t.phase in {Completed, PartiallyFailed} ==> s.phase == t.phase || t == Conclude(t.progress))
  }

  /** One event keeps the books. */
  lemma StepCounts(plan: seq<Item>, s: Status, e: Event)
    requires Enabled(plan, s, e) && s.progress.processed == StagesDone(plan, s.phase)
    ensures Booked(plan, s, e, Step(plan, s, e))
  {
    if e.StageEnd? {
      StageBooks(plan, s, e);
    }
  }

  lemma StageBooks(plan: seq<Item>, s: Status, e: Event)
    requires e.StageEnd? && Enabled(plan, s, e) && s.progress.processed == StagesDone(plan, s.phase)
    ensures Booked(plan, s, e, Step(plan, s, e))
  {
    StageCounts(plan, s, e);
    NextStagesDone(plan, s.phase, e.stage);
  }

  lemma NextStagesDone(plan: seq<Item>, phase: Phase, stage: Stage)
    requires NextStage(phase) == [stage]
    ensures StagesDone(plan, Restored(stage)) == StagesDone(plan, phase) + |StageItems(plan, stage)|
  {
  }

  lemma StageCounts(plan: seq<Item>, s: Status, e: Event)
    requires e.StageEnd? && Enabled(plan, s, e)
    ensures var t, n := Step(plan, s, e), |e.attempt.items|;
      && t.phase == Restored(e.stage) && n == |StageItems(plan, e.stage)|
      && t.progress.processed == s.progress.processed + n && t.progress.total == s.progress.total
      && Accounted(t.progress) == Accounted(s.progress) + n
      && t.progress.failed >= s.progress.failed
      && (t.progress.failed == s.progress.failed <==> AllDone(OutcomesTo(e.attempt, n)))
  {
    TallySums(s.progress, OutcomesTo(e.attempt, |e.attempt.items|));
    TallyFacts(s.progress, OutcomesTo(e.attempt, |e.attempt.items|));
  }

  lemma {:induction false} TallySums(p: Progress, outcomes: seq<Outcome>)
    ensures Accounted(TallyAll(p, outcomes)) == Accounted(p) + |outcomes|
  {
    if outcomes != [] {
      TallySums(p, outcomes[..|outcomes| - 1]);
    }
  }

  /**
   Along every run under Continue, with any number of crashes: the items processed are those of the finished
   stages; what is accounted for exceeds them by the missing objects that verification counted on top; and the
   task ends Completed exactly when nothing failed and nothing was missing.
   */
  lemma {:induction false} RestoreCounts(plan: seq<Item>, states: seq<Status>, events: seq<Event>, n: nat)
    requires IsRun(plan, states, events) && n <= |events|
    ensures var s := states[n];
      && s.progress.total == |plan|
      && s.progress.processed == StagesDone(plan, s.phase)
      && Accounted(s.progress) == s.progress.processed + MissingCounted(events, n)
      && (s.progress.failed == 0 <==> Clean(events, n))
      && (s.phase in {Completed, PartiallyFailed} ==> (s.phase == Completed <==> Clean(events, n)))
  {
    if n > 0 {
      RestoreCounts(plan, states, events, n - 1);
      assert Follows(plan, states, events, n - 1);
      StepCounts(plan, states[n - 1], events[n - 1]);
    }
  }

  /** For the plan of a well-formed index every item is processed exactly once, whatever was repeated on the way. */
  lemma EveryItemProcessed(plan: seq<Item>, states: seq<Status>, events: seq<Event>, n: nat)
    requires IsRun(plan, states, events) && n <= |events|
    requires forall item :: item in plan ==> ProperScope(item)
    requires states[n].phase in {Restored(NamespacedResources), Verifying, Completed, PartiallyFailed}
    ensures states[n].progress.processed == states[n].progress.total == |plan|
    ensures Balanced(states[n].progress) <==> MissingCounted(events, n) == 0
  {
    RestoreCounts(plan, states, events, n);
    PartitionIff(plan);
    assert |Execution(plan)| == |multiset(Execution(plan))| == |multiset(plan)|;
  }

  // ---- an example ----

  lemma OnlyItem(item: Item, stage: Stage)
    ensures StageItems([item], stage) == if StageIncludes(stage, item) then [item] else []
  {
    assert [item][..0] == [];
  }

  predicate OnlyStages(events: seq<Event>) {
    forall i :: 0 <= i < |events| ==> events[i].StageEnd? || events[i].BeginVerify?
  }

  /** The stages of an uninterrupted restore of one Namespace, which it creates. */
  lemma OneNamespace(policy: Conflict.Policy, payload: Payload, item: Item)
    returns (states: seq<Status>, events: seq<Event>)
    requires item.kind == NAMESPACE && item.targetNamespace == ""
    ensures IsRun([item], states, events) && |events| == 5 && states[5].phase == Verifying
    ensures OnlyStages(events)
  {
    var creates := Attempt(policy, payload, map[], [item], [Api(true, true, true, true, true, true)]);
    var nothing := Attempt(policy, payload, map[TargetOf(item) := References.Null], [], []);
    OnlyItem(item, Namespaces);
    OnlyItem(item, ClusterResources);
    OnlyItem(item, Pvcs);
    OnlyItem(item, NamespacedResources);
    states, events := AddEvent([item], [Start([item])], [], StageEnd(Namespaces, creates));
    states, events := AddEvent([item], states, events, StageEnd(ClusterResources, nothing));
    states, events := AddEvent([item], states, events, StageEnd(Pvcs, nothing));
    states, events := AddEvent([item], states, events, StageEnd(NamespacedResources, nothing));
    states, events := AddEvent([item], states, events, BeginVerify);
  }

  /** A run grows by an enabled event. */
  lemma AddEvent(plan: seq<Item>, states: seq<Status>, events: seq<Event>, e: Event)
    returns (more: seq<Status>, longer: seq<Event>)
    requires IsRun(plan, states, events) && Enabled(plan, states[|events|], e)
    ensures longer == events + [e] && more == states + [Step(plan, states[|events|], e)] && IsRun(plan, more, longer)
    ensures e.StageEnd? ==> more[|events| + 1].phase == Restored(e.stage)
    ensures e.BeginVerify? ==> more[|events| + 1].phase == Verifying
    ensures OnlyStages(events) && (e.StageEnd? || e.BeginVerify?) ==> OnlyStages(longer)
  {
    longer, more := events + [e], states + [Step(plan, states[|events|], e)];
    forall n | 0 <= n < |longer| ensures Follows(plan, more, longer, n) {
      assert n < |events| ==> Follows(plan, states, events, n);
    }
  }

  lemma {:induction false} NothingCounted(events: seq<Event>, n: nat)
    requires n <= |events| && OnlyStages(events[..n])
    ensures MissingCounted(events, n) == 0
  {
    if n > 0 {
      assert events[..n - 1] == events[..n][..n - 1] && events[..n][n - 1] == events[n - 1];
      NothingCounted(events, n - 1);
    }
  }

  /**
   The Namespace is gone again when verification looks for it: one item was processed, two are accounted for, and the
   counters do not add up.
   */
  lemma MissingObjectUnbalances(policy: Conflict.Policy, payload: Payload, item: Item)
    returns (states: seq<Status>, events: seq<Event>)
    requires item.kind == NAMESPACE && item.targetNamespace == ""
    ensures IsRun([item], states, events) && |events| == 6
    ensures var end := states[6].progress; end.processed == 1 && Accounted(end) == 2 && !Balanced(end)
  {
    var before, first := OneNamespace(policy, payload, item);
    states, events := AddEvent([item], before, first, Verify(1, 0));
    assert events[..5] == first;
    NothingCounted(events, 5);
    RestoreCounts([item], states, events, 6);
    EveryItemProcessed([item], states, events, 6);
  }
}
