/**
 The restore of a plan over all four stages: what the results about runs, crashes and renames say of the plan of a
 well-formed index.
 */
module WholeRestore {
  import opened CrashIdempotence
  import opened Plan
  import opened References
  import opened Restorer
  import opened Settling
  import opened Sorting
  import opened Stages
  import Conflict
  import RenameFollowing
  import RestoreRun

  // ---- precheck ----

  lemma PlanPrecheckIsSound(policy: Conflict.Policy, worlds: seq<World>, calls: seq<RestoreRun.Call>,
                            entries: seq<IndexEntry>, sel: Selection, order: seq<string>, mapped: set<string>)
    requires RestoreRun.IsRun(policy, worlds, calls) && RestoreRun.ProperPlan(entries, sel, order)
    requires var run := Execution(PlanItems(entries, sel, order));
      |calls| <= |run| && forall i :: 0 <= i < |calls| ==> calls[i].item == run[i]
    requires forall item :: item in PlanItems(entries, sel, order) && item.kind !in mapped ==>
      TargetOf(item) !in worlds[0].objects
    requires RestoreRun.Refused(policy, RestoreRun.Conflicts(PlanItems(entries, sel, order), worlds[0].objects, mapped))
      == []
    ensures forall n :: 0 <= n < |calls| ==> RestoreRun.Result(policy, worlds[n], calls[n]) != Unresolved
  {
    var plan := PlanItems(entries, sel, order);
    RestoreRun.PlanIsOneRestore(entries, sel, order, calls);
    PlansAreProper(entries, sel, order);
    SameElements(plan, Execution(plan));
    forall n | 0 <= n < |calls| ensures RestoreRun.Result(policy, worlds[n], calls[n]) != Unresolved {
      assert Execution(plan)[n] in Execution(plan);
      RestoreRun.PrecheckIsSound(policy, worlds, calls, plan, mapped, n);
    }
  }

  /**
   For a whole run over the plan whose objects load, precheck decides: it finds nothing blocked exactly when no Apply
   of the run meets a conflict it cannot resolve.
   */
  lemma PrecheckDecides(policy: Conflict.Policy, worlds: seq<World>, calls: seq<RestoreRun.Call>,
                        entries: seq<IndexEntry>, sel: Selection, order: seq<string>, mapped: set<string>)
    requires RestoreRun.IsRun(policy, worlds, calls) && RestoreRun.ProperPlan(entries, sel, order)
    requires var run := Execution(PlanItems(entries, sel, order));
      |calls| == |run| && forall i :: 0 <= i < |calls| ==> calls[i].item == run[i]
    requires forall item :: item in PlanItems(entries, sel, order) && item.kind !in mapped ==>
      TargetOf(item) !in worlds[0].objects
    requires forall n :: 0 <= n < |calls| ==> calls[n].api.prepared
    ensures RestoreRun.Refused(policy, RestoreRun.Conflicts(PlanItems(entries, sel, order), worlds[0].objects, mapped))
      == []
      <==> forall n :: 0 <= n < |calls| ==> RestoreRun.Result(policy, worlds[n], calls[n]) != Unresolved
  {
    var plan, start := PlanItems(entries, sel, order), worlds[0].objects;
    RestoreRun.PassedMeansResolvable(policy, plan, start, mapped);
    if RestoreRun.Refused(policy, RestoreRun.Conflicts(plan, start, mapped)) == [] {
      PlanPrecheckIsSound(policy, worlds, calls, entries, sel, order, mapped);
    } else {
      var item :| item in plan && item.kind in mapped && TargetOf(item) in start
        && !RestoreRun.Resolvable(policy, item);
      PlansAreProper(entries, sel, order);
      SameElements(plan, Execution(plan));
      var n :| 0 <= n < |Execution(plan)| && Execution(plan)[n] == item;
      RestoreRun.PlanIsOneRestore(entries, sel, order, calls);
      RestoreRun.PrecheckIsTight(policy, worlds, calls, n);
    }
  }

  // ---- crashes in any stage ----

  /** The objects after all stages, each run once to its end. */
  function RunStages(s: Setting, objects: Objects, stages: seq<seq<Item>>): Objects
    decreases |stages|
  {
    if stages == [] then objects
    else RunStages(s, RunOn(s, objects, stages[0], |stages[0]|).objects, stages[1..])
  }

  /** The same when stage `k` is first tried with `crashes[k]`. */
  function RunCrashing(s: Setting, objects: Objects, stages: seq<seq<Item>>, crashes: seq<seq<Crash>>): Objects
    requires |crashes| == |stages|
    decreases |stages|
  {
    if stages == [] then objects
    else
      var left := AfterCrashes(s, objects, stages[0], crashes[0]);
      RunCrashing(s, RunOn(s, left, stages[0], |stages[0]|).objects, stages[1..], crashes[1..])
  }

  /** Whatever attempts at whatever stages die, the end is the same. */
  ghost predicate StagesEndAlike(s: Setting, objects: Objects, stages: seq<seq<Item>>) {
    forall crashes: seq<seq<Crash>> :: |crashes| == |stages| ==>
      RunCrashing(s, objects, stages, crashes) == RunStages(s, objects, stages)
  }

  /** When its turn comes, no stage has an item that is stuck or late. */
  ghost predicate Smooth(s: Setting, objects: Objects, stages: seq<seq<Item>>)
    decreases |stages|
  {
    stages == [] ||
    (&& NothingStuck(s, stages[0], objects) && NothingLate(s, stages[0], objects)
     && Smooth(s, RunOn(s, objects, stages[0], |stages[0]|).objects, stages[1..]))
  }

  ghost predicate Apart(a: seq<Item>, b: seq<Item>) {
    forall x, y :: x in a && y in b ==> TargetOf(x) != TargetOf(y)
  }

  /** Stages that meet the conditions one by one, and have no target in common. */
  ghost predicate StagesReady(s: Setting, stages: seq<seq<Item>>) {
    && (forall k :: 0 <= k < |stages| ==> StageReady(s, stages[k]))
    && (forall j, k :: 0 <= j < k < |stages| ==> Apart(stages[j], stages[k]))
  }

  lemma {:induction false} LaterStagesKeep(s: Setting, objects: Objects, stages: seq<seq<Item>>, key: Target)
    requires forall k :: 0 <= k < |stages| ==> SkipsOrOverwrites(s, stages[k])
    requires forall k, x :: 0 <= k < |stages| && x in stages[k] ==> TargetOf(x) != key
    ensures Get(RunStages(s, objects, stages), key) == Get(objects, key)
    decreases |stages|
  {
    if stages != [] {
      var items := stages[0];
      forall i | 0 <= i < |items| ensures TargetOf(items[i]) != key {
        assert items[i] in stages[0];
      }
      Untouched(s, objects, items, |items|, key);
      LaterStagesKeep(s, RunOn(s, objects, items, |items|).objects, stages[1..], key);
    }
  }

  function NoCrashes(n: nat): (none: seq<seq<Crash>>)
    ensures |none| == n
  {
    if n == 0 then [] else [[]] + NoCrashes(n - 1)
  }

  lemma {:induction false} RunWithoutCrashes(s: Setting, objects: Objects, stages: seq<seq<Item>>)
    ensures RunCrashing(s, objects, stages, NoCrashes(|stages|)) == RunStages(s, objects, stages)
    decreases |stages|
  {
    if stages != [] {
      RunWithoutCrashes(s, RunOn(s, objects, stages[0], |stages[0]|).objects, stages[1..]);
      assert NoCrashes(|stages|)[1..] == NoCrashes(|stages| - 1);
    }
  }

  lemma {:induction false} SmoothIsIdempotent(s: Setting, objects: Objects, stages: seq<seq<Item>>,
                                              crashes: seq<seq<Crash>>)
    requires StagesReady(s, stages) && Smooth(s, objects, stages) && |crashes| == |stages|
    ensures RunCrashing(s, objects, stages, crashes) == RunStages(s, objects, stages)
    decreases |stages|
  {
    if stages != [] {
      assert StageReady(s, stages[0]);
      CrashesKeepEnd(s, objects, stages[0], crashes[0]);
      SmoothIsIdempotent(s, RunOn(s, objects, stages[0], |stages[0]|).objects, stages[1..], crashes[1..]);
    }
  }

  lemma DifferenceStays(s: Setting, a: Objects, b: Objects, stages: seq<seq<Item>>, key: Target)
    requires forall k :: 0 <= k < |stages| ==> SkipsOrOverwrites(s, stages[k])
    requires forall k, x :: 0 <= k < |stages| && x in stages[k] ==> TargetOf(x) != key
    requires Get(a, key) != Get(b, key)
    ensures RunStages(s, a, stages) != RunStages(s, b, stages)
  {
    LaterStagesKeep(s, a, stages, key);
    LaterStagesKeep(s, b, stages, key);
  }

  /** Only the first stage is tried twice. */
  lemma FirstStageTwice(s: Setting, objects: Objects, stages: seq<seq<Item>>)
    requires stages != []
    ensures var items, c := stages[0], Crash(|stages[0]|, 0);
      RunCrashing(s, objects, stages, [[c]] + NoCrashes(|stages| - 1))
      == RunStages(s, RunOn(s, Crashed(s, objects, items, c), items, |items|).objects, stages[1..])
  {
    var items, c := stages[0], Crash(|stages[0]|, 0);
    var crashes := [[c]] + NoCrashes(|stages| - 1);
    assert crashes[1..] == NoCrashes(|stages[1..]|);
    OneCrash(s, objects, items, c);
    RunWithoutCrashes(s, RunOn(s, Crashed(s, objects, items, c), items, |items|).objects, stages[1..]);
  }

  lemma LaterStagesApart(s: Setting, stages: seq<seq<Item>>, item: Item, k: nat)
    requires StagesReady(s, stages) && k + 1 < |stages| && item in stages[0]
    ensures SkipsOrOverwrites(s, stages[1..][k])
    ensures forall x :: x in stages[1..][k] ==> TargetOf(x) != TargetOf(item)
  {
    assert StageReady(s, stages[k + 1]) && Apart(stages[0], stages[k + 1]);
  }

  /** A first stage with a stuck or late item, tried twice, leaves something else at the end. */
  lemma FirstStageShows(s: Setting, objects: Objects, stages: seq<seq<Item>>, item: Item)
    requires StagesReady(s, stages) && stages != [] && item in stages[0]
    requires Stuck(s, objects, item, Get(objects, TargetOf(item))) || Late(s, objects, stages[0], item)
    ensures RunCrashing(s, objects, stages, [[Crash(|stages[0]|, 0)]] + NoCrashes(|stages| - 1))
      != RunStages(s, objects, stages)
  {
    var items, c, key := stages[0], Crash(|stages[0]|, 0), TargetOf(item);
    assert StageReady(s, items);
    RepetitionShows(s, objects, items, item);
    FirstStageTwice(s, objects, stages);
    forall k | 0 <= k < |stages[1..]|
      ensures SkipsOrOverwrites(s, stages[1..][k])
      ensures forall x :: x in stages[1..][k] ==> TargetOf(x) != key
    {
      LaterStagesApart(s, stages, item, k);
    }
    DifferenceStays(s, RunOn(s, Crashed(s, objects, items, c), items, |items|).objects,
                    RunOn(s, objects, items, |items|).objects, stages[1..], key);
  }

  lemma {:induction false} RoughShows(s: Setting, objects: Objects, stages: seq<seq<Item>>)
    returns (crashes: seq<seq<Crash>>)
    requires StagesReady(s, stages) && !Smooth(s, objects, stages)
    ensures |crashes| == |stages| && RunCrashing(s, objects, stages, crashes) != RunStages(s, objects, stages)
    decreases |stages|
  {
    var items := stages[0];
    if NothingStuck(s, items, objects) && NothingLate(s, items, objects) {
      var rest := RoughShows(s, RunOn(s, objects, items, |items|).objects, stages[1..]);
      crashes := [[]] + rest;
      assert crashes[1..] == rest;
    } else {
      var item :| item in items
        && (Stuck(s, objects, item, Get(objects, TargetOf(item))) || Late(s, objects, items, item));
      FirstStageShows(s, objects, stages, item);
      crashes := [[Crash(|items|, 0)]] + NoCrashes(|stages| - 1);
    }
  }

  /**
   Whatever attempts at whatever stages die, the restore leaves what it leaves without crashes, exactly when no stage
   has a stuck or late item when its turn comes.
   */
  lemma StagesIdempotentIff(s: Setting, objects: Objects, stages: seq<seq<Item>>)
    requires StagesReady(s, stages)
    ensures StagesEndAlike(s, objects, stages) <==> Smooth(s, objects, stages)
  {
    if Smooth(s, objects, stages) {
      forall crashes: seq<seq<Crash>> | |crashes| == |stages|
        ensures RunCrashing(s, objects, stages, crashes) == RunStages(s, objects, stages)
      {
        SmoothIsIdempotent(s, objects, stages, crashes);
      }
    } else {
      var crashes := RoughShows(s, objects, stages);
    }
  }

  /** The four stages in the order they are applied. */
  function FourStages(plan: seq<Item>): seq<seq<Item>> {
    [StageItems(plan, Namespaces), StageItems(plan, ClusterResources), StageItems(plan, Pvcs),
     StageItems(plan, NamespacedResources)]
  }

  lemma StagesApart(plan: seq<Item>, a: Stage, b: Stage)
    requires DistinctTargets(plan) && (forall item :: item in plan ==> ProperScope(item)) && a != b
    ensures Apart(StageItems(plan, a), StageItems(plan, b))
  {
    FilterMembers(plan, item => StageIncludes(a, item));
    FilterMembers(plan, item => StageIncludes(b, item));
    forall x, y | x in StageItems(plan, a) && y in StageItems(plan, b) ensures TargetOf(x) != TargetOf(y) {
      assert StageIncludes(a, x) && StageIncludes(b, y) && ProperScope(x);
    }
  }

  lemma PlanStageReady(s: Setting, plan: seq<Item>, stage: Stage)
    requires DistinctTargets(plan) && SkipsOrOverwrites(s, plan) && AcceptsUnchanged(s, plan)
    requires Independent(s, StageItems(plan, stage))
    ensures StageReady(s, StageItems(plan, stage))
  {
    StageTargetsDistinct(plan, stage);
    FilterMembers(plan, item => StageIncludes(stage, item));
  }

  /** Stage number `k`. */
  function StageAt(k: nat): Stage
    requires k < 4
  {
    [Namespaces, ClusterResources, Pvcs, NamespacedResources][k]
  }

  lemma PlanStagesReady(s: Setting, plan: seq<Item>)
    requires DistinctTargets(plan) && (forall item :: item in plan ==> ProperScope(item))
    requires SkipsOrOverwrites(s, plan) && AcceptsUnchanged(s, plan)
    requires forall stage :: Independent(s, StageItems(plan, stage))
    ensures StagesReady(s, FourStages(plan))
  {
    var stages := FourStages(plan);
    forall k | 0 <= k < |stages| ensures StageReady(s, stages[k]) {
      PlanStageReady(s, plan, StageAt(k));
    }
    forall j, k | 0 <= j < k < |stages| ensures Apart(stages[j], stages[k]) {
      StagesApart(plan, StageAt(j), StageAt(k));
    }
  }

  /** For the plan of a well-formed index, over all four stages. */
  lemma PlanIdempotentIff(s: Setting, objects: Objects, entries: seq<IndexEntry>, sel: Selection, order: seq<string>)
    requires RestoreRun.ProperPlan(entries, sel, order)
    requires SkipsOrOverwrites(s, PlanItems(entries, sel, order)) && AcceptsUnchanged(s, PlanItems(entries, sel, order))
    requires forall stage :: Independent(s, StageItems(PlanItems(entries, sel, order), stage))
    ensures var stages := FourStages(PlanItems(entries, sel, order));
      StagesEndAlike(s, objects, stages) <==> Smooth(s, objects, stages)
  {
    PlanTargetsDistinct(entries, sel, order);
    PlansAreProper(entries, sel, order);
    PlanStagesReady(s, PlanItems(entries, sel, order));
    StagesIdempotentIff(s, objects, FourStages(PlanItems(entries, sel, order)));
  }

  // ---- renames ----

  /** Kinds and namespaces have no slashes, and a kind belongs to one resource. */
  ghost predicate PlainNames(entries: seq<IndexEntry>, sel: Selection) {
    && (forall e :: e in entries ==> RenameFollowing.NoSlash(e.kind) && RenameFollowing.NoSlash(e.namespace))
    && (forall name :: name in sel.namespaceMapping ==> RenameFollowing.NoSlash(sel.namespaceMapping[name]))
    && (forall e, f :: e in entries && f in entries && e.kind == f.kind ==> e.gvr == f.gvr)
  }

  /** The kind and resource of a plan item are those of an entry, or of a namespace. */
  ghost predicate FromIndex(entries: seq<IndexEntry>, item: Item) {
    || (item.kind == NAMESPACE && item.gvr == "namespaces")
    || exists e :: e in entries && e.kind == item.kind && e.gvr == item.gvr
  }

  lemma PlanNames(entries: seq<IndexEntry>, sel: Selection, order: seq<string>, x: Item)
    requires RestoreRun.ProperPlan(entries, sel, order) && PlainNames(entries, sel)
    requires x in PlanItems(entries, sel, order)
    ensures RenameFollowing.NoSlash(x.kind) && RenameFollowing.NoSlash(x.targetNamespace)
    ensures FromIndex(entries, x)
  {
    PlanMembers(entries, sel, order);
    RealMember(entries, sel, x);
    SyntheticMembers(order, NamespaceTargets(entries, sel), NamespacesPresent(RealItems(entries, sel)), x);
  }

  lemma KindMeansResource(entries: seq<IndexEntry>, sel: Selection, x: Item, y: Item)
    requires WellFormedIndex(entries) && PlainNames(entries, sel)
    requires FromIndex(entries, x) && FromIndex(entries, y) && x.kind == y.kind
    ensures x.gvr == y.gvr
  {
  }

  lemma Keyed(items: seq<Item>)
    requires DistinctTargets(items)
    requires forall x :: x in items ==> RenameFollowing.NoSlash(x.kind) && RenameFollowing.NoSlash(x.targetNamespace)
    requires forall x, y :: x in items && y in items && x.kind == y.kind ==> x.gvr == y.gvr
    ensures RenameFollowing.KeyedItems(items)
  {
    forall i, j | 0 <= i < j < |items|
      ensures !(items[i].kind == items[j].kind && items[i].targetNamespace == items[j].targetNamespace
                && items[i].targetName == items[j].targetName)
    {
      assert items[i] in items && items[j] in items;
    }
  }

  lemma StageIsKeyed(entries: seq<IndexEntry>, sel: Selection, order: seq<string>, stage: Stage)
    requires RestoreRun.ProperPlan(entries, sel, order) && PlainNames(entries, sel)
    ensures RenameFollowing.KeyedItems(StageItems(PlanItems(entries, sel, order), stage))
  {
    var plan := PlanItems(entries, sel, order);
    var items := StageItems(plan, stage);
    PlanTargetsDistinct(entries, sel, order);
    StageTargetsDistinct(plan, stage);
    FilterMembers(plan, item => StageIncludes(stage, item));
    forall x, y | x in items && y in items
      ensures RenameFollowing.NoSlash(x.kind) && RenameFollowing.NoSlash(x.targetNamespace)
      ensures x.kind == y.kind ==> x.gvr == y.gvr
    {
      PlanNames(entries, sel, order, x);
      PlanNames(entries, sel, order, y);
      if x.kind == y.kind {
        KindMeansResource(entries, sel, x, y);
      }
    }
    Keyed(items);
  }

  /** In every uninterrupted stage of the plan, recognised references name the renamed copies of earlier kinds. */
  lemma PlanReferencesFollow(policy: Conflict.Policy, payload: Payload, objects: Objects, entries: seq<IndexEntry>,
                             sel: Selection, order: seq<string>, stage: Stage, items: seq<Item>, apis: seq<Api>,
                             i: nat, j: nat, name: string, e: Effect, path: JsonPath, key: string)
    requires RestoreRun.ProperPlan(entries, sel, order) && PlainNames(entries, sel)
    requires items == StageItems(PlanItems(entries, sel, order), stage)
    requires i < |items| == |apis| && j < |items| && items[i].order < items[j].order
    requires RenameFollowing.OutcomeOf(policy, payload, World(objects, map[]), items, apis, i) == Done(Renamed, name)
    requires e in RenameFollowing.EffectsOf(policy, payload, World(objects, map[]), items, apis, j) && e.Put?
    requires forall item, v :: payload.transform(item, v) == v
    requires RenameFollowing.RefersTo(payload, items[j], items[i], path, key)
    ensures At(e.value, path + [Key(key)]) == References.Found(String(name))
  {
    StageIsKeyed(entries, sel, order, stage);
    OrdersAscend(entries, sel, order);
    StageAscends(PlanItems(entries, sel, order), stage);
    RenameFollowing.ReferencesFollowRenames(policy, payload, World(objects, map[]), items, apis, i, j, name, e,
                                            path, key);
  }
}
