/**
 Whole restores: any sequence of Apply calls, cut short at any effect, restarted at any stage. Here are the frame of a
 restore, the precheck and its soundness, and what repetition after a crash changes.
 */
module RestoreRun {
  import opened Basics
  import opened Plan
  import opened References
  import opened Restorer
  import opened Sorting
  import Conflict
  import Stages

  /**
   One Apply in the life of a restore. `newStage` starts a new stage with an empty rename map; `cut` is the number of
   effects before the process dies, and two or more means it does not.
   */
  datatype Call = Call(item: Item, api: Api, payload: Payload, newStage: bool, cut: nat)

  const WHOLE: nat := 2

  function Before(w: World, call: Call): World {
    if call.newStage then World(w.objects, map[]) else w
  }

  function Effects(policy: Conflict.Policy, w: World, call: Call): (effects: seq<Effect>)
    ensures |effects| <= WHOLE
  {
    var all := Apply(policy, call.payload, Before(w, call), call.item, call.api).effects;
    Cut(all, call.cut)
  }

  function Next(policy: Conflict.Policy, w: World, call: Call): World {
    World(PerformAll(w.objects, Effects(policy, w, call)),
          Apply(policy, call.payload, Before(w, call), call.item, call.api).renames)
  }

  /** A run lists the worlds along with the calls between them. */
  ghost predicate IsRun(policy: Conflict.Policy, worlds: seq<World>, calls: seq<Call>) {
    && |worlds| == |calls| + 1
    && forall n {:trigger Follows(policy, worlds, calls, n)} :: 0 <= n < |calls| ==> Follows(policy, worlds, calls, n)
  }

  ghost predicate Follows(policy: Conflict.Policy, worlds: seq<World>, calls: seq<Call>, n: nat)
    requires n < |calls| < |worlds|
  {
    worlds[n + 1] == Next(policy, worlds[n], calls[n])
  }

  /** A stage that runs to its end is one run over its items. */
  function StageCalls(payload: Payload, items: seq<Item>, apis: seq<Api>): seq<Call>
    requires |items| == |apis|
  {
    seq(|items|, i requires 0 <= i < |items| => Call(items[i], apis[i], payload, i == 0, WHOLE))
  }

  lemma StageStep(policy: Conflict.Policy, payload: Payload, w: World, item: Item, api: Api, newStage: bool)
    ensures Next(policy, w, Call(item, api, payload, newStage, WHOLE))
      == After(policy, payload, if newStage then World(w.objects, map[]) else w, item, api)
  {
  }

  lemma {:induction false} StageIsRun(policy: Conflict.Policy, payload: Payload, worlds: seq<World>, items: seq<Item>,
                                      apis: seq<Api>, n: nat)
    requires 0 < n <= |items| == |apis| && IsRun(policy, worlds, StageCalls(payload, items, apis))
    ensures worlds[n] == RunTo(policy, payload, World(worlds[0].objects, map[]), items, apis, n)
  {
    var calls, empty := StageCalls(payload, items, apis), World(worlds[0].objects, map[]);
    assert Follows(policy, worlds, calls, n - 1);
    if n > 1 {
      StageIsRun(policy, payload, worlds, items, apis, n - 1);
      StageStep(policy, payload, worlds[n - 1], items[n - 1], apis[n - 1], false);
    } else {
      assert RunTo(policy, payload, empty, items, apis, 0) == empty;
      StageStep(policy, payload, worlds[0], items[0], apis[0], true);
    }
  }

  // ---- one call ----

  predicate Overwrites(policy: Conflict.Policy, item: Item) {
    Conflict.PolicyFor(policy, item.gvr) == "Overwrite"
  }

  predicate Renames(policy: Conflict.Policy, item: Item) {
    Conflict.PolicyFor(policy, item.gvr) == "Rename" && Conflict.RenameSupported(item.kind)
  }

  /** Every effect either writes a key that is free, or hits the item's own target under Overwrite. */
  lemma EffectsAreLocal(policy: Conflict.Policy, w: World, call: Call)
    ensures forall e :: e in Effects(policy, w, call) ==>
      || (e.key !in w.objects && e.key == TargetOf(call.item))
      || (e.key !in w.objects && Renames(policy, call.item) && e.key.gvr == call.item.gvr)
      || (e.key in w.objects && e.key == TargetOf(call.item) && Overwrites(policy, call.item))
  {
    var all := Apply(policy, call.payload, Before(w, call), call.item, call.api).effects;
    forall e | e in Effects(policy, w, call) ensures e in all {
    }
  }

  lemma {:induction false} NewKeys(objects: Objects, effects: seq<Effect>, key: Target)
    ensures key in PerformAll(objects, effects) ==> key in objects || exists e :: e in effects && e.key == key
    decreases |effects|
  {
    if effects != [] {
      NewKeys(Perform(objects, effects[0]), effects[1..], key);
      assert effects[0] in effects;
    }
  }

  // ---- frame ----

  lemma CallFrame(policy: Conflict.Policy, w: World, call: Call, key: Target)
    requires key in w.objects && !(TargetOf(call.item) == key && Overwrites(policy, call.item))
    ensures key in Next(policy, w, call).objects && Next(policy, w, call).objects[key] == w.objects[key]
  {
    EffectsAreLocal(policy, w, call);
    OtherKey(w.objects, Effects(policy, w, call), key);
  }

  /**
   After any prefix of a restore, with crashes and repeated stages, every object that was there before is
   unchanged unless some item targets it under the Overwrite policy.
   */
  lemma {:induction false} RestoreFrame(policy: Conflict.Policy, worlds: seq<World>, calls: seq<Call>, n: nat,
                                        key: Target)
    requires IsRun(policy, worlds, calls) && n <= |calls| && key in worlds[0].objects
    requires forall i :: 0 <= i < n ==> !(TargetOf(calls[i].item) == key && Overwrites(policy, calls[i].item))
    ensures key in worlds[n].objects && worlds[n].objects[key] == worlds[0].objects[key]
  {
    if n > 0 {
      RestoreFrame(policy, worlds, calls, n - 1, key);
      assert Follows(policy, worlds, calls, n - 1);
      CallFrame(policy, worlds[n - 1], calls[n - 1], key);
    }
  }

  /**
   An object whose own policy is not Overwrite survives every prefix of every restore unchanged, whatever the default
   and whatever the items.
   */
  lemma OwnPolicyProtects(policy: Conflict.Policy, worlds: seq<World>, calls: seq<Call>, n: nat, key: Target,
                          word: string)
    requires IsRun(policy, worlds, calls) && n <= |calls| && key in worlds[0].objects
    requires Conflict.Decides(policy, key.gvr, word) && word != "Overwrite"
    ensures key in worlds[n].objects && worlds[n].objects[key] == worlds[0].objects[key]
  {
    Conflict.DecidesIff(policy, key.gvr, word);
    RestoreFrame(policy, worlds, calls, n, key);
  }

  /** Kinds whose objects hold or own data: they are never deleted to be created anew. */
  const PRECIOUS: set<string> := {NAMESPACE, CRD, PVC, "PersistentVolume", "Secret", "ServiceAccount"}

  predicate NeverRecreates(policy: Conflict.Policy, item: Item) {
    !policy.allowRecreate || !policy.highRiskConfirmed || item.kind in PRECIOUS
  }

  lemma CallRemovesNothing(policy: Conflict.Policy, w: World, call: Call, key: Target)
    requires key in w.objects && (TargetOf(call.item) == key ==> NeverRecreates(policy, call.item))
    ensures key in Next(policy, w, call).objects
  {
    var all := Apply(policy, call.payload, Before(w, call), call.item, call.api).effects;
    if TargetOf(call.item) == key {
      assert !Conflict.RecreateSupported(NAMESPACE) && !Conflict.RecreateSupported(CRD);
      assert !Conflict.RecreateSupported(PVC);
      var sent := Prepared(call.payload, Before(w, call).renames, call.item);
      PerformFew(w.objects, Put(key, sent), Put(key, sent));
      if all != [] && call.cut == 0 {
        assert all[..0] == [];
      }
      if all != [] && all[0].key != key {
        OtherKey(w.objects, Effects(policy, w, call), key);
      }
    } else {
      EffectsAreLocal(policy, w, call);
      OtherKey(w.objects, Effects(policy, w, call), key);
    }
  }

  /** Without both confirmations, and for precious kinds even with them, a restore deletes nothing, wherever it dies. */
  lemma {:induction false} NothingIsDeleted(policy: Conflict.Policy, worlds: seq<World>, calls: seq<Call>, n: nat,
                                            key: Target)
    requires IsRun(policy, worlds, calls) && n <= |calls| && key in worlds[0].objects
    requires forall i :: 0 <= i < n && TargetOf(calls[i].item) == key ==> NeverRecreates(policy, calls[i].item)
    ensures key in worlds[n].objects
  {
    if n > 0 {
      NothingIsDeleted(policy, worlds, calls, n - 1, key);
      assert Follows(policy, worlds, calls, n - 1);
      CallRemovesNothing(policy, worlds[n - 1], calls[n - 1], key);
    }
  }

  // ---- precheck ----

  datatype PrecheckResult = Passed(conflicts: nat) | BlockedBy(count: nat) | NoMapping

  predicate Resolvable(policy: Conflict.Policy, item: Item) {
    Conflict.Resolve(policy, item.gvr, item.kind, true).Resolved?
  }

  predicate HasCRD(plan: seq<Item>) {
    exists item :: item in plan && item.kind == CRD
  }

  /** The items whose targets exist already. */
  function Conflicts(plan: seq<Item>, objects: Objects, mapped: set<string>): seq<Item> {
    Filter(plan, (item: Item) => item.kind in mapped && TargetOf(item) in objects)
  }

  function Refused(policy: Conflict.Policy, items: seq<Item>): seq<Item> {
    Filter(items, (item: Item) => !Resolvable(policy, item))
  }

  /** Precheck: count the targets that exist, and those whose policy refuses. */
  method Precheck(policy: Conflict.Policy, plan: seq<Item>, objects: Objects, mapped: set<string>)
    returns (result: PrecheckResult)
    ensures result.NoMapping? <==> !HasCRD(plan) && exists item :: item in plan && item.kind !in mapped
    ensures result.Passed? ==>
      && result.conflicts == |Conflicts(plan, objects, mapped)|
      && Refused(policy, Conflicts(plan, objects, mapped)) == []
    ensures result.BlockedBy? ==> result.count == |Refused(policy, Conflicts(plan, objects, mapped))| > 0
  {
    var hasCRD := HasCRD(plan);
    var conflicts, blocking := 0, 0;
    var i := 0;
    while i < |plan|
      invariant 0 <= i <= |plan|
      invariant forall k :: 0 <= k < i ==> hasCRD || plan[k].kind in mapped
      invariant conflicts == |Conflicts(plan[..i], objects, mapped)|
      invariant blocking == |Refused(policy, Conflicts(plan[..i], objects, mapped))|
    {
      var item := plan[i];
      assert item in plan;
      OneMoreItem(policy, plan, objects, mapped, i);
      if item.kind !in mapped {
        if !hasCRD {
          return NoMapping;
        }
      } else if TargetOf(item) in objects {
        conflicts := conflicts + 1;
        if !Resolvable(policy, item) {
          blocking := blocking + 1;
        }
      }
      i := i + 1;
    }
    assert plan[..i] == plan;
    return if blocking > 0 then BlockedBy(blocking) else Passed(conflicts);
  }

  lemma OneMoreItem(policy: Conflict.Policy, plan: seq<Item>, objects: Objects, mapped: set<string>, i: nat)
    requires i < |plan|
    ensures var conflict := plan[i].kind in mapped && TargetOf(plan[i]) in objects;
      && |Conflicts(plan[..i + 1], objects, mapped)|
        == |Conflicts(plan[..i], objects, mapped)| + (if conflict then 1 else 0)
      && |Refused(policy, Conflicts(plan[..i + 1], objects, mapped))| ==
        |Refused(policy, Conflicts(plan[..i], objects, mapped))|
          + (if conflict && !Resolvable(policy, plan[i]) then 1 else 0)
  {
    assert plan[..i + 1][..i] == plan[..i];
    var before := Conflicts(plan[..i], objects, mapped);
    assert (before + [plan[i]])[..|before|] == before;
  }

  /** What a passed precheck says of each item. */
  lemma PassedMeansResolvable(policy: Conflict.Policy, plan: seq<Item>, objects: Objects, mapped: set<string>)
    ensures Refused(policy, Conflicts(plan, objects, mapped)) == []
      <==> forall item :: item in plan && item.kind in mapped && TargetOf(item) in objects ==> Resolvable(policy, item)
  {
    var conflicts := Conflicts(plan, objects, mapped);
    FilterMembers(plan, (item: Item) => item.kind in mapped && TargetOf(item) in objects);
    FilterMembers(conflicts, (item: Item) => !Resolvable(policy, item));
    if Refused(policy, conflicts) != [] {
      assert Refused(policy, conflicts)[0] in Refused(policy, conflicts);
    }
  }

  /** Where an object of a running restore can come from. */
  ghost predicate Explained(policy: Conflict.Policy, start: Objects, key: Target, calls: seq<Call>, n: nat)
    requires n <= |calls|
  {
    || key in start
    || (exists i :: 0 <= i < n && TargetOf(calls[i].item) == key)
    || (exists i :: 0 <= i < n && calls[i].item.gvr == key.gvr && Renames(policy, calls[i].item))
  }

  lemma {:induction false} EverythingExplained(policy: Conflict.Policy, worlds: seq<World>, calls: seq<Call>, n: nat,
                                               key: Target)
    requires IsRun(policy, worlds, calls) && n <= |calls| && key in worlds[n].objects
    ensures Explained(policy, worlds[0].objects, key, calls, n)
  {
    if n > 0 {
      var v := worlds[n - 1];
      if key in v.objects {
        EverythingExplained(policy, worlds, calls, n - 1, key);
      } else {
        assert Follows(policy, worlds, calls, n - 1);
        EffectsAreLocal(policy, v, calls[n - 1]);
        NewKeys(v.objects, Effects(policy, v, calls[n - 1]), key);
      }
    }
  }

  /** The calls of one restore that is not interrupted: each target once, and a resource has one kind. */
  ghost predicate OneRestore(calls: seq<Call>) {
    && (forall i, j :: 0 <= i < j < |calls| ==> TargetOf(calls[i].item) != TargetOf(calls[j].item))
    && (forall i, j :: 0 <= i < |calls| && 0 <= j < |calls| && calls[i].item.gvr == calls[j].item.gvr ==>
      calls[i].item.kind == calls[j].item.kind)
  }

  /** Every item of a plan keeps the kind of its resource. */
  lemma ResourceHasOneKind(entries: seq<IndexEntry>, sel: Selection, order: seq<string>, x: Item, y: Item)
    requires WellFormedIndex(entries) && Enumerates(order, NamespaceTargets(entries, sel).Keys)
    requires x in PlanItems(entries, sel, order) && y in PlanItems(entries, sel, order) && x.gvr == y.gvr
    ensures x.kind == y.kind
  {
    PlanMembers(entries, sel, order);
    var targets, present := NamespaceTargets(entries, sel), NamespacesPresent(RealItems(entries, sel));
    RealMember(entries, sel, x);
    RealMember(entries, sel, y);
    SyntheticMembers(order, targets, present, x);
    SyntheticMembers(order, targets, present, y);
  }

  /** What there is to know of an index and a selection. */
  ghost predicate ProperPlan(entries: seq<IndexEntry>, sel: Selection, order: seq<string>) {
    && WellFormedIndex(entries) && ValidMapping(sel.namespaceMapping) && InjectiveMapping(entries, sel)
    && Enumerates(order, NamespaceTargets(entries, sel).Keys)
  }

  /** A run over the stages of the plan of a well-formed index, or the beginning of it, is one restore in this sense. */
  lemma PlanIsOneRestore(entries: seq<IndexEntry>, sel: Selection, order: seq<string>, calls: seq<Call>)
    requires ProperPlan(entries, sel, order)
    requires var run := Stages.Execution(PlanItems(entries, sel, order));
      |calls| <= |run| && forall i :: 0 <= i < |calls| ==> calls[i].item == run[i]
    ensures OneRestore(calls)
  {
    var plan := PlanItems(entries, sel, order);
    var run := Stages.Execution(plan);
    PlanTargetsDistinct(entries, sel, order);
    Stages.PlansAreProper(entries, sel, order);
    PermutationKeepsDistinct(plan, run);
    SameElements(plan, run);
    forall i, j | 0 <= i < |calls| && 0 <= j < |calls|
      ensures i < j ==> TargetOf(calls[i].item) != TargetOf(calls[j].item)
      ensures calls[i].item.gvr == calls[j].item.gvr ==> calls[i].item.kind == calls[j].item.kind
    {
      assert run[i] in run && run[j] in run;
      if run[i].gvr == run[j].gvr {
        ResourceHasOneKind(entries, sel, order, run[i], run[j]);
      }
    }
  }

  function Result(policy: Conflict.Policy, w: World, call: Call): Outcome {
    Apply(policy, call.payload, Before(w, call), call.item, call.api).outcome
  }

  /** When an Apply meets a conflict it cannot resolve. */
  lemma UnresolvedIff(policy: Conflict.Policy, w: World, call: Call)
    ensures Result(policy, w, call) == Unresolved
      <==> call.api.prepared && TargetOf(call.item) in w.objects && !Resolvable(policy, call.item)
  {
  }

  /** A target that exists when its turn comes existed at the start, or is a renamed copy of the same resource. */
  lemma ExistingTarget(policy: Conflict.Policy, worlds: seq<World>, calls: seq<Call>, n: nat)
    requires IsRun(policy, worlds, calls) && n < |calls| && OneRestore(calls)
      && TargetOf(calls[n].item) in worlds[n].objects
    ensures TargetOf(calls[n].item) in worlds[0].objects || Renames(policy, calls[n].item)
  {
    var key := TargetOf(calls[n].item);
    EverythingExplained(policy, worlds, calls, n, key);
    if key !in worlds[0].objects {
      var i :| 0 <= i < n && calls[i].item.gvr == key.gvr && Renames(policy, calls[i].item);
      assert calls[i].item.kind == calls[n].item.kind;
    }
  }

  /**
   When precheck finds nothing blocked, no later Apply of the run meets a conflict it cannot resolve, although the
   run itself creates and renames objects. Kinds that had no API mapping at precheck time had no objects either.
   */
  lemma PrecheckIsSound(policy: Conflict.Policy, worlds: seq<World>, calls: seq<Call>, plan: seq<Item>,
                        mapped: set<string>, n: nat)
    requires IsRun(policy, worlds, calls) && n < |calls| && OneRestore(calls) && calls[n].item in plan
    requires Refused(policy, Conflicts(plan, worlds[0].objects, mapped)) == []
    requires forall item :: item in plan && item.kind !in mapped ==> TargetOf(item) !in worlds[0].objects
    ensures Result(policy, worlds[n], calls[n]) != Unresolved
  {
    PassedMeansResolvable(policy, plan, worlds[0].objects, mapped);
    UnresolvedIff(policy, worlds[n], calls[n]);
    if TargetOf(calls[n].item) in worlds[n].objects {
      ExistingTarget(policy, worlds, calls, n);
      assert Resolvable(policy, calls[n].item);
    }
  }

  /** And every conflict precheck refuses would be met: its item fails when its turn comes. */
  lemma PrecheckIsTight(policy: Conflict.Policy, worlds: seq<World>, calls: seq<Call>, n: nat)
    requires IsRun(policy, worlds, calls) && n < |calls| && OneRestore(calls) && calls[n].api.prepared
    requires TargetOf(calls[n].item) in worlds[0].objects && !Resolvable(policy, calls[n].item)
    ensures Result(policy, worlds[n], calls[n]) == Unresolved
  {
    RestoreFrame(policy, worlds, calls, n, TargetOf(calls[n].item));
    UnresolvedIff(policy, worlds[n], calls[n]);
  }

  /** Two items with one target have one policy. */
  lemma SamePolicy(policy: Conflict.Policy, x: Item, y: Item)
    requires TargetOf(x) == TargetOf(y)
    ensures Overwrites(policy, x) <==> Overwrites(policy, y)
  {
  }

  lemma CallKeeps(policy: Conflict.Policy, w: World, call: Call, item: Item)
    requires !Overwrites(policy, item) && TargetOf(item) in w.objects
    ensures TargetOf(item) in Next(policy, w, call).objects
  {
    if TargetOf(call.item) == TargetOf(item) {
      SamePolicy(policy, call.item, item);
    }
    CallFrame(policy, w, call, TargetOf(item));
  }

  /** An object that no Overwrite can touch stays from call `i` on. */
  lemma {:induction false} StaysFrom(policy: Conflict.Policy, worlds: seq<World>, calls: seq<Call>, i: nat, n: nat,
                                     item: Item)
    requires IsRun(policy, worlds, calls) && i <= n <= |calls| && !Overwrites(policy, item)
    requires TargetOf(item) in worlds[i].objects
    ensures TargetOf(item) in worlds[n].objects
  {
    if i < n {
      StaysFrom(policy, worlds, calls, i, n - 1, item);
      assert Follows(policy, worlds, calls, n - 1);
      CallKeeps(policy, worlds[n - 1], calls[n - 1], item);
    }
  }

  /** A call that creates its absent target and lives that long. */
  ghost predicate Creates(policy: Conflict.Policy, w: World, call: Call) {
    Result(policy, w, call) == Done(Created, call.item.targetName) && call.cut > 0
  }

  lemma CreatedIsThere(policy: Conflict.Policy, w: World, call: Call)
    requires Creates(policy, w, call)
    ensures TargetOf(call.item) !in w.objects && TargetOf(call.item) in Next(policy, w, call).objects
  {
    var v := Before(w, call);
    var key := TargetOf(call.item);
    PerformFew(w.objects, Put(key, Prepared(call.payload, v.renames, call.item)), Remove(key));
  }

  /**
   Interrupted runs are different. An item that was created before a crash is met again as a conflict, however much
   later its stage is repeated, and the repetition is unresolved exactly when its policy refuses existing targets.
   */
  lemma RepeatedApplyIff(policy: Conflict.Policy, worlds: seq<World>, calls: seq<Call>, i: nat, n: nat)
    requires IsRun(policy, worlds, calls) && i < n < |calls| && calls[n].item == calls[i].item && calls[n].api.prepared
    requires Creates(policy, worlds[i], calls[i])
    ensures Result(policy, worlds[n], calls[n]) == Unresolved <==> !Resolvable(policy, calls[i].item)
  {
    var item := calls[i].item;
    UnresolvedIff(policy, worlds[n], calls[n]);
    if !Resolvable(policy, item) {
      CreatedIsThere(policy, worlds[i], calls[i]);
      assert Follows(policy, worlds, calls, i);
      StaysFrom(policy, worlds, calls, i + 1, n, item);
    }
  }

  const FAIL := Conflict.Policy("Fail", map[], false, false)

  /** It happens under Fail: one item, created by an attempt that then died, and repeated by the next. */
  lemma FailMeetsItsOwnObject(item: Item, payload: Payload)
    ensures var call := Call(item, Api(true, true, true, true, true, true), payload, true, WHOLE);
      var w := World(map[], map[]);
      && Result(FAIL, w, call) == Done(Created, item.targetName)
      && Result(FAIL, Next(FAIL, w, call), call) == Unresolved
  {
    var call := Call(item, Api(true, true, true, true, true, true), payload, true, WHOLE);
    var w := World(map[], map[]);
    CreatedIsThere(FAIL, w, call);
    UnresolvedIff(FAIL, Next(FAIL, w, call), call);
  }
}
