/** Cutting a plan into the four stages it is applied in. */
module Stages {
  import opened Plan
  import opened Sorting

  datatype Stage = Namespaces | ClusterResources | Pvcs | NamespacedResources

  predicate StageIncludes(stage: Stage, item: Item) {
    match stage
    case Namespaces => item.kind == NAMESPACE
    case ClusterResources => item.targetNamespace == "" && item.kind != NAMESPACE
    case Pvcs => item.kind == PVC
    case NamespacedResources => item.targetNamespace != "" && item.kind != PVC
  }

  function StageItems(plan: seq<Item>, stage: Stage): seq<Item> {
    Filter(plan, item => StageIncludes(stage, item))
  }

  /** All items in the order they are applied. */
  function Execution(plan: seq<Item>): seq<Item> {
    StageItems(plan, Namespaces) + StageItems(plan, ClusterResources)
    + StageItems(plan, Pvcs) + StageItems(plan, NamespacedResources)
  }

  /** How often a stage applies an item of which the plan holds `k` copies. */
  function Share(stage: Stage, item: Item, k: nat): nat {
    if StageIncludes(stage, item) then k else 0
  }

  /** A kind in its proper scope. */
  predicate ProperScope(item: Item) {
    && (item.kind == NAMESPACE ==> item.targetNamespace == "")
    && (item.kind == PVC ==> item.targetNamespace != "")
  }

  lemma StageCounts(plan: seq<Item>, stage: Stage, item: Item)
    ensures multiset(StageItems(plan, stage))[item] == Share(stage, item, multiset(plan)[item])
  {
    FilterCounts(plan, x => StageIncludes(stage, x), item);
  }

  lemma FourCounts(a: seq<Item>, b: seq<Item>, c: seq<Item>, d: seq<Item>, item: Item)
    ensures multiset(a + b + c + d)[item]
      == multiset(a)[item] + multiset(b)[item] + multiset(c)[item] + multiset(d)[item]
  {
  }

  lemma ExecutionCounts(plan: seq<Item>, item: Item)
    ensures var k := multiset(plan)[item];
      multiset(Execution(plan))[item] ==
        Share(Namespaces, item, k) + Share(ClusterResources, item, k) + Share(Pvcs, item, k)
          + Share(NamespacedResources, item, k)
  {
    StageCounts(plan, Namespaces, item);
    StageCounts(plan, ClusterResources, item);
    StageCounts(plan, Pvcs, item);
    StageCounts(plan, NamespacedResources, item);
    FourCounts(StageItems(plan, Namespaces), StageItems(plan, ClusterResources), StageItems(plan, Pvcs),
      StageItems(plan, NamespacedResources), item);
  }

  lemma SharesIff(item: Item, k: nat)
    ensures Share(Namespaces, item, k) + Share(ClusterResources, item, k) + Share(Pvcs, item, k)
      + Share(NamespacedResources, item, k) == k
      <==> k == 0 || ProperScope(item)
  {
  }

  lemma ProperIff(plan: seq<Item>, item: Item)
    ensures multiset(Execution(plan))[item] == multiset(plan)[item] <==> item !in plan || ProperScope(item)
  {
    ExecutionCounts(plan, item);
    SharesIff(item, multiset(plan)[item]);
    assert item in plan <==> multiset(plan)[item] > 0;
  }

  /** The stages together apply every item exactly once, exactly when every kind is in its proper scope. */
  lemma PartitionIff(plan: seq<Item>)
    ensures multiset(Execution(plan)) == multiset(plan) <==> forall item :: item in plan ==> ProperScope(item)
  {
    if multiset(Execution(plan)) == multiset(plan) {
      forall item | item in plan ensures ProperScope(item) {
        ProperIff(plan, item);
      }
    } else {
      if forall item :: item in plan ==> ProperScope(item) {
        forall item ensures multiset(Execution(plan))[item] == multiset(plan)[item] {
          ProperIff(plan, item);
        }
      }
    }
  }

  /** Plans of a well-formed index have properly scoped items. */
  lemma PlansAreProper(entries: seq<IndexEntry>, sel: Selection, order: seq<string>)
    requires WellFormedIndex(entries) && ValidMapping(sel.namespaceMapping)
    requires Enumerates(order, NamespaceTargets(entries, sel).Keys)
    ensures forall item :: item in PlanItems(entries, sel, order) ==>
      ProperScope(item) && (item.kind == CRD ==> item.targetNamespace == "")
    ensures multiset(Execution(PlanItems(entries, sel, order))) == multiset(PlanItems(entries, sel, order))
  {
    var plan := PlanItems(entries, sel, order);
    PlanMembers(entries, sel, order);
    forall item | item in plan ensures ProperScope(item) && (item.kind == CRD ==> item.targetNamespace == "") {
      RealMember(entries, sel, item);
      SyntheticMembers(order, NamespaceTargets(entries, sel), NamespacesPresent(RealItems(entries, sel)), item);
    }
    PartitionIff(plan);
  }

  /** The items of one stage have distinct targets when those of the plan have. */
  lemma StageTargetsDistinct(plan: seq<Item>, stage: Stage)
    requires DistinctTargets(plan)
    ensures DistinctTargets(StageItems(plan, stage))
  {
    var items := StageItems(plan, stage);
    FilterMembers(plan, item => StageIncludes(stage, item));
    forall i, j | 0 <= i < j < |items| ensures items[i] != items[j] {
      if items[i] == items[j] {
        CountAtLeastTwo(items, i, j);
        StageCounts(plan, stage, items[i]);
        DistinctMultiset(plan, items[i]);
      }
    }
  }

  // ---- order of execution ----

  ghost predicate Ascending(items: seq<Item>) {
    forall i, j :: 0 <= i < j < |items| ==> items[i].order <= items[j].order
  }

  lemma {:induction false} StageAscends(plan: seq<Item>, stage: Stage)
    requires Ascending(plan)
    ensures Ascending(StageItems(plan, stage))
  {
    if plan != [] {
      var init := plan[..|plan| - 1];
      StageAscends(init, stage);
      FilterMembers(init, item => StageIncludes(stage, item));
      forall x | x in StageItems(init, stage) ensures x.order <= plan[|plan| - 1].order {
        assert x in init;
      }
    }
  }

  /** May `x` be applied before `y`? Namespaces first, then CRDs; claims before whatever else is namespaced. */
  predicate MayPrecede(x: Item, y: Item) {
    && (y.kind == NAMESPACE ==> x.kind == NAMESPACE)
    && (y.kind == CRD ==> x.kind == NAMESPACE || x.kind == CRD)
    && (y.kind == PVC ==> x.targetNamespace == "" || x.kind == PVC)
  }

  lemma {:induction false} ConcatOrder(a: seq<Item>, b: seq<Item>)
    requires forall i, j :: 0 <= i < j < |a| ==> MayPrecede(a[i], a[j])
    requires forall i, j :: 0 <= i < j < |b| ==> MayPrecede(b[i], b[j])
    requires forall x, y :: x in a && y in b ==> MayPrecede(x, y)
    ensures forall i, j :: 0 <= i < j < |a + b| ==> MayPrecede((a + b)[i], (a + b)[j])
  {
    forall i, j | 0 <= i < j < |a + b| ensures MayPrecede((a + b)[i], (a + b)[j]) {
      if i < |a| <= j {
        assert a[i] in a && b[j - |a|] in b;
      }
    }
  }

  lemma StageOrder(plan: seq<Item>, stage: Stage)
    requires Ascending(plan)
    requires forall x :: x in plan ==>
      x.order == RestoreOrder(x.kind) && ProperScope(x) && (x.kind == CRD ==> x.targetNamespace == "")
    ensures var s := StageItems(plan, stage); forall i, j :: 0 <= i < j < |s| ==> MayPrecede(s[i], s[j])
    ensures forall x :: x in StageItems(plan, stage) ==> x in plan && StageIncludes(stage, x)
  {
    StageAscends(plan, stage);
    FilterMembers(plan, item => StageIncludes(stage, item));
    var s := StageItems(plan, stage);
    forall i, j | 0 <= i < j < |s| ensures MayPrecede(s[i], s[j]) {
      assert s[i] in s && s[j] in s;
    }
  }

  /**
   In execution order Namespaces come first, CRDs before every other item that is not a Namespace, and claims
   before every other namespaced item.
   */
  lemma ExecutionOrder(plan: seq<Item>)
    requires Ascending(plan)
    requires forall x :: x in plan ==>
      x.order == RestoreOrder(x.kind) && ProperScope(x) && (x.kind == CRD ==> x.targetNamespace == "")
    ensures forall i, j :: 0 <= i < j < |Execution(plan)| ==> MayPrecede(Execution(plan)[i], Execution(plan)[j])
  {
    var n, c := StageItems(plan, Namespaces), StageItems(plan, ClusterResources);
    var p, r := StageItems(plan, Pvcs), StageItems(plan, NamespacedResources);
    StageOrder(plan, Namespaces);
    StageOrder(plan, ClusterResources);
    StageOrder(plan, Pvcs);
    StageOrder(plan, NamespacedResources);
    ConcatOrder(n, c);
    ConcatOrder(n + c, p);
    ConcatOrder(n + c + p, r);
  }

  /** The same for the plan of an index. */
  lemma PlanExecutionOrder(entries: seq<IndexEntry>, sel: Selection, order: seq<string>)
    requires WellFormedIndex(entries) && ValidMapping(sel.namespaceMapping)
    requires Enumerates(order, NamespaceTargets(entries, sel).Keys)
    ensures var run := Execution(PlanItems(entries, sel, order));
      forall i, j :: 0 <= i < j < |run| ==> MayPrecede(run[i], run[j])
  {
    PlansAreProper(entries, sel, order);
    OrdersAscend(entries, sel, order);
    ExecutionOrder(PlanItems(entries, sel, order));
  }
}
