/**
 The restore plan: one item per selected index entry, synthetic items for missing target namespaces, sorted,
 and later cut into four stages.
 */
module Plan {
  import opened Sorting
  import Conflict

  datatype Dependency = Dependency(kind: string, namespace: string, name: string)

  datatype IndexEntry = IndexEntry(
    gvr: string, apiVersion: string, kind: string, namespace: string, name: string, file: string,
    dependencies: seq<Dependency>)

  datatype Selection = Selection(
    included: set<string>, excluded: set<string>, includeClusterResources: bool,
    namespaceMapping: map<string, string>, restorePVC: bool, metadataOnly: bool)

  datatype Validation = Pending | Synthetic

  datatype Item = Item(
    order: int, gvr: string, sourceNamespace: string, targetNamespace: string, sourceName: string, targetName: string,
    kind: string, apiVersion: string, file: string, dependencies: seq<string>, validation: Validation)

  const NAMESPACE := "Namespace"
  const CRD := "CustomResourceDefinition"
  const PVC := "PersistentVolumeClaim"

  function RestoreOrder(kind: string): (order: int)
    ensures order >= 10
    ensures order == 10 <==> kind == NAMESPACE
    ensures order <= 20 <==> kind == NAMESPACE || kind == CRD
  {
    if kind == NAMESPACE then 10
    else if kind == CRD then 20
    else if kind in {"StorageClass", "VolumeSnapshotClass", "PriorityClass", "ClusterRole", "ClusterRoleBinding"}
      then 30
    else if kind == "ServiceAccount" then 40
    else if kind == "Secret" then 50
    else if kind == "ConfigMap" then 60
    else if kind == "Role" then 70
    else if kind == "RoleBinding" then 80
    else if kind == PVC then 90
    else if kind == "Service" then 100
    else if kind == "Deployment" then 110
    else if kind == "StatefulSet" then 120
    else if kind == "DaemonSet" then 130
    else if kind == "Job" then 140
    else if kind == "CronJob" then 150
    else if kind == "Ingress" then 160
    else if kind == "NetworkPolicy" then 170
    else if kind == "PodDisruptionBudget" then 180
    else if kind == "HorizontalPodAutoscaler" then 190
    else 200
  }

  predicate MatchesSet(s: set<string>, value: string) {
    "*" in s || value in s || Conflict.Short(value) in s
  }

  /** The namespace mapping, else the identity. */
  function Mapped(mapping: map<string, string>, name: string): string {
    if name in mapping then mapping[name] else name
  }

  predicate Selected(e: IndexEntry, sel: Selection) {
    && !(e.kind == PVC && (!sel.restorePVC || sel.metadataOnly))
    && (sel.included == {} || MatchesSet(sel.included, e.gvr))
    && !MatchesSet(sel.excluded, e.gvr)
    && !(e.namespace == "" && e.kind != NAMESPACE && !sel.includeClusterResources)
  }

  function DependencyNames(deps: seq<Dependency>): seq<string> {
    seq(|deps|, i requires 0 <= i < |deps| => deps[i].kind + "/" + deps[i].namespace + "/" + deps[i].name)
  }

  function ItemOf(e: IndexEntry, sel: Selection): Item {
    Item(RestoreOrder(e.kind), e.gvr, e.namespace, Mapped(sel.namespaceMapping, e.namespace), e.name,
         if e.kind == NAMESPACE then Mapped(sel.namespaceMapping, e.name) else e.name,
         e.kind, e.apiVersion, e.file, DependencyNames(e.dependencies), Pending)
  }

  function RealItems(entries: seq<IndexEntry>, sel: Selection): seq<Item> {
    if entries == [] then []
    else
      var init, last := RealItems(entries[..|entries| - 1], sel), entries[|entries| - 1];
      if Selected(last, sel) then init + [ItemOf(last, sel)] else init
  }

  /** Every namespace an entry lives in, selected or not, with its target. */
  function NamespaceTargets(entries: seq<IndexEntry>, sel: Selection): map<string, string> {
    map e | e in entries && e.namespace != "" :: e.namespace := Mapped(sel.namespaceMapping, e.namespace)
  }

  function NamespacesPresent(items: seq<Item>): set<string> {
    set item | item in items && item.kind == NAMESPACE :: item.targetName
  }

  function SyntheticItem(source: string, target: string): Item {
    Item(RestoreOrder(NAMESPACE), "namespaces", "", "", source, target, NAMESPACE, "v1", "", [], Synthetic)
  }

  function SyntheticItems(order: seq<string>, targets: map<string, string>, present: set<string>): seq<Item>
    requires forall s :: s in order ==> s in targets
  {
    if order == [] then []
    else
      var init, last := SyntheticItems(order[..|order| - 1], targets, present), order[|order| - 1];
      if targets[last] in present then init else init + [SyntheticItem(last, targets[last])]
  }

  function SortKey(item: Item): string {
    item.gvr + "/" + item.targetNamespace + "/" + item.targetName
  }

  predicate ItemLess(a: Item, b: Item) {
    a.order < b.order || (a.order == b.order && StringLess(SortKey(a), SortKey(b)))
  }

  function Unsorted(entries: seq<IndexEntry>, sel: Selection, order: seq<string>): seq<Item>
    requires forall s :: s in order ==> s in NamespaceTargets(entries, sel)
  {
    var selected := RealItems(entries, sel);
    selected + SyntheticItems(order, NamespaceTargets(entries, sel), NamespacesPresent(selected))
  }

  /** The plan when the map of namespace targets is iterated in `order`. */
  function PlanItems(entries: seq<IndexEntry>, sel: Selection, order: seq<string>): seq<Item>
    requires forall s :: s in order ==> s in NamespaceTargets(entries, sel)
  {
    Sort(Unsorted(entries, sel, order), ItemLess)
  }

  /** BuildPlan, with Go's unspecified map iteration as a free choice of the next key. */
  method BuildPlan(entries: seq<IndexEntry>, sel: Selection) returns (items: seq<Item>)
    ensures exists order ::
      Enumerates(order, NamespaceTargets(entries, sel).Keys) && items == PlanItems(entries, sel, order)
  {
    var targets;
    items, targets := CollectItems(entries, sel);
    var synthetic;
    ghost var order;
    synthetic, order := AddNamespaces(targets, NamespacesPresent(items));
    items := Sort(items + synthetic, ItemLess);
  }

  lemma ItemsGrow(entries: seq<IndexEntry>, sel: Selection, i: nat)
    requires i < |entries|
    ensures RealItems(entries[..i + 1], sel)
      == RealItems(entries[..i], sel) + (if Selected(entries[i], sel) then [ItemOf(entries[i], sel)] else [])
  {
    assert entries[..i + 1][..i] == entries[..i];
  }

  lemma TargetsGrow(entries: seq<IndexEntry>, last: IndexEntry, sel: Selection)
    ensures NamespaceTargets(entries + [last], sel) ==
      if last.namespace == "" then NamespaceTargets(entries, sel)
      else NamespaceTargets(entries, sel)[last.namespace := Mapped(sel.namespaceMapping, last.namespace)]
  {
    assert forall e :: e in entries + [last] <==> e in entries || e == last;
  }

  method CollectItems(entries: seq<IndexEntry>, sel: Selection) returns (items: seq<Item>, targets: map<string, string>)
    ensures items == RealItems(entries, sel) && targets == NamespaceTargets(entries, sel)
  {
    items, targets := [], map[];
    var i := 0;
    while i < |entries|
      invariant 0 <= i <= |entries|
      invariant items == RealItems(entries[..i], sel)
      invariant targets == NamespaceTargets(entries[..i], sel)
    {
      var e := entries[i];
      ItemsGrow(entries, sel, i);
      TargetsGrow(entries[..i], e, sel);
      assert entries[..i + 1] == entries[..i] + [e];
      if e.namespace != "" {
        targets := targets[e.namespace := Mapped(sel.namespaceMapping, e.namespace)];
      }
      if Selected(e, sel) {
        items := items + [ItemOf(e, sel)];
      }
      i := i + 1;
    }
    assert entries[..i] == entries;
  }

  method AddNamespaces(targets: map<string, string>, present: set<string>)
    returns (items: seq<Item>, ghost order: seq<string>)
    ensures Enumerates(order, targets.Keys)
    ensures items == SyntheticItems(order, targets, present)
  {
    items, order := [], [];
    var todo := targets.Keys;
    while todo != {}
      invariant todo <= targets.Keys
      invariant Enumerates(order, targets.Keys - todo)
      invariant items == SyntheticItems(order, targets, present)
      decreases todo
    {
      var source :| source in todo;
      assert (order + [source])[..|order|] == order;
      order := order + [source];
      if targets[source] !in present {
        items := items + [SyntheticItem(source, targets[source])];
      }
      todo := todo - {source};
    }
    assert targets.Keys - todo == targets.Keys;
  }

  lemma ItemOrder()
    ensures StrictWeakOrder(ItemLess)
  {
    StringOrder();
    forall x: Item, y: Item, z: Item | !ItemLess(x, y) && !ItemLess(y, z) ensures !ItemLess(x, z) {
      if x.order == y.order == z.order {
        assert !StringLess(SortKey(x), SortKey(y)) && !StringLess(SortKey(y), SortKey(z));
      }
    }
    forall x: Item, y: Item, z: Item | ItemLess(x, y) && ItemLess(y, z) ensures ItemLess(x, z) {
      if x.order == y.order == z.order {
        assert StringLess(SortKey(x), SortKey(y)) && StringLess(SortKey(y), SortKey(z));
      }
    }
  }

  // ---- when the plan does not depend on map iteration ----

  /** The namespaces that get a synthetic item. */
  predicate NeedsSynthetic(source: string, targets: map<string, string>, present: set<string>) {
    source in targets && targets[source] !in present
  }

  /** No two of them have the same target. */
  ghost predicate SyntheticTargetsDistinct(targets: map<string, string>, present: set<string>) {
    forall s, t ::
      NeedsSynthetic(s, targets, present) && NeedsSynthetic(t, targets, present) && targets[s] == targets[t] ==> s == t
  }

  lemma {:induction false} SyntheticMembers(order: seq<string>, targets: map<string, string>, present: set<string>,
                                            item: Item)
    requires forall s :: s in order ==> s in targets
    ensures item in SyntheticItems(order, targets, present) <==>
      && item.sourceName in order && NeedsSynthetic(item.sourceName, targets, present)
      && item == SyntheticItem(item.sourceName, targets[item.sourceName])
  {
    if order != [] {
      SyntheticMembers(order[..|order| - 1], targets, present, item);
      assert order == order[..|order| - 1] + [order[|order| - 1]];
    }
  }

  lemma {:induction false} SyntheticCounts(order: seq<string>, targets: map<string, string>, present: set<string>,
                                           item: Item)
    requires Distinct(order) && forall s :: s in order ==> s in targets
    ensures multiset(SyntheticItems(order, targets, present))[item] ==
      if item in SyntheticItems(order, targets, present) then 1 else 0
  {
    if order != [] {
      var init := order[..|order| - 1];
      SyntheticCounts(init, targets, present, item);
      SyntheticMembers(init, targets, present, item);
    }
  }

  lemma {:induction false} ConcatSuffixInjective(prefix: string, a: string, b: string)
    ensures prefix + a == prefix + b ==> a == b
  {
    assert (prefix + a)[|prefix|..] == a;
    assert (prefix + b)[|prefix|..] == b;
  }

  lemma SyntheticKeys(s: string, a: string, t: string, b: string)
    ensures SortKey(SyntheticItem(s, a)) == SortKey(SyntheticItem(t, b)) <==> a == b
  {
    ConcatSuffixInjective("namespaces" + "/" + "" + "/", a, b);
  }

  /** Synthetic items tie exactly when their targets coincide. */
  lemma SyntheticTies(s: string, a: string, t: string, b: string)
    ensures !ItemLess(SyntheticItem(s, a), SyntheticItem(t, b)) && !ItemLess(SyntheticItem(t, b), SyntheticItem(s, a))
      <==> a == b
  {
    SyntheticKeys(s, a, t, b);
    StringTrichotomy(SortKey(SyntheticItem(s, a)), SortKey(SyntheticItem(t, b)));
  }

  lemma SyntheticNeverTie(order: seq<string>, targets: map<string, string>, present: set<string>)
    requires Distinct(order) && forall s :: s in order ==> s in targets
    requires SyntheticTargetsDistinct(targets, present)
    ensures NoTies(SyntheticItems(order, targets, present), ItemLess)
    ensures Distinct(SyntheticItems(order, targets, present))
  {
    var items := SyntheticItems(order, targets, present);
    forall y, z | y in items && z in items && !ItemLess(y, z) && !ItemLess(z, y) ensures y == z {
      SyntheticMembers(order, targets, present, y);
      SyntheticMembers(order, targets, present, z);
      SyntheticTies(y.sourceName, y.targetName, z.sourceName, z.targetName);
    }
    forall i, j | 0 <= i < j < |items| ensures items[i] != items[j] {
      if items[i] == items[j] {
        CountAtLeastTwo(items, i, j);
        SyntheticCounts(order, targets, present, items[i]);
      }
    }
  }

  lemma SameSyntheticMultiset(a: seq<string>, b: seq<string>, targets: map<string, string>, present: set<string>)
    requires Enumerates(a, targets.Keys) && Enumerates(b, targets.Keys)
    ensures multiset(SyntheticItems(a, targets, present)) == multiset(SyntheticItems(b, targets, present))
  {
    var sa, sb := SyntheticItems(a, targets, present), SyntheticItems(b, targets, present);
    forall y ensures multiset(sa)[y] == multiset(sb)[y] {
      SyntheticCounts(a, targets, present, y);
      SyntheticCounts(b, targets, present, y);
      SyntheticMembers(a, targets, present, y);
      SyntheticMembers(b, targets, present, y);
    }
  }

  lemma DeterministicIfDistinct(entries: seq<IndexEntry>, sel: Selection, a: seq<string>, b: seq<string>)
    requires Enumerates(a, NamespaceTargets(entries, sel).Keys) && Enumerates(b, NamespaceTargets(entries, sel).Keys)
    requires SyntheticTargetsDistinct(NamespaceTargets(entries, sel), NamespacesPresent(RealItems(entries, sel)))
    ensures PlanItems(entries, sel, a) == PlanItems(entries, sel, b)
  {
    var selected := RealItems(entries, sel);
    var targets, present := NamespaceTargets(entries, sel), NamespacesPresent(selected);
    ItemOrder();
    SameSyntheticMultiset(a, b, targets, present);
    SyntheticNeverTie(a, targets, present);
    SortIgnoresTailOrder(selected, SyntheticItems(a, targets, present), SyntheticItems(b, targets, present), ItemLess);
  }

  lemma {:induction false} EnumerationExists(keys: set<string>) returns (order: seq<string>)
    ensures Enumerates(order, keys)
    decreases keys
  {
    order := [];
    if keys != {} {
      var k :| k in keys;
      var rest := EnumerationExists(keys - {k});
      order := rest + [k];
    }
  }

  lemma {:induction false} SyntheticConcat(a: seq<string>, b: seq<string>, targets: map<string, string>,
                                           present: set<string>)
    requires forall s :: s in a || s in b ==> s in targets
    ensures forall s :: s in a + b ==> s in targets
    ensures SyntheticItems(a + b, targets, present)
      == SyntheticItems(a, targets, present) + SyntheticItems(b, targets, present)
    decreases |b|
  {
    if b == [] {
      assert a + b == a;
    } else {
      assert (a + b)[..|a + b| - 1] == a + b[..|b| - 1];
      SyntheticConcat(a, b[..|b| - 1], targets, present);
    }
  }

  /** An enumeration that starts with `s` lists it first among the synthetic items of its class. */
  lemma FirstOfClass(entries: seq<IndexEntry>, sel: Selection, s: string, rest: seq<string>, x: Item)
    requires forall k :: k in [s] + rest ==> k in NamespaceTargets(entries, sel)
    requires NeedsSynthetic(s, NamespaceTargets(entries, sel), NamespacesPresent(RealItems(entries, sel)))
    requires x == SyntheticItem("", NamespaceTargets(entries, sel)[s])
    ensures var n := |Ties(RealItems(entries, sel), x, ItemLess)|;
      var ties := Ties(PlanItems(entries, sel, [s] + rest), x, ItemLess);
      |ties| > n && ties[n] == SyntheticItem(s, NamespaceTargets(entries, sel)[s])
  {
    var selected := RealItems(entries, sel);
    var targets, present := NamespaceTargets(entries, sel), NamespacesPresent(selected);
    var y := SyntheticItem(s, targets[s]);
    ItemOrder();
    SyntheticConcat([s], rest, targets, present);
    assert SyntheticItems([s], targets, present) == [y];
    SyntheticTies("", targets[s], s, targets[s]);
    TieBehindFront(selected, y, SyntheticItems(rest, targets, present), x, ItemLess);
  }

  lemma PutInFront(keys: set<string>, s: string, t: string, rest: seq<string>)
    requires s in keys && t in keys && s != t && Enumerates(rest, keys - {s, t})
    ensures Enumerates([s] + ([t] + rest), keys)
  {
    var all := [s] + ([t] + rest);
    assert forall k :: k in rest ==> k != s && k != t;
    assert forall k :: k in all <==> k == s || k == t || k in rest;
  }

  lemma TwoOrders(entries: seq<IndexEntry>, sel: Selection, s: string, t: string)
    returns (a: seq<string>, b: seq<string>)
    requires var targets, present := NamespaceTargets(entries, sel), NamespacesPresent(RealItems(entries, sel));
      s != t && NeedsSynthetic(s, targets, present) && NeedsSynthetic(t, targets, present) && targets[s] == targets[t]
    ensures Enumerates(a, NamespaceTargets(entries, sel).Keys) && Enumerates(b, NamespaceTargets(entries, sel).Keys)
    ensures PlanItems(entries, sel, a) != PlanItems(entries, sel, b)
  {
    var keys := NamespaceTargets(entries, sel).Keys;
    var rest := EnumerationExists(keys - {s, t});
    a, b := [s] + ([t] + rest), [t] + ([s] + rest);
    PutInFront(keys, s, t, rest);
    PutInFront(keys, t, s, rest);
    var x := SyntheticItem("", NamespaceTargets(entries, sel)[s]);
    FirstOfClass(entries, sel, s, [t] + rest, x);
    FirstOfClass(entries, sel, t, [s] + rest, x);
  }

  /**
   The plan, and so its hash, is the same for every map iteration order exactly when no two namespaces that
   need a synthetic item share a target. Nothing is assumed of the index or of the mapping.
   */
  lemma PlanDeterministicIff(entries: seq<IndexEntry>, sel: Selection)
    ensures (forall a, b ::
        Enumerates(a, NamespaceTargets(entries, sel).Keys) && Enumerates(b, NamespaceTargets(entries, sel).Keys)
        ==> PlanItems(entries, sel, a) == PlanItems(entries, sel, b))
      <==> SyntheticTargetsDistinct(NamespaceTargets(entries, sel), NamespacesPresent(RealItems(entries, sel)))
  {
    var targets, present := NamespaceTargets(entries, sel), NamespacesPresent(RealItems(entries, sel));
    if SyntheticTargetsDistinct(targets, present) {
      forall a, b | Enumerates(a, targets.Keys) && Enumerates(b, targets.Keys)
        ensures PlanItems(entries, sel, a) == PlanItems(entries, sel, b)
      {
        DeterministicIfDistinct(entries, sel, a, b);
      }
    } else {
      var s, t :| NeedsSynthetic(s, targets, present) && NeedsSynthetic(t, targets, present) && targets[s] == targets[t]
        && s != t;
      var a, b := TwoOrders(entries, sel, s, t);
    }
  }

  /** ConfigMaps in namespaces `a` and `b`, and a restore that maps `a` to `b`. */
  const MERGED_ENTRIES: seq<IndexEntry> := [
    IndexEntry("configmaps", "v1", "ConfigMap", "a", "x", "x.json", []),
    IndexEntry("configmaps", "v1", "ConfigMap", "b", "y", "y.json", [])]

  const MERGING := Selection({}, {}, false, map["a" := "b"], false, false)

  /** The mapping passes validation, and the plan depends on which of the two namespaces is iterated first. */
  lemma MergedNamespacesDiffer() returns (first: seq<string>, second: seq<string>)
    ensures ValidMapping(MERGING.namespaceMapping)
    ensures Enumerates(first, NamespaceTargets(MERGED_ENTRIES, MERGING).Keys)
    ensures Enumerates(second, NamespaceTargets(MERGED_ENTRIES, MERGING).Keys)
    ensures PlanItems(MERGED_ENTRIES, MERGING, first) != PlanItems(MERGED_ENTRIES, MERGING, second)
  {
    MergedTargets();
    NoNamespaceItems(MERGED_ENTRIES, MERGING);
    first, second := TwoOrders(MERGED_ENTRIES, MERGING, "a", "b");
  }

  lemma MergedTargets()
    ensures NamespaceTargets(MERGED_ENTRIES, MERGING) == map["a" := "b", "b" := "b"]
    ensures forall e :: e in MERGED_ENTRIES ==> e.kind != NAMESPACE
  {
    assert MERGED_ENTRIES[0] in MERGED_ENTRIES && MERGED_ENTRIES[1] in MERGED_ENTRIES;
    assert MERGED_ENTRIES[0].namespace == "a" && MERGED_ENTRIES[1].namespace == "b";
    assert forall e :: e in MERGED_ENTRIES ==> e == MERGED_ENTRIES[0] || e == MERGED_ENTRIES[1];
    assert |"ConfigMap"| == 9 && |NAMESPACE| == 9 && "ConfigMap"[0] == 'C' && NAMESPACE[0] == 'N';
  }

  lemma NoNamespaceItems(entries: seq<IndexEntry>, sel: Selection)
    requires forall e :: e in entries ==> e.kind != NAMESPACE
    ensures NamespacesPresent(RealItems(entries, sel)) == {}
  {
    forall item | item in RealItems(entries, sel) ensures item.kind != NAMESPACE {
      RealMember(entries, sel, item);
    }
  }

  // ---- what the sorted plan guarantees ----

  /** The collector's index: scopes fit kinds, a resource has one kind, and entries are distinct objects. */
  ghost predicate WellFormedIndex(entries: seq<IndexEntry>) {
    && (forall e :: e in entries ==>
          && (e.kind == NAMESPACE || e.kind == CRD ==> e.namespace == "")
          && (e.kind == PVC ==> e.namespace != "")
          && (e.gvr == "namespaces" <==> e.kind == NAMESPACE))
    && (forall e, f :: e in entries && f in entries && e.gvr == f.gvr ==> e.kind == f.kind)
    && (forall i, j :: 0 <= i < j < |entries| ==>
          !(entries[i].gvr == entries[j].gvr && entries[i].namespace == entries[j].namespace
            && entries[i].name == entries[j].name))
  }

  /** What ValidateNamespaceMapping accepts. */
  ghost predicate ValidMapping(mapping: map<string, string>) {
    && "" !in mapping && "" !in mapping.Values
    && forall a, b :: a in mapping && b in mapping && mapping[a] == mapping[b] ==> a == b
  }

  method ValidateNamespaceMapping(mapping: map<string, string>) returns (ok: bool)
    ensures ok <==> ValidMapping(mapping)
  {
    var seen: map<string, string> := map[];
    var todo := mapping.Keys;
    while todo != {}
      invariant todo <= mapping.Keys
      invariant forall t :: t in seen ==> seen[t] in mapping && seen[t] !in todo && mapping[seen[t]] == t
      invariant forall s :: s in mapping && s !in todo ==>
        s != "" && mapping[s] != "" && mapping[s] in seen && seen[mapping[s]] == s
      decreases todo
    {
      var source :| source in todo;
      var target := mapping[source];
      if source == "" || target == "" {
        assert target in mapping.Values;
        return false;
      }
      if target in seen && seen[target] != source {
        return false;
      }
      seen := seen[target := source];
      todo := todo - {source};
    }
    return true;
  }

  /** The namespaces the index mentions, as homes or as Namespace objects. */
  ghost predicate Mentions(entries: seq<IndexEntry>, ns: string) {
    exists e :: e in entries && (e.namespace == ns || (e.kind == NAMESPACE && e.name == ns))
  }

  ghost predicate InjectiveMapping(entries: seq<IndexEntry>, sel: Selection) {
    forall a, b :: Mentions(entries, a) && Mentions(entries, b) ==>
      Mapped(sel.namespaceMapping, a) == Mapped(sel.namespaceMapping, b) ==> a == b
  }

  /** The object an item is applied to. */
  datatype Target = Target(gvr: string, namespace: string, name: string)

  function TargetOf(item: Item): Target {
    Target(item.gvr, item.targetNamespace, item.targetName)
  }

  ghost predicate DistinctTargets(items: seq<Item>) {
    Distinct(items) && forall x, y :: x in items && y in items && TargetOf(x) == TargetOf(y) ==> x == y
  }

  lemma {:induction false} RealMember(entries: seq<IndexEntry>, sel: Selection, item: Item)
    ensures item in RealItems(entries, sel) <==> exists e :: e in entries && Selected(e, sel) && item == ItemOf(e, sel)
  {
    if entries != [] {
      var init, last := entries[..|entries| - 1], entries[|entries| - 1];
      assert entries == init + [last];
      RealMember(init, sel, item);
    }
  }

  lemma PlanMembers(entries: seq<IndexEntry>, sel: Selection, order: seq<string>)
    requires forall s :: s in order ==> s in NamespaceTargets(entries, sel)
    ensures multiset(PlanItems(entries, sel, order)) == multiset(Unsorted(entries, sel, order))
    ensures SortedBy(PlanItems(entries, sel, order), ItemLess)
    ensures forall x :: x in PlanItems(entries, sel, order) <==>
      x in RealItems(entries, sel)
      || x in SyntheticItems(order, NamespaceTargets(entries, sel), NamespacesPresent(RealItems(entries, sel)))
  {
    ItemOrder();
    SortFacts(Unsorted(entries, sel, order), ItemLess);
    SameElements(Unsorted(entries, sel, order), PlanItems(entries, sel, order));
  }

  /** The Namespace item for a target namespace, real or synthetic. */
  lemma NamespaceItemFor(entries: seq<IndexEntry>, sel: Selection, order: seq<string>, source: string)
    returns (ns: Item)
    requires WellFormedIndex(entries) && "" !in sel.namespaceMapping
    requires Enumerates(order, NamespaceTargets(entries, sel).Keys) && source in NamespaceTargets(entries, sel)
    ensures ns in PlanItems(entries, sel, order)
    ensures ns.kind == NAMESPACE && ns.order == 10 && ns.targetNamespace == ""
      && ns.targetName == NamespaceTargets(entries, sel)[source]
  {
    var selected := RealItems(entries, sel);
    var targets, present := NamespaceTargets(entries, sel), NamespacesPresent(selected);
    PlanMembers(entries, sel, order);
    if targets[source] in present {
      ns :| ns in selected && ns.kind == NAMESPACE && ns.targetName == targets[source];
      RealMember(entries, sel, ns);
    } else {
      ns := SyntheticItem(source, targets[source]);
      SyntheticMembers(order, targets, present, ns);
    }
  }

  /** An item with a target namespace comes from a namespaced entry that is not a Namespace. */
  lemma NamespacedItem(entries: seq<IndexEntry>, sel: Selection, order: seq<string>, item: Item)
    returns (source: string)
    requires WellFormedIndex(entries) && "" !in sel.namespaceMapping
    requires forall s :: s in order ==> s in NamespaceTargets(entries, sel)
    requires item in PlanItems(entries, sel, order) && item.targetNamespace != ""
    ensures source in NamespaceTargets(entries, sel) && NamespaceTargets(entries, sel)[source] == item.targetNamespace
    ensures item.order > 10
  {
    PlanMembers(entries, sel, order);
    RealMember(entries, sel, item);
    SyntheticMembers(order, NamespaceTargets(entries, sel), NamespacesPresent(RealItems(entries, sel)), item);
    var e :| e in entries && Selected(e, sel) && item == ItemOf(e, sel);
    source := e.namespace;
  }

  /** Every namespaced item is preceded by the Namespace item it needs. */
  lemma NamespaceComesFirst(entries: seq<IndexEntry>, sel: Selection, order: seq<string>, j: nat)
    requires WellFormedIndex(entries) && "" !in sel.namespaceMapping
    requires Enumerates(order, NamespaceTargets(entries, sel).Keys)
    requires j < |PlanItems(entries, sel, order)| && PlanItems(entries, sel, order)[j].targetNamespace != ""
    ensures exists i ::
      && 0 <= i < j
      && PlanItems(entries, sel, order)[i].kind == NAMESPACE
      && PlanItems(entries, sel, order)[i].targetName == PlanItems(entries, sel, order)[j].targetNamespace
  {
    var items := PlanItems(entries, sel, order);
    assert items[j] in items;
    var source := NamespacedItem(entries, sel, order, items[j]);
    var ns := NamespaceItemFor(entries, sel, order, source);
    PlanMembers(entries, sel, order);
    var i := LowerOrderIsEarlier(items, ns, j);
  }

  lemma LowerOrderIsEarlier(items: seq<Item>, x: Item, j: nat) returns (i: nat)
    requires SortedBy(items, ItemLess) && x in items && j < |items| && x.order < items[j].order
    ensures i < j && items[i] == x
  {
    i :| 0 <= i < |items| && items[i] == x;
    assert ItemLess(items[i], items[j]);
  }

  /** Plan order respects the restore order of kinds. */
  lemma OrdersAscend(entries: seq<IndexEntry>, sel: Selection, order: seq<string>)
    requires forall s :: s in order ==> s in NamespaceTargets(entries, sel)
    ensures var items := PlanItems(entries, sel, order);
      && (forall i, j :: 0 <= i < j < |items| ==> items[i].order <= items[j].order)
      && (forall x :: x in items ==> x.order == RestoreOrder(x.kind))
  {
    var items := PlanItems(entries, sel, order);
    PlanMembers(entries, sel, order);
    forall i, j | 0 <= i < j < |items| ensures items[i].order <= items[j].order {
      assert !ItemLess(items[j], items[i]);
    }
    forall x | x in items ensures x.order == RestoreOrder(x.kind) {
      RealMember(entries, sel, x);
      SyntheticMembers(order, NamespaceTargets(entries, sel), NamespacesPresent(RealItems(entries, sel)), x);
    }
  }

  lemma SameTargetSameEntry(entries: seq<IndexEntry>, sel: Selection, e: IndexEntry, f: IndexEntry)
    requires WellFormedIndex(entries) && InjectiveMapping(entries, sel)
    requires e in entries && f in entries && TargetOf(ItemOf(e, sel)) == TargetOf(ItemOf(f, sel))
    ensures e == f
  {
    assert Mentions(entries, e.namespace) && Mentions(entries, f.namespace);
    if e.kind == NAMESPACE {
      assert Mentions(entries, e.name) && Mentions(entries, f.name);
    }
    var i :| 0 <= i < |entries| && entries[i] == e;
    var j :| 0 <= j < |entries| && entries[j] == f;
    if i < j || j < i {
      assert e.gvr == f.gvr && e.namespace == f.namespace && e.name == f.name;
    }
  }

  lemma {:induction false} RealItemsDistinct(entries: seq<IndexEntry>, sel: Selection, n: nat)
    requires WellFormedIndex(entries) && InjectiveMapping(entries, sel) && n <= |entries|
    ensures Distinct(RealItems(entries[..n], sel))
  {
    if n > 0 {
      RealItemsDistinct(entries, sel, n - 1);
      var init, last := entries[..n - 1], entries[n - 1];
      assert entries[..n] == init + [last];
      RealMember(init, sel, ItemOf(last, sel));
      forall e | e in init ensures ItemOf(e, sel) != ItemOf(last, sel) {
        var k :| 0 <= k < n - 1 && init[k] == e;
        assert entries[k] == e && entries[n - 1] == last && e != last;
        if TargetOf(ItemOf(e, sel)) == TargetOf(ItemOf(last, sel)) {
          SameTargetSameEntry(entries, sel, e, last);
        }
      }
    }
  }

  /** No two items of a plan are applied to the same object. */
  lemma PlanTargetsDistinct(entries: seq<IndexEntry>, sel: Selection, order: seq<string>)
    requires WellFormedIndex(entries) && InjectiveMapping(entries, sel) && "" !in sel.namespaceMapping
    requires Enumerates(order, NamespaceTargets(entries, sel).Keys)
    ensures DistinctTargets(PlanItems(entries, sel, order))
  {
    PlanMembers(entries, sel, order);
    UnsortedDistinct(entries, sel, order);
    PermutationKeepsDistinct(Unsorted(entries, sel, order), PlanItems(entries, sel, order));
    SameElements(Unsorted(entries, sel, order), PlanItems(entries, sel, order));
  }

  lemma SourcesDistinct(entries: seq<IndexEntry>, sel: Selection)
    requires InjectiveMapping(entries, sel)
    ensures SyntheticTargetsDistinct(NamespaceTargets(entries, sel), NamespacesPresent(RealItems(entries, sel)))
  {
    var targets, present := NamespaceTargets(entries, sel), NamespacesPresent(RealItems(entries, sel));
    forall s, t | NeedsSynthetic(s, targets, present) && NeedsSynthetic(t, targets, present) && targets[s] == targets[t]
      ensures s == t {
      assert Mentions(entries, s) && Mentions(entries, t);
    }
  }

  lemma RealTargetsDiffer(entries: seq<IndexEntry>, sel: Selection, x: Item, y: Item)
    requires WellFormedIndex(entries) && InjectiveMapping(entries, sel)
    requires x in RealItems(entries, sel) && y in RealItems(entries, sel) && TargetOf(x) == TargetOf(y)
    ensures x == y
  {
    RealMember(entries, sel, x);
    RealMember(entries, sel, y);
    var e :| e in entries && Selected(e, sel) && x == ItemOf(e, sel);
    var f :| f in entries && Selected(f, sel) && y == ItemOf(f, sel);
    SameTargetSameEntry(entries, sel, e, f);
  }

  lemma SyntheticTargetsDiffer(order: seq<string>, targets: map<string, string>, present: set<string>, x: Item, y: Item)
    requires forall s :: s in order ==> s in targets
    requires SyntheticTargetsDistinct(targets, present)
    requires x in SyntheticItems(order, targets, present) && y in SyntheticItems(order, targets, present)
    requires TargetOf(x) == TargetOf(y)
    ensures x == y
  {
    SyntheticMembers(order, targets, present, x);
    SyntheticMembers(order, targets, present, y);
  }

  lemma UnsortedDistinct(entries: seq<IndexEntry>, sel: Selection, order: seq<string>)
    requires WellFormedIndex(entries) && InjectiveMapping(entries, sel) && "" !in sel.namespaceMapping
    requires Enumerates(order, NamespaceTargets(entries, sel).Keys)
    ensures DistinctTargets(Unsorted(entries, sel, order))
  {
    var selected := RealItems(entries, sel);
    var targets, present := NamespaceTargets(entries, sel), NamespacesPresent(selected);
    var synthetic := SyntheticItems(order, targets, present);
    RealItemsDistinct(entries, sel, |entries|);
    assert entries[..|entries|] == entries;
    SourcesDistinct(entries, sel);
    SyntheticNeverTie(order, targets, present);
    forall x, y | x in selected && y in synthetic ensures TargetOf(x) != TargetOf(y) {
      RealAndSyntheticDiffer(entries, sel, order, x, y);
    }
    forall x, y | x in selected && y in selected && TargetOf(x) == TargetOf(y) ensures x == y {
      RealTargetsDiffer(entries, sel, x, y);
    }
    forall x, y | x in synthetic && y in synthetic && TargetOf(x) == TargetOf(y) ensures x == y {
      SyntheticTargetsDiffer(order, targets, present, x, y);
    }
    DistinctTargetsConcat(selected, synthetic);
  }

  lemma DistinctTargetsConcat(a: seq<Item>, b: seq<Item>)
    requires DistinctTargets(a) && DistinctTargets(b)
    requires forall x, y :: x in a && y in b ==> TargetOf(x) != TargetOf(y)
    ensures DistinctTargets(a + b)
  {
    DistinctConcat(a, b);
    assert forall x :: x in a + b <==> x in a || x in b;
  }

  lemma DistinctConcat(a: seq<Item>, b: seq<Item>)
    requires Distinct(a) && Distinct(b) && forall x, y :: x in a && y in b ==> x != y
    ensures Distinct(a + b)
  {
    forall i, j | 0 <= i < j < |a + b| ensures (a + b)[i] != (a + b)[j] {
      if i < |a| <= j {
        assert a[i] in a && b[j - |a|] in b;
      }
    }
  }

  lemma RealAndSyntheticDiffer(entries: seq<IndexEntry>, sel: Selection, order: seq<string>, x: Item, y: Item)
    requires WellFormedIndex(entries) && Enumerates(order, NamespaceTargets(entries, sel).Keys)
    requires x in RealItems(entries, sel)
    requires y in SyntheticItems(order, NamespaceTargets(entries, sel), NamespacesPresent(RealItems(entries, sel)))
    ensures TargetOf(x) != TargetOf(y)
  {
    RealMember(entries, sel, x);
    SyntheticMembers(order, NamespaceTargets(entries, sel), NamespacesPresent(RealItems(entries, sel)), y);
    if x.kind == NAMESPACE {
      assert x.targetName in NamespacesPresent(RealItems(entries, sel));
    }
  }

  // ---- which entries are restored, and in which order ----

  /** A list of resources names `gvr` by the wildcard, in full, or by what stands before its first dot. */
  ghost predicate Names(list: set<string>, gvr: string) {
    "*" in list || gvr in list || exists short :: Conflict.IsShort(gvr, short) && short in list
  }

  lemma NamesIff(list: set<string>, gvr: string)
    ensures Names(list, gvr) <==> MatchesSet(list, gvr)
  {
    Conflict.ShortFacts(gvr, Conflict.Short(gvr));
    forall short ensures Conflict.IsShort(gvr, short) <==> short == Conflict.Short(gvr) {
      Conflict.ShortFacts(gvr, short);
    }
  }

  ghost predicate Wanted(e: IndexEntry, sel: Selection) {
    && (e.kind == "PersistentVolumeClaim" ==> sel.restorePVC && !sel.metadataOnly)
    && (sel.included != {} ==> Names(sel.included, e.gvr))
    && !Names(sel.excluded, e.gvr)
    && (e.namespace == "" && e.kind != "Namespace" ==> sel.includeClusterResources)
  }

  /** The item of an entry: the same object, in the namespace its own is mapped to. */
  ghost predicate ItemFor(item: Item, e: IndexEntry, sel: Selection) {
    var mapping := sel.namespaceMapping;
    && item.gvr == e.gvr && item.kind == e.kind && item.apiVersion == e.apiVersion && item.file == e.file
    && item.sourceNamespace == e.namespace && item.sourceName == e.name
    && item.targetNamespace == (if e.namespace in mapping then mapping[e.namespace] else e.namespace)
    && item.targetName == (if e.kind == "Namespace" && e.name in mapping then mapping[e.name] else e.name)
  }

  /** The items that are not synthetic are exactly those of the wanted entries. */
  lemma RestoredIff(entries: seq<IndexEntry>, sel: Selection, e: IndexEntry)
    requires e in entries
    ensures Wanted(e, sel) <==> exists item :: item in RealItems(entries, sel) && ItemFor(item, e, sel)
    ensures forall item :: item in RealItems(entries, sel) ==>
      exists f :: f in entries && Wanted(f, sel) && ItemFor(item, f, sel)
  {
    forall f ensures Selected(f, sel) <==> Wanted(f, sel) {
      NamesIff(sel.included, f.gvr);
      NamesIff(sel.excluded, f.gvr);
    }
    RealMember(entries, sel, ItemOf(e, sel));
    assert ItemFor(ItemOf(e, sel), e, sel);
    forall item | item in RealItems(entries, sel)
      ensures exists f :: f in entries && Wanted(f, sel) && ItemFor(item, f, sel)
      ensures ItemFor(item, e, sel) ==> Wanted(e, sel)
    {
      RealMember(entries, sel, item);
      var f :| f in entries && Selected(f, sel) && item == ItemOf(f, sel);
      assert ItemFor(item, f, sel);
    }
  }

  /** What a workload needs is restored before it. */
  const KINDS: seq<string> := [
    "Namespace", "CustomResourceDefinition", "StorageClass", "ServiceAccount", "Secret", "ConfigMap", "Role",
    "RoleBinding", "PersistentVolumeClaim", "Service", "Deployment", "StatefulSet", "DaemonSet", "Job", "CronJob",
    "Ingress", "NetworkPolicy", "PodDisruptionBudget", "HorizontalPodAutoscaler"]

  lemma OrderOfKind(a: nat)
    requires a < |KINDS|
    ensures RestoreOrder(KINDS[a]) == 10 * (a + 1)
  {
  }

  /** `x` stands before `y` in the list of kinds. */
  predicate KindBefore(x: string, y: string) {
    exists a, b :: 0 <= a < b < |KINDS| && KINDS[a] == x && KINDS[b] == y
  }

  lemma KindsAscend(x: string, y: string)
    requires KindBefore(x, y)
    ensures RestoreOrder(x) < RestoreOrder(y)
  {
    var a, b :| 0 <= a < b < |KINDS| && KINDS[a] == x && KINDS[b] == y;
    OrderOfKind(a);
    OrderOfKind(b);
  }

  lemma LowerOrderFirst(items: seq<Item>, i: nat, j: nat)
    requires forall k, m :: 0 <= k < m < |items| ==> items[k].order <= items[m].order
    requires i < |items| && j < |items| && items[i].order < items[j].order
    ensures i < j
  {
  }

  /** In every plan, items of an earlier kind stand before those of a later one. */
  lemma PlanFollowsKinds(entries: seq<IndexEntry>, sel: Selection, order: seq<string>, i: nat, j: nat)
    requires forall s :: s in order ==> s in NamespaceTargets(entries, sel)
    requires i < |PlanItems(entries, sel, order)| && j < |PlanItems(entries, sel, order)|
    requires KindBefore(PlanItems(entries, sel, order)[i].kind, PlanItems(entries, sel, order)[j].kind)
    ensures i < j
  {
    var items := PlanItems(entries, sel, order);
    OrdersAscend(entries, sel, order);
    KindsAscend(items[i].kind, items[j].kind);
    assert items[i] in items && items[j] in items;
    LowerOrderFirst(items, i, j);
  }
}
