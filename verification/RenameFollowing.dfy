/** References follow renames: within one stage, later objects name the copies that earlier items were renamed to. */
module RenameFollowing {
  import opened Basics
  import opened Plan
  import opened References
  import opened Restorer
  import Conflict
  import Stages

  /** What Apply says of item `i` of an uninterrupted stage. */
  function OutcomeOf(policy: Conflict.Policy, payload: Payload, w: World, items: seq<Item>, apis: seq<Api>,
                     i: nat): Outcome
    requires i < |items| == |apis|
  {
    Apply(policy, payload, RunTo(policy, payload, w, items, apis, i), items[i], apis[i]).outcome
  }

  function EffectsOf(policy: Conflict.Policy, payload: Payload, w: World, items: seq<Item>, apis: seq<Api>,
                     i: nat): seq<Effect>
    requires i < |items| == |apis|
  {
    Apply(policy, payload, RunTo(policy, payload, w, items, apis, i), items[i], apis[i]).effects
  }

  function RenamesAt(policy: Conflict.Policy, payload: Payload, w: World, items: seq<Item>, apis: seq<Api>,
                     n: nat): map<string, string>
    requires n <= |items| == |apis|
  {
    RunTo(policy, payload, w, items, apis, n).renames
  }

  lemma {:induction false} FreeNameNotEmpty(objects: Objects, gvr: string, namespace: string, base: string, i: nat)
    requires FreeName(objects, gvr, namespace, base, i).Available? && base != ""
    ensures FreeName(objects, gvr, namespace, base, i).name != ""
    decreases |SUFFIXES| - i
  {
    if i < |SUFFIXES| && Target(gvr, namespace, base + SUFFIXES[i]) in objects {
      FreeNameNotEmpty(objects, gvr, namespace, base, i + 1);
    }
  }

  /** One Apply changes the rename map at its own key at most, and only by renaming. */
  lemma ApplyRenames(policy: Conflict.Policy, payload: Payload, w: World, item: Item, api: Api)
    ensures var applied := Apply(policy, payload, w, item, api);
      if applied.outcome.Done? && applied.outcome.verb == Renamed
      then applied.renames == w.renames[RenameKeyOf(item) := applied.outcome.name] && applied.outcome.name != ""
      else applied.renames == w.renames
  {
    var base := item.targetName + "-restored";
    var free := FreeName(w.objects, item.gvr, item.targetNamespace, base, 0);
    if free.Available? {
      FreeNameNotEmpty(w.objects, item.gvr, item.targetNamespace, base, 0);
    }
  }

  lemma RenamesStep(policy: Conflict.Policy, payload: Payload, w: World, items: seq<Item>, apis: seq<Api>, n: nat)
    requires n < |items| == |apis|
    ensures var outcome := OutcomeOf(policy, payload, w, items, apis, n);
      var before, after := RenamesAt(policy, payload, w, items, apis, n),
        RenamesAt(policy, payload, w, items, apis, n + 1);
      if outcome.Done? && outcome.verb == Renamed then after == before[RenameKeyOf(items[n]) := outcome.name]
        && outcome.name != ""
      else after == before
  {
    ApplyRenames(policy, payload, RunTo(policy, payload, w, items, apis, n), items[n], apis[n]);
  }

  /** The rename map after item `n`, given the one before. */
  ghost predicate Recorded(maps: seq<map<string, string>>, outcomes: seq<Outcome>, items: seq<Item>, n: nat)
    requires n < |items| == |outcomes| && |maps| == |items| + 1
  {
    if outcomes[n].Done? && outcomes[n].verb == Renamed
    then maps[n + 1] == maps[n][RenameKeyOf(items[n]) := outcomes[n].name] && outcomes[n].name != ""
    else maps[n + 1] == maps[n]
  }

  lemma {:induction false} KeptThrough(maps: seq<map<string, string>>, outcomes: seq<Outcome>, items: seq<Item>, i: nat,
                                       j: nat, name: string)
    requires i < j <= |items| == |outcomes| && |maps| == |items| + 1
    requires forall n {:trigger Recorded(maps, outcomes, items, n)} :: 0 <= n < |items| ==>
      Recorded(maps, outcomes, items, n)
    requires outcomes[i] == Done(Renamed, name)
    requires forall k :: i < k < j ==> RenameKeyOf(items[k]) != RenameKeyOf(items[i])
    ensures name != "" && Lookup(maps[j], RenameKeyOf(items[i])) == name
  {
    assert Recorded(maps, outcomes, items, j - 1);
    if i < j - 1 {
      KeptThrough(maps, outcomes, items, i, j - 1, name);
    }
  }

  lemma RenameIsKept(policy: Conflict.Policy, payload: Payload, w: World, items: seq<Item>, apis: seq<Api>, i: nat,
                     j: nat, name: string)
    requires i < j <= |items| == |apis|
    requires OutcomeOf(policy, payload, w, items, apis, i) == Done(Renamed, name)
    requires forall k :: i < k < j ==> RenameKeyOf(items[k]) != RenameKeyOf(items[i])
    ensures name != ""
    ensures Lookup(RenamesAt(policy, payload, w, items, apis, j), RenameKeyOf(items[i])) == name
  {
    var maps := seq(|items| + 1, n requires 0 <= n <= |items| => RenamesAt(policy, payload, w, items, apis, n));
    var outcomes := seq(|items|, n requires 0 <= n < |items| => OutcomeOf(policy, payload, w, items, apis, n));
    forall n | 0 <= n < |items| ensures Recorded(maps, outcomes, items, n) {
      RenamesStep(policy, payload, w, items, apis, n);
    }
    KeptThrough(maps, outcomes, items, i, j, name);
  }

  // ---- keys ----

  ghost predicate NoSlash(s: string) {
    '/' !in s
  }

  lemma SlashInside(a: string, x: string, b: string, y: string)
    requires NoSlash(b) && |a| < |b|
    ensures a + "/" + x != b + "/" + y
  {
    var s, t := a + "/" + x, b + "/" + y;
    assert s[|a|] == '/' && t[|a|] == b[|a|] && b[|a|] in b;
  }

  lemma FirstPart(a: string, x: string, b: string, y: string)
    requires NoSlash(a) && NoSlash(b) && a + "/" + x == b + "/" + y
    ensures a == b && x == y
  {
    var s, t := a + "/" + x, b + "/" + y;
    if |a| < |b| {
      SlashInside(a, x, b, y);
    } else if |b| < |a| {
      SlashInside(b, y, a, x);
    } else {
      assert s[..|a|] == a && t[..|b|] == b && s[|a| + 1..] == x && t[|b| + 1..] == y;
    }
  }

  /** Without slashes in kinds and namespaces the rename key identifies kind, namespace and name. */
  lemma RenameKeyInjective(kind1: string, ns1: string, name1: string, kind2: string, ns2: string, name2: string)
    requires NoSlash(kind1) && NoSlash(kind2) && NoSlash(ns1) && NoSlash(ns2)
    ensures RenameKey(kind1, ns1, name1) == RenameKey(kind2, ns2, name2)
      <==> kind1 == kind2 && ns1 == ns2 && name1 == name2
  {
    if RenameKey(kind1, ns1, name1) == RenameKey(kind2, ns2, name2) {
      var rest1, rest2 := ns1 + "/" + name1, ns2 + "/" + name2;
      assert RenameKey(kind1, ns1, name1) == kind1 + "/" + rest1;
      assert RenameKey(kind2, ns2, name2) == kind2 + "/" + rest2;
      FirstPart(kind1, rest1, kind2, rest2);
      FirstPart(ns1, name1, ns2, name2);
    }
  }

  /** No slashes in kinds and namespaces, and no two objects of one kind share namespace and name. */
  ghost predicate KeyedItems(items: seq<Item>) {
    && (forall x :: x in items ==> NoSlash(x.kind) && NoSlash(x.targetNamespace))
    && (forall i, j :: 0 <= i < j < |items| ==>
          !(items[i].kind == items[j].kind && items[i].targetNamespace == items[j].targetNamespace
            && items[i].targetName == items[j].targetName))
  }

  lemma KeysDiffer(items: seq<Item>, i: nat, k: nat)
    requires KeyedItems(items) && i < k < |items|
    ensures RenameKeyOf(items[k]) != RenameKeyOf(items[i])
  {
    var x, y := items[i], items[k];
    assert x in items && y in items;
    RenameKeyInjective(x.kind, x.targetNamespace, x.targetName, y.kind, y.targetNamespace, y.targetName);
  }

  /** Everything Apply writes is the transformed, rewritten object. */
  lemma WritesPrepared(policy: Conflict.Policy, payload: Payload, w: World, item: Item, api: Api, e: Effect)
    requires e in Apply(policy, payload, w, item, api).effects && e.Put?
    ensures e.value == Prepared(payload, w.renames, item)
  {
  }

  /** Does the object of `item` hold, under `path` and `key`, a recognised reference to what item `x` restores? */
  ghost predicate RefersTo(payload: Payload, item: Item, x: Item, path: JsonPath, key: string) {
    && At(payload.body(item), path + [Key(key)]) == Found(String(x.targetName))
    && ReferencedKind(key, Context(path, "")) == x.kind != ""
    && item.targetNamespace == x.targetNamespace
  }

  lemma RenameKnown(policy: Conflict.Policy, payload: Payload, w: World, items: seq<Item>, apis: seq<Api>, i: nat,
                    j: nat, name: string)
    requires i < |items| == |apis| && j < |items|
    requires Stages.Ascending(items) && KeyedItems(items)
    requires items[i].order < items[j].order
    requires OutcomeOf(policy, payload, w, items, apis, i) == Done(Renamed, name)
    ensures name != "" && Lookup(RenamesAt(policy, payload, w, items, apis, j), RenameKeyOf(items[i])) == name
  {
    assert i < j;
    forall k | i < k < j ensures RenameKeyOf(items[k]) != RenameKeyOf(items[i]) {
      KeysDiffer(items, i, k);
    }
    RenameIsKept(policy, payload, w, items, apis, i, j, name);
  }

  lemma FollowsKnownRename(payload: Payload, renames: map<string, string>, item: Item, x: Item, name: string,
                           path: JsonPath, key: string)
    requires name != "" && Lookup(renames, RenameKeyOf(x)) == name
    requires forall item, v :: payload.transform(item, v) == v
    requires RefersTo(payload, item, x, path, key)
    ensures At(Prepared(payload, renames, item), path + [Key(key)]) == Found(String(name))
  {
    RenamedReference(payload.body(item), renames, item.targetNamespace, path, key, x.targetName);
  }

  /**
   In an uninterrupted stage that transforms nothing, an object written for an item of higher order names, in every
   recognised reference to a renamed object, the renamed copy.
   */
  lemma ReferencesFollowRenames(policy: Conflict.Policy, payload: Payload, w: World, items: seq<Item>, apis: seq<Api>,
                                i: nat, j: nat, name: string, e: Effect, path: JsonPath, key: string)
    requires i < |items| == |apis| && j < |items|
    requires Stages.Ascending(items) && KeyedItems(items)
    requires items[i].order < items[j].order
    requires OutcomeOf(policy, payload, w, items, apis, i) == Done(Renamed, name)
    requires forall item, v :: payload.transform(item, v) == v
    requires e in EffectsOf(policy, payload, w, items, apis, j) && e.Put?
    requires RefersTo(payload, items[j], items[i], path, key)
    ensures At(e.value, path + [Key(key)]) == Found(String(name))
  {
    RenameKnown(policy, payload, w, items, apis, i, j, name);
    WritesPrepared(policy, payload, RunTo(policy, payload, w, items, apis, j), items[j], apis[j], e);
    FollowsKnownRename(payload, RenamesAt(policy, payload, w, items, apis, j), items[j], items[i], name, path, key);
  }
}
