/**
 Applying one plan item to the cluster. The cluster is a map from targets to objects. What the API server answers
 is an input, so every theorem holds for every server; the effects of one Apply are kept as a list, because the
 process may stop between any two of them.
 */
module Restorer {
  import opened Plan
  import opened References
  import Conflict

  type Objects = map<Target, Json>

  /** The decoded object of an item under its target name, and the stage's transformation of it. */
  datatype Payload = Payload(body: Item -> Json, transform: (Item, Json) -> Json)

  /** Answers to the calls one Apply may make. */
  datatype Api = Api(
    prepared: bool, // the object loads, its transformation and API mapping succeed, and the target can be read
    probed: bool,   // candidate names can be read
    creates: bool, updates: bool, deletes: bool,
    gone: bool)     // a deletion completes within the poll

  datatype Effect = Put(key: Target, value: Json) | Remove(key: Target)

  datatype Verb = Created | Updated | Recreated | Skipped | Renamed

  datatype Outcome = Done(verb: Verb, name: string) | Unresolved | Error

  datatype World = World(objects: Objects, renames: map<string, string>)

  datatype Applied = Applied(effects: seq<Effect>, renames: map<string, string>, outcome: Outcome)

  // ---- specification ----

  function Perform(objects: Objects, e: Effect): Objects {
    match e
    case Put(key, value) => objects[key := value]
    case Remove(key) => objects - {key}
  }

  function PerformAll(objects: Objects, effects: seq<Effect>): Objects
    decreases |effects|
  {
    if effects == [] then objects else PerformAll(Perform(objects, effects[0]), effects[1..])
  }

  lemma PerformFew(objects: Objects, e: Effect, f: Effect)
    ensures PerformAll(objects, [e]) == Perform(objects, e)
    ensures PerformAll(objects, [e, f]) == Perform(Perform(objects, e), f)
  {
    assert [e][1..] == [] && [e, f][1..] == [f] && [f][1..] == [];
    var first := Perform(objects, e);
    assert PerformAll(objects, [e, f]) == PerformAll(first, [f]);
    assert PerformAll(first, [f]) == PerformAll(Perform(first, f), []);
  }

  function Get(objects: Objects, key: Target): Found {
    if key in objects then Found(objects[key]) else Missing
  }

  lemma {:induction false} OtherKey(objects: Objects, effects: seq<Effect>, key: Target)
    requires forall e :: e in effects ==> e.key != key
    ensures Get(PerformAll(objects, effects), key) == Get(objects, key)
    decreases |effects|
  {
    if effects != [] {
      OtherKey(Perform(objects, effects[0]), effects[1..], key);
    }
  }

  const SUFFIXES: seq<string> := ["", "-2", "-3", "-4", "-5", "-6", "-7", "-8", "-9", "-10"]

  datatype Name = NoName | Available(name: string)

  /** The first of ten candidate names that is free. */
  function FreeName(objects: Objects, gvr: string, namespace: string, base: string, i: nat): (n: Name)
    ensures n.Available? ==> Target(gvr, namespace, n.name) !in objects
    decreases |SUFFIXES| - i
  {
    if i >= |SUFFIXES| then NoName
    else if Target(gvr, namespace, base + SUFFIXES[i]) !in objects then Available(base + SUFFIXES[i])
    else FreeName(objects, gvr, namespace, base, i + 1)
  }

  predicate Taken(objects: Objects, gvr: string, namespace: string, base: string, k: nat)
    requires k < |SUFFIXES|
  {
    Target(gvr, namespace, base + SUFFIXES[k]) in objects
  }

  /** It is the first candidate that is free, and there is none exactly when all ten are taken. */
  lemma {:induction false} FreeNameIff(objects: Objects, gvr: string, namespace: string, base: string, i: nat)
    returns (k: nat)
    ensures var n := FreeName(objects, gvr, namespace, base, i);
      && (n.NoName? <==> forall j :: i <= j < |SUFFIXES| ==> Taken(objects, gvr, namespace, base, j))
      && (n.Available? ==>
            i <= k < |SUFFIXES| && n.name == base + SUFFIXES[k] && !Taken(objects, gvr, namespace, base, k))
      && (n.Available? ==> forall j :: i <= j < k ==> Taken(objects, gvr, namespace, base, j))
    decreases |SUFFIXES| - i
  {
    k := i;
    if i < |SUFFIXES| && Taken(objects, gvr, namespace, base, i) {
      k := FreeNameIff(objects, gvr, namespace, base, i + 1);
    }
  }

  function RenameKeyOf(item: Item): string {
    RenameKey(item.kind, item.targetNamespace, item.targetName)
  }

  /** The object sent to the API server. */
  function Prepared(payload: Payload, renames: map<string, string>, item: Item): Json {
    payload.transform(item, Rewrite(payload.body(item), renames, item.targetNamespace, ""))
  }

  predicate MayRecreate(policy: Conflict.Policy, kind: string) {
    policy.allowRecreate && policy.highRiskConfirmed && Conflict.RecreateSupported(kind)
  }

  function Apply(policy: Conflict.Policy, payload: Payload, w: World, item: Item, api: Api): Applied {
    if !api.prepared then Applied([], w.renames, Error)
    else
      var key := TargetOf(item);
      var sent := Prepared(payload, w.renames, item);
      match Conflict.Resolve(policy, item.gvr, item.kind, key in w.objects)
      case Blocked => Applied([], w.renames, Unresolved)
      case Resolved(Create) =>
        if api.creates then Applied([Put(key, sent)], w.renames, Done(Created, item.targetName))
        else Applied([], w.renames, Error)
      case Resolved(Skip) => Applied([], w.renames, Done(Skipped, item.targetName))
      case Resolved(Overwrite) =>
        if api.updates then Applied([Put(key, sent)], w.renames, Done(Updated, item.targetName))
        else if !MayRecreate(policy, item.kind) || !api.deletes then Applied([], w.renames, Error)
        else if api.gone && api.creates then
          Applied([Remove(key), Put(key, sent)], w.renames, Done(Recreated, item.targetName))
        else Applied([Remove(key)], w.renames, Error)
      case Resolved(Rename) =>
        var free := FreeName(w.objects, item.gvr, item.targetNamespace, item.targetName + "-restored", 0);
        if !api.probed || free.NoName? || !api.creates then Applied([], w.renames, Error)
        else
          Applied([Put(Target(item.gvr, item.targetNamespace, free.name), sent)],
                  w.renames[RenameKeyOf(item) := free.name], Done(Renamed, free.name))
  }

  // ---- what one Apply leaves ----

  /** An absent target is created, whatever the policy. */
  lemma AbsentIsCreated(policy: Conflict.Policy, payload: Payload, w: World, item: Item, api: Api)
    requires api.prepared && TargetOf(item) !in w.objects
    ensures var applied := Apply(policy, payload, w, item, api);
      var sent := payload.transform(item, Rewrite(payload.body(item), w.renames, item.targetNamespace, ""));
      && applied.renames == w.renames
      && PerformAll(w.objects, applied.effects) ==
        (if api.creates then w.objects[TargetOf(item) := sent] else w.objects)
      && applied.outcome == if api.creates then Done(Created, item.targetName) else Error
  {
    PerformFew(w.objects, Put(TargetOf(item), Prepared(payload, w.renames, item)), Remove(TargetOf(item)));
  }

  /** What Overwrite leaves when the update is refused. */
  function Recreation(objects: Objects, key: Target, sent: Json, api: Api, allowed: bool): Objects {
    if !allowed || !api.deletes then objects
    else if api.gone && api.creates then objects[key := sent]
    else objects - {key}
  }

  /** A copy under a free name derived from the target's, and its rename recorded; or nothing. */
  ghost predicate RenamedOrUntouched(w: World, item: Item, sent: Json, left: Objects, applied: Applied) {
    if applied.outcome.Done? then
      var name := applied.outcome.name;
      && applied.outcome.verb == Renamed && item.targetName + "-restored" <= name
      && Target(item.gvr, item.targetNamespace, name) !in w.objects
      && left == w.objects[Target(item.gvr, item.targetNamespace, name) := sent]
      && applied.renames == w.renames[RenameKeyOf(item) := name]
    else left == w.objects && applied.outcome == Error
  }

  /** Under Skip an existing target is left alone; a word that is no policy, or cannot be followed, refuses. */
  lemma ExistingIsKept(policy: Conflict.Policy, payload: Payload, w: World, item: Item, api: Api, word: string)
    requires api.prepared && TargetOf(item) in w.objects && Conflict.Decides(policy, item.gvr, word)
    requires word != "Overwrite" && (word == "Rename" ==> !Conflict.RenameSupported(item.kind))
    ensures var applied := Apply(policy, payload, w, item, api);
      && PerformAll(w.objects, applied.effects) == w.objects && applied.renames == w.renames
      && applied.outcome == if word == "Skip" then Done(Skipped, item.targetName) else Unresolved
  {
    Conflict.DecidesIff(policy, item.gvr, word);
  }

  /** Under Overwrite it is replaced; where the update is refused, it is created anew if that is allowed. */
  lemma ExistingIsOverwritten(policy: Conflict.Policy, payload: Payload, w: World, item: Item, api: Api)
    requires api.prepared && TargetOf(item) in w.objects && Conflict.Decides(policy, item.gvr, "Overwrite")
    ensures var applied, key := Apply(policy, payload, w, item, api), TargetOf(item);
      var left := PerformAll(w.objects, applied.effects);
      var sent := payload.transform(item, Rewrite(payload.body(item), w.renames, item.targetNamespace, ""));
      var allowed := policy.allowRecreate && policy.highRiskConfirmed && Conflict.RecreateSupported(item.kind);
      && applied.renames == w.renames
      && (api.updates ==> left == w.objects[key := sent] && applied.outcome == Done(Updated, item.targetName))
      && (!api.updates ==> left == Recreation(w.objects, key, sent, api, allowed))
      && (!api.updates ==>
            applied.outcome ==
            if allowed && api.deletes && api.gone && api.creates then Done(Recreated, item.targetName) else Error)
  {
    var key, sent := TargetOf(item), Prepared(payload, w.renames, item);
    Conflict.DecidesIff(policy, item.gvr, "Overwrite");
    PerformFew(w.objects, Put(key, sent), Put(key, sent));
    PerformFew(w.objects, Remove(key), Put(key, sent));
    assert (w.objects - {key})[key := sent] == w.objects[key := sent];
  }

  /** Under Rename it stays, and a copy is created beside it. */
  lemma ExistingIsCopied(policy: Conflict.Policy, payload: Payload, w: World, item: Item, api: Api)
    requires api.prepared && TargetOf(item) in w.objects && Conflict.Decides(policy, item.gvr, "Rename")
    requires Conflict.RenameSupported(item.kind)
    ensures var applied := Apply(policy, payload, w, item, api);
      var sent := payload.transform(item, Rewrite(payload.body(item), w.renames, item.targetNamespace, ""));
      RenamedOrUntouched(w, item, sent, PerformAll(w.objects, applied.effects), applied)
  {
    var base := item.targetName + "-restored";
    Conflict.DecidesIff(policy, item.gvr, "Rename");
    var free := FreeName(w.objects, item.gvr, item.targetNamespace, base, 0);
    if free.Available? {
      var k := FreeNameIff(w.objects, item.gvr, item.targetNamespace, base, 0);
      PerformFew(w.objects, Put(Target(item.gvr, item.targetNamespace, free.name), Prepared(payload, w.renames, item)),
                 Remove(TargetOf(item)));
    }
  }

  // ---- the code ----

  /** The cluster behind the dynamic client; each method is one request. */
  class Cluster {
    var objects: Objects

    constructor (initial: Objects)
      ensures objects == initial
    {
      objects := initial;
    }

    method Write(key: Target, value: Json, accepted: bool)
      modifies this
      ensures objects == if accepted then old(objects)[key := value] else old(objects)
    {
      if accepted {
        objects := objects[key := value];
      }
    }

    method Delete(key: Target)
      modifies this
      ensures objects == old(objects) - {key}
    {
      objects := objects - {key};
    }
  }

  class ResourceRestorer {
    const policy: Conflict.Policy
    const payload: Payload
    const cluster: Cluster
    var renames: map<string, string>

    constructor (policy: Conflict.Policy, payload: Payload, cluster: Cluster)
      ensures this.policy == policy && this.payload == payload && this.cluster == cluster && renames == map[]
    {
      this.policy, this.payload, this.cluster, renames := policy, payload, cluster, map[];
    }

    function Now(): World
      reads this, cluster
    {
      World(cluster.objects, renames)
    }

    /** Try the suffixes in turn. */
    method AvailableName(gvr: string, namespace: string, base: string) returns (name: Name)
      ensures name == FreeName(cluster.objects, gvr, namespace, base, 0)
    {
      var i := 0;
      while i < |SUFFIXES|
        invariant 0 <= i <= |SUFFIXES|
        invariant FreeName(cluster.objects, gvr, namespace, base, 0)
          == FreeName(cluster.objects, gvr, namespace, base, i)
      {
        var candidate := base + SUFFIXES[i];
        if Target(gvr, namespace, candidate) !in cluster.objects {
          return Available(candidate);
        }
        i := i + 1;
      }
      return NoName;
    }

    /** Apply one item: its requests are the specified effects, all of them. */
    method ApplyItem(item: Item, api: Api) returns (outcome: Outcome)
      modifies this, cluster
      ensures var applied := Apply(policy, payload, old(Now()), item, api);
        && cluster.objects == PerformAll(old(cluster.objects), applied.effects)
        && renames == applied.renames && outcome == applied.outcome
    {
      if !api.prepared {
        return Error;
      }
      var key := TargetOf(item);
      var sent := RewriteValue(payload.body(item), renames, item.targetNamespace, "");
      sent := payload.transform(item, sent);
      PerformFew(cluster.objects, Put(key, sent), Put(key, sent));
      PerformFew(cluster.objects, Remove(key), Put(key, sent));
      var resolution := Conflict.Resolve(policy, item.gvr, item.kind, key in cluster.objects);
      if resolution.Blocked? {
        return Unresolved;
      }
      match resolution.action
      case Create =>
        cluster.Write(key, sent, api.creates);
        outcome := if api.creates then Done(Created, item.targetName) else Error;
      case Skip =>
        outcome := Done(Skipped, item.targetName);
      case Overwrite =>
        cluster.Write(key, sent, api.updates);
        if api.updates {
          return Done(Updated, item.targetName);
        }
        if !MayRecreate(policy, item.kind) || !api.deletes {
          return Error;
        }
        cluster.Delete(key);
        if !api.gone {
          return Error;
        }
        cluster.Write(key, sent, api.creates);
        outcome := if api.creates then Done(Recreated, item.targetName) else Error;
      case Rename =>
        var free := AvailableName(item.gvr, item.targetNamespace, item.targetName + "-restored");
        if !api.probed || free.NoName? {
          return Error;
        }
        PerformFew(cluster.objects, Put(Target(item.gvr, item.targetNamespace, free.name), sent), Remove(key));
        cluster.Write(Target(item.gvr, item.targetNamespace, free.name), sent, api.creates);
        if !api.creates {
          return Error;
        }
        renames := renames[RenameKeyOf(item) := free.name];
        outcome := Done(Renamed, free.name);
    }
  }

  // ---- runs over a list of items ----

  function After(policy: Conflict.Policy, payload: Payload, w: World, item: Item, api: Api): World {
    var applied := Apply(policy, payload, w, item, api);
    World(PerformAll(w.objects, applied.effects), applied.renames)
  }

  /** The world after the first `n` items. */
  function RunTo(policy: Conflict.Policy, payload: Payload, w: World, items: seq<Item>, apis: seq<Api>, n: nat): World
    requires n <= |items| == |apis|
  {
    if n == 0 then w
    else After(policy, payload, RunTo(policy, payload, w, items, apis, n - 1), items[n - 1], apis[n - 1])
  }
}
