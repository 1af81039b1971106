/**
 What a stage makes of its targets. The API server is deterministic here: its answer to a request depends on the
 request and on the objects it finds. Under Skip and Overwrite every item then settles its own target, whatever the
 other items of the stage do, and a stage is known by what its items settle; an attempt that dies leaves each target
 as it was, settled, or removed and about to be settled.
 */
module Settling {
  import opened Basics
  import opened Plan
  import opened References
  import opened Restorer
  import Conflict

  datatype Server = Server(
    prepared: (Objects, Item) -> bool, // reads the objects at the start: API mappings are refreshed between stages
    creates: (Objects, Target, Json) -> bool,
    updates: (Objects, Target, Json) -> bool,
    deletes: (Objects, Target) -> bool,
    gone: (Objects, Target) -> bool) // the deletion is seen within the poll

  datatype Setting = Setting(policy: Conflict.Policy, payload: Payload, server: Server)

  /** The object an item is restored as, while nothing has been renamed. */
  function Sent(s: Setting, item: Item): Json {
    Prepared(s.payload, map[], item)
  }

  /** The answers to the requests for one item; an object is created where there is none, or none any more. */
  function Answer(s: Setting, start: Objects, objects: Objects, item: Item): Api {
    var key, sent := TargetOf(item), Sent(s, item);
    Api(s.server.prepared(start, item), true, s.server.creates(objects - {key}, key, sent),
        s.server.updates(objects, key, sent), s.server.deletes(objects, key), s.server.gone(objects, key))
  }

  // ---- the stage ----

  /** The world after the first `n` items of the stage. */
  function RunOn(s: Setting, objects: Objects, items: seq<Item>, n: nat): World
    requires n <= |items|
  {
    if n == 0 then World(objects, map[])
    else
      var at := RunOn(s, objects, items, n - 1);
      After(s.policy, s.payload, at, items[n - 1], Answer(s, objects, at.objects, items[n - 1]))
  }

  predicate Answered(s: Setting, objects: Objects, items: seq<Item>, apis: seq<Api>, i: nat)
    requires i < |items| == |apis|
  {
    apis[i] == Answer(s, objects, RunOn(s, objects, items, i).objects, items[i])
  }

  lemma RunOnStep(s: Setting, objects: Objects, items: seq<Item>, n: nat)
    requires 0 < n <= |items|
    ensures var at := RunOn(s, objects, items, n - 1);
      RunOn(s, objects, items, n)
      == After(s.policy, s.payload, at, items[n - 1], Answer(s, objects, at.objects, items[n - 1]))
  {
  }

  lemma RunToStep(policy: Conflict.Policy, payload: Payload, w: World, items: seq<Item>, apis: seq<Api>, n: nat)
    requires 0 < n <= |items| == |apis|
    ensures RunTo(policy, payload, w, items, apis, n)
      == After(policy, payload, RunTo(policy, payload, w, items, apis, n - 1), items[n - 1], apis[n - 1])
  {
  }

  /** It is the stage run of the restorer, under this server's answers. */
  lemma {:induction false} RunOnIsRunTo(s: Setting, objects: Objects, items: seq<Item>, apis: seq<Api>, n: nat)
    requires n <= |items| == |apis|
    requires forall i {:trigger Answered(s, objects, items, apis, i)} :: 0 <= i < |items| ==>
      Answered(s, objects, items, apis, i)
    ensures RunOn(s, objects, items, n) == RunTo(s.policy, s.payload, World(objects, map[]), items, apis, n)
  {
    if n > 0 {
      RunOnIsRunTo(s, objects, items, apis, n - 1);
      assert Answered(s, objects, items, apis, n - 1);
      RunOnStep(s, objects, items, n);
      RunToStep(s.policy, s.payload, World(objects, map[]), items, apis, n);
    }
  }

  function EffectsAt(s: Setting, start: Objects, w: World, item: Item): seq<Effect> {
    Apply(s.policy, s.payload, w, item, Answer(s, start, w.objects, item)).effects
  }

  predicate SkipsOrOverwrites(s: Setting, items: seq<Item>) {
    forall item :: item in items ==> Conflict.PolicyFor(s.policy, item.gvr) in {"Skip", "Overwrite"}
  }

  // ---- what one item makes of its target ----

  /** Given the server's answers. */
  function SettleBy(s: Setting, item: Item, api: Api, before: Found): Found {
    var made := if api.creates then Found(Sent(s, item)) else Missing;
    if !api.prepared then before
    else if before.Missing? then made
    else if Conflict.PolicyFor(s.policy, item.gvr) == "Skip" then before
    else if api.updates then Found(Sent(s, item))
    else if !MayRecreate(s.policy, item.kind) || !api.deletes then before
    else if api.gone then made
    else Missing
  }

  function With(objects: Objects, key: Target, before: Found): Objects {
    match before
    case Found(v) => objects[key := v]
    case Missing => objects - {key}
  }

  /** When it finds `before` there and is prepared. */
  function SettlePrepared(s: Setting, base: Objects, item: Item, before: Found): Found {
    SettleBy(s, item, Answer(s, base, With(base, TargetOf(item), before), item).(prepared := true), before)
  }

  /** When it finds `before` there, in an attempt that starts from `base`. */
  function Settle(s: Setting, base: Objects, item: Item, before: Found): Found {
    if s.server.prepared(base, item) then SettlePrepared(s, base, item, before) else before
  }

  /**
   The exception: an overwrite falls back to delete and create, the deletion is accepted but not seen in time, and
   the object could be created again. The item fails and its object is gone; the next attempt brings it back.
   */
  predicate Stuck(s: Setting, base: Objects, item: Item, before: Found) {
    var api := Answer(s, base, With(base, TargetOf(item), before), item);
    && api.prepared && before.Found? && Conflict.PolicyFor(s.policy, item.gvr) == "Overwrite"
    && !api.updates && MayRecreate(s.policy, item.kind) && api.deletes && !api.gone && api.creates
  }

  /** Sending an object that is stored already is accepted. */
  ghost predicate AcceptsUnchanged(s: Setting, items: seq<Item>) {
    forall item, objects :: item in items && Get(objects, TargetOf(item)) == Found(Sent(s, item)) ==>
      s.server.updates(objects, TargetOf(item), Sent(s, item))
  }

  lemma SettleAgainIff(s: Setting, base: Objects, items: seq<Item>, item: Item, before: Found)
    requires SkipsOrOverwrites(s, items) && AcceptsUnchanged(s, items) && item in items
    ensures Settle(s, base, item, Settle(s, base, item, before)) == Settle(s, base, item, before)
      <==> !Stuck(s, base, item, before)
    ensures Settle(s, base, item, before) != before ==> !Stuck(s, base, item, Settle(s, base, item, before))
  {
    var key := TargetOf(item);
    assert With(base, key, before) - {key} == base - {key} == With(base, key, Missing) - {key};
    assert With(base, key, Found(Sent(s, item))) - {key} == base - {key};
  }

  // ---- answers that do not depend on the rest of the stage ----

  predicate Targeted(items: seq<Item>, key: Target) {
    exists i :: 0 <= i < |items| && TargetOf(items[i]) == key
  }

  ghost predicate SameOutside(items: seq<Item>, a: Objects, b: Objects) {
    forall key :: !Targeted(items, key) ==> Get(a, key) == Get(b, key)
  }

  ghost predicate AnswersAlike(s: Setting, item: Item, a: Objects, b: Objects) {
    var key, sent := TargetOf(item), Sent(s, item);
    && s.server.creates(a - {key}, key, sent) == s.server.creates(b - {key}, key, sent)
    && (Get(a, key) == Get(b, key) ==>
          && s.server.updates(a, key, sent) == s.server.updates(b, key, sent)
          && s.server.deletes(a, key) == s.server.deletes(b, key) && s.server.gone(a, key) == s.server.gone(b, key))
  }

  /** No object of the stage that a restore never deletes is in `a` and not in `b`. */
  predicate Grows(items: seq<Item>, a: Objects, b: Objects) {
    forall item :: item in items && !Conflict.RecreateSupported(item.kind) && TargetOf(item) in a ==>
      TargetOf(item) in b
  }

  ghost predicate PreparedLater(s: Setting, item: Item, a: Objects, b: Objects) {
    s.server.prepared(a, item) ==> s.server.prepared(b, item)
  }

  /**
   The answers to the requests for an item read its own target and what lies outside the stage, but no other target of
   the stage. Whether it is prepared may depend on the stage: a mapping appears with its definition.
   */
  ghost predicate Independent(s: Setting, items: seq<Item>) {
    && (forall item, a, b {:trigger AnswersAlike(s, item, a, b)} ::
          item in items && SameOutside(items, a, b) ==> AnswersAlike(s, item, a, b))
    && (forall item, a, b {:trigger PreparedLater(s, item, a, b)} ::
          item in items && SameOutside(items, a, b) && Grows(items, a, b) ==> PreparedLater(s, item, a, b))
  }

  /** What is asked of a stage and its server. */
  ghost predicate StageReady(s: Setting, items: seq<Item>) {
    SkipsOrOverwrites(s, items) && Independent(s, items) && DistinctTargets(items) && AcceptsUnchanged(s, items)
  }

  lemma WithIsSameOutside(items: seq<Item>, item: Item, a: Objects, b: Objects, before: Found)
    requires item in items && SameOutside(items, a, b)
    ensures SameOutside(items, With(a, TargetOf(item), before), With(b, TargetOf(item), before))
    ensures SameOutside(items, a, With(b, TargetOf(item), before))
    ensures Get(With(a, TargetOf(item), before), TargetOf(item)) == before
  {
    var i :| 0 <= i < |items| && items[i] == item;
    assert Targeted(items, TargetOf(item));
  }

  /** So the start of an attempt may be exchanged for another with the same surroundings that prepares the same. */
  lemma SettleAlike(s: Setting, items: seq<Item>, item: Item, a: Objects, b: Objects, before: Found)
    requires Independent(s, items) && item in items && SameOutside(items, a, b)
    ensures SettlePrepared(s, a, item, before) == SettlePrepared(s, b, item, before)
    ensures s.server.prepared(a, item) == s.server.prepared(b, item) ==>
      Settle(s, a, item, before) == Settle(s, b, item, before)
        && (Stuck(s, a, item, before) <==> Stuck(s, b, item, before))
  {
    var key := TargetOf(item);
    WithIsSameOutside(items, item, a, b, before);
    WithIsSameOutside(items, item, b, b, before);
    assert AnswersAlike(s, item, a, b);
    assert AnswersAlike(s, item, With(a, key, before), With(b, key, before));
  }

  /** And what an item does in the middle of an attempt is what it does from its start. */
  lemma AnswerAlike(s: Setting, items: seq<Item>, item: Item, start: Objects, now: Objects)
    requires Independent(s, items) && item in items && SameOutside(items, start, now)
    ensures var before := Get(now, TargetOf(item));
      SettleBy(s, item, Answer(s, start, now, item), before) == Settle(s, start, item, before)
    ensures SettleBy(s, item, Answer(s, start, now, item).(prepared := true), Missing)
      == Settle(s, start, item, Missing)
      || !s.server.prepared(start, item)
  {
    var key := TargetOf(item);
    var before := Get(now, key);
    WithIsSameOutside(items, item, start, start, before);
    WithIsSameOutside(items, item, now, start, before);
    assert AnswersAlike(s, item, now, With(start, key, before));
    WithIsSameOutside(items, item, now, start, Missing);
    assert AnswersAlike(s, item, now, With(start, key, Missing));
  }

  // ---- one item ----

  /** The effects of one item, and its part of the stage's meaning. */
  lemma ItemEffects(s: Setting, w: World, item: Item, api: Api, cut: nat)
    requires w.renames == map[] && api.probed
    requires Conflict.PolicyFor(s.policy, item.gvr) in {"Skip", "Overwrite"}
    ensures var applied := Apply(s.policy, s.payload, w, item, api);
      && applied.renames == map[]
      && (forall e :: e in applied.effects ==> e.key == TargetOf(item))
      && Get(PerformAll(w.objects, applied.effects), TargetOf(item))
        == SettleBy(s, item, api, Get(w.objects, TargetOf(item)))
    ensures var effects := Apply(s.policy, s.payload, w, item, api).effects;
      var left := Get(PerformAll(w.objects, Cut(effects, cut)), TargetOf(item));
      || left == Get(w.objects, TargetOf(item))
      || left == SettleBy(s, item, api, Get(w.objects, TargetOf(item)))
      || (left.Missing? && api.prepared && Conflict.RecreateSupported(item.kind)
          && SettleBy(s, item, api, Missing) == SettleBy(s, item, api, Get(w.objects, TargetOf(item))))
  {
    var key, sent := TargetOf(item), Sent(s, item);
    PerformFew(w.objects, Put(key, sent), Put(key, sent));
    PerformFew(w.objects, Remove(key), Put(key, sent));
    var effects := Apply(s.policy, s.payload, w, item, api).effects;
    if cut < |effects| {
      assert effects[..cut] == if cut == 0 then [] else [Remove(key)];
    }
  }

  lemma OneItem(s: Setting, start: Objects, w: World, item: Item, key: Target)
    requires w.renames == map[]
    requires Conflict.PolicyFor(s.policy, item.gvr) in {"Skip", "Overwrite"}
    ensures var api := Answer(s, start, w.objects, item);
      var next := After(s.policy, s.payload, w, item, api);
      && next.renames == map[]
      && Get(next.objects, key) ==
        if key == TargetOf(item) then SettleBy(s, item, api, Get(w.objects, key)) else Get(w.objects, key)
  {
    ItemEffects(s, w, item, Answer(s, start, w.objects, item), 0);
    if TargetOf(item) != key {
      OtherKey(w.objects, EffectsAt(s, start, w, item), key);
    }
  }

  // ---- the stage, key by key ----

  lemma {:induction false} Untouched(s: Setting, objects: Objects, items: seq<Item>, n: nat, key: Target)
    requires n <= |items| && SkipsOrOverwrites(s, items)
    ensures RunOn(s, objects, items, n).renames == map[]
    ensures (forall i :: 0 <= i < n ==> TargetOf(items[i]) != key) ==>
      Get(RunOn(s, objects, items, n).objects, key) == Get(objects, key)
  {
    if n > 0 {
      Untouched(s, objects, items, n - 1, key);
      RunOnStep(s, objects, items, n);
      assert items[n - 1] in items;
      OneItem(s, objects, RunOn(s, objects, items, n - 1), items[n - 1], key);
    }
  }

  lemma SurroundingsStay(s: Setting, objects: Objects, items: seq<Item>, n: nat)
    requires n <= |items| && SkipsOrOverwrites(s, items)
    ensures SameOutside(items, objects, RunOn(s, objects, items, n).objects)
    ensures RunOn(s, objects, items, n).renames == map[]
  {
    forall key | !Targeted(items, key) ensures Get(objects, key) == Get(RunOn(s, objects, items, n).objects, key) {
      Untouched(s, objects, items, n, key);
    }
    Untouched(s, objects, items, n, Target("", "", ""));
  }

  /** What stands at a key after the first `n` items. */
  function ValueAt(s: Setting, objects: Objects, items: seq<Item>, key: Target, n: nat): Found
    requires n <= |items|
  {
    Get(RunOn(s, objects, items, n).objects, key)
  }

  /** What item number `n` does at a key. */
  lemma StepAt(s: Setting, objects: Objects, items: seq<Item>, n: nat, key: Target)
    requires n < |items| && SkipsOrOverwrites(s, items) && Independent(s, items)
    ensures var before := ValueAt(s, objects, items, key, n);
      ValueAt(s, objects, items, key, n + 1) ==
        if TargetOf(items[n]) == key then Settle(s, objects, items[n], before) else before
  {
    assert items[n] in items;
    SurroundingsStay(s, objects, items, n);
    RunOnStep(s, objects, items, n + 1);
    OneItem(s, objects, RunOn(s, objects, items, n), items[n], key);
    AnswerAlike(s, items, items[n], objects, RunOn(s, objects, items, n).objects);
  }

  /** No other item has the target of item `i`. */
  ghost predicate Alone(items: seq<Item>, i: nat)
    requires i < |items|
  {
    forall k :: 0 <= k < |items| && k != i ==> TargetOf(items[k]) != TargetOf(items[i])
  }

  lemma DistinctMeansAlone(items: seq<Item>, i: nat)
    requires DistinctTargets(items) && i < |items|
    ensures Alone(items, i)
  {
    forall k | 0 <= k < |items| && k != i ensures TargetOf(items[k]) != TargetOf(items[i]) {
      assert items[k] in items && items[i] in items;
    }
  }

  /** What stands at a key before each item, and at the end. */
  function Values(s: Setting, objects: Objects, items: seq<Item>, key: Target): seq<Found> {
    seq(|items| + 1, m requires 0 <= m <= |items| => ValueAt(s, objects, items, key, m))
  }

  predicate Changes(s: Setting, objects: Objects, items: seq<Item>, key: Target, values: seq<Found>, m: nat)
    requires m < |items| < |values|
  {
    values[m + 1] == if TargetOf(items[m]) == key then Settle(s, objects, items[m], values[m]) else values[m]
  }

  lemma ValuesChange(s: Setting, objects: Objects, items: seq<Item>, key: Target, m: nat)
    requires m < |items| && SkipsOrOverwrites(s, items) && Independent(s, items)
    ensures Changes(s, objects, items, key, Values(s, objects, items, key), m)
  {
    StepAt(s, objects, items, m, key);
    assert Values(s, objects, items, key)[m] == ValueAt(s, objects, items, key, m);
    assert Values(s, objects, items, key)[m + 1] == ValueAt(s, objects, items, key, m + 1);
  }

  lemma {:induction false} OneChange(s: Setting, objects: Objects, items: seq<Item>, values: seq<Found>, i: nat, n: nat)
    requires i < |items| < |values| && n <= |items| && Alone(items, i)
    requires forall m {:trigger Changes(s, objects, items, TargetOf(items[i]), values, m)} ::
      0 <= m < |items| ==> Changes(s, objects, items, TargetOf(items[i]), values, m)
    ensures values[n] == if n <= i then values[0] else Settle(s, objects, items[i], values[0])
  {
    if n > 0 {
      OneChange(s, objects, items, values, i, n - 1);
      assert Changes(s, objects, items, TargetOf(items[i]), values, n - 1);
    }
  }

  /** Only item `i` changes the object at its target. */
  lemma Touched(s: Setting, objects: Objects, items: seq<Item>, i: nat, n: nat)
    requires i < n <= |items| && SkipsOrOverwrites(s, items) && Independent(s, items) && Alone(items, i)
    ensures Get(RunOn(s, objects, items, n).objects, TargetOf(items[i]))
      == Settle(s, objects, items[i], Get(objects, TargetOf(items[i])))
  {
    var key := TargetOf(items[i]);
    var values := Values(s, objects, items, key);
    forall m | 0 <= m < |items| ensures Changes(s, objects, items, key, values, m) {
      ValuesChange(s, objects, items, key, m);
    }
    OneChange(s, objects, items, values, i, n);
    assert values[n] == ValueAt(s, objects, items, key, n) && values[0] == ValueAt(s, objects, items, key, 0);
  }

  /** Two clusters from which the stage ends alike: the items settle alike, and the rest is the same. */
  ghost predicate SameEnd(s: Setting, items: seq<Item>, a: Objects, b: Objects) {
    && SameOutside(items, a, b)
    && forall item :: item in items ==>
      Settle(s, a, item, Get(a, TargetOf(item))) == Settle(s, b, item, Get(b, TargetOf(item)))
  }

  lemma SameObjects(a: Objects, b: Objects)
    requires forall key :: Get(a, key) == Get(b, key)
    ensures a == b
  {
    assert forall key :: key in a <==> Get(a, key).Found?;
    assert forall key :: key in b <==> Get(b, key).Found?;
    assert forall key :: key in a ==> a[key] == Get(a, key).value;
    assert forall key :: key in b ==> b[key] == Get(b, key).value;
  }

  lemma KeyAtEnd(s: Setting, items: seq<Item>, a: Objects, key: Target)
    requires SkipsOrOverwrites(s, items) && Independent(s, items) && DistinctTargets(items)
    ensures forall i :: 0 <= i < |items| && TargetOf(items[i]) == key ==>
      Get(RunOn(s, a, items, |items|).objects, key) == Settle(s, a, items[i], Get(a, key))
    ensures !Targeted(items, key) ==> Get(RunOn(s, a, items, |items|).objects, key) == Get(a, key)
  {
    SurroundingsStay(s, a, items, |items|);
    forall i | 0 <= i < |items| && TargetOf(items[i]) == key
      ensures Get(RunOn(s, a, items, |items|).objects, key) == Settle(s, a, items[i], Get(a, key))
    {
      DistinctMeansAlone(items, i);
      Touched(s, a, items, i, |items|);
    }
  }

  /** The relation means what it says. */
  lemma SameEndIff(s: Setting, items: seq<Item>, a: Objects, b: Objects)
    requires SkipsOrOverwrites(s, items) && Independent(s, items) && DistinctTargets(items)
    ensures SameEnd(s, items, a, b) <==> RunOn(s, a, items, |items|).objects == RunOn(s, b, items, |items|).objects
  {
    var x, y := RunOn(s, a, items, |items|).objects, RunOn(s, b, items, |items|).objects;
    if SameEnd(s, items, a, b) {
      forall key ensures Get(x, key) == Get(y, key) {
        KeyAtEnd(s, items, a, key);
        KeyAtEnd(s, items, b, key);
        if i :| 0 <= i < |items| && TargetOf(items[i]) == key {
          assert items[i] in items;
        }
      }
      SameObjects(x, y);
    }
    if x == y {
      forall item | item in items
        ensures Settle(s, a, item, Get(a, TargetOf(item))) == Settle(s, b, item, Get(b, TargetOf(item)))
      {
        KeyAtEnd(s, items, a, TargetOf(item));
        KeyAtEnd(s, items, b, TargetOf(item));
        var i :| 0 <= i < |items| && items[i] == item;
      }
      forall key | !Targeted(items, key) ensures Get(a, key) == Get(b, key) {
        KeyAtEnd(s, items, a, key);
        KeyAtEnd(s, items, b, key);
      }
    }
  }

  // ---- attempts that die ----

  /** Where an attempt at the stage dies: inside item `n`, after `cut` of its effects. */
  datatype Crash = Crash(n: nat, cut: nat)

  /** The objects an attempt leaves that dies at `c`; an attempt that gets past the last item is a whole run. */
  function Crashed(s: Setting, objects: Objects, items: seq<Item>, c: Crash): Objects {
    if c.n >= |items| then RunOn(s, objects, items, |items|).objects
    else
      var at := RunOn(s, objects, items, c.n);
      PerformAll(at.objects, Cut(EffectsAt(s, objects, at, items[c.n]), c.cut))
  }

  /** What an attempt that died may have left of an item. */
  predicate MayBeLeft(s: Setting, base: Objects, item: Item, before: Found, left: Found) {
    || left == before
    || left == Settle(s, base, item, before)
    || (left == Missing && Conflict.RecreateSupported(item.kind)
        && Settle(s, base, item, Missing) == Settle(s, base, item, before))
  }

  /** The item during which the process dies. */
  lemma DyingItem(s: Setting, items: seq<Item>, start: Objects, w: World, item: Item, cut: nat, key: Target)
    requires w.renames == map[] && SkipsOrOverwrites(s, items) && Independent(s, items) && item in items
    requires SameOutside(items, start, w.objects)
    ensures var left := Get(PerformAll(w.objects, Cut(EffectsAt(s, start, w, item), cut)), key);
      if key == TargetOf(item) then MayBeLeft(s, start, item, Get(w.objects, key), left)
      else left == Get(w.objects, key)
  {
    ItemEffects(s, w, item, Answer(s, start, w.objects, item), cut);
    AnswerAlike(s, items, item, start, w.objects);
    if key != TargetOf(item) {
      OtherKey(w.objects, Cut(EffectsAt(s, start, w, item), cut), key);
    }
  }

  lemma LeftAt(s: Setting, objects: Objects, items: seq<Item>, c: Crash, i: nat)
    requires i < |items| && SkipsOrOverwrites(s, items) && Independent(s, items) && Alone(items, i)
    ensures MayBeLeft(s, objects, items[i], Get(objects, TargetOf(items[i])),
      Get(Crashed(s, objects, items, c), TargetOf(items[i])))
  {
    var key := TargetOf(items[i]);
    if c.n >= |items| {
      Touched(s, objects, items, i, |items|);
    } else {
      assert items[c.n] in items;
      SurroundingsStay(s, objects, items, c.n);
      DyingItem(s, items, objects, RunOn(s, objects, items, c.n), items[c.n], c.cut, key);
      if i < c.n {
        Touched(s, objects, items, i, c.n);
      } else {
        Untouched(s, objects, items, c.n, key);
      }
    }
  }

  lemma LeftElsewhere(s: Setting, objects: Objects, items: seq<Item>, c: Crash)
    requires SkipsOrOverwrites(s, items) && Independent(s, items)
    ensures SameOutside(items, objects, Crashed(s, objects, items, c))
  {
    if c.n >= |items| {
      SurroundingsStay(s, objects, items, |items|);
    } else {
      assert items[c.n] in items;
      SurroundingsStay(s, objects, items, c.n);
      forall key | !Targeted(items, key) ensures Get(objects, key) == Get(Crashed(s, objects, items, c), key) {
        DyingItem(s, items, objects, RunOn(s, objects, items, c.n), items[c.n], c.cut, key);
      }
    }
  }

  // ---- what a stage creates ----

  /** The item's object is created, because there is none. */
  predicate Makes(s: Setting, objects: Objects, item: Item) {
    var api := Answer(s, objects, objects, item);
    api.prepared && api.creates && TargetOf(item) !in objects
  }

  /** The objects at the start, and those the stage creates because there were none. */
  function Grown(s: Setting, objects: Objects, items: seq<Item>): Objects {
    if items == [] then objects
    else
      var item, grown := items[|items| - 1], Grown(s, objects, items[..|items| - 1]);
      if Makes(s, objects, item) then grown[TargetOf(item) := Sent(s, item)] else grown
  }

  /** Some item makes the object at `key`. */
  predicate Made(s: Setting, objects: Objects, items: seq<Item>, key: Target) {
    exists item :: item in items && TargetOf(item) == key && Makes(s, objects, item)
  }

  lemma {:induction false} GrownOutside(s: Setting, objects: Objects, items: seq<Item>, key: Target)
    requires forall item :: item in items ==> TargetOf(item) != key
    ensures Get(Grown(s, objects, items), key) == Get(objects, key)
  {
    if items != [] {
      GrownOutside(s, objects, items[..|items| - 1], key);
    }
  }

  lemma {:induction false} GrownIff(s: Setting, objects: Objects, items: seq<Item>, key: Target)
    ensures key in Grown(s, objects, items) <==> key in objects || Made(s, objects, items, key)
  {
    if items != [] {
      var init, last := items[..|items| - 1], items[|items| - 1];
      GrownIff(s, objects, init, key);
      assert items == init + [last];
    }
  }
}
