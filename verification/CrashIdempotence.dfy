/**
 Repeating an interrupted stage. The API server is deterministic here: its answer to a request depends on the
 request and on the objects it finds. Under Skip and Overwrite a stage that is cut short any number of times and
 then runs to its end leaves the cluster one uninterrupted run would have left, with two exceptions, which are
 characterised exactly: an item stuck in a deletion, and an item that becomes ready only through the stage itself.
 The examples at the end show both.
 */
module CrashIdempotence {
  import opened Plan
  import opened References
  import opened Restorer
  import opened Settling
  import Conflict

  // ---- items that become ready during the stage ----

  lemma GrownAt(s: Setting, objects: Objects, items: seq<Item>, i: nat)
    requires i < |items| && Alone(items, i)
    ensures TargetOf(items[i]) in Grown(s, objects, items)
      <==> TargetOf(items[i]) in objects || Makes(s, objects, items[i])
  {
    GrownIff(s, objects, items, TargetOf(items[i]));
    assert items[i] in items;
  }

  /** An object that is never deleted is there after its item exactly when it was there or is made. */
  lemma SettledPresence(s: Setting, objects: Objects, item: Item)
    requires !Conflict.RecreateSupported(item.kind)
    ensures Settle(s, objects, item, Get(objects, TargetOf(item))).Found?
      <==> TargetOf(item) in objects || Makes(s, objects, item)
  {
    var key := TargetOf(item);
    assert (objects - {key}) - {key} == objects - {key};
  }

  lemma PresenceBetween(s: Setting, objects: Objects, items: seq<Item>, c: Crash, i: nat)
    requires i < |items| && SkipsOrOverwrites(s, items) && Independent(s, items) && Alone(items, i)
    requires !Conflict.RecreateSupported(items[i].kind)
    ensures var key, left, grown := TargetOf(items[i]), Crashed(s, objects, items, c), Grown(s, objects, items);
      (key in objects ==> key in left) && (key in left ==> key in grown)
        && (c.n >= |items| && key in grown ==> key in left)
  {
    LeftAt(s, objects, items, c, i);
    GrownAt(s, objects, items, i);
    SettledPresence(s, objects, items[i]);
    if c.n >= |items| {
      Touched(s, objects, items, i, |items|);
    }
  }

  /** What is there after an attempt was there before or is made in it; a whole run leaves all of it. */
  lemma LeftBetween(s: Setting, objects: Objects, items: seq<Item>, c: Crash)
    requires SkipsOrOverwrites(s, items) && Independent(s, items) && DistinctTargets(items)
    ensures var left, grown := Crashed(s, objects, items, c), Grown(s, objects, items);
      && Grows(items, objects, left) && Grows(items, left, grown) && (c.n >= |items| ==> Grows(items, grown, left))
  {
    forall item | item in items && !Conflict.RecreateSupported(item.kind)
      ensures var key, left, grown := TargetOf(item), Crashed(s, objects, items, c), Grown(s, objects, items);
        (key in objects ==> key in left) && (key in left ==> key in grown)
          && (c.n >= |items| && key in grown ==> key in left)
    {
      var i :| 0 <= i < |items| && items[i] == item;
      DistinctMeansAlone(items, i);
      PresenceBetween(s, objects, items, c, i);
    }
  }

  lemma GrownElsewhere(s: Setting, objects: Objects, items: seq<Item>)
    ensures SameOutside(items, objects, Grown(s, objects, items))
  {
    forall key | !Targeted(items, key) ensures Get(objects, key) == Get(Grown(s, objects, items), key) {
      forall item | item in items ensures TargetOf(item) != key {
        var i :| 0 <= i < |items| && items[i] == item;
      }
      GrownOutside(s, objects, items, key);
    }
  }

  /** Not prepared at the start, but once the stage has created its objects, and then the item changes its target. */
  predicate Late(s: Setting, objects: Objects, items: seq<Item>, item: Item) {
    var before := Get(objects, TargetOf(item));
    && !s.server.prepared(objects, item) && s.server.prepared(Grown(s, objects, items), item)
    && SettlePrepared(s, objects, item, before) != before
  }

  ghost predicate NothingLate(s: Setting, items: seq<Item>, objects: Objects) {
    forall item :: item in items ==> !Late(s, objects, items, item)
  }

  /** What is prepared stays prepared, and at the end that is what the created objects make ready. */
  lemma PreparedBetween(s: Setting, objects: Objects, items: seq<Item>, c: Crash, item: Item)
    requires SkipsOrOverwrites(s, items) && Independent(s, items) && DistinctTargets(items) && item in items
    ensures var left, grown := Crashed(s, objects, items, c), Grown(s, objects, items);
      && PreparedLater(s, item, objects, left) && PreparedLater(s, item, left, grown)
      && (c.n >= |items| ==> PreparedLater(s, item, grown, left))
  {
    LeftBetween(s, objects, items, c);
    LeftElsewhere(s, objects, items, c);
    GrownElsewhere(s, objects, items);
    var left, grown := Crashed(s, objects, items, c), Grown(s, objects, items);
    assert PreparedLater(s, item, objects, left);
    assert SameOutside(items, left, grown) && PreparedLater(s, item, left, grown);
    assert c.n >= |items| ==> PreparedLater(s, item, grown, left);
  }

  // ---- repeated attempts ----

  /** The objects after a series of attempts that all died. */
  function AfterCrashes(s: Setting, objects: Objects, items: seq<Item>, crashes: seq<Crash>): Objects
    decreases |crashes|
  {
    if crashes == [] then objects else AfterCrashes(s, Crashed(s, objects, items, crashes[0]), items, crashes[1..])
  }

  ghost predicate NothingStuck(s: Setting, items: seq<Item>, objects: Objects) {
    forall item :: item in items ==> !Stuck(s, objects, item, Get(objects, TargetOf(item)))
  }

  lemma LeftSettles(s: Setting, objects: Objects, items: seq<Item>, c: Crash, i: nat)
    requires i < |items| && StageReady(s, items)
    requires !Stuck(s, objects, items[i], Get(objects, TargetOf(items[i]))) && !Late(s, objects, items, items[i])
    ensures var key, left := TargetOf(items[i]), Crashed(s, objects, items, c);
      && Settle(s, left, items[i], Get(left, key)) == Settle(s, objects, items[i], Get(objects, key))
      && !Stuck(s, left, items[i], Get(left, key))
      && (!s.server.prepared(objects, items[i]) ==> Get(left, key) == Get(objects, key))
  {
    var item, left := items[i], Crashed(s, objects, items, c);
    assert item in items;
    DistinctMeansAlone(items, i);
    LeftAt(s, objects, items, c, i);
    LeftElsewhere(s, objects, items, c);
    PreparedBetween(s, objects, items, c, item);
    SettleAlike(s, items, item, objects, left, Get(left, TargetOf(item)));
    SettleAgainIff(s, objects, items, item, Get(objects, TargetOf(item)));
  }

  /** A crash does not change where the stage ends. */
  lemma CrashKeepsSettling(s: Setting, objects: Objects, items: seq<Item>, c: Crash)
    requires StageReady(s, items)
    requires NothingStuck(s, items, objects) && NothingLate(s, items, objects)
    ensures SameEnd(s, items, objects, Crashed(s, objects, items, c))
    ensures NothingStuck(s, items, Crashed(s, objects, items, c))
  {
    var left := Crashed(s, objects, items, c);
    forall item | item in items
      ensures Settle(s, objects, item, Get(objects, TargetOf(item))) == Settle(s, left, item, Get(left, TargetOf(item)))
      ensures !Stuck(s, left, item, Get(left, TargetOf(item)))
    {
      var i :| 0 <= i < |items| && items[i] == item;
      LeftSettles(s, objects, items, c, i);
    }
    LeftElsewhere(s, objects, items, c);
  }

  /** Nor does it make an item late. */
  lemma StillNotLate(s: Setting, objects: Objects, items: seq<Item>, c: Crash, i: nat)
    requires StageReady(s, items)
    requires NothingStuck(s, items, objects) && NothingLate(s, items, objects) && i < |items|
    ensures !Late(s, Crashed(s, objects, items, c), items, items[i])
  {
    var item, left, whole := items[i], Crashed(s, objects, items, c), Crash(|items|, 0);
    assert item in items;
    CrashKeepsSettling(s, objects, items, c);
    SameEndIff(s, items, objects, left);
    LeftSettles(s, objects, items, c, i);
    PreparedBetween(s, objects, items, c, item);
    PreparedBetween(s, objects, items, whole, item);
    PreparedBetween(s, left, items, whole, item);
    LeftElsewhere(s, objects, items, c);
    SettleAlike(s, items, item, objects, left, Get(left, TargetOf(item)));
  }

  lemma CrashKeepsEnd(s: Setting, objects: Objects, items: seq<Item>, c: Crash)
    requires StageReady(s, items)
    requires NothingStuck(s, items, objects) && NothingLate(s, items, objects)
    ensures SameEnd(s, items, objects, Crashed(s, objects, items, c))
    ensures NothingStuck(s, items, Crashed(s, objects, items, c))
      && NothingLate(s, items, Crashed(s, objects, items, c))
  {
    CrashKeepsSettling(s, objects, items, c);
    forall item | item in items ensures !Late(s, Crashed(s, objects, items, c), items, item) {
      var i :| 0 <= i < |items| && items[i] == item;
      StillNotLate(s, objects, items, c, i);
    }
  }

  lemma {:induction false} CrashesKeepEnd(s: Setting, objects: Objects, items: seq<Item>, crashes: seq<Crash>)
    requires StageReady(s, items)
    requires NothingStuck(s, items, objects) && NothingLate(s, items, objects)
    ensures RunOn(s, AfterCrashes(s, objects, items, crashes), items, |items|).objects
      == RunOn(s, objects, items, |items|).objects
    decreases |crashes|
  {
    if crashes != [] {
      var left := Crashed(s, objects, items, crashes[0]);
      CrashKeepsEnd(s, objects, items, crashes[0]);
      SameEndIff(s, items, objects, left);
      CrashesKeepEnd(s, left, items, crashes[1..]);
    }
  }

  /** An item that is stuck or late shows as soon as the stage is repeated. */
  lemma RepetitionShows(s: Setting, objects: Objects, items: seq<Item>, item: Item)
    requires StageReady(s, items)
    requires item in items && (Stuck(s, objects, item, Get(objects, TargetOf(item))) || Late(s, objects, items, item))
    ensures Get(RunOn(s, Crashed(s, objects, items, Crash(|items|, 0)), items, |items|).objects, TargetOf(item))
      != Get(RunOn(s, objects, items, |items|).objects, TargetOf(item))
  {
    var i :| 0 <= i < |items| && items[i] == item;
    var once := RunOn(s, objects, items, |items|).objects;
    DistinctMeansAlone(items, i);
    Touched(s, objects, items, i, |items|);
    Touched(s, once, items, i, |items|);
    SurroundingsStay(s, objects, items, |items|);
    PreparedBetween(s, objects, items, Crash(|items|, 0), item);
    SettleAlike(s, items, item, objects, once, Get(once, TargetOf(item)));
    SettleAgainIff(s, objects, items, item, Get(objects, TargetOf(item)));
  }

  lemma OneCrash(s: Setting, objects: Objects, items: seq<Item>, c: Crash)
    ensures AfterCrashes(s, objects, items, [c]) == Crashed(s, objects, items, c)
  {
    assert [c][1..] == [];
  }

  /** Any number of interrupted attempts followed by a whole one leave what one whole run leaves. */
  ghost predicate EndsAlike(s: Setting, objects: Objects, items: seq<Item>) {
    forall crashes ::
      RunOn(s, AfterCrashes(s, objects, items, crashes), items, |items|).objects
      == RunOn(s, objects, items, |items|).objects
  }

  /**
   Under Skip and Overwrite, any number of interrupted attempts followed by a whole one leave the cluster that one
   whole run leaves, exactly when at the start no item of the stage is stuck in a deletion and none is late.
   */
  lemma CrashIdempotentIff(s: Setting, objects: Objects, items: seq<Item>)
    requires StageReady(s, items)
    ensures EndsAlike(s, objects, items) <==> NothingStuck(s, items, objects) && NothingLate(s, items, objects)
  {
    if NothingStuck(s, items, objects) && NothingLate(s, items, objects) {
      forall crashes
        ensures RunOn(s, AfterCrashes(s, objects, items, crashes), items, |items|).objects
          == RunOn(s, objects, items, |items|).objects
      {
        CrashesKeepEnd(s, objects, items, crashes);
      }
    } else {
      var item :| item in items
        && (Stuck(s, objects, item, Get(objects, TargetOf(item))) || Late(s, objects, items, item));
      RepetitionShows(s, objects, items, item);
      OneCrash(s, objects, items, Crash(|items|, 0));
    }
  }

  // ---- examples ----

  /** A server that refuses every change of an object and is slow to delete. */
  const SLOW_SERVER := Server(
    (start: Objects, item: Item) => true,
    (objects: Objects, key: Target, sent: Json) => true,
    (objects: Objects, key: Target, sent: Json) => Get(objects, key) == Found(sent),
    (objects: Objects, key: Target) => true,
    (objects: Objects, key: Target) => false)

  const OVERWRITE := Conflict.Policy("Overwrite", map[], true, true)

  /** A ConfigMap that cannot be updated: an overwrite loses it, and the next attempt brings it back. */
  lemma SlowDeletionLosesTheObject(payload: Payload, item: Item, old_: Json)
    requires item.kind == "ConfigMap"
    requires old_ != Sent(Setting(OVERWRITE, payload, SLOW_SERVER), item)
    ensures var s, objects := Setting(OVERWRITE, payload, SLOW_SERVER), map[TargetOf(item) := old_];
      && Stuck(s, objects, item, Found(old_))
      && TargetOf(item) !in RunOn(s, objects, [item], 1).objects
      && TargetOf(item) in RunOn(s, RunOn(s, objects, [item], 1).objects, [item], 1).objects
  {
    var s, objects := Setting(OVERWRITE, payload, SLOW_SERVER), map[TargetOf(item) := old_];
    var key := TargetOf(item);
    assert With(objects, key, Found(old_)) == objects;
    SingleItem(s, objects, item, key);
    SingleItem(s, RunOn(s, objects, [item], 1).objects, item, key);
  }

  lemma SingleItem(s: Setting, objects: Objects, item: Item, key: Target)
    requires Conflict.PolicyFor(s.policy, item.gvr) in {"Skip", "Overwrite"}
    ensures Get(RunOn(s, objects, [item], 1).objects, key) ==
      if key == TargetOf(item) then SettleBy(s, item, Answer(s, objects, objects, item), Get(objects, key))
      else Get(objects, key)
  {
    RunOnStep(s, objects, [item], 1);
    assert RunOn(s, objects, [item], 0) == World(objects, map[]);
    OneItem(s, objects, World(objects, map[]), item, key);
  }

  /** A server that knows the kind of item `c` only when the attempt starts with the definition `d` in place. */
  function DefiningServer(d: Item, c: Item): Server {
    Server((start: Objects, item: Item) => item == c ==> TargetOf(d) in start,
           (objects: Objects, key: Target, sent: Json) => true,
           (objects: Objects, key: Target, sent: Json) => true,
           (objects: Objects, key: Target) => true,
           (objects: Objects, key: Target) => true)
  }

  const SKIP := Conflict.Policy("Skip", map[], false, false)

  /**
   It happens: a definition and its custom resource are restored in one stage, and the API mappings are refreshed only
   after it. Nothing is stuck, yet the resource is late, and a second attempt restores what the first could not.
   */
  lemma DefinitionAndResourceInOneStage(payload: Payload, d: Item, c: Item)
    requires TargetOf(d) != TargetOf(c) && !Conflict.RecreateSupported(d.kind)
    ensures var s := Setting(SKIP, payload, DefiningServer(d, c));
      var once := RunOn(s, map[], [d, c], 2).objects;
      && Independent(s, [d, c]) && AcceptsUnchanged(s, [d, c])
      && NothingStuck(s, [d, c], map[]) && Late(s, map[], [d, c], c)
      && TargetOf(c) !in once && TargetOf(c) in RunOn(s, once, [d, c], 2).objects
  {
    var s := Setting(SKIP, payload, DefiningServer(d, c));
    assert [d, c][0] == d && [d, c][1] == c;
    GrownIff(s, map[], [d, c], TargetOf(d));
    DefiningIsIndependent(payload, d, c);
    TwoItems(s, map[], d, c);
    TwoItems(s, RunOn(s, map[], [d, c], 2).objects, d, c);
  }

  lemma DefiningIsIndependent(payload: Payload, d: Item, c: Item)
    requires !Conflict.RecreateSupported(d.kind)
    ensures Independent(Setting(SKIP, payload, DefiningServer(d, c)), [d, c])
  {
    var items := [d, c];
    assert d in items;
    forall item, a, b | item in items && SameOutside(items, a, b) && Grows(items, a, b)
      ensures PreparedLater(Setting(SKIP, payload, DefiningServer(d, c)), item, a, b)
    {
    }
  }

  lemma TwoItems(s: Setting, objects: Objects, d: Item, c: Item)
    requires TargetOf(d) != TargetOf(c) && SkipsOrOverwrites(s, [d, c])
    ensures var after := RunOn(s, objects, [d, c], 2).objects;
      && Get(after, TargetOf(d)) == SettleBy(s, d, Answer(s, objects, objects, d), Get(objects, TargetOf(d)))
      && Get(after, TargetOf(c)) ==
        SettleBy(s, c, Answer(s, objects, RunOn(s, objects, [d, c], 1).objects, c), Get(objects, TargetOf(c)))
  {
    var items := [d, c];
    assert d in items && c in items && items[0] == d && items[1] == c;
    Untouched(s, objects, items, 1, TargetOf(c));
    RunOnStep(s, objects, items, 1);
    RunOnStep(s, objects, items, 2);
    OneItem(s, objects, RunOn(s, objects, items, 0), d, TargetOf(d));
    OneItem(s, objects, RunOn(s, objects, items, 1), c, TargetOf(c));
    OneItem(s, objects, RunOn(s, objects, items, 1), c, TargetOf(d));
  }
}
