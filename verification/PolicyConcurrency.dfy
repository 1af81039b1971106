/**
 What one completed reconcile of a policy creates, skips and stops under each concurrency policy, in terms of its due
 instants and the tasks it finds.
 */
module PolicyConcurrency {
  import opened Basics
  import opened PolicyController
  import opened Scheduler
  import opened Sorting

  /** The last `n` elements, or all of them. */
  function Newest(s: seq<int>, n: nat): seq<int> {
    if |s| > n then s[|s| - n..] else s
  }

  /** The list of skipped runs after those of `due` from `k` to `n` were added one by one. */
  function Listed(skipped: seq<int>, due: seq<int>, k: nat, n: nat): seq<int>
    requires k <= n <= |due|
  {
    if n == k then skipped else Newest(skipped + due[k..n], SKIPPED_LIMIT)
  }

  lemma NewestAppend(s: seq<int>, t: int)
    ensures AppendLimited(Newest(s, SKIPPED_LIMIT), t) == Newest(s + [t], SKIPPED_LIMIT)
  {
  }

  lemma ListedGrows(skipped: seq<int>, due: seq<int>, k: nat, n: nat)
    requires k < n <= |due|
    ensures AppendLimited(Listed(skipped, due, k, n - 1), due[n - 1]) == Listed(skipped, due, k, n)
  {
    assert skipped + due[k..n] == skipped + due[k..n - 1] + [due[n - 1]];
    if n - 1 == k {
      assert skipped + due[k..n - 1] == skipped;
    } else {
      NewestAppend(skipped + due[k..n - 1], due[n - 1]);
    }
  }

  /** A completed reconcile is the loop over all due instants. */
  ghost predicate Completed(p: Policy, s: State, active: seq<string>, now: int, stop: nat)
    requires IsSchedule(p.next)
  {
    Enumerates(active, NonTerminal(s.tasks)) && stop > |DueOf(p, s.last, now)|
  }

  lemma EmptyList(active: seq<string>, names: set<string>)
    requires Enumerates(active, names)
    ensures active == [] <==> names == {}
  {
    if active != [] {
      assert active[0] in names;
    }
  }

  // ---- Forbid ----

  /** With something active an instant is skipped. */
  lemma ForbidSkipsOne(p: Policy, l: Loop, t: int)
    requires p.concurrency == Forbid && l.active != []
    ensures Visit(p, l, t) == Loop(l.tasks, l.active, AppendLimited(l.skipped, t), l.created)
  {
  }

  lemma ForbidSkipsNext(p: Policy, a: Loop, b: Loop, due: seq<int>, k: nat, n: nat)
    requires p.concurrency == Forbid && k < n <= |due| && a.active != []
    requires b == Loop(a.tasks, a.active, Listed(a.skipped, due, k, n - 1), a.created)
    ensures Visit(p, b, due[n - 1]) == Loop(a.tasks, a.active, Listed(a.skipped, due, k, n), a.created)
  {
    ForbidSkipsOne(p, b, due[n - 1]);
    ListedGrows(a.skipped, due, k, n);
  }

  lemma LoopStep(p: Policy, l: Loop, due: seq<int>, n: nat)
    requires 0 < n <= |due|
    ensures VisitAll(p, l, due, n) == Visit(p, VisitAll(p, l, due, n - 1), due[n - 1])
  {
  }

  /** The loop before each due instant, and at the end. */
  function Loops(p: Policy, l: Loop, due: seq<int>): seq<Loop> {
    seq(|due| + 1, m requires 0 <= m <= |due| => VisitAll(p, l, due, m))
  }

  predicate Visited(p: Policy, loops: seq<Loop>, due: seq<int>, m: nat)
    requires m < |due| < |loops|
  {
    loops[m + 1] == Visit(p, loops[m], due[m])
  }

  lemma LoopsVisit(p: Policy, l: Loop, due: seq<int>, m: nat)
    requires m < |due|
    ensures Visited(p, Loops(p, l, due), due, m)
  {
    LoopStep(p, l, due, m + 1);
  }

  lemma {:induction false} SkipsThrough(p: Policy, loops: seq<Loop>, due: seq<int>, k: nat, n: nat)
    requires p.concurrency == Forbid && k <= n <= |due| < |loops| && loops[k].active != []
    requires forall m {:trigger Visited(p, loops, due, m)} :: k <= m < n ==> Visited(p, loops, due, m)
    ensures loops[n] ==
      Loop(loops[k].tasks, loops[k].active, Listed(loops[k].skipped, due, k, n), loops[k].created)
    decreases n
  {
    if n > k {
      SkipsThrough(p, loops, due, k, n - 1);
      assert Visited(p, loops, due, n - 1);
      ForbidSkipsNext(p, loops[k], loops[n - 1], due, k, n);
    }
  }

  lemma ForbidSkips(p: Policy, l: Loop, due: seq<int>, k: nat, a: Loop)
    requires p.concurrency == Forbid && k <= |due| && a == VisitAll(p, l, due, k) && a.active != []
    ensures VisitAll(p, l, due, |due|) == Loop(a.tasks, a.active, Listed(a.skipped, due, k, |due|), a.created)
  {
    var loops := Loops(p, l, due);
    forall m | k <= m < |due| ensures Visited(p, loops, due, m) {
      LoopsVisit(p, l, due, m);
    }
    assert loops[k] == a && loops[|due|] == VisitAll(p, l, due, |due|);
    SkipsThrough(p, loops, due, k, |due|);
  }

  /** Instants whose tasks are there and finished pass without effect. */
  lemma {:induction false} FinishedPass(p: Policy, l: Loop, due: seq<int>, k: nat)
    requires k <= |due| && l.active == []
    requires forall i :: 0 <= i < k ==> NameOf(p, due[i]) in l.tasks && l.tasks[NameOf(p, due[i])].terminal
    ensures VisitAll(p, l, due, k) == l
  {
    if k > 0 {
      FinishedPass(p, l, due, k - 1);
    }
  }

  /** While a task is active nothing is created, and every due instant is listed as skipped. */
  lemma ForbidWaits(p: Policy, s: State, active: seq<string>, now: int, stop: nat, cut: nat)
    requires IsSchedule(p.next) && p.concurrency == Forbid && Completed(p, s, active, now, stop)
    requires NonTerminal(s.tasks) != {} && DueOf(p, s.last, now) != []
    ensures var after := Reconciled(p, s, active, now, stop, cut);
      && after.tasks == s.tasks && after.created == s.created
      && after.skipped == Newest(s.skipped + DueOf(p, s.last, now), SKIPPED_LIMIT)
  {
    var due := DueOf(p, s.last, now);
    EmptyList(active, NonTerminal(s.tasks));
    assert VisitAll(p, Begin(s, active), due, 0) == Begin(s, active);
    ForbidSkips(p, Begin(s, active), due, 0, Begin(s, active));
    assert due[0..|due|] == due;
  }

  lemma CreatesWhenIdle(p: Policy, l: Loop, t: int)
    requires l.active == [] && NameOf(p, t) !in l.tasks
    ensures Visit(p, l, t) ==
      Loop(l.tasks[NameOf(p, t) := Task(t, true, false, false)], [NameOf(p, t)], l.skipped, l.created + [t])
  {
  }

  lemma ForbidCreates(p: Policy, l: Loop, due: seq<int>, k: nat)
    requires l.active == [] && k < |due|
    requires forall i :: 0 <= i < k ==> NameOf(p, due[i]) in l.tasks && l.tasks[NameOf(p, due[i])].terminal
    requires NameOf(p, due[k]) !in l.tasks
    ensures VisitAll(p, l, due, k + 1) ==
      Loop(l.tasks[NameOf(p, due[k]) := Task(due[k], true, false, false)], [NameOf(p, due[k])], l.skipped,
           l.created + [due[k]])
  {
    FinishedPass(p, l, due, k);
    CreatesWhenIdle(p, l, due[k]);
  }

  /** Once something was created the rest is skipped. */
  lemma ForbidLoop(p: Policy, l: Loop, due: seq<int>, k: nat, created: Loop)
    requires p.concurrency == Forbid && k < |due|
    requires created == VisitAll(p, l, due, k + 1) && created.active != []
    ensures VisitAll(p, l, due, |due|) ==
      Loop(created.tasks, created.active, Listed(created.skipped, due, k + 1, |due|), created.created)
  {
    ForbidSkips(p, l, due, k + 1, created);
  }

  /**
   With no task active, the task of the first due instant whose name is free is created, the due instants after it are
   listed as skipped, and nothing else happens.
   */
  lemma ForbidRunsFirst(p: Policy, s: State, active: seq<string>, now: int, stop: nat, cut: nat, k: nat)
    requires IsSchedule(p.next) && p.concurrency == Forbid && Completed(p, s, active, now, stop)
    requires NonTerminal(s.tasks) == {} && k < |DueOf(p, s.last, now)|
    requires forall i :: 0 <= i < k ==> NameOf(p, DueOf(p, s.last, now)[i]) in s.tasks
    requires NameOf(p, DueOf(p, s.last, now)[k]) !in s.tasks
    ensures var due, after := DueOf(p, s.last, now), Reconciled(p, s, active, now, stop, cut);
      && after.tasks == s.tasks[NameOf(p, due[k]) := Task(due[k], true, false, false)]
      && after.created == s.created + [due[k]]
      && after.skipped == if k + 1 == |due| then s.skipped else Newest(s.skipped + due[k + 1..], SKIPPED_LIMIT)
  {
    var due, l := DueOf(p, s.last, now), Begin(s, active);
    EmptyList(active, NonTerminal(s.tasks));
    assert forall n :: n in s.tasks ==> n !in NonTerminal(s.tasks);
    ForbidCreates(p, l, due, k);
    ForbidLoop(p, l, due, k, VisitAll(p, l, due, k + 1));
    assert due[k + 1..|due|] == due[k + 1..];
  }

  // ---- Allow ----

  /** The task names of the due instants. */
  function DueNames(p: Policy, due: seq<int>): (names: seq<string>)
    ensures |names| == |due|
    ensures forall i :: 0 <= i < |due| ==> names[i] == NameOf(p, due[i])
  {
    seq(|due|, i requires 0 <= i < |due| => NameOf(p, due[i]))
  }

  ghost predicate FromDue(names: seq<string>, due: seq<int>, n: nat, name: string, task: Task)
    requires n <= |due| == |names|
  {
    exists i :: 0 <= i < n && name == names[i] && task == Task(due[i], true, false, false)
  }

  /** Tasks as they are after the first `n` due instants, over those of the start. */
  ghost predicate Extends(names: seq<string>, due: seq<int>, n: nat, tasks: Tasks, start: Tasks)
    requires n <= |due| == |names|
  {
    && (forall name :: name in start ==> name in tasks && tasks[name] == start[name])
    && (forall i :: 0 <= i < n ==> names[i] in tasks)
    && (forall name :: name in tasks && name !in start ==> FromDue(names, due, n, name, tasks[name]))
  }

  lemma FromDueGrows(names: seq<string>, due: seq<int>, n: nat, name: string, task: Task)
    requires 0 < n <= |due| == |names|
    ensures FromDue(names, due, n - 1, name, task) ==> FromDue(names, due, n, name, task)
    ensures FromDue(names, due, n, names[n - 1], Task(due[n - 1], true, false, false))
  {
  }

  /** The tasks after one more instant: its task is created unless there is one of that name. */
  function WithTask(tasks: Tasks, name: string, t: int): Tasks {
    if name in tasks then tasks else tasks[name := Task(t, true, false, false)]
  }

  lemma AddDue(names: seq<string>, due: seq<int>, n: nat, tasks: Tasks, start: Tasks)
    requires 0 < n <= |due| == |names| && Extends(names, due, n - 1, tasks, start)
    ensures Extends(names, due, n, WithTask(tasks, names[n - 1], due[n - 1]), start)
  {
    var after := WithTask(tasks, names[n - 1], due[n - 1]);
    forall name | name in after && name !in start ensures FromDue(names, due, n, name, after[name]) {
      FromDueGrows(names, due, n, name, after[name]);
    }
  }

  /** What an instant does under Allow. */
  lemma AllowVisitsOne(p: Policy, l: Loop, t: int)
    requires p.concurrency == Allow
    ensures Visit(p, l, t).skipped == l.skipped && Visit(p, l, t).tasks == WithTask(l.tasks, NameOf(p, t), t)
  {
  }

  lemma {:induction false} AllowThrough(p: Policy, loops: seq<Loop>, due: seq<int>, names: seq<string>, n: nat)
    requires p.concurrency == Allow && n <= |due| < |loops| && names == DueNames(p, due)
    requires forall m {:trigger Visited(p, loops, due, m)} :: 0 <= m < n ==> Visited(p, loops, due, m)
    ensures loops[n].skipped == loops[0].skipped && Extends(names, due, n, loops[n].tasks, loops[0].tasks)
  {
    if n > 0 {
      AllowThrough(p, loops, due, names, n - 1);
      assert Visited(p, loops, due, n - 1);
      AllowVisitsOne(p, loops[n - 1], due[n - 1]);
      AddDue(names, due, n, loops[n - 1].tasks, loops[0].tasks);
    }
  }

  lemma AllowVisits(p: Policy, l: Loop, due: seq<int>)
    requires p.concurrency == Allow
    ensures var after := VisitAll(p, l, due, |due|);
      after.skipped == l.skipped && Extends(DueNames(p, due), due, |due|, after.tasks, l.tasks)
  {
    var loops := Loops(p, l, due);
    forall m | 0 <= m < |due| ensures Visited(p, loops, due, m) {
      LoopsVisit(p, l, due, m);
    }
    assert loops[0] == l && loops[|due|] == VisitAll(p, l, due, |due|);
    AllowThrough(p, loops, due, DueNames(p, due), |due|);
  }

  /** Under Allow every due instant has its task afterwards, nothing else is created, stopped or skipped. */
  lemma AllowRunsAll(p: Policy, s: State, active: seq<string>, now: int, stop: nat, cut: nat)
    requires IsSchedule(p.next) && p.concurrency == Allow && Completed(p, s, active, now, stop)
    ensures var due, after := DueOf(p, s.last, now), Reconciled(p, s, active, now, stop, cut);
      after.skipped == s.skipped && Extends(DueNames(p, due), due, |due|, after.tasks, s.tasks)
  {
    AllowVisits(p, Begin(s, active), DueOf(p, s.last, now));
  }

  // ---- Replace ----

  lemma DueAscends(p: Policy, last: int, now: int)
    requires IsSchedule(p.next)
    ensures StrictlyAscending(DueOf(p, last, now))
  {
    var from := WindowStart(last, now, p.deadline);
    InstantsAscend(p.next, from, now);
    ChosenIsSuffix(Cut(Instants(p.next, from, now), MAX_DUE), now, p.missed, p.maxCatchUp);
  }

  /** The loop takes no names but those of its instants. */
  lemma VisitTakesOne(p: Policy, l: Loop, t: int)
    ensures Visit(p, l, t).tasks.Keys <= l.tasks.Keys + {NameOf(p, t)}
  {
    CancelFacts(l.tasks, l.active);
  }

  lemma {:induction false} NameStaysFree(p: Policy, l: Loop, due: seq<int>, n: nat, name: string)
    requires n <= |due| && name !in l.tasks
    requires forall i :: 0 <= i < n ==> NameOf(p, due[i]) != name
    ensures name !in VisitAll(p, l, due, n).tasks
  {
    if n > 0 {
      NameStaysFree(p, l, due, n - 1, name);
      LoopStep(p, l, due, n);
      VisitTakesOne(p, VisitAll(p, l, due, n - 1), due[n - 1]);
    }
  }

  lemma VisitCovers(p: Policy, l: Loop, t: int)
    requires Covers(l.active, l.tasks)
    ensures Covers(Visit(p, l, t).active, Visit(p, l, t).tasks)
  {
    CancelFacts(l.tasks, l.active);
  }

  lemma {:induction false} LoopCovers(p: Policy, l: Loop, due: seq<int>, n: nat)
    requires Covers(l.active, l.tasks) && n <= |due|
    ensures Covers(VisitAll(p, l, due, n).active, VisitAll(p, l, due, n).tasks)
  {
    if n > 0 {
      LoopCovers(p, l, due, n - 1);
      VisitCovers(p, VisitAll(p, l, due, n - 1), due[n - 1]);
    }
  }

  /** A new task under Replace is the only one that is neither finished nor asked to stop. */
  lemma ReplaceLeavesOne(p: Policy, l: Loop, t: int)
    requires p.concurrency == Replace && Covers(l.active, l.tasks) && NameOf(p, t) !in l.tasks
    ensures var after := Visit(p, l, t).tasks;
      && NameOf(p, t) in after && after[NameOf(p, t)] == Task(t, true, false, false)
      && forall name :: Undisturbed(after, name) <==> name == NameOf(p, t)
  {
    CancelFacts(l.tasks, l.active);
  }

  /** The last due instant has a name of its own. */
  lemma LastNameIsNew(p: Policy, last: int, now: int)
    requires IsSchedule(p.next) && last >= 0 && DueOf(p, last, now) != []
    ensures var due := DueOf(p, last, now);
      forall i :: 0 <= i < |due| - 1 ==> NameOf(p, due[i]) != NameOf(p, due[|due| - 1])
  {
    var due := DueOf(p, last, now);
    DueAscends(p, last, now);
    DueIsInWindow(p, last, now);
    forall i | 0 <= i < |due| - 1 ensures NameOf(p, due[i]) != NameOf(p, due[|due| - 1]) {
      NameIdentifies(p, due[i], due[|due| - 1]);
    }
  }

  lemma ReplaceLoop(p: Policy, l: Loop, due: seq<int>, name: string)
    requires p.concurrency == Replace && due != [] && Covers(l.active, l.tasks)
    requires name == NameOf(p, due[|due| - 1]) && name !in l.tasks
    requires forall i :: 0 <= i < |due| - 1 ==> NameOf(p, due[i]) != name
    ensures var after := VisitAll(p, l, due, |due|).tasks;
      && name in after && after[name] == Task(due[|due| - 1], true, false, false)
      && forall other :: Undisturbed(after, other) <==> other == name
  {
    var m := |due| - 1;
    NameStaysFree(p, l, due, m, name);
    LoopCovers(p, l, due, m);
    LoopStep(p, l, due, |due|);
    ReplaceLeavesOne(p, VisitAll(p, l, due, m), due[m]);
  }

  /**
   Under Replace the task of the last due instant is there afterwards, when its name was free, and it is the only task
   that is neither finished nor asked to stop.
   */
  lemma ReplaceRunsLast(p: Policy, s: State, active: seq<string>, now: int, stop: nat, cut: nat)
    requires IsSchedule(p.next) && p.concurrency == Replace && Completed(p, s, active, now, stop)
    requires s.last >= 0 && DueOf(p, s.last, now) != []
    requires var due := DueOf(p, s.last, now); NameOf(p, due[|due| - 1]) !in s.tasks
    ensures var due, after := DueOf(p, s.last, now), Reconciled(p, s, active, now, stop, cut).tasks;
      var name := NameOf(p, due[|due| - 1]);
      && name in after && after[name] == Task(due[|due| - 1], true, false, false)
      && forall other :: Undisturbed(after, other) <==> other == name
  {
    var due := DueOf(p, s.last, now);
    LastNameIsNew(p, s.last, now);
    ReplaceLoop(p, Begin(s, active), due, NameOf(p, due[|due| - 1]));
  }
}
