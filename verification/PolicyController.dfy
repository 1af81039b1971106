/**
 The due loop of the backup policy controller: which tasks it creates, skips and cancels over many reconciles, with
 the process dying between any two requests.
 */
module PolicyController {
  import opened Basics
  import opened Scheduler
  import opened Sorting

  datatype Concurrency = Allow | Forbid | Replace

  /** A backup task that carries the policy's label. Manual ones have `scheduled == false`. */
  datatype Task = Task(at: int, scheduled: bool, terminal: bool, cancelRequested: bool)

  type Tasks = map<string, Task>

  datatype Policy = Policy(
    next: Next, name: string, fallback: string, deadline: int, missed: MissedRunPolicy, maxCatchUp: int,
    concurrency: Concurrency)

  const SKIPPED_LIMIT: nat := 20

  function NameOf(p: Policy, t: int): string {
    TaskName(p.name, p.fallback, if t < 0 then 0 else t / SECOND)
  }

  lemma NameIdentifies(p: Policy, t: int, u: int)
    requires t >= 0 && u >= 0 && t % SECOND == 0 && u % SECOND == 0
    ensures NameOf(p, t) == NameOf(p, u) <==> t == u
  {
    TaskNameInjective(p.name, p.fallback, t / SECOND, u / SECOND);
  }

  // ---- the loop over the due instants ----

  /** What the loop carries from one due instant to the next; `created` is the history of created instants. */
  datatype Loop = Loop(tasks: Tasks, active: seq<string>, skipped: seq<int>, created: seq<int>)

  function AppendLimited(skipped: seq<int>, t: int): (r: seq<int>)
    ensures r != [] && r[|r| - 1] == t
    ensures |skipped| <= SKIPPED_LIMIT ==> |r| <= SKIPPED_LIMIT
  {
    var all := skipped + [t];
    if |all| > SKIPPED_LIMIT then all[|all| - SKIPPED_LIMIT..] else all
  }

  /** cancelActive: it stops at the first task it does not find. */
  function CancelAll(tasks: Tasks, active: seq<string>): Tasks
    decreases |active|
  {
    if active == [] || active[0] !in tasks then tasks
    else CancelAll(tasks[active[0] := tasks[active[0]].(cancelRequested := true)], active[1..])
  }

  function CancelsFirst(p: Policy, l: Loop): bool {
    l.active != [] && p.concurrency == Replace
  }

  function Visit(p: Policy, l: Loop, t: int): Loop {
    if l.active != [] && p.concurrency == Forbid then l.(skipped := AppendLimited(l.skipped, t))
    else
      var tasks := if CancelsFirst(p, l) then CancelAll(l.tasks, l.active) else l.tasks;
      var n := NameOf(p, t);
      if n in tasks then l.(tasks := tasks, active := if tasks[n].terminal then l.active else l.active + [n])
      else Loop(tasks[n := Task(t, true, false, false)], l.active + [n], l.skipped, l.created + [t])
  }

  function VisitAll(p: Policy, l: Loop, due: seq<int>, n: nat): Loop
    requires n <= |due|
  {
    if n == 0 then l else Visit(p, VisitAll(p, l, due, n - 1), due[n - 1])
  }

  // ---- one reconcile ----

  /** The persisted state; `clock` is the time of the latest reconcile. */
  datatype State = State(tasks: Tasks, last: int, skipped: seq<int>, created: seq<int>, clock: int)

  ghost function DueOf(p: Policy, last: int, now: int): seq<int>
    requires IsSchedule(p.next)
  {
    Due(p.next, last, now, p.deadline, p.missed, p.maxCatchUp)
  }

  function Begin(s: State, active: seq<string>): Loop {
    Loop(s.tasks, active, s.skipped, s.created)
  }

  /**
   The state after a reconcile that dies at due instant number `stop`, after `cut` cancellations; at
   `stop == |due|` it dies before the status patch, beyond that it completes.
   */
  ghost function Reconciled(p: Policy, s: State, active: seq<string>, now: int, stop: nat, cut: nat): State
    requires IsSchedule(p.next)
  {
    var due := DueOf(p, s.last, now);
    if stop > |due| then
      var l := VisitAll(p, Begin(s, active), due, |due|);
      State(l.tasks, Floor(now), l.skipped, l.created, now)
    else
      var l := VisitAll(p, Begin(s, active), due, stop);
      var tasks := if stop < |due| && CancelsFirst(p, l) then CancelAll(l.tasks, Cut(l.active, cut)) else l.tasks;
      State(tasks, s.last, s.skipped, l.created, now)
  }

  function NonTerminal(tasks: Tasks): set<string> {
    set n | n in tasks && !tasks[n].terminal
  }

  /** The API server's view of one policy. */
  class PolicyStore {
    var tasks: Tasks
    var last: int
    var skipped: seq<int>
    ghost var created: seq<int>
    ghost var clock: int

    constructor (creation: int)
      ensures Now() == State(map[], creation, [], [], creation)
    {
      tasks, last, skipped, created, clock := map[], creation, [], [], creation;
    }

    ghost function Now(): State
      reads this
    {
      State(tasks, last, skipped, created, clock)
    }

    /** activeTasks: the list comes in whatever order the API server returns it. */
    method ActiveTasks() returns (active: seq<string>)
      ensures Enumerates(active, NonTerminal(tasks))
    {
      active := [];
      var todo := tasks.Keys;
      while todo != {}
        invariant todo <= tasks.Keys
        invariant Enumerates(active, NonTerminal(tasks) - todo)
        decreases todo
      {
        var n :| n in todo;
        if !tasks[n].terminal {
          active := active + [n];
        }
        todo := todo - {n};
      }
      assert NonTerminal(tasks) - todo == NonTerminal(tasks);
    }

    method CancelActive(active: seq<string>)
      modifies this`tasks
      ensures tasks == CancelAll(old(tasks), active)
    {
      var i := 0;
      while i < |active|
        invariant 0 <= i <= |active|
        invariant CancelAll(tasks, active[i..]) == CancelAll(old(tasks), active)
      {
        assert active[i..][1..] == active[i + 1..];
        if active[i] !in tasks {
          return;
        }
        tasks := tasks[active[i] := tasks[active[i]].(cancelRequested := true)];
        i := i + 1;
      }
    }

    /** The body of the due loop. */
    method VisitInstant(p: Policy, t: int, active: seq<string>, runs: seq<int>)
      returns (active': seq<string>, runs': seq<int>)
      modifies this`tasks, this`created
      ensures Loop(tasks, active', runs', created) == Visit(p, Loop(old(tasks), active, runs, old(created)), t)
    {
      if active != [] && p.concurrency == Forbid {
        return active, AppendLimited(runs, t);
      }
      if active != [] && p.concurrency == Replace {
        CancelActive(active);
      }
      var n := NameOf(p, t);
      if n in tasks {
        return if tasks[n].terminal then active else active + [n], runs;
      }
      tasks := tasks[n := Task(t, true, false, false)];
      created := created + [t];
      return active + [n], runs;
    }

    /** The due loop, as far as the process lives. */
    method RunDue(p: Policy, due: seq<int>, active0: seq<string>, stop: nat)
      returns (i: nat, active: seq<string>, runs: seq<int>)
      modifies this`tasks, this`created
      ensures i <= |due| && i == if stop < |due| then stop else |due|
      ensures Loop(tasks, active, runs, created) == VisitAll(p, Begin(old(Now()), active0), due, i)
    {
      active, runs, i := active0, skipped, 0;
      while i < |due| && i < stop
        invariant 0 <= i <= |due| && i <= stop && skipped == old(skipped)
        invariant Loop(tasks, active, runs, created) == VisitAll(p, Begin(old(Now()), active0), due, i)
      {
        active, runs := VisitInstant(p, due[i], active, runs);
        i := i + 1;
      }
    }

    /** The due loop and the status patch. */
    method Reconcile(p: Policy, now: int, stop: nat, cut: nat) returns (ghost active0: seq<string>)
      requires IsSchedule(p.next)
      modifies this
      ensures Enumerates(active0, NonTerminal(old(tasks)))
      ensures Now() == Reconciled(p, old(Now()), active0, now, stop, cut)
    {
      var active := ActiveTasks();
      active0 := active;
      clock := now;
      var due := DueTimes(p.next, last, now, p.deadline, p.missed, p.maxCatchUp);
      var i, runs;
      i, active, runs := RunDue(p, due, active, stop);
      if stop <= |due| {
        if i < |due| && active != [] && p.concurrency == Replace {
          CancelActive(Cut(active, cut));
        }
        return;
      }
      last, skipped := Floor(now), runs;
    }
  }

  // ---- cancelling ----

  lemma {:induction false} CancelFacts(tasks: Tasks, active: seq<string>)
    ensures CancelAll(tasks, active).Keys == tasks.Keys
    ensures forall n :: n in tasks ==>
      var t := CancelAll(tasks, active)[n]; t == tasks[n] || t == tasks[n].(cancelRequested := true)
    ensures (forall n :: n in active ==> n in tasks) ==> forall n :: n in active ==>
      CancelAll(tasks, active)[n].cancelRequested
    decreases |active|
  {
    if active != [] && active[0] in tasks {
      var first := tasks[active[0] := tasks[active[0]].(cancelRequested := true)];
      CancelFacts(first, active[1..]);
      assert first.Keys == tasks.Keys;
      assert forall n :: n in active ==> n == active[0] || n in active[1..];
    }
  }

  // ---- one task per instant ----

  /** What holds of the loop's tasks and history, between the saved time `last` and the clock. */
  ghost predicate LoopInv(p: Policy, last: int, clock: int, tasks: Tasks, created: seq<int>) {
    && 0 <= last <= clock
    && Distinct(created)
    && (forall t :: t in created ==> 0 < t <= clock && t % SECOND == 0)
    && (forall t {:trigger NameOf(p, t)} :: t in created && t > last ==> NameOf(p, t) in tasks)
    && (forall n {:trigger FromHistory(p, created, n, tasks[n])} :: n in tasks ==> FromHistory(p, created, n, tasks[n]))
  }

  /** A scheduled task is named after an instant of the history; a manual one after none. */
  ghost predicate FromHistory(p: Policy, created: seq<int>, n: string, task: Task) {
    if task.scheduled then task.at in created && n == NameOf(p, task.at) else NotScheduledName(p, n)
  }

  ghost predicate NotScheduledName(p: Policy, n: string) {
    forall t :: t >= 0 && t % SECOND == 0 ==> n != NameOf(p, t)
  }

  /** So the name of an instant is taken exactly when its task was created, for instants not evaluated yet. */
  lemma NameTaken(p: Policy, last: int, clock: int, tasks: Tasks, created: seq<int>, t: int)
    requires LoopInv(p, last, clock, tasks, created) && t > last && t % SECOND == 0
    ensures NameOf(p, t) in tasks <==> t in created
  {
    var n := NameOf(p, t);
    if n in tasks {
      assert FromHistory(p, created, n, tasks[n]);
      assert tasks[n].scheduled;
      NameIdentifies(p, t, tasks[n].at);
    }
  }

  lemma CancelKeepsInv(p: Policy, last: int, clock: int, tasks: Tasks, created: seq<int>, active: seq<string>)
    requires LoopInv(p, last, clock, tasks, created)
    ensures LoopInv(p, last, clock, CancelAll(tasks, active), created)
  {
    CancelFacts(tasks, active);
    var after := CancelAll(tasks, active);
    forall n | n in after ensures FromHistory(p, created, n, after[n]) {
      assert FromHistory(p, created, n, tasks[n]);
    }
  }

  lemma CreateKeepsInv(p: Policy, last: int, clock: int, tasks: Tasks, created: seq<int>, t: int)
    requires LoopInv(p, last, clock, tasks, created)
    requires last < t <= clock && t % SECOND == 0 && NameOf(p, t) !in tasks
    ensures LoopInv(p, last, clock, tasks[NameOf(p, t) := Task(t, true, false, false)], created + [t])
  {
    NameTaken(p, last, clock, tasks, created, t);
    var after := tasks[NameOf(p, t) := Task(t, true, false, false)];
    forall n | n in after ensures FromHistory(p, created + [t], n, after[n]) {
      if n != NameOf(p, t) {
        assert FromHistory(p, created, n, tasks[n]);
      }
    }
  }

  lemma VisitKeepsInv(p: Policy, last: int, clock: int, l: Loop, t: int)
    requires LoopInv(p, last, clock, l.tasks, l.created)
    requires last < t <= clock && t % SECOND == 0
    ensures LoopInv(p, last, clock, Visit(p, l, t).tasks, Visit(p, l, t).created)
  {
    if !(l.active != [] && p.concurrency == Forbid) {
      var tasks := if CancelsFirst(p, l) then CancelAll(l.tasks, l.active) else l.tasks;
      CancelKeepsInv(p, last, clock, l.tasks, l.created, l.active);
      if NameOf(p, t) !in tasks {
        CreateKeepsInv(p, last, clock, tasks, l.created, t);
      }
    }
  }

  ghost predicate InWindow(due: seq<int>, last: int, clock: int) {
    forall i :: 0 <= i < |due| ==> last < due[i] <= clock && due[i] % SECOND == 0
  }

  lemma {:induction false} VisitAllKeepsInv(p: Policy, last: int, clock: int, l: Loop, due: seq<int>, n: nat)
    requires LoopInv(p, last, clock, l.tasks, l.created) && n <= |due| && InWindow(due, last, clock)
    ensures LoopInv(p, last, clock, VisitAll(p, l, due, n).tasks, VisitAll(p, l, due, n).created)
  {
    if n > 0 {
      VisitAllKeepsInv(p, last, clock, l, due, n - 1);
      VisitKeepsInv(p, last, clock, VisitAll(p, l, due, n - 1), due[n - 1]);
    }
  }

  // ---- at most one running task ----

  /** The loop's active list covers every task that is not terminal, and names only tasks that exist. */
  ghost predicate Covers(active: seq<string>, tasks: Tasks) {
    && (forall n :: n in tasks && !tasks[n].terminal ==> n in active)
    && (forall n :: n in active ==> n in tasks)
  }

  function Running(tasks: Tasks): set<string> {
    set n | n in tasks && tasks[n].scheduled && !tasks[n].terminal
  }

  function Live(tasks: Tasks): set<string> {
    set n | n in Running(tasks) && !tasks[n].cancelRequested
  }

  ghost predicate AtMostOne(names: set<string>) {
    forall m, n :: m in names && n in names ==> m == n
  }

  /** What the concurrency policy promises of every state. */
  ghost predicate Promise(p: Policy, tasks: Tasks) {
    && (p.concurrency == Forbid ==> AtMostOne(Running(tasks)))
    && (p.concurrency == Replace ==> AtMostOne(Live(tasks)))
  }

  lemma CancelKeepsPromise(p: Policy, tasks: Tasks, active: seq<string>)
    requires Promise(p, tasks)
    ensures Promise(p, CancelAll(tasks, active))
  {
    CancelFacts(tasks, active);
    var after := CancelAll(tasks, active);
    assert forall n :: n in Running(after) ==> n in Running(tasks);
    assert forall n :: n in Live(after) ==> n in Live(tasks);
  }

  lemma VisitKeepsPromise(p: Policy, l: Loop, t: int)
    requires Covers(l.active, l.tasks) && Promise(p, l.tasks)
    ensures Covers(Visit(p, l, t).active, Visit(p, l, t).tasks) && Promise(p, Visit(p, l, t).tasks)
  {
    if !(l.active != [] && p.concurrency == Forbid) {
      CancelFacts(l.tasks, l.active);
      CancelKeepsPromise(p, l.tasks, l.active);
      var tasks := if CancelsFirst(p, l) then CancelAll(l.tasks, l.active) else l.tasks;
      var n := NameOf(p, t);
      if n !in tasks {
        var after := tasks[n := Task(t, true, false, false)];
        assert p.concurrency == Forbid ==> forall m :: m in Running(after) ==> m == n;
        assert p.concurrency == Replace ==> forall m :: m in Live(after) ==> m == n;
      }
    }
  }

  lemma {:induction false} VisitAllKeepsPromise(p: Policy, l: Loop, due: seq<int>, n: nat)
    requires Covers(l.active, l.tasks) && Promise(p, l.tasks) && n <= |due|
    ensures Covers(VisitAll(p, l, due, n).active, VisitAll(p, l, due, n).tasks)
      && Promise(p, VisitAll(p, l, due, n).tasks)
  {
    if n > 0 {
      VisitAllKeepsPromise(p, l, due, n - 1);
      VisitKeepsPromise(p, VisitAll(p, l, due, n - 1), due[n - 1]);
    }
  }

  // ---- runs ----

  /** Reconciles interleave with tasks finishing, being cancelled or deleted, and manual tasks appearing. */
  datatype Event =
    | Reconcile(active: seq<string>, now: int, stop: nat, cut: nat)
    | Finish(name: string)
    | Cancel(name: string)
    | Delete(name: string)
    | AddManual(name: string)

  ghost predicate Enabled(p: Policy, s: State, e: Event) {
    match e
    case Reconcile(active, now, _, _) => now >= s.clock && Enumerates(active, NonTerminal(s.tasks))
    case Finish(n) => n in s.tasks
    case Cancel(n) => n in s.tasks
    case Delete(n) => n in s.tasks && !(s.tasks[n].scheduled && s.tasks[n].at > s.last)
    case AddManual(n) => n !in s.tasks && NotScheduledName(p, n)
  }

  ghost function Step(p: Policy, s: State, e: Event): State
    requires IsSchedule(p.next)
  {
    match e
    case Reconcile(active, now, stop, cut) => Reconciled(p, s, active, now, stop, cut)
    case Finish(n) => if n in s.tasks then s.(tasks := s.tasks[n := s.tasks[n].(terminal := true)]) else s
    case Cancel(n) => if n in s.tasks then s.(tasks := s.tasks[n := s.tasks[n].(cancelRequested := true)]) else s
    case Delete(n) => s.(tasks := s.tasks - {n})
    case AddManual(n) => s.(tasks := s.tasks[n := Task(0, false, false, false)])
  }

  /** A run lists the states in the life of a policy created at time `creation`, and the events between them. */
  ghost predicate IsRun(p: Policy, creation: int, states: seq<State>, events: seq<Event>)
    requires IsSchedule(p.next)
  {
    && |states| == |events| + 1
    && creation >= 0 && creation % SECOND == 0 // timestamps of API objects are whole seconds
    && states[0] == State(map[], creation, [], [], creation)
    && forall n {:trigger Follows(p, states, events, n)} :: 0 <= n < |events| ==> Follows(p, states, events, n)
  }

  ghost predicate Follows(p: Policy, states: seq<State>, events: seq<Event>, n: nat)
    requires IsSchedule(p.next) && n < |events| < |states|
  {
    Enabled(p, states[n], events[n]) && states[n + 1] == Step(p, states[n], events[n])
  }

  lemma RunStep(p: Policy, creation: int, states: seq<State>, events: seq<Event>, n: nat)
    requires IsSchedule(p.next) && IsRun(p, creation, states, events) && 0 < n <= |events|
    ensures Enabled(p, states[n - 1], events[n - 1])
    ensures states[n] == Step(p, states[n - 1], events[n - 1])
  {
    assert Follows(p, states, events, n - 1);
  }

  ghost predicate Inv(p: Policy, s: State) {
    LoopInv(p, s.last, s.clock, s.tasks, s.created) && Promise(p, s.tasks)
  }

  lemma DueIsInWindow(p: Policy, last: int, now: int)
    requires IsSchedule(p.next)
    ensures InWindow(DueOf(p, last, now), last, now)
  {
    var due := DueOf(p, last, now);
    forall i | 0 <= i < |due| ensures last < due[i] <= now && due[i] % SECOND == 0 {
      DueInWindow(p.next, last, now, p.deadline, p.missed, p.maxCatchUp, due[i]);
    }
  }

  /** Moving the saved time to the truncated clock keeps the history. */
  lemma SaveKeepsInv(p: Policy, last: int, clock: int, tasks: Tasks, created: seq<int>)
    requires LoopInv(p, last, clock, tasks, created)
    ensures LoopInv(p, Floor(clock), clock, tasks, created)
  {
    forall t | t in created ensures t <= Floor(clock) {
      TruncationIsHarmless(clock, t);
    }
  }

  lemma ClockKeepsInv(p: Policy, last: int, clock: int, tasks: Tasks, created: seq<int>, now: int)
    requires LoopInv(p, last, clock, tasks, created) && now >= clock
    ensures LoopInv(p, last, now, tasks, created)
  {
  }

  lemma ReconcileKeepsInv(p: Policy, s: State, active: seq<string>, now: int, stop: nat, cut: nat)
    requires IsSchedule(p.next) && Inv(p, s)
    requires now >= s.clock && Enumerates(active, NonTerminal(s.tasks))
    ensures Inv(p, Reconciled(p, s, active, now, stop, cut))
  {
    var due := DueOf(p, s.last, now);
    var n := if stop > |due| then |due| else stop;
    var l := VisitAll(p, Begin(s, active), due, n);
    DueIsInWindow(p, s.last, now);
    ClockKeepsInv(p, s.last, s.clock, s.tasks, s.created, now);
    VisitAllKeepsInv(p, s.last, now, Begin(s, active), due, n);
    assert Covers(active, s.tasks);
    VisitAllKeepsPromise(p, Begin(s, active), due, n);
    if stop > |due| {
      SaveKeepsInv(p, s.last, now, l.tasks, l.created);
    } else {
      CancelKeepsInv(p, s.last, now, l.tasks, l.created, Cut(l.active, cut));
      CancelKeepsPromise(p, l.tasks, Cut(l.active, cut));
    }
  }

  /** A task that may be deleted is not the one of an instant still to be evaluated. */
  lemma DeletedIsOld(p: Policy, s: State, name: string, u: int)
    requires Inv(p, s) && name in s.tasks && !(s.tasks[name].scheduled && s.tasks[name].at > s.last)
    requires u > s.last && u % SECOND == 0
    ensures NameOf(p, u) != name
  {
    assert FromHistory(p, s.created, name, s.tasks[name]);
    if s.tasks[name].scheduled {
      NameIdentifies(p, u, s.tasks[name].at);
    }
  }

  lemma EnvironmentKeepsInv(p: Policy, s: State, e: Event)
    requires IsSchedule(p.next) && Inv(p, s) && Enabled(p, s, e) && !e.Reconcile?
    ensures Inv(p, Step(p, s, e))
  {
    var t := Step(p, s, e);
    forall n | n in t.tasks ensures FromHistory(p, t.created, n, t.tasks[n]) {
      assert n in s.tasks ==> FromHistory(p, s.created, n, s.tasks[n]);
    }
    if e.Delete? {
      forall u | u in t.created && u > t.last ensures NameOf(p, u) in t.tasks {
        DeletedIsOld(p, s, e.name, u);
      }
    }
    assert forall n :: n in Running(t.tasks) ==> n in Running(s.tasks);
    assert forall n :: n in Live(t.tasks) ==> n in Live(s.tasks);
  }

  lemma {:induction false} RunKeepsInv(p: Policy, creation: int, states: seq<State>, events: seq<Event>, n: nat)
    requires IsSchedule(p.next) && IsRun(p, creation, states, events) && n <= |events|
    ensures Inv(p, states[n])
  {
    if n > 0 {
      RunKeepsInv(p, creation, states, events, n - 1);
      RunStep(p, creation, states, events, n);
      var s, e := states[n - 1], events[n - 1];
      if e.Reconcile? {
        ReconcileKeepsInv(p, s, e.active, e.now, e.stop, e.cut);
      } else {
        EnvironmentKeepsInv(p, s, e);
      }
    }
  }

  /** Over every run, with crashes between any two requests, each scheduled instant gets at most one task. */
  lemma OneTaskPerInstant(p: Policy, creation: int, states: seq<State>, events: seq<Event>, n: nat)
    requires IsSchedule(p.next) && IsRun(p, creation, states, events) && n <= |events|
    ensures Distinct(states[n].created)
    ensures forall m, k :: m in states[n].tasks && k in states[n].tasks ==>
      var x, y := states[n].tasks[m], states[n].tasks[k];
      x.scheduled && y.scheduled && x.at == y.at ==> m == k
  {
    RunKeepsInv(p, creation, states, events, n);
    var s := states[n];
    forall m, k | m in s.tasks && k in s.tasks && s.tasks[m].scheduled && s.tasks[k].scheduled
      && s.tasks[m].at == s.tasks[k].at
      ensures m == k
    {
      assert FromHistory(p, s.created, m, s.tasks[m]) && FromHistory(p, s.created, k, s.tasks[k]);
    }
  }

  /** Forbid: at most one scheduled task is not terminal. Replace: at most one is neither terminal nor asked to stop. */
  lemma ConcurrencyIsKept(p: Policy, creation: int, states: seq<State>, events: seq<Event>, n: nat)
    requires IsSchedule(p.next) && IsRun(p, creation, states, events) && n <= |events|
    ensures p.concurrency == Forbid ==> AtMostOne(Running(states[n].tasks))
    ensures p.concurrency == Replace ==> AtMostOne(Live(states[n].tasks))
  {
    RunKeepsInv(p, creation, states, events, n);
  }

  // ---- windows ----

  ghost predicate Completes(p: Policy, s: State, e: Event)
    requires IsSchedule(p.next)
  {
    e.Reconcile? && e.stop > |DueOf(p, s.last, e.now)|
  }

  /** The saved time is a truncated clock reading: it never overtakes the clock, and neither goes back. */
  lemma StepTimes(p: Policy, s: State, e: Event)
    requires IsSchedule(p.next) && Enabled(p, s, e)
    requires s.last % SECOND == 0 && s.last <= Floor(s.clock)
    ensures var t := Step(p, s, e);
      t.last % SECOND == 0 && s.last <= t.last <= Floor(t.clock) && s.clock <= t.clock
  {
    if e.Reconcile? {
      ReconcileTimes(p, s, e.active, e.now, e.stop, e.cut);
      FloorFacts(s.clock, e.now);
    }
  }

  lemma ReconcileTimes(p: Policy, s: State, active: seq<string>, now: int, stop: nat, cut: nat)
    requires IsSchedule(p.next)
    ensures var t := Reconciled(p, s, active, now, stop, cut);
      t.clock == now && (t.last == s.last || t.last == Floor(now))
  {
  }

  lemma FloorFacts(a: int, b: int)
    requires a <= b
    ensures Floor(a) <= Floor(b) && Floor(b) % SECOND == 0
  {
  }

  lemma {:induction false} TimesAdvance(p: Policy, creation: int, states: seq<State>, events: seq<Event>, i: nat,
                                        j: nat)
    requires IsSchedule(p.next) && IsRun(p, creation, states, events) && i <= j <= |events|
    ensures states[j].last % SECOND == 0
    ensures states[j].last <= Floor(states[j].clock)
    ensures states[i].last <= states[j].last
    ensures states[i].clock <= states[j].clock
  {
    if j > 0 {
      TimesAdvance(p, creation, states, events, if i < j then i else j - 1, j - 1);
      RunStep(p, creation, states, events, j);
      StepTimes(p, states[j - 1], events[j - 1]);
    }
  }

  lemma CompletedSaves(p: Policy, creation: int, states: seq<State>, events: seq<Event>, i: nat)
    requires IsSchedule(p.next) && IsRun(p, creation, states, events) && i < |events|
    requires Completes(p, states[i], events[i])
    ensures states[i + 1].last == Floor(events[i].now)
  {
    RunStep(p, creation, states, events, i + 1);
  }

  /**
   An instant that a completed reconcile looked at is not looked at again, although the saved time is cut to whole
   seconds.
   */
  lemma WindowsAreDisjoint(p: Policy, creation: int, states: seq<State>, events: seq<Event>, i: nat, j: nat, t: int)
    requires IsSchedule(p.next) && IsRun(p, creation, states, events) && i < j < |events|
    requires Completes(p, states[i], events[i]) && events[j].Reconcile?
    requires t in DueOf(p, states[j].last, events[j].now)
    ensures t > events[i].now
    ensures t !in DueOf(p, states[i].last, events[i].now)
  {
    CompletedSaves(p, creation, states, events, i);
    TimesAdvance(p, creation, states, events, i + 1, j);
    DueAfterSave(p, events[i].now, states[j].last, events[j].now, t);
    NotDueBefore(p, states[i].last, events[i].now, t);
  }

  lemma DueAfterSave(p: Policy, saved: int, last: int, now: int, t: int)
    requires IsSchedule(p.next) && last >= Floor(saved) && t in DueOf(p, last, now)
    ensures t > saved
  {
    DueInWindow(p.next, last, now, p.deadline, p.missed, p.maxCatchUp, t);
    TruncationIsHarmless(saved, t);
  }

  lemma NotDueBefore(p: Policy, last: int, now: int, t: int)
    requires IsSchedule(p.next) && t > now
    ensures t !in DueOf(p, last, now)
  {
    DueIsInWindow(p, last, now);
    assert forall u :: u in DueOf(p, last, now) ==> u <= now;
  }

  // ---- nothing is lost ----

  /** A crash-free reconcile whose gap fits the deadline and whose window fits the limits. */
  ghost predicate Timely(p: Policy, s: State, e: Event)
    requires IsSchedule(p.next)
  {
    e.Reconcile? ==>
      && Completes(p, s, e)
      && (p.deadline <= 0 || e.now - s.last <= p.deadline)
      && |Instants(p.next, s.last, e.now)| <= MAX_DUE
      && |Instants(p.next, s.last, e.now)| <= p.maxCatchUp
  }

  ghost predicate IsTimelyRun(p: Policy, states: seq<State>, events: seq<Event>)
    requires IsSchedule(p.next) && |events| < |states|
  {
    forall n {:trigger states[n]} :: 0 <= n < |events| ==> Timely(p, states[n], events[n])
  }

  ghost predicate HoldsBoth(all: seq<int>, a: seq<int>, b: seq<int>) {
    forall t :: t in all <==> t in a || t in b
  }

  lemma AllowVisit(p: Policy, last: int, clock: int, l: Loop, base: seq<int>, due: seq<int>, n: nat)
    requires p.concurrency == Allow && LoopInv(p, last, clock, l.tasks, l.created)
    requires 0 < n <= |due| && InWindow(due, last, clock) && HoldsBoth(l.created, base, due[..n - 1])
    ensures LoopInv(p, last, clock, Visit(p, l, due[n - 1]).tasks, Visit(p, l, due[n - 1]).created)
    ensures HoldsBoth(Visit(p, l, due[n - 1]).created, base, due[..n])
  {
    VisitKeepsInv(p, last, clock, l, due[n - 1]);
    NameTaken(p, last, clock, l.tasks, l.created, due[n - 1]);
    assert due[..n] == due[..n - 1] + [due[n - 1]];
  }

  /** Under Allow every due instant that has no task yet gets one. */
  lemma {:induction false} AllowCreatesAll(p: Policy, last: int, clock: int, l: Loop, due: seq<int>, n: nat)
    requires p.concurrency == Allow && LoopInv(p, last, clock, l.tasks, l.created)
    requires n <= |due| && InWindow(due, last, clock)
    ensures LoopInv(p, last, clock, VisitAll(p, l, due, n).tasks, VisitAll(p, l, due, n).created)
    ensures HoldsBoth(VisitAll(p, l, due, n).created, l.created, due[..n])
  {
    if n > 0 {
      AllowCreatesAll(p, last, clock, l, due, n - 1);
      AllowVisit(p, last, clock, VisitAll(p, l, due, n - 1), l.created, due, n);
    }
  }

  /** The history holds every instant that fired since the policy was created, up to the clock. */
  ghost predicate Complete(p: Policy, creation: int, s: State) {
    forall t :: t in s.created <==> creation < t <= s.clock && Fires(p.next, t)
  }

  lemma TimelyReconcile(p: Policy, creation: int, s: State, e: Event)
    requires IsSchedule(p.next) && Inv(p, s) && e.Reconcile? && Enabled(p, s, e) && Timely(p, s, e)
    requires p.concurrency == Allow && p.missed == RunAll
    requires s.last == Floor(s.clock) && creation <= s.clock && Complete(p, creation, s)
    ensures Complete(p, creation, Step(p, s, e))
  {
    var due := DueOf(p, s.last, e.now);
    DueIsInWindow(p, s.last, e.now);
    ClockKeepsInv(p, s.last, s.clock, s.tasks, s.created, e.now);
    AllowCreatesAll(p, s.last, e.now, Begin(s, e.active), due, |due|);
    assert due[..|due|] == due;
    forall t ensures t in Step(p, s, e).created <==> creation < t <= e.now && Fires(p.next, t) {
      RunAllIsComplete(p.next, s.last, e.now, p.deadline, p.maxCatchUp, t);
      WholeSecond(p.next, t);
      if t % SECOND == 0 {
        TruncationIsHarmless(s.clock, t);
      }
    }
  }

  lemma WholeSecond(next: Next, t: int)
    requires IsSchedule(next)
    ensures Fires(next, t) ==> t % SECOND == 0
  {
    assert FirstAfter(next, t - 1);
  }

  ghost predicate Covered(p: Policy, creation: int, s: State) {
    s.last == Floor(s.clock) && creation <= s.clock && Complete(p, creation, s)
  }

  lemma TimelyStep(p: Policy, creation: int, s: State, e: Event)
    requires IsSchedule(p.next) && Inv(p, s) && Enabled(p, s, e) && Timely(p, s, e)
    requires p.concurrency == Allow && p.missed == RunAll && Covered(p, creation, s)
    ensures Covered(p, creation, Step(p, s, e))
  {
    if e.Reconcile? {
      TimelyReconcile(p, creation, s, e);
    } else {
      var t := Step(p, s, e);
      assert t.created == s.created && t.clock == s.clock && t.last == s.last;
    }
  }

  lemma {:induction false} CoveredTo(p: Policy, creation: int, states: seq<State>, events: seq<Event>, n: nat)
    requires IsSchedule(p.next) && IsRun(p, creation, states, events) && IsTimelyRun(p, states, events) && n <= |events|
    requires p.concurrency == Allow && p.missed == RunAll
    ensures Covered(p, creation, states[n])
  {
    if n > 0 {
      CoveredTo(p, creation, states, events, n - 1);
      RunStep(p, creation, states, events, n);
      RunKeepsInv(p, creation, states, events, n - 1);
      assert Timely(p, states[n - 1], events[n - 1]);
      TimelyStep(p, creation, states[n - 1], events[n - 1]);
    }
  }

  /** Under RunAll and Allow, a timely run creates exactly one task for every instant of the time it covers. */
  lemma ExactlyOnce(p: Policy, creation: int, states: seq<State>, events: seq<Event>, n: nat, t: int)
    requires IsSchedule(p.next) && IsRun(p, creation, states, events) && IsTimelyRun(p, states, events) && n <= |events|
    requires p.concurrency == Allow && p.missed == RunAll
    ensures var s := states[n];
      multiset(s.created)[t] == if creation < t <= s.clock && Fires(p.next, t) then 1 else 0
  {
    CoveredTo(p, creation, states, events, n);
    RunKeepsInv(p, creation, states, events, n);
    DistinctMultiset(states[n].created, t);
  }

  // ---- Replace and crashes ----

  /** A task that runs and has not been asked to stop. */
  predicate Undisturbed(tasks: Tasks, name: string) {
    name in tasks && !tasks[name].terminal && !tasks[name].cancelRequested
  }

  ghost predicate ActiveExist(l: Loop) {
    forall n :: n in l.active ==> n in l.tasks
  }

  lemma VisitCancels(p: Policy, l: Loop, t: int, name: string)
    requires ActiveExist(l) && name in l.active
    ensures ActiveExist(Visit(p, l, t)) && name in Visit(p, l, t).active
    ensures Visit(p, l, t).tasks[name].cancelRequested <==> l.tasks[name].cancelRequested || p.concurrency == Replace
  {
    CancelFacts(l.tasks, l.active);
  }

  lemma {:induction false} VisitAllCancels(p: Policy, l: Loop, due: seq<int>, n: nat, name: string)
    requires ActiveExist(l) && name in l.active && n <= |due| && !l.tasks[name].cancelRequested
    ensures ActiveExist(VisitAll(p, l, due, n)) && name in VisitAll(p, l, due, n).active
    ensures VisitAll(p, l, due, n).tasks[name].cancelRequested <==> p.concurrency == Replace && n > 0
  {
    if n > 0 {
      VisitAllCancels(p, l, due, n - 1, name);
      VisitCancels(p, VisitAll(p, l, due, n - 1), due[n - 1], name);
    }
  }

  /**
   A reconcile that gets past its first due instant asks a running task to stop exactly under Replace, and if anything
   was due at all.
   */
  lemma ReconcileCancelsIff(p: Policy, s: State, active: seq<string>, now: int, stop: nat, cut: nat, name: string)
    requires IsSchedule(p.next) && Enumerates(active, NonTerminal(s.tasks)) && stop > 0
    requires Undisturbed(s.tasks, name)
    ensures var after := Reconciled(p, s, active, now, stop, cut).tasks;
      name in after && (after[name].cancelRequested <==> p.concurrency == Replace && DueOf(p, s.last, now) != [])
  {
    var due := DueOf(p, s.last, now);
    var n := if stop > |due| then |due| else stop;
    assert name in active;
    VisitAllCancels(p, Begin(s, active), due, n, name);
    var l := VisitAll(p, Begin(s, active), due, n);
    CancelFacts(l.tasks, Cut(l.active, cut));
  }

  ghost predicate Saves(p: Policy, states: seq<State>, events: seq<Event>, k: nat)
    requires IsSchedule(p.next) && k < |events| < |states|
  {
    Completes(p, states[k], events[k])
  }

  lemma {:induction false} NothingSaved(p: Policy, creation: int, states: seq<State>, events: seq<Event>, i: nat,
                                        j: nat)
    requires IsSchedule(p.next) && IsRun(p, creation, states, events) && i <= j <= |events|
    requires forall k {:trigger Saves(p, states, events, k)} :: i <= k < j ==> !Saves(p, states, events, k)
    ensures states[j].last == states[i].last
  {
    if i < j {
      NothingSaved(p, creation, states, events, i, j - 1);
      RunStep(p, creation, states, events, j);
      assert !Saves(p, states, events, j - 1);
    }
  }

  /**
   A reconcile that dies between creating a task and saving the evaluation time is repeated, at whatever time and with
   whatever else running, and finds its own task active. The repetition asks that very task to stop exactly under
   Replace, and when the window since the last saved time still yields a due instant.
   */
  lemma RepeatCancelsOwnTaskIff(p: Policy, creation: int, states: seq<State>, events: seq<Event>, i: nat, j: nat,
                                t: int)
    requires IsSchedule(p.next) && IsRun(p, creation, states, events) && i < j < |events|
    requires events[i].Reconcile? && events[j].Reconcile? && events[j].stop > 0
    requires forall k {:trigger Saves(p, states, events, k)} :: i <= k < j ==> !Saves(p, states, events, k)
    requires t in states[i + 1].created && t !in states[i].created
    requires Undisturbed(states[j].tasks, NameOf(p, t))
    ensures var after := states[j + 1].tasks;
      && NameOf(p, t) in after
      && (after[NameOf(p, t)].cancelRequested
          <==> p.concurrency == Replace && DueOf(p, states[i].last, events[j].now) != [])
  {
    NothingSaved(p, creation, states, events, i, j);
    RunStep(p, creation, states, events, j + 1);
    ReconcileCancelsIff(p, states[j], events[j].active, events[j].now, events[j].stop, events[j].cut, NameOf(p, t));
  }

  lemma OneVisit(p: Policy, l: Loop, t: int)
    ensures VisitAll(p, l, [t], 1) == Visit(p, l, t)
  {
    assert VisitAll(p, l, [t], 0) == l;
  }

  /**
   It happens: a policy due every minute, with the default deadline of an hour, created at time 0, whose first reconcile
   dies after creating its task and is repeated at once.
   */
  lemma RepeatedRunIsLost(name: string, fallback: string)
    ensures IsSchedule(EveryMinute)
    ensures var p := Policy(EveryMinute, name, fallback, 60 * MINUTE, RunOnce, 1, Replace);
      var own := NameOf(p, MINUTE);
      var died := Reconciled(p, State(map[], 0, [], [], 0), [], MINUTE, 1, 0);
      var again := Reconciled(p, died, [own], MINUTE, 2, 0);
      && died.created == [MINUTE] && Undisturbed(died.tasks, own) && Enumerates([own], NonTerminal(died.tasks))
      && own in again.tasks && again.tasks[own].cancelRequested && Live(again.tasks) == {}
  {
    var p := Policy(EveryMinute, name, fallback, 60 * MINUTE, RunOnce, 1, Replace);
    var start := State(map[], 0, [], [], 0);
    MinuteInstants(0, 1);
    assert Instants(EveryMinute, 0 * MINUTE, 1 * MINUTE) == [MINUTE];
    assert DueOf(p, 0, MINUTE) == [MINUTE];
    OneVisit(p, Begin(start, []), MINUTE);
    var died := Reconciled(p, start, [], MINUTE, 1, 0);
    var own := NameOf(p, MINUTE);
    assert died.tasks == map[own := Task(MINUTE, true, false, false)];
    assert NonTerminal(died.tasks) == {own};
    ReconcileCancelsIff(p, died, [own], MINUTE, 2, 0, own);
    OneVisit(p, Begin(died, [own]), MINUTE);
    CancelFacts(died.tasks, [own]);
    assert Reconciled(p, died, [own], MINUTE, 2, 0).tasks.Keys == {own};
  }
}
