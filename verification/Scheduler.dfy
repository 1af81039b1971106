/**
 Which scheduled instants are due. Times are integers in nanoseconds; the cron library is a function `next` that
 returns the first firing instant after a time, and firing instants are whole seconds.
 */
module Scheduler {
  import opened Basics
  import opened Sorting

  const MINUTE: int := 60 * SECOND
  const MAX_DUE: nat := 1000
  const NAME_LIMIT: nat := 63

  type Next = int -> int

  ghost predicate IsSchedule(next: Next) {
    forall t :: FirstAfter(next, t)
  }

  /** next(t) is the first instant after `t`: asking from anywhere in between gives the same answer. */
  ghost predicate FirstAfter(next: Next, t: int) {
    && next(t) > t
    && next(t) % SECOND == 0
    && forall u :: t <= u < next(t) ==> next(u) == next(t)
  }

  ghost predicate Fires(next: Next, t: int) {
    next(t - 1) == t
  }

  /** All firing instants after `from`, up to and including `until`. */
  ghost function Instants(next: Next, from: int, until: int): seq<int>
    requires IsSchedule(next)
    decreases until - from
  {
    assert FirstAfter(next, from);
    if next(from) > until then [] else [next(from)] + Instants(next, next(from), until)
  }

  lemma FirstInstant(next: Next, from: int, t: int)
    requires IsSchedule(next)
    ensures Fires(next, next(from))
    ensures from < t && Fires(next, t) ==> next(from) <= t
  {
    assert FirstAfter(next, from);
    assert next(next(from) - 1) == next(from);
    if from < t < next(from) {
      assert next(t - 1) == next(from);
    }
  }

  /** Nothing is missing and nothing is added. */
  lemma {:induction false} InstantsAreAll(next: Next, from: int, until: int, t: int)
    requires IsSchedule(next)
    ensures t in Instants(next, from, until) <==> from < t <= until && Fires(next, t)
    ensures t in Instants(next, from, until) ==> t % SECOND == 0
    decreases until - from
  {
    FirstInstant(next, from, t);
    assert FirstAfter(next, from);
    if next(from) <= until {
      InstantsAreAll(next, next(from), until, t);
    }
  }

  ghost predicate StrictlyAscending(s: seq<int>) {
    forall i, j :: 0 <= i < j < |s| ==> s[i] < s[j]
  }

  lemma {:induction false} InstantsAscend(next: Next, from: int, until: int)
    requires IsSchedule(next)
    ensures StrictlyAscending(Instants(next, from, until))
    decreases until - from
  {
    assert FirstAfter(next, from);
    if next(from) <= until {
      InstantsAscend(next, next(from), until);
      var rest := Instants(next, next(from), until);
      forall j | 0 <= j < |rest| ensures next(from) < rest[j] {
        InstantsAreAll(next, next(from), until, rest[j]);
      }
    }
  }

  // ---- due times ----

  datatype MissedRunPolicy = Skip | RunOnce | RunAll | Other

  /** Where the window starts: never further back than the starting deadline. */
  function WindowStart(last: int, now: int, deadline: int): int {
    if deadline > 0 && last < now - deadline then now - deadline else last
  }

  /** What the missed-run policy makes of the instants found. */
  function Choose(all: seq<int>, now: int, policy: MissedRunPolicy, maxCatchUp: int): seq<int> {
    var limit := if maxCatchUp < 1 then 1 else maxCatchUp;
    if all == [] then []
    else
      var latest := all[|all| - 1];
      match policy
      case Skip => if now - latest <= MINUTE then [latest] else []
      case RunAll => if |all| > limit then all[|all| - limit..] else all
      case _ => [latest]
  }

  ghost function Due(next: Next, last: int, now: int, deadline: int, policy: MissedRunPolicy, maxCatchUp: int): seq<int>
    requires IsSchedule(next)
  {
    Choose(Cut(Instants(next, WindowStart(last, now, deadline), now), MAX_DUE), now, policy, maxCatchUp)
  }

  lemma {:induction false} InstantsUnfold(next: Next, from: int, until: int, k: nat)
    requires IsSchedule(next) && k <= |Instants(next, from, until)|
    ensures var cursor := if k == 0 then from else Instants(next, from, until)[k - 1];
      Instants(next, from, until)[k..] == Instants(next, cursor, until)
    decreases k
  {
    if k > 0 {
      InstantsUnfold(next, next(from), until, k - 1);
      assert Instants(next, from, until)[k..] == Instants(next, next(from), until)[k - 1..];
    }
  }

  method DueTimes(next: Next, last: int, now: int, deadline: int, policy: MissedRunPolicy, maxCatchUp: int)
    returns (due: seq<int>)
    requires IsSchedule(next)
    ensures due == Due(next, last, now, deadline, policy, maxCatchUp)
  {
    var from := WindowStart(last, now, deadline);
    var all: seq<int> := [];
    var cursor := from;
    ghost var goal := Instants(next, from, now);
    var i := 0;
    while i < MAX_DUE
      invariant 0 <= i == |all| <= MAX_DUE && |all| <= |goal| && all == goal[..i]
      invariant cursor == if i == 0 then from else goal[i - 1]
    {
      InstantsUnfold(next, from, now, i);
      var instant := next(cursor);
      if instant > now {
        break;
      }
      assert goal[i..][0] == instant;
      all := all + [instant];
      cursor := instant;
      i := i + 1;
    }
    assert all == Cut(goal, MAX_DUE) by {
      if |all| < MAX_DUE {
        InstantsUnfold(next, from, now, i);
      }
    }
    due := Choose(all, now, policy, maxCatchUp);
  }

  /** Every chosen instant fires, and lies in the window. */
  lemma DueInWindow(next: Next, last: int, now: int, deadline: int, policy: MissedRunPolicy, maxCatchUp: int, t: int)
    requires IsSchedule(next) && t in Due(next, last, now, deadline, policy, maxCatchUp)
    ensures last < t <= now && (deadline > 0 ==> now - deadline < t)
    ensures Fires(next, t) && t % SECOND == 0
  {
    var all := Instants(next, WindowStart(last, now, deadline), now);
    assert t in all;
    InstantsAreAll(next, WindowStart(last, now, deadline), now, t);
  }

  lemma SuffixHoldsLater(all: seq<int>, cut: nat, t: int, u: int)
    requires StrictlyAscending(all) && cut <= |all| && u in all[cut..] && t in all && u < t
    ensures t in all[cut..]
  {
    var i :| 0 <= i < |all| && all[i] == t;
    var j :| 0 <= j < |all| - cut && all[cut..][j] == u;
    assert all[cut + j] == u;
    assert all[cut..][i - cut] == t;
  }

  /** What is chosen is the end of what was found. */
  lemma ChosenIsSuffix(all: seq<int>, now: int, policy: MissedRunPolicy, maxCatchUp: int)
    ensures var due := Choose(all, now, policy, maxCatchUp);
      |due| <= |all| && due == all[|all| - |due|..]
  {
  }

  lemma CutOffLatest(all: seq<int>, due: seq<int>)
    requires StrictlyAscending(all) && |all| > MAX_DUE && due != [] && |due| <= MAX_DUE
    requires due == all[..MAX_DUE][MAX_DUE - |due|..]
    ensures exists t, u :: u in due && t in all && u < t && t !in due
  {
    var t, u := all[|all| - 1], due[|due| - 1];
    forall i | 0 <= i < |due| ensures due[i] < t {
      assert due[i] == all[MAX_DUE - |due| + i];
    }
    assert u in due && t in all && u < t && t !in due;
  }

  /**
   Under every missed-run policy, no instant is passed over for an earlier one exactly when the window holds at most a
   thousand instants, or when Skip finds the thousandth more than a minute old and so drops everything.
   */
  lemma LatestIff(next: Next, last: int, now: int, deadline: int, policy: MissedRunPolicy, maxCatchUp: int)
    requires IsSchedule(next)
    ensures var all := Instants(next, WindowStart(last, now, deadline), now);
      var due := Due(next, last, now, deadline, policy, maxCatchUp);
      (forall t, u :: u in due && t in all && u < t ==> t in due)
      <==> |all| <= MAX_DUE || (policy == Skip && now - all[MAX_DUE - 1] > MINUTE)
  {
    var all := Instants(next, WindowStart(last, now, deadline), now);
    var due := Due(next, last, now, deadline, policy, maxCatchUp);
    InstantsAscend(next, WindowStart(last, now, deadline), now);
    ChosenIsSuffix(Cut(all, MAX_DUE), now, policy, maxCatchUp);
    if |all| <= MAX_DUE {
      forall t, u | u in due && t in all && u < t ensures t in due {
        SuffixHoldsLater(all, |all| - |due|, t, u);
      }
    } else if due != [] {
      CutOffLatest(all, due);
    }
  }

  /** What the loop finds: the firing instants after the last evaluation and within the deadline. */
  lemma WindowIff(next: Next, last: int, now: int, deadline: int, t: int)
    requires IsSchedule(next)
    ensures t in Instants(next, WindowStart(last, now, deadline), now)
      <==> last < t <= now && (deadline > 0 ==> now - deadline < t) && Fires(next, t)
  {
    InstantsAreAll(next, WindowStart(last, now, deadline), now, t);
  }

  function Newer(s: seq<int>, t: int): set<int> {
    set u | u in s && t < u
  }

  lemma {:induction false} NewerCount(s: seq<int>, i: nat)
    requires StrictlyAscending(s) && i < |s|
    ensures |Newer(s, s[i])| == |s| - 1 - i
    decreases |s|
  {
    var init, last := s[..|s| - 1], s[|s| - 1];
    if i < |s| - 1 {
      NewerCount(init, i);
      assert Newer(s, s[i]) == Newer(init, s[i]) + {last};
      assert last !in Newer(init, s[i]);
    } else {
      assert Newer(s, s[i]) == {};
    }
  }

  /** A prefix of what the loop would find: the first thousand instants. */
  ghost function FoundInstants(next: Next, last: int, now: int, deadline: int): seq<int>
    requires IsSchedule(next)
  {
    Cut(Instants(next, WindowStart(last, now, deadline), now), MAX_DUE)
  }

  /**
   Which of the instants found are due: the newest `maxCatchUp` under RunAll, at least one; the newest one under RunOnce
   and any other policy; and under Skip that one only while it is no more than a minute old.
   */
  lemma DueIff(next: Next, last: int, now: int, deadline: int, policy: MissedRunPolicy, maxCatchUp: int, t: int)
    requires IsSchedule(next)
    ensures var found := FoundInstants(next, last, now, deadline);
      t in Due(next, last, now, deadline, policy, maxCatchUp) <==>
        && t in found
        && match policy
           case RunAll => |Newer(found, t)| < maxCatchUp || |Newer(found, t)| == 0
           case Skip => Newer(found, t) == {} && now - t <= 60 * SECOND
           case _ => Newer(found, t) == {}
  {
    var found := FoundInstants(next, last, now, deadline);
    InstantsAscend(next, WindowStart(last, now, deadline), now);
    if t in found {
      var i :| 0 <= i < |found| && found[i] == t;
      NewerCount(found, i);
      SuffixHas(found, if policy == RunAll then Max(maxCatchUp, 1) else 1, i);
    }
  }

  lemma SuffixHas(s: seq<int>, n: nat, i: nat)
    requires StrictlyAscending(s) && i < |s|
    ensures s[i] in (if |s| > n then s[|s| - n..] else s) <==> |s| - 1 - i < n
  {
    if |s| > n && |s| - 1 - i < n {
      assert s[|s| - n..][i - (|s| - n)] == s[i];
    }
  }

  // ---- the schedule `* * * * *` ----

  function EveryMinute(t: int): int {
    t - t % MINUTE + MINUTE
  }

  lemma EveryMinuteIsSchedule()
    ensures IsSchedule(EveryMinute)
  {
    forall t ensures FirstAfter(EveryMinute, t) {
      forall u | t <= u < EveryMinute(t) ensures EveryMinute(u) == EveryMinute(t) {
        SameMinute(t, u);
      }
    }
  }

  lemma SameMinute(t: int, u: int)
    requires t <= u < t - t % MINUTE + MINUTE
    ensures u - u % MINUTE == t - t % MINUTE
  {
    assert u == t / MINUTE * MINUTE + (t % MINUTE + (u - t));
  }

  lemma {:induction false} MinuteInstants(a: nat, b: nat)
    requires a <= b
    ensures IsSchedule(EveryMinute)
    ensures var all := Instants(EveryMinute, a * MINUTE, b * MINUTE);
      |all| == b - a && forall k :: 0 <= k < b - a ==> all[k] == (a + k + 1) * MINUTE
    decreases b - a
  {
    EveryMinuteIsSchedule();
    assert EveryMinute(a * MINUTE) == (a + 1) * MINUTE;
    if a < b {
      MinuteInstants(a + 1, b);
      var rest := Instants(EveryMinute, (a + 1) * MINUTE, b * MINUTE);
      assert Instants(EveryMinute, a * MINUTE, b * MINUTE) == [(a + 1) * MINUTE] + rest;
    }
  }

  /**
   A policy due every minute whose starting deadline reaches back 1001 minutes or further, and that was not looked at
   for 1001 minutes, runs the 1000th instant, not the latest. A policy that sets no deadline gets an hour, and then the
   thousand steps reach the latest instant.
   */
  lemma LateByAMinute(deadline: int, maxCatchUp: int)
    requires deadline >= 1001 * MINUTE
    ensures IsSchedule(EveryMinute)
    ensures Due(EveryMinute, 0, 1001 * MINUTE, deadline, RunOnce, maxCatchUp) == [1000 * MINUTE]
    ensures Due(EveryMinute, 0, 1001 * MINUTE, 60 * MINUTE, RunOnce, maxCatchUp) == [1001 * MINUTE]
    ensures 1001 * MINUTE in Instants(EveryMinute, 0, 1001 * MINUTE)
  {
    MinuteInstants(0, 1001);
    var all := Instants(EveryMinute, 0 * MINUTE, 1001 * MINUTE);
    assert all[1000] == 1001 * MINUTE;
    assert all[..MAX_DUE][MAX_DUE - 1] == all[999];
    MinuteInstants(941, 1001);
    assert WindowStart(0, 1001 * MINUTE, 60 * MINUTE) == 941 * MINUTE;
    assert Instants(EveryMinute, 941 * MINUTE, 1001 * MINUTE)[59] == 1001 * MINUTE;
  }

  /** RunAll runs everything that fired since the last evaluation, when that fits the deadline and the limits. */
  lemma RunAllIsComplete(next: Next, last: int, now: int, deadline: int, maxCatchUp: int, t: int)
    requires IsSchedule(next)
    requires deadline <= 0 || now - last <= deadline
    requires |Instants(next, last, now)| <= MAX_DUE && |Instants(next, last, now)| <= maxCatchUp
    ensures t in Due(next, last, now, deadline, RunAll, maxCatchUp) <==> last < t <= now && Fires(next, t)
  {
    InstantsAreAll(next, last, now, t);
  }

  // ---- the saved evaluation time ----

  /** What survives of a time in the status: whole seconds. */
  function Floor(t: int): int {
    t - t % SECOND
  }

  /** Cutting the saved time to seconds does not bring back an instant that was looked at already. */
  lemma TruncationIsHarmless(saved: int, t: int)
    requires t % SECOND == 0
    ensures t > Floor(saved) <==> t > saved
  {
  }

  // ---- task names ----

  function Digits(n: nat): string {
    if n < 10 then [(n as char) + '0'] else Digits(n / 10) + [((n % 10) as char) + '0']
  }

  predicate IsDigit(c: char) {
    '0' <= c <= '9'
  }

  function FromDigits(s: string): nat
    requires forall c :: c in s ==> IsDigit(c)
  {
    if s == "" then 0
    else
      var last := s[|s| - 1];
      assert last in s && IsDigit(last) && '0' as int <= last as int;
      10 * FromDigits(s[..|s| - 1]) + (last as int - '0' as int)
  }

  lemma {:induction false} DigitsRoundTrip(n: nat)
    ensures forall c :: c in Digits(n) ==> IsDigit(c)
    ensures FromDigits(Digits(n)) == n
    ensures Digits(n) != ""
  {
    var s := Digits(n);
    if n >= 10 {
      DigitsRoundTrip(n / 10);
      assert s[..|s| - 1] == Digits(n / 10);
    } else {
      assert s[..|s| - 1] == "";
    }
  }

  lemma TenthBelow(n: nat, tenth: nat)
    requires n < 10 * tenth
    ensures n / 10 < tenth
  {
  }

  lemma {:induction false} DigitsLength(n: nat, width: nat)
    requires width > 0 && n < Pow10(width)
    ensures |Digits(n)| <= width
    decreases width
  {
    if n >= 10 {
      assert Pow10(width) == 10 * Pow10(width - 1) && Pow10(0) == 1;
      TenthBelow(n, Pow10(width - 1));
      DigitsLength(n / 10, width - 1);
    }
  }

  function Pow10(width: nat): nat {
    if width == 0 then 1 else 10 * Pow10(width - 1)
  }

  function TrimRight(s: string): (r: string)
    ensures |r| <= |s|
    ensures r == "" || r[|r| - 1] != '-'
  {
    if s != "" && s[|s| - 1] == '-' then TrimRight(s[..|s| - 1]) else s
  }

  function TrimLeft(s: string): (r: string)
    ensures |r| <= |s|
  {
    if s != "" && s[0] == '-' then TrimLeft(s[1..]) else s
  }

  function TaskPrefix(policyName: string, fallback: string, unix: nat): string {
    var trimmed := TrimLeft(TrimRight(policyName));
    var used := 1 + |Digits(unix)|;
    var room := if used < NAME_LIMIT then NAME_LIMIT - used else 0;
    var prefix := if |trimmed| > room then TrimRight(trimmed[..room]) else trimmed;
    if prefix == "" then fallback else prefix
  }

  /** DeterministicTaskName; `fallback` is the prefix made from the hash of a name that is all dashes. */
  function TaskName(policyName: string, fallback: string, unix: nat): string {
    TaskPrefix(policyName, fallback, unix) + "-" + Digits(unix)
  }

  lemma DashInside(a: string, x: string, b: string, y: string)
    requires '-' !in y && |x| < |y| && |a| + |x| == |b| + |y|
    ensures a + "-" + x != b + "-" + y
  {
    var s, t := a + "-" + x, b + "-" + y;
    assert s[|a|] == '-' && t[|a|] == y[|a| - |b| - 1] && y[|a| - |b| - 1] in y;
  }

  lemma LastDash(a: string, x: string, b: string, y: string)
    requires '-' !in x && '-' !in y && a + "-" + x == b + "-" + y
    ensures x == y
  {
    var s, t := a + "-" + x, b + "-" + y;
    if |x| < |y| {
      DashInside(a, x, b, y);
    } else if |y| < |x| {
      DashInside(b, y, a, x);
    } else {
      assert s[|s| - |x|..] == x && t[|t| - |y|..] == y;
    }
  }

  /** For one policy the name identifies the second, although it may be truncated. */
  lemma TaskNameInjective(policyName: string, fallback: string, m: nat, n: nat)
    ensures TaskName(policyName, fallback, m) == TaskName(policyName, fallback, n) <==> m == n
  {
    var x, y := TaskName(policyName, fallback, m), TaskName(policyName, fallback, n);
    DigitsRoundTrip(m);
    DigitsRoundTrip(n);
    if x == y {
      LastDash(TaskPrefix(policyName, fallback, m), Digits(m), TaskPrefix(policyName, fallback, n), Digits(n));
    }
  }

  /** And it fits a label value. */
  lemma TaskNameLength(policyName: string, fallback: string, unix: nat)
    requires unix < 0x8000_0000_0000_0000 && |fallback| == 15
    ensures |TaskName(policyName, fallback, unix)| <= NAME_LIMIT
  {
    assert Pow10(19) == 10_000_000_000_000_000_000 by {
      assert Pow10(4) == 10_000;
      assert Pow10(8) == 100_000_000;
      assert Pow10(12) == 1_000_000_000_000;
      assert Pow10(16) == 10_000_000_000_000_000;
    }
    DigitsLength(unix, 19);
  }
}
