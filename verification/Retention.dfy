/**
 Which records a policy's retention deletes. The code marks in two passes and then sweeps with a cap; the
 theorem is that this is one closed form: the oldest so-many eligible records.
 */
module Retention {
  import opened Basics
  import opened Sorting

  datatype RecordPhase =
    | Pending | Available | PartiallyAvailable | Verifying | Broken | SnapshotMissing | RepoUnavailable | Expired
    | Deleting | Deleted

  /** `created` is a time in nanoseconds. */
  datatype Record = Record(name: string, created: int, phase: RecordPhase, protectedStatus: bool,
    protectedAnnotation: bool)

  datatype Policy = Policy(maxCopies: int, minCopies: int, maxAgeDays: int)

  const DAY: int := 86_400_000_000_000
  const MAX_AGE_DAYS_EXACT: int := 106751

  predicate Protected(r: Record) {
    r.protectedStatus || r.protectedAnnotation
  }

  predicate IsEligible(r: Record) {
    !Protected(r) && r.phase != Verifying && r.phase != Deleting
  }

  function Eligible(records: seq<Record>): seq<Record> {
    Filter(records, IsEligible)
  }

  function Older(a: Record, b: Record): bool {
    a.created < b.created
  }

  function Cutoff(now: int, maxAgeDays: int): int {
    now + Wrap64(-Wrap64(maxAgeDays * DAY))
  }

  /** The cutoff is the intended moment exactly as long as the age fits a 64-bit nanosecond duration. */
  lemma CutoffExactIff(now: int, days: int)
    requires 0 <= days < 0x8000_0000
    ensures Cutoff(now, days) == now - days * DAY <==> days <= MAX_AGE_DAYS_EXACT
  {
  }

  /** One day more, and the cutoff lies in the future: every eligible record counts as aged. */
  lemma CutoffWraps(now: int)
    ensures Cutoff(now, MAX_AGE_DAYS_EXACT + 1) > now
  {
  }

  function OlderThan(records: seq<Record>, cutoff: int): nat {
    if records == [] then 0
    else OlderThan(records[..|records| - 1], cutoff) + if records[|records| - 1].created < cutoff then 1 else 0
  }

  /** How many records are past the age limit; none when there is no limit. */
  function Aged(eligible: seq<Record>, policy: Policy, now: int): nat {
    if policy.maxAgeDays > 0 then OlderThan(eligible, Cutoff(now, policy.maxAgeDays)) else 0
  }

  /** The closed form: too many or too old, but never below the minimum number of copies. */
  function DeleteCount(eligible: seq<Record>, policy: Policy, now: int): (k: nat)
    ensures k <= |eligible|
    ensures |eligible| - k >= Min(|eligible|, Max(policy.minCopies, 0))
  {
    var n := |eligible|;
    var surplus := if policy.maxCopies > 0 then n - policy.maxCopies else 0;
    Min(Max(Max(surplus, Aged(eligible, policy, now)), 0), Max(0, n - Max(policy.minCopies, 0)))
  }

  lemma {:induction false} OlderThanBound(s: seq<Record>, cutoff: int)
    ensures OlderThan(s, cutoff) <= |s|
  {
    if s != [] {
      OlderThanBound(s[..|s| - 1], cutoff);
    }
  }

  lemma {:induction false} OlderThanConcat(a: seq<Record>, b: seq<Record>, cutoff: int)
    ensures OlderThan(a + b, cutoff) == OlderThan(a, cutoff) + OlderThan(b, cutoff)
    decreases |b|
  {
    if b == [] {
      assert a + b == a;
    } else {
      assert (a + b)[..|a + b| - 1] == a + b[..|b| - 1];
      OlderThanConcat(a, b[..|b| - 1], cutoff);
    }
  }

  lemma {:induction false} OlderThanPermutation(a: seq<Record>, b: seq<Record>, cutoff: int)
    requires multiset(a) == multiset(b)
    ensures OlderThan(a, cutoff) == OlderThan(b, cutoff)
    decreases |a|
  {
    SameElements(a, b);
    if a != [] {
      var x := a[|a| - 1];
      assert x in b;
      var j :| 0 <= j < |b| && b[j] == x;
      var b' := b[..j] + b[j + 1..];
      assert b == b[..j] + [x] + b[j + 1..];
      DropLast(a);
      assert multiset(a[..|a| - 1]) == multiset(b');
      OlderThanPermutation(a[..|a| - 1], b', cutoff);
      OlderThanConcat(b[..j], b[j + 1..], cutoff);
      OlderThanConcat(b[..j] + [x], b[j + 1..], cutoff);
      assert (b[..j] + [x])[..j] == b[..j];
    }
  }

  /** In creation order the aged records come first. */
  lemma {:induction false} AgedArePrefix(s: seq<Record>, cutoff: int, i: nat)
    requires SortedBy(s, Older) && i < |s|
    ensures s[i].created < cutoff <==> i < OlderThan(s, cutoff)
  {
    OlderThanBound(s, cutoff);
    OlderThanBound(s[..|s| - 1], cutoff);
    if i < |s| - 1 {
      AgedArePrefix(s[..|s| - 1], cutoff, i);
      assert !Older(s[|s| - 1], s[i]);
    } else if s[i].created < cutoff && |s| > 1 {
      AgedArePrefix(s[..|s| - 1], cutoff, |s| - 2);
      assert !Older(s[i], s[i - 1]);
    }
  }

  // ---- the code ----

  ghost predicate UniqueNames(records: seq<Record>) {
    forall i, j :: 0 <= i < j < |records| ==> records[i].name != records[j].name
  }

  /** `sorted` arranges `records` by creation time; the order of equally old records is open. */
  ghost predicate Arranges(sorted: seq<Record>, records: seq<Record>) {
    multiset(sorted) == multiset(records) && SortedBy(sorted, Older)
  }

  function NameSet(records: seq<Record>): set<string> {
    set r | r in records :: r.name
  }

  lemma NameSetGrows(s: seq<Record>, i: nat)
    requires i < |s|
    ensures NameSet(s[..i + 1]) == NameSet(s[..i]) + {s[i].name}
  {
    assert s[..i + 1] == s[..i] + [s[i]];
  }

  lemma NameInPrefix(s: seq<Record>, i: nat, m: nat)
    requires UniqueNames(s) && i < |s| && m <= |s|
    ensures s[i].name in NameSet(s[..m]) <==> i < m
  {
    if i < m {
      assert s[i] in s[..m];
    }
  }

  method SortByCreation(records: seq<Record>) returns (sorted: seq<Record>)
    ensures Arranges(sorted, records)
  {
    SortFacts(records, Older);
    sorted := Sort(records, Older);
  }

  /** How many records both passes mark together. */
  function MarkedCount(eligible: seq<Record>, policy: Policy, now: int, keep: nat): (m: nat)
    ensures m <= |eligible|
  {
    var n := |eligible|;
    var surplus := if policy.maxCopies > 0 then n - policy.maxCopies else 0;
    Max(Max(surplus, 0), Min(Aged(eligible, policy, now), Max(0, n - keep)))
  }

  /** The names marked by both passes are those of a prefix of the sorted records. */
  method Mark(eligible: seq<Record>, policy: Policy, now: int, keep: nat) returns (marked: set<string>)
    requires SortedBy(eligible, Older)
    ensures marked == NameSet(eligible[..MarkedCount(eligible, policy, now, keep)])
  {
    marked := {};
    ghost var m := 0;
    var n := |eligible|;
    if policy.maxCopies > 0 && n > policy.maxCopies {
      var i := 0;
      while i < n - policy.maxCopies
        invariant 0 <= i <= n - policy.maxCopies
        invariant marked == NameSet(eligible[..i])
      {
        NameSetGrows(eligible, i);
        marked := marked + {eligible[i].name};
        i := i + 1;
      }
      m := i;
    }
    if policy.maxAgeDays > 0 {
      var cutoff := Cutoff(now, policy.maxAgeDays);
      ghost var first := m;
      ghost var limit := Min(OlderThan(eligible, cutoff), Max(0, n - keep));
      OlderThanBound(eligible, cutoff);
      var i := 0;
      while i < n
        invariant 0 <= i <= n
        invariant m == Max(first, Min(i, limit)) && m <= n
        invariant marked == NameSet(eligible[..m])
      {
        AgedArePrefix(eligible, cutoff, i);
        if n - i > keep && eligible[i].created < cutoff {
          if i < m {
            assert eligible[i] in eligible[..m];
          } else {
            NameSetGrows(eligible, i);
            m := i + 1;
          }
          marked := marked + {eligible[i].name};
        }
        i := i + 1;
      }
    }
  }

  /** Select: mark by count and by age, then sweep oldest first while more than the minimum remains. */
  method Select(records: seq<Record>, policy: Policy, now: int) returns (selected: seq<Record>)
    requires UniqueNames(records)
    ensures exists sorted ::
      && Arranges(sorted, Eligible(records)) && |sorted| == |Eligible(records)|
      && selected == sorted[..DeleteCount(Eligible(records), policy, now)]
    ensures forall r :: r in selected ==>
      r in records && !r.protectedStatus && !r.protectedAnnotation && r.phase !in {Verifying, Deleting}
  {
    var eligible: seq<Record> := [];
    var i := 0;
    while i < |records|
      invariant 0 <= i <= |records|
      invariant eligible == Eligible(records[..i])
    {
      assert records[..i + 1][..i] == records[..i];
      if IsEligible(records[i]) {
        eligible := eligible + [records[i]];
      }
      i := i + 1;
    }
    assert records[..i] == records;
    eligible := SortByCreation(eligible);
    var keep := Max(policy.minCopies, 0);
    var marked := Mark(eligible, policy, now, keep);
    EligibleNames(records, eligible);
    selected := Sweep(eligible, marked, keep, MarkedCount(eligible, policy, now, keep));
    if policy.maxAgeDays > 0 {
      OlderThanPermutation(eligible, Eligible(records), Cutoff(now, policy.maxAgeDays));
      OlderThanBound(eligible, Cutoff(now, policy.maxAgeDays));
    }
    SameElements(eligible, Eligible(records));
    forall r | r in selected
      ensures r in records && !r.protectedStatus && !r.protectedAnnotation && r.phase !in {Verifying, Deleting}
    {
      SelectedAreFree(records, eligible, policy, now, r);
    }
  }

  method Sweep(eligible: seq<Record>, marked: set<string>, keep: nat, ghost m: nat) returns (selected: seq<Record>)
    requires UniqueNames(eligible) && m <= |eligible| && marked == NameSet(eligible[..m])
    ensures selected == eligible[..Min(m, Max(0, |eligible| - keep))]
  {
    ghost var cap := Min(m, Max(0, |eligible| - keep));
    selected := [];
    var i := 0;
    while i < |eligible|
      invariant 0 <= i <= |eligible|
      invariant selected == eligible[..Min(i, cap)]
    {
      NameInPrefix(eligible, i, m);
      if eligible[i].name in marked && |eligible| - |selected| > keep {
        selected := selected + [eligible[i]];
      }
      i := i + 1;
    }
  }

  lemma {:induction false} EligibleKeepsUnique(records: seq<Record>)
    requires UniqueNames(records)
    ensures UniqueNames(Eligible(records))
  {
    if records != [] {
      var init, last := records[..|records| - 1], records[|records| - 1];
      EligibleKeepsUnique(init);
      FilterMembers(init, IsEligible);
      var e := Eligible(init);
      forall i | 0 <= i < |e| ensures e[i].name != last.name {
        assert e[i] in init;
      }
    }
  }

  lemma EligibleNames(records: seq<Record>, sorted: seq<Record>)
    requires UniqueNames(records) && Arranges(sorted, Eligible(records))
    ensures UniqueNames(sorted)
  {
    EligibleKeepsUnique(records);
    var e := Eligible(records);
    forall i, j | 0 <= i < j < |e| ensures e[i] != e[j] {
      assert e[i].name != e[j].name;
    }
    PermutationKeepsDistinct(e, sorted);
    SameElements(e, sorted);
    forall i, j | 0 <= i < j < |sorted| ensures sorted[i].name != sorted[j].name {
      assert sorted[i] in e && sorted[j] in e;
      var k :| 0 <= k < |e| && e[k] == sorted[i];
      var l :| 0 <= l < |e| && e[l] == sorted[j];
      assert k != l;
      assert k < l ==> e[k].name != e[l].name;
      assert l < k ==> e[l].name != e[k].name;
    }
  }

  // ---- what follows from the closed form ----

  /** Selected records are eligible, the survivors are no older, and enough of them remain. */
  lemma SelectionIsSafe(records: seq<Record>, sorted: seq<Record>, policy: Policy, now: int)
    requires Arranges(sorted, Eligible(records))
    ensures var k := DeleteCount(Eligible(records), policy, now);
      && k <= |sorted|
      && (forall r :: r in sorted[..k] ==> r in records && IsEligible(r))
      && (forall i, j :: 0 <= i < k <= j < |sorted| ==> sorted[i].created <= sorted[j].created)
      && |sorted[k..]| >= Min(|sorted|, policy.minCopies)
  {
    SameElements(sorted, Eligible(records));
    FilterMembers(records, IsEligible);
    var k := DeleteCount(Eligible(records), policy, now);
    forall r | r in sorted[..k] ensures r in records && IsEligible(r) {
      assert r in sorted;
    }
    forall i, j | 0 <= i < k <= j < |sorted| ensures sorted[i].created <= sorted[j].created {
      assert !Older(sorted[j], sorted[i]);
    }
  }

  /** Free to be deleted, on the fields of the record. */
  predicate Free(r: Record) {
    !r.protectedStatus && !r.protectedAnnotation && r.phase !in {Verifying, Deleting}
  }

  /** What is counted and arranged are exactly the free records, each as often as it is there. */
  lemma CountedIff(records: seq<Record>, sorted: seq<Record>, r: Record)
    requires Arranges(sorted, Eligible(records))
    ensures multiset(sorted)[r] == if Free(r) then multiset(records)[r] else 0
    ensures r in sorted <==> r in records && Free(r)
  {
    FilterCounts(records, IsEligible, r);
    assert r in sorted <==> r in multiset(sorted);
    assert r in records <==> r in multiset(records);
  }

  /** Nothing protected and nothing under verification or deletion is ever selected. */
  lemma SelectedAreFree(records: seq<Record>, sorted: seq<Record>, policy: Policy, now: int, r: Record)
    requires Arranges(sorted, Eligible(records)) && DeleteCount(Eligible(records), policy, now) <= |sorted|
    requires r in sorted[..DeleteCount(Eligible(records), policy, now)]
    ensures r in records && !r.protectedStatus && !r.protectedAnnotation && r.phase != Verifying && r.phase != Deleting
  {
    CountedIff(records, sorted, r);
  }

  /**
   Which of them are selected: a record goes exactly when more than the minimum are left from it on, and there are too
   many of those or it is too old.
   */
  lemma SelectedIff(eligible: seq<Record>, sorted: seq<Record>, policy: Policy, now: int, i: nat)
    requires Arranges(sorted, eligible) && |sorted| == |eligible| && i < |sorted|
    ensures var left := |sorted| - i;
      i < DeleteCount(eligible, policy, now) <==>
        && left > policy.minCopies && left > 0
        && (|| (policy.maxCopies > 0 && left > policy.maxCopies)
            || (policy.maxAgeDays > 0 && sorted[i].created < Cutoff(now, policy.maxAgeDays)))
  {
    var cutoff := Cutoff(now, policy.maxAgeDays);
    OlderThanPermutation(eligible, sorted, cutoff);
    AgedArePrefix(sorted, cutoff, i);
  }

  /** Taking the first `k` in creation order takes the aged ones first. */
  lemma RestAges(eligible: seq<Record>, sorted: seq<Record>, k: nat, cutoff: int, rest: seq<Record>)
    requires Arranges(sorted, eligible) && |sorted| == |eligible| && k <= |sorted|
    requires multiset(rest) == multiset(sorted[k..])
    ensures OlderThan(rest, cutoff) == Max(OlderThan(eligible, cutoff) - k, 0)
  {
    OlderSuffixCount(sorted, cutoff, k);
    SameAges(sorted, eligible, rest, sorted[k..], cutoff);
  }

  lemma SameAges(a: seq<Record>, b: seq<Record>, c: seq<Record>, d: seq<Record>, cutoff: int)
    requires multiset(a) == multiset(b) && multiset(c) == multiset(d)
    ensures OlderThan(a, cutoff) == OlderThan(b, cutoff) && OlderThan(c, cutoff) == OlderThan(d, cutoff)
  {
    OlderThanPermutation(a, b, cutoff);
    OlderThanPermutation(c, d, cutoff);
  }

  lemma OlderSuffixCount(s: seq<Record>, cutoff: int, k: nat)
    requires SortedBy(s, Older) && k <= |s|
    ensures OlderThan(s[k..], cutoff) == Max(OlderThan(s, cutoff) - k, 0)
  {
    OlderPrefixCount(s, cutoff, k);
    OlderThanConcat(s[..k], s[k..], cutoff);
    assert s == s[..k] + s[k..];
  }

  lemma SameLength(a: seq<Record>, b: seq<Record>)
    requires multiset(a) == multiset(b)
    ensures |a| == |b|
  {
    assert |multiset(a)| == |a| && |multiset(b)| == |b|;
  }

  lemma NothingMoreToDelete(eligible: seq<Record>, sorted: seq<Record>, policy: Policy, now: int, rest: seq<Record>)
    requires Arranges(sorted, eligible) && |sorted| == |eligible|
    requires multiset(rest) == multiset(sorted[DeleteCount(eligible, policy, now)..])
    ensures DeleteCount(rest, policy, now) == 0
  {
    var k := DeleteCount(eligible, policy, now);
    RestAges(eligible, sorted, k, Cutoff(now, policy.maxAgeDays), rest);
    SameLength(rest, sorted[k..]);
  }

  lemma SurvivorsAreTheRest(records: seq<Record>, sorted: seq<Record>, survivors: seq<Record>, k: nat)
    requires multiset(sorted) == multiset(Eligible(records)) && k <= |sorted|
    requires multiset(survivors) == multiset(records) - multiset(sorted[..k])
    ensures multiset(Eligible(survivors)) == multiset(sorted[k..])
  {
    var front, back := sorted[..k], sorted[k..];
    assert sorted == front + back;
    forall r ensures multiset(Eligible(survivors))[r] == multiset(back)[r] {
      FilterCounts(records, IsEligible, r);
      FilterCounts(survivors, IsEligible, r);
      assert multiset(sorted)[r] == multiset(front)[r] + multiset(back)[r];
    }
  }

  /** Once the selected records are gone, the same policy at the same time selects nothing from what remains. */
  lemma SelectionIsIdempotent(records: seq<Record>, sorted: seq<Record>, policy: Policy, now: int,
                              survivors: seq<Record>)
    requires Arranges(sorted, Eligible(records)) && |sorted| == |Eligible(records)|
    requires multiset(survivors) == multiset(records) - multiset(sorted[..DeleteCount(Eligible(records), policy, now)])
    ensures DeleteCount(Eligible(survivors), policy, now) == 0
  {
    var k := DeleteCount(Eligible(records), policy, now);
    SurvivorsAreTheRest(records, sorted, survivors, k);
    NothingMoreToDelete(Eligible(records), sorted, policy, now, Eligible(survivors));
  }

  lemma {:induction false} OlderPrefixCount(s: seq<Record>, cutoff: int, k: nat)
    requires SortedBy(s, Older) && k <= |s|
    ensures OlderThan(s[..k], cutoff) == Min(k, OlderThan(s, cutoff))
  {
    OlderThanBound(s[..k], cutoff);
    assert s == s[..k] + s[k..];
    OlderThanConcat(s[..k], s[k..], cutoff);
    if 0 < k && OlderThan(s[..k], cutoff) < k {
      AgedArePrefix(s[..k], cutoff, k - 1);
      NoneOlder(s[k..], cutoff, s[k - 1]);
    }
    if k == 0 {
      assert s[..k] == [];
    }
  }

  lemma {:induction false} NoneOlder(s: seq<Record>, cutoff: int, r: Record)
    requires r.created >= cutoff && forall x :: x in s ==> !Older(x, r)
    ensures OlderThan(s, cutoff) == 0
  {
    if s != [] {
      assert s[|s| - 1] in s;
      NoneOlder(s[..|s| - 1], cutoff, r);
    }
  }

  lemma {:induction false} OlderThanMonotone(s: seq<Record>, c1: int, c2: int)
    requires c1 <= c2
    ensures OlderThan(s, c1) <= OlderThan(s, c2)
  {
    if s != [] {
      OlderThanMonotone(s[..|s| - 1], c1, c2);
    }
  }

  /** For a fixed arrangement the selection only grows as time passes. */
  lemma SelectionGrows(sorted: seq<Record>, policy: Policy, now1: int, now2: int)
    requires now1 <= now2
    ensures sorted[..DeleteCount(sorted, policy, now1)] <= sorted[..DeleteCount(sorted, policy, now2)]
  {
    OlderThanMonotone(sorted, Cutoff(now1, policy.maxAgeDays), Cutoff(now2, policy.maxAgeDays));
  }
}
