/**
 Sorting as the operator does it: an insertion sort for manifest keys, and the library sorts behind
 archives, plans and retention. One specification function stands for all of them. It is stable, and the
 lemmas below say when its result does not depend on the order of its input.
 */
module Sorting {

  ghost predicate StrictWeakOrder<T(!new)>(less: (T, T) -> bool) {
    && (forall x :: !less(x, x))
    && (forall x, y, z :: less(x, y) && less(y, z) ==> less(x, z))
    && (forall x, y, z :: !less(x, y) && !less(y, z) ==> !less(x, z))
  }

  ghost predicate SortedBy<T>(s: seq<T>, less: (T, T) -> bool) {
    forall i, j :: 0 <= i < j < |s| ==> !less(s[j], s[i])
  }

  /** Different elements of `s` never tie. */
  ghost predicate NoTies<T>(s: seq<T>, less: (T, T) -> bool) {
    forall x, y :: x in s && y in s && !less(x, y) && !less(y, x) ==> x == y
  }

  ghost predicate Distinct<T>(s: seq<T>) {
    forall i, j :: 0 <= i < j < |s| ==> s[i] != s[j]
  }

  /** `order` lists the keys, each once: one possible iteration of a Go map. */
  ghost predicate Enumerates<T(!new)>(order: seq<T>, keys: set<T>) {
    Distinct(order) && forall k :: k in order <==> k in keys
  }

  /** Put `x` behind every element that is not greater than it. */
  function Insert<T>(x: T, s: seq<T>, less: (T, T) -> bool): (r: seq<T>)
    ensures |r| == |s| + 1
  {
    if s == [] || !less(x, s[|s| - 1]) then s + [x]
    else Insert(x, s[..|s| - 1], less) + [s[|s| - 1]]
  }

  /** One step of the inner loop of an insertion sort: `x` moves left past a greater element. */
  lemma InsertPast<T>(x: T, s: seq<T>, j: nat, less: (T, T) -> bool)
    requires 0 < j <= |s| && less(x, s[j - 1])
    ensures Insert(x, s[..j], less) + s[j..] == Insert(x, s[..j - 1], less) + s[j - 1..]
  {
    assert s[..j][..j - 1] == s[..j - 1];
    assert s[j - 1..] == [s[j - 1]] + s[j..];
  }

  function Sort<T>(s: seq<T>, less: (T, T) -> bool): (r: seq<T>)
    ensures |r| == |s|
  {
    if s == [] then [] else Insert(s[|s| - 1], Sort(s[..|s| - 1], less), less)
  }

  lemma NothingAfter<T(!new)>(x: T, init: seq<T>, last: T, r: seq<T>, less: (T, T) -> bool)
    requires StrictWeakOrder(less) && SortedBy(init + [last], less) && less(x, last)
    requires SortedBy(r, less) && multiset(r) == multiset(init) + multiset{x}
    ensures SortedBy(r + [last], less)
  {
    var s := init + [last];
    forall y | y in r ensures !less(last, y) {
      assert y in multiset(r);
      assert y == x || y in init;
      if y in init {
        var i :| 0 <= i < |init| && init[i] == y;
        assert s[i] == y && s[|s| - 1] == last;
      }
    }
  }

  lemma {:induction false} InsertFacts<T(!new)>(x: T, s: seq<T>, less: (T, T) -> bool)
    requires StrictWeakOrder(less) && SortedBy(s, less)
    ensures SortedBy(Insert(x, s, less), less)
    ensures multiset(Insert(x, s, less)) == multiset(s) + multiset{x}
  {
    if s == [] || !less(x, s[|s| - 1]) {
    } else {
      var init, last := s[..|s| - 1], s[|s| - 1];
      assert s == init + [last];
      SortedInit(s, less);
      InsertFacts(x, init, less);
      NothingAfter(x, init, last, Insert(x, init, less), less);
    }
  }

  lemma {:induction false} SortFacts<T(!new)>(s: seq<T>, less: (T, T) -> bool)
    requires StrictWeakOrder(less)
    ensures SortedBy(Sort(s, less), less)
    ensures multiset(Sort(s, less)) == multiset(s)
  {
    if s != [] {
      var init := s[..|s| - 1];
      assert s == init + [s[|s| - 1]];
      SortFacts(init, less);
      InsertFacts(s[|s| - 1], Sort(init, less), less);
    }
  }

  lemma SameElements<T>(a: seq<T>, b: seq<T>)
    requires multiset(a) == multiset(b)
    ensures |a| == |b|
    ensures forall x :: x in a <==> x in b
  {
    assert |multiset(a)| == |a| && |multiset(b)| == |b|;
    forall x ensures x in a <==> x in b {
      assert x in a <==> x in multiset(a);
      assert x in b <==> x in multiset(b);
    }
  }

  /** The last element of a sorted arrangement without ties is determined by its elements. */
  lemma SameLast<T(!new)>(a: seq<T>, b: seq<T>, less: (T, T) -> bool)
    requires multiset(a) == multiset(b) && a != []
    requires SortedBy(a, less) && SortedBy(b, less) && NoTies(a, less)
    ensures |a| == |b| && a[|a| - 1] == b[|b| - 1]
  {
    SameElements(a, b);
    var x, y := a[|a| - 1], b[|b| - 1];
    assert x in b && y in a;
    var k :| 0 <= k < |b| && b[k] == x;
    var l :| 0 <= l < |a| && a[l] == y;
    assert k == |b| - 1 || !less(y, x);
    assert l == |a| - 1 || !less(x, y);
  }

  lemma DropLast<T>(s: seq<T>)
    requires s != []
    ensures multiset(s[..|s| - 1]) == multiset(s) - multiset{s[|s| - 1]}
  {
    assert s == s[..|s| - 1] + [s[|s| - 1]];
  }

  /** A sorted arrangement without ties is unique. */
  lemma {:induction false} SortedIsUnique<T(!new)>(a: seq<T>, b: seq<T>, less: (T, T) -> bool)
    requires multiset(a) == multiset(b)
    requires SortedBy(a, less) && SortedBy(b, less) && NoTies(a, less)
    ensures a == b
  {
    if a == [] {
      SameElements(a, b);
    } else {
      SameLast(a, b, less);
      DropLast(a);
      DropLast(b);
      var a', b' := a[..|a| - 1], b[..|b| - 1];
      forall x | x in a' ensures x in a {}
      SortedIsUnique(a', b', less);
      assert a == a' + [a[|a| - 1]] && b == b' + [b[|b| - 1]];
    }
  }

  /** The order in which a Go map or directory walk delivers its elements does not reach the sorted result. */
  lemma SortIgnoresInputOrder<T(!new)>(a: seq<T>, b: seq<T>, less: (T, T) -> bool)
    requires StrictWeakOrder(less)
    requires multiset(a) == multiset(b) && NoTies(a, less)
    ensures Sort(a, less) == Sort(b, less)
  {
    SortFacts(a, less);
    SortFacts(b, less);
    SameElements(a, Sort(a, less));
    SortedIsUnique(Sort(a, less), Sort(b, less), less);
  }

  lemma {:induction false} DistinctMultiset<T>(s: seq<T>, x: T)
    requires Distinct(s)
    ensures multiset(s)[x] == if x in s then 1 else 0
  {
    if s != [] {
      assert s == s[..|s| - 1] + [s[|s| - 1]];
      DistinctMultiset(s[..|s| - 1], x);
    }
  }

  lemma DistinctPermutation<T>(a: seq<T>, b: seq<T>)
    requires Distinct(a) && Distinct(b)
    requires forall x :: x in a <==> x in b
    ensures multiset(a) == multiset(b)
  {
    forall x ensures multiset(a)[x] == multiset(b)[x] {
      DistinctMultiset(a, x);
      DistinctMultiset(b, x);
    }
  }

  lemma {:induction false} CountAtLeastTwo<T>(s: seq<T>, i: nat, j: nat)
    requires i < j < |s| && s[i] == s[j]
    ensures multiset(s)[s[i]] >= 2
  {
    assert s == s[..j] + [s[j]] + s[j + 1..];
    assert s[i] in s[..j];
    assert multiset(s[..j])[s[i]] >= 1;
  }

  lemma PermutationKeepsDistinct<T>(a: seq<T>, b: seq<T>)
    requires multiset(a) == multiset(b) && Distinct(a)
    ensures Distinct(b)
  {
    forall i, j | 0 <= i < j < |b| ensures b[i] != b[j] {
      if b[i] == b[j] {
        CountAtLeastTwo(b, i, j);
        DistinctMultiset(a, b[i]);
      }
    }
  }

  // ---- stability ----

  function Filter<T>(s: seq<T>, p: T -> bool): (r: seq<T>)
    ensures |r| <= |s|
  {
    if s == [] then []
    else
      var init, last := Filter(s[..|s| - 1], p), s[|s| - 1];
      if p(last) then init + [last] else init
  }

  lemma {:induction false} FilterConcat<T>(a: seq<T>, b: seq<T>, p: T -> bool)
    ensures Filter(a + b, p) == Filter(a, p) + Filter(b, p)
    decreases |b|
  {
    if b == [] {
      assert a + b == a;
    } else {
      assert (a + b)[..|a + b| - 1] == a + b[..|b| - 1];
      FilterConcat(a, b[..|b| - 1], p);
    }
  }

  lemma {:induction false} FilterCounts<T>(s: seq<T>, p: T -> bool, x: T)
    ensures multiset(Filter(s, p))[x] == if p(x) then multiset(s)[x] else 0
  {
    if s != [] {
      FilterCounts(s[..|s| - 1], p, x);
      assert s == s[..|s| - 1] + [s[|s| - 1]];
    }
  }

  lemma FilterMembers<T>(s: seq<T>, p: T -> bool)
    ensures forall x :: x in Filter(s, p) <==> x in s && p(x)
  {
    forall x ensures x in Filter(s, p) <==> x in s && p(x) {
      FilterCounts(s, p, x);
      assert x in Filter(s, p) <==> x in multiset(Filter(s, p));
      assert x in s <==> x in multiset(s);
    }
  }

  /** The elements that tie with `x`, in the order they occur. */
  function Ties<T>(s: seq<T>, x: T, less: (T, T) -> bool): seq<T> {
    Filter(s, y => !less(x, y) && !less(y, x))
  }

  lemma {:induction false} InsertIsStable<T(!new)>(y: T, s: seq<T>, x: T, less: (T, T) -> bool)
    requires StrictWeakOrder(less)
    ensures Ties(Insert(y, s, less), x, less) == Ties(s + [y], x, less)
    decreases |s|
  {
    if s != [] && less(y, s[|s| - 1]) {
      var init, last := s[..|s| - 1], s[|s| - 1];
      var tie := (z: T) => !less(x, z) && !less(z, x);
      InsertIsStable(y, init, x, less);
      assert s == init + [last];
      FilterConcat(Insert(y, init, less), [last], tie);
      FilterConcat(init, [y], tie);
      FilterConcat(init + [last], [y], tie);
      FilterConcat(init, [last], tie);
      assert !(tie(y) && tie(last));
    }
  }

  /** Sorting keeps tied elements in their original order. */
  lemma {:induction false} SortIsStable<T(!new)>(s: seq<T>, x: T, less: (T, T) -> bool)
    requires StrictWeakOrder(less)
    ensures Ties(Sort(s, less), x, less) == Ties(s, x, less)
  {
    if s != [] {
      var init, last := s[..|s| - 1], s[|s| - 1];
      var tie := (z: T) => !less(x, z) && !less(z, x);
      SortIsStable(init, x, less);
      InsertIsStable(last, Sort(init, less), x, less);
      FilterConcat(Sort(init, less), [last], tie);
      FilterConcat(init, [last], tie);
      assert s == init + [last];
    }
  }

  lemma SameTiesSameLast<T(!new)>(a: seq<T>, b: seq<T>, less: (T, T) -> bool)
    requires StrictWeakOrder(less) && SortedBy(a, less) && SortedBy(b, less)
    requires a != [] && multiset(a) == multiset(b)
    requires forall x :: Ties(a, x, less) == Ties(b, x, less)
    ensures b != [] && a[|a| - 1] == b[|b| - 1]
  {
    SameElements(a, b);
    var x, y := a[|a| - 1], b[|b| - 1];
    assert x in b && y in a;
    var k :| 0 <= k < |b| && b[k] == x;
    var l :| 0 <= l < |a| && a[l] == y;
    assert k == |b| - 1 || !less(y, x);
    assert l == |a| - 1 || !less(x, y);
    assert !less(x, x);
    var ties := Ties(a, x, less);
    assert ties == Ties(b, x, less);
    assert ties[|ties| - 1] == x;
    assert !less(x, y) && !less(y, x);
    assert Ties(b, x, less)[|ties| - 1] == y;
  }

  lemma SortedInit<T>(s: seq<T>, less: (T, T) -> bool)
    requires SortedBy(s, less) && s != []
    ensures SortedBy(s[..|s| - 1], less)
  {
  }

  lemma TiesOfInit<T>(a: seq<T>, b: seq<T>, x: T, less: (T, T) -> bool)
    requires a != [] && b != [] && a[|a| - 1] == b[|b| - 1] && Ties(a, x, less) == Ties(b, x, less)
    ensures Ties(a[..|a| - 1], x, less) == Ties(b[..|b| - 1], x, less)
  {
    var all, last := Ties(a, x, less), a[|a| - 1];
    if !less(x, last) && !less(last, x) {
      assert all[..|all| - 1] == Ties(a[..|a| - 1], x, less);
      assert all[..|all| - 1] == Ties(b[..|b| - 1], x, less);
    }
  }

  ghost predicate AgreeOnTies<T(!new)>(a: seq<T>, b: seq<T>, less: (T, T) -> bool) {
    forall x :: Ties(a, x, less) == Ties(b, x, less)
  }

  lemma InitsAlike<T(!new)>(a: seq<T>, b: seq<T>, less: (T, T) -> bool)
    requires StrictWeakOrder(less) && SortedBy(a, less) && SortedBy(b, less)
    requires a != [] && multiset(a) == multiset(b)
    requires AgreeOnTies(a, b, less)
    ensures b != [] && a[|a| - 1] == b[|b| - 1]
    ensures SortedBy(a[..|a| - 1], less) && SortedBy(b[..|b| - 1], less)
    ensures multiset(a[..|a| - 1]) == multiset(b[..|b| - 1])
    ensures AgreeOnTies(a[..|a| - 1], b[..|b| - 1], less)
  {
    SameTiesSameLast(a, b, less);
    DropLast(a);
    DropLast(b);
    SortedInit(a, less);
    SortedInit(b, less);
    var a', b' := a[..|a| - 1], b[..|b| - 1];
    forall x ensures Ties(a', x, less) == Ties(b', x, less) {
      TiesOfInit(a, b, x, less);
    }
  }

  /** Two sorted arrangements that agree on every class of ties are equal. */
  lemma {:induction false} SortedWithSameTies<T(!new)>(a: seq<T>, b: seq<T>, less: (T, T) -> bool)
    requires StrictWeakOrder(less) && SortedBy(a, less) && SortedBy(b, less)
    requires multiset(a) == multiset(b)
    requires AgreeOnTies(a, b, less)
    ensures a == b
  {
    if a == [] {
      SameElements(a, b);
    } else {
      InitsAlike(a, b, less);
      var a', b' := a[..|a| - 1], b[..|b| - 1];
      SortedWithSameTies(a', b', less);
      assert a == a' + [a[|a| - 1]] && b == b' + [b[|b| - 1]];
    }
  }

  lemma TiesConcat<T>(a: seq<T>, b: seq<T>, x: T, less: (T, T) -> bool)
    ensures Ties(a + b, x, less) == Ties(a, x, less) + Ties(b, x, less)
  {
    FilterConcat(a, b, y => !less(x, y) && !less(y, x));
  }

  /** Elements that never tie with each other meet a class of ties at most once. */
  lemma OneTie<T(!new)>(s: seq<T>, x: T, less: (T, T) -> bool)
    requires StrictWeakOrder(less) && NoTies(s, less) && Distinct(s)
    ensures |Ties(s, x, less)| <= 1
  {
    var tie := (y: T) => !less(x, y) && !less(y, x);
    var ties := Ties(s, x, less);
    if |ties| > 1 {
      FilterMembers(s, tie);
      assert ties[0] in ties && ties[1] in ties;
      assert !less(ties[0], ties[1]) && !less(ties[1], ties[0]);
      CountAtLeastTwo(ties, 0, 1);
      FilterCounts(s, tie, ties[0]);
      DistinctMultiset(s, ties[0]);
    }
  }

  lemma SameTies<T(!new)>(a: seq<T>, b: seq<T>, x: T, less: (T, T) -> bool)
    requires StrictWeakOrder(less) && NoTies(a, less) && Distinct(a) && multiset(a) == multiset(b)
    ensures Ties(a, x, less) == Ties(b, x, less)
  {
    var tie := (y: T) => !less(x, y) && !less(y, x);
    SameElements(a, b);
    PermutationKeepsDistinct(a, b);
    OneTie(a, x, less);
    OneTie(b, x, less);
    FilterMembers(a, tie);
    FilterMembers(b, tie);
    var ta, tb := Ties(a, x, less), Ties(b, x, less);
    assert ta != [] ==> ta[0] in tb;
    assert tb != [] ==> tb[0] in ta;
  }

  /** Rearranging a tail that has no ties within itself does not change the sorted result. */
  lemma SortIgnoresTailOrder<T(!new)>(front: seq<T>, a: seq<T>, b: seq<T>, less: (T, T) -> bool)
    requires StrictWeakOrder(less) && NoTies(a, less) && Distinct(a) && multiset(a) == multiset(b)
    ensures Sort(front + a, less) == Sort(front + b, less)
  {
    SortFacts(front + a, less);
    SortFacts(front + b, less);
    forall x ensures Ties(Sort(front + a, less), x, less) == Ties(Sort(front + b, less), x, less) {
      SortIsStable(front + a, x, less);
      SortIsStable(front + b, x, less);
      TiesConcat(front, a, x, less);
      TiesConcat(front, b, x, less);
      SameTies(a, b, x, less);
    }
    SortedWithSameTies(Sort(front + a, less), Sort(front + b, less), less);
  }

  /** The element right behind `front` keeps its place among its ties. */
  lemma TieBehindFront<T(!new)>(front: seq<T>, y: T, rest: seq<T>, x: T, less: (T, T) -> bool)
    requires StrictWeakOrder(less) && !less(x, y) && !less(y, x)
    ensures |Ties(Sort(front + ([y] + rest), less), x, less)| > |Ties(front, x, less)|
    ensures Ties(Sort(front + ([y] + rest), less), x, less)[|Ties(front, x, less)|] == y
  {
    SortIsStable(front + ([y] + rest), x, less);
    TiesConcat(front, [y] + rest, x, less);
    TiesConcat([y], rest, x, less);
    assert Ties([y], x, less) == [y];
  }

  // ---- Go's string order ----

  /** `a < b` on Go strings: code unit by code unit, a proper prefix first. */
  predicate StringLess(a: string, b: string) {
    if b == "" then false
    else if a == "" then true
    else a[0] < b[0] || (a[0] == b[0] && StringLess(a[1..], b[1..]))
  }

  lemma {:induction false} StringTrichotomy(a: string, b: string)
    ensures !(StringLess(a, b) && StringLess(b, a))
    ensures StringLess(a, b) || StringLess(b, a) || a == b
    ensures a == b ==> !StringLess(a, b)
  {
    if a != "" && b != "" {
      StringTrichotomy(a[1..], b[1..]);
      assert a == [a[0]] + a[1..] && b == [b[0]] + b[1..];
    }
  }

  lemma {:induction false} StringTransitive(a: string, b: string, c: string)
    requires StringLess(a, b) && StringLess(b, c)
    ensures StringLess(a, c)
  {
    if a != "" && b != "" && c != "" && a[0] == b[0] == c[0] {
      StringTransitive(a[1..], b[1..], c[1..]);
    }
  }

  /** Go's string order is a total order. */
  lemma StringOrder()
    ensures StrictWeakOrder(StringLess)
  {
    forall x: string ensures !StringLess(x, x) { StringTrichotomy(x, x); }
    forall x: string, y: string, z: string | StringLess(x, y) && StringLess(y, z) ensures StringLess(x, z) {
      StringTransitive(x, y, z);
    }
    forall x: string, y: string, z: string | !StringLess(x, y) && !StringLess(y, z) ensures !StringLess(x, z) {
      StringTrichotomy(x, y);
      StringTrichotomy(y, z);
      StringTrichotomy(x, z);
      if StringLess(x, z) {
        if x != y && y != z {
          StringTransitive(y, x, z);
        }
      }
    }
  }

  lemma StringsNeverTie(s: seq<string>)
    ensures NoTies(s, StringLess)
  {
    forall x, y | x in s && y in s && !StringLess(x, y) && !StringLess(y, x) ensures x == y {
      StringTrichotomy(x, y);
    }
  }
}
