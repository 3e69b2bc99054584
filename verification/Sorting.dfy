/** The stable sort the sources call (`sort.SliceStable`, `sort.Slice`, `sorted`, `ORDER BY`). */
module Sorting {

  // ---------- sequences ----------

  lemma TakeDrop<T>(s: seq<T>, k: nat)
    requires k <= |s|
    ensures s == s[..k] + s[k..]
    ensures k == 0 ==> s[k..] == s && s[..k] == []
    ensures k == |s| ==> s[..k] == s && s[k..] == []
  {
  }

  lemma SliceNext<T>(s: seq<T>, lo: nat, i: nat)
    requires lo <= i < |s|
    ensures s[lo..i + 1] == s[lo..i] + [s[i]]
  {
  }

  lemma EmptyUnit<T>(s: seq<T>)
    ensures [] + s == s && s + [] == s
  {
  }

  lemma Associates<T>(a: seq<T>, b: seq<T>, c: seq<T>)
    ensures (a + b) + c == a + (b + c)
  {
  }

  // ---------- filtering ----------

  function Filter<T>(s: seq<T>, p: T -> bool): (r: seq<T>)
  {
    if s == [] then []
    else
      var last := |s| - 1;
      if p(s[last]) then Filter(s[..last], p) + [s[last]] else Filter(s[..last], p)
  }

  lemma {:induction false} FilterConcat<T>(s: seq<T>, t: seq<T>, p: T -> bool)
    ensures Filter(s + t, p) == Filter(s, p) + Filter(t, p)
  {
    if t == [] {
      assert s + t == s;
    } else {
      var n := |t| - 1;
      FilterConcat(s, t[..n], p);
      assert (s + t)[..|s + t| - 1] == s + t[..n];
    }
  }

  lemma {:induction false} FilterMembers<T>(s: seq<T>, p: T -> bool)
    ensures forall x :: x in Filter(s, p) <==> x in s && p(x)
    ensures multiset(Filter(s, p)) <= multiset(s)
    ensures |Filter(s, p)| <= |s|
  {
    if s != [] {
      var n := |s| - 1;
      FilterMembers(s[..n], p);
      assert s == s[..n] + [s[n]];
    }
  }

  lemma {:induction false} FilterAll<T>(s: seq<T>, p: T -> bool)
    requires forall x :: x in s ==> p(x)
    ensures Filter(s, p) == s
  {
    if s != [] {
      var n := |s| - 1;
      assert forall x :: x in s[..n] ==> x in s;
      FilterAll(s[..n], p);
      assert s == s[..n] + [s[n]];
    }
  }

  lemma {:induction false} FilterNone<T>(s: seq<T>, p: T -> bool)
    requires forall x :: x in s ==> !p(x)
    ensures Filter(s, p) == []
  {
    if s != [] {
      FilterNone(s[..|s| - 1], p);
    }
  }

  /** Two filters in turn are one filter by the conjunction. */
  lemma {:induction false} FilterTwice<T>(s: seq<T>, p: T -> bool, q: T -> bool, both: T -> bool)
    requires forall x :: x in s ==> (both(x) <==> p(x) && q(x))
    ensures Filter(Filter(s, p), q) == Filter(s, both)
  {
    if s != [] {
      var n := |s| - 1;
      assert forall x :: x in s[..n] ==> x in s;
      FilterTwice(s[..n], p, q, both);
      FilterConcat(Filter(s[..n], p), if p(s[n]) then [s[n]] else [], q);
      if p(s[n]) {
        assert [s[n]][..0] == [];
      }
    }
  }

  lemma {:induction false} FilterCounts<T>(s: seq<T>, p: T -> bool, e: T)
    ensures multiset(Filter(s, p))[e] == if p(e) then multiset(s)[e] else 0
  {
    if s != [] {
      var n := |s| - 1;
      FilterCounts(s[..n], p, e);
      assert s == s[..n] + [s[n]];
    }
  }

  // ---------- sorting ----------

  ghost predicate StrictWeakOrder<T(!new)>(before: (T, T) -> bool) {
    && (forall x :: !before(x, x))
    && (forall x, y, z :: before(x, y) && before(y, z) ==> before(x, z))
    && (forall x, y, z :: !before(x, y) && !before(y, z) ==> !before(x, z))
  }

  /** No element has to move left of an earlier one. */
  ghost predicate Ordered<T>(s: seq<T>, before: (T, T) -> bool) {
    forall i, j :: 0 <= i < j < |s| ==> !before(s[j], s[i])
  }

  function InsertLast<T>(s: seq<T>, x: T, before: (T, T) -> bool): (r: seq<T>)
    ensures |r| == |s| + 1
  {
    if s == [] || !before(x, s[|s| - 1]) then s + [x]
    else InsertLast(s[..|s| - 1], x, before) + [s[|s| - 1]]
  }

  function StableSort<T>(s: seq<T>, before: (T, T) -> bool): (r: seq<T>)
    ensures |r| == |s|
  {
    if s == [] then [] else InsertLast(StableSort(s[..|s| - 1], before), s[|s| - 1], before)
  }

  lemma {:induction false} InsertPermutes<T>(s: seq<T>, x: T, before: (T, T) -> bool)
    ensures multiset(InsertLast(s, x, before)) == multiset(s) + multiset{x}
  {
    if s != [] && before(x, s[|s| - 1]) {
      InsertPermutes(s[..|s| - 1], x, before);
      assert s == s[..|s| - 1] + [s[|s| - 1]];
    }
  }

  lemma {:induction false} SortPermutes<T>(s: seq<T>, before: (T, T) -> bool)
    ensures multiset(StableSort(s, before)) == multiset(s)
    ensures forall x :: x in StableSort(s, before) <==> x in s
  {
    if s != [] {
      var n := |s| - 1;
      SortPermutes(s[..n], before);
      InsertPermutes(StableSort(s[..n], before), s[n], before);
      assert s == s[..n] + [s[n]];
    }
    forall x
      ensures x in StableSort(s, before) <==> x in s
    {
      assert x in multiset(StableSort(s, before)) <==> x in multiset(s);
    }
  }

  lemma {:induction false} InsertOrdered<T(!new)>(s: seq<T>, x: T, before: (T, T) -> bool)
    requires StrictWeakOrder(before) && Ordered(s, before)
    ensures Ordered(InsertLast(s, x, before), before)
  {
    if s == [] {
    } else if !before(x, s[|s| - 1]) {
      var r := s + [x];
      forall i, j | 0 <= i < j < |r|
        ensures !before(r[j], r[i])
      {
        if j == |s| && i < |s| - 1 {
          assert !before(s[|s| - 1], s[i]);
        }
      }
    } else {
      var n := |s| - 1;
      InsertOrdered(s[..n], x, before);
      var front := InsertLast(s[..n], x, before);
      InsertPermutes(s[..n], x, before);
      forall i | 0 <= i < |front|
        ensures !before(s[n], front[i])
      {
        assert front[i] in multiset(front);
        if front[i] != x {
          assert front[i] in s[..n];
        }
      }
    }
  }

  lemma {:induction false} SortOrdered<T(!new)>(s: seq<T>, before: (T, T) -> bool)
    requires StrictWeakOrder(before)
    ensures Ordered(StableSort(s, before), before)
  {
    if s != [] {
      SortOrdered(s[..|s| - 1], before);
      InsertOrdered(StableSort(s[..|s| - 1], before), s[|s| - 1], before);
    }
  }

  lemma {:induction false} SortFixesOrdered<T>(s: seq<T>, before: (T, T) -> bool)
    requires Ordered(s, before)
    ensures StableSort(s, before) == s
  {
    if s != [] {
      var n := |s| - 1;
      SortFixesOrdered(s[..n], before);
      assert n > 0 ==> !before(s[n], s[n - 1]);
      assert s == s[..n] + [s[n]];
    }
  }

  lemma {:induction false} FilterInsert<T(!new)>(s: seq<T>, x: T, before: (T, T) -> bool, p: T -> bool)
    requires StrictWeakOrder(before) && Ordered(s, before)
    ensures Filter(InsertLast(s, x, before), p)
         == if p(x) then InsertLast(Filter(s, p), x, before) else Filter(s, p)
  {
    if s != [] && before(x, s[|s| - 1]) {
      OrderedFront(s, before);
      hide *;
      FilterInsert(s[..|s| - 1], x, before, p);
      FilterInsertPast(s, x, before, p);
    } else {
      hide *;
      var f := Filter(s, p);
      InsertStays(s, x, before);
      FilterConcat(s, [x], p);
      FilterOne(x, p);
      FilterLast(s, p);
      EmptyUnit(f);
      if f != [] {
        NotBeforeAny(s, x, f[|f| - 1], before);
      }
      InsertStays(f, x, before);
    }
  }

  lemma OrderedFront<T>(s: seq<T>, before: (T, T) -> bool)
    requires s != [] && Ordered(s, before)
    ensures Ordered(s[..|s| - 1], before)
  {
  }

  lemma InsertStays<T>(s: seq<T>, x: T, before: (T, T) -> bool)
    requires s == [] || !before(x, s[|s| - 1])
    ensures InsertLast(s, x, before) == s + [x]
  {
  }

  lemma FilterOne<T>(x: T, p: T -> bool)
    ensures Filter([x], p) == if p(x) then [x] else []
  {
    assert [x][..0] == [];
  }

  lemma {:induction false} FilterLast<T>(s: seq<T>, p: T -> bool)
    ensures var f := Filter(s, p); f != [] ==> f[|f| - 1] in s
  {
    if s != [] && !p(s[|s| - 1]) {
      FilterLast(s[..|s| - 1], p);
    }
  }

  lemma FilterInsertPast<T>(s: seq<T>, x: T, before: (T, T) -> bool, p: T -> bool)
    requires s != [] && before(x, s[|s| - 1])
    requires Filter(InsertLast(s[..|s| - 1], x, before), p)
          == if p(x) then InsertLast(Filter(s[..|s| - 1], p), x, before) else Filter(s[..|s| - 1], p)
    ensures Filter(InsertLast(s, x, before), p)
         == if p(x) then InsertLast(Filter(s, p), x, before) else Filter(s, p)
  {
    var n := |s| - 1;
    var front := InsertLast(s[..n], x, before);
    assert (front + [s[n]])[..|front|] == front;
    if p(s[n]) {
      var f := Filter(s, p);
      assert f[..|f| - 1] == Filter(s[..n], p) && f[|f| - 1] == s[n];
    }
  }

  lemma NotBeforeAny<T(!new)>(s: seq<T>, x: T, e: T, before: (T, T) -> bool)
    requires StrictWeakOrder(before) && Ordered(s, before)
    requires e in s && !before(x, s[|s| - 1])
    ensures !before(x, e)
  {
    var i :| 0 <= i < |s| && s[i] == e;
    assert !before(s[|s| - 1], e);
  }

  /** Selecting and sorting commute. */
  lemma {:induction false} SortFilter<T(!new)>(s: seq<T>, before: (T, T) -> bool, p: T -> bool)
    requires StrictWeakOrder(before)
    ensures Filter(StableSort(s, before), p) == StableSort(Filter(s, p), before)
  {
    if s != [] {
      var n := |s| - 1;
      SortFilter(s[..n], before, p);
      SortOrdered(s[..n], before);
      FilterInsert(StableSort(s[..n], before), s[n], before, p);
      var f := Filter(s, p);
      if p(s[n]) {
        assert f[..|f| - 1] == Filter(s[..n], p) && f[|f| - 1] == s[n];
      }
    }
  }

  function TiedWith<T>(before: (T, T) -> bool, g: T): T -> bool {
    x => !before(x, g) && !before(g, x)
  }

  /** The specification of a stable sort: ordered, and every class of ties in its original order. */
  ghost predicate StablySorted<T(!new)>(r: seq<T>, s: seq<T>, before: (T, T) -> bool) {
    Ordered(r, before) && forall g :: Filter(r, TiedWith(before, g)) == Filter(s, TiedWith(before, g))
  }

  lemma SortIsStable<T(!new)>(s: seq<T>, before: (T, T) -> bool)
    requires StrictWeakOrder(before)
    ensures StablySorted(StableSort(s, before), s, before)
  {
    SortOrdered(s, before);
    forall g
      ensures Filter(StableSort(s, before), TiedWith(before, g)) == Filter(s, TiedWith(before, g))
    {
      var f := Filter(s, TiedWith(before, g));
      SortFilter(s, before, TiedWith(before, g));
      FilterMembers(s, TiedWith(before, g));
      forall i, j | 0 <= i < j < |f|
        ensures !before(f[j], f[i])
      {
        assert f[i] in f && f[j] in f;
      }
      SortFixesOrdered(f, before);
    }
  }

  lemma {:induction false} FilterFront<T>(s: seq<T>, p: T -> bool)
    requires s != []
    ensures Filter(s, p) == (if p(s[0]) then [s[0]] else []) + Filter(s[1..], p)
  {
    assert s == [s[0]] + s[1..];
    FilterConcat([s[0]], s[1..], p);
    assert [s[0]][..0] == [];
  }

  /** Ordering and stability leave one answer. */
  lemma {:induction false} StablySortedUnique<T(!new)>(a: seq<T>, b: seq<T>, before: (T, T) -> bool)
    requires StrictWeakOrder(before) && Ordered(a, before) && Ordered(b, before)
    requires forall g :: Filter(a, TiedWith(before, g)) == Filter(b, TiedWith(before, g))
    ensures a == b
  {
    if a == [] {
      if b != [] {
        assert Filter(a, TiedWith(before, b[0])) == [];
        FilterFront(b, TiedWith(before, b[0]));
      }
    } else if b == [] {
      FilterFront(a, TiedWith(before, a[0]));
    } else {
      SameFirst(a, b, before);
      forall g
        ensures Filter(a[1..], TiedWith(before, g)) == Filter(b[1..], TiedWith(before, g))
      {
        FilterFront(a, TiedWith(before, g));
        FilterFront(b, TiedWith(before, g));
        assert Filter(a, TiedWith(before, g)) == Filter(b, TiedWith(before, g));
        var k := if TiedWith(before, g)(a[0]) then 1 else 0;
        assert Filter(a, TiedWith(before, g))[k..] == Filter(a[1..], TiedWith(before, g));
        assert Filter(b, TiedWith(before, g))[k..] == Filter(b[1..], TiedWith(before, g));
      }
      StablySortedUnique(a[1..], b[1..], before);
      assert a == [a[0]] + a[1..] && b == [b[0]] + b[1..];
    }
  }

  lemma SameFirst<T(!new)>(a: seq<T>, b: seq<T>, before: (T, T) -> bool)
    requires StrictWeakOrder(before) && Ordered(a, before) && Ordered(b, before)
    requires a != [] && b != []
    requires forall g :: Filter(a, TiedWith(before, g)) == Filter(b, TiedWith(before, g))
    ensures a[0] == b[0]
  {
    var x, y := a[0], b[0];
    FilterFront(a, TiedWith(before, x));
    FilterFront(b, TiedWith(before, x));
    FilterFront(a, TiedWith(before, y));
    FilterFront(b, TiedWith(before, y));
    FilterMembers(b, TiedWith(before, x));
    FilterMembers(a, TiedWith(before, y));
    assert x in Filter(a, TiedWith(before, x)) && y in Filter(b, TiedWith(before, y));
    var i :| 0 <= i < |b| && b[i] == x;
    var j :| 0 <= j < |a| && a[j] == y;
    assert !before(x, y) && !before(y, x);
    assert Filter(a, TiedWith(before, x))[0] == x && Filter(b, TiedWith(before, x))[0] == y;
  }

  ghost predicate TiesAreEqual<T>(s: seq<T>, before: (T, T) -> bool) {
    forall i, j :: 0 <= i < |s| && 0 <= j < |s| && !before(s[i], s[j]) && !before(s[j], s[i]) ==> s[i] == s[j]
  }

  lemma TailMultiset<T>(s: seq<T>)
    requires s != []
    ensures multiset(s[1..]) == multiset(s) - multiset{s[0]}
  {
    assert s == [s[0]] + s[1..];
  }

  lemma SameLeast<T>(a: seq<T>, b: seq<T>, before: (T, T) -> bool)
    requires Ordered(a, before) && Ordered(b, before) && TiesAreEqual(a, before)
    requires multiset(a) == multiset(b) && a != [] && b != []
    ensures a[0] == b[0]
  {
    assert a[0] in multiset(b) && b[0] in multiset(a);
    var i :| 0 <= i < |b| && b[i] == a[0];
    var j :| 0 <= j < |a| && a[j] == b[0];
    assert a[0] == a[j];
  }

  lemma OrderedTail<T>(s: seq<T>, before: (T, T) -> bool)
    requires s != [] && Ordered(s, before)
    ensures Ordered(s[1..], before)
    ensures TiesAreEqual(s, before) ==> TiesAreEqual(s[1..], before)
  {
  }

  lemma SameHeadAndTail<T>(a: seq<T>, b: seq<T>)
    requires a != [] && b != [] && a[0] == b[0] && a[1..] == b[1..]
    ensures a == b
  {
    assert a == [a[0]] + a[1..] && b == [b[0]] + b[1..];
  }

  /** When ties are equal elements, the elements alone determine the sorted sequence. */
  lemma {:induction false} OrderedUnique<T>(a: seq<T>, b: seq<T>, before: (T, T) -> bool)
    requires Ordered(a, before) && Ordered(b, before) && TiesAreEqual(a, before)
    requires multiset(a) == multiset(b)
    ensures a == b
  {
    hide *;
    assert |a| == |multiset(a)| == |multiset(b)| == |b|;
    if a != [] {
      SameLeast(a, b, before);
      TailMultiset(a);
      TailMultiset(b);
      OrderedTail(a, before);
      OrderedTail(b, before);
      OrderedUnique(a[1..], b[1..], before);
      SameHeadAndTail(a, b);
    }
  }

  lemma InsertSkips<T>(s: seq<T>, j: nat, x: T, before: (T, T) -> bool)
    requires 0 < j <= |s| && before(x, s[j - 1])
    ensures InsertLast(s[..j], x, before) + s[j..] == InsertLast(s[..j - 1], x, before) + s[j - 1..]
  {
    assert s[..j][..j - 1] == s[..j - 1];
    assert s[j - 1..] == [s[j - 1]] + s[j..];
  }

  lemma SortStep<T>(s: seq<T>, i: nat, before: (T, T) -> bool)
    requires i < |s|
    ensures StableSort(s[..i + 1], before) == InsertLast(StableSort(s[..i], before), s[i], before)
  {
    assert s[..i + 1][..i] == s[..i];
  }

  /** Swaps `a[i]` left past the elements it must precede. */
  method MoveLeft<T>(a: array<T>, i: nat, before: (T, T) -> bool)
    requires i < a.Length
    modifies a
    ensures a[..i + 1] == InsertLast(old(a[..i]), old(a[i]), before)
    ensures forall k :: i < k < a.Length ==> a[k] == old(a[k])
  {
    ghost var was := a[..i];
    ghost var x := a[i];
    var j := i;
    assert was[..i] == was;
    while 0 < j && before(a[j], a[j - 1])
      invariant 0 <= j <= i
      invariant forall k :: 0 <= k < j ==> a[k] == was[k]
      invariant a[j] == x
      invariant forall k :: j < k <= i ==> a[k] == was[k - 1]
      invariant forall k :: i < k < a.Length ==> a[k] == old(a[k])
      invariant InsertLast(was[..j], x, before) + was[j..] == InsertLast(was, x, before)
    {
      InsertSkips(was, j, x, before);
      a[j], a[j - 1] := a[j - 1], a[j];
      j := j - 1;
    }
    assert InsertLast(was[..j], x, before) == was[..j] + [x];
    assert a[..i + 1] == was[..j] + [x] + was[j..];
  }

  /** Insertion sort in place. */
  method SortInPlace<T>(a: array<T>, before: (T, T) -> bool)
    modifies a
    ensures a[..] == StableSort(old(a[..]), before)
  {
    ghost var was := a[..];
    var i := 0;
    while i < a.Length
      invariant 0 <= i <= a.Length
      invariant a[..i] == StableSort(was[..i], before)
      invariant forall k :: i <= k < a.Length ==> a[k] == was[k]
    {
      SortStep(was, i, before);
      MoveLeft(a, i, before);
      i := i + 1;
    }
    assert a[..i] == a[..] && was[..i] == was;
  }
}
