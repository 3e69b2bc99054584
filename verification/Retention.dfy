/** Retention policies: the split of a space's versions into keep and prune. */
module Retention {
  import opened Sorting

  datatype Version = Version(id: string, ref: string, kind: string)

  datatype VersionMeta = VersionMeta(version: Version, created: int)

  /** Any integers; the zero policy keeps everything. */
  datatype Policy = Policy(keepLast: int, keepSince: int)

  /** `a.Created.After(b.Created)`. */
  predicate Newer(a: VersionMeta, b: VersionMeta) { a.created > b.created }

  lemma NewerIsOrder()
    ensures StrictWeakOrder(Newer)
  {
  }

  const MAX_DURATION: int := 0x7FFF_FFFF_FFFF_FFFF
  const MIN_DURATION: int := -0x8000_0000_0000_0000

  /** `now.Sub(created)`, which saturates at the limits of a 64-bit duration. */
  function Age(now: int, created: int): int {
    var d := now - created;
    if d > MAX_DURATION then MAX_DURATION else if d < MIN_DURATION then MIN_DURATION else d
  }

  predicate Zero(p: Policy) { p.keepLast == 0 && p.keepSince == 0 }

  predicate WithinLast(p: Policy, i: nat) { p.keepLast > 0 && i < p.keepLast }

  predicate WithinSince(p: Policy, v: VersionMeta, now: int) { p.keepSince > 0 && Age(now, v.created) <= p.keepSince }

  /** The policy's verdict on the version at rank `i`, newest first. */
  predicate Keeps(p: Policy, i: nat, v: VersionMeta, now: int) {
    Zero(p) || WithinLast(p, i) || WithinSince(p, v, now)
  }

  /** How many leading versions are recent enough. */
  function Recent(p: Policy, s: seq<VersionMeta>, now: int): (n: nat)
    ensures n <= |s|
  {
    if s == [] || !WithinSince(p, s[0], now) then 0 else 1 + Recent(p, s[1..], now)
  }

  /** Where the policy cuts a newest-first sequence. */
  function Cut(p: Policy, s: seq<VersionMeta>, now: int): (n: nat)
    ensures n <= |s|
  {
    var last := if p.keepLast < 0 then 0 else if p.keepLast > |s| then |s| else p.keepLast;
    var recent := Recent(p, s, now);
    if Zero(p) then |s| else if last < recent then recent else last
  }

  datatype Split = Split(keep: seq<VersionMeta>, prune: seq<VersionMeta>)

  function PlanSplit(p: Policy, vs: seq<VersionMeta>, now: int): Split {
    var s := StableSort(vs, Newer);
    Split(s[..Cut(p, s, now)], s[Cut(p, s, now)..])
  }

  lemma {:induction false} RecentClassifies(p: Policy, s: seq<VersionMeta>, now: int, i: nat)
    requires Ordered(s, Newer) && i < |s|
    ensures WithinSince(p, s[i], now) <==> i < Recent(p, s, now)
  {
    if i > 0 {
      assert !Newer(s[i], s[0]);
      if WithinSince(p, s[0], now) {
        RecentClassifies(p, s[1..], now, i - 1);
      }
    }
  }

  /** On a newest-first sequence the per-version verdicts are a prefix cut. */
  lemma CutClassifies(p: Policy, s: seq<VersionMeta>, now: int, i: nat)
    requires Ordered(s, Newer) && i < |s|
    ensures Keeps(p, i, s[i], now) <==> i < Cut(p, s, now)
  {
    RecentClassifies(p, s, now, i);
  }

  lemma CutUnique(p: Policy, s: seq<VersionMeta>, now: int, n: nat)
    requires Ordered(s, Newer) && n <= |s|
    requires forall i :: 0 <= i < |s| ==> (Keeps(p, i, s[i], now) <==> i < n)
    ensures Cut(p, s, now) == n
  {
    var c := Cut(p, s, now);
    if c < n {
      CutClassifies(p, s, now, c);
    } else if n < c {
      CutClassifies(p, s, now, n);
    }
  }

  /** Deals each version of a newest-first sequence to keep or prune, by rank and age. */
  method Deal(p: Policy, sorted: seq<VersionMeta>, now: int) returns (keep: seq<VersionMeta>, prune: seq<VersionMeta>)
    requires Ordered(sorted, Newer)
    ensures keep == sorted[..Cut(p, sorted, now)] && prune == sorted[Cut(p, sorted, now)..]
  {
    hide Cut, Ordered, Age;
    ghost var c := Cut(p, sorted, now);
    var zero := p.keepLast == 0 && p.keepSince == 0;
    keep, prune := [], [];
    for i := 0 to |sorted|
      invariant i <= c ==> keep == sorted[..i] && prune == []
      invariant c <= i ==> keep == sorted[..c] && prune == sorted[c..i]
    {
      var v := sorted[i];
      CutClassifies(p, sorted, now, i);
      SliceNext(sorted, 0, i);
      SliceNext(sorted, if i < c then i else c, i);
      var withinLast := p.keepLast > 0 && i < p.keepLast;
      var withinSince := p.keepSince > 0 && Age(now, v.created) <= p.keepSince;
      if zero || withinLast || withinSince {
        keep := keep + [v];
      } else {
        prune := prune + [v];
      }
    }
  }

  /** Sorts a copy newest first and deals it. */
  method Plan(p: Policy, vs: seq<VersionMeta>, now: int) returns (keep: seq<VersionMeta>, prune: seq<VersionMeta>)
    ensures Split(keep, prune) == PlanSplit(p, vs, now)
  {
    var sorted := new VersionMeta[|vs|](i requires 0 <= i < |vs| => vs[i]);
    assert sorted[..] == vs;
    SortInPlace(sorted, Newer);
    NewerIsOrder();
    SortOrdered(vs, Newer);
    keep, prune := Deal(p, sorted[..], now);
  }

  /** The plan is the stable newest-first sort of the input, cut once: ranks are kept exactly as the
      policy says, nothing kept is older than anything pruned, and nothing is lost or invented. */
  lemma PlanIsPrefixCut(p: Policy, vs: seq<VersionMeta>, now: int)
    ensures var s := PlanSplit(p, vs, now);
            && StablySorted(s.keep + s.prune, vs, Newer)
            && multiset(s.keep) + multiset(s.prune) == multiset(vs)
            && (forall x, y :: x in s.keep && y in s.prune ==> y.created <= x.created)
            && |s.keep + s.prune| == |vs|
            && (forall i :: 0 <= i < |vs| ==> (Keeps(p, i, (s.keep + s.prune)[i], now) <==> i < |s.keep|))
  {
    hide StableSort, StablySorted, Cut, Keeps, StrictWeakOrder;
    NewerIsOrder();
    var s, plan := StableSort(vs, Newer), PlanSplit(p, vs, now);
    SortIsStable(vs, Newer);
    SortPermutes(vs, Newer);
    SortOrdered(vs, Newer);
    TakeDrop(s, |plan.keep|);
    KeptIsNewer(plan.keep, plan.prune);
    forall i | 0 <= i < |vs|
      ensures Keeps(p, i, s[i], now) <==> i < |plan.keep|
    {
      CutClassifies(p, s, now, i);
    }
  }

  lemma KeptIsNewer(keep: seq<VersionMeta>, prune: seq<VersionMeta>)
    requires Ordered(keep + prune, Newer)
    ensures forall x, y :: x in keep && y in prune ==> y.created <= x.created
  {
    var s := keep + prune;
    forall x, y | x in keep && y in prune
      ensures y.created <= x.created
    {
      var i :| 0 <= i < |keep| && keep[i] == x;
      var j :| 0 <= j < |prune| && prune[j] == y;
      assert s[i] == x && s[|keep| + j] == y;
      assert !Newer(s[|keep| + j], s[i]);
    }
  }

  /** The window, whatever the distance in time: an age beyond the longest duration counts as that. */
  lemma WithinSinceIff(p: Policy, v: VersionMeta, now: int)
    ensures WithinSince(p, v, now) <==>
            p.keepSince > 0 && (now - v.created <= p.keepSince || p.keepSince >= 0x7FFF_FFFF_FFFF_FFFF)
  {
  }

  /** Neither number is set, or the rank is below the one, or the age is at most the other; ages beyond 64
      bits count as the longest duration, which only a window of that length takes in. */
  predicate Qualifies(p: Policy, i: nat, created: int, now: int) {
    || (p.keepLast == 0 && p.keepSince == 0)
    || i < p.keepLast
    || (p.keepSince > 0 && (now - created <= p.keepSince || p.keepSince >= 0x7FFF_FFFF_FFFF_FFFF))
  }

  lemma QualifiesIff(p: Policy, i: nat, v: VersionMeta, now: int)
    ensures Keeps(p, i, v, now) <==> Qualifies(p, i, v.created, now)
  {
    WithinSinceIff(p, v, now);
  }

  /** The plan in plain terms: newest first, cut exactly where versions stop qualifying. */
  lemma PlanInPlainTerms(p: Policy, vs: seq<VersionMeta>, now: int)
    ensures var plan := PlanSplit(p, vs, now);
            var s := plan.keep + plan.prune;
            && multiset(s) == multiset(vs) && |s| == |vs|
            && (forall i, j :: 0 <= i < j < |s| ==> s[i].created >= s[j].created)
            && (forall i :: 0 <= i < |s| ==> (i < |plan.keep| <==> Qualifies(p, i, s[i].created, now)))
  {
    hide PlanSplit, StableSort, Keeps, Qualifies;
    PlanIsPrefixCut(p, vs, now);
    var plan := PlanSplit(p, vs, now);
    var s := plan.keep + plan.prune;
    PlanIsSorted(p, vs, now);
    forall i | 0 <= i < |s|
      ensures i < |plan.keep| <==> Qualifies(p, i, s[i].created, now)
    {
      QualifiesIff(p, i, s[i], now);
    }
  }

  lemma PlanIsSorted(p: Policy, vs: seq<VersionMeta>, now: int)
    ensures var plan := PlanSplit(p, vs, now);
            var s := plan.keep + plan.prune;
            multiset(s) == multiset(vs) && forall i, j :: 0 <= i < j < |s| ==> s[i].created >= s[j].created
  {
    var plan, s := PlanSplit(p, vs, now), StableSort(vs, Newer);
    hide StableSort, Cut;
    NewerIsOrder();
    SortOrdered(vs, Newer);
    SortPermutes(vs, Newer);
    TakeDrop(s, |plan.keep|);
    forall i, j | 0 <= i < j < |s|
      ensures s[i].created >= s[j].created
    {
      assert !Newer(s[j], s[i]);
    }
  }

  /** So for a policy that is not the zero policy: nothing pruned is inside the window, everything inside
      it is kept, at least the newest `keepLast` are kept, and without a window exactly those are. */
  lemma PlanKeeps(p: Policy, vs: seq<VersionMeta>, now: int)
    requires p.keepLast != 0 || p.keepSince != 0
    ensures var plan := PlanSplit(p, vs, now);
            var newest := if p.keepLast < 0 then 0 else if p.keepLast > |vs| then |vs| else p.keepLast;
            && |plan.keep| >= newest
            && (p.keepSince <= 0 ==> |plan.keep| == newest)
            && (forall v :: v in plan.prune && p.keepSince > 0 ==> now - v.created > p.keepSince)
            && (forall v :: v in vs && p.keepSince > 0 && now - v.created <= p.keepSince ==> v in plan.keep)
            && |plan.keep| + |plan.prune| == |vs|
  {
    hide PlanSplit;
    PlanInPlainTerms(p, vs, now);
    var plan := PlanSplit(p, vs, now);
    var s, n := plan.keep + plan.prune, |plan.keep|;
    var newest := if p.keepLast < 0 then 0 else if p.keepLast > |vs| then |vs| else p.keepLast;
    if n < |s| {
      assert s[n] in s;
    }
    if newest < |s| {
      assert s[newest] in s;
    }
    forall v | v in plan.prune && p.keepSince > 0
      ensures now - v.created > p.keepSince
    {
      var j :| 0 <= j < |plan.prune| && plan.prune[j] == v;
      assert s[n + j] == v;
    }
    forall v | v in vs && p.keepSince > 0 && now - v.created <= p.keepSince
      ensures v in plan.keep
    {
      assert v in multiset(s);
      assert v in s;
    }
  }

  /** Any split with those properties is the plan. */
  lemma PlanIsTheOnlyPrefixCut(p: Policy, vs: seq<VersionMeta>, now: int, keep: seq<VersionMeta>, prune: seq<VersionMeta>)
    requires StablySorted(keep + prune, vs, Newer)
    requires forall i :: 0 <= i < |keep + prune| ==> (Keeps(p, i, (keep + prune)[i], now) <==> i < |keep|)
    ensures PlanSplit(p, vs, now) == Split(keep, prune)
  {
    NewerIsOrder();
    var s := StableSort(vs, Newer);
    SortIsStable(vs, Newer);
    forall g
      ensures Filter(s, TiedWith(Newer, g)) == Filter(keep + prune, TiedWith(Newer, g))
    {
      assert Filter(s, TiedWith(Newer, g)) == Filter(vs, TiedWith(Newer, g));
      assert Filter(keep + prune, TiedWith(Newer, g)) == Filter(vs, TiedWith(Newer, g));
    }
    StablySortedUnique(s, keep + prune, Newer);
    CutUnique(p, s, now, |keep|);
    assert s[..|keep|] == keep && s[|keep|..] == prune;
  }

  lemma CutOfShorterTail(p: Policy, keep: seq<VersionMeta>, prune: seq<VersionMeta>, fewer: seq<VersionMeta>, now: int)
    requires Ordered(keep + prune, Newer) && Ordered(keep + fewer, Newer)
    requires Cut(p, keep + prune, now) == |keep|
    requires forall v :: v in fewer ==> v in prune
    ensures Cut(p, keep + fewer, now) == |keep|
  {
    var s, t := keep + prune, keep + fewer;
    forall i | 0 <= i < |t|
      ensures Keeps(p, i, t[i], now) <==> i < |keep|
    {
      if i < |keep| {
        CutClassifies(p, s, now, i);
      } else {
        assert fewer[i - |keep|] in prune;
        var j :| 0 <= j < |prune| && prune[j] == t[i];
        assert s[|keep| + j] == prune[j];
        CutClassifies(p, s, now, |keep| + j);
      }
    }
    CutUnique(p, t, now, |keep|);
  }

  /** Deleting any part of the prune set leaves the plan's keep set alone and its prune set without
      the deleted part: the plan is a fixpoint the loop moves towards. */
  lemma PlanAfterPruning(p: Policy, vs: seq<VersionMeta>, now: int, stays: VersionMeta -> bool)
    requires forall v :: v in PlanSplit(p, vs, now).keep ==> stays(v)
    ensures PlanSplit(p, Filter(vs, stays), now)
         == Split(PlanSplit(p, vs, now).keep, Filter(PlanSplit(p, vs, now).prune, stays))
  {
    NewerIsOrder();
    var s := StableSort(vs, Newer);
    var plan := PlanSplit(p, vs, now);
    var fewer := Filter(plan.prune, stays);
    assert s == plan.keep + plan.prune;
    SortFilter(vs, Newer, stays);
    FilterConcat(plan.keep, plan.prune, stays);
    FilterAll(plan.keep, stays);
    var t := StableSort(Filter(vs, stays), Newer);
    assert t == plan.keep + fewer;
    SortOrdered(vs, Newer);
    SortOrdered(Filter(vs, stays), Newer);
    FilterMembers(plan.prune, stays);
    CutOfShorterTail(p, plan.keep, plan.prune, fewer, now);
    assert t[..|plan.keep|] == plan.keep && t[|plan.keep|..] == fewer;
  }

  /** Planning what was kept again later gives what planning the original set later would keep. */
  lemma PlanLater(p: Policy, vs: seq<VersionMeta>, now: int, later: int)
    requires now <= later
    ensures var first := PlanSplit(p, vs, now);
            var again := PlanSplit(p, first.keep, later);
            PlanSplit(p, vs, later) == Split(again.keep, again.prune + first.prune)
  {
    hide StableSort, Cut, StrictWeakOrder;
    NewerIsOrder();
    var s := StableSort(vs, Newer);
    var first := PlanSplit(p, vs, now);
    SortOrdered(vs, Newer);
    forall i, j | 0 <= i < j < |first.keep|
      ensures !Newer(first.keep[j], first.keep[i])
    {
      assert !Newer(s[j], s[i]);
    }
    SortFixesOrdered(first.keep, Newer);
    var c := Cut(p, first.keep, later);
    forall i | 0 <= i < |s|
      ensures Keeps(p, i, s[i], later) <==> i < c
    {
      CutClassifies(p, s, now, i);
      if i < |first.keep| {
        CutClassifies(p, first.keep, later, i);
      }
    }
    CutUnique(p, s, later, c);
    assert s[..c] == first.keep[..c] && s[c..] == first.keep[c..] + first.prune;
  }

  /** The verdict on the version of rank `i` in a run of equal versions. */
  lemma PlanOfCopies(p: Policy, v: VersionMeta, n: nat, now: int, i: nat)
    requires i < n
    ensures var s := PlanSplit(p, seq(n, _ => v), now);
            i < |s.keep| <==> Keeps(p, i, v, now)
  {
    var vs := seq(n, _ => v);
    PlanIsPrefixCut(p, vs, now);
    SortPermutes(vs, Newer);
    var s := PlanSplit(p, vs, now);
    assert s.keep + s.prune == StableSort(vs, Newer);
    assert (s.keep + s.prune)[i] in StableSort(vs, Newer);
  }

  /** A policy deletes nothing, whatever it is given, exactly when it is the zero policy or its
      window is the longest duration. */
  lemma NeverPrunes(p: Policy)
    ensures (forall vs, now :: PlanSplit(p, vs, now).prune == []) <==> Zero(p) || p.keepSince >= MAX_DURATION
  {
    if Zero(p) || p.keepSince >= MAX_DURATION {
      forall vs, now
        ensures PlanSplit(p, vs, now).prune == []
      {
        var s := StableSort(vs, Newer);
        NewerIsOrder();
        SortOrdered(vs, Newer);
        var c := Cut(p, s, now);
        if c < |s| {
          CutClassifies(p, s, now, c);
        }
      }
    } else {
      var n := if p.keepLast < 0 then 0 else p.keepLast;
      var v := VersionMeta(Version("v", "store/v", "dev"), 0);
      PlanOfCopies(p, v, n + 1, MAX_DURATION, n);
      assert PlanSplit(p, seq(n + 1, _ => v), MAX_DURATION).prune != [];
    }
  }

  /** A policy deletes everything, whatever it is given, exactly when it is not the zero policy and
      neither field is positive: a negative field is not a safe default. */
  lemma AlwaysPrunes(p: Policy)
    ensures (forall vs, now :: PlanSplit(p, vs, now).keep == []) <==> p.keepLast <= 0 && p.keepSince <= 0 && !Zero(p)
  {
    if !(p.keepLast <= 0 && p.keepSince <= 0 && !Zero(p)) {
      var v := VersionMeta(Version("v", "store/v", "dev"), 0);
      PlanOfCopies(p, v, 1, 0, 0);
      assert PlanSplit(p, seq(1, _ => v), 0).keep != [];
    }
  }
}
